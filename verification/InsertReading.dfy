/**
 * What a database makes of the written insert statement (crates/orm/src/insert.rs, `render`): parsed
 * back, it names the table and the columns, and its conflict clause updates exactly the rows its guard
 * lets through, each to the values its updates mean.
 */
module InsertReading {
  import opened Wrappers
  import opened SqlText
  import opened SqlGrammar
  import opened PredicateSql
  import opened PredicateWriter
  import opened InsertSql
  import opened UpsertSql
  import opened StatementGrammar
  import opened InsertWriter

  // ----- What the updates mean ------------------------------------------------------------------------------

  /** The value an update gives its column, for a row as stored. */
  function Intended(u: Update, row: Row, incoming: Row, sem: Semantics): Datum {
    if u.mode.Expression? then OperandMeaning(u.mode.operand, RowEnv(row, incoming, sem)) else Refreshed(row, incoming, sem, u)
  }

  predicate SetLater(us: seq<Update>, i: nat)
    requires i < |us|
  {
    exists k :: i < k < |us| && us[k].column == us[i].column
  }

  /** Columns that are not updated are as they were. */
  ghost predicate Kept(row: Row, us: seq<Update>, out: Row) {
    forall c :: (forall i :: 0 <= i < |us| ==> us[i].column != c) ==> (c in out <==> c in row) && Get(out, c) == Get(row, c)
  }

  /** Every column has the value its last update means for the stored row; columns not updated keep theirs. */
  ghost predicate Updated(row: Row, incoming: Row, sem: Semantics, us: seq<Update>, out: Row) {
    && (forall i :: 0 <= i < |us| && !SetLater(us, i) ==>
          us[i].column in out && out[us[i].column] == Intended(us[i], row, incoming, sem))
    && Kept(row, us, out)
  }

  /** One update after the other, each from the row the one before left. */
  ghost function InTurn(row: Row, incoming: Row, sem: Semantics, us: seq<Update>): Row {
    if us == [] then row
    else
      var before, u := InTurn(row, incoming, sem, us[..|us| - 1]), us[|us| - 1];
      before[u.column := Intended(u, before, incoming, sem)]
  }

  /** The guard of a conflict update is that of the tree: no guard lets every row through. */
  predicate Lets(guard: Option<Predicate>, row: Row, incoming: Row, sem: Semantics) {
    guard.None? || Meaning(guard.value, RowEnv(row, incoming, sem)) == True
  }

  /** What a conflict is meant to make of a stored row, in a standard database and in MySQL. */
  ghost predicate Resolves(d: Dialect, k: Conflict, columns: seq<string>, row: Row, incoming: Row, sem: Semantics, out: Row) {
    var us := Resolved(k, columns);
    if us == [] || (!d.onDuplicateKey && !Lets(k.guard, row, incoming, sem)) then out == row
    else if d.onDuplicateKey then out == InTurn(row, incoming, sem, us)
    else Updated(row, incoming, sem, us, out)
  }

  // ----- The assignments run as meant ------------------------------------------------------------------------

  /** The assignment sets the update's column to what the update means, whatever the row. */
  ghost predicate Gives(x: Assignment, u: Update, incoming: Row, sem: Semantics, binds: seq<Datum>) {
    && x.column == u.column
    && forall row: Row :: Eval(x.value, RowEnv(row, incoming, sem), binds) == Intended(u, row, incoming, sem)
  }

  ghost predicate Means(xs: seq<Assignment>, us: seq<Update>, incoming: Row, sem: Semantics, binds: seq<Datum>) {
    |xs| == |us| && forall i :: 0 <= i < |us| ==> Gives(xs[i], us[i], incoming, sem, binds)
  }

  lemma SetLaterStep(us: seq<Update>, u: Update, i: nat)
    requires i <= |us|
    ensures SetLater(us + [u], i) <==> i < |us| && (SetLater(us, i) || us[i].column == u.column)
  {
    var all := us + [u];
    assert forall k :: 0 <= k < |us| ==> all[k] == us[k];
    assert all[|us|] == u;
    if i < |us| && SetLater(us, i) {
      var k :| i < k < |us| && us[k].column == us[i].column;
      assert all[k].column == all[i].column;
    }
  }

  lemma KeptStep(row: Row, us: seq<Update>, u: Update, out: Row, v: Datum)
    requires Kept(row, us, out)
    ensures Kept(row, us + [u], out[u.column := v])
  {
    var all, next := us + [u], out[u.column := v];
    forall c | forall i :: 0 <= i < |all| ==> all[i].column != c ensures (c in next <==> c in row) && Get(next, c) == Get(row, c) {
      assert all[|us|].column != c;
      assert forall i :: 0 <= i < |us| ==> all[i] == us[i];
    }
  }

  lemma UpdatedStep(row: Row, incoming: Row, sem: Semantics, us: seq<Update>, u: Update, out: Row)
    requires Updated(row, incoming, sem, us, out)
    ensures Updated(row, incoming, sem, us + [u], out[u.column := Intended(u, row, incoming, sem)])
  {
    hide Intended, SetLater, Kept;
    var all, next := us + [u], out[u.column := Intended(u, row, incoming, sem)];
    KeptStep(row, us, u, out, Intended(u, row, incoming, sem));
    forall i | 0 <= i < |all| && !SetLater(all, i)
      ensures all[i].column in next && next[all[i].column] == Intended(all[i], row, incoming, sem)
    {
      SetLaterStep(us, u, i);
    }
  }

  lemma NothingUpdated(row: Row, incoming: Row, sem: Semantics)
    ensures Updated(row, incoming, sem, [], row)
  {
  }

  lemma {:induction false} AtOnce(xs: seq<Assignment>, us: seq<Update>, row: Row, incoming: Row, sem: Semantics, binds: seq<Datum>)
    requires Means(xs, us, incoming, sem, binds)
    ensures Updated(row, incoming, sem, us, Simultaneous(row, incoming, sem, binds, xs))
    ensures LeftToRight(row, incoming, sem, binds, xs) == InTurn(row, incoming, sem, us)
    decreases |us|
  {
    hide Eval, Updated, Intended;
    if us == [] {
      NothingUpdated(row, incoming, sem);
    } else {
      var n := |us| - 1;
      assert Gives(xs[n], us[n], incoming, sem, binds);
      AtOnce(xs[..n], us[..n], row, incoming, sem, binds);
      UpdatedStep(row, incoming, sem, us[..n], us[n], Simultaneous(row, incoming, sem, binds, xs[..n]));
      assert us == us[..n] + [us[n]];
    }
  }

  // ----- Binds in place ---------------------------------------------------------------------------------------

  lemma {:induction false} UpdatesBindsAt(d: Dialect, us: seq<Update>, i: nat, binds: seq<Datum>, from: nat)
    requires i < |us| && Placed(binds, from, UpdatesBinds(d, us))
    ensures Placed(binds, from + |UpdatesBinds(d, us[..i])|, UpdateBinds(d, us[i]))
  {
    hide Placed, UpdateBinds;
    PlacedParts(binds, from, UpdateBinds(d, us[0]), UpdatesBinds(d, us[1..]));
    if i == 0 {
      assert us[..0] == [];
    } else {
      UpdatesBindsAt(d, us[1..], i - 1, binds, from + |UpdateBinds(d, us[0])|);
      assert us[..i][1..] == us[1..][..i - 1] && us[..i][0] == us[0];
    }
  }

  lemma ValueIntended(d: Dialect, from: nat, table: string, u: Update, row: Row, incoming: Row, sem: Semantics, binds: seq<Datum>)
    requires Placed(binds, from, UpdateBinds(d, u)) && Sane(sem)
    ensures Eval(ExprAt(d, from, table, u), RowEnv(row, incoming, sem), binds) == Intended(u, row, incoming, sem)
  {
    hide Eval, OperandExpr, OperandMeaning, Placed, ValueExpr, Refreshed, Sane, OperandBinds;
    if u.mode.Expression? {
      SameSemantics(row, incoming, sem);
      OperandEval(d, from, u.mode.operand, RowEnv(row, incoming, sem), binds);
    } else {
      ValueMeans(d, table, u, row, incoming, sem, binds);
    }
  }

  lemma SameSemantics(row: Row, incoming: Row, sem: Semantics)
    ensures RowEnv(row, incoming, sem).sem == sem
  {
  }

  lemma AssignmentsMean(d: Dialect, from: nat, table: string, us: seq<Update>, incoming: Row, sem: Semantics, binds: seq<Datum>)
    requires Placed(binds, from, UpdatesBinds(d, us)) && Sane(sem)
    ensures Means(AssignmentsAt(d, from, table, us), us, incoming, sem, binds)
  {
    hide Eval, Intended, ExprAt, Placed, UpdatesBinds, UpdateBinds, Sane;
    var xs := AssignmentsAt(d, from, table, us);
    forall i | 0 <= i < |us| ensures Gives(xs[i], us[i], incoming, sem, binds) {
      UpdatesBindsAt(d, us, i, binds, from);
      forall row: Row ensures Eval(xs[i].value, RowEnv(row, incoming, sem), binds) == Intended(us[i], row, incoming, sem) {
        ValueIntended(d, from + |UpdatesBinds(d, us[..i])|, table, us[i], row, incoming, sem, binds);
      }
    }
  }

  // ----- The clause is read back ---------------------------------------------------------------------------------

  lemma {:induction false} NamesCons(names: seq<string>)
    requires names != []
    ensures NamesText(names) == [Ident(names[0])] + (if |names| == 1 then [] else [Comma] + NamesText(names[1..]))
  {
    var n := |names| - 1;
    if n == 0 {
      assert names[..0] == [];
    } else {
      NamesCons(names[..n]);
      assert names[..n][1..] == names[1..][..n - 1];
    }
  }

  lemma {:induction false} NamesParse(names: seq<string>, rest: Sql)
    requires At(rest, Close)
    ensures ParseNames(NamesText(names) + rest) == Done(names, rest)
  {
    hide NamesText;
    var ts := NamesText(names) + rest;
    if names == [] {
      NoNamesText();
      assert ts == rest;
    } else {
      NamesCons(names);
      if |names| == 1 {
        assert ts[1..] == rest;
        assert names == [names[0]];
      } else {
        var more := NamesText(names[1..]) + rest;
        NamesParse(names[1..], rest);
        assert ts == [Ident(names[0]), Comma] + more;
        assert ts[2..] == more && ts[1..][0] == Comma;
        assert names == [names[0]] + names[1..];
      }
    }
  }

  lemma NoNamesText()
    ensures NamesText([]) == []
  {
  }

  /** The expression the written guard stands for. */
  function GuardExpr(d: Dialect, from: nat, guard: Option<Predicate>): Option<Expr> {
    if guard.None? then None else Some(PredicateExpr(d, from, guard.value))
  }

  lemma GuardParses(d: Dialect, from: nat, guard: Option<Predicate>)
    ensures var ts := GuardText(d, from, guard);
            if guard.None? then ts == []
            else At(ts, WhereWord) && ParseOr(ts[1..]) == Done(PredicateExpr(d, from, guard.value), [])
  {
    hide ParseOr, PredicateText, PredicateExpr;
    if guard.Some? {
      var text := PredicateText(d, from, guard.value);
      assert GuardText(d, from, guard)[1..] == text;
      PredicateAll(d, from, guard.value, []);
      assert text + [] == text;
    }
  }

  lemma GuardMeans(d: Dialect, from: nat, guard: Option<Predicate>, row: Row, incoming: Row, sem: Semantics, binds: seq<Datum>)
    requires Placed(binds, from, GuardBinds(d, guard)) && Sane(sem)
    ensures Lets(guard, row, incoming, sem) <==>
            guard.None? || AsTruth(Eval(GuardExpr(d, from, guard).value, RowEnv(row, incoming, sem), binds)) == True
  {
    hide Eval, PredicateExpr, Meaning, Binds, Placed, Sane;
    if guard.Some? {
      SameSemantics(row, incoming, sem);
      PredicateEval(d, from, guard.value, RowEnv(row, incoming, sem), binds);
    }
  }

  /** The clause as it is read, after `from` binds. */
  function ClauseOf(d: Dialect, from: nat, table: string, columns: seq<string>, k: Conflict): Clause {
    var us := Resolved(k, columns);
    if d.onDuplicateKey then SetsInOrder(if us == [] then SelfAssignment(k.targets, columns) else AssignmentsAt(d, from, table, us))
    else if us == [] then Ignores(k.targets)
    else Sets(k.targets, AssignmentsAt(d, from, table, us), GuardExpr(d, from + |UpdatesBinds(d, us)|, k.guard))
  }

  function SelfAssignment(targets: seq<string>, columns: seq<string>): seq<Assignment> {
    if targets != [] then [Assignment(targets[0], Stored(targets[0]))]
    else if columns != [] then [Assignment(columns[0], Stored(columns[0]))]
    else []
  }

  lemma SelfParses(column: string)
    ensures ParseAssignments([Ident(column), CompareSign(Eq), Ident(column)]) == Done([Assignment(column, Stored(column))], [])
  {
    var ts := [Ident(column), CompareSign(Eq), Ident(column)];
    assert ts[2..] == [Ident(column)] && [Ident(column)][1..] == [];
    PrimaryAll([Ident(column)], Stored(column), []);
  }

  lemma DuplicateParses(d: Dialect, from: nat, table: string, columns: seq<string>, k: Conflict)
    requires d.onDuplicateKey && (Resolved(k, columns) == [] ==> k.targets != [] || columns != [])
    ensures ParseClause(ConflictText(d, from, table, columns, k)) == Some(ClauseOf(d, from, table, columns, k))
  {
    hide ParseAssignments, Resolved, UpdatesText, AssignmentsAt;
    var us, ts := Resolved(k, columns), ConflictText(d, from, table, columns, k);
    if us == [] {
      SelfParses(if k.targets != [] then k.targets[0] else columns[0]);
      assert ts[1..] == SelfText(k.targets, columns);
    } else {
      assert ts[1..] == UpdatesText(d, from, table, us);
      AssignmentsParse(d, from, table, us, []);
      assert UpdatesText(d, from, table, us) + [] == UpdatesText(d, from, table, us);
    }
  }

  lemma ConflictParses(d: Dialect, from: nat, table: string, columns: seq<string>, k: Conflict)
    requires !d.onDuplicateKey
    ensures ParseClause(ConflictText(d, from, table, columns, k)) == Some(ClauseOf(d, from, table, columns, k))
  {
    hide ParseClause, ParseNames, ParseAssignments, ParseOr, NamesText, Resolved, UpdatesText, AssignmentsAt, GuardText, PredicateExpr;
    var us := Resolved(k, columns);
    if us == [] {
      NamesParse(k.targets, [Close] + [DoNothingWord]);
      NothingReads(k.targets, NamesText(k.targets));
    } else {
      var at := from + |UpdatesBinds(d, us)|;
      var sets, guard := UpdatesText(d, from, table, us), GuardText(d, at, k.guard);
      GuardParses(d, at, k.guard);
      AssignmentsParse(d, from, table, us, guard);
      NamesParse(k.targets, [Close] + ([DoUpdateWord] + (sets + guard)));
      SetReads(k.targets, NamesText(k.targets), sets, AssignmentsAt(d, from, table, us), guard, GuardExpr(d, at, k.guard));
    }
  }

  // ----- Placeholders and clause words in the whole statement -----------------------------------------------------

  lemma {:induction false} TupleConsumes(d: Dialect, from: nat, bs: seq<Bind>)
    ensures Consumes(Numbers(d), TupleText(d, from, bs), from, |bs|)
  {
    hide Consumes, BindText;
    if bs == [] {
      PlainTokens([]);
    } else {
      var m := |bs| - 1;
      TupleConsumes(d, from, bs[..m]);
      BindConsumes(Numbers(d), from + m, bs[m]);
      PlainTokens(if m > 0 then [Comma] else []);
      var before := TupleText(d, from, bs[..m]) + (if m > 0 then [Comma] else []);
      ConsumesConcat(Numbers(d), TupleText(d, from, bs[..m]), if m > 0 then [Comma] else [], from, m, 0);
      ConsumesConcat(Numbers(d), before, BindText(Numbers(d), from + m + 1, bs[m]), from, m, 1);
    }
  }

  lemma {:induction false} ValuesConsume(d: Dialect, from: nat, tuples: seq<seq<Bind>>)
    ensures Consumes(Numbers(d), ValuesText(d, from, tuples), from, |Flat(tuples)|)
  {
    hide Consumes, TupleText, ValuesText, Flat;
    if tuples == [] {
      NoValues(d, from);
    } else {
      var m := |tuples| - 1;
      ValuesConsume(d, from, tuples[..m]);
      ValuesSnoc(d, from, tuples, m);
      assert tuples[..m + 1] == tuples;
      TupleConsumes(d, from + |Flat(tuples[..m])|, tuples[m]);
      OneMoreTuple(d, ValuesText(d, from, tuples[..m]), m > 0, TupleText(d, from + |Flat(tuples[..m])|, tuples[m]),
                   from, |Flat(tuples[..m])|, |tuples[m]|);
    }
  }

  lemma NoValues(d: Dialect, from: nat)
    ensures Consumes(Numbers(d), ValuesText(d, from, []), from, |Flat([])|)
  {
    PlainTokens([]);
  }

  lemma OneMoreTuple(d: Dialect, before: Sql, later: bool, tuple: Sql, from: nat, m: nat, n: nat)
    requires Consumes(Numbers(d), before, from, m) && Consumes(Numbers(d), tuple, from + m, n)
    ensures Consumes(Numbers(d), before + (if later then [Comma] else []) + ([Open] + (tuple + [Close])), from, m + n)
  {
    hide Consumes;
    var dn, comma := Numbers(d), if later then [Comma] else [];
    PlainTokens(comma);
    PlainTokens([Open]);
    PlainTokens([Close]);
    Around(dn, [Open], tuple, [Close], from + m, n);
    ConsumesConcat(dn, before, comma, from, m, 0);
    ConsumesConcat(dn, before + comma, [Open] + (tuple + [Close]), from, m, n);
  }

  lemma ValueConsumes(d: Dialect, from: nat, table: string, u: Update)
    ensures Consumes(Numbers(d), ValueText(d, from, table, u), from, |UpdateBinds(d, u)|)
  {
    hide Consumes, OperandText, OperandBinds;
    if u.mode.Expression? {
      OperandConsumes(d, from, u.mode.operand);
    } else {
      PlainTokens(ValueText(d, from, table, u));
    }
  }

  lemma {:induction false} UpdatesConsume(d: Dialect, from: nat, table: string, us: seq<Update>)
    ensures Consumes(Numbers(d), UpdatesText(d, from, table, us), from, |UpdatesBinds(d, us)|)
    decreases |us|
  {
    hide Consumes, ValueText, UpdateBinds;
    PlainTokens([]);
    if us != [] {
      var dn, u, head := Numbers(d), us[0], [Ident(us[0].column), CompareSign(Eq)];
      var m := |UpdateBinds(d, u)|;
      ValueConsumes(d, from, table, u);
      PlainTokens(head);
      ConsumesConcat(dn, head, ValueText(d, from, table, u), from, 0, m);
      if |us| > 1 {
        var more := UpdatesText(d, from + m, table, us[1..]);
        UpdatesConsume(d, from + m, table, us[1..]);
        PlainTokens([Comma]);
        ConsumesConcat(dn, [Comma], more, from + m, 0, |UpdatesBinds(d, us[1..])|);
        ConsumesConcat(dn, UpdateText(d, from, table, u), [Comma] + more, from, m, |UpdatesBinds(d, us[1..])|);
      }
    }
  }

  lemma {:induction false} NamesPlain(names: seq<string>)
    ensures forall i :: 0 <= i < |NamesText(names)| ==> NamesText(names)[i].Ident? || NamesText(names)[i].Comma?
  {
    if names != [] {
      NamesPlain(names[..|names| - 1]);
    }
  }

  lemma GuardConsumes(d: Dialect, from: nat, guard: Option<Predicate>)
    ensures Consumes(Numbers(d), GuardText(d, from, guard), from, |GuardBinds(d, guard)|)
  {
    hide Consumes, PredicateText, Binds;
    PlainTokens([]);
    if guard.Some? {
      PlainTokens([WhereWord]);
      PredicateConsumes(d, from, guard.value);
      ConsumesConcat(Numbers(d), [WhereWord], PredicateText(d, from, guard.value), from, 0, |Binds(d, guard.value)|);
    }
  }

  lemma SetConsumes(d: Dialect, from: nat, table: string, us: seq<Update>, guard: Option<Predicate>)
    ensures var m := |UpdatesBinds(d, us)|;
            Consumes(Numbers(d), [DoUpdateWord] + (UpdatesText(d, from, table, us) + GuardText(d, from + m, guard)),
                     from, m + |GuardBinds(d, guard)|)
  {
    hide Consumes, UpdatesText, UpdatesBinds, GuardText, GuardBinds;
    var dn, m, n := Numbers(d), |UpdatesBinds(d, us)|, |GuardBinds(d, guard)|;
    UpdatesConsume(d, from, table, us);
    GuardConsumes(d, from + m, guard);
    PlainTokens([DoUpdateWord]);
    ConsumesConcat(dn, UpdatesText(d, from, table, us), GuardText(d, from + m, guard), from, m, n);
    ConsumesConcat(dn, [DoUpdateWord], UpdatesText(d, from, table, us) + GuardText(d, from + m, guard), from, 0, m + n);
  }

  lemma ConflictConsumes(d: Dialect, from: nat, table: string, columns: seq<string>, k: Conflict)
    ensures Consumes(Numbers(d), ConflictText(d, from, table, columns, k), from, |ConflictBinds(d, columns, k)|)
  {
    hide Consumes, UpdatesText, UpdatesBinds, GuardText, GuardBinds, NamesText, Resolved;
    var dn, us := Numbers(d), Resolved(k, columns);
    if d.onDuplicateKey {
      var m := |UpdatesBinds(d, us)|;
      UpdatesConsume(d, from, table, us);
      PlainTokens([OnDuplicateWord]);
      PlainTokens(SelfText(k.targets, columns));
      ConsumesConcat(dn, [OnDuplicateWord], if us == [] then SelfText(k.targets, columns) else UpdatesText(d, from, table, us),
                     from, 0, if us == [] then 0 else m);
    } else {
      NamesPlain(k.targets);
      var names := NamesText(k.targets);
      var head, n := [OnConflictWord, Open] + (names + [Close]), |ConflictBinds(d, columns, k)|;
      PlainTokens(head);
      PlainTokens([DoNothingWord]);
      SetConsumes(d, from, table, us, k.guard);
      var action := if us == [] then [DoNothingWord]
                    else [DoUpdateWord] + (UpdatesText(d, from, table, us) + GuardText(d, from + |UpdatesBinds(d, us)|, k.guard));
      ConsumesConcat(dn, head, action, from, 0, n);
      Regrouped([OnConflictWord, Open], names, [Close], action);
    }
  }

  lemma Regrouped(a: Sql, b: Sql, c: Sql, e: Sql)
    ensures a + (b + c) + e == a + (b + (c + e))
  {
  }

  lemma StatementConsumes(d: Dialect, table: string, columns: seq<string>, tuples: seq<seq<Bind>>, k: Option<Conflict>)
    ensures Consumes(Numbers(d), InsertText(d, table, columns, tuples, k), 0, |Flat(tuples) + ConflictPartBinds(d, columns, k)|)
  {
    hide Consumes, NamesText, ValuesText, Flat, ConflictText, ConflictBinds;
    NamesPlain(columns);
    PlainTokens(HeadText(table, columns));
    PlainTokens([]);
    var n, dn := |Flat(tuples)|, Numbers(d);
    ValuesConsume(d, 0, tuples);
    if k.Some? {
      ConflictConsumes(d, n, table, columns, k.value);
    }
    var clause, m := ConflictPart(d, n, table, columns, k), |ConflictPartBinds(d, columns, k)|;
    ConsumesConcat(dn, ValuesText(d, 0, tuples), clause, 0, n, m);
    ConsumesConcat(dn, HeadText(table, columns), ValuesText(d, 0, tuples) + clause, 0, 0, n + m);
  }

  // ----- The rows are read back ----------------------------------------------------------------------------------

  /** However it is wrapped, a value ends where its text ends. */
  lemma BindEnds(d: Dialect, position: nat, b: Bind, rest: Sql)
    requires At(rest, Comma) || At(rest, Close)
    ensures var text := BindText(d, position, b);
            text != [] && !At(text, Close) && ValueEnd(text + rest, 0) == |text|
  {
    var p := Placeholder(d, position);
    if b.Geo? && b.srid.Some? && (d.geoBefore != "" || d.geoAfter != "") {
      var point := Raw(d.geoBefore) + [p] + Raw(d.geoAfter);
      var tail := [Comma, Number(b.srid.value)];
      var text := BindText(d, position, b);
      assert text == [SetSridWord] + (point + tail + [Close]);
      assert (text + rest)[1..] == point + tail + ([Close] + rest);
      ValuePlain(point + tail, [Close] + rest, 1);
      assert ([Close] + rest)[1..] == rest;
    } else {
      ValuePlain(BindText(d, position, b), rest, 0);
    }
  }

  /** The texts of a tuple's values, after `from` binds. */
  function ValueTexts(d: Dialect, from: nat, bs: seq<Bind>): seq<Sql> {
    seq(|bs|, i requires 0 <= i < |bs| => BindText(Numbers(d), from + i + 1, bs[i]))
  }

  lemma {:induction false} TupleCons(d: Dialect, from: nat, bs: seq<Bind>)
    requires bs != []
    ensures TupleText(d, from, bs) ==
            BindText(Numbers(d), from + 1, bs[0]) +
            (if |bs| == 1 then [] else [Comma] + TupleText(d, from + 1, bs[1..]))
  {
    hide BindText;
    var m := |bs| - 1;
    if m == 0 {
      assert bs[..0] == [];
    } else {
      TupleCons(d, from, bs[..m]);
      assert bs[..m][1..] == bs[1..][..m - 1];
      assert bs[1..][m - 1] == bs[m];
    }
  }

  lemma {:induction false} TupleParses(d: Dialect, from: nat, bs: seq<Bind>, rest: Sql)
    ensures ParseTuple(TupleText(d, from, bs) + ([Close] + rest)) == Done(ValueTexts(d, from, bs), rest)
    decreases |bs|
  {
    hide BindText, TupleText, ParseTuple, ValueEnd;
    if bs == [] {
      NoValue(d, from, rest);
    } else {
      var first, more := BindText(Numbers(d), from + 1, bs[0]), TupleText(d, from + 1, bs[1..]) + ([Close] + rest);
      TupleCons(d, from, bs);
      if |bs| == 1 {
        BindEnds(Numbers(d), from + 1, bs[0], [Close] + rest);
        LastValue(first, rest);
        assert TupleText(d, from, bs) == first;
        assert ValueTexts(d, from, bs) == [first];
      } else {
        BindEnds(Numbers(d), from + 1, bs[0], [Comma] + more);
        TupleParses(d, from + 1, bs[1..], rest);
        MoreValues(first, more, ValueTexts(d, from + 1, bs[1..]), rest);
        assert TupleText(d, from, bs) + ([Close] + rest) == first + ([Comma] + more);
        assert ValueTexts(d, from, bs) == [first] + ValueTexts(d, from + 1, bs[1..]);
      }
    }
  }

  lemma NoValue(d: Dialect, from: nat, rest: Sql)
    ensures ParseTuple(TupleText(d, from, []) + ([Close] + rest)) == Done(ValueTexts(d, from, []), rest)
  {
    hide ParseTuple, BindText;
    var ts := [Close] + rest;
    assert TupleText(d, from, []) == [] && [] + ts == ts;
    assert ValueTexts(d, from, []) == [];
    EmptyTuple(ts);
    assert ts[1..] == rest;
  }

  lemma EmptyTuple(ts: Sql)
    requires At(ts, Close)
    ensures ParseTuple(ts) == Done([], ts[1..])
  {
  }

  /** The texts of all rows: each row's after the binds of the rows before it. */
  function RowTexts(d: Dialect, from: nat, tuples: seq<seq<Bind>>): seq<seq<Sql>> {
    seq(|tuples|, i requires 0 <= i < |tuples| => ValueTexts(d, from + |Flat(tuples[..i])|, tuples[i]))
  }

  lemma {:induction false} FlatCons(tuples: seq<seq<Bind>>)
    requires tuples != []
    ensures Flat(tuples) == Payloads(tuples[0]) + Flat(tuples[1..])
  {
    hide Payloads;
    var m := |tuples| - 1;
    if m == 0 {
      assert tuples[..0] == [];
    } else {
      FlatCons(tuples[..m]);
      assert tuples[..m][1..] == tuples[1..][..m - 1] && tuples[1..][m - 1] == tuples[m];
    }
  }

  lemma RowTextsCons(d: Dialect, from: nat, tuples: seq<seq<Bind>>)
    requires tuples != []
    ensures RowTexts(d, from, tuples) ==
            [ValueTexts(d, from, tuples[0])] + RowTexts(d, from + |tuples[0]|, tuples[1..])
  {
    hide ValueTexts, Flat;
    var more := tuples[1..];
    forall i | 0 <= i < |more| ensures |Flat(tuples[..i + 1])| == |tuples[0]| + |Flat(more[..i])| {
      FlatCons(tuples[..i + 1]);
      assert tuples[..i + 1][1..] == more[..i];
    }
    NoFlat();
    assert tuples[..0] == [];
  }

  lemma NoFlat()
    ensures Flat([]) == []
  {
  }

  lemma {:induction false} ValuesCons(d: Dialect, from: nat, tuples: seq<seq<Bind>>)
    requires tuples != []
    ensures ValuesText(d, from, tuples) ==
            [Open] + (TupleText(d, from, tuples[0]) + [Close]) +
            (if |tuples| == 1 then [] else [Comma] + ValuesText(d, from + |tuples[0]|, tuples[1..]))
  {
    hide TupleText, ValuesText, Flat;
    var m := |tuples| - 1;
    ValuesSnoc(d, from, tuples, m);
    assert tuples[..m + 1] == tuples;
    NoFlat();
    if m == 0 {
      assert tuples[..0] == [];
      NoValuesText(d, from);
    } else {
      ValuesCons(d, from, tuples[..m]);
      var more := tuples[1..];
      ValuesSnoc(d, from + |tuples[0]|, more, m - 1);
      assert more[..m] == more && more[..m - 1] == tuples[..m][1..] && more[m - 1] == tuples[m];
      FlatCons(tuples[..m]);
      if m == 1 {
        assert more[..0] == [];
        NoValuesText(d, from + |tuples[0]|);
      }
    }
  }

  lemma NoValuesText(d: Dialect, from: nat)
    ensures ValuesText(d, from, []) == []
  {
  }

  lemma {:induction false} RowsParse(d: Dialect, from: nat, tuples: seq<seq<Bind>>, rest: Sql)
    requires tuples != [] && !At(rest, Comma)
    ensures ParseRows(ValuesText(d, from, tuples) + rest) == Done(RowTexts(d, from, tuples), rest)
    decreases |tuples|
  {
    hide TupleText, ValuesText, ParseTuple, ParseRows, ValueTexts, RowTexts;
    ValuesCons(d, from, tuples);
    RowTextsCons(d, from, tuples);
    var first := TupleText(d, from, tuples[0]);
    if |tuples| == 1 {
      TupleParses(d, from, tuples[0], rest);
      LastRow(first + ([Close] + rest), ValueTexts(d, from, tuples[0]), rest);
      assert ValuesText(d, from, tuples) + rest == [Open] + (first + ([Close] + rest));
      NoRows(d, from + |tuples[0]|, tuples[1..]);
      assert RowTexts(d, from, tuples) == [ValueTexts(d, from, tuples[0])];
    } else {
      var after := from + |tuples[0]|;
      var more := ValuesText(d, after, tuples[1..]) + rest;
      RowsParse(d, after, tuples[1..], rest);
      TupleParses(d, from, tuples[0], [Comma] + more);
      MoreRows(first + ([Close] + ([Comma] + more)), ValueTexts(d, from, tuples[0]), more, RowTexts(d, after, tuples[1..]), rest);
      assert ValuesText(d, from, tuples) + rest == [Open] + (first + ([Close] + ([Comma] + more)));
    }
  }

  lemma NoRows(d: Dialect, from: nat, tuples: seq<seq<Bind>>)
    requires tuples == []
    ensures RowTexts(d, from, tuples) == []
  {
  }

  /** A value of a tuple reads as its own bind, under its own cast if the dialect has casts. */
  lemma ValueReads(d: Dialect, position: nat, b: Bind, binds: seq<Datum>)
    requires 1 <= position <= |binds|
    ensures ValueOf(BindText(Numbers(d), position, b), binds) == Some(binds[position - 1])
    ensures CastOf(BindText(Numbers(d), position, b)) == if b.Cast? && d.casts then Some(b.cast) else None
  {
    hide Placeholders, BindText, CastOf;
    PlaceholderReads(Numbers(d), position, b);
    CastReads(Numbers(d), position, b);
  }

  lemma PlaceholderReads(d: Dialect, position: nat, b: Bind)
    requires d.numbered && 1 <= position
    ensures Placeholders(BindText(d, position, b)) == [Numbered(position)]
  {
    BindConsumes(d, position - 1, b);
    hide BindText;
    assert InOrder(d, position - 1, 1) == [Numbered(position)];
  }

  lemma CastReads(d: Dialect, position: nat, b: Bind)
    ensures CastOf(BindText(d, position, b)) == if b.Cast? && d.casts then Some(b.cast) else None
  {
    var text, p := BindText(d, position, b), Placeholder(d, position);
    assert p != Verbatim("::");
    if b.Geo? && b.srid.Some? && (d.geoBefore != "" || d.geoAfter != "") {
      assert text[|text| - 1] == Close;
    } else if b.Vector? || b.Geo? {
      NotCast(if b.Geo? then d.geoBefore else d.vectorBefore, p, if b.Geo? then d.geoAfter else d.vectorAfter);
    }
  }

  lemma NotCast(before: string, p: Token, after: string)
    requires p != Verbatim("::")
    ensures CastOf(Raw(before) + [p] + Raw(after)) == None
  {
  }

  /** Every row is read as the row it was: in each listed column its own value, cast as it asks for. */
  ghost predicate RowsRead(s: Shape, d: Dialect, columns: seq<string>, rows: seq<NewRow>, tuples: seq<seq<Bind>>,
                           texts: seq<seq<Sql>>, binds: seq<Datum>)
    requires Rows(s, rows) && |tuples| == |rows|
  {
    && |texts| == |rows|
    && (forall i :: 0 <= i < |rows| ==> |texts[i]| == |tuples[i]| == |columns|)
    && forall i, c :: 0 <= i < |rows| && 0 <= c < |columns| ==>
         ValueRead(s, d, rows[i], columns[c], tuples[i][c], texts[i][c], binds)
  }

  ghost predicate ValueRead(s: Shape, d: Dialect, row: NewRow, column: string, b: Bind, text: Sql, binds: seq<Datum>)
    requires |row.required| == |s.required| && |row.optional| == |s.optional|
  {
    var v := ValueOf(text, binds);
    && v.Some? && Holds(s, row, column, v.value)
    && CastOf(text) == if b.Cast? && d.casts then Some(b.cast) else None
  }

  lemma RowsAreRead(s: Shape, d: Dialect, columns: seq<string>, rows: seq<NewRow>, k: Option<Conflict>,
                    tuples: seq<seq<Bind>>, sql: Sql, binds: seq<Datum>)
    requires Rows(s, rows) && Written(s, d, columns, rows, k, tuples, sql, binds)
    ensures RowsRead(s, d, columns, rows, tuples, RowTexts(d, 0, tuples), binds)
  {
    hide Mask, InsertText, ConflictPartBinds, Holds, Flat, BindText, ValueOf, CastOf, Payloads;
    var texts := RowTexts(d, 0, tuples);
    forall i, c | 0 <= i < |rows| && 0 <= c < |columns|
      ensures ValueRead(s, d, rows[i], columns[c], tuples[i][c], texts[i][c], binds)
    {
      FlatAt(tuples, |columns|, i, c);
      FlatFront(tuples, |columns|, i);
      BindOfRow(s, d, columns, rows, k, tuples, sql, binds, i, c);
      var at := i * |columns| + c;
      ValueReads(d, at + 1, tuples[i][c], binds);
    }
  }

  lemma FlatFront(tuples: seq<seq<Bind>>, n: nat, i: nat)
    requires (forall k :: 0 <= k < |tuples| ==> |tuples[k]| == n) && i <= |tuples|
    ensures |Flat(tuples[..i])| == i * n
  {
    hide Flat;
    FlatLength(tuples[..i], n);
  }

  // ----- The statement as a database reads and runs it -----------------------------------------------------------

  /** What `write_conflict` leaves to MySQL in place of DO NOTHING: a column to assign to itself. */
  predicate SelfIn(d: Dialect, k: Option<Conflict>, columns: seq<string>, row: Row) {
    k.Some? && d.onDuplicateKey && Resolved(k.value, columns) == [] ==>
      var xs := SelfAssignment(k.value.targets, columns);
      xs != [] && xs[0].column in row
  }

  function ReadClause(d: Dialect, from: nat, table: string, columns: seq<string>, k: Option<Conflict>): Clause {
    if k.None? then Rejects else ClauseOf(d, from, table, columns, k.value)
  }

  lemma StatementReads(s: Shape, d: Dialect, columns: seq<string>, rows: seq<NewRow>, k: Option<Conflict>,
                       tuples: seq<seq<Bind>>, sql: Sql, binds: seq<Datum>, row: Row)
    requires Rows(s, rows) && rows != []
    requires Written(s, d, columns, rows, k, tuples, sql, binds) && SelfIn(d, k, columns, row)
    ensures ParseInsert(Resolve(sql)) ==
            Some(Insert(s.table, columns, RowTexts(d, 0, tuples), ReadClause(d, |Flat(tuples)|, s.table, columns, k)))
  {
    hide Consumes, ParseInsert, ParseNames, ParseClause, NamesText, ValuesText, Flat, ConflictText, ConflictBinds, Resolved,
      AllMatch, Mask, Resolve, ClauseOf, ParseRows, RowTexts;
    var ts := InsertText(d, s.table, columns, tuples, k);
    StatementConsumes(d, s.table, columns, tuples, k);
    CountIs(d, ts, |binds|);
    ResolveMask(d, ts);
    var n := |Flat(tuples)|;
    var clause, values := ConflictPart(d, n, s.table, columns, k), ValuesText(d, 0, tuples);
    ClauseReads(d, n, s.table, columns, k, row);
    RowsParse(d, 0, tuples, clause);
    NamesParse(columns, [Close] + ([ValuesWord] + (values + clause)));
    InsertReads(ts, [InsertWord, Ident(s.table), Open], columns, NamesText(columns), values, RowTexts(d, 0, tuples), clause,
                ReadClause(d, n, s.table, columns, k));
  }

  lemma ClauseReads(d: Dialect, from: nat, table: string, columns: seq<string>, k: Option<Conflict>, row: Row)
    requires SelfIn(d, k, columns, row)
    ensures var clause := ConflictPart(d, from, table, columns, k);
            && !At(clause, Comma)
            && ParseClause(clause) == Some(ReadClause(d, from, table, columns, k))
  {
    hide ClauseOf, NamesText, UpdatesText, GuardText, Resolved, ParseNames, ParseAssignments;
    if k.Some? {
      if d.onDuplicateKey {
        DuplicateParses(d, from, table, columns, k.value);
      } else {
        ConflictParses(d, from, table, columns, k.value);
      }
    }
  }

  /** Read as written, the clause does to a stored row what its updates and its guard mean. */
  lemma ClauseRuns(d: Dialect, from: nat, table: string, columns: seq<string>, k: Conflict, row: Row, incoming: Row,
                   sem: Semantics, binds: seq<Datum>)
    requires Sane(sem) && SelfIn(d, Some(k), columns, row) && Placed(binds, from, ConflictBinds(d, columns, k))
    ensures var out := AfterConflict(ClauseOf(d, from, table, columns, k), row, incoming, sem, binds);
            out.Some? && Resolves(d, k, columns, row, incoming, sem, out.value)
  {
    hide Eval, Resolved, AssignmentsAt, UpdatesBinds, GuardBinds, Placed, Updated, InTurn, Lets, Sane, GuardExpr;
    var us := Resolved(k, columns);
    if us == [] {
      if d.onDuplicateKey {
        SelfKeeps(k.targets, columns, row, incoming, sem, binds);
      }
    } else {
      if !d.onDuplicateKey {
        PlacedParts(binds, from, UpdatesBinds(d, us), GuardBinds(d, k.guard));
        GuardMeans(d, from + |UpdatesBinds(d, us)|, k.guard, row, incoming, sem, binds);
        GuardThere(d, from + |UpdatesBinds(d, us)|, k.guard);
      }
      AssignmentsMean(d, from, table, us, incoming, sem, binds);
      AtOnce(AssignmentsAt(d, from, table, us), us, row, incoming, sem, binds);
    }
  }

  lemma GuardThere(d: Dialect, from: nat, guard: Option<Predicate>)
    ensures GuardExpr(d, from, guard).None? <==> guard.None?
  {
  }

  lemma SelfKeeps(targets: seq<string>, columns: seq<string>, row: Row, incoming: Row, sem: Semantics, binds: seq<Datum>)
    requires var xs := SelfAssignment(targets, columns); xs != [] && xs[0].column in row
    ensures LeftToRight(row, incoming, sem, binds, SelfAssignment(targets, columns)) == row
  {
    hide Eval;
    var x := SelfAssignment(targets, columns)[0];
    EvalLeaves("", x.column, 0, 0, RowEnv(row, incoming, sem), binds);
    assert [x][..0] == [];
    assert row[x.column := row[x.column]] == row;
  }

  /** The clause stands for the conflict, and leaves of a stored row what the conflict is meant to. */
  ghost predicate ClauseDoes(clause: Clause, d: Dialect, k: Option<Conflict>, columns: seq<string>,
                             row: Row, incoming: Row, sem: Semantics, binds: seq<Datum>) {
    if k.None? then clause == Rejects
    else
      && (!d.onDuplicateKey ==> (clause.Ignores? || clause.Sets?) && clause.targets == k.value.targets)
      && var out := AfterConflict(clause, row, incoming, sem, binds);
         out.Some? && Resolves(d, k.value, columns, row, incoming, sem, out.value)
  }

  /**
   * Of the statement as `render` writes it, in every dialect and for every stored and incoming row: a
   * database reads the table, the columns and every row's values back, and the conflict clause leaves a row alone exactly
   * where there is nothing to update or the guard is not true, and otherwise updates it as meant.
   */
  lemma StatementRuns(s: Shape, d: Dialect, columns: seq<string>, rows: seq<NewRow>, k: Option<Conflict>,
                      tuples: seq<seq<Bind>>, sql: Sql, binds: seq<Datum>, row: Row, incoming: Row, sem: Semantics)
    requires Rows(s, rows) && rows != []
    requires Written(s, d, columns, rows, k, tuples, sql, binds) && SelfIn(d, k, columns, row) && Sane(sem)
    ensures var read := ParseInsert(Resolve(sql));
            && read.Some? && read.value.table == s.table && read.value.columns == columns
            && RowsRead(s, d, columns, rows, tuples, read.value.rows, binds)
            && ClauseDoes(read.value.clause, d, k, columns, row, incoming, sem, binds)
  {
    hide Resolve, ParseInsert, Flat, ConflictBinds, AllMatch, Mask, InsertText, Resolves, AfterConflict, Resolved, AssignmentsAt,
      RowsRead, RowTexts;
    RowsAreRead(s, d, columns, rows, k, tuples, sql, binds);
    StatementReads(s, d, columns, rows, k, tuples, sql, binds, row);
    if k.Some? {
      assert binds[|Flat(tuples)|..|Flat(tuples)| + |ConflictBinds(d, columns, k.value)|] == ConflictBinds(d, columns, k.value);
      ClauseRuns(d, |Flat(tuples)|, s.table, columns, k.value, row, incoming, sem, binds);
    }
  }
}
