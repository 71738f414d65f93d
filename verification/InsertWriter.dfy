/**
 * The insert statement as it is written (crates/orm/src/insert.rs, `render`, `write_conflict`,
 * `write_update`): head, tuples and conflict clause over one writer.
 */
module InsertWriter {
  import opened Wrappers
  import opened SqlText
  import opened SqlGrammar
  import opened PredicateSql
  import opened PredicateWriter
  import opened InsertSql
  import opened UpsertSql

  // ----- The conflict clause -----------------------------------------------------------------------------

  /** MySQL has no DO NOTHING: a key column is assigned to itself. */
  function SelfText(targets: seq<string>, columns: seq<string>): Sql {
    if targets != [] then [Ident(targets[0]), CompareSign(Eq), Ident(targets[0])]
    else if columns != [] then [Ident(columns[0]), CompareSign(Eq), Ident(columns[0])]
    else []
  }

  lemma SelfAssignmentKeeps(column: string, row: Row, incoming: Row, sem: Semantics, binds: seq<Datum>)
    requires column in row
    ensures var m := ParseAssignments([Ident(column), CompareSign(Eq), Ident(column)]);
            m.Done? && m.rest == [] && LeftToRight(row, incoming, sem, binds, m.value) == row
  {
    hide Eval;
    var ts := [Ident(column), CompareSign(Eq), Ident(column)];
    assert ts[2..] == [Ident(column)] && [Ident(column)][1..] == [];
    PrimaryAll([Ident(column)], Stored(column), []);
    var x := Assignment(column, Stored(column));
    assert ParseAssignments(ts) == Done([x], []);
    EvalLeaves("", column, 0, 0, RowEnv(row, incoming, sem), binds);
    assert [x][..0] == [];
    assert row[column := row[column]] == row;
  }

  function GuardText(d: Dialect, from: nat, guard: Option<Predicate>): Sql {
    match guard case None => [] case Some(p) => [WhereWord] + PredicateText(d, from, p)
  }

  function GuardBinds(d: Dialect, guard: Option<Predicate>): seq<Datum> {
    match guard case None => [] case Some(p) => Binds(d, p)
  }

  function ConflictText(d: Dialect, from: nat, table: string, columns: seq<string>, k: Conflict): Sql {
    var us := Resolved(k, columns);
    if d.onDuplicateKey then
      [OnDuplicateWord] +
      (if us == [] then SelfText(k.targets, columns) else UpdatesText(d, from, table, us))
    else
      [OnConflictWord, Open] + (NamesText(k.targets) + ([Close] +
        (if us == [] then [DoNothingWord]
         else [DoUpdateWord] +
              (UpdatesText(d, from, table, us) + GuardText(d, from + |UpdatesBinds(d, us)|, k.guard)))))
  }

  function ConflictBinds(d: Dialect, columns: seq<string>, k: Conflict): seq<Datum> {
    var us := Resolved(k, columns);
    if us == [] then []
    else if d.onDuplicateKey then UpdatesBinds(d, us)
    else UpdatesBinds(d, us) + GuardBinds(d, k.guard)
  }

  // ----- Writing assignments -----------------------------------------------------------------------------------

  predicate UpdateOk(valid: string -> bool, d: Dialect, table: string, u: Update) {
    && valid(u.column)
    && match u.mode
       case Overwrite => true
       case Expression(o) => OperandIdents(valid, d, o)
       case CoalesceExisting => d.onDuplicateKey || valid(table)
       case AddExcluded => d.onDuplicateKey || valid(table)
  }

  method WriteIncoming(column: string, w: SqlWriter) returns (ok: bool)
    requires w.Valid()
    modifies w`sql
    ensures w.Valid() && ok == w.validIdent(column)
    ensures ok ==> Wrote(w.dialect, old(Now(w)), Now(w), IncomingText(w.dialect, column), [])
  {
    ok := WriteExcluded(column, w);
  }

  method WriteStored(table: string, column: string, w: SqlWriter) returns (ok: bool)
    requires w.Valid()
    modifies w`sql
    ensures w.Valid() && ok == (w.validIdent(column) && (w.dialect.onDuplicateKey || w.validIdent(table)))
    ensures ok ==> Wrote(w.dialect, old(Now(w)), Now(w), StoredText(w.dialect, table, column), [])
  {
    if w.dialect.onDuplicateKey {
      ok := WriteName(column, w);
    } else {
      ok := PushQualified(w, table, column);
    }
  }

  method WriteCoalesce(table: string, column: string, w: SqlWriter) returns (ok: bool)
    requires w.Valid()
    modifies w`sql
    ensures w.Valid() && ok == UpdateOk(w.validIdent, w.dialect, table, Update(column, CoalesceExisting))
    ensures ok ==> Wrote(w.dialect, old(Now(w)), Now(w),
                         [CoalesceWord, Open] + (IncomingText(w.dialect, column) +
                         ([Comma] + (StoredText(w.dialect, table, column) + [Close]))), [])
  {
    hide Wrote, IncomingText, StoredText;
    ghost var d, s0 := w.dialect, Now(w);
    Push(w, [CoalesceWord, Open]);
    ghost var s1 := Now(w);
    ok := WriteIncoming(column, w);
    if !ok { return; }
    ghost var s2 := Now(w);
    Push(w, [Comma]);
    ghost var s3 := Now(w);
    ok := WriteStored(table, column, w);
    if !ok { return; }
    ghost var s4 := Now(w);
    Push(w, [Close]);
    ghost var none: seq<Datum> := [];
    WroteAround(d, s0, s1, s2, s3, s4, Now(w), [CoalesceWord, Open], IncomingText(d, column), [Comma],
                StoredText(d, table, column), [Close], none, none);
    assert none + none == none;
  }

  method WriteAdd(table: string, column: string, w: SqlWriter) returns (ok: bool)
    requires w.Valid()
    modifies w`sql
    ensures w.Valid() && ok == UpdateOk(w.validIdent, w.dialect, table, Update(column, AddExcluded))
    ensures ok ==> Wrote(w.dialect, old(Now(w)), Now(w),
                         StoredText(w.dialect, table, column) + ([PlusMinus(Plus)] + IncomingText(w.dialect, column)), [])
  {
    hide Wrote, IncomingText, StoredText;
    ghost var d, s0 := w.dialect, Now(w);
    ok := WriteStored(table, column, w);
    if !ok { return; }
    ghost var s1 := Now(w);
    Push(w, [PlusMinus(Plus)]);
    ghost var s2 := Now(w);
    ok := WriteIncoming(column, w);
    if !ok { return; }
    WroteConcat(d, s1, s2, Now(w), [PlusMinus(Plus)], IncomingText(d, column), [], []);
    WroteConcat(d, s0, s1, Now(w), StoredText(d, table, column), [PlusMinus(Plus)] + IncomingText(d, column), [], []);
  }

  method WriteUpdate(u: Update, table: string, w: SqlWriter) returns (ok: bool)
    requires w.Valid()
    modifies w
    ensures w.Valid() && w.unsupported == old(w.unsupported)
    ensures ok == UpdateOk(w.validIdent, w.dialect, table, u)
    ensures ok ==> Wrote(w.dialect, old(Now(w)), Now(w), UpdateText(w.dialect, |old(w.binds)|, table, u), UpdateBinds(w.dialect, u))
  {
    hide Wrote, IncomingText, StoredText, OperandText, OperandBinds, OperandIdents;
    ghost var d, s0, from := w.dialect, Now(w), |w.binds|;
    ok := WriteName(u.column, w);
    if !ok { return; }
    ghost var s1 := Now(w);
    Push(w, [CompareSign(Eq)]);
    ghost var s2 := Now(w);
    WroteConcat(d, s0, s1, s2, [Ident(u.column)], [CompareSign(Eq)], [], []);
    WroteCount(d, s0, s2, [Ident(u.column)] + [CompareSign(Eq)], [] + []);
    match u.mode {
      case Overwrite => ok := WriteIncoming(u.column, w);
      case Expression(o) => ok := WriteOperand(o, w);
      case CoalesceExisting => ok := WriteCoalesce(table, u.column, w);
      case AddExcluded => ok := WriteAdd(table, u.column, w);
    }
    if !ok { return; }
    ghost var value, more := ValueText(d, from, table, u), UpdateBinds(d, u);
    assert Wrote(d, s2, Now(w), value, more);
    WroteConcat(d, s0, s2, Now(w), [Ident(u.column)] + [CompareSign(Eq)], value, [] + [], more);
    assert [] + [] + more == more && [Ident(u.column)] + [CompareSign(Eq)] == [Ident(u.column), CompareSign(Eq)];
  }

  lemma {:induction false} UpdatesSnoc(d: Dialect, from: nat, table: string, us: seq<Update>, u: Update)
    ensures UpdatesBinds(d, us + [u]) == UpdatesBinds(d, us) + UpdateBinds(d, u)
    ensures UpdatesText(d, from, table, us + [u]) ==
            UpdatesText(d, from, table, us) + (if us == [] then [] else [Comma]) +
            UpdateText(d, from + |UpdatesBinds(d, us)|, table, u)
    decreases |us|
  {
    hide UpdateText, UpdateBinds;
    if us == [] {
      assert us + [u] == [u] && [u][1..] == [];
    } else {
      assert (us + [u])[1..] == us[1..] + [u];
      UpdatesSnoc(d, from + |UpdateBinds(d, us[0])|, table, us[1..], u);
      if |us| == 1 {
        assert us[1..] == [];
      }
    }
  }

  predicate UpdatesOk(valid: string -> bool, d: Dialect, table: string, us: seq<Update>) {
    forall i :: 0 <= i < |us| ==> UpdateOk(valid, d, table, us[i])
  }

  lemma NoUpdates(d: Dialect, from: nat, table: string, s: Snapshot)
    ensures Wrote(d, s, s, UpdatesText(d, from, table, []), UpdatesBinds(d, []))
  {
  }

  method WriteUpdates(us: seq<Update>, table: string, w: SqlWriter) returns (ok: bool)
    requires w.Valid()
    modifies w
    ensures w.Valid() && w.unsupported == old(w.unsupported)
    ensures ok == UpdatesOk(w.validIdent, w.dialect, table, us)
    ensures ok ==> Wrote(w.dialect, old(Now(w)), Now(w), UpdatesText(w.dialect, |old(w.binds)|, table, us), UpdatesBinds(w.dialect, us))
  {
    hide Wrote, UpdatesText, UpdatesBinds, UpdateText, UpdateBinds, UpdateOk;
    ghost var d, s0, from := w.dialect, Now(w), |w.binds|;
    ok := true;
    assert us[..0] == [];
    NoUpdates(d, from, table, s0);
    for i := 0 to |us|
      invariant w.Valid() && w.unsupported == old(w.unsupported)
      invariant forall k :: 0 <= k < i ==> UpdateOk(w.validIdent, d, table, us[k])
      invariant Wrote(d, s0, Now(w), UpdatesText(d, from, table, us[..i]), UpdatesBinds(d, us[..i]))
    {
      ghost var s1 := Now(w);
      WroteCount(d, s0, s1, UpdatesText(d, from, table, us[..i]), UpdatesBinds(d, us[..i]));
      UpdatesSnoc(d, from, table, us[..i], us[i]);
      assert us[..i + 1] == us[..i] + [us[i]];
      if i > 0 {
        Push(w, [Comma]);
      }
      ghost var s2 := Now(w);
      ok := WriteUpdate(us[i], table, w);
      if !ok { return; }
      WroteElement(d, s0, s1, s2, Now(w), i == 0, UpdatesText(d, from, table, us[..i]), UpdateText(d, |s1.binds|, table, us[i]),
                   UpdatesBinds(d, us[..i]), UpdateBinds(d, us[i]));
    }
    assert us[..|us|] == us;
  }

  predicate ConflictOk(valid: string -> bool, d: Dialect, table: string, columns: seq<string>, k: Conflict) {
    var us := Resolved(k, columns);
    if d.onDuplicateKey then
      if us == [] then (k.targets != [] ==> valid(k.targets[0])) && (k.targets == [] && columns != [] ==> valid(columns[0]))
      else UpdatesOk(valid, d, table, us)
    else
      AllValid(valid, k.targets) && (us != [] ==>
        UpdatesOk(valid, d, table, us) && match k.guard case None => true case Some(p) => Idents(valid, d, p))
  }

  method WriteSelf(targets: seq<string>, columns: seq<string>, w: SqlWriter) returns (ok: bool)
    requires w.Valid()
    modifies w`sql
    ensures w.Valid()
    ensures ok == ((targets != [] ==> w.validIdent(targets[0])) && (targets == [] && columns != [] ==> w.validIdent(columns[0])))
    ensures ok ==> Wrote(w.dialect, old(Now(w)), Now(w), SelfText(targets, columns), [])
  {
    ghost var d, s0 := w.dialect, Now(w);
    if targets == [] && columns == [] {
      assert Mask(d, []) == [];
      return true;
    }
    hide Wrote;
    var column := if targets != [] then targets[0] else columns[0];
    ok := WriteName(column, w);
    if !ok { return; }
    ghost var s1 := Now(w);
    Push(w, [CompareSign(Eq)]);
    ghost var s2 := Now(w);
    ok := WriteName(column, w);
    WroteConcat(d, s1, s2, Now(w), [CompareSign(Eq)], [Ident(column)], [], []);
    WroteConcat(d, s0, s1, Now(w), [Ident(column)], [CompareSign(Eq)] + [Ident(column)], [], []);
    assert [Ident(column)] + ([CompareSign(Eq)] + [Ident(column)]) == SelfText(targets, columns);
  }

  method WriteGuard(guard: Option<Predicate>, w: SqlWriter) returns (ok: bool)
    requires w.Valid()
    modifies w
    ensures w.Valid() && w.unsupported == old(w.unsupported)
    ensures ok == match guard case None => true case Some(p) => Idents(w.validIdent, w.dialect, p)
    ensures ok ==> Wrote(w.dialect, old(Now(w)), Now(w), GuardText(w.dialect, |old(w.binds)|, guard), GuardBinds(w.dialect, guard))
  {
    hide PredicateText, Binds, Idents;
    ghost var d, s0, from := w.dialect, Now(w), |w.binds|;
    ok := true;
    match guard
    case None => assert Mask(d, []) == [];
    case Some(p) =>
      hide Wrote;
      Push(w, [WhereWord]);
      ghost var s1 := Now(w);
      ok := WritePredicate(p, w);
      if ok {
        WroteConcat(d, s0, s1, Now(w), [WhereWord], PredicateText(d, from, p), [], Binds(d, p));
        assert [] + Binds(d, p) == Binds(d, p);
      }
  }

  /** A guarded update in a dialect that has no guards. */
  predicate Inexpressible(d: Dialect, k: Conflict, columns: seq<string>) {
    d.onDuplicateKey && k.guard.Some? && Resolved(k, columns) != []
  }

  method WriteConflict(k: Conflict, table: string, columns: seq<string>, w: SqlWriter) returns (ok: bool)
    requires w.Valid()
    modifies w
    ensures w.Valid() && ok == ConflictOk(w.validIdent, w.dialect, table, columns, k)
    ensures ok ==> Wrote(w.dialect, old(Now(w)), Now(w), ConflictText(w.dialect, |old(w.binds)|, table, columns, k),
                         ConflictBinds(w.dialect, columns, k))
    // A guard MySQL cannot express is reported, not dropped.
    ensures w.unsupported.Some? <==> old(w.unsupported).Some? || Inexpressible(w.dialect, k, columns)
  {
    hide Wrote, Resolved, NamesText, UpdatesText, UpdatesBinds, GuardText, GuardBinds, SelfText, UpdatesOk, AllValid, Idents;
    ghost var d, s0, from := w.dialect, Now(w), |w.binds|;
    var resolved := Resolved(k, columns);
    if w.dialect.onDuplicateKey {
      if resolved != [] && k.guard.Some? {
        w.MarkUnsupported("guarded conflict update (unsupported by MySQL)");
      }
      ok := WriteDuplicateKey(resolved, k.targets, table, columns, w);
    } else {
      ok := WriteOnConflict(resolved, k, table, w);
    }
  }

  method WriteDuplicateKey(us: seq<Update>, targets: seq<string>, table: string, columns: seq<string>, w: SqlWriter)
    returns (ok: bool)
    requires w.Valid()
    modifies w
    ensures w.Valid() && w.unsupported == old(w.unsupported)
    ensures ok == if us == []
                  then (targets != [] ==> w.validIdent(targets[0])) && (targets == [] && columns != [] ==> w.validIdent(columns[0]))
                  else UpdatesOk(w.validIdent, w.dialect, table, us)
    ensures ok ==> Wrote(w.dialect, old(Now(w)), Now(w),
                         [OnDuplicateWord] +
                         (if us == [] then SelfText(targets, columns) else UpdatesText(w.dialect, |old(w.binds)|, table, us)),
                         if us == [] then [] else UpdatesBinds(w.dialect, us))
  {
    hide Wrote, UpdatesText, UpdatesBinds, SelfText, UpdatesOk;
    ghost var d, s0, from := w.dialect, Now(w), |w.binds|;
    Push(w, [OnDuplicateWord]);
    ghost var s1 := Now(w);
    if us == [] {
      ok := WriteSelf(targets, columns, w);
    } else {
      ok := WriteUpdates(us, table, w);
    }
    if ok {
      ghost var text := if us == [] then SelfText(targets, columns) else UpdatesText(d, from, table, us);
      ghost var binds := if us == [] then [] else UpdatesBinds(d, us);
      WroteConcat(d, s0, s1, Now(w), [OnDuplicateWord], text, [], binds);
      assert [] + binds == binds;
    }
  }

  method WriteTargets(targets: seq<string>, w: SqlWriter) returns (ok: bool)
    requires w.Valid()
    modifies w`sql
    ensures w.Valid() && ok == AllValid(w.validIdent, targets)
    ensures ok ==> Wrote(w.dialect, old(Now(w)), Now(w), [OnConflictWord, Open] + (NamesText(targets) + [Close]), [])
  {
    hide Wrote, NamesText, AllValid;
    ghost var d, s0 := w.dialect, Now(w);
    Push(w, [OnConflictWord, Open]);
    ghost var s1 := Now(w);
    ok := WriteNames(targets, w);
    if !ok { return; }
    ghost var s2 := Now(w);
    Push(w, [Close]);
    WroteConcat(d, s1, s2, Now(w), NamesText(targets), [Close], [], []);
    WroteConcat(d, s0, s1, Now(w), [OnConflictWord, Open], NamesText(targets) + [Close], [], []);
  }

  method WriteSet(us: seq<Update>, guard: Option<Predicate>, table: string, w: SqlWriter) returns (ok: bool)
    requires w.Valid()
    modifies w
    ensures w.Valid() && w.unsupported == old(w.unsupported)
    ensures ok == (UpdatesOk(w.validIdent, w.dialect, table, us) &&
                   match guard case None => true case Some(p) => Idents(w.validIdent, w.dialect, p))
    ensures var d, from := w.dialect, |old(w.binds)|;
            ok ==> Wrote(d, old(Now(w)), Now(w),
                         [DoUpdateWord] + (UpdatesText(d, from, table, us) + GuardText(d, from + |UpdatesBinds(d, us)|, guard)),
                         UpdatesBinds(d, us) + GuardBinds(d, guard))
  {
    hide Wrote, UpdatesText, UpdatesBinds, GuardText, GuardBinds, UpdatesOk, Idents;
    ghost var d, s0, from := w.dialect, Now(w), |w.binds|;
    Push(w, [DoUpdateWord]);
    ghost var s1 := Now(w);
    ok := WriteUpdates(us, table, w);
    if !ok { return; }
    ghost var s2, a := Now(w), |w.binds|;
    WroteCount(d, s1, s2, UpdatesText(d, from, table, us), UpdatesBinds(d, us));
    ok := WriteGuard(guard, w);
    if !ok { return; }
    WroteConcat(d, s1, s2, Now(w), UpdatesText(d, from, table, us), GuardText(d, a, guard), UpdatesBinds(d, us), GuardBinds(d, guard));
    ghost var both := UpdatesBinds(d, us) + GuardBinds(d, guard);
    WroteConcat(d, s0, s1, Now(w), [DoUpdateWord], UpdatesText(d, from, table, us) + GuardText(d, a, guard), [], both);
    assert [] + both == both;
  }

  method WriteOnConflict(us: seq<Update>, k: Conflict, table: string, w: SqlWriter) returns (ok: bool)
    requires w.Valid() && !w.dialect.onDuplicateKey
    modifies w
    ensures w.Valid() && w.unsupported == old(w.unsupported)
    ensures ok == (AllValid(w.validIdent, k.targets) &&
                   (us == [] || (UpdatesOk(w.validIdent, w.dialect, table, us) &&
                                 match k.guard case None => true case Some(p) => Idents(w.validIdent, w.dialect, p))))
    ensures var d, from := w.dialect, |old(w.binds)|;
            ok ==> Wrote(d, old(Now(w)), Now(w),
                         [OnConflictWord, Open] + (NamesText(k.targets) + ([Close] +
                         (if us == [] then [DoNothingWord]
                          else [DoUpdateWord] +
                               (UpdatesText(d, from, table, us) + GuardText(d, from + |UpdatesBinds(d, us)|, k.guard))))),
                         if us == [] then [] else UpdatesBinds(d, us) + GuardBinds(d, k.guard))
  {
    hide Wrote, NamesText, UpdatesText, UpdatesBinds, GuardText, GuardBinds, UpdatesOk, AllValid, Idents;
    ghost var d, s0, from := w.dialect, Now(w), |w.binds|;
    ok := WriteTargets(k.targets, w);
    if !ok { return; }
    ghost var s1 := Now(w);
    ghost var head := [OnConflictWord, Open] + (NamesText(k.targets) + [Close]);
    WroteCount(d, s0, s1, head, []);
    if us == [] {
      Push(w, [DoNothingWord]);
    } else {
      ok := WriteSet(us, k.guard, table, w);
      if !ok { return; }
    }
    ghost var text := if us == [] then [DoNothingWord]
                      else [DoUpdateWord] +
                           (UpdatesText(d, from, table, us) + GuardText(d, from + |UpdatesBinds(d, us)|, k.guard));
    ghost var binds := if us == [] then [] else UpdatesBinds(d, us) + GuardBinds(d, k.guard);
    WroteConcat(d, s0, s1, Now(w), head, text, [], binds);
    assert [] + binds == binds;
    assert head + text == [OnConflictWord, Open] + (NamesText(k.targets) + ([Close] + text));
  }

  // ----- The whole statement ---------------------------------------------------------------------------------------

  function ConflictPart(d: Dialect, from: nat, table: string, columns: seq<string>, k: Option<Conflict>): Sql {
    match k case None => [] case Some(c) => ConflictText(d, from, table, columns, c)
  }

  function ConflictPartBinds(d: Dialect, columns: seq<string>, k: Option<Conflict>): seq<Datum> {
    match k case None => [] case Some(c) => ConflictBinds(d, columns, c)
  }

  function InsertText(d: Dialect, table: string, columns: seq<string>, tuples: seq<seq<Bind>>, k: Option<Conflict>): Sql {
    HeadText(table, columns) + (ValuesText(d, 0, tuples) + ConflictPart(d, |Flat(tuples)|, table, columns, k))
  }

  /** The statement and its binds, given the tuples: each the row's values for the listed columns. */
  ghost predicate Written(s: Shape, d: Dialect, columns: seq<string>, rows: seq<NewRow>, k: Option<Conflict>,
                          tuples: seq<seq<Bind>>, sql: Sql, binds: seq<Datum>)
    requires Rows(s, rows)
  {
    && |tuples| == |rows| && AllMatch(s, columns, rows, tuples)
    && sql == Mask(d, InsertText(d, s.table, columns, tuples, k))
    && binds == Flat(tuples) + ConflictPartBinds(d, columns, k)
  }

  /** The statement needs what the dialect lacks: a cast of a value, or a guard. */
  ghost predicate Unsupported(d: Dialect, columns: seq<string>, k: Option<Conflict>, tuples: seq<seq<Bind>>) {
    || (exists i :: 0 <= i < |tuples| && AnyUncastable(d, tuples[i]))
    || (k.Some? && Inexpressible(d, k.value, columns))
  }

  /**
   * The statement lists exactly the required columns and those some row supplies; its placeholders
   * are those of its binds, each once and in order; and the bind at place `c` of row `i`'s tuple is
   * that row's value for the `c`-th listed column.
   */
  method Render(s: Shape, d: Dialect, validIdent: string -> bool, rows: seq<NewRow>, k: Option<Conflict>)
    returns (ok: bool, columns: seq<string>, sql: Sql, binds: seq<Datum>, unsupported: Option<string>)
    requires WellShaped(s) && Rows(s, rows)
    ensures forall name :: name in columns <==>
              || name in s.required
              || exists j :: 0 <= j < |s.optional| && s.optional[j] == name && Supplied(rows, j)
    ensures ok == (validIdent(s.table) && AllValid(validIdent, columns) &&
                   match k case None => true case Some(c) => ConflictOk(validIdent, d, s.table, columns, c))
    ensures ok ==> Consumes(d, sql, 0, |binds|)
    ensures ok ==> exists tuples ::
              && Written(s, d, columns, rows, k, tuples, sql, binds)
              && (unsupported.Some? <==> Unsupported(d, columns, k, tuples))
  {
    hide Wrote, HeadText, ValuesText, ConflictText, ConflictBinds, ConflictOk, Flat, AllValid, Supplied, Consumes, AllMatch, Mask,
      AnyUncastable, Inexpressible;
    var included := OptionalIncluded(s, rows);
    columns := ColumnNames(s, included);
    forall name ensures name in columns <==>
      || name in s.required
      || exists j :: 0 <= j < |s.optional| && s.optional[j] == name && Supplied(rows, j)
    {
      PickedIff(s.optional, included, name);
    }
    var tuples := Tuples(s, included, rows);
    TuplesMatch(s, included, rows);
    var w := new SqlWriter(d, validIdent);
    ghost var s0 := Now(w);
    ok := WriteHead(s.table, columns, w);
    sql, binds, unsupported := w.sql, w.binds, w.unsupported;
    if !ok { return; }
    ghost var s1 := Now(w);
    WroteCount(d, s0, s1, HeadText(s.table, columns), []);
    WriteTuples(tuples, w);
    ghost var s2 := Now(w);
    WroteCount(d, s1, s2, ValuesText(d, 0, tuples), Flat(tuples));
    ok := WriteConflictPart(k, s.table, columns, w);
    sql, binds, unsupported := w.sql, w.binds, w.unsupported;
    if !ok { return; }
    ghost var tail, more := ConflictPart(d, |Flat(tuples)|, s.table, columns, k), ConflictPartBinds(d, columns, k);
    WroteConcat(d, s1, s2, Now(w), ValuesText(d, 0, tuples), tail, Flat(tuples), more);
    WroteConcat(d, s0, s1, Now(w), HeadText(s.table, columns), ValuesText(d, 0, tuples) + tail, [], Flat(tuples) + more);
    FromScratch(d, s0, Now(w), InsertText(d, s.table, columns, tuples, k), [] + (Flat(tuples) + more));
    assert [] + (Flat(tuples) + more) == Flat(tuples) + more;
    assert Written(s, d, columns, rows, k, tuples, sql, binds);
  }

  lemma FromScratch(d: Dialect, a: Snapshot, b: Snapshot, text: Sql, more: seq<Datum>)
    requires Wrote(d, a, b, text, more) && a == Snapshot([], [])
    ensures b.sql == Mask(d, text) && b.binds == more
  {
  }

  method WriteConflictPart(k: Option<Conflict>, table: string, columns: seq<string>, w: SqlWriter) returns (ok: bool)
    requires w.Valid()
    modifies w
    ensures w.Valid()
    ensures w.unsupported.Some? <==> old(w.unsupported).Some? || (k.Some? && Inexpressible(w.dialect, k.value, columns))
    ensures ok == match k case None => true case Some(c) => ConflictOk(w.validIdent, w.dialect, table, columns, c)
    ensures ok ==> Wrote(w.dialect, old(Now(w)), Now(w), ConflictPart(w.dialect, |old(w.binds)|, table, columns, k),
                         ConflictPartBinds(w.dialect, columns, k))
  {
    hide ConflictText, ConflictBinds, ConflictOk, Inexpressible;
    ok := true;
    match k
    case None => assert Mask(w.dialect, []) == [];
    case Some(c) => ok := WriteConflict(c, table, columns, w);
  }

  /** Tuple by tuple and column by column, the row's own values. */
  ghost predicate AllMatch(s: Shape, columns: seq<string>, rows: seq<NewRow>, tuples: seq<seq<Bind>>)
    requires Rows(s, rows) && |tuples| == |rows|
  {
    && (forall i :: 0 <= i < |rows| ==> |tuples[i]| == |columns|)
    && forall i, c :: 0 <= i < |rows| && 0 <= c < |columns| ==> Holds(s, rows[i], columns[c], Payload(tuples[i][c]))
  }

  lemma TuplesMatch(s: Shape, included: seq<bool>, rows: seq<NewRow>)
    requires WellShaped(s) && |included| == |s.optional| && Rows(s, rows)
    ensures AllMatch(s, Columns(s, included), rows, Tuples(s, included, rows))
  {
    hide RowBinds, Columns, Holds;
    var columns, tuples := Columns(s, included), Tuples(s, included, rows);
    forall i | 0 <= i < |rows| ensures |tuples[i]| == |columns| {
      TupleMatchesColumns(s, included, rows[i], 0);
    }
    forall i, c | 0 <= i < |rows| && 0 <= c < |columns| ensures Holds(s, rows[i], columns[c], Payload(tuples[i][c])) {
      TupleMatchesColumns(s, included, rows[i], c);
    }
  }

  /** So the bind numbered `i * n + c + 1` is row `i`'s value for the `c`-th of the `n` listed columns. */
  lemma BindOfRow(s: Shape, d: Dialect, columns: seq<string>, rows: seq<NewRow>, k: Option<Conflict>,
                  tuples: seq<seq<Bind>>, sql: Sql, binds: seq<Datum>, i: nat, c: nat)
    requires Rows(s, rows) && Written(s, d, columns, rows, k, tuples, sql, binds) && i < |rows| && c < |columns|
    ensures var at := i * |columns| + c;
            0 <= at < |binds| && Holds(s, rows[i], columns[c], binds[at])
  {
    hide Holds, Flat, AllMatch, Mask, InsertText, ConflictPartBinds, Payload;
    HeldAt(s, columns, rows, tuples, i, c);
    BoundAt(tuples, columns, rows, s, i, c);
  }

  lemma HeldAt(s: Shape, columns: seq<string>, rows: seq<NewRow>, tuples: seq<seq<Bind>>, i: nat, c: nat)
    requires Rows(s, rows) && |tuples| == |rows| && AllMatch(s, columns, rows, tuples) && i < |rows| && c < |columns|
    ensures |tuples[i]| == |columns| && Holds(s, rows[i], columns[c], Payload(tuples[i][c]))
  {
    hide Holds, Payload;
  }

  lemma BoundAt(tuples: seq<seq<Bind>>, columns: seq<string>, rows: seq<NewRow>, s: Shape, i: nat, c: nat)
    requires Rows(s, rows) && |tuples| == |rows| && AllMatch(s, columns, rows, tuples) && i < |rows| && c < |columns|
    ensures var at := i * |columns| + c;
            |tuples[i]| == |columns| && 0 <= at < |Flat(tuples)| && Flat(tuples)[at] == Payload(tuples[i][c])
  {
    hide Holds, Flat, Payload;
    FlatAt(tuples, |columns|, i, c);
  }
}
