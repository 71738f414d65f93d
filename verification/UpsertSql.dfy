/**
 * Upserts (crates/orm/src/insert.rs, `write_update`, `write_conflict`, `render`): the conflict
 * clause of each dialect, what the database does with it, and the whole insert statement.
 */
module UpsertSql {
  import opened Wrappers
  import opened SqlText
  import opened SqlGrammar
  import opened PredicateSql
  import opened PredicateWriter
  import opened InsertSql

  datatype Mode = Overwrite | CoalesceExisting | AddExcluded | Expression(operand: Operand)

  datatype Update = Update(column: string, mode: Mode)

  datatype Action = Nothing | UpdateAll | UpdateAllExcept(skip: seq<string>) | UpdateColumns(updates: seq<Update>)

  datatype Conflict = Conflict(targets: seq<string>, action: Action, guard: Option<Predicate>)

  /** Every listed column that is neither a target nor skipped, overwritten. */
  function Overwritten(columns: seq<string>, targets: seq<string>, skip: seq<string>): seq<Update> {
    if columns == [] then []
    else
      var c := columns[|columns| - 1];
      Overwritten(columns[..|columns| - 1], targets, skip) +
      (if c in targets || c in skip then [] else [Update(c, Overwrite)])
  }

  function Resolved(conflict: Conflict, columns: seq<string>): seq<Update> {
    match conflict.action
    case Nothing => []
    case UpdateAll => Overwritten(columns, conflict.targets, [])
    case UpdateAllExcept(skip) => Overwritten(columns, conflict.targets, skip)
    case UpdateColumns(updates) => updates
  }

  predicate Distinct(us: seq<Update>) {
    forall i, j :: 0 <= i < j < |us| ==> us[i].column != us[j].column
  }

  /** `do_update_all` and its variant set each listed non-key column once, to the incoming value. */
  lemma {:induction false} OverwrittenExactly(columns: seq<string>, targets: seq<string>, skip: seq<string>)
    requires forall i, j :: 0 <= i < j < |columns| ==> columns[i] != columns[j]
    ensures Distinct(Overwritten(columns, targets, skip))
    ensures forall u :: u in Overwritten(columns, targets, skip) <==>
                        u.mode.Overwrite? && u.column in columns && u.column !in targets && u.column !in skip
  {
    if columns != [] {
      var n := |columns| - 1;
      OverwrittenExactly(columns[..n], targets, skip);
      assert columns == columns[..n] + [columns[n]];
      var rest := Overwritten(columns[..n], targets, skip);
      forall i | 0 <= i < |rest| ensures rest[i].column != columns[n] {
        assert rest[i] in rest;
      }
    }
  }

  /** Which columns each action sets, and that what is skipped is not one of them. */
  lemma ResolvedExactly(k: Conflict, columns: seq<string>)
    requires forall i, j :: 0 <= i < j < |columns| ==> columns[i] != columns[j]
    ensures k.action.Nothing? ==> Resolved(k, columns) == []
    ensures k.action.UpdateColumns? ==> Resolved(k, columns) == k.action.updates
    ensures k.action.UpdateAll? || k.action.UpdateAllExcept? ==>
              && Distinct(Resolved(k, columns))
              && forall c :: Update(c, Overwrite) in Resolved(k, columns) <==>
                             c in columns && c !in k.targets && (k.action.UpdateAllExcept? ==> c !in k.action.skip)
    ensures k.action.UpdateAll? || k.action.UpdateAllExcept? ==>
              forall u :: u in Resolved(k, columns) ==> u.mode.Overwrite?
  {
    hide Overwritten, Distinct;
    OverwrittenExactly(columns, k.targets, if k.action.UpdateAllExcept? then k.action.skip else []);
  }

  // ----- The clause --------------------------------------------------------------------------------------

  function IncomingText(d: Dialect, column: string): Sql {
    if d.onDuplicateKey then [ValuesWord, Open, Ident(column), Close] else [Incoming(column)]
  }

  function StoredText(d: Dialect, table: string, column: string): Sql {
    if d.onDuplicateKey then [Ident(column)] else [Qualified(table, column)]
  }

  function ValueText(d: Dialect, from: nat, table: string, u: Update): Sql {
    match u.mode
    case Overwrite => IncomingText(d, u.column)
    case CoalesceExisting =>
      [CoalesceWord, Open] + (IncomingText(d, u.column) + ([Comma] + (StoredText(d, table, u.column) + [Close])))
    case AddExcluded => StoredText(d, table, u.column) + ([PlusMinus(Plus)] + IncomingText(d, u.column))
    case Expression(o) => OperandText(d, from, o)
  }

  function UpdateBinds(d: Dialect, u: Update): seq<Datum> {
    if u.mode.Expression? then OperandBinds(d, u.mode.operand) else []
  }

  function UpdateText(d: Dialect, from: nat, table: string, u: Update): Sql {
    [Ident(u.column), CompareSign(Eq)] + ValueText(d, from, table, u)
  }

  function UpdatesBinds(d: Dialect, us: seq<Update>): seq<Datum> {
    if us == [] then [] else UpdateBinds(d, us[0]) + UpdatesBinds(d, us[1..])
  }

  /** `a = …, b = …` */
  function UpdatesText(d: Dialect, from: nat, table: string, us: seq<Update>): Sql
    decreases |us|
  {
    if us == [] then []
    else if |us| == 1 then UpdateText(d, from, table, us[0])
    else UpdateText(d, from, table, us[0]) + ([Comma] + UpdatesText(d, from + |UpdateBinds(d, us[0])|, table, us[1..]))
  }

  // ----- How a database runs the assignments ------------------------------------------------------------------

  type Row = map<string, Datum>

  function Get(row: Row, name: string): Datum { if name in row then row[name] else Null }

  datatype Assignment = Assignment(column: string, value: Expr)

  function ParseAssignments(ts: Sql): (p: Parse<seq<Assignment>>)
    ensures p.Done? ==> |p.rest| < |ts|
    decreases |ts|
  {
    if |ts| < 2 || !ts[0].Ident? || ts[1] != CompareSign(Eq) then Fail
    else
      var e := ParseOr(ts[2..]);
      if e.Fail? then Fail
      else if At(e.rest, Comma) then
        var more := ParseAssignments(e.rest[1..]);
        if more.Fail? then Fail else Done([Assignment(ts[0].name, e.value)] + more.value, more.rest)
      else Done([Assignment(ts[0].name, e.value)], e.rest)
  }

  /** Both a bare and a qualified column read the given row. */
  function RowEnv(row: Row, incoming: Row, sem: Semantics): Env {
    Env((_, name) => Get(row, name), name => Get(row, name), name => Get(incoming, name), sem)
  }

  /** Standard SQL: every right-hand side reads the row as it was. */
  ghost function Simultaneous(row: Row, incoming: Row, sem: Semantics, binds: seq<Datum>, xs: seq<Assignment>): Row {
    if xs == [] then row
    else
      var x := xs[|xs| - 1];
      Simultaneous(row, incoming, sem, binds, xs[..|xs| - 1])[x.column := Eval(x.value, RowEnv(row, incoming, sem), binds)]
  }

  /** MySQL: left to right, each right-hand side reads the row as assigned so far. */
  ghost function LeftToRight(row: Row, incoming: Row, sem: Semantics, binds: seq<Datum>, xs: seq<Assignment>): Row {
    if xs == [] then row
    else
      var before, x := LeftToRight(row, incoming, sem, binds, xs[..|xs| - 1]), xs[|xs| - 1];
      before[x.column := Eval(x.value, RowEnv(before, incoming, sem), binds)]
  }

  // ----- What an upsert is meant to do --------------------------------------------------------------------------

  function Refreshed(row: Row, incoming: Row, sem: Semantics, u: Update): Datum
    requires !u.mode.Expression?
  {
    match u.mode
    case Overwrite => Get(incoming, u.column)
    case CoalesceExisting => if Get(incoming, u.column).Null? then Get(row, u.column) else Get(incoming, u.column)
    case AddExcluded => Sum3(sem, Plus, Get(row, u.column), Get(incoming, u.column))
  }

  /** Each listed column refreshed from the stored row and the incoming one; every other left alone. */
  ghost predicate Upserted(row: Row, incoming: Row, sem: Semantics, us: seq<Update>, out: Row)
    requires forall u :: u in us ==> !u.mode.Expression?
  {
    && (forall u :: u in us ==> u.column in out && out[u.column] == Refreshed(row, incoming, sem, u))
    && (forall c :: (forall u :: u in us ==> u.column != c) ==> (c in out <==> c in row) && Get(out, c) == Get(row, c))
  }

  // ----- Reading the clause back --------------------------------------------------------------------------------

  function StoredExpr(d: Dialect, table: string, column: string): Expr {
    if d.onDuplicateKey then Stored(column) else Column(table, column)
  }

  function ValueExpr(d: Dialect, table: string, u: Update): Expr
    requires !u.mode.Expression?
  {
    match u.mode
    case Overwrite => New(u.column)
    case CoalesceExisting => FirstNonNull(New(u.column), StoredExpr(d, table, u.column))
    case AddExcluded => Sum(Plus, StoredExpr(d, table, u.column), New(u.column))
  }

  lemma LeafPrimaries(d: Dialect, table: string, column: string, rest: Sql)
    ensures ParsePrimary(IncomingText(d, column) + rest) == Done(New(column), rest)
    ensures ParsePrimary(StoredText(d, table, column) + rest) == Done(StoredExpr(d, table, column), rest)
  {
    ExcludedParses(d, column, rest);
    StoredPrimary(d, table, column, rest);
  }

  lemma StoredPrimary(d: Dialect, table: string, column: string, rest: Sql)
    ensures ParsePrimary(StoredText(d, table, column) + rest) == Done(StoredExpr(d, table, column), rest)
  {
    assert (StoredText(d, table, column) + rest)[1..] == rest;
  }

  lemma CoalesceParses(a: Sql, ae: Expr, b: Sql, be: Expr, rest: Sql)
    requires ParseOr(b + ([Close] + rest)) == Done(be, [Close] + rest)
    requires var t := [Comma] + (b + [Close]) + rest; ParseOr(a + t) == Done(ae, t)
    ensures ParsePrimary([CoalesceWord, Open] + (a + ([Comma] + (b + [Close]))) + rest) == Done(FirstNonNull(ae, be), rest)
  {
    hide ParseOr;
    var ts := [CoalesceWord, Open] + (a + ([Comma] + (b + [Close]))) + rest;
    var t := [Comma] + (b + [Close]) + rest;
    assert ts[1..][1..] == a + t;
    assert t[1..] == b + ([Close] + rest);
    assert ([Close] + rest)[1..] == rest;
  }

  lemma ValueParses(d: Dialect, table: string, u: Update, rest: Sql)
    requires !u.mode.Expression? && EndsAll(rest)
    ensures ParseOr(ValueText(d, 0, table, u) + rest) == Done(ValueExpr(d, table, u), rest)
  {
    hide ParseOr, ParsePrimary, ParseSum, IncomingText, StoredText, OperandText;
    match u.mode {
      case Overwrite =>
        LeafPrimaries(d, table, u.column, rest);
        PrimaryAll(IncomingText(d, u.column) + rest, New(u.column), rest);
      case CoalesceExisting =>
        CoalesceValueParses(d, table, u, rest);
      case AddExcluded =>
        AddValueParses(d, table, u, rest);
    }
  }

  lemma CoalesceValueParses(d: Dialect, table: string, u: Update, rest: Sql)
    requires u.mode.CoalesceExisting? && EndsAll(rest)
    ensures ParseOr(ValueText(d, 0, table, u) + rest) == Done(ValueExpr(d, table, u), rest)
  {
    hide ParseOr, ParsePrimary, ParseSum, IncomingText, StoredText, OperandText;
    var c := u.column;
    var incoming, stored := IncomingText(d, c), StoredText(d, table, c);
    LeafPrimaries(d, table, c, [Close] + rest);
    PrimaryAll(stored + ([Close] + rest), StoredExpr(d, table, c), [Close] + rest);
    var t := [Comma] + (stored + [Close]) + rest;
    LeafPrimaries(d, table, c, t);
    PrimaryAll(incoming + t, New(c), t);
    CoalesceParses(incoming, New(c), stored, StoredExpr(d, table, c), rest);
    PrimaryAll(ValueText(d, 0, table, u) + rest, ValueExpr(d, table, u), rest);
  }

  lemma AddValueParses(d: Dialect, table: string, u: Update, rest: Sql)
    requires u.mode.AddExcluded? && EndsAll(rest)
    ensures ParseOr(ValueText(d, 0, table, u) + rest) == Done(ValueExpr(d, table, u), rest)
  {
    hide ParseOr, ParsePrimary, ParseSum, IncomingText, StoredText, OperandText;
    var c := u.column;
    var incoming, stored := IncomingText(d, c), StoredText(d, table, c);
    LeafPrimaries(d, table, c, rest);
    var t := [PlusMinus(Plus)] + (incoming + rest);
    LeafPrimaries(d, table, c, t);
    assert t[1..] == incoming + rest;
    AddParses(stored + t, StoredExpr(d, table, c), incoming + rest, New(c), rest);
    assert ValueText(d, 0, table, u) + rest == stored + t;
  }

  lemma AddParses(ts: Sql, l: Expr, more: Sql, r: Expr, rest: Sql)
    requires ParsePrimary(ts) == Done(l, [PlusMinus(Plus)] + more) && ParsePrimary(more) == Done(r, rest) && EndsAll(rest)
    ensures ParseOr(ts) == Done(Sum(Plus, l, r), rest)
  {
    hide ParsePrimary, ParseOr;
    var t := [PlusMinus(Plus)] + more;
    assert t[1..] == more;
    assert SumTail(Sum(Plus, l, r), rest) == Done(Sum(Plus, l, r), rest);
    assert SumTail(l, t) == Done(Sum(Plus, l, r), rest);
    assert ParseSum(ts) == Done(Sum(Plus, l, r), rest);
    PrimaryNotNot(ts, l, t);
    SumUp(ts, Sum(Plus, l, r), rest);
  }

  predicate Plain(us: seq<Update>) { forall u :: u in us ==> !u.mode.Expression? }

  function Assignments(d: Dialect, table: string, us: seq<Update>): seq<Assignment>
    requires Plain(us)
  {
    seq(|us|, i requires 0 <= i < |us| => Assignment(us[i].column, ValueExpr(d, table, us[i])))
  }

  /** What a written right-hand side stands for, after `from` binds. */
  function ExprAt(d: Dialect, from: nat, table: string, u: Update): Expr {
    if u.mode.Expression? then OperandExpr(d, from, u.mode.operand) else ValueExpr(d, table, u)
  }

  function AssignmentsAt(d: Dialect, from: nat, table: string, us: seq<Update>): seq<Assignment> {
    seq(|us|, i requires 0 <= i < |us| =>
      Assignment(us[i].column, ExprAt(d, from + |UpdatesBinds(d, us[..i])|, table, us[i])))
  }

  lemma AnyValueParses(d: Dialect, from: nat, table: string, u: Update, rest: Sql)
    requires EndsAll(rest)
    ensures ParseOr(ValueText(d, from, table, u) + rest) == Done(ExprAt(d, from, table, u), rest)
  {
    hide ParseOr, OperandText, OperandExpr, ValueExpr;
    if u.mode.Expression? {
      OperandAll(d, from, u.mode.operand, rest);
    } else {
      PlainText(d, from, table, u);
      ValueParses(d, table, u, rest);
    }
  }

  lemma AssignmentsCons(d: Dialect, from: nat, table: string, us: seq<Update>)
    requires us != []
    ensures AssignmentsAt(d, from, table, us) ==
            [Assignment(us[0].column, ExprAt(d, from, table, us[0]))] +
            AssignmentsAt(d, from + |UpdateBinds(d, us[0])|, table, us[1..])
  {
    hide ExprAt, UpdateBinds;
    var more := us[1..];
    forall i | 0 <= i < |more|
      ensures |UpdatesBinds(d, us[..i + 1])| == |UpdateBinds(d, us[0])| + |UpdatesBinds(d, more[..i])|
    {
      assert us[..i + 1][1..] == more[..i];
    }
    assert us[..0] == [];
  }

  /** The assignments are read back one by one, whatever ends the list. */
  lemma {:induction false} AssignmentsParse(d: Dialect, from: nat, table: string, us: seq<Update>, rest: Sql)
    requires us != [] && EndsAll(rest) && !At(rest, Comma)
    ensures ParseAssignments(UpdatesText(d, from, table, us) + rest) == Done(AssignmentsAt(d, from, table, us), rest)
    decreases |us|
  {
    hide ParseOr, ValueText, ExprAt, ParseAssignments, UpdatesText, UpdateBinds, AssignmentsAt;
    var u, after := us[0], from + |UpdateBinds(d, us[0])|;
    var ts := UpdatesText(d, from, table, us) + rest;
    AssignmentsCons(d, from, table, us);
    AssignmentText(d, from, table, us, rest);
    if |us| == 1 {
      AnyValueParses(d, from, table, u, rest);
      NoAssignments(d, after, table, us[1..]);
      assert AssignmentsAt(d, from, table, us) == [Assignment(u.column, ExprAt(d, from, table, u))];
      LastAssignment(ts, u.column, ExprAt(d, from, table, u), rest);
    } else {
      var more := UpdatesText(d, after, table, us[1..]) + rest;
      AssignmentsParse(d, after, table, us[1..], rest);
      AnyValueParses(d, from, table, u, [Comma] + more);
      assert ([Comma] + more)[1..] == more;
      MoreAssignments(ts, u.column, ExprAt(d, from, table, u), [Comma] + more, AssignmentsAt(d, after, table, us[1..]), rest);
    }
  }

  lemma AssignmentText(d: Dialect, from: nat, table: string, us: seq<Update>, rest: Sql)
    requires us != []
    ensures var ts := UpdatesText(d, from, table, us) + rest;
            && |ts| >= 2 && ts[0] == Ident(us[0].column) && ts[1] == CompareSign(Eq)
            && ts[2..] == ValueText(d, from, table, us[0]) +
                          (if |us| == 1 then rest
                           else [Comma] + (UpdatesText(d, from + |UpdateBinds(d, us[0])|, table, us[1..]) + rest))
  {
    hide ValueText, UpdateBinds;
  }

  lemma NoAssignments(d: Dialect, from: nat, table: string, us: seq<Update>)
    requires us == []
    ensures AssignmentsAt(d, from, table, us) == []
  {
  }

  lemma UpdatesParse(d: Dialect, from: nat, table: string, us: seq<Update>)
    requires us != [] && Plain(us)
    ensures ParseAssignments(UpdatesText(d, from, table, us)) == Done(Assignments(d, table, us), [])
  {
    hide ParseAssignments, UpdatesText, UpdatesBinds;
    AssignmentsParse(d, from, table, us, []);
    assert UpdatesText(d, from, table, us) + [] == UpdatesText(d, from, table, us);
    assert AssignmentsAt(d, from, table, us) == Assignments(d, table, us);
  }

  lemma LastAssignment(ts: Sql, column: string, e: Expr, rest: Sql)
    requires |ts| >= 2 && ts[0] == Ident(column) && ts[1] == CompareSign(Eq) && ParseOr(ts[2..]) == Done(e, rest)
    requires !At(rest, Comma)
    ensures ParseAssignments(ts) == Done([Assignment(column, e)], rest)
  {
    hide ParseOr;
  }

  lemma MoreAssignments(ts: Sql, column: string, e: Expr, more: Sql, xs: seq<Assignment>, rest: Sql)
    requires |ts| >= 2 && ts[0] == Ident(column) && ts[1] == CompareSign(Eq) && ParseOr(ts[2..]) == Done(e, more)
    requires At(more, Comma) && ParseAssignments(more[1..]) == Done(xs, rest)
    ensures ParseAssignments(ts) == Done([Assignment(column, e)] + xs, rest)
  {
    hide ParseOr;
  }

  lemma PlainText(d: Dialect, from: nat, table: string, u: Update)
    requires !u.mode.Expression?
    ensures ValueText(d, from, table, u) == ValueText(d, 0, table, u)
  {
  }

  // ----- Both dialects do what is meant -----------------------------------------------------------------------------

  lemma ValueMeans(d: Dialect, table: string, u: Update, row: Row, incoming: Row, sem: Semantics, binds: seq<Datum>)
    requires !u.mode.Expression?
    ensures Eval(ValueExpr(d, table, u), RowEnv(row, incoming, sem), binds) == Refreshed(row, incoming, sem, u)
  {
    hide Eval;
    var env := RowEnv(row, incoming, sem);
    EvalLeaves(table, u.column, 0, 0, env, binds);
    EvalOperators(Eq, Plus, New(u.column), StoredExpr(d, table, u.column), env, binds);
    EvalOperators(Eq, Plus, StoredExpr(d, table, u.column), New(u.column), env, binds);
  }

  lemma RefreshedLocal(row: Row, other: Row, incoming: Row, sem: Semantics, u: Update)
    requires !u.mode.Expression? && Get(row, u.column) == Get(other, u.column)
    ensures Refreshed(row, incoming, sem, u) == Refreshed(other, incoming, sem, u)
  {
  }

  lemma NewColumn(us: seq<Update>, n: nat)
    requires Distinct(us) && n < |us|
    ensures forall u :: u in us[..n] ==> u.column != us[n].column
    ensures us[..n + 1] == us[..n] + [us[n]]
  {
  }

  lemma UpsertedStep(row: Row, incoming: Row, sem: Semantics, us: seq<Update>, n: nat, before: Row)
    requires Plain(us) && Distinct(us) && n < |us| && Upserted(row, incoming, sem, us[..n], before)
    ensures Upserted(row, incoming, sem, us[..n + 1], before[us[n].column := Refreshed(row, incoming, sem, us[n])])
    ensures Get(before, us[n].column) == Get(row, us[n].column)
  {
    NewColumn(us, n);
    hide Refreshed, Distinct;
    UpsertOne(row, incoming, sem, us[..n], us[n], before);
  }

  lemma UpsertOne(row: Row, incoming: Row, sem: Semantics, done: seq<Update>, u: Update, before: Row)
    requires Plain(done + [u]) && (forall v :: v in done ==> v in done + [u] && v.column != u.column)
    requires Upserted(row, incoming, sem, done, before)
    ensures u in done + [u]
    ensures Upserted(row, incoming, sem, done + [u], before[u.column := Refreshed(row, incoming, sem, u)])
    ensures Get(before, u.column) == Get(row, u.column)
  {
    hide Refreshed;
    assert (done + [u])[|done|] == u;
    var out := before[u.column := Refreshed(row, incoming, sem, u)];
    forall c | forall v :: v in done + [u] ==> v.column != c ensures (c in out <==> c in row) && Get(out, c) == Get(row, c) {
      assert c != u.column;
      assert forall v :: v in done ==> v.column != c;
    }
  }

  lemma AssignmentsStep(d: Dialect, table: string, us: seq<Update>, n: nat)
    requires Plain(us) && n < |us|
    ensures Plain(us[..n]) && Plain(us[..n + 1])
    ensures Assignments(d, table, us[..n + 1]) ==
            Assignments(d, table, us[..n]) + [Assignment(us[n].column, ValueExpr(d, table, us[n]))]
  {
    assert forall i :: 0 <= i < n + 1 ==> us[..n + 1][i] == us[i] && us[i] in us;
  }

  /** Read either way, the assignments of distinct columns refresh exactly those columns. */
  lemma {:induction false} RunsAsMeant(d: Dialect, table: string, us: seq<Update>, n: nat, row: Row, incoming: Row,
                                       sem: Semantics, binds: seq<Datum>)
    requires Plain(us) && Distinct(us) && n <= |us|
    ensures Plain(us[..n])
    ensures var xs := Assignments(d, table, us[..n]);
            && Upserted(row, incoming, sem, us[..n], Simultaneous(row, incoming, sem, binds, xs))
            && LeftToRight(row, incoming, sem, binds, xs) == Simultaneous(row, incoming, sem, binds, xs)
  {
    hide Eval, Upserted, ValueExpr, Refreshed, Distinct;
    if n == 0 {
      NothingUpserted(row, incoming, sem, us);
      assert us[..0] == [];
    } else {
      RunsAsMeant(d, table, us, n - 1, row, incoming, sem, binds);
      AssignmentsStep(d, table, us, n - 1);
      var u := us[n - 1];
      var before := Simultaneous(row, incoming, sem, binds, Assignments(d, table, us[..n - 1]));
      assert u in us;
      UpsertedStep(row, incoming, sem, us, n - 1, before);
      ValueMeans(d, table, u, row, incoming, sem, binds);
      ValueMeans(d, table, u, before, incoming, sem, binds);
      RefreshedLocal(row, before, incoming, sem, u);
      var xs := Assignments(d, table, us[..n]);
      assert xs[..|xs| - 1] == Assignments(d, table, us[..n - 1]);
    }
  }

  lemma NothingUpserted(row: Row, incoming: Row, sem: Semantics, us: seq<Update>)
    ensures Upserted(row, incoming, sem, us[..0], row)
  {
  }

  lemma UpsertedUnique(row: Row, incoming: Row, sem: Semantics, us: seq<Update>, a: Row, b: Row)
    requires Plain(us) && Upserted(row, incoming, sem, us, a) && Upserted(row, incoming, sem, us, b)
    ensures a == b
  {
    hide Refreshed;
    forall c ensures (c in a <==> c in b) && Get(a, c) == Get(b, c) {
      if u :| u in us && u.column == c {
      }
    }
    assert forall c :: c in a ==> a[c] == Get(a, c);
    assert forall c :: c in b ==> b[c] == Get(b, c);
  }

  /**
   * For distinct overwrite, coalesce and add columns, MySQL reading its clause left to right and a
   * standard database reading its own all at once leave the same row: the one that was meant.
   */
  lemma DialectsAgree(mysql: Dialect, standard: Dialect, from: nat, table: string, us: seq<Update>,
                      row: Row, incoming: Row, sem: Semantics, binds: seq<Datum>)
    requires us != [] && Plain(us) && Distinct(us)
    ensures var m := ParseAssignments(UpdatesText(mysql, from, table, us));
            var s := ParseAssignments(UpdatesText(standard, from, table, us));
            && m.Done? && m.rest == [] && s.Done? && s.rest == []
            && Upserted(row, incoming, sem, us, LeftToRight(row, incoming, sem, binds, m.value))
            && LeftToRight(row, incoming, sem, binds, m.value) == Simultaneous(row, incoming, sem, binds, s.value)
  {
    hide Eval, Upserted, UpdatesText, ParseAssignments, Assignments, Distinct, Simultaneous, LeftToRight;
    UpdatesParse(mysql, from, table, us);
    UpdatesParse(standard, from, table, us);
    assert us[..|us|] == us;
    RunsAsMeant(mysql, table, us, |us|, row, incoming, sem, binds);
    RunsAsMeant(standard, table, us, |us|, row, incoming, sem, binds);
    UpsertedUnique(row, incoming, sem, us, LeftToRight(row, incoming, sem, binds, Assignments(mysql, table, us)),
                   Simultaneous(row, incoming, sem, binds, Assignments(standard, table, us)));
  }

  /** The columns must be distinct: set to be added to twice, MySQL adds twice. */
  lemma RepeatedColumnDiffers(mysql: Dialect, row: Row, incoming: Row, sem: Semantics, binds: seq<Datum>)
    requires mysql.onDuplicateKey && row == map["n" := Int(1)] && incoming == map["n" := Int(1)]
    requires forall a, b :: sem.sum(Plus, Int(a), Int(b)) == Int(a + b)
    ensures var us := [Update("n", AddExcluded), Update("n", AddExcluded)];
            var m := ParseAssignments(UpdatesText(mysql, 0, "t", us));
            && m.Done? && m.rest == []
            && LeftToRight(row, incoming, sem, binds, m.value) == map["n" := Int(3)]
            && Simultaneous(row, incoming, sem, binds, m.value) == map["n" := Int(2)]
  {
    hide ParseAssignments, UpdatesText, ValueExpr, Eval;
    var u := Update("n", AddExcluded);
    var us := [u, u];
    UpdatesParse(mysql, 0, "t", us);
    var x := Assignment("n", ValueExpr(mysql, "t", u));
    var xs := Assignments(mysql, "t", us);
    assert xs == [x, x] && xs[..1] == [x] && [x][..0] == [];
    ValueMeans(mysql, "t", u, row, incoming, sem, binds);
    assert Refreshed(row, incoming, sem, u) == Int(2);
    assert Simultaneous(row, incoming, sem, binds, []) == row && LeftToRight(row, incoming, sem, binds, []) == row;
    assert Simultaneous(row, incoming, sem, binds, [x]) == map["n" := Int(2)];
    var once := LeftToRight(row, incoming, sem, binds, [x]);
    assert once == map["n" := Int(2)];
    ValueMeans(mysql, "t", u, once, incoming, sem, binds);
    assert Refreshed(once, incoming, sem, u) == Int(3);
  }
}
