/**
 * How a database reads an insert statement: its table and columns, and what its conflict clause does
 * to a stored row, independently of how the statement was written.
 */
module StatementGrammar {
  import opened Wrappers
  import opened SqlText
  import opened SqlGrammar
  import opened UpsertSql

  datatype Clause =
    | Rejects
    | Ignores(targets: seq<string>)
    | Sets(targets: seq<string>, assignments: seq<Assignment>, guard: Option<Expr>)
    | SetsInOrder(assignments: seq<Assignment>)

  /** The text of each value of each row is kept as it stands. */
  datatype Insert = Insert(table: string, columns: seq<string>, rows: seq<seq<Sql>>, clause: Clause)

  /** `a, b, c` up to a closing parenthesis; a list may be empty. */
  function ParseNames(ts: Sql): (p: Parse<seq<string>>)
    ensures p.Done? ==> |p.rest| <= |ts| && At(p.rest, Close)
    decreases |ts|
  {
    if At(ts, Close) then Done([], ts)
    else if ts == [] || !ts[0].Ident? then Fail
    else if At(ts[1..], Close) then Done([ts[0].name], ts[1..])
    else if !At(ts[1..], Comma) then Fail
    else
      var more := ParseNames(ts[2..]);
      if more.Fail? then Fail else Done([ts[0].name] + more.value, more.rest)
  }

  /** `do nothing`, or the assignments and the guard that may follow them. */
  function ParseAction(targets: seq<string>, ts: Sql): Option<Clause> {
    if ts == [DoNothingWord] then Some(Ignores(targets))
    else if !At(ts, DoUpdateWord) then None
    else
      var xs := ParseAssignments(ts[1..]);
      if xs.Fail? then None
      else if xs.rest == [] then Some(Sets(targets, xs.value, None))
      else if !At(xs.rest, WhereWord) then None
      else
        var guard := ParseOr(xs.rest[1..]);
        if guard.Done? && guard.rest == [] then Some(Sets(targets, xs.value, Some(guard.value))) else None
  }

  function ParseClause(ts: Sql): Option<Clause> {
    if ts == [] then Some(Rejects)
    else if At(ts, OnDuplicateWord) then
      var xs := ParseAssignments(ts[1..]);
      if xs.Done? && xs.rest == [] then Some(SetsInOrder(xs.value)) else None
    else if At(ts, OnConflictWord) && At(ts[1..], Open) then
      var targets := ParseNames(ts[2..]);
      if targets.Fail? then None else ParseAction(targets.value, targets.rest[1..])
    else None
  }

  predicate OpensGroup(t: Token) { t.Open? || t.SetSridWord? }

  /** How far a value reaches: to the first comma or closing parenthesis outside its own parentheses. */
  function ValueEnd(ts: Sql, depth: nat): (n: nat)
    ensures n <= |ts|
  {
    if ts == [] || (depth == 0 && (ts[0].Comma? || ts[0].Close?)) then 0
    else
      1 + ValueEnd(ts[1..], if OpensGroup(ts[0]) then depth + 1 else if ts[0].Close? && depth > 0 then depth - 1 else depth)
  }

  /** The values of one row, up to and with its closing parenthesis. */
  function ParseTuple(ts: Sql): (p: Parse<seq<Sql>>)
    ensures p.Done? ==> |p.rest| < |ts|
    decreases |ts|
  {
    if At(ts, Close) then Done([], ts[1..])
    else
      var n := ValueEnd(ts, 0);
      if n == 0 then Fail
      else if At(ts[n..], Close) then Done([ts[..n]], ts[n..][1..])
      else if !At(ts[n..], Comma) then Fail
      else
        var more := ParseTuple(ts[n..][1..]);
        if more.Fail? || more.value == [] then Fail else Done([ts[..n]] + more.value, more.rest)
  }

  function ParseRows(ts: Sql): (p: Parse<seq<seq<Sql>>>)
    ensures p.Done? ==> |p.rest| < |ts|
    decreases |ts|
  {
    if !At(ts, Open) then Fail
    else
      var row := ParseTuple(ts[1..]);
      if row.Fail? then Fail
      else if !At(row.rest, Comma) then Done([row.value], row.rest)
      else
        var more := ParseRows(row.rest[1..]);
        if more.Fail? then Fail else Done([row.value] + more.value, more.rest)
  }

  function ParseInsert(ts: Sql): Option<Insert> {
    if |ts| < 3 || ts[0] != InsertWord || !ts[1].Ident? || ts[2] != Open then None
    else
      var columns := ParseNames(ts[3..]);
      if columns.Fail? || !At(columns.rest[1..], ValuesWord) then None
      else
        var rows := ParseRows(columns.rest[2..]);
        if rows.Fail? then None
        else
          var clause := ParseClause(rows.rest);
          if clause.None? then None else Some(Insert(ts[1].name, columns.value, rows.value, clause.value))
  }

  /** What a value stands for: the bind its one placeholder names. */
  function ValueOf(ts: Sql, binds: seq<Datum>): Option<Datum> {
    var ps := Placeholders(ts);
    if |ps| == 1 && ps[0].Numbered? && 1 <= ps[0].position <= |binds| then Some(binds[ps[0].position - 1]) else None
  }

  /** The type a value is cast to, if it is. */
  function CastOf(ts: Sql): Option<string> {
    if |ts| == 3 && ts[1] == Verbatim("::") && ts[2].Verbatim? then Some(ts[2].text) else None
  }

  /** What becomes of a stored row that an incoming one conflicts with; nothing at all if that is an error. */
  ghost function AfterConflict(clause: Clause, row: Row, incoming: Row, sem: Semantics, binds: seq<Datum>): Option<Row> {
    match clause
    case Rejects => None
    case Ignores(_) => Some(row)
    case Sets(_, xs, guard) =>
      if guard.None? || AsTruth(Eval(guard.value, RowEnv(row, incoming, sem), binds)) == True
      then Some(Simultaneous(row, incoming, sem, binds, xs)) else Some(row)
    case SetsInOrder(xs) => Some(LeftToRight(row, incoming, sem, binds, xs))
  }

  // ----- Reading the parts of a statement ---------------------------------------------------------------------

  lemma InsertFrom(ts: Sql, columns: seq<string>, after: Sql, rows: seq<seq<Sql>>, rest: Sql, c: Clause)
    requires |ts| >= 3 && ts[0] == InsertWord && ts[1].Ident? && ts[2] == Open && ParseNames(ts[3..]) == Done(columns, after)
    requires |after| >= 2 && after[1] == ValuesWord && ParseRows(after[2..]) == Done(rows, rest) && ParseClause(rest) == Some(c)
    ensures ParseInsert(ts) == Some(Insert(ts[1].name, columns, rows, c))
  {
    hide ParseNames, ParseClause, ParseRows;
    assert after[1..][0] == after[1];
  }

  lemma HeadParts(head: Sql, names: Sql, a: Token, b: Token, more: Sql)
    ensures var ts := head + (names + [a, b]) + more;
            && |ts| >= |head| && (forall i :: 0 <= i < |head| ==> ts[i] == head[i])
            && ts[|head|..] == names + ([a] + ([b] + more))
    ensures ([a] + ([b] + more))[2..] == more && ([a] + ([b] + more))[1] == b
  {
  }

  lemma InsertReads(ts: Sql, head: Sql, columns: seq<string>, names: Sql, values: Sql, rows: seq<seq<Sql>>,
                    clause: Sql, c: Clause)
    requires |head| == 3 && head[0] == InsertWord && head[1].Ident? && head[2] == Open
    requires ts == head + (names + [Close, ValuesWord]) + (values + clause)
    requires ParseNames(names + ([Close] + ([ValuesWord] + (values + clause)))) ==
             Done(columns, [Close] + ([ValuesWord] + (values + clause)))
    requires ParseRows(values + clause) == Done(rows, clause) && ParseClause(clause) == Some(c)
    ensures ParseInsert(ts) == Some(Insert(head[1].name, columns, rows, c))
  {
    hide ParseNames, ParseClause, ParseRows, ParseInsert;
    HeadParts(head, names, Close, ValuesWord, values + clause);
    InsertFrom(ts, columns, [Close] + ([ValuesWord] + (values + clause)), rows, clause, c);
  }

  /** Text without parentheses or commas of its own is passed over; inside a group its commas are too. */
  lemma {:induction false} ValuePlain(ts: Sql, rest: Sql, depth: nat)
    requires forall i :: 0 <= i < |ts| ==> !OpensGroup(ts[i]) && !ts[i].Close? && (ts[i].Comma? ==> depth > 0)
    ensures ValueEnd(ts + rest, depth) == |ts| + ValueEnd(rest, depth)
  {
    if ts == [] {
      assert ts + rest == rest;
    } else {
      assert (ts + rest)[1..] == ts[1..] + rest;
      ValuePlain(ts[1..], rest, depth);
    }
  }

  lemma LastValue(value: Sql, rest: Sql)
    requires value != [] && !At(value, Close) && ValueEnd(value + ([Close] + rest), 0) == |value|
    ensures ParseTuple(value + ([Close] + rest)) == Done([value], rest)
  {
    hide ValueEnd;
    var ts := value + ([Close] + rest);
    assert ts[0] == value[0];
    assert ts[..|value|] == value && ts[|value|..] == [Close] + rest && ([Close] + rest)[1..] == rest;
  }

  lemma MoreValues(value: Sql, more: Sql, values: seq<Sql>, rest: Sql)
    requires value != [] && !At(value, Close) && ValueEnd(value + ([Comma] + more), 0) == |value|
    requires ParseTuple(more) == Done(values, rest) && values != []
    ensures ParseTuple(value + ([Comma] + more)) == Done([value] + values, rest)
  {
    hide ValueEnd;
    var ts := value + ([Comma] + more);
    assert ts[0] == value[0];
    assert ts[..|value|] == value && ts[|value|..] == [Comma] + more && ([Comma] + more)[1..] == more;
  }

  lemma LastRow(tuple: Sql, values: seq<Sql>, rest: Sql)
    requires ParseTuple(tuple) == Done(values, rest) && !At(rest, Comma)
    ensures ParseRows([Open] + tuple) == Done([values], rest)
  {
    hide ParseTuple;
    assert ([Open] + tuple)[1..] == tuple;
  }

  lemma MoreRows(tuple: Sql, values: seq<Sql>, more: Sql, rows: seq<seq<Sql>>, rest: Sql)
    requires ParseTuple(tuple) == Done(values, [Comma] + more) && ParseRows(more) == Done(rows, rest)
    ensures ParseRows([Open] + tuple) == Done([values] + rows, rest)
  {
    hide ParseTuple;
    assert ([Open] + tuple)[1..] == tuple && ([Comma] + more)[1..] == more;
  }

  lemma SetReads(targets: seq<string>, names: Sql, sets: Sql, xs: seq<Assignment>, guard: Sql, g: Option<Expr>)
    requires ParseNames(names + ([Close] + ([DoUpdateWord] + (sets + guard)))) ==
             Done(targets, [Close] + ([DoUpdateWord] + (sets + guard)))
    requires ParseAssignments(sets + guard) == Done(xs, guard)
    requires if guard == [] then g == None
             else At(guard, WhereWord) && g.Some? && ParseOr(guard[1..]) == Done(g.value, [])
    ensures ParseClause([OnConflictWord, Open] + (names + ([Close] + ([DoUpdateWord] + (sets + guard)))))
            == Some(Sets(targets, xs, g))
  {
    hide ParseNames, ParseAssignments, ParseOr;
    var tail := [Close] + ([DoUpdateWord] + (sets + guard));
    var ts := [OnConflictWord, Open] + (names + tail);
    assert ts[2..] == names + tail && ts[1..][0] == Open;
    assert tail[1..] == [DoUpdateWord] + (sets + guard);
    assert ([DoUpdateWord] + (sets + guard))[1..] == sets + guard;
  }

  lemma NothingReads(targets: seq<string>, names: Sql)
    requires ParseNames(names + ([Close] + [DoNothingWord])) == Done(targets, [Close] + [DoNothingWord])
    ensures ParseClause([OnConflictWord, Open] + (names + ([Close] + [DoNothingWord]))) == Some(Ignores(targets))
  {
    hide ParseNames, ParseAssignments;
    var tail := [Close] + [DoNothingWord];
    var ts := [OnConflictWord, Open] + (names + tail);
    assert ts[2..] == names + tail && ts[1..][0] == Open;
    assert tail[1..] == [DoNothingWord];
  }
}
