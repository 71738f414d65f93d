/**
 * Multi-row inserts (crates/orm/src/insert.rs, with the row shape crates/orm-derive/src/lib.rs
 * generates): which columns are listed, and that every tuple binds its row's value for each.
 */
module InsertSql {
  import opened Wrappers
  import opened SqlText
  import opened SqlGrammar
  import opened PredicateSql
  import opened PredicateWriter

  /** A table's insertable columns, and the NULL each optional one binds where a row leaves it out. */
  datatype Shape = Shape(table: string, required: seq<string>, optional: seq<string>, nulls: seq<Bind>)

  datatype NewRow = NewRow(required: seq<Bind>, optional: seq<Option<Bind>>)

  ghost predicate WellShaped(s: Shape) {
    && |s.nulls| == |s.optional|
    && (forall j :: 0 <= j < |s.nulls| ==> Payload(s.nulls[j]) == Null)
    && forall i, j :: 0 <= i < j < |s.required + s.optional| ==> (s.required + s.optional)[i] != (s.required + s.optional)[j]
  }

  ghost predicate Rows(s: Shape, rows: seq<NewRow>) {
    forall i :: 0 <= i < |rows| ==> |rows[i].required| == |s.required| && |rows[i].optional| == |s.optional|
  }

  // ----- Which optional columns are listed ---------------------------------------------------------------

  ghost predicate Supplied(rows: seq<NewRow>, j: nat) {
    exists i :: 0 <= i < |rows| && j < |rows[i].optional| && rows[i].optional[j].Some?
  }

  lemma SuppliedSnoc(rows: seq<NewRow>, i: nat, j: nat)
    requires i < |rows|
    ensures Supplied(rows[..i + 1], j) <==>
            Supplied(rows[..i], j) || (j < |rows[i].optional| && rows[i].optional[j].Some?)
  {
    var some := rows[..i + 1];
    if j < |rows[i].optional| && rows[i].optional[j].Some? {
      assert some[i] == rows[i];
    }
    if k :| 0 <= k < i && j < |rows[..i][k].optional| && rows[..i][k].optional[j].Some? {
      assert some[k] == rows[..i][k];
    }
    if k :| 0 <= k < |some| && j < |some[k].optional| && some[k].optional[j].Some? {
      if k < i {
        assert rows[..i][k] == some[k];
      }
    }
  }

  /** A defaulted column is listed iff some row supplies it. */
  method OptionalIncluded(s: Shape, rows: seq<NewRow>) returns (included: seq<bool>)
    requires Rows(s, rows)
    ensures |included| == |s.optional|
    ensures forall j :: 0 <= j < |included| ==> (included[j] <==> Supplied(rows, j))
  {
    hide Supplied;
    included := seq(|s.optional|, _ => false);
    forall j ensures !Supplied(rows[..0], j) { NoneSupplied(j); assert rows[..0] == []; }
    for i := 0 to |rows|
      invariant |included| == |s.optional|
      invariant forall j :: 0 <= j < |included| ==> (included[j] <==> Supplied(rows[..i], j))
    {
      var present := rows[i].optional;
      ghost var before := included;
      for j := 0 to |included|
        invariant |included| == |before|
        invariant forall k :: 0 <= k < j ==> (included[k] <==> before[k] || present[k].Some?)
        invariant forall k :: j <= k < |included| ==> included[k] == before[k]
      {
        included := included[j := included[j] || present[j].Some?];
      }
      forall j | 0 <= j < |included| ensures included[j] <==> Supplied(rows[..i + 1], j) {
        SuppliedSnoc(rows, i, j);
      }
    }
    assert rows[..|rows|] == rows;
  }

  lemma NoneSupplied(j: nat)
    ensures !Supplied([], j)
  {
  }

  function Picked<T>(xs: seq<T>, included: seq<bool>): seq<T>
    requires |included| == |xs|
  {
    if xs == [] then []
    else Picked(xs[..|xs| - 1], included[..|xs| - 1]) + (if included[|xs| - 1] then [xs[|xs| - 1]] else [])
  }

  lemma PickedSnoc<T>(xs: seq<T>, included: seq<bool>, j: nat)
    requires |included| == |xs| && j < |xs|
    ensures Picked(xs[..j + 1], included[..j + 1]) ==
            Picked(xs[..j], included[..j]) + (if included[j] then [xs[j]] else [])
  {
    assert xs[..j + 1][..j] == xs[..j] && included[..j + 1][..j] == included[..j];
  }

  function Columns(s: Shape, included: seq<bool>): seq<string>
    requires |included| == |s.optional|
  {
    s.required + Picked(s.optional, included)
  }

  method ColumnNames(s: Shape, included: seq<bool>) returns (names: seq<string>)
    requires |included| == |s.optional|
    ensures names == Columns(s, included)
  {
    names := s.required;
    for j := 0 to |included|
      invariant names == s.required + Picked(s.optional[..j], included[..j])
    {
      PickedSnoc(s.optional, included, j);
      if included[j] {
        names := names + [s.optional[j]];
      }
    }
    assert s.optional[..|included|] == s.optional && included[..|included|] == included;
  }

  lemma {:induction false} PickedIff<T>(xs: seq<T>, included: seq<bool>, x: T)
    requires |included| == |xs|
    ensures x in Picked(xs, included) <==> exists j :: 0 <= j < |xs| && included[j] && xs[j] == x
  {
    if xs != [] {
      PickedIff(xs[..|xs| - 1], included[..|xs| - 1], x);
    }
  }

  /** Omitted iff it has a default and no row supplies it. */
  lemma OmittedIff(s: Shape, rows: seq<NewRow>, included: seq<bool>, name: string)
    requires WellShaped(s) && |included| == |s.optional| && name in s.required + s.optional
    requires forall j :: 0 <= j < |included| ==> (included[j] <==> Supplied(rows, j))
    ensures name !in Columns(s, included) <==> exists j :: 0 <= j < |s.optional| && s.optional[j] == name && !Supplied(rows, j)
  {
    hide Supplied, Picked;
    PickedIff(s.optional, included, name);
    var all := s.required + s.optional;
    if j :| 0 <= j < |s.optional| && s.optional[j] == name && !Supplied(rows, j) {
      assert all[|s.required| + j] == name;
      forall i | 0 <= i < |s.required| ensures s.required[i] != name { assert all[i] == s.required[i]; }
      forall k | 0 <= k < |s.optional| && included[k] ensures s.optional[k] != name {
        assert all[|s.required| + k] == s.optional[k];
      }
    }
  }

  // ----- What a tuple binds ----------------------------------------------------------------------------------

  function OptionalBinds(s: Shape, row: NewRow): seq<Bind>
    requires |s.nulls| == |s.optional| == |row.optional|
  {
    seq(|s.optional|, j requires 0 <= j < |s.optional| =>
      match row.optional[j] case Some(b) => b case None => s.nulls[j])
  }

  function RowBinds(s: Shape, included: seq<bool>, row: NewRow): seq<Bind>
    requires |included| == |s.nulls| == |s.optional| == |row.optional|
  {
    row.required + Picked(OptionalBinds(s, row), included)
  }

  /** The row's own value for a column: NULL for an optional one it leaves out. */
  ghost predicate Holds(s: Shape, row: NewRow, name: string, v: Datum)
    requires |row.required| == |s.required| && |row.optional| == |s.optional|
  {
    || (exists i :: 0 <= i < |s.required| && s.required[i] == name && Payload(row.required[i]) == v)
    || (exists j :: 0 <= j < |s.optional| && s.optional[j] == name &&
          v == match row.optional[j] case Some(b) => Payload(b) case None => Null)
  }

  lemma {:induction false} PickedTogether<T, U>(xs: seq<T>, ys: seq<U>, included: seq<bool>, c: nat) returns (j: nat)
    requires |included| == |xs| == |ys|
    ensures |Picked(xs, included)| == |Picked(ys, included)|
    ensures c < |Picked(xs, included)| ==> j < |xs| && Picked(xs, included)[c] == xs[j] && Picked(ys, included)[c] == ys[j]
  {
    j := 0;
    if xs != [] {
      var n := |xs| - 1;
      var k := PickedTogether(xs[..n], ys[..n], included[..n], c);
      j := if c < |Picked(xs[..n], included[..n])| then k else n;
    }
  }

  /** A tuple has one value for each listed column, and it is that row's value for that column. */
  lemma TupleMatchesColumns(s: Shape, included: seq<bool>, row: NewRow, c: nat)
    requires WellShaped(s) && |included| == |s.optional|
    requires |row.required| == |s.required| && |row.optional| == |s.optional|
    ensures |RowBinds(s, included, row)| == |Columns(s, included)|
    ensures c < |Columns(s, included)| ==>
              Holds(s, row, Columns(s, included)[c], Payload(RowBinds(s, included, row)[c]))
  {
    hide Picked;
    var n := |s.required|;
    var j := PickedTogether(s.optional, OptionalBinds(s, row), included, if c < n then 0 else c - n);
  }

  // ----- The text ----------------------------------------------------------------------------------------------

  function Numbers(d: Dialect): Dialect { d.(numbered := true) }

  function TupleText(d: Dialect, from: nat, bs: seq<Bind>): Sql {
    if bs == [] then []
    else
      var m := |bs| - 1;
      TupleText(d, from, bs[..m]) + (if m > 0 then [Comma] else []) + BindText(Numbers(d), from + m + 1, bs[m])
  }

  /** `($1, $2), ($3, $4), …` */
  function ValuesText(d: Dialect, from: nat, tuples: seq<seq<Bind>>): Sql {
    if tuples == [] then []
    else
      var m := |tuples| - 1;
      ValuesText(d, from, tuples[..m]) + (if m > 0 then [Comma] else []) +
      ([Open] + (TupleText(d, from + |Flat(tuples[..m])|, tuples[m]) + [Close]))
  }

  function Flat(tuples: seq<seq<Bind>>): seq<Datum> {
    if tuples == [] then [] else Flat(tuples[..|tuples| - 1]) + Payloads(tuples[|tuples| - 1])
  }

  function Payloads(bs: seq<Bind>): seq<Datum> {
    seq(|bs|, i requires 0 <= i < |bs| => Payload(bs[i]))
  }

  function Tuples(s: Shape, included: seq<bool>, rows: seq<NewRow>): seq<seq<Bind>>
    requires |included| == |s.nulls| == |s.optional| && Rows(s, rows)
  {
    seq(|rows|, i requires 0 <= i < |rows| => RowBinds(s, included, rows[i]))
  }

  /** In equal tuples of `n` values, value `c` of tuple `i` is the flat value `i * n + c`. */
  lemma {:induction false} FlatAt(tuples: seq<seq<Bind>>, n: nat, i: nat, c: nat)
    requires (forall k :: 0 <= k < |tuples| ==> |tuples[k]| == n) && i < |tuples| && c < n
    ensures |Flat(tuples)| == |tuples| * n
    ensures 0 <= i * n + c < |Flat(tuples)| && Flat(tuples)[i * n + c] == Payload(tuples[i][c])
  {
    FlatLength(tuples, n);
    var m := |tuples| - 1;
    FlatLength(tuples[..m], n);
    if i < m {
      FlatAt(tuples[..m], n, i, c);
    }
  }

  lemma {:induction false} FlatLength(tuples: seq<seq<Bind>>, n: nat)
    requires forall k :: 0 <= k < |tuples| ==> |tuples[k]| == n
    ensures |Flat(tuples)| == |tuples| * n
  {
    if tuples != [] {
      var m := |tuples| - 1;
      FlatLength(tuples[..m], n);
      assert |Flat(tuples)| == m * n + |Payloads(tuples[m])|;
    }
  }

  lemma MaskBind(d: Dialect, k: nat, b: Bind)
    ensures Mask(d, BindText(Numbers(d), k, b)) == BindText(d, k, b)
  {
  }

  /** A value the dialect has no cast for. */
  predicate Uncastable(d: Dialect, b: Bind) { b.Cast? && !d.casts }

  predicate AnyUncastable(d: Dialect, bs: seq<Bind>) {
    exists i :: 0 <= i < |bs| && Uncastable(d, bs[i])
  }

  method WriteBind(w: SqlWriter, b: Bind)
    requires w.Valid()
    modifies w
    ensures w.unsupported.Some? <==> old(w.unsupported).Some? || Uncastable(w.dialect, b)
    ensures w.Valid() && Wrote(w.dialect, old(Now(w)), Now(w), BindText(Numbers(w.dialect), |old(w.binds)| + 1, b), [Payload(b)])
  {
    MaskBind(w.dialect, |w.binds| + 1, b);
    w.PushBind(b);
  }

  lemma NoTuple(d: Dialect, s: Snapshot, from: nat)
    ensures Wrote(d, s, s, TupleText(d, from, []), Payloads([])) && Wrote(d, s, s, ValuesText(d, from, []), Flat([]))
  {
    assert Payloads([]) == [];
  }

  lemma TupleSnoc(d: Dialect, from: nat, bs: seq<Bind>, i: nat)
    requires i < |bs|
    ensures TupleText(d, from, bs[..i + 1]) ==
            TupleText(d, from, bs[..i]) + (if i > 0 then [Comma] else []) + BindText(Numbers(d), from + i + 1, bs[i])
    ensures Payloads(bs[..i + 1]) == Payloads(bs[..i]) + [Payload(bs[i])] && |Payloads(bs[..i])| == i
  {
    assert bs[..i + 1][..i] == bs[..i];
  }

  /** After the separator, one more element of a comma-separated list. */
  lemma WroteElement(d: Dialect, s0: Snapshot, s1: Snapshot, s2: Snapshot, s3: Snapshot, first: bool, done: Sql, element: Sql,
                     x: seq<Datum>, y: seq<Datum>)
    requires Wrote(d, s0, s1, done, x) && Wrote(d, s2, s3, element, y)
    requires if first then s2 == s1 else Wrote(d, s1, s2, [Comma], [])
    ensures Wrote(d, s0, s3, done + (if first then [] else [Comma]) + element, x + y)
  {
    hide Wrote;
    assert x + [] == x && done + [] == done;
    if !first {
      WroteConcat(d, s0, s1, s2, done, [Comma], x, []);
    }
    WroteConcat(d, s0, s2, s3, done + (if first then [] else [Comma]), element, x, y);
  }

  /** `bind_values`: the required values, then those of the listed optional columns. */
  method BindValues(bs: seq<Bind>, w: SqlWriter)
    requires w.Valid()
    modifies w
    ensures w.Valid() && Wrote(w.dialect, old(Now(w)), Now(w), TupleText(w.dialect, |old(w.binds)|, bs), Payloads(bs))
    ensures w.unsupported.Some? <==> old(w.unsupported).Some? || AnyUncastable(w.dialect, bs)
  {
    hide Wrote, TupleText, Payloads, BindText, Uncastable;
    ghost var d, s0, from := w.dialect, Now(w), |w.binds|;
    assert bs[..0] == [];
    NoTuple(d, s0, from);
    for i := 0 to |bs|
      invariant w.Valid() && Wrote(d, s0, Now(w), TupleText(d, from, bs[..i]), Payloads(bs[..i]))
      invariant w.unsupported.Some? <==> old(w.unsupported).Some? || exists k :: 0 <= k < i && Uncastable(d, bs[k])
    {
      ghost var s1 := Now(w);
      TupleSnoc(d, from, bs, i);
      WroteCount(d, s0, s1, TupleText(d, from, bs[..i]), Payloads(bs[..i]));
      if i > 0 {
        Push(w, [Comma]);
      }
      ghost var s2 := Now(w);
      WriteBind(w, bs[i]);
      WroteElement(d, s0, s1, s2, Now(w), i == 0, TupleText(d, from, bs[..i]), BindText(Numbers(d), from + i + 1, bs[i]),
                   Payloads(bs[..i]), [Payload(bs[i])]);
    }
    assert bs[..|bs|] == bs;
  }

  lemma ValuesSnoc(d: Dialect, from: nat, tuples: seq<seq<Bind>>, i: nat)
    requires i < |tuples|
    ensures ValuesText(d, from, tuples[..i + 1]) ==
            ValuesText(d, from, tuples[..i]) + (if i > 0 then [Comma] else []) +
            ([Open] + (TupleText(d, from + |Flat(tuples[..i])|, tuples[i]) + [Close]))
    ensures Flat(tuples[..i + 1]) == Flat(tuples[..i]) + Payloads(tuples[i])
  {
    hide TupleText;
    assert tuples[..i + 1][..i] == tuples[..i];
  }

  method WriteTuple(bs: seq<Bind>, w: SqlWriter)
    requires w.Valid()
    modifies w
    ensures w.Valid()
    ensures Wrote(w.dialect, old(Now(w)), Now(w), [Open] + (TupleText(w.dialect, |old(w.binds)|, bs) + [Close]), Payloads(bs))
    ensures w.unsupported.Some? <==> old(w.unsupported).Some? || AnyUncastable(w.dialect, bs)
  {
    hide Wrote, TupleText, Payloads, AnyUncastable;
    ghost var d, s0, from := w.dialect, Now(w), |w.binds|;
    Push(w, [Open]);
    ghost var s1 := Now(w);
    BindValues(bs, w);
    ghost var s2 := Now(w);
    Push(w, [Close]);
    WroteConcat(d, s1, s2, Now(w), TupleText(d, from, bs), [Close], Payloads(bs), []);
    assert Payloads(bs) + [] == Payloads(bs);
    WroteConcat(d, s0, s1, Now(w), [Open], TupleText(d, from, bs) + [Close], [], Payloads(bs));
    assert [] + Payloads(bs) == Payloads(bs);
  }

  method WriteTuples(tuples: seq<seq<Bind>>, w: SqlWriter)
    requires w.Valid()
    modifies w
    ensures w.Valid() && Wrote(w.dialect, old(Now(w)), Now(w), ValuesText(w.dialect, |old(w.binds)|, tuples), Flat(tuples))
    ensures w.unsupported.Some? <==>
            || old(w.unsupported).Some?
            || exists i :: 0 <= i < |tuples| && AnyUncastable(w.dialect, tuples[i])
  {
    hide Wrote, TupleText, ValuesText, Flat, Payloads, AnyUncastable;
    ghost var d, s0, from := w.dialect, Now(w), |w.binds|;
    assert tuples[..0] == [];
    NoTuple(d, s0, from);
    for i := 0 to |tuples|
      invariant w.Valid() && Wrote(d, s0, Now(w), ValuesText(d, from, tuples[..i]), Flat(tuples[..i]))
      invariant w.unsupported.Some? <==>
                old(w.unsupported).Some? || exists k :: 0 <= k < i && AnyUncastable(d, tuples[k])
    {
      ghost var s1 := Now(w);
      ValuesSnoc(d, from, tuples, i);
      WroteCount(d, s0, s1, ValuesText(d, from, tuples[..i]), Flat(tuples[..i]));
      if i > 0 {
        Push(w, [Comma]);
      }
      ghost var s2 := Now(w);
      WriteTuple(tuples[i], w);
      WroteElement(d, s0, s1, s2, Now(w), i == 0, ValuesText(d, from, tuples[..i]),
                   [Open] + (TupleText(d, from + |Flat(tuples[..i])|, tuples[i]) + [Close]), Flat(tuples[..i]), Payloads(tuples[i]));
    }
    assert tuples[..|tuples|] == tuples;
  }

  function NamesText(names: seq<string>): Sql {
    if names == [] then []
    else NamesText(names[..|names| - 1]) + (if |names| > 1 then [Comma] else []) + [Ident(names[|names| - 1])]
  }

  function HeadText(table: string, columns: seq<string>): Sql {
    [InsertWord, Ident(table), Open] + (NamesText(columns) + [Close, ValuesWord])
  }

  predicate AllValid(valid: string -> bool, names: seq<string>) {
    forall i :: 0 <= i < |names| ==> valid(names[i])
  }

  method WriteName(name: string, w: SqlWriter) returns (ok: bool)
    requires w.Valid()
    modifies w`sql
    ensures w.Valid() && ok == w.validIdent(name)
    ensures ok ==> Wrote(w.dialect, old(Now(w)), Now(w), [Ident(name)], [])
  {
    MaskOne(w.dialect, Ident(name));
    ok := w.PushIdent(name);
  }

  lemma NamesSnoc(names: seq<string>, i: nat)
    requires i < |names|
    ensures NamesText(names[..i + 1]) == NamesText(names[..i]) + (if i > 0 then [Comma] else []) + [Ident(names[i])]
  {
    assert names[..i + 1][..i] == names[..i];
  }

  lemma NoNames(d: Dialect, s: Snapshot)
    ensures Wrote(d, s, s, NamesText([]), [])
  {
  }

  method WriteNames(names: seq<string>, w: SqlWriter) returns (ok: bool)
    requires w.Valid()
    modifies w`sql
    ensures w.Valid() && ok == AllValid(w.validIdent, names)
    ensures ok ==> Wrote(w.dialect, old(Now(w)), Now(w), NamesText(names), [])
  {
    hide Wrote, NamesText;
    ghost var d, s0 := w.dialect, Now(w);
    ok := true;
    assert names[..0] == [];
    NoNames(d, s0);
    for i := 0 to |names|
      invariant w.Valid() && AllValid(w.validIdent, names[..i]) && Wrote(d, s0, Now(w), NamesText(names[..i]), [])
    {
      ghost var s1 := Now(w);
      NamesSnoc(names, i);
      if i > 0 {
        Push(w, [Comma]);
      }
      ghost var s2 := Now(w);
      ok := WriteName(names[i], w);
      if !ok { return; }
      ghost var none: seq<Datum> := [];
      WroteElement(d, s0, s1, s2, Now(w), i == 0, NamesText(names[..i]), [Ident(names[i])], none, none);
      assert none + none == none;
    }
    assert names[..|names|] == names;
  }

  method WriteHead(table: string, columns: seq<string>, w: SqlWriter) returns (ok: bool)
    requires w.Valid()
    modifies w`sql
    ensures w.Valid() && ok == (w.validIdent(table) && AllValid(w.validIdent, columns))
    ensures ok ==> Wrote(w.dialect, old(Now(w)), Now(w), HeadText(table, columns), [])
  {
    hide Wrote, NamesText, AllValid;
    ghost var d, s0 := w.dialect, Now(w);
    Push(w, [InsertWord]);
    ghost var s1 := Now(w);
    ok := WriteName(table, w);
    if !ok { return; }
    ghost var s2 := Now(w);
    Push(w, [Open]);
    ghost var s3 := Now(w);
    ok := WriteNames(columns, w);
    if !ok { return; }
    ghost var s4 := Now(w);
    Push(w, [Close, ValuesWord]);
    WroteConcat(d, s0, s1, s2, [InsertWord], [Ident(table)], [], []);
    WroteConcat(d, s0, s2, s3, [InsertWord] + [Ident(table)], [Open], [], []);
    WroteConcat(d, s3, s4, Now(w), NamesText(columns), [Close, ValuesWord], [], []);
    var head := [InsertWord] + [Ident(table)] + [Open];
    WroteConcat(d, s0, s3, Now(w), head, NamesText(columns) + [Close, ValuesWord], [], []);
    assert head == [InsertWord, Ident(table), Open];
  }
}
