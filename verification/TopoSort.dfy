/**
 * Foreign-key ordering of created and dropped tables (crates/orm-cli/src/diff.rs,
 * `topo_sort_creates`).
 */
module TopoSort {
  import opened Wrappers
  import opened SchemaModel

  function Names(ts: seq<Table>): seq<Name> {
    seq(|ts|, i requires 0 <= i < |ts| => ts[i].name)
  }

  /** The table references another member of the set that is not placed yet. */
  predicate DependsOnUnplaced(t: Table, inSet: seq<Name>, placed: seq<Name>) {
    exists i :: 0 <= i < |t.columns| &&
      var fk := t.columns[i].attributes.references;
      fk.Some? && fk.value.table != t.name && fk.value.table in inSet && fk.value.table !in placed
  }

  lemma DependsMeansTarget(t: Table, inSet: seq<Name>, placed: seq<Name>)
    ensures DependsOnUnplaced(t, inSet, placed) <==>
            exists u :: u in Targets(t) && u in inSet && u !in placed
  {
    if u :| u in Targets(t) && u in inSet && u !in placed {
      var c :| c in t.columns && c.attributes.references.Some? && c.attributes.references.value.table == u;
      var i :| 0 <= i < |t.columns| && t.columns[i] == c;
    }
    if DependsOnUnplaced(t, inSet, placed) {
      var i :| 0 <= i < |t.columns| &&
        var fk := t.columns[i].attributes.references;
        fk.Some? && fk.value.table != t.name && fk.value.table in inSet && fk.value.table !in placed;
      assert t.columns[i] in t.columns;
      assert t.columns[i].attributes.references.value.table in Targets(t);
    }
  }

  /** The first table whose in-set targets are all placed; the first of all on a cycle. */
  function NextIndex(remaining: seq<Table>, inSet: seq<Name>, placed: seq<Name>, from: nat): (i: nat)
    requires from <= |remaining| && remaining != []
    ensures i < |remaining|
    ensures forall k :: from <= k < |remaining| && !DependsOnUnplaced(remaining[k], inSet, placed) ==>
              from <= i <= k && !DependsOnUnplaced(remaining[i], inSet, placed)
    ensures from <= i || i == 0
    ensures forall k :: from <= k < i ==> DependsOnUnplaced(remaining[k], inSet, placed)
    decreases |remaining| - from
  {
    if from == |remaining| then 0
    else if !DependsOnUnplaced(remaining[from], inSet, placed) then from
    else NextIndex(remaining, inSet, placed, from + 1)
  }

  function Without<T>(xs: seq<T>, i: nat): seq<T>
    requires i < |xs|
  {
    xs[..i] + xs[i + 1..]
  }

  function Place(remaining: seq<Table>, inSet: seq<Name>, placed: seq<Name>): seq<Table>
    decreases |remaining|
  {
    if remaining == [] then []
    else
      var i := NextIndex(remaining, inSet, placed, 0);
      [remaining[i]] + Place(Without(remaining, i), inSet, placed + [remaining[i].name])
  }

  function Sorted(tables: seq<Table>): seq<Table> {
    Place(tables, Names(tables), [])
  }

  method TopoSortCreates(tables: seq<Table>) returns (ordered: seq<Table>)
    ensures ordered == Sorted(tables)
  {
    var inSet := Names(tables);
    var placed: seq<Name> := [];
    ordered := [];
    var remaining := tables;
    while remaining != []
      invariant ordered + Place(remaining, inSet, placed) == Sorted(tables)
      decreases |remaining|
    {
      var next := NextIndex(remaining, inSet, placed, 0);
      var table := remaining[next];
      remaining := Without(remaining, next);
      placed := placed + [table.name];
      ordered := ordered + [table];
    }
  }

  // ----- It is a permutation --------------------------------------------------------------------

  lemma {:induction false} PlacePermutes(remaining: seq<Table>, inSet: seq<Name>, placed: seq<Name>)
    ensures multiset(Place(remaining, inSet, placed)) == multiset(remaining)
    decreases |remaining|
  {
    if remaining != [] {
      var i := NextIndex(remaining, inSet, placed, 0);
      var rest := Without(remaining, i);
      PlacePermutes(rest, inSet, placed + [remaining[i].name]);
      assert remaining == remaining[..i] + [remaining[i]] + remaining[i + 1..];
      assert multiset(rest) + multiset{remaining[i]} == multiset(remaining);
    }
  }

  /** Nothing lost, nothing invented, whatever cycles the keys form. */
  lemma SortedPermutes(tables: seq<Table>)
    ensures multiset(Sorted(tables)) == multiset(tables)
  {
    PlacePermutes(tables, Names(tables), []);
  }

  // ----- It respects every foreign key iff that is possible -----------------------------------------

  /** Every table comes after all the tables of the list it references. */
  ghost predicate ParentsFirst(ts: seq<Table>) {
    forall i, j :: 0 <= i < |ts| && 0 <= j < |ts| && ts[j].name in Targets(ts[i]) ==> j < i
  }

  ghost predicate Ranks(rank: map<Name, int>, ts: seq<Table>) {
    forall t, u :: t in ts && u in ts && u.name in Targets(t) ==>
      t.name in rank && u.name in rank && rank[u.name] < rank[t.name]
  }

  /** No foreign-key cycle among the tables, self-references aside. */
  ghost predicate Acyclic(ts: seq<Table>) {
    exists rank :: Ranks(rank, ts)
  }

  /** Among unplaced tables one of least rank has nothing unplaced to wait for. */
  lemma {:induction false} LeastRanked(rank: map<Name, int>, remaining: seq<Table>) returns (k: nat)
    requires remaining != [] && forall t :: t in remaining ==> t.name in rank
    ensures k < |remaining|
    ensures forall i :: 0 <= i < |remaining| ==> rank[remaining[k].name] <= rank[remaining[i].name]
  {
    if |remaining| == 1 {
      k := 0;
    } else {
      var n := |remaining| - 1;
      assert forall i :: 0 <= i < n ==> remaining[..n][i] == remaining[i];
      var j := LeastRanked(rank, remaining[..n]);
      assert remaining[n] in remaining;
      k := if rank[remaining[j].name] <= rank[remaining[n].name] then j else n;
    }
  }

  /** What is known midway: everything in the set is placed or remaining, names are distinct. */
  ghost predicate Midway(remaining: seq<Table>, inSet: seq<Name>, placed: seq<Name>) {
    && UniqueKeys(remaining, TableName)
    && forall u :: u in inSet ==> u in placed || u in Names(remaining)
  }

  lemma SomeReady(rank: map<Name, int>, remaining: seq<Table>, inSet: seq<Name>, placed: seq<Name>)
    requires remaining != [] && Midway(remaining, inSet, placed)
    requires Ranks(rank, remaining) && forall t :: t in remaining ==> t.name in rank
    ensures !DependsOnUnplaced(remaining[NextIndex(remaining, inSet, placed, 0)], inSet, placed)
  {
    var k := LeastRanked(rank, remaining);
    DependsMeansTarget(remaining[k], inSet, placed);
    assert forall i :: 0 <= i < |remaining| ==> remaining[i] in remaining;
    assert forall i :: 0 <= i < |remaining| ==> Names(remaining)[i] == remaining[i].name;
  }

  lemma WithoutMembers(ts: seq<Table>, i: nat)
    requires i < |ts|
    ensures forall t :: t in Without(ts, i) ==> t in ts
    ensures UniqueKeys(ts, TableName) ==> UniqueKeys(Without(ts, i), TableName)
    ensures forall u :: u in Names(ts) ==> u == ts[i].name || u in Names(Without(ts, i))
  {
    var rest := Without(ts, i);
    forall u | u in Names(ts) && u != ts[i].name ensures u in Names(rest) {
      var k :| 0 <= k < |ts| && Names(ts)[k] == u;
      var at := if k < i then k else k - 1;
      assert rest[at] == ts[k] && Names(rest)[at] == u;
    }
  }

  /** Each table's in-set targets are placed already or come earlier in the list. */
  ghost predicate TargetsBefore(out: seq<Table>, inSet: seq<Name>, placed: seq<Name>) {
    forall i, u :: 0 <= i < |out| && u in Targets(out[i]) && u in inSet ==> u in placed || u in Names(out[..i])
  }

  lemma ReadyFirst(t: Table, tail: seq<Table>, inSet: seq<Name>, placed: seq<Name>)
    requires !DependsOnUnplaced(t, inSet, placed) && TargetsBefore(tail, inSet, placed + [t.name])
    ensures TargetsBefore([t] + tail, inSet, placed)
  {
    DependsMeansTarget(t, inSet, placed);
    hide Targets, DependsOnUnplaced;
    var out := [t] + tail;
    forall i, u | 0 <= i < |out| && u in Targets(out[i]) && u in inSet
      ensures u in placed || u in Names(out[..i])
    {
      if i > 0 {
        assert out[i] == tail[i - 1];
        assert u in placed + [t.name] || u in Names(tail[..i - 1]);
        assert out[..i] == [t] + tail[..i - 1];
        assert Names(out[..i]) == [t.name] + Names(tail[..i - 1]);
      }
    }
  }

  /** Under a ranking each placed table's in-set targets are placed before it. */
  lemma {:induction false} PlaceOrders(rank: map<Name, int>, remaining: seq<Table>, inSet: seq<Name>, placed: seq<Name>)
    requires Midway(remaining, inSet, placed)
    requires Ranks(rank, remaining) && forall t :: t in remaining ==> t.name in rank
    ensures TargetsBefore(Place(remaining, inSet, placed), inSet, placed)
    decreases |remaining|
  {
    hide Targets, DependsOnUnplaced, TargetsBefore, NextIndex, UniqueKeys;
    if remaining == [] {
      NothingPlaced(inSet, placed);
    } else {
      var k := NextIndex(remaining, inSet, placed, 0);
      var t := remaining[k];
      var rest := Without(remaining, k);
      WithoutMembers(remaining, k);
      PlaceOrders(rank, rest, inSet, placed + [t.name]);
      SomeReady(rank, remaining, inSet, placed);
      ReadyFirst(t, Place(rest, inSet, placed + [t.name]), inSet, placed);
    }
  }

  lemma NothingPlaced(inSet: seq<Name>, placed: seq<Name>)
    ensures TargetsBefore([], inSet, placed)
  {
  }

  lemma SortedMembers(tables: seq<Table>)
    requires UniqueKeys(tables, TableName)
    ensures |Sorted(tables)| == |tables| && UniqueKeys(Sorted(tables), TableName)
    ensures forall t :: t in Sorted(tables) <==> t in tables
  {
    SortedPermutes(tables);
    var out := Sorted(tables);
    assert forall t :: t in tables <==> t in multiset(tables);
    assert forall t :: t in out <==> t in multiset(out);
    PlaceUnique(tables, Names(tables), []);
  }

  lemma {:induction false} PlaceUnique(remaining: seq<Table>, inSet: seq<Name>, placed: seq<Name>)
    requires UniqueKeys(remaining, TableName)
    ensures UniqueKeys(Place(remaining, inSet, placed), TableName)
    ensures |Place(remaining, inSet, placed)| == |remaining|
    decreases |remaining|
  {
    if remaining != [] {
      hide NextIndex, DependsOnUnplaced;
      var k := NextIndex(remaining, inSet, placed, 0);
      var rest := Without(remaining, k);
      WithoutMembers(remaining, k);
      var tail := Place(rest, inSet, placed + [remaining[k].name]);
      PlaceUnique(rest, inSet, placed + [remaining[k].name]);
      PlacePermutes(rest, inSet, placed + [remaining[k].name]);
      assert Place(remaining, inSet, placed) == [remaining[k]] + tail;
      hide Place;
      OthersDiffer(remaining, k, tail);
    }
  }

  lemma OthersDiffer(ts: seq<Table>, k: nat, tail: seq<Table>)
    requires UniqueKeys(ts, TableName) && k < |ts| && multiset(tail) == multiset(Without(ts, k))
    requires UniqueKeys(tail, TableName)
    ensures UniqueKeys([ts[k]] + tail, TableName) && |tail| == |ts| - 1
  {
    var rest := Without(ts, k);
    assert |multiset(tail)| == |tail| && |multiset(rest)| == |rest|;
    forall j | 0 <= j < |tail| ensures TableName(tail[j]) != TableName(ts[k]) {
      assert tail[j] in multiset(tail);
      assert tail[j] in rest;
      var at :| 0 <= at < |rest| && rest[at] == tail[j];
      assert rest[at] == ts[if at < k then at else at + 1];
    }
  }

  /** The sort puts every parent first exactly when the foreign keys allow it at all. */
  lemma SortedParentsFirstIff(tables: seq<Table>)
    requires UniqueKeys(tables, TableName)
    ensures ParentsFirst(Sorted(tables)) <==> Acyclic(tables)
  {
    SortedMembers(tables);
    if Acyclic(tables) {
      AcyclicParentsFirst(tables);
    }
    if ParentsFirst(Sorted(tables)) {
      ParentsFirstAcyclic(tables);
    }
  }

  lemma AcyclicParentsFirst(tables: seq<Table>)
    requires UniqueKeys(tables, TableName) && Acyclic(tables)
    ensures ParentsFirst(Sorted(tables))
  {
    SortedMembers(tables);
    var rank0 :| Ranks(rank0, tables);
    var rank := TotalRank(rank0, tables);
    PlaceOrders(rank, tables, Names(tables), []);
    BeforeMeansFirst(Sorted(tables), tables);
  }

  lemma TotalRank(rank: map<Name, int>, tables: seq<Table>) returns (total: map<Name, int>)
    requires Ranks(rank, tables)
    ensures Ranks(total, tables) && forall t :: t in tables ==> t.name in total
  {
    hide Targets;
    total := (map t | t in tables :: t.name := 0) + rank;
  }

  lemma BeforeMeansFirst(out: seq<Table>, tables: seq<Table>)
    requires UniqueKeys(out, TableName) && (forall t :: t in out ==> t in tables)
    requires TargetsBefore(out, Names(tables), [])
    ensures ParentsFirst(out)
  {
    hide Targets, UniqueKeys;
    forall i, j | 0 <= i < |out| && 0 <= j < |out| && out[j].name in Targets(out[i]) ensures j < i {
      var u := out[j].name;
      assert out[j] in tables;
      var at :| 0 <= at < |tables| && tables[at] == out[j];
      assert Names(tables)[at] == u;
      assert u in Names(tables);
      assert u in Names(out[..i]);
      var k: nat :| k < |Names(out[..i])| && Names(out[..i])[k] == u;
      assert out[..i][k].name == u;
      SameName(out, k, j);
    }
  }

  lemma SameName(ts: seq<Table>, k: nat, j: nat)
    requires UniqueKeys(ts, TableName) && k < |ts| && j < |ts| && ts[k].name == ts[j].name
    ensures k == j
  {
    assert TableName(ts[k]) == TableName(ts[j]);
  }

  lemma ParentsFirstAcyclic(tables: seq<Table>)
    requires UniqueKeys(tables, TableName) && ParentsFirst(Sorted(tables))
    ensures Acyclic(tables)
  {
    SortedMembers(tables);
    var out := Sorted(tables);
    var rank := Positions(out);
    hide Targets, Sorted, UniqueKeys, Positions;
    forall t, u | t in tables && u in tables && u.name in Targets(t)
      ensures t.name in rank && u.name in rank && rank[u.name] < rank[t.name]
    {
      assert t in out && u in out;
      var i: nat :| i < |out| && out[i] == t;
      var j: nat :| j < |out| && out[j] == u;
    }
    assert Ranks(rank, tables);
  }

  ghost function Positions(ts: seq<Table>): (rank: map<Name, int>)
    requires UniqueKeys(ts, TableName)
    ensures forall i :: 0 <= i < |ts| ==> ts[i].name in rank && rank[ts[i].name] == i
  {
    if ts == [] then map[]
    else
      var n := |ts| - 1;
      var rank := Positions(ts[..n]);
      assert forall i :: 0 <= i < n ==> ts[..n][i] == ts[i] && TableName(ts[i]) != TableName(ts[n]);
      rank[ts[n].name := n]
  }

  // ----- Which order it is -------------------------------------------------------------------------

  /** The table references another of the set that is not placed yet. */
  ghost predicate Waits(t: Table, inSet: seq<Name>, placed: seq<Name>) {
    exists u :: u in Targets(t) && u in inSet && u !in placed
  }

  /**
   * Of the tables not gone yet it is the first that waits for nothing, or if all of them wait for
   * something the first of all.
   */
  ghost predicate IsNext(ts: seq<Table>, gone: seq<Table>, inSet: seq<Name>, placed: seq<Name>, k: nat) {
    && k < |ts| && ts[k] !in gone
    && (forall j :: 0 <= j < k ==> ts[j] in gone || Waits(ts[j], inSet, placed))
    && (Waits(ts[k], inSet, placed) ==>
          && (forall j :: 0 <= j < k ==> ts[j] in gone)
          && forall j :: k <= j < |ts| ==> ts[j] in gone || Waits(ts[j], inSet, placed))
  }

  ghost predicate TakenNext(ts: seq<Table>, gone: seq<Table>, inSet: seq<Name>, placed: seq<Name>, t: Table) {
    exists k: nat :: IsNext(ts, gone, inSet, placed, k) && ts[k] == t
  }

  /** Each table was the next one when its turn came. */
  ghost predicate InTurn(ts: seq<Table>, inSet: seq<Name>, placed: seq<Name>, out: seq<Table>) {
    forall i :: 0 <= i < |out| ==> TakenNext(ts, out[..i], inSet, placed + Names(out[..i]), out[i])
  }

  lemma FirstTaken(remaining: seq<Table>, inSet: seq<Name>, placed: seq<Name>)
    requires remaining != []
    ensures IsNext(remaining, [], inSet, placed, NextIndex(remaining, inSet, placed, 0))
  {
    forall i | 0 <= i < |remaining|
      ensures DependsOnUnplaced(remaining[i], inSet, placed) <==> Waits(remaining[i], inSet, placed)
    {
      DependsMeansTarget(remaining[i], inSet, placed);
    }
    hide DependsOnUnplaced, Waits;
    var k := NextIndex(remaining, inSet, placed, 0);
    if Waits(remaining[k], inSet, placed) {
      assert forall j :: 0 <= j < |remaining| ==> Waits(remaining[j], inSet, placed);
      AllWait(remaining, inSet, placed, 0);
    }
  }

  lemma AllWait(remaining: seq<Table>, inSet: seq<Name>, placed: seq<Name>, from: nat)
    requires from <= |remaining| && remaining != []
    requires forall j :: from <= j < |remaining| ==> DependsOnUnplaced(remaining[j], inSet, placed)
    ensures NextIndex(remaining, inSet, placed, from) == 0
    decreases |remaining| - from
  {
    hide DependsOnUnplaced;
  }

  /** What is next without one table is next with it, once that one is gone. */
  lemma NextWith(ts: seq<Table>, k: nat, gone: seq<Table>, inSet: seq<Name>, placed: seq<Name>, t: Table)
    requires k < |ts| && UniqueKeys(ts, TableName) && TakenNext(Without(ts, k), gone, inSet, placed, t)
    ensures TakenNext(ts, [ts[k]] + gone, inSet, placed, t)
  {
    hide Waits, Without, UniqueKeys;
    var rest := Without(ts, k);
    var m: nat :| IsNext(rest, gone, inSet, placed, m) && rest[m] == t;
    var at := if m < k then m else m + 1;
    Shifted(ts, k);
    IsNextWith(ts, k, rest, gone, inSet, placed, m, at);
  }

  lemma Shifted(ts: seq<Table>, k: nat)
    requires k < |ts| && UniqueKeys(ts, TableName)
    ensures var rest := Without(ts, k);
            && |rest| == |ts| - 1 && ts[k] !in rest
            && forall j :: 0 <= j < |ts| && j != k ==> ts[j] == rest[if j < k then j else j - 1]
  {
    forall j | 0 <= j < |ts| && j != k ensures TableName(ts[j]) != TableName(ts[k]) {
    }
  }

  lemma IsNextWith(ts: seq<Table>, k: nat, rest: seq<Table>, gone: seq<Table>, inSet: seq<Name>, placed: seq<Name>, m: nat, at: nat)
    requires k < |ts| && |rest| == |ts| - 1 && ts[k] !in rest && at == if m < k then m else m + 1
    requires forall j :: 0 <= j < |ts| && j != k ==> ts[j] == rest[if j < k then j else j - 1]
    requires IsNext(rest, gone, inSet, placed, m)
    ensures at < |ts| && ts[at] == rest[m] && IsNext(ts, [ts[k]] + gone, inSet, placed, at)
  {
    hide Waits;
    assert m < |rest|;
    assert forall t :: t in [ts[k]] + gone <==> t == ts[k] || t in gone;
  }

  lemma {:induction false} PlaceInTurn(remaining: seq<Table>, inSet: seq<Name>, placed: seq<Name>)
    requires UniqueKeys(remaining, TableName)
    ensures InTurn(remaining, inSet, placed, Place(remaining, inSet, placed))
    decreases |remaining|
  {
    if remaining != [] {
      hide NextIndex, IsNext, UniqueKeys, TakenNext;
      var k := NextIndex(remaining, inSet, placed, 0);
      var t, rest := remaining[k], Without(remaining, k);
      WithoutMembers(remaining, k);
      FirstTaken(remaining, inSet, placed);
      var tail := Place(rest, inSet, placed + [t.name]);
      PlaceInTurn(rest, inSet, placed + [t.name]);
      TurnsWith(remaining, k, inSet, placed, tail);
    }
  }

  lemma TurnsWith(ts: seq<Table>, k: nat, inSet: seq<Name>, placed: seq<Name>, tail: seq<Table>)
    requires UniqueKeys(ts, TableName) && k < |ts| && IsNext(ts, [], inSet, placed, k)
    requires InTurn(Without(ts, k), inSet, placed + [ts[k].name], tail)
    ensures InTurn(ts, inSet, placed, [ts[k]] + tail)
  {
    hide IsNext, UniqueKeys, Without;
    var out := [ts[k]] + tail;
    forall i | 0 <= i < |out| ensures TakenNext(ts, out[..i], inSet, placed + Names(out[..i]), out[i]) {
      if i == 0 {
        assert out[..0] == [] && placed + Names(out[..0]) == placed;
      } else {
        assert out[i] == tail[i - 1] && out[..i] == [ts[k]] + tail[..i - 1];
        assert placed + Names(out[..i]) == placed + [ts[k].name] + Names(tail[..i - 1]);
        NextWith(ts, k, tail[..i - 1], inSet, placed + [ts[k].name] + Names(tail[..i - 1]), tail[i - 1]);
      }
    }
  }

  lemma OneIsNext(ts: seq<Table>, gone: seq<Table>, inSet: seq<Name>, placed: seq<Name>, t: Table, u: Table)
    requires TakenNext(ts, gone, inSet, placed, t) && TakenNext(ts, gone, inSet, placed, u)
    ensures t == u
  {
    hide Waits;
    var i: nat :| IsNext(ts, gone, inSet, placed, i) && ts[i] == t;
    var j: nat :| IsNext(ts, gone, inSet, placed, j) && ts[j] == u;
  }

  lemma TurnAt(ts: seq<Table>, inSet: seq<Name>, out: seq<Table>, i: nat)
    requires InTurn(ts, inSet, [], out) && i < |out|
    ensures TakenNext(ts, out[..i], inSet, [] + Names(out[..i]), out[i])
  {
  }

  lemma {:induction false} OneOrder(ts: seq<Table>, inSet: seq<Name>, a: seq<Table>, b: seq<Table>, i: nat)
    requires InTurn(ts, inSet, [], a) && InTurn(ts, inSet, [], b) && i <= |a| == |b|
    ensures a[..i] == b[..i]
  {
    hide TakenNext, InTurn;
    if i > 0 {
      OneOrder(ts, inSet, a, b, i - 1);
      TurnAt(ts, inSet, a, i - 1);
      TurnAt(ts, inSet, b, i - 1);
      OneIsNext(ts, a[..i - 1], inSet, [] + Names(a[..i - 1]), a[i - 1], b[i - 1]);
      assert a[..i] == a[..i - 1] + [a[i - 1]] && b[..i] == b[..i - 1] + [b[i - 1]];
    }
  }

  /**
   * The order is the one in which each table is, of those left, the first that waits for none of them
   * or, where a cycle leaves no such table, the first of all.
   */
  lemma SortedIff(tables: seq<Table>, out: seq<Table>)
    requires UniqueKeys(tables, TableName)
    ensures out == Sorted(tables) <==> |out| == |tables| && InTurn(tables, Names(tables), [], out)
  {
    hide InTurn, Sorted, UniqueKeys;
    SortedMembers(tables);
    InTurnSorted(tables);
    if |out| == |tables| && InTurn(tables, Names(tables), [], out) {
      OneOrder(tables, Names(tables), out, Sorted(tables), |out|);
      assert out[..|out|] == out && Sorted(tables)[..|out|] == Sorted(tables);
    }
  }

  lemma InTurnSorted(tables: seq<Table>)
    requires UniqueKeys(tables, TableName)
    ensures InTurn(tables, Names(tables), [], Sorted(tables))
  {
    PlaceInTurn(tables, Names(tables), []);
  }

  /** In particular a list that has every parent first already stays as it is. */
  lemma OrderedStays(tables: seq<Table>)
    requires UniqueKeys(tables, TableName) && ParentsFirst(tables)
    ensures Sorted(tables) == tables
  {
    hide Sorted, Targets;
    var names := Names(tables);
    forall i | 0 <= i < |tables| ensures TakenNext(tables, tables[..i], names, [] + Names(tables[..i]), tables[i]) {
      var gone := tables[..i];
      forall u | u in Targets(tables[i]) && u in names ensures u in [] + Names(gone) {
        var j :| 0 <= j < |names| && names[j] == u;
        assert tables[j].name == u && j < i;
        assert Names(gone)[j] == u;
      }
      assert forall j :: 0 <= j < i ==> gone[j] == tables[j] && tables[j] in gone;
      assert forall j :: 0 <= j < i ==> TableName(tables[j]) != TableName(tables[i]);
      assert tables[i] !in gone;
      assert IsNext(tables, gone, names, [] + Names(gone), i);
    }
    SortedIff(tables, tables);
  }

  function Reverse<T>(xs: seq<T>): seq<T> {
    seq(|xs|, i requires 0 <= i < |xs| => xs[|xs| - 1 - i])
  }

  /** Dropped in reverse, no table goes while a table still to be dropped references it. */
  lemma DropsChildrenFirst(tables: seq<Table>)
    requires UniqueKeys(tables, TableName) && Acyclic(tables)
    ensures var drops := Reverse(Sorted(tables));
            forall i, j :: 0 <= i < j < |drops| ==> drops[i].name !in Targets(drops[j])
  {
    AcyclicParentsFirst(tables);
    var out := Sorted(tables);
    var drops := Reverse(out);
    forall i, j | 0 <= i < j < |drops| ensures drops[i].name !in Targets(drops[j]) {
      assert drops[i] == out[|out| - 1 - i] && drops[j] == out[|out| - 1 - j];
    }
  }
}
