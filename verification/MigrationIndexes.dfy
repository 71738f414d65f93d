/**
 * Index names, which the database scopes to the schema (crates/orm-cli/src/diff.rs, `drop_index_sql`),
 * while the compiler compares indexes table by table: when no index is created under a name that
 * another table still uses.
 */
module MigrationIndexes {
  import opened Wrappers
  import opened SchemaModel
  import opened Machines
  import opened TopoSort
  import opened TableDiff
  import opened Migration
  import opened MigrationTheorems
  import opened MigrationSafety
  import opened MigrationKeys
  import K = KeyedDiff
  import G = GrantDiff
  import C = ColumnDiff

  ghost function IndexNames(t: Table): set<Name> { set i | i in t.indexes :: i.name }

  lemma StateNames(t: Table)
    ensures StateOf(t).indexes.Keys == IndexNames(t)
  {
    var m := ByKey(t.indexes, IndexName);
    assert forall i :: i in t.indexes ==> IndexName(i) in m;
  }

  /** Across a schema no two tables use one index name. */
  ghost predicate ScopedNames(s: Schema) {
    forall t, u :: t in s.tables && u in s.tables && t.name != u.name ==> IndexNames(t) !! IndexNames(u)
  }

  /** No other table uses the name. */
  ghost predicate FreeName(db: Db, table: Name, x: Name) {
    forall n :: n in db.tables && n != table ==> x !in db.tables[n].indexes
  }

  /** A created index, alone or with its table, meets a name no other table uses. */
  ghost predicate IndexFree(db: Db, c: Change) {
    match c
    case CreateTable(t) => forall x :: x in IndexNames(t) ==> FreeName(db, t.name, x)
    case OnTable(name, OnIndexes(Put(i))) => FreeName(db, name, i.name)
    case _ => true
  }

  // ----- The indexes a kept table's edits create --------------------------------------------------------

  lemma {:induction false} InsertionsDiffer<T>(xs: seq<T>, others: seq<T>, key: T -> Name, i: nat)
    requires i < |K.Insertions(xs, others, key)|
    ensures var e := K.Insertions(xs, others, key)[i]; e.Put? && e.value in xs && K.Differs(e.value, others, key)
  {
    var n := |xs| - 1;
    if i < |K.Insertions(xs[..n], others, key)| {
      InsertionsDiffer(xs[..n], others, key, i);
    }
    assert xs == xs[..n] + [xs[n]];
  }

  lemma {:induction false} InsertionsHave<T>(xs: seq<T>, others: seq<T>, key: T -> Name, x: T) returns (i: nat)
    requires x in xs && K.Differs(x, others, key)
    ensures i < |K.Insertions(xs, others, key)| && K.Insertions(xs, others, key)[i] == K.Put(x)
  {
    hide K.Differs;
    var n := |xs| - 1;
    assert xs == xs[..n] + [xs[n]];
    if x in xs[..n] {
      i := InsertionsHave(xs[..n], others, key, x);
    } else {
      i := |K.Insertions(xs[..n], others, key)|;
    }
  }

  /** Whether an edit creates an index. */
  predicate Puts(e: TableEdit) { e.OnIndexes? && e.index.Put? }

  lemma EarlierPhases(before: seq<TableEdit>, last: seq<TableEdit>, k: nat)
    requires (forall j :: 0 <= j < |before| ==> !Puts(before[j])) && k < |before + last| && Puts((before + last)[k])
    ensures |before| <= k && (before + last)[k] == last[k - |before|]
  {
  }

  lemma {:induction false} EarlierNoPuts(resolver: C.Resolver, o: Table, t: Table, k: nat)
    requires k < |TableEdits(resolver, o, t)| && Puts(TableEdits(resolver, o, t)[k])
    ensures var at := k - (|TableEdits(resolver, o, t)| - |IndexPhase(o, t)|);
            0 <= at < |IndexPhase(o, t)| && TableEdits(resolver, o, t)[k] == IndexPhase(o, t)[at]
  {
    hide C.ColumnEdits, G.GrantEdits, K.KeyedEdits;
    var a, b, c, d := ColumnPhase(resolver, o, t), FlagPhase(o, t), GrantPhase(o, t), PolicyPhase(o, t);
    forall j | 0 <= j < |a| ensures !Puts(a[j]) {
      WrapAt(WrapColumn, C.ColumnEdits(resolver, t.name, o.columns, t.columns), j);
    }
    forall j | 0 <= j < |c| ensures !Puts(c[j]) {
      WrapAt(WrapGrant, G.GrantEdits(o.grants, t.grants), j);
    }
    forall j | 0 <= j < |d| ensures !Puts(d[j]) {
      WrapAt(WrapPolicy, K.KeyedEdits(o.policies, t.policies, PolicyName), j);
    }
    EarlierPhases(a + b + c + d, IndexPhase(o, t), k);
  }

  /** The created indexes are exactly the new or changed ones. */
  lemma PutMeansNew(resolver: C.Resolver, o: Table, t: Table, k: nat)
    requires k < |TableEdits(resolver, o, t)| && Puts(TableEdits(resolver, o, t)[k])
    ensures var i := TableEdits(resolver, o, t)[k].index.value; i in t.indexes && K.Differs(i, o.indexes, IndexName)
  {
    hide K.Removals, K.Insertions, K.Differs, TableEdits;
    EarlierNoPuts(resolver, o, t, k);
    var at := k - (|TableEdits(resolver, o, t)| - |IndexPhase(o, t)|);
    WrapAt(WrapIndex, K.KeyedEdits(o.indexes, t.indexes, IndexName), at);
    var removals := K.Removals(o.indexes, t.indexes, IndexName);
    PutsFromNew(o.indexes, t.indexes, IndexName, at);
    if at >= |removals| {
      InsertionsDiffer(t.indexes, o.indexes, IndexName, at - |removals|);
    }
  }

  lemma NewMeansPut(resolver: C.Resolver, o: Table, t: Table, i: Index) returns (k: nat)
    requires i in t.indexes && K.Differs(i, o.indexes, IndexName)
    ensures k < |TableEdits(resolver, o, t)| && TableEdits(resolver, o, t)[k] == OnIndexes(K.Put(i))
  {
    hide K.Removals, K.Insertions, K.Differs, ColumnPhase, FlagPhase, GrantPhase, PolicyPhase;
    var at := InsertionsHave(t.indexes, o.indexes, IndexName, i);
    var removals := K.Removals(o.indexes, t.indexes, IndexName);
    WrapAt(WrapIndex, K.KeyedEdits(o.indexes, t.indexes, IndexName), |removals| + at);
    k := |TableEdits(resolver, o, t)| - |IndexPhase(o, t)| + |removals| + at;
  }

  // ----- One kept table ---------------------------------------------------------------------------------------

  /** Edits of one table leave the others alone. */
  lemma {:induction false} OthersAlone(db: Db, name: Name, es: seq<Change>, k: nat)
    requires k <= |es| && forall i :: 0 <= i < |es| ==> es[i].OnTable? && es[i].name == name
    ensures var out := Run(DBS, db, es[..k]);
            forall n :: n != name ==> (n in out.tables <==> n in db.tables) && (n in db.tables ==> out.tables[n] == db.tables[n])
  {
    hide ApplyTable;
    if k > 0 {
      OthersAlone(db, name, es, k - 1);
      assert es[..k] == es[..k - 1] + [es[k - 1]];
      RunSnoc(DBS, db, es[..k - 1], es[k - 1]);
    }
  }

  /** All a kept table newly creates is free at its turn. */
  ghost predicate TurnFree(db: Db, o: Table, t: Table) {
    forall i :: i in t.indexes && K.Differs(i, o.indexes, IndexName) ==> FreeName(db, t.name, i.name)
  }

  lemma KeptChangeAt(resolver: C.Resolver, t: Table, o: Table, olds: seq<Table>, k: nat)
    requires Find(olds, TableName, t.name) == Some(o) && k < |TableEdits(resolver, o, t)|
    ensures |KeptChange(resolver, t, olds)| == |TableEdits(resolver, o, t)|
    ensures KeptChange(resolver, t, olds)[k] == OnTable(t.name, TableEdits(resolver, o, t)[k])
  {
    hide TableEdits;
    WrapAt(TablePart(t.name).wrap, TableEdits(resolver, o, t), k);
  }

  lemma SameFree(db: Db, out: Db, name: Name, x: Name)
    requires forall n :: n != name ==> (n in out.tables <==> n in db.tables) && (n in db.tables ==> out.tables[n] == db.tables[n])
    ensures FreeName(db, name, x) <==> FreeName(out, name, x)
  {
  }

  lemma TurnFreeIff(db: Db, resolver: C.Resolver, t: Table, o: Table, olds: seq<Table>)
    requires Find(olds, TableName, t.name) == Some(o)
    ensures Throughout(DBS, db, KeptChange(resolver, t, olds), IndexFree) <==> TurnFree(db, o, t)
  {
    hide Run, TableEdits, KeptChange, Find, K.Differs, FreeName;
    var es, edits := KeptChange(resolver, t, olds), TableEdits(resolver, o, t);
    KeptLength(resolver, t, o, olds);
    forall k | 0 <= k < |es| ensures es[k] == OnTable(t.name, edits[k]) {
      KeptChangeAt(resolver, t, o, olds, k);
    }
    if Throughout(DBS, db, es, IndexFree) {
      forall i | i in t.indexes && K.Differs(i, o.indexes, IndexName) ensures FreeName(db, t.name, i.name) {
        var k := NewMeansPut(resolver, o, t, i);
        OthersAlone(db, t.name, es, k);
        SameFree(db, Run(DBS, db, es[..k]), t.name, i.name);
        assert IndexFree(Run(DBS, db, es[..k]), es[k]);
      }
    }
    if TurnFree(db, o, t) {
      forall k | 0 <= k < |es| ensures IndexFree(Run(DBS, db, es[..k]), es[k]) {
        if Puts(edits[k]) {
          PutMeansNew(resolver, o, t, k);
          OthersAlone(db, t.name, es, k);
          SameFree(db, Run(DBS, db, es[..k]), t.name, edits[k].index.value.name);
        }
      }
    }
  }

  lemma KeptLength(resolver: C.Resolver, t: Table, o: Table, olds: seq<Table>)
    requires Find(olds, TableName, t.name) == Some(o)
    ensures |KeptChange(resolver, t, olds)| == |TableEdits(resolver, o, t)|
  {
    hide TableEdits;
  }

  // ----- All kept tables ------------------------------------------------------------------------------------------

  /** The database when the j-th table of the new schema has its turn. */
  ghost function TurnDb(resolver: C.Resolver, prior: Schema, next: Schema, j: nat): Db
    requires j <= |next.tables|
  {
    Run(DBS, AfterCreates(prior, next), KeptChanges(resolver, next.tables[..j], prior.tables))
  }

  ghost predicate Kept(prior: Schema, next: Schema, j: nat)
    requires j < |next.tables|
  {
    Find(prior.tables, TableName, next.tables[j].name).Some?
  }

  ghost function OldOf(prior: Schema, next: Schema, j: nat): Table
    requires j < |next.tables| && Kept(prior, next, j)
  {
    Find(prior.tables, TableName, next.tables[j].name).value
  }

  ghost predicate TurnsFree(resolver: C.Resolver, prior: Schema, next: Schema, n: nat)
    requires n <= |next.tables|
  {
    forall j :: 0 <= j < n && Kept(prior, next, j) ==>
      TurnFree(TurnDb(resolver, prior, next, j), OldOf(prior, next, j), next.tables[j])
  }

  lemma {:induction false} TurnsFreeIff(resolver: C.Resolver, prior: Schema, next: Schema, n: nat)
    requires n <= |next.tables|
    ensures Throughout(DBS, AfterCreates(prior, next), KeptChanges(resolver, next.tables[..n], prior.tables), IndexFree)
            <==> TurnsFree(resolver, prior, next, n)
  {
    hide Run, Throughout, KeptChanges, KeptChange, TurnFree, AfterCreates, Find;
    var db, news, olds := AfterCreates(prior, next), next.tables, prior.tables;
    if n == 0 {
      NoneKept(resolver, news, olds);
      NoChangesFree(db);
    } else {
      TurnsFreeIff(resolver, prior, next, n - 1);
      KeptStep(resolver, news, n - 1, olds);
      var before, last := KeptChanges(resolver, news[..n - 1], olds), KeptChange(resolver, news[n - 1], olds);
      JoinIff(db, before, last);
      if Kept(prior, next, n - 1) {
        TurnFreeIff(TurnDb(resolver, prior, next, n - 1), resolver, news[n - 1], OldOf(prior, next, n - 1), olds);
      } else {
        NoTurn(resolver, news[n - 1], olds);
        NoChangesFree(TurnDb(resolver, prior, next, n - 1));
      }
    }
  }

  lemma NoTurn(resolver: C.Resolver, t: Table, olds: seq<Table>)
    requires Find(olds, TableName, t.name).None?
    ensures KeptChange(resolver, t, olds) == []
  {
  }

  lemma NoChangesFree(db: Db)
    ensures Throughout(DBS, db, [], IndexFree)
  {
  }

  lemma JoinIff(db: Db, a: seq<Change>, b: seq<Change>)
    ensures Throughout(DBS, db, a + b, IndexFree) <==>
            Throughout(DBS, db, a, IndexFree) && Throughout(DBS, Run(DBS, db, a), b, IndexFree)
  {
    hide Run, Throughout, IndexFree;
    if Throughout(DBS, db, a + b, IndexFree) {
      ThroughoutSplit(DBS, db, a, b, IndexFree);
    }
    if Throughout(DBS, db, a, IndexFree) && Throughout(DBS, Run(DBS, db, a), b, IndexFree) {
      ThroughoutConcat(DBS, db, a, b, IndexFree);
    }
  }

  /** The index names of the m-th table when the j-th has its turn: its old ones iff it is still to be edited. */
  ghost function NamesThen(prior: Schema, next: Schema, j: nat, m: nat): set<Name>
    requires m < |next.tables|
  {
    if Kept(prior, next, m) && m >= j then IndexNames(OldOf(prior, next, m)) else IndexNames(next.tables[m])
  }

  lemma TurnState(resolver: C.Resolver, prior: Schema, next: Schema, j: nat)
    requires WellFormed(prior) && WellFormed(next) && j <= |next.tables|
    ensures KeptUpTo(AfterCreates(prior, next), TurnDb(resolver, prior, next, j), resolver, prior.tables, next.tables, j)
  {
    hide Run, AllFit, StateOf, KeptUpTo, AfterCreates, Find, KeptChanges;
    var news := next.tables;
    forall i | 0 <= i < |news| && Find(prior.tables, TableName, news[i].name).Some?
      ensures var db, o := AfterCreates(prior, next), Find(prior.tables, TableName, news[i].name).value;
              news[i].name in db.tables && db.tables[news[i].name] == StateOf(o)
    {
      KeptIntact(prior, next, news[i]);
    }
    RunKept(AfterCreates(prior, next), resolver, prior.tables, news, j);
  }

  lemma CreatedState(prior: Schema, next: Schema, m: nat)
    requires WellFormed(prior) && WellFormed(next) && m < |next.tables| && !Kept(prior, next, m)
    ensures next.tables[m].name in AfterCreates(prior, next).tables
    ensures AfterCreates(prior, next).tables[next.tables[m].name] == StateOf(next.tables[m])
  {
    hide StateOf, StatesOf, Created, Dropped, Find, AfterDrops;
    CreatedTables(prior, next);
    assert next.tables[m] in Created(prior, next);
    StatesOfIn(Created(prior, next), next.tables[m]);
  }

  lemma NotBefore(ts: seq<Table>, j: nat, m: nat)
    requires UniqueKeys(ts, TableName) && j <= m < |ts|
    ensures ts[m].name !in TableNames(ts[..j])
  {
    forall t | t in ts[..j] ensures t.name != ts[m].name {
      var i :| 0 <= i < j && ts[i] == t;
      assert TableName(ts[i]) != TableName(ts[m]);
    }
  }

  lemma NamesAt(resolver: C.Resolver, prior: Schema, next: Schema, j: nat, m: nat)
    requires WellFormed(prior) && WellFormed(next) && j <= |next.tables| && m < |next.tables|
    ensures var db := TurnDb(resolver, prior, next, j);
            next.tables[m].name in db.tables && db.tables[next.tables[m].name].indexes.Keys == NamesThen(prior, next, j, m)
  {
    hide AfterCreates, TurnDb, StateOf, TableNames, UniqueKeys, C.Reached, MigratedColumns, WellFormedTable, Find;
    TurnState(resolver, prior, next, j);
    var t := next.tables[m];
    if m >= j {
      NotBefore(next.tables, j, m);
    }
    if Kept(prior, next, m) {
      KeptIntact(prior, next, t);
      StateNames(OldOf(prior, next, m));
      KeyNames(t);
    } else {
      CreatedState(prior, next, m);
      StateNames(t);
    }
  }

  lemma KeyNames(t: Table)
    ensures ByKey(t.indexes, IndexName).Keys == IndexNames(t)
  {
    var m := ByKey(t.indexes, IndexName);
    assert forall i :: i in t.indexes ==> IndexName(i) in m;
  }

  lemma TurnTables(resolver: C.Resolver, prior: Schema, next: Schema, j: nat, n: Name) returns (m: nat)
    requires WellFormed(prior) && WellFormed(next) && j <= |next.tables| && n in TurnDb(resolver, prior, next, j).tables
    ensures m < |next.tables| && next.tables[m].name == n
  {
    hide AfterCreates, TurnDb, StateOf, UniqueKeys, WellFormedTable, Find, MigratedBy;
    TurnState(resolver, prior, next, j);
    FinalTables(prior, next);
    var t :| t in next.tables && t.name == n;
    m :| 0 <= m < |next.tables| && next.tables[m] == t;
  }

  /** A kept table's new names meet none of the old names of kept tables after it. */
  ghost predicate LaterFree(prior: Schema, next: Schema, j: nat)
    requires j < |next.tables|
  {
    forall m :: j < m < |next.tables| && Kept(prior, next, m) ==>
      IndexNames(next.tables[j]) !! IndexNames(OldOf(prior, next, m))
  }

  lemma FreeThen(resolver: C.Resolver, prior: Schema, next: Schema, j: nat, x: Name)
    requires WellFormed(prior) && WellFormed(next) && ScopedNames(next) && j < |next.tables| && x in IndexNames(next.tables[j])
    ensures FreeName(TurnDb(resolver, prior, next, j), next.tables[j].name, x)
            <==> forall m :: j < m < |next.tables| && Kept(prior, next, m) ==> x !in IndexNames(OldOf(prior, next, m))
  {
    hide TurnDb, UniqueKeys, WellFormed, Find, IndexNames;
    var db, news := TurnDb(resolver, prior, next, j), next.tables;
    if FreeName(db, news[j].name, x) {
      forall m | j < m < |news| && Kept(prior, next, m) ensures x !in IndexNames(OldOf(prior, next, m)) {
        NamesAt(resolver, prior, next, j, m);
        OtherName(next, j, m);
      }
    }
    if forall m :: j < m < |news| && Kept(prior, next, m) ==> x !in IndexNames(OldOf(prior, next, m)) {
      forall n | n in db.tables && n != news[j].name ensures x !in db.tables[n].indexes {
        var m := TurnTables(resolver, prior, next, j, n);
        NamesAt(resolver, prior, next, j, m);
        assert IndexNames(news[j]) !! IndexNames(news[m]);
      }
    }
  }

  lemma OtherName(next: Schema, j: nat, m: nat)
    requires WellFormed(next) && j < m < |next.tables|
    ensures next.tables[j].name != next.tables[m].name
  {
    assert TableName(next.tables[j]) != TableName(next.tables[m]);
  }

  /** An unchanged index is one of the old table's, whose names no other old table uses. */
  lemma UnchangedElsewhere(prior: Schema, next: Schema, j: nat, m: nat, i: Index)
    requires WellFormed(next) && ScopedNames(prior) && j < m < |next.tables| && Kept(prior, next, j) && Kept(prior, next, m)
    requires i in next.tables[j].indexes && !K.Differs(i, OldOf(prior, next, j).indexes, IndexName)
    ensures i.name !in IndexNames(OldOf(prior, next, m))
  {
    OtherName(next, j, m);
    var o, u := OldOf(prior, next, j), OldOf(prior, next, m);
    assert i in o.indexes;
    assert IndexNames(o) !! IndexNames(u);
  }

  lemma TurnFreeMeans(resolver: C.Resolver, prior: Schema, next: Schema, j: nat)
    requires WellFormed(prior) && WellFormed(next) && ScopedNames(prior) && ScopedNames(next)
    requires j < |next.tables| && Kept(prior, next, j)
    ensures TurnFree(TurnDb(resolver, prior, next, j), OldOf(prior, next, j), next.tables[j]) <==> LaterFree(prior, next, j)
  {
    hide TurnDb, WellFormed, ScopedNames, Kept, OldOf, FreeName, K.Differs;
    var db, o, t := TurnDb(resolver, prior, next, j), OldOf(prior, next, j), next.tables[j];
    forall i | i in t.indexes
      ensures FreeName(db, t.name, i.name) <==>
              forall m :: j < m < |next.tables| && Kept(prior, next, m) ==> i.name !in IndexNames(OldOf(prior, next, m))
      ensures !K.Differs(i, o.indexes, IndexName) ==>
              forall m :: j < m < |next.tables| && Kept(prior, next, m) ==> i.name !in IndexNames(OldOf(prior, next, m))
    {
      FreeThen(resolver, prior, next, j, i.name);
      if !K.Differs(i, o.indexes, IndexName) {
        forall m | j < m < |next.tables| && Kept(prior, next, m) ensures i.name !in IndexNames(OldOf(prior, next, m)) {
          UnchangedElsewhere(prior, next, j, m, i);
        }
      }
    }
    if TurnFree(db, o, t) {
      forall m | j < m < |next.tables| && Kept(prior, next, m) ensures IndexNames(t) !! IndexNames(OldOf(prior, next, m)) {
      }
    }
  }

  // ----- Created tables -------------------------------------------------------------------------------------------

  /** A created table's names meet none of the old names of a kept table. */
  ghost predicate CreatedFree(prior: Schema, next: Schema) {
    forall j, m :: 0 <= j < |next.tables| && 0 <= m < |next.tables| && !Kept(prior, next, j) && Kept(prior, next, m) ==>
      IndexNames(next.tables[j]) !! IndexNames(OldOf(prior, next, m))
  }

  lemma CreateState(prior: Schema, next: Schema, k: nat)
    requires WellFormed(prior) && WellFormed(next) && k < |Created(prior, next)|
    ensures var ts, db := Created(prior, next), AfterDrops(prior, next);
            && |Wrap(WrapCreate, ts)| == |ts| && Wrap(WrapCreate, ts)[k] == CreateTable(ts[k])
            && Run(DBS, db, Wrap(WrapCreate, ts)[..k]).tables == db.tables + StatesOf(ts[..k])
  {
    hide Run, AllFit, Created, AfterDrops, StatesOf, TableNames, WellFormed, UniqueKeys;
    var ts := Created(prior, next);
    CreatedTables(prior, next);
    CreatePhase(prior, next);
    RunCreates(AfterDrops(prior, next), ts, k);
    WrapStep(WrapCreate, ts, k);
  }

  /** The tables left after the drops are the kept ones, as they were. */
  lemma AfterDropsState(prior: Schema, next: Schema, m: nat)
    requires WellFormed(prior) && WellFormed(next) && m < |next.tables| && Kept(prior, next, m)
    ensures var n, db := next.tables[m].name, AfterDrops(prior, next);
            n in db.tables && db.tables[n].indexes.Keys == IndexNames(OldOf(prior, next, m))
  {
    hide StateOf, StatesOf, Dropped;
    var o := OldOf(prior, next, m);
    DroppedTables(prior, next);
    StatesOfIn(prior.tables, o);
    assert next.tables[m].name !in TableNames(Dropped(prior, next));
    StateNames(o);
  }

  lemma AfterDropsKept(prior: Schema, next: Schema, n: Name) returns (m: nat)
    requires WellFormed(prior) && WellFormed(next) && n in AfterDrops(prior, next).tables
    ensures m < |next.tables| && next.tables[m].name == n && Kept(prior, next, m)
  {
    hide StateOf, StatesOf, Dropped;
    DroppedTables(prior, next);
    NamedOld(prior.tables, n);
    var o :| o in prior.tables && o.name == n;
    var t := Find(next.tables, TableName, n).value;
    m :| 0 <= m < |next.tables| && next.tables[m] == t;
  }

  lemma CreatedAt(prior: Schema, next: Schema, k: nat) returns (j: nat)
    requires WellFormed(next) && k < |Created(prior, next)|
    ensures j < |next.tables| && next.tables[j] == Created(prior, next)[k] && !Kept(prior, next, j)
  {
    hide Created;
    CreatedTables(prior, next);
    assert Created(prior, next)[k] in Created(prior, next);
    j :| 0 <= j < |next.tables| && next.tables[j] == Created(prior, next)[k];
  }

  /** What a created table meets: kept tables with their old names, created ones with new names. */
  lemma CreateMeetsNames(prior: Schema, next: Schema, k: nat)
    requires WellFormed(prior) && WellFormed(next) && ScopedNames(next) && k < |Created(prior, next)|
    ensures var ts := Created(prior, next);
            var es := Wrap(WrapCreate, ts);
            && k < |es|
            && (IndexFree(Run(DBS, AfterDrops(prior, next), es[..k]), es[k]) <==>
                forall m :: 0 <= m < |next.tables| && Kept(prior, next, m) ==> IndexNames(ts[k]) !! IndexNames(OldOf(prior, next, m)))
  {
    hide Run, Created, AfterDrops, StatesOf, WellFormed, IndexNames, Wrap, Kept, OldOf;
    var ts, db := Created(prior, next), AfterDrops(prior, next);
    CreateState(prior, next, k);
    var there := db.tables + StatesOf(ts[..k]);
    var j := CreatedAt(prior, next, k);
    forall n | n in StatesOf(ts[..k]) ensures there[n].indexes.Keys !! IndexNames(ts[k]) {
      EarlierCreated(prior, next, k, n);
    }
    forall m | 0 <= m < |next.tables| && Kept(prior, next, m)
      ensures var n := next.tables[m].name;
              n in there && n != ts[k].name && there[n].indexes.Keys == IndexNames(OldOf(prior, next, m))
    {
      AfterDropsState(prior, next, m);
      KeptNotCreated(prior, next, k, m);
    }
    forall n | n in db.tables ensures exists m :: 0 <= m < |next.tables| && Kept(prior, next, m) && next.tables[m].name == n {
      var m := AfterDropsKept(prior, next, n);
    }
  }

  lemma EarlierCreated(prior: Schema, next: Schema, k: nat, n: Name)
    requires WellFormed(next) && ScopedNames(next) && k < |Created(prior, next)| && n in StatesOf(Created(prior, next)[..k])
    ensures StatesOf(Created(prior, next)[..k])[n].indexes.Keys !! IndexNames(Created(prior, next)[k])
  {
    hide Created, StatesOf, StateOf;
    var ts := Created(prior, next);
    CreatedTables(prior, next);
    NamedOld(ts[..k], n);
    var t :| t in ts[..k] && t.name == n;
    var i :| 0 <= i < k && ts[i] == t;
    UniquePrefix(ts, TableName, k);
    StatesOfIn(ts[..k], t);
    StateNames(t);
    assert TableName(ts[i]) != TableName(ts[k]);
    assert ts[i] in ts && ts[k] in ts;
  }

  lemma KeptNotCreated(prior: Schema, next: Schema, k: nat, m: nat)
    requires WellFormed(prior) && WellFormed(next) && k < |Created(prior, next)| && m < |next.tables| && Kept(prior, next, m)
    ensures next.tables[m].name != Created(prior, next)[k].name && next.tables[m].name !in StatesOf(Created(prior, next)[..k])
  {
    hide Created, StatesOf;
    var ts := Created(prior, next);
    CreatedTables(prior, next);
    assert forall i :: 0 <= i < |ts| ==> ts[i] in ts;
    StatesOfKeys(ts[..k]);
  }

  lemma CreatedFreeIff(prior: Schema, next: Schema)
    requires WellFormed(prior) && WellFormed(next) && ScopedNames(next)
    ensures Throughout(DBS, AfterDrops(prior, next), Wrap(WrapCreate, Created(prior, next)), IndexFree)
            <==> CreatedFree(prior, next)
  {
    hide Run, Created, AfterDrops, WellFormed, IndexNames, Wrap, Kept, OldOf, IndexFree, ScopedNames;
    var ts, es := Created(prior, next), Wrap(WrapCreate, Created(prior, next));
    WrapLength(WrapCreate, ts);
    forall k | 0 <= k < |ts|
      ensures IndexFree(Run(DBS, AfterDrops(prior, next), es[..k]), es[k]) <==>
              forall m :: 0 <= m < |next.tables| && Kept(prior, next, m) ==> IndexNames(ts[k]) !! IndexNames(OldOf(prior, next, m))
    {
      CreateMeetsNames(prior, next, k);
    }
    forall k | 0 <= k < |ts| ensures exists j :: 0 <= j < |next.tables| && next.tables[j] == ts[k] && !Kept(prior, next, j) {
      var j := CreatedAt(prior, next, k);
    }
    forall j | 0 <= j < |next.tables| && !Kept(prior, next, j) ensures exists k :: 0 <= k < |ts| && ts[k] == next.tables[j] {
      NotKeptCreated(prior, next, j);
    }
  }

  lemma NotKeptCreated(prior: Schema, next: Schema, j: nat)
    requires WellFormed(next) && j < |next.tables| && !Kept(prior, next, j)
    ensures exists k :: 0 <= k < |Created(prior, next)| && Created(prior, next)[k] == next.tables[j]
  {
    hide Created;
    CreatedTables(prior, next);
    assert next.tables[j] in Created(prior, next);
  }

  // ----- The whole list ------------------------------------------------------------------------------------------------

  /**
   * Every index name that moves, from an old table to another new one, leaves a dropped table, or a
   * kept one that comes before the kept one it moves to.
   */
  ghost predicate MovesAreOrdered(prior: Schema, next: Schema) {
    forall m, j :: 0 <= m < |next.tables| && 0 <= j < |next.tables| && m != j && Kept(prior, next, m) &&
                   !(IndexNames(OldOf(prior, next, m)) !! IndexNames(next.tables[j])) ==>
      Kept(prior, next, j) && m < j
  }

  lemma OrderedMeans(prior: Schema, next: Schema)
    ensures MovesAreOrdered(prior, next) <==>
            CreatedFree(prior, next) && forall j :: 0 <= j < |next.tables| && Kept(prior, next, j) ==> LaterFree(prior, next, j)
  {
    hide Kept, OldOf, IndexNames;
    if CreatedFree(prior, next) && forall j :: 0 <= j < |next.tables| && Kept(prior, next, j) ==> LaterFree(prior, next, j) {
      forall m, j | 0 <= m < |next.tables| && 0 <= j < |next.tables| && m != j && Kept(prior, next, m) &&
                    !(IndexNames(OldOf(prior, next, m)) !! IndexNames(next.tables[j]))
        ensures Kept(prior, next, j) && m < j
      {
        if Kept(prior, next, j) {
          assert LaterFree(prior, next, j);
        }
      }
    }
    if MovesAreOrdered(prior, next) {
      forall j, m | 0 <= j < |next.tables| && 0 <= m < |next.tables| && !Kept(prior, next, j) && Kept(prior, next, m)
        ensures IndexNames(next.tables[j]) !! IndexNames(OldOf(prior, next, m))
      {
      }
    }
  }

  /**
   * With index names unique across each schema, every index a migration creates finds its name free
   * exactly when every moving name is dropped before it is created again.
   */
  lemma IndexNamesFreeIff(resolver: C.Resolver, prior: Schema, next: Schema)
    requires WellFormed(prior) && WellFormed(next) && ScopedNames(prior) && ScopedNames(next)
    ensures Throughout(DBS, DbOf(prior), Diff(resolver, prior, next), IndexFree) <==> MovesAreOrdered(prior, next)
  {
    hide Run, Throughout, Diff, DbOf, Wrap, RoleChanges, KeptChanges, Dropped, Created, AfterRoles, AfterDrops, AfterCreates,
      AfterKept, Absent, WellFormed, ScopedNames, MovesAreOrdered, CreatedFree, LaterFree, TurnFree, TurnDb, Kept, OldOf;
    OrderedMeans(prior, next);
    CreatedFreeIff(prior, next);
    assert next.tables[..|next.tables|] == next.tables;
    TurnsFreeIff(resolver, prior, next, |next.tables|);
    forall j | 0 <= j < |next.tables| && Kept(prior, next, j)
      ensures TurnFree(TurnDb(resolver, prior, next, j), OldOf(prior, next, j), next.tables[j]) <==> LaterFree(prior, next, j)
    {
      TurnFreeMeans(resolver, prior, next, j);
    }
    OthersReady(resolver, prior, next, IndexFree);
    if Throughout(DBS, DbOf(prior), Diff(resolver, prior, next), IndexFree) {
      ThroughoutPhases(resolver, prior, next, IndexFree);
    }
    if MovesAreOrdered(prior, next) {
      ThroughoutDiff(resolver, prior, next, IndexFree);
    }
  }

  function Plain(name: Name, indexes: seq<Index>): Table {
    Table(name, [], false, false, [], [], indexes)
  }

  ghost function Pair(xs: seq<Index>, ys: seq<Index>): Schema {
    Schema([Plain("a", xs), Plain("b", ys)], [])
  }

  lemma PairIsFine(xs: seq<Index>, ys: seq<Index>)
    requires |xs| + |ys| <= 1
    ensures WellFormed(Pair(xs, ys)) && ScopedNames(Pair(xs, ys))
  {
    var s := Pair(xs, ys);
    assert "a" != "b" by { assert "a"[0] != "b"[0]; }
    forall t | t in s.tables ensures WellFormedTable(t) {
      assert t == Plain("a", xs) || t == Plain("b", ys);
    }
    forall t, u | t in s.tables && u in s.tables && t.name != u.name ensures IndexNames(t) !! IndexNames(u) {
      assert (t == Plain("a", xs) && u == Plain("b", ys)) || (t == Plain("b", ys) && u == Plain("a", xs));
    }
  }

  lemma SecondFound(xs: seq<Index>, ys: seq<Index>)
    ensures Find(Pair(xs, ys).tables, TableName, "b") == Some(Plain("b", ys))
  {
    var ts := Pair(xs, ys).tables;
    assert "a" != "b" by { assert "a"[0] != "b"[0]; }
    assert ts[1..] == [Plain("b", ys)];
  }

  /** An index that moves to a table edited earlier is created while its old table still has it. */
  lemma MovedIndexClashes(resolver: C.Resolver, i: Index)
    ensures var prior, next := Pair([], [i]), Pair([i], []);
            WellFormed(prior) && WellFormed(next) && !Throughout(DBS, DbOf(prior), Diff(resolver, prior, next), IndexFree)
  {
    hide Throughout, Diff, DbOf, WellFormed, ScopedNames, Find;
    var prior, next := Pair([], [i]), Pair([i], []);
    PairIsFine([], [i]);
    PairIsFine([i], []);
    SecondFound([], [i]);
    assert Kept(prior, next, 1) && OldOf(prior, next, 1) == Plain("b", [i]);
    assert i in [i];
    assert i.name in IndexNames(OldOf(prior, next, 1)) && i.name in IndexNames(next.tables[0]);
    assert !MovesAreOrdered(prior, next);
    IndexNamesFreeIff(resolver, prior, next);
  }
}
