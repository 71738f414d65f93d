/**
 * The migration compiler (crates/orm-cli/src/diff.rs, `diff`, `up_sql`, `down_sql`): the ordered
 * change list between two schemas, and what running it forwards and backwards does to a database.
 */
module Migration {
  import opened Wrappers
  import opened SchemaModel
  import opened Machines
  import opened TopoSort
  import opened TableDiff
  import K = KeyedDiff
  import G = GrantDiff
  import C = ColumnDiff

  datatype Db = Db(tables: map<Name, TableState>, roles: map<Name, Role>)

  datatype Change =
    | CreateTable(table: Table)
    | DropTable(table: Table)
    | OnTable(name: Name, edit: TableEdit)
    | CreateRole(role: Role)
    | DropRole(role: Role)
    | AlterRole(before: Role, after: Role)

  const NO_TABLE := TableState(map[], false, false, map[], map[], map[])

  function TableAt(db: Db, name: Name): TableState {
    if name in db.tables then db.tables[name] else NO_TABLE
  }

  function PutTable(db: Db, name: Name, s: TableState): Db {
    db.(tables := db.tables[name := s])
  }

  /** The forward meaning of a change (`up`). */
  ghost function ApplyDb(db: Db, c: Change): Db {
    match c
    case CreateTable(t) => PutTable(db, t.name, StateOf(t))
    case DropTable(t) => db.(tables := db.tables - {t.name})
    case OnTable(name, e) => PutTable(db, name, ApplyTable(TableAt(db, name), e))
    case CreateRole(r) => db.(roles := db.roles[r.name := r])
    case DropRole(r) => db.(roles := db.roles - {r.name})
    case AlterRole(_, after) => db.(roles := db.roles[after.name := after])
  }

  /** A change never adds a name already present, edits an absent one, or drops what it does not know. */
  ghost predicate FitsDb(db: Db, c: Change) {
    match c
    case CreateTable(t) => t.name !in db.tables
    case DropTable(t) => t.name in db.tables && db.tables[t.name] == StateOf(t)
    case OnTable(name, e) => name in db.tables && FitsTable(db.tables[name], e)
    case CreateRole(r) => r.name !in db.roles
    case DropRole(r) => r.name in db.roles && db.roles[r.name] == r
    case AlterRole(before, after) =>
      before.name == after.name && before.name in db.roles && db.roles[before.name] == before
  }

  /** The backward meaning of a change (`down`). */
  ghost function UndoDb(db: Db, c: Change): Db {
    match c
    case CreateTable(t) => db.(tables := db.tables - {t.name})
    case DropTable(t) => PutTable(db, t.name, StateOf(t))
    case OnTable(name, e) => PutTable(db, name, UndoTable(TableAt(db, name), e))
    case CreateRole(r) => db.(roles := db.roles - {r.name})
    case DropRole(r) => db.(roles := db.roles[r.name := r])
    case AlterRole(before, _) => db.(roles := db.roles[before.name := before])
  }

  ghost const DBS: Machine<Db, Change> := Machine(ApplyDb, FitsDb, UndoDb)

  lemma DbReverses(db: Db, c: Change)
    requires FitsDb(db, c)
    ensures UndoDb(ApplyDb(db, c), c) == db
  {
    hide ApplyTable, UndoTable, FitsTable, StateOf;
    match c
    case CreateTable(t) => assert db.tables[t.name := StateOf(t)] - {t.name} == db.tables;
    case DropTable(t) => assert (db.tables - {t.name})[t.name := StateOf(t)] == db.tables;
    case OnTable(name, e) =>
      TablesReverse(db.tables[name], e);
      var s := ApplyTable(db.tables[name], e);
      assert db.tables[name := s][name := db.tables[name]] == db.tables;
    case CreateRole(r) => assert db.roles[r.name := r] - {r.name} == db.roles;
    case DropRole(r) => assert (db.roles - {r.name})[r.name := r] == db.roles;
    case AlterRole(before, after) => assert db.roles[after.name := after][before.name := before] == db.roles;
  }

  lemma DbsReversible()
    ensures Reversible(DBS)
  {
    forall db, c | DBS.fits(db, c) ensures DBS.undo(DBS.apply(db, c), c) == db {
      DbReverses(db, c);
    }
  }

  // ----- The change list -------------------------------------------------------------------------------

  function RoleChange(r: Role, olds: seq<Role>): seq<Change> {
    match Find(olds, RoleName, r.name)
    case None => [CreateRole(r)]
    case Some(previous) => if previous != r then [AlterRole(previous, r)] else []
  }

  function RoleChanges(news: seq<Role>, olds: seq<Role>): seq<Change> {
    if news == [] then [] else RoleChanges(news[..|news| - 1], olds) + RoleChange(news[|news| - 1], olds)
  }

  function WrapDrop(t: Table): Change { DropTable(t) }
  function WrapCreate(t: Table): Change { CreateTable(t) }
  function WrapRoleDrop(r: Role): Change { DropRole(r) }

  function TablePart(name: Name): Lens<Db, Change, TableState, TableEdit> {
    Lens((db: Db) => TableAt(db, name), (db: Db, s: TableState) => PutTable(db, name, s),
         (e: TableEdit) => OnTable(name, e))
  }

  function KeptChange(resolver: C.Resolver, t: Table, olds: seq<Table>): seq<Change> {
    match Find(olds, TableName, t.name)
    case Some(o) => Wrap(TablePart(t.name).wrap, TableEdits(resolver, o, t))
    case None => []
  }

  function KeptChanges(resolver: C.Resolver, news: seq<Table>, olds: seq<Table>): seq<Change> {
    if news == [] then []
    else KeptChanges(resolver, news[..|news| - 1], olds) + KeptChange(resolver, news[|news| - 1], olds)
  }

  function Dropped(prior: Schema, next: Schema): seq<Table> {
    Reverse(Sorted(Absent(prior.tables, next.tables, TableName)))
  }

  function Created(prior: Schema, next: Schema): seq<Table> {
    Sorted(Absent(next.tables, prior.tables, TableName))
  }

  /** Roles first, drops children-first, creates parents-first, kept tables, roles last. */
  function Diff(resolver: C.Resolver, prior: Schema, next: Schema): seq<Change> {
    RoleChanges(next.roles, prior.roles)
    + Wrap(WrapDrop, Dropped(prior, next))
    + Wrap(WrapCreate, Created(prior, next))
    + KeptChanges(resolver, next.tables, prior.tables)
    + Wrap(WrapRoleDrop, Absent(prior.roles, next.roles, RoleName))
  }

  // ----- Running a phase -----------------------------------------------------------------------------------

  lemma Then(db: Db, a: seq<Change>, b: seq<Change>)
    requires AllFit(DBS, db, a) && AllFit(DBS, Run(DBS, db, a), b)
    ensures Run(DBS, db, a + b) == Run(DBS, Run(DBS, db, a), b) && AllFit(DBS, db, a + b)
  {
    RunConcat(DBS, db, a, b);
    FitConcat(DBS, db, a, b);
  }

  lemma NoChanges(db: Db)
    ensures Run(DBS, db, []) == db && AllFit(DBS, db, [])
  {
  }

  lemma OneChange(db: Db, c: Change)
    requires FitsDb(db, c)
    ensures Run(DBS, db, [c]) == ApplyDb(db, c) && AllFit(DBS, db, [c])
  {
    hide ApplyDb, FitsDb;
    assert [c][..0] == [];
  }

  lemma RolesStep(news: seq<Role>, n: nat, olds: seq<Role>)
    requires n <= |news| && UniqueKeys(news, RoleName)
    ensures n == 0 ==> RoleChanges(news[..n], olds) == [] && ByKey(news[..n], RoleName) == map[]
    ensures n > 0 ==>
              && RoleChanges(news[..n], olds) == RoleChanges(news[..n - 1], olds) + RoleChange(news[n - 1], olds)
              && ByKey(news[..n], RoleName) == ByKey(news[..n - 1], RoleName)[news[n - 1].name := news[n - 1]]
              && news[n - 1].name !in ByKey(news[..n - 1], RoleName)
  {
    if n > 0 {
      assert news[..n][..n - 1] == news[..n - 1];
      assert forall i :: 0 <= i < n - 1 ==> RoleName(news[i]) != RoleName(news[n - 1]);
    }
  }

  lemma MergeStep<V>(a: map<Name, V>, b: map<Name, V>, k: Name, v: V)
    ensures (a + b)[k := v] == a + b[k := v]
  {
  }

  lemma OneRoleChange(db: Db, r: Role, olds: seq<Role>)
    requires Find(olds, RoleName, r.name) == if r.name in db.roles then Some(db.roles[r.name]) else None
    ensures AllFit(DBS, db, RoleChange(r, olds))
    ensures Run(DBS, db, RoleChange(r, olds)) == db.(roles := db.roles[r.name := r])
  {
    hide Run, AllFit, StateOf;
    NoChanges(db);
    if r.name !in db.roles {
      OneChange(db, CreateRole(r));
    } else if db.roles[r.name] != r {
      OneChange(db, AlterRole(db.roles[r.name], r));
    } else {
      assert db.roles[r.name := r] == db.roles;
    }
  }

  lemma {:induction false} RunRoleChanges(db: Db, news: seq<Role>, olds: seq<Role>, n: nat)
    requires UniqueKeys(news, RoleName) && UniqueKeys(olds, RoleName) && n <= |news|
    requires db.roles == ByKey(olds, RoleName)
    ensures AllFit(DBS, db, RoleChanges(news[..n], olds))
    ensures Run(DBS, db, RoleChanges(news[..n], olds)) == db.(roles := db.roles + ByKey(news[..n], RoleName))
  {
    hide Run, AllFit, ByKey, RoleChanges, RoleChange, UniqueKeys, Find;
    RolesStep(news, n, olds);
    if n == 0 {
      NoChanges(db);
      assert db.roles + map[] == db.roles;
    } else {
      RunRoleChanges(db, news, olds, n - 1);
      var r, d := news[n - 1], db.(roles := db.roles + ByKey(news[..n - 1], RoleName));
      FindIsLookup(olds, RoleName, r.name);
      OneRoleChange(d, r, olds);
      Then(db, RoleChanges(news[..n - 1], olds), RoleChange(r, olds));
      MergeStep(db.roles, ByKey(news[..n - 1], RoleName), r.name, r);
    }
  }

  ghost function TableNames(ts: seq<Table>): set<Name> {
    set t | t in ts :: t.name
  }

  lemma WrapStep<F>(wrap: F -> Change, fs: seq<F>, n: nat)
    requires n < |fs|
    ensures Wrap(wrap, fs[..n + 1]) == Wrap(wrap, fs[..n]) + [wrap(fs[n])]
    ensures Wrap(wrap, fs)[..n] == Wrap(wrap, fs[..n]) && Wrap(wrap, fs)[n] == wrap(fs[n])
  {
  }

  lemma TableNamesStep(ts: seq<Table>, n: nat)
    requires n < |ts| && UniqueKeys(ts, TableName)
    ensures TableNames(ts[..n + 1]) == TableNames(ts[..n]) + {ts[n].name}
    ensures ts[n].name !in TableNames(ts[..n])
  {
    assert ts[..n + 1] == ts[..n] + [ts[n]];
    assert forall i :: 0 <= i < n ==> TableName(ts[i]) != TableName(ts[n]);
  }

  lemma {:induction false} RunDrops(db: Db, ts: seq<Table>, n: nat)
    requires UniqueKeys(ts, TableName) && n <= |ts|
    requires forall i :: 0 <= i < |ts| ==> ts[i].name in db.tables && db.tables[ts[i].name] == StateOf(ts[i])
    ensures AllFit(DBS, db, Wrap(WrapDrop, ts[..n]))
    ensures Run(DBS, db, Wrap(WrapDrop, ts[..n])) == db.(tables := db.tables - TableNames(ts[..n]))
  {
    hide Run, AllFit, StateOf, TableNames, UniqueKeys, Wrap;
    if n == 0 {
      NothingWrapped(ts);
      NoChanges(db);
      assert db.tables - {} == db.tables;
    } else {
      RunDrops(db, ts, n - 1);
      WrapStep(WrapDrop, ts, n - 1);
      TableNamesStep(ts, n - 1);
      OneChange(db.(tables := db.tables - TableNames(ts[..n - 1])), DropTable(ts[n - 1]));
      Then(db, Wrap(WrapDrop, ts[..n - 1]), [DropTable(ts[n - 1])]);
      assert db.tables - TableNames(ts[..n - 1]) - {ts[n - 1].name} == db.tables - TableNames(ts[..n]);
    }
  }

  lemma NothingWrapped(ts: seq<Table>)
    ensures Wrap(WrapDrop, ts[..0]) == [] && Wrap(WrapCreate, ts[..0]) == []
    ensures TableNames(ts[..0]) == {} && StatesOf(ts[..0]) == map[]
  {
  }

  ghost function StatesOf(ts: seq<Table>): map<Name, TableState> {
    if ts == [] then map[] else StatesOf(ts[..|ts| - 1])[ts[|ts| - 1].name := StateOf(ts[|ts| - 1])]
  }

  lemma {:induction false} StatesOfKeys(ts: seq<Table>)
    ensures StatesOf(ts).Keys == TableNames(ts)
  {
    if ts != [] {
      StatesOfKeys(ts[..|ts| - 1]);
      assert ts == ts[..|ts| - 1] + [ts[|ts| - 1]];
    }
  }

  lemma {:induction false} StatesOfAt(ts: seq<Table>, i: nat)
    requires UniqueKeys(ts, TableName) && i < |ts|
    ensures ts[i].name in StatesOf(ts) && StatesOf(ts)[ts[i].name] == StateOf(ts[i])
  {
    var n := |ts| - 1;
    if i < n {
      StatesOfAt(ts[..n], i);
      assert TableName(ts[i]) != TableName(ts[n]);
    }
  }

  lemma {:induction false} RunCreates(db: Db, ts: seq<Table>, n: nat)
    requires UniqueKeys(ts, TableName) && n <= |ts|
    requires forall i :: 0 <= i < |ts| ==> ts[i].name !in db.tables
    ensures AllFit(DBS, db, Wrap(WrapCreate, ts[..n]))
    ensures Run(DBS, db, Wrap(WrapCreate, ts[..n])) == db.(tables := db.tables + StatesOf(ts[..n]))
  {
    hide Run, AllFit, StateOf, TableNames, UniqueKeys, Wrap, StatesOf;
    if n == 0 {
      NothingWrapped(ts);
      NoChanges(db);
      assert db.tables + map[] == db.tables;
    } else {
      RunCreates(db, ts, n - 1);
      WrapStep(WrapCreate, ts, n - 1);
      TableNamesStep(ts, n - 1);
      StatesOfKeys(ts[..n - 1]);
      StatesStep(ts, n - 1);
      var t, d := ts[n - 1], db.(tables := db.tables + StatesOf(ts[..n - 1]));
      OneChange(d, CreateTable(t));
      Then(db, Wrap(WrapCreate, ts[..n - 1]), [CreateTable(t)]);
      MergeStep(db.tables, StatesOf(ts[..n - 1]), t.name, StateOf(t));
    }
  }

  lemma StatesStep(ts: seq<Table>, n: nat)
    requires n < |ts|
    ensures StatesOf(ts[..n + 1]) == StatesOf(ts[..n])[ts[n].name := StateOf(ts[n])]
  {
    assert ts[..n + 1][..n] == ts[..n];
  }

  // ----- Kept tables --------------------------------------------------------------------------------------

  lemma TableEmbeds(db: Db, name: Name)
    requires name in db.tables
    ensures Embeds(DBS, TABLES, TablePart(name), db)
  {
    hide ApplyTable, FitsTable, UndoTable, StateOf;
    assert db.tables[name := db.tables[name]] == db.tables;
    forall s, u ensures PutTable(PutTable(db, name, s), name, u) == PutTable(db, name, u) {
      assert db.tables[name := s][name := u] == db.tables[name := u];
    }
    forall s, e ensures ApplyDb(PutTable(db, name, s), OnTable(name, e)) == PutTable(db, name, ApplyTable(s, e)) {
      assert db.tables[name := s][name := ApplyTable(s, e)] == db.tables[name := ApplyTable(s, e)];
    }
  }

  /** One kept table is migrated and no other table, nor any role, is touched. */
  lemma RunKeptChange(db: Db, resolver: C.Resolver, t: Table, olds: seq<Table>)
    requires WellFormedTable(t) && (forall o :: o in olds ==> WellFormedTable(o))
    requires Find(olds, TableName, t.name).Some? ==>
               t.name in db.tables && db.tables[t.name] == StateOf(Find(olds, TableName, t.name).value)
    ensures AllFit(DBS, db, KeptChange(resolver, t, olds))
    ensures Find(olds, TableName, t.name).None? ==> Run(DBS, db, KeptChange(resolver, t, olds)) == db
    ensures Find(olds, TableName, t.name).Some? ==>
              exists s :: MigratedBy(resolver, s, Find(olds, TableName, t.name).value, t) &&
                          Run(DBS, db, KeptChange(resolver, t, olds)) == PutTable(db, t.name, s)
  {
    hide Run, AllFit, Embeds, TableEdits, Migrated, MigratedColumns, WellFormedTable, StateOf;
    NoChanges(db);
    if Find(olds, TableName, t.name).Some? {
      var o := Find(olds, TableName, t.name).value;
      var es := TableEdits(resolver, o, t);
      TableEditsCorrect(resolver, o, t);
      TableEmbeds(db, t.name);
      RunPart(DBS, TABLES, TablePart(t.name), db, es);
      FitPart(DBS, TABLES, TablePart(t.name), db, es);
      var s := Run(TABLES, db.tables[t.name], es);
      assert Run(DBS, db, KeptChange(resolver, t, olds)) == PutTable(db, t.name, s);
    }
  }

  /** The first `n` new tables have been dealt with: kept ones are migrated, the rest is as before. */
  ghost predicate KeptUpTo(db: Db, out: Db, resolver: C.Resolver, olds: seq<Table>, news: seq<Table>, n: nat)
    requires n <= |news|
  {
    && out.roles == db.roles
    && out.tables.Keys == db.tables.Keys
    && (forall i :: 0 <= i < n && Find(olds, TableName, news[i].name).Some? ==>
          && news[i].name in out.tables
          && MigratedBy(resolver, out.tables[news[i].name], Find(olds, TableName, news[i].name).value, news[i]))
    && (forall i :: 0 <= i < n && Find(olds, TableName, news[i].name).None? && news[i].name in db.tables ==>
          out.tables[news[i].name] == db.tables[news[i].name])
    && (forall name :: name in db.tables && name !in TableNames(news[..n]) ==> out.tables[name] == db.tables[name])
  }

  lemma KeptStep(resolver: C.Resolver, news: seq<Table>, n: nat, olds: seq<Table>)
    requires n < |news|
    ensures KeptChanges(resolver, news[..n + 1], olds) ==
            KeptChanges(resolver, news[..n], olds) + KeptChange(resolver, news[n], olds)
    ensures KeptChanges(resolver, news[..0], olds) == []
  {
    assert news[..n + 1][..n] == news[..n];
  }

  lemma OneMoreKept(db: Db, mid: Db, out: Db, resolver: C.Resolver, olds: seq<Table>, news: seq<Table>, n: nat)
    requires n < |news| && UniqueKeys(news, TableName) && KeptUpTo(db, mid, resolver, olds, news, n)
    requires Find(olds, TableName, news[n].name).None? ==> out == mid
    requires Find(olds, TableName, news[n].name).Some? ==>
               news[n].name in db.tables &&
               exists s :: MigratedBy(resolver, s, Find(olds, TableName, news[n].name).value, news[n]) &&
                           out == PutTable(mid, news[n].name, s)
    ensures KeptUpTo(db, out, resolver, olds, news, n + 1)
  {
    hide MigratedBy, Find, TableNames;
    TableNamesStep(news, n);
    assert forall i :: 0 <= i < n ==> TableName(news[i]) != TableName(news[n]);
    hide UniqueKeys;
    if Find(olds, TableName, news[n].name).Some? {
      var s :| MigratedBy(resolver, s, Find(olds, TableName, news[n].name).value, news[n]) && out == PutTable(mid, news[n].name, s);
    }
  }

  lemma {:induction false} RunKept(db: Db, resolver: C.Resolver, olds: seq<Table>, news: seq<Table>, n: nat)
    requires UniqueKeys(news, TableName) && n <= |news|
    requires (forall t :: t in news ==> WellFormedTable(t)) && (forall o :: o in olds ==> WellFormedTable(o))
    requires forall i :: 0 <= i < |news| && Find(olds, TableName, news[i].name).Some? ==>
               news[i].name in db.tables && db.tables[news[i].name] == StateOf(Find(olds, TableName, news[i].name).value)
    ensures AllFit(DBS, db, KeptChanges(resolver, news[..n], olds))
    ensures KeptUpTo(db, Run(DBS, db, KeptChanges(resolver, news[..n], olds)), resolver, olds, news, n)
  {
    hide Run, AllFit, StateOf, KeptUpTo, WellFormedTable, UniqueKeys, KeptChange, KeptChanges, Find, MigratedBy;
    if n == 0 {
      NoChanges(db);
      NothingKept(db, resolver, olds, news);
      assert KeptChanges(resolver, news[..0], olds) == [] by { NoneKept(resolver, news, olds); }
    } else {
      RunKept(db, resolver, olds, news, n - 1);
      KeptStep(resolver, news, n - 1, olds);
      var mid := Run(DBS, db, KeptChanges(resolver, news[..n - 1], olds));
      var t := news[n - 1];
      Untouched(db, mid, resolver, olds, news, n - 1);
      RunKeptChange(mid, resolver, t, olds);
      Then(db, KeptChanges(resolver, news[..n - 1], olds), KeptChange(resolver, t, olds));
      OneMoreKept(db, mid, Run(DBS, mid, KeptChange(resolver, t, olds)), resolver, olds, news, n - 1);
    }
  }

  lemma NoneKept(resolver: C.Resolver, news: seq<Table>, olds: seq<Table>)
    ensures KeptChanges(resolver, news[..0], olds) == []
  {
  }

  lemma NothingKept(db: Db, resolver: C.Resolver, olds: seq<Table>, news: seq<Table>)
    ensures KeptUpTo(db, db, resolver, olds, news, 0)
  {
  }

  lemma Untouched(db: Db, mid: Db, resolver: C.Resolver, olds: seq<Table>, news: seq<Table>, n: nat)
    requires n < |news| && UniqueKeys(news, TableName) && KeptUpTo(db, mid, resolver, olds, news, n)
    ensures news[n].name in db.tables ==> news[n].name in mid.tables && mid.tables[news[n].name] == db.tables[news[n].name]
  {
    hide MigratedBy, Find;
    TableNamesStep(news, n);
  }

  // ----- Roles last ------------------------------------------------------------------------------------------

  ghost function RoleNames(rs: seq<Role>): set<Name> {
    set r | r in rs :: r.name
  }

  lemma {:induction false} RunRoleDrops(db: Db, rs: seq<Role>, n: nat)
    requires UniqueKeys(rs, RoleName) && n <= |rs|
    requires forall i :: 0 <= i < |rs| ==> rs[i].name in db.roles && db.roles[rs[i].name] == rs[i]
    ensures AllFit(DBS, db, Wrap(WrapRoleDrop, rs[..n]))
    ensures Run(DBS, db, Wrap(WrapRoleDrop, rs[..n])) == db.(roles := db.roles - RoleNames(rs[..n]))
  {
    hide Run, AllFit, RoleNames, UniqueKeys, Wrap;
    RoleNamesStep(rs, n);
    if n == 0 {
      NoChanges(db);
      assert db.roles - {} == db.roles;
    } else {
      RunRoleDrops(db, rs, n - 1);
      WrapStep(WrapRoleDrop, rs, n - 1);
      OneChange(db.(roles := db.roles - RoleNames(rs[..n - 1])), DropRole(rs[n - 1]));
      Then(db, Wrap(WrapRoleDrop, rs[..n - 1]), [DropRole(rs[n - 1])]);
      assert db.roles - RoleNames(rs[..n - 1]) - {rs[n - 1].name} == db.roles - RoleNames(rs[..n]);
    }
  }

  lemma RoleNamesStep(rs: seq<Role>, n: nat)
    requires n <= |rs| && UniqueKeys(rs, RoleName)
    ensures n == 0 ==> RoleNames(rs[..n]) == {} && Wrap(WrapRoleDrop, rs[..n]) == []
    ensures n > 0 ==> RoleNames(rs[..n]) == RoleNames(rs[..n - 1]) + {rs[n - 1].name}
                      && rs[n - 1].name !in RoleNames(rs[..n - 1])
  {
    if n > 0 {
      assert rs[..n] == rs[..n - 1] + [rs[n - 1]];
      assert forall i :: 0 <= i < n - 1 ==> RoleName(rs[i]) != RoleName(rs[n - 1]);
    }
  }
}
