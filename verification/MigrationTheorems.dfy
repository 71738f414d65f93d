/**
 * What a generated migration guarantees: it reaches the new schema, every prefix of it can be
 * undone exactly, and roles and foreign-key targets are there whenever they are needed.
 */
module MigrationTheorems {
  import opened Wrappers
  import opened SchemaModel
  import opened Machines
  import opened TopoSort
  import opened TableDiff
  import opened Migration
  import K = KeyedDiff
  import G = GrantDiff
  import C = ColumnDiff

  ghost function DbOf(s: Schema): Db {
    Db(StatesOf(s.tables), ByKey(s.roles, RoleName))
  }

  // ----- The database between the phases ----------------------------------------------------------------

  ghost function AfterRoles(prior: Schema, next: Schema): Db {
    DbOf(prior).(roles := ByKey(prior.roles, RoleName) + ByKey(next.roles, RoleName))
  }

  ghost function AfterDrops(prior: Schema, next: Schema): Db {
    AfterRoles(prior, next).(tables := StatesOf(prior.tables) - TableNames(Dropped(prior, next)))
  }

  ghost function AfterCreates(prior: Schema, next: Schema): Db {
    var db := AfterDrops(prior, next);
    db.(tables := db.tables + StatesOf(Created(prior, next)))
  }

  ghost function AfterKept(resolver: C.Resolver, prior: Schema, next: Schema): Db {
    Run(DBS, AfterCreates(prior, next), KeptChanges(resolver, next.tables, prior.tables))
  }

  ghost function AfterAll(resolver: C.Resolver, prior: Schema, next: Schema): Db {
    var db := AfterKept(resolver, prior, next);
    db.(roles := db.roles - RoleNames(Absent(prior.roles, next.roles, RoleName)))
  }

  lemma ReverseMembers<T(!new)>(xs: seq<T>, key: T -> Name)
    requires UniqueKeys(xs, key)
    ensures |Reverse(xs)| == |xs| && UniqueKeys(Reverse(xs), key)
    ensures forall x :: x in Reverse(xs) <==> x in xs
  {
    forall x ensures x in Reverse(xs) <==> x in xs {
      if x in xs {
        var i :| 0 <= i < |xs| && xs[i] == x;
        assert Reverse(xs)[|xs| - 1 - i] == x;
      }
    }
  }

  lemma DroppedTables(prior: Schema, next: Schema)
    requires WellFormed(prior)
    ensures UniqueKeys(Dropped(prior, next), TableName)
    ensures forall t :: t in Dropped(prior, next) <==> t in prior.tables && Find(next.tables, TableName, t.name).None?
  {
    AbsentUnique(prior.tables, next.tables, TableName);
    SortedMembers(Absent(prior.tables, next.tables, TableName));
    ReverseMembers(Sorted(Absent(prior.tables, next.tables, TableName)), TableName);
  }

  lemma CreatedTables(prior: Schema, next: Schema)
    requires WellFormed(next)
    ensures UniqueKeys(Created(prior, next), TableName)
    ensures forall t :: t in Created(prior, next) <==> t in next.tables && Find(prior.tables, TableName, t.name).None?
  {
    AbsentUnique(next.tables, prior.tables, TableName);
    SortedMembers(Absent(next.tables, prior.tables, TableName));
  }

  lemma StatesOfIn(ts: seq<Table>, t: Table)
    requires UniqueKeys(ts, TableName) && t in ts
    ensures t.name in StatesOf(ts) && StatesOf(ts)[t.name] == StateOf(t)
  {
    var i :| 0 <= i < |ts| && ts[i] == t;
    StatesOfAt(ts, i);
  }

  lemma RolesPhase(prior: Schema, next: Schema)
    requires WellFormed(prior) && WellFormed(next)
    ensures AllFit(DBS, DbOf(prior), RoleChanges(next.roles, prior.roles))
    ensures Run(DBS, DbOf(prior), RoleChanges(next.roles, prior.roles)) == AfterRoles(prior, next)
  {
    hide Run, AllFit, RoleChanges, ByKey, StatesOf;
    assert next.roles[..|next.roles|] == next.roles;
    RunRoleChanges(DbOf(prior), next.roles, prior.roles, |next.roles|);
  }

  lemma DropPhase(prior: Schema, next: Schema)
    requires WellFormed(prior) && WellFormed(next)
    ensures AllFit(DBS, AfterRoles(prior, next), Wrap(WrapDrop, Dropped(prior, next)))
    ensures Run(DBS, AfterRoles(prior, next), Wrap(WrapDrop, Dropped(prior, next))) == AfterDrops(prior, next)
  {
    hide Run, AllFit, Wrap, ByKey, StatesOf, StateOf, TableNames, Dropped;
    DroppedTables(prior, next);
    var ts, db := Dropped(prior, next), AfterRoles(prior, next);
    forall i | 0 <= i < |ts| ensures ts[i].name in db.tables && db.tables[ts[i].name] == StateOf(ts[i]) {
      assert ts[i] in ts;
      StatesOfIn(prior.tables, ts[i]);
    }
    assert ts[..|ts|] == ts;
    RunDrops(db, ts, |ts|);
  }

  lemma CreatePhase(prior: Schema, next: Schema)
    requires WellFormed(prior) && WellFormed(next)
    ensures AllFit(DBS, AfterDrops(prior, next), Wrap(WrapCreate, Created(prior, next)))
    ensures Run(DBS, AfterDrops(prior, next), Wrap(WrapCreate, Created(prior, next))) == AfterCreates(prior, next)
    ensures forall i :: 0 <= i < |Created(prior, next)| ==> Created(prior, next)[i].name !in AfterDrops(prior, next).tables
  {
    hide Run, AllFit, Wrap, ByKey, StatesOf, StateOf, Created, Dropped;
    CreatedTables(prior, next);
    var ts, db := Created(prior, next), AfterDrops(prior, next);
    forall i | 0 <= i < |ts| ensures ts[i].name !in db.tables {
      assert ts[i] in ts;
      StatesOfKeys(prior.tables);
    }
    assert ts[..|ts|] == ts;
    RunCreates(db, ts, |ts|);
  }

  /** A kept table is still in its old state when its turn comes. */
  lemma KeptIntact(prior: Schema, next: Schema, t: Table)
    requires WellFormed(prior) && WellFormed(next) && t in next.tables
    requires Find(prior.tables, TableName, t.name).Some?
    ensures var db, o := AfterCreates(prior, next), Find(prior.tables, TableName, t.name).value;
            t.name in db.tables && db.tables[t.name] == StateOf(o)
  {
    hide StateOf, StatesOf, Dropped, Created;
    var o := Find(prior.tables, TableName, t.name).value;
    DroppedTables(prior, next);
    CreatedTables(prior, next);
    StatesOfIn(prior.tables, o);
    StatesOfKeys(Created(prior, next));
    assert t.name !in TableNames(Dropped(prior, next));
    assert t.name !in TableNames(Created(prior, next));
  }

  lemma KeptPhase(resolver: C.Resolver, prior: Schema, next: Schema)
    requires WellFormed(prior) && WellFormed(next)
    ensures AllFit(DBS, AfterCreates(prior, next), KeptChanges(resolver, next.tables, prior.tables))
    ensures KeptUpTo(AfterCreates(prior, next), AfterKept(resolver, prior, next), resolver, prior.tables, next.tables, |next.tables|)
  {
    hide Run, AllFit, StateOf, KeptUpTo, AfterCreates, Find, KeptChanges;
    var news := next.tables;
    forall i | 0 <= i < |news| && Find(prior.tables, TableName, news[i].name).Some?
      ensures var db, o := AfterCreates(prior, next), Find(prior.tables, TableName, news[i].name).value;
              news[i].name in db.tables && db.tables[news[i].name] == StateOf(o)
    {
      KeptIntact(prior, next, news[i]);
    }
    assert news[..|news|] == news;
    RunKept(AfterCreates(prior, next), resolver, prior.tables, news, |news|);
  }

  lemma RoleDropPhase(resolver: C.Resolver, prior: Schema, next: Schema)
    requires WellFormed(prior) && WellFormed(next)
    ensures AllFit(DBS, AfterKept(resolver, prior, next), Wrap(WrapRoleDrop, Absent(prior.roles, next.roles, RoleName)))
    ensures Run(DBS, AfterKept(resolver, prior, next), Wrap(WrapRoleDrop, Absent(prior.roles, next.roles, RoleName)))
            == AfterAll(resolver, prior, next)
  {
    hide Run, AllFit, Wrap, StatesOf, Migrated, Absent, TableNames, Dropped, Created;
    KeptPhase(resolver, prior, next);
    var db, rs := AfterKept(resolver, prior, next), Absent(prior.roles, next.roles, RoleName);
    AbsentUnique(prior.roles, next.roles, RoleName);
    forall i | 0 <= i < |rs| ensures rs[i].name in db.roles && db.roles[rs[i].name] == rs[i] {
      assert rs[i] in rs;
      ByKeyIn(prior.roles, RoleName, rs[i]);
      FindIsLookup(next.roles, RoleName, rs[i].name);
    }
    assert rs[..|rs|] == rs;
    RunRoleDrops(db, rs, |rs|);
  }

  /** All the changes fit where they are applied, and this is where they lead. */
  lemma DiffRuns(resolver: C.Resolver, prior: Schema, next: Schema)
    requires WellFormed(prior) && WellFormed(next)
    ensures AllFit(DBS, DbOf(prior), Diff(resolver, prior, next))
    ensures Run(DBS, DbOf(prior), Diff(resolver, prior, next)) == AfterAll(resolver, prior, next)
  {
    hide Run, AllFit, Wrap, RoleChanges, KeptChanges, Dropped, Created, Absent, WellFormed, DbOf,
      AfterRoles, AfterDrops, AfterCreates, AfterAll;
    RolesPhase(prior, next);
    DropPhase(prior, next);
    CreatePhase(prior, next);
    KeptPhase(resolver, prior, next);
    RoleDropPhase(resolver, prior, next);
    var es := RoleChanges(next.roles, prior.roles);
    Migration.Then(DbOf(prior), es, Wrap(WrapDrop, Dropped(prior, next)));
    es := es + Wrap(WrapDrop, Dropped(prior, next));
    Migration.Then(DbOf(prior), es, Wrap(WrapCreate, Created(prior, next)));
    es := es + Wrap(WrapCreate, Created(prior, next));
    Migration.Then(DbOf(prior), es, KeptChanges(resolver, next.tables, prior.tables));
    es := es + KeptChanges(resolver, next.tables, prior.tables);
    Migration.Then(DbOf(prior), es, Wrap(WrapRoleDrop, Absent(prior.roles, next.roles, RoleName)));
  }

  // ----- Correctness -----------------------------------------------------------------------------------------

  /** The database is the new schema: created tables exactly, kept ones as `Migrated` says. */
  ghost predicate Reaches(db: Db, prior: Schema, next: Schema) {
    && db.roles == ByKey(next.roles, RoleName)
    && db.tables.Keys == TableNames(next.tables)
    && forall t :: t in next.tables ==>
         && t.name in db.tables
         && match Find(prior.tables, TableName, t.name)
            case None => db.tables[t.name] == StateOf(t)
            case Some(o) => Migrated(db.tables[t.name], o, t)
  }

  lemma FinalRoles(prior: Schema, next: Schema)
    requires WellFormed(prior) && WellFormed(next)
    ensures ByKey(prior.roles, RoleName) + ByKey(next.roles, RoleName) - RoleNames(Absent(prior.roles, next.roles, RoleName))
            == ByKey(next.roles, RoleName)
  {
    var olds, news, gone := ByKey(prior.roles, RoleName), ByKey(next.roles, RoleName),
                            RoleNames(Absent(prior.roles, next.roles, RoleName));
    forall k ensures k in olds && k !in news ==> k in gone {
      if k in olds && k !in news {
        FindIsLookup(next.roles, RoleName, k);
        assert olds[k] in Absent(prior.roles, next.roles, RoleName);
      }
    }
    forall k | k in gone ensures k !in news {
      FindIsLookup(next.roles, RoleName, k);
    }
  }

  lemma FinalTables(prior: Schema, next: Schema)
    requires WellFormed(prior) && WellFormed(next)
    ensures AfterCreates(prior, next).tables.Keys == TableNames(next.tables)
  {
    hide StatesOf, StateOf, Dropped, Created;
    DroppedTables(prior, next);
    CreatedTables(prior, next);
    StatesOfKeys(prior.tables);
    StatesOfKeys(Created(prior, next));
    forall k | k in TableNames(next.tables) ensures k in AfterCreates(prior, next).tables {
      var t :| t in next.tables && t.name == k;
      if Find(prior.tables, TableName, k).Some? {
        KeptIntact(prior, next, t);
      } else {
        assert t in Created(prior, next);
      }
    }
    forall k | k in AfterCreates(prior, next).tables ensures k in TableNames(next.tables) {
      if k in StatesOf(prior.tables) && k !in TableNames(Dropped(prior, next)) {
        var o :| o in prior.tables && o.name == k;
        assert Find(next.tables, TableName, k).Some?;
      }
    }
  }

  /** What one table of the new schema ends as. */
  lemma FinalTable(resolver: C.Resolver, prior: Schema, next: Schema, i: nat)
    requires WellFormed(prior) && WellFormed(next) && i < |next.tables|
    ensures var t, out := next.tables[i], AfterKept(resolver, prior, next).tables;
            && t.name in out
            && match Find(prior.tables, TableName, t.name)
               case None => out[t.name] == StateOf(t)
               case Some(o) => MigratedBy(resolver, out[t.name], o, t)
  {
    hide AfterKept, StatesOf, StateOf, MigratedBy, Created, Dropped, AfterDrops, Find, UniqueKeys;
    KeptPhase(resolver, prior, next);
    var t := next.tables[i];
    if Find(prior.tables, TableName, t.name).None? {
      CreatedTables(prior, next);
      assert t in Created(prior, next);
      StatesOfIn(Created(prior, next), t);
    }
  }

  lemma AfterAllTables(resolver: C.Resolver, prior: Schema, next: Schema)
    requires WellFormed(prior) && WellFormed(next)
    ensures var out := AfterAll(resolver, prior, next);
            && out.tables == AfterKept(resolver, prior, next).tables
            && out.tables.Keys == TableNames(next.tables) && out.roles == ByKey(next.roles, RoleName)
  {
    hide AfterKept, StatesOf, StateOf, MigratedBy, Created, Dropped, Find, UniqueKeys, ByKey, Absent, TableNames;
    KeptPhase(resolver, prior, next);
    FinalTables(prior, next);
    FinalRoles(prior, next);
  }

  /**
   * Migrating from the old schema never adds a name already present, edits an absent one or drops
   * an unknown one, whatever the resolver renames, and ends in the new schema.
   */
  lemma DiffCorrect(resolver: C.Resolver, prior: Schema, next: Schema)
    requires WellFormed(prior) && WellFormed(next)
    ensures AllFit(DBS, DbOf(prior), Diff(resolver, prior, next))
    ensures Reaches(Run(DBS, DbOf(prior), Diff(resolver, prior, next)), prior, next)
  {
    hide Run, AllFit, Diff, StateOf, Migrated, MigratedColumns, AfterKept, AfterAll, DbOf, ByKey, TableNames, WellFormed, Find;
    DiffRuns(resolver, prior, next);
    AfterAllTables(resolver, prior, next);
    var out := AfterAll(resolver, prior, next);
    forall t | t in next.tables
      ensures t.name in out.tables
      ensures match Find(prior.tables, TableName, t.name)
              case None => out.tables[t.name] == StateOf(t)
              case Some(o) => Migrated(out.tables[t.name], o, t)
    {
      var i :| 0 <= i < |next.tables| && next.tables[i] == t;
      FinalTable(resolver, prior, next, i);
    }
  }

  /**
   * `down` after `up` restores the old database exactly; so does undoing any prefix, and on the
   * way back the database passes through the very states it went through.
   */
  lemma DiffReverses(resolver: C.Resolver, prior: Schema, next: Schema, n: nat, k: nat)
    requires WellFormed(prior) && WellFormed(next) && k <= n <= |Diff(resolver, prior, next)|
    ensures var es, db := Diff(resolver, prior, next), DbOf(prior);
            && Rewind(DBS, Run(DBS, db, es), es) == db
            && Rewind(DBS, Run(DBS, db, es[..n]), es[..n]) == db
            && Rewind(DBS, Run(DBS, db, es[..n]), es[..n][k..]) == Run(DBS, db, es[..k])
  {
    hide Run, Rewind, Diff, AllFit, Reversible, WellFormed, DbOf;
    var es, db := Diff(resolver, prior, next), DbOf(prior);
    DiffRuns(resolver, prior, next);
    DbsReversible();
    RewindRestores(DBS, db, es, n);
    RewindRestores(DBS, db, es, |es|);
    assert es[..|es|] == es && es[..n][..k] == es[..k];
    FitPrefix(DBS, db, es, n);
    RewindRetraces(DBS, db, es[..n], k);
  }
}
