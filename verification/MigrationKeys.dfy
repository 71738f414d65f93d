/**
 * Foreign keys while a migration runs: when every referenced table is already there, and when no
 * table is dropped under a reference.
 */
module MigrationKeys {
  import opened Wrappers
  import opened SchemaModel
  import opened Machines
  import opened TopoSort
  import opened TableDiff
  import opened Migration
  import opened MigrationTheorems
  import opened MigrationSafety
  import C = ColumnDiff

  // ----- Targets of new references ---------------------------------------------------------------------

  /** Every foreign key of the schema points into the schema. */
  ghost predicate KeysClosed(s: Schema) {
    forall t, c :: t in s.tables && c in t.columns && c.attributes.references.Some? ==>
      c.attributes.references.value.table in TableNames(s.tables)
  }

  /** The tables a change makes something refer to, its own table aside, exist when it runs. */
  ghost predicate TargetReady(db: Db, c: Change) {
    match c
    case CreateTable(t) => Targets(t) <= db.tables.Keys
    case OnTable(_, OnColumns(Add(column))) =>
      column.attributes.references.Some? ==> column.attributes.references.value.table in db.tables
    case _ => true
  }

  lemma CreateMeets(prior: Schema, next: Schema, k: nat)
    requires WellFormed(prior) && WellFormed(next) && k < |Created(prior, next)|
    ensures var ts := Created(prior, next);
            && |Wrap(WrapCreate, ts)| == |ts| && Wrap(WrapCreate, ts)[k] == CreateTable(ts[k])
            && Run(DBS, AfterDrops(prior, next), Wrap(WrapCreate, ts)[..k]).tables.Keys ==
               AfterDrops(prior, next).tables.Keys + TableNames(ts[..k])
  {
    hide Run, AllFit, Created, AfterDrops, StatesOf, TableNames, WellFormed, UniqueKeys;
    var ts := Created(prior, next);
    CreatedTables(prior, next);
    CreatePhase(prior, next);
    RunCreates(AfterDrops(prior, next), ts, k);
    WrapStep(WrapCreate, ts, k);
    StatesOfKeys(ts[..k]);
  }

  /** A target of a created table is there at its turn iff it is kept, or created earlier. */
  lemma TargetMeets(prior: Schema, next: Schema, k: nat, u: Name)
    requires WellFormed(prior) && WellFormed(next) && k < |Created(prior, next)| && u in TableNames(next.tables)
    ensures u in AfterDrops(prior, next).tables.Keys + TableNames(Created(prior, next)[..k])
            <==> forall j :: 0 <= j < |Created(prior, next)| && Created(prior, next)[j].name == u ==> j < k
  {
    hide StatesOf, StateOf, Created, Dropped, Find;
    var ts := Created(prior, next);
    CreatedTables(prior, next);
    CreatePhase(prior, next);
    var t :| t in next.tables && t.name == u;
    if t in ts {
      var j :| 0 <= j < |ts| && ts[j] == t;
      forall i | 0 <= i < |ts| && ts[i].name == u ensures i == j {
        SameName(ts, i, j);
      }
      assert j < k ==> ts[..k][j] == t;
    } else {
      KeptThere(prior, next, t);
    }
  }

  lemma KeptThere(prior: Schema, next: Schema, t: Table)
    requires WellFormed(prior) && WellFormed(next) && t in next.tables && t !in Created(prior, next)
    ensures t.name in AfterDrops(prior, next).tables
  {
    hide StatesOf, StateOf, Created, Dropped;
    CreatedTables(prior, next);
    DroppedTables(prior, next);
    StatesOfKeys(prior.tables);
    assert Find(prior.tables, TableName, t.name).value in prior.tables;
  }

  lemma CreatesReadyIff(prior: Schema, next: Schema)
    requires WellFormed(prior) && WellFormed(next) && KeysClosed(next)
    ensures Throughout(DBS, AfterDrops(prior, next), Wrap(WrapCreate, Created(prior, next)), TargetReady)
            <==> ParentsFirst(Created(prior, next))
  {
    hide Run, Created, AfterDrops, WellFormed, TableNames, Targets, KeysClosed, Wrap;
    var ts, db := Created(prior, next), AfterDrops(prior, next);
    var es := Wrap(WrapCreate, ts);
    WrapLength(WrapCreate, ts);
    forall k | 0 <= k < |ts|
      ensures TargetReady(Run(DBS, db, es[..k]), es[k])
              <==> forall j :: 0 <= j < |ts| && ts[j].name in Targets(ts[k]) ==> j < k
    {
      ReadyIff(prior, next, k);
    }
  }

  lemma ReadyIff(prior: Schema, next: Schema, k: nat)
    requires WellFormed(prior) && WellFormed(next) && KeysClosed(next) && k < |Created(prior, next)|
    ensures var ts, db := Created(prior, next), AfterDrops(prior, next);
            var es := Wrap(WrapCreate, ts);
            && k < |es|
            && (TargetReady(Run(DBS, db, es[..k]), es[k])
                <==> forall j :: 0 <= j < |ts| && ts[j].name in Targets(ts[k]) ==> j < k)
  {
    hide Run, Created, AfterDrops, WellFormed, TableNames, Targets, KeysClosed, Wrap;
    var ts, db := Created(prior, next), AfterDrops(prior, next);
    CreateMeets(prior, next, k);
    forall u | u in Targets(ts[k])
      ensures u in db.tables.Keys + TableNames(ts[..k]) <==> forall j :: 0 <= j < |ts| && ts[j].name == u ==> j < k
    {
      TargetIsNew(prior, next, ts[k], u);
      TargetMeets(prior, next, k, u);
    }
  }

  lemma TargetIsNew(prior: Schema, next: Schema, t: Table, u: Name)
    requires WellFormed(next) && KeysClosed(next) && t in Created(prior, next) && u in Targets(t)
    ensures u in TableNames(next.tables)
  {
    hide Created;
    CreatedTables(prior, next);
  }

  lemma {:induction false} TableNamesFixed(db: Db, es: seq<Change>, k: nat)
    requires k <= |es| && forall i :: 0 <= i < |es| ==> es[i].OnTable? && es[i].name in db.tables
    ensures Run(DBS, db, es[..k]).tables.Keys == db.tables.Keys
  {
    hide ApplyTable;
    if k > 0 {
      TableNamesFixed(db, es, k - 1);
      assert es[..k] == es[..k - 1] + [es[k - 1]];
      RunSnoc(DBS, db, es[..k - 1], es[k - 1]);
    }
  }

  lemma KeptReady(resolver: C.Resolver, prior: Schema, next: Schema)
    requires WellFormed(prior) && WellFormed(next) && KeysClosed(next)
    ensures Throughout(DBS, AfterCreates(prior, next), KeptChanges(resolver, next.tables, prior.tables), TargetReady)
  {
    hide Run, KeptChanges, AfterCreates, WellFormed, Find, Targets;
    var db, es := AfterCreates(prior, next), KeptChanges(resolver, next.tables, prior.tables);
    FinalTables(prior, next);
    forall i | 0 <= i < |es| ensures es[i].OnTable? && es[i].name in db.tables {
      var t := KeptChangesFrom(resolver, next.tables, prior.tables, i);
    }
    forall k | 0 <= k < |es| ensures TargetReady(Run(DBS, db, es[..k]), es[k]) {
      TableNamesFixed(db, es, k);
      var t := KeptChangesFrom(resolver, next.tables, prior.tables, k);
    }
  }

  lemma OthersReady(resolver: C.Resolver, prior: Schema, next: Schema, q: (Db, Change) -> bool)
    requires forall db, c :: TouchesRoles(c) || c.DropTable? ==> q(db, c)
    ensures Throughout(DBS, DbOf(prior), RoleChanges(next.roles, prior.roles), q)
    ensures Throughout(DBS, AfterRoles(prior, next), Wrap(WrapDrop, Dropped(prior, next)), q)
    ensures Throughout(DBS, AfterKept(resolver, prior, next),
                       Wrap(WrapRoleDrop, Absent(prior.roles, next.roles, RoleName)), q)
  {
    RoleOnlyPhases(resolver, prior, next, q);
    hide Run, RoleChanges, Dropped, DbOf, AfterRoles, AfterKept, Absent;
    var ds := Wrap(WrapDrop, Dropped(prior, next));
    forall k | 0 <= k < |ds| ensures q(Run(DBS, AfterRoles(prior, next), ds[..k]), ds[k]) {
      WrapAt(WrapDrop, Dropped(prior, next), k);
    }
  }

  lemma RoleOnlyPhases(resolver: C.Resolver, prior: Schema, next: Schema, q: (Db, Change) -> bool)
    requires forall db, c :: TouchesRoles(c) ==> q(db, c)
    ensures Throughout(DBS, DbOf(prior), RoleChanges(next.roles, prior.roles), q)
    ensures Throughout(DBS, AfterKept(resolver, prior, next),
                       Wrap(WrapRoleDrop, Absent(prior.roles, next.roles, RoleName)), q)
  {
    hide Run, RoleChanges, Dropped, DbOf, AfterRoles, AfterKept, Absent;
    var es, rs := RoleChanges(next.roles, prior.roles), Wrap(WrapRoleDrop, Absent(prior.roles, next.roles, RoleName));
    forall k | 0 <= k < |es| ensures q(Run(DBS, DbOf(prior), es[..k]), es[k]) {
      RoleChangesOnly(next.roles, prior.roles, k);
    }
    forall k | 0 <= k < |rs| ensures q(Run(DBS, AfterKept(resolver, prior, next), rs[..k]), rs[k]) {
      WrapAt(WrapRoleDrop, Absent(prior.roles, next.roles, RoleName), k);
    }
  }

  /** The parts of a property that holds throughout the whole list. */
  lemma ThroughoutPhases(resolver: C.Resolver, prior: Schema, next: Schema, q: (Db, Change) -> bool)
    requires WellFormed(prior) && WellFormed(next)
    requires Throughout(DBS, DbOf(prior), Diff(resolver, prior, next), q)
    ensures Throughout(DBS, AfterRoles(prior, next), Wrap(WrapDrop, Dropped(prior, next)), q)
    ensures Throughout(DBS, AfterDrops(prior, next), Wrap(WrapCreate, Created(prior, next)), q)
    ensures Throughout(DBS, AfterCreates(prior, next), KeptChanges(resolver, next.tables, prior.tables), q)
  {
    hide Run, AllFit, Throughout, Wrap, RoleChanges, KeptChanges, Dropped, Created, Absent, WellFormed, DbOf,
      AfterRoles, AfterDrops, AfterCreates;
    RolesPhase(prior, next);
    DropPhase(prior, next);
    CreatePhase(prior, next);
    var db := DbOf(prior);
    var a, b, c, d, e := RoleChanges(next.roles, prior.roles), Wrap(WrapDrop, Dropped(prior, next)),
                         Wrap(WrapCreate, Created(prior, next)), KeptChanges(resolver, next.tables, prior.tables),
                         Wrap(WrapRoleDrop, Absent(prior.roles, next.roles, RoleName));
    ThroughoutSplit(DBS, db, a + b + c + d, e, q);
    ThroughoutSplit(DBS, db, a + b + c, d, q);
    ThroughoutSplit(DBS, db, a + b, c, q);
    ThroughoutSplit(DBS, db, a, b, q);
    RunConcat(DBS, db, a, b);
    RunConcat(DBS, db, a + b, c);
  }

  /**
   * With closed foreign keys, every created table and every added column finds the tables it
   * references exactly when the created tables reference each other without a cycle.
   */
  lemma TargetsReadyIff(resolver: C.Resolver, prior: Schema, next: Schema)
    requires WellFormed(prior) && WellFormed(next) && KeysClosed(next)
    ensures Throughout(DBS, DbOf(prior), Diff(resolver, prior, next), TargetReady)
            <==> Acyclic(Absent(next.tables, prior.tables, TableName))
  {
    hide Run, Throughout, Diff, DbOf, KeysClosed, Wrap, RoleChanges, KeptChanges, Dropped, AfterRoles, AfterDrops,
      AfterCreates, AfterKept, ParentsFirst, Acyclic, Sorted, Absent;
    CreatesReadyIff(prior, next);
    AbsentUnique(next.tables, prior.tables, TableName);
    SortedParentsFirstIff(Absent(next.tables, prior.tables, TableName));
    if Throughout(DBS, DbOf(prior), Diff(resolver, prior, next), TargetReady) {
      ThroughoutPhases(resolver, prior, next, TargetReady);
    }
    if ParentsFirst(Created(prior, next)) {
      OthersReady(resolver, prior, next, TargetReady);
      KeptReady(resolver, prior, next);
      ThroughoutDiff(resolver, prior, next, TargetReady);
    }
  }

  lemma AcyclicSubset(some: seq<Table>, all: seq<Table>)
    requires Acyclic(all) && forall t :: t in some ==> t in all
    ensures Acyclic(some)
  {
    hide Targets;
    var rank :| Ranks(rank, all);
    assert Ranks(rank, some);
  }

  /** In particular when the new schema has no foreign-key cycle at all. */
  lemma TargetsReady(resolver: C.Resolver, prior: Schema, next: Schema)
    requires WellFormed(prior) && WellFormed(next) && KeysClosed(next) && Acyclic(next.tables)
    ensures Throughout(DBS, DbOf(prior), Diff(resolver, prior, next), TargetReady)
  {
    hide Run, Throughout, Diff, DbOf, KeysClosed, Acyclic, Find;
    AcyclicSubset(Absent(next.tables, prior.tables, TableName), next.tables);
    TargetsReadyIff(resolver, prior, next);
  }

  // ----- Dropping under a reference --------------------------------------------------------------------------

  ghost predicate Refers(s: TableState, u: Name) {
    exists k :: k in s.columns && s.columns[k].attributes.references.Some? &&
                s.columns[k].attributes.references.value.table == u
  }

  lemma RefersIff(t: Table, u: Name)
    requires WellFormedTable(t) && u != t.name
    ensures Refers(StateOf(t), u) <==> u in Targets(t)
  {
    if u in Targets(t) {
      var c :| c in t.columns && c.attributes.references.Some? && c.attributes.references.value.table == u;
      ByKeyIn(t.columns, ColumnName, c);
    }
  }

  /** No other table refers to a table when it is dropped. */
  ghost predicate DropUnreferenced(db: Db, c: Change) {
    c.DropTable? ==> forall n :: n in db.tables && n != c.table.name ==> !Refers(db.tables[n], c.table.name)
  }

  /** A kept table as the old schema has it refers to no dropped table. */
  ghost predicate KeptFree(prior: Schema, next: Schema) {
    forall o, d ::
      o in prior.tables && Find(next.tables, TableName, o.name).Some? && d in Absent(prior.tables, next.tables, TableName)
      ==> d.name !in Targets(o)
  }

  /** The tables still there when the k-th drop runs. */
  ghost predicate Standing(prior: Schema, next: Schema, k: nat, o: Table)
    requires k <= |Dropped(prior, next)|
  {
    o in prior.tables && o !in Dropped(prior, next)[..k]
  }

  lemma DropMeets(prior: Schema, next: Schema, k: nat)
    requires WellFormed(prior) && WellFormed(next) && k < |Dropped(prior, next)|
    ensures var ts := Dropped(prior, next);
            && |Wrap(WrapDrop, ts)| == |ts| && Wrap(WrapDrop, ts)[k] == DropTable(ts[k])
            && Run(DBS, AfterRoles(prior, next), Wrap(WrapDrop, ts)[..k]).tables ==
               StatesOf(prior.tables) - TableNames(ts[..k])
  {
    hide Run, AllFit, Dropped, StatesOf, TableNames, StateOf, UniqueKeys, WellFormed, ByKey;
    var ts, db := Dropped(prior, next), AfterRoles(prior, next);
    DroppedTables(prior, next);
    forall i | 0 <= i < |ts| ensures ts[i].name in db.tables && db.tables[ts[i].name] == StateOf(ts[i]) {
      assert ts[i] in ts;
      OldState(prior, ts[i]);
    }
    RunDrops(db, ts, k);
    WrapStep(WrapDrop, ts, k);
  }

  lemma OldState(prior: Schema, t: Table)
    requires WellFormed(prior) && t in prior.tables
    ensures t.name in StatesOf(prior.tables) && StatesOf(prior.tables)[t.name] == StateOf(t)
  {
    StatesOfIn(prior.tables, t);
  }

  /** A drop meets no reference iff no table still standing has one. */
  lemma DropUnreferencedIff(prior: Schema, next: Schema, k: nat)
    requires WellFormed(prior) && WellFormed(next) && k < |Dropped(prior, next)|
    ensures var ts, db := Dropped(prior, next), AfterRoles(prior, next);
            var es := Wrap(WrapDrop, ts);
            && k < |es|
            && (DropUnreferenced(Run(DBS, db, es[..k]), es[k])
                <==> forall o :: Standing(prior, next, k, o) ==> ts[k].name !in Targets(o))
  {
    hide Run, Dropped, StatesOf, TableNames, StateOf, Targets, Refers, AfterRoles, Wrap;
    var ts := Dropped(prior, next);
    DropMeets(prior, next, k);
    var there := StatesOf(prior.tables) - TableNames(ts[..k]);
    forall o | o in prior.tables
      ensures Standing(prior, next, k, o) <==> o.name in there
      ensures o.name in there ==> there[o.name] == StateOf(o)
      ensures o.name != ts[k].name ==> (Refers(StateOf(o), ts[k].name) <==> ts[k].name in Targets(o))
    {
      StandingMeans(prior, next, k, o);
      OldState(prior, o);
      if o.name != ts[k].name {
        RefersIff(o, ts[k].name);
      }
    }
    forall n | n in there ensures exists o :: o in prior.tables && o.name == n {
      NamedOld(prior.tables, n);
    }
    forall o | o in prior.tables && o.name == ts[k].name ensures ts[k].name !in Targets(o) {
      NoSelfTarget(o);
    }
  }

  lemma NoSelfTarget(t: Table)
    ensures t.name !in Targets(t)
  {
  }

  lemma NamedOld(ts: seq<Table>, n: Name)
    requires n in StatesOf(ts)
    ensures exists o :: o in ts && o.name == n
  {
    StatesOfKeys(ts);
  }

  lemma StandingMeans(prior: Schema, next: Schema, k: nat, o: Table)
    requires WellFormed(prior) && k <= |Dropped(prior, next)| && o in prior.tables
    ensures Standing(prior, next, k, o) <==> o.name in StatesOf(prior.tables) && o.name !in TableNames(Dropped(prior, next)[..k])
  {
    hide Dropped, StatesOf, StateOf;
    OldState(prior, o);
    DroppedTables(prior, next);
    var ts := Dropped(prior, next);
    if o.name in TableNames(ts[..k]) {
      var d :| d in ts[..k] && d.name == o.name;
      assert d in ts;
      ByKeyIn(prior.tables, TableName, d);
      ByKeyIn(prior.tables, TableName, o);
    }
  }

  /** Nothing standing refers to the table being dropped, at every drop. */
  ghost predicate StandingFree(prior: Schema, next: Schema) {
    forall k, o :: 0 <= k < |Dropped(prior, next)| && Standing(prior, next, k, o) ==>
      Dropped(prior, next)[k].name !in Targets(o)
  }

  lemma DropsFreeIff(prior: Schema, next: Schema)
    requires WellFormed(prior) && WellFormed(next)
    ensures Throughout(DBS, AfterRoles(prior, next), Wrap(WrapDrop, Dropped(prior, next)), DropUnreferenced)
            <==> StandingFree(prior, next)
  {
    hide Run, Dropped, Targets, AfterRoles, Wrap, Standing, WellFormed, DropUnreferenced;
    var ts, es := Dropped(prior, next), Wrap(WrapDrop, Dropped(prior, next));
    WrapLength(WrapDrop, ts);
    forall k | 0 <= k < |ts|
      ensures DropUnreferenced(Run(DBS, AfterRoles(prior, next), es[..k]), es[k])
              <==> forall o :: Standing(prior, next, k, o) ==> ts[k].name !in Targets(o)
    {
      DropUnreferencedIff(prior, next, k);
    }
  }

  lemma StandingKept(prior: Schema, next: Schema, k: nat, o: Table)
    requires WellFormed(prior) && k <= |Dropped(prior, next)| && o in prior.tables
    requires Find(next.tables, TableName, o.name).Some?
    ensures Standing(prior, next, k, o)
  {
    hide Dropped;
    DroppedTables(prior, next);
  }

  lemma StandingDropped(prior: Schema, next: Schema, k: nat, j: nat)
    requires WellFormed(prior) && k <= |Dropped(prior, next)| && j < |Dropped(prior, next)|
    ensures Standing(prior, next, k, Dropped(prior, next)[j]) <==> k <= j
  {
    hide Dropped;
    DroppedTables(prior, next);
    var ts := Dropped(prior, next);
    assert ts[j] in ts;
    if ts[j] in ts[..k] {
      var i :| 0 <= i < k && ts[i] == ts[j];
      SameName(ts, i, j);
    }
    assert j < k ==> ts[..k][j] == ts[j];
  }

  lemma ReversedOrder(prior: Schema, next: Schema)
    requires WellFormed(prior)
    ensures var ds := Dropped(prior, next);
            (forall i, j :: 0 <= i < j < |ds| ==> ds[i].name !in Targets(ds[j]))
            <==> Acyclic(Absent(prior.tables, next.tables, TableName))
  {
    hide Absent, Targets, Sorted, Acyclic, UniqueKeys;
    var ts := Absent(prior.tables, next.tables, TableName);
    AbsentUnique(prior.tables, next.tables, TableName);
    SortedParentsFirstIff(ts);
    var out, ds := Sorted(ts), Dropped(prior, next);
    forall i | 0 <= i < |ds| ensures ds[i] == out[|ds| - 1 - i] && |ds| == |out| { }
    assert |ds| == |out|;
    if ParentsFirst(out) {
      forall i, j | 0 <= i < j < |ds| ensures ds[i].name !in Targets(ds[j]) {
      }
    }
    if forall i, j :: 0 <= i < j < |ds| ==> ds[i].name !in Targets(ds[j]) {
      forall i, j | 0 <= i < |out| && 0 <= j < |out| && out[j].name in Targets(out[i]) ensures j < i {
        var i', j' := |ds| - 1 - j, |ds| - 1 - i;
        assert ds[i'] == out[j] && ds[j'] == out[i];
        NoSelfTarget(out[i]);
      }
    }
  }

  lemma StandingFreeIff(prior: Schema, next: Schema)
    requires WellFormed(prior) && WellFormed(next)
    ensures StandingFree(prior, next)
            <==> KeptFree(prior, next) && Acyclic(Absent(prior.tables, next.tables, TableName))
  {
    hide Dropped, Targets, Standing, WellFormed, Absent, Acyclic, UniqueKeys;
    var ds := Dropped(prior, next);
    ReversedOrder(prior, next);
    DroppedTables(prior, next);
    if StandingFree(prior, next) {
      forall i, j | 0 <= i < j < |ds| ensures ds[i].name !in Targets(ds[j]) {
        StandingDropped(prior, next, i, j);
      }
      forall o, d | o in prior.tables && Find(next.tables, TableName, o.name).Some? &&
                    d in Absent(prior.tables, next.tables, TableName)
        ensures d.name !in Targets(o)
      {
        assert d in ds;
        var k :| 0 <= k < |ds| && ds[k] == d;
        StandingKept(prior, next, k, o);
      }
    }
    if KeptFree(prior, next) && Acyclic(Absent(prior.tables, next.tables, TableName)) {
      forall k, o | 0 <= k < |ds| && Standing(prior, next, k, o) ensures ds[k].name !in Targets(o) {
        FreeAt(prior, next, k, o);
      }
    }
  }

  lemma FreeAt(prior: Schema, next: Schema, k: nat, o: Table)
    requires WellFormed(prior) && KeptFree(prior, next) && k < |Dropped(prior, next)| && Standing(prior, next, k, o)
    requires forall i, j :: 0 <= i < j < |Dropped(prior, next)| ==>
               Dropped(prior, next)[i].name !in Targets(Dropped(prior, next)[j])
    ensures Dropped(prior, next)[k].name !in Targets(o)
  {
    hide Dropped, Targets, Absent;
    var ds := Dropped(prior, next);
    DroppedTables(prior, next);
    assert ds[k] in ds;
    if o in ds {
      var j :| 0 <= j < |ds| && ds[j] == o;
      StandingDropped(prior, next, k, j);
      NoSelfTarget(o);
    }
  }

  /**
   * No table is ever dropped while another one refers to it, exactly when no kept table of the old
   * schema refers to a dropped one and the dropped ones form no cycle.
   */
  lemma DropsUnreferencedIff(resolver: C.Resolver, prior: Schema, next: Schema)
    requires WellFormed(prior) && WellFormed(next)
    ensures Throughout(DBS, DbOf(prior), Diff(resolver, prior, next), DropUnreferenced)
            <==> KeptFree(prior, next) && Acyclic(Absent(prior.tables, next.tables, TableName))
  {
    hide Run, Throughout, Diff, DbOf, Wrap, RoleChanges, KeptChanges, Dropped, Created, AfterRoles, AfterDrops, Absent,
      AfterCreates, AfterKept, StandingFree, KeptFree, Acyclic, WellFormed;
    DropsFreeIff(prior, next);
    StandingFreeIff(prior, next);
    if Throughout(DBS, DbOf(prior), Diff(resolver, prior, next), DropUnreferenced) {
      ThroughoutPhases(resolver, prior, next, DropUnreferenced);
    }
    if StandingFree(prior, next) {
      RoleOnlyPhases(resolver, prior, next, DropUnreferenced);
      NoDropsLater(resolver, prior, next);
      ThroughoutDiff(resolver, prior, next, DropUnreferenced);
    }
  }

  lemma NoDropsLater(resolver: C.Resolver, prior: Schema, next: Schema)
    ensures Throughout(DBS, AfterDrops(prior, next), Wrap(WrapCreate, Created(prior, next)), DropUnreferenced)
    ensures Throughout(DBS, AfterCreates(prior, next), KeptChanges(resolver, next.tables, prior.tables), DropUnreferenced)
  {
    hide Run, Created, AfterDrops, AfterCreates, KeptChanges, EditFrom, Refers;
    var ds, es := Wrap(WrapCreate, Created(prior, next)), KeptChanges(resolver, next.tables, prior.tables);
    forall k | 0 <= k < |ds| ensures DropUnreferenced(Run(DBS, AfterDrops(prior, next), ds[..k]), ds[k]) {
      WrapAt(WrapCreate, Created(prior, next), k);
    }
    forall k | 0 <= k < |es| ensures DropUnreferenced(Run(DBS, AfterCreates(prior, next), es[..k]), es[k]) {
      var t := KeptChangesFrom(resolver, next.tables, prior.tables, k);
    }
  }

  // ----- Inputs on which a table is dropped under a reference --------------------------------------------

  const PLAIN := Attributes(false, false, false, None, None, None, None, None)

  function Reference(target: Name): Column {
    Column("r", "int", true, PLAIN.(references := Some(ForeignKey(target, "id", "cascade"))))
  }

  function Bare(name: Name, columns: seq<Column>): Table {
    Table(name, columns, false, false, [], [], [])
  }

  lemma BareIsFine(name: Name, columns: seq<Column>)
    requires |columns| <= 1
    ensures WellFormedTable(Bare(name, columns))
    ensures columns == [Reference("b")] && name == "a" ==> "b" in Targets(Bare(name, columns))
    ensures columns == [Reference("a")] && name == "b" ==> "a" in Targets(Bare(name, columns))
  {
    assert "a"[0] != "b"[0];
    if columns != [] {
      assert columns[0] in columns;
    }
  }

  lemma PairWellFormed(t: Table, u: Table)
    requires WellFormedTable(t) && WellFormedTable(u) && t.name != u.name
    ensures WellFormed(Schema([t, u], [])) && WellFormed(Schema([t], [])) && WellFormed(Schema([], []))
  {
    hide WellFormedTable;
  }

  /** A dropped table that a kept one still refers to. */
  lemma KeptReferenceBlocksDrop(resolver: C.Resolver)
    ensures var prior := Schema([Bare("a", [Reference("b")]), Bare("b", [])], []);
            var next := Schema([Bare("a", [])], []);
            && WellFormed(prior) && WellFormed(next)
            && !Throughout(DBS, DbOf(prior), Diff(resolver, prior, next), DropUnreferenced)
  {
    hide Throughout, Diff, DbOf, WellFormedTable, Targets, WellFormed;
    var a, b := Bare("a", [Reference("b")]), Bare("b", []);
    var prior, next := Schema([a, b], []), Schema([Bare("a", [])], []);
    assert "a"[0] != "b"[0];
    BareIsFine("a", [Reference("b")]);
    BareIsFine("b", []);
    BareIsFine("a", []);
    PairWellFormed(a, b);
    PairWellFormed(Bare("a", []), b);
    assert a in prior.tables && b in prior.tables;
    assert b in Absent(prior.tables, next.tables, TableName);
    assert !KeptFree(prior, next);
    DropsUnreferencedIff(resolver, prior, next);
  }

  /** Two dropped tables that refer to each other. */
  lemma CycleBlocksDrop(resolver: C.Resolver)
    ensures var prior := Schema([Bare("a", [Reference("b")]), Bare("b", [Reference("a")])], []);
            && WellFormed(prior) && WellFormed(Schema([], []))
            && !Throughout(DBS, DbOf(prior), Diff(resolver, prior, Schema([], [])), DropUnreferenced)
  {
    hide Throughout, Diff, DbOf, WellFormedTable, Targets, WellFormed;
    var a, b := Bare("a", [Reference("b")]), Bare("b", [Reference("a")]);
    var prior, next := Schema([a, b], []), Schema([], []);
    assert "a"[0] != "b"[0];
    BareIsFine("a", [Reference("b")]);
    BareIsFine("b", [Reference("a")]);
    PairWellFormed(a, b);
    assert a in prior.tables && b in prior.tables;
    var dropped := Absent(prior.tables, next.tables, TableName);
    assert a in dropped && b in dropped;
    hide Absent;
    forall rank ensures !Ranks(rank, dropped) {
    }
    DropsUnreferencedIff(resolver, prior, next);
  }
}
