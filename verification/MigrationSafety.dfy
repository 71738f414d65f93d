/**
 * What holds in every intermediate database of a migration, up or down: roles exist while they
 * are mentioned, foreign-key targets exist when they are needed, and when a dropped table may
 * still be referenced.
 */
module MigrationSafety {
  import opened Wrappers
  import opened SchemaModel
  import opened Machines
  import opened TopoSort
  import opened TableDiff
  import opened Migration
  import opened MigrationTheorems
  import K = KeyedDiff
  import G = GrantDiff
  import C = ColumnDiff

  // ----- Roles -------------------------------------------------------------------------------------------

  ghost predicate Mentions(s: TableState, role: Name) {
    role in s.grants || exists p :: p in s.policies && role in s.policies[p].roles
  }

  /** Every role a grant or a policy names exists. */
  ghost predicate RolesDeclared(db: Db) {
    forall t, role :: t in db.tables && Mentions(db.tables[t], role) ==> role in db.roles
  }

  ghost predicate DeclaresItsRoles(s: Schema) {
    forall t, role :: t in s.tables && Mentions(StateOf(t), role) ==> role in ByKey(s.roles, RoleName)
  }

  /** The change names only roles that exist, and drops none that is still named. */
  ghost predicate RoleSafe(db: Db, c: Change) {
    match c
    case CreateTable(t) => forall role :: Mentions(StateOf(t), role) ==> role in db.roles
    case OnTable(_, OnGrants(Give(role, _))) => role in db.roles
    case OnTable(_, OnPolicies(Put(p))) => forall role :: role in p.roles ==> role in db.roles
    case DropRole(r) => forall t :: t in db.tables ==> !Mentions(db.tables[t], r.name)
    case _ => true
  }

  lemma EditMentions(s: TableState, e: TableEdit, role: Name)
    requires Mentions(ApplyTable(s, e), role)
    ensures || Mentions(s, role)
            || (e.OnGrants? && e.grant.Give? && e.grant.role == role)
            || (e.OnPolicies? && e.policy.Put? && role in e.policy.value.roles)
  {
    hide C.ApplyColumn, G.Powers;
  }

  lemma RoleSafeKeeps(db: Db, c: Change)
    requires RolesDeclared(db) && FitsDb(db, c) && RoleSafe(db, c)
    ensures RolesDeclared(ApplyDb(db, c))
  {
    hide ApplyTable, FitsTable, StateOf, Mentions;
    var out := ApplyDb(db, c);
    forall t, role | t in out.tables && Mentions(out.tables[t], role) ensures role in out.roles {
      if c.OnTable? && t == c.name {
        EditMentions(db.tables[t], c.edit, role);
      }
    }
  }

  lemma {:induction false} AlwaysDeclared(db: Db, es: seq<Change>)
    requires RolesDeclared(db) && AllFit(DBS, db, es) && Throughout(DBS, db, es, RoleSafe)
    ensures Always(DBS, db, es, RolesDeclared)
  {
    hide RolesDeclared, FitsDb, RoleSafe, ApplyDb;
    forall k | 0 <= k <= |es| ensures RolesDeclared(Run(DBS, db, es[..k])) {
      DeclaredAt(db, es, k);
    }
  }

  lemma {:induction false} DeclaredAt(db: Db, es: seq<Change>, k: nat)
    requires k <= |es| && RolesDeclared(db) && AllFit(DBS, db, es) && Throughout(DBS, db, es, RoleSafe)
    ensures RolesDeclared(Run(DBS, db, es[..k]))
  {
    hide RolesDeclared, FitsDb, RoleSafe, ApplyDb;
    if k > 0 {
      DeclaredAt(db, es, k - 1);
      assert es[..k] == es[..k - 1] + [es[k - 1]];
      RunSnoc(DBS, db, es[..k - 1], es[k - 1]);
      assert DBS.fits(Run(DBS, db, es[..k - 1]), es[k - 1]);
      RoleSafeKeeps(Run(DBS, db, es[..k - 1]), es[k - 1]);
    }
  }

  predicate TouchesRoles(c: Change) { c.CreateRole? || c.DropRole? || c.AlterRole? }

  lemma {:induction false} RolesFixed(db: Db, es: seq<Change>, k: nat)
    requires k <= |es| && forall i :: 0 <= i < |es| ==> !TouchesRoles(es[i])
    ensures Run(DBS, db, es[..k]).roles == db.roles
  {
    hide StateOf, ApplyTable;
    if k > 0 {
      RolesFixed(db, es, k - 1);
      assert es[..k] == es[..k - 1] + [es[k - 1]];
      RunSnoc(DBS, db, es[..k - 1], es[k - 1]);
    }
  }

  lemma {:induction false} TablesFixed(db: Db, es: seq<Change>, k: nat)
    requires k <= |es| && forall i :: 0 <= i < |es| ==> TouchesRoles(es[i])
    ensures Run(DBS, db, es[..k]).tables == db.tables
  {
    hide StateOf, ApplyTable;
    if k > 0 {
      TablesFixed(db, es, k - 1);
      assert es[..k] == es[..k - 1] + [es[k - 1]];
      RunSnoc(DBS, db, es[..k - 1], es[k - 1]);
    }
  }

  // What each part of the list is made of.

  lemma {:induction false} RoleChangesOnly(news: seq<Role>, olds: seq<Role>, i: nat)
    requires i < |RoleChanges(news, olds)|
    ensures RoleChanges(news, olds)[i].CreateRole? || RoleChanges(news, olds)[i].AlterRole?
  {
    if news != [] {
      var n := |news| - 1;
      if i < |RoleChanges(news[..n], olds)| {
        RoleChangesOnly(news[..n], olds, i);
      }
    }
  }

  /** An edit of a kept table adds no column, grant or policy that the new table does not declare. */
  predicate EditFrom(t: Table, e: TableEdit) {
    && (e.OnColumns? && e.column.Add? ==> e.column.column in t.columns)
    && (e.OnGrants? && e.grant.Give? ==> exists i :: 0 <= i < |t.grants| && t.grants[i].role == e.grant.role)
    && (e.OnPolicies? && e.policy.Put? ==> e.policy.value in t.policies)
  }

  lemma {:induction false} AddsFromNew(resolver: C.Resolver, table: Name, added: seq<Column>, removed: seq<Column>, i: nat)
    requires i < |C.Fill(resolver, table, added, removed).edits|
    ensures C.Fill(resolver, table, added, removed).edits[i].Add? ==>
              C.Fill(resolver, table, added, removed).edits[i].column in added
    decreases |added|
  {
    if added != [] {
      match C.Source(resolver, table, added[0], removed)
      case Some(j) =>
        var head := C.Renaming(removed[j], added[0]);
        if i >= |head| {
          AddsFromNew(resolver, table, added[1..], Without(removed, j), i - |head|);
        }
      case None =>
        if i >= 1 {
          AddsFromNew(resolver, table, added[1..], removed, i - 1);
        }
    }
  }

  lemma {:induction false} RetypesOnly(news: seq<Column>, olds: seq<Column>, i: nat)
    requires i < |C.Retypes(news, olds)|
    ensures C.Retypes(news, olds)[i].Alter?
  {
    if news != [] && i < |C.Retypes(news[..|news| - 1], olds)| {
      RetypesOnly(news[..|news| - 1], olds, i);
    }
  }

  lemma {:induction false} DropsOnly(left: seq<Column>, i: nat)
    requires i < |C.Drops(left)|
    ensures C.Drops(left)[i].Drop?
  {
    if left != [] && i < |C.Drops(left[..|left| - 1])| {
      DropsOnly(left[..|left| - 1], i);
    }
  }

  lemma ColumnEditsFrom(resolver: C.Resolver, o: Table, t: Table, i: nat)
    requires i < |C.ColumnEdits(resolver, t.name, o.columns, t.columns)|
    ensures EditFrom(t, OnColumns(C.ColumnEdits(resolver, t.name, o.columns, t.columns)[i]))
  {
    hide C.Fill, C.Retypes, C.Drops, Absent;
    var added, removed := Absent(t.columns, o.columns, ColumnName), Absent(o.columns, t.columns, ColumnName);
    var filled := C.Fill(resolver, t.name, added, removed);
    var a, b := C.Retypes(t.columns, o.columns), filled.edits;
    if i < |a| {
      RetypesOnly(t.columns, o.columns, i);
    } else if i < |a| + |b| {
      AddsFromNew(resolver, t.name, added, removed, i - |a|);
    } else {
      DropsOnly(filled.left, i - |a| - |b|);
    }
  }

  lemma ColumnPhaseFrom(resolver: C.Resolver, o: Table, t: Table, i: nat)
    requires i < |ColumnPhase(resolver, o, t)|
    ensures EditFrom(t, ColumnPhase(resolver, o, t)[i])
  {
    hide C.ColumnEdits, EditFrom;
    ColumnEditsFrom(resolver, o, t, i);
    WrapAt(WrapColumn, C.ColumnEdits(resolver, t.name, o.columns, t.columns), i);
  }

  lemma {:induction false} GivesFromNew(news: seq<Grant>, olds: seq<Grant>, i: nat) returns (j: nat)
    requires i < |G.Regrants(news, olds)|
    ensures G.Regrants(news, olds)[i].Give? ==> j < |news| && news[j].role == G.Regrants(news, olds)[i].role
  {
    j := 0;
    if news != [] {
      var n := |news| - 1;
      if i < |G.Regrants(news[..n], olds)| {
        j := GivesFromNew(news[..n], olds, i);
      } else {
        j := n;
      }
    }
  }

  lemma {:induction false} WithdrawalsOnly(olds: seq<Grant>, news: seq<Grant>, i: nat)
    requires i < |G.Withdrawals(olds, news)|
    ensures G.Withdrawals(olds, news)[i].Revoke?
  {
    if olds != [] && i < |G.Withdrawals(olds[..|olds| - 1], news)| {
      WithdrawalsOnly(olds[..|olds| - 1], news, i);
    }
  }

  lemma GrantPhaseFrom(o: Table, t: Table, i: nat)
    requires i < |GrantPhase(o, t)|
    ensures EditFrom(t, GrantPhase(o, t)[i])
  {
    hide G.Regrants, G.Withdrawals;
    var a := G.Regrants(t.grants, o.grants);
    WrapAt(WrapGrant, G.GrantEdits(o.grants, t.grants), i);
    if i < |a| {
      var j := GivesFromNew(t.grants, o.grants, i);
    } else {
      WithdrawalsOnly(o.grants, t.grants, i - |a|);
    }
  }

  lemma {:induction false} PutsFromNew<T>(xs: seq<T>, others: seq<T>, key: T -> Name, i: nat)
    ensures i < |K.Insertions(xs, others, key)| ==>
              K.Insertions(xs, others, key)[i].Put? && K.Insertions(xs, others, key)[i].value in xs
    ensures i < |K.Removals(xs, others, key)| ==> K.Removals(xs, others, key)[i].Take?
  {
    if xs != [] {
      PutsFromNew(xs[..|xs| - 1], others, key, i);
      assert xs == xs[..|xs| - 1] + [xs[|xs| - 1]];
    }
  }

  lemma PolicyPhaseFrom(o: Table, t: Table, i: nat)
    requires i < |PolicyPhase(o, t)|
    ensures EditFrom(t, PolicyPhase(o, t)[i])
  {
    hide K.Removals, K.Insertions;
    var a := K.Removals(o.policies, t.policies, PolicyName);
    WrapAt(WrapPolicy, K.KeyedEdits(o.policies, t.policies, PolicyName), i);
    PutsFromNew(o.policies, t.policies, PolicyName, i);
    if i >= |a| {
      PutsFromNew(t.policies, o.policies, PolicyName, i - |a|);
    }
  }

  lemma TableEditsFrom(resolver: C.Resolver, o: Table, t: Table, i: nat)
    requires i < |TableEdits(resolver, o, t)|
    ensures EditFrom(t, TableEdits(resolver, o, t)[i])
  {
    var a, b, c, d, e :=
      ColumnPhase(resolver, o, t), FlagPhase(o, t), GrantPhase(o, t), PolicyPhase(o, t), IndexPhase(o, t);
    hide ColumnPhase, GrantPhase, PolicyPhase, K.KeyedEdits, EditFrom;
    if i < |a| {
      ColumnPhaseFrom(resolver, o, t, i);
    } else if i < |a| + |b| {
      FlagsFrom(t, b[i - |a|]);
    } else if i < |a| + |b| + |c| {
      GrantPhaseFrom(o, t, i - |a| - |b|);
    } else if i < |a| + |b| + |c| + |d| {
      PolicyPhaseFrom(o, t, i - |a| - |b| - |c|);
    } else {
      var j := i - |a| - |b| - |c| - |d|;
      WrapAt(WrapIndex, K.KeyedEdits(o.indexes, t.indexes, IndexName), j);
      FlagsFrom(t, e[j]);
    }
  }

  lemma FlagsFrom(t: Table, e: TableEdit)
    requires e.SetRls? || e.SetForceRls? || e.OnIndexes?
    ensures EditFrom(t, e)
  {
  }

  lemma {:induction false} KeptChangesFrom(resolver: C.Resolver, news: seq<Table>, olds: seq<Table>, i: nat) returns (t: Table)
    requires i < |KeptChanges(resolver, news, olds)|
    ensures t in news && KeptChanges(resolver, news, olds)[i].OnTable?
    ensures KeptChanges(resolver, news, olds)[i].name == t.name && Find(olds, TableName, t.name).Some?
    ensures EditFrom(t, KeptChanges(resolver, news, olds)[i].edit)
  {
    hide TableEdits, EditFrom, Find;
    var n := |news| - 1;
    var before := KeptChanges(resolver, news[..n], olds);
    if i < |before| {
      t := KeptChangesFrom(resolver, news[..n], olds, i);
    } else {
      t := news[n];
      TableEditsFrom(resolver, Find(olds, TableName, t.name).value, t, i - |before|);
    }
  }

  /** Phase by phase, a property of every change and the database it meets. */
  lemma ThroughoutDiff(resolver: C.Resolver, prior: Schema, next: Schema, q: (Db, Change) -> bool)
    requires WellFormed(prior) && WellFormed(next)
    requires Throughout(DBS, DbOf(prior), RoleChanges(next.roles, prior.roles), q)
    requires Throughout(DBS, AfterRoles(prior, next), Wrap(WrapDrop, Dropped(prior, next)), q)
    requires Throughout(DBS, AfterDrops(prior, next), Wrap(WrapCreate, Created(prior, next)), q)
    requires Throughout(DBS, AfterCreates(prior, next), KeptChanges(resolver, next.tables, prior.tables), q)
    requires Throughout(DBS, AfterKept(resolver, prior, next),
                        Wrap(WrapRoleDrop, Absent(prior.roles, next.roles, RoleName)), q)
    ensures Throughout(DBS, DbOf(prior), Diff(resolver, prior, next), q)
  {
    hide Run, AllFit, Throughout, Wrap, RoleChanges, KeptChanges, Dropped, Created, Absent, WellFormed, DbOf,
      AfterRoles, AfterDrops, AfterCreates, AfterAll;
    RolesPhase(prior, next);
    DropPhase(prior, next);
    CreatePhase(prior, next);
    KeptPhase(resolver, prior, next);
    var db := DbOf(prior);
    var a, b, c, d, e := RoleChanges(next.roles, prior.roles), Wrap(WrapDrop, Dropped(prior, next)),
                         Wrap(WrapCreate, Created(prior, next)), KeptChanges(resolver, next.tables, prior.tables),
                         Wrap(WrapRoleDrop, Absent(prior.roles, next.roles, RoleName));
    ThroughoutConcat(DBS, db, a, b, q);
    RunConcat(DBS, db, a, b);
    ThroughoutConcat(DBS, db, a + b, c, q);
    RunConcat(DBS, db, a + b, c);
    ThroughoutConcat(DBS, db, a + b + c, d, q);
    RunConcat(DBS, db, a + b + c, d);
    ThroughoutConcat(DBS, db, a + b + c + d, e, q);
  }

  lemma NewRolesThere(prior: Schema, next: Schema, t: Table, role: Name)
    requires DeclaresItsRoles(next) && t in next.tables && Mentions(StateOf(t), role)
    ensures role in AfterRoles(prior, next).roles
  {
  }

  lemma CreatesRoleSafe(prior: Schema, next: Schema)
    requires WellFormed(prior) && WellFormed(next) && DeclaresItsRoles(next)
    ensures Throughout(DBS, AfterDrops(prior, next), Wrap(WrapCreate, Created(prior, next)), RoleSafe)
  {
    hide Run, StateOf, Mentions, DeclaresItsRoles, WellFormed, Created, Dropped, StatesOf;
    hide Wrap, AfterDrops;
    var ts, db := Created(prior, next), AfterDrops(prior, next);
    var es := Wrap(WrapCreate, ts);
    CreatedTables(prior, next);
    WrapLength(WrapCreate, ts);
    forall k | 0 <= k < |es| ensures es[k] == CreateTable(ts[k]) {
      WrapAt(WrapCreate, ts, k);
    }
    forall k | 0 <= k < |es| ensures RoleSafe(Run(DBS, db, es[..k]), es[k]) {
      RolesFixed(db, es, k);
      CreateIsSafe(prior, next, Run(DBS, db, es[..k]), ts[k]);
    }
  }

  lemma CreateIsSafe(prior: Schema, next: Schema, db: Db, t: Table)
    requires WellFormed(next) && DeclaresItsRoles(next) && t in Created(prior, next)
    requires db.roles == AfterDrops(prior, next).roles
    ensures RoleSafe(db, CreateTable(t))
  {
    hide StateOf, Mentions, DeclaresItsRoles, WellFormed, Created, Dropped, StatesOf;
    CreatedTables(prior, next);
    forall role | Mentions(StateOf(t), role) ensures role in db.roles {
      NewRolesThere(prior, next, t, role);
    }
  }

  lemma EditMentionsDeclared(t: Table, e: TableEdit, role: Name)
    requires WellFormedTable(t) && EditFrom(t, e)
    requires (e.OnGrants? && e.grant.Give? && e.grant.role == role)
             || (e.OnPolicies? && e.policy.Put? && role in e.policy.value.roles)
    ensures Mentions(StateOf(t), role)
  {
    if e.OnGrants? {
      var i :| 0 <= i < |t.grants| && t.grants[i].role == role;
      G.DenoteOf(t.grants, i);
    } else {
      ByKeyIn(t.policies, PolicyName, e.policy.value);
    }
  }

  lemma KeptRoleSafe(resolver: C.Resolver, prior: Schema, next: Schema)
    requires WellFormed(prior) && WellFormed(next) && DeclaresItsRoles(next)
    ensures Throughout(DBS, AfterCreates(prior, next), KeptChanges(resolver, next.tables, prior.tables), RoleSafe)
  {
    hide Run, StateOf, Mentions, DeclaresItsRoles, Created, Dropped, StatesOf, KeptChanges, EditFrom, WellFormedTable, Find;
    var db, es := AfterCreates(prior, next), KeptChanges(resolver, next.tables, prior.tables);
    forall i | 0 <= i < |es| ensures !TouchesRoles(es[i]) {
      var t := KeptChangesFrom(resolver, next.tables, prior.tables, i);
    }
    forall k | 0 <= k < |es| ensures RoleSafe(Run(DBS, db, es[..k]), es[k]) {
      RolesFixed(db, es, k);
      var t := KeptChangesFrom(resolver, next.tables, prior.tables, k);
      var e := es[k].edit;
      forall role | (e.OnGrants? && e.grant.Give? && e.grant.role == role)
                    || (e.OnPolicies? && e.policy.Put? && role in e.policy.value.roles)
        ensures role in db.roles
      {
        EditMentionsDeclared(t, e, role);
        NewRolesThere(prior, next, t, role);
      }
    }
  }

  /** At the end every mention is one the new schema makes. */
  lemma FinalMentions(db: Db, prior: Schema, next: Schema, name: Name, role: Name)
    requires Reaches(db, prior, next) && DeclaresItsRoles(next)
    requires name in db.tables && Mentions(db.tables[name], role)
    ensures role in ByKey(next.roles, RoleName)
  {
    var t :| t in next.tables && t.name == name;
    assert Mentions(StateOf(t), role);
  }

  /** When roles are dropped no table mentions a role the new schema lacks. */
  lemma DroppedUnmentioned(resolver: C.Resolver, prior: Schema, next: Schema, r: Role, name: Name)
    requires WellFormed(prior) && WellFormed(next) && DeclaresItsRoles(next)
    requires r in Absent(prior.roles, next.roles, RoleName) && name in AfterKept(resolver, prior, next).tables
    ensures !Mentions(AfterKept(resolver, prior, next).tables[name], r.name)
  {
    hide Run, StateOf, Mentions, DeclaresItsRoles, Reaches, AllFit, Diff, Absent, AfterKept, DbOf, ByKey;
    DiffCorrect(resolver, prior, next);
    DiffRuns(resolver, prior, next);
    FindIsLookup(next.roles, RoleName, r.name);
    if Mentions(AfterKept(resolver, prior, next).tables[name], r.name) {
      FinalMentions(AfterAll(resolver, prior, next), prior, next, name, r.name);
    }
  }

  lemma RoleDropsSafe(resolver: C.Resolver, prior: Schema, next: Schema)
    requires WellFormed(prior) && WellFormed(next) && DeclaresItsRoles(next)
    ensures Throughout(DBS, AfterKept(resolver, prior, next),
                       Wrap(WrapRoleDrop, Absent(prior.roles, next.roles, RoleName)), RoleSafe)
  {
    hide Run, StateOf, Mentions, DeclaresItsRoles, Absent, AfterKept, WellFormed, Wrap;
    var db, rs := AfterKept(resolver, prior, next), Absent(prior.roles, next.roles, RoleName);
    var es := Wrap(WrapRoleDrop, rs);
    forall i | 0 <= i < |rs| ensures i < |es| && es[i] == DropRole(rs[i]) && |es| == |rs| {
      WrapAt(WrapRoleDrop, rs, i);
    }
    WrapLength(WrapRoleDrop, rs);
    forall k | 0 <= k < |es| ensures RoleSafe(Run(DBS, db, es[..k]), es[k]) {
      TablesFixed(db, es, k);
      assert rs[k] in rs;
      forall t | t in db.tables ensures !Mentions(db.tables[t], rs[k].name) {
        DroppedUnmentioned(resolver, prior, next, rs[k], t);
      }
    }
  }

  lemma WrapLength<F>(wrap: F -> Change, fs: seq<F>)
    ensures |Wrap(wrap, fs)| == |fs|
  {
  }

  lemma EarlyRoleSafe(prior: Schema, next: Schema)
    ensures Throughout(DBS, DbOf(prior), RoleChanges(next.roles, prior.roles), RoleSafe)
    ensures Throughout(DBS, AfterRoles(prior, next), Wrap(WrapDrop, Dropped(prior, next)), RoleSafe)
  {
    hide Run, StateOf, Mentions, RoleChanges, Dropped, DbOf, AfterRoles;
    var es, ds := RoleChanges(next.roles, prior.roles), Wrap(WrapDrop, Dropped(prior, next));
    forall k | 0 <= k < |es| ensures RoleSafe(Run(DBS, DbOf(prior), es[..k]), es[k]) {
      RoleChangesOnly(next.roles, prior.roles, k);
    }
    forall k | 0 <= k < |ds| ensures RoleSafe(Run(DBS, AfterRoles(prior, next), ds[..k]), ds[k]) {
      WrapAt(WrapDrop, Dropped(prior, next), k);
    }
  }

  lemma OldDeclared(prior: Schema)
    requires WellFormed(prior) && DeclaresItsRoles(prior)
    ensures RolesDeclared(DbOf(prior))
  {
    hide StateOf, Mentions, ByKey;
    forall n, role | n in DbOf(prior).tables && Mentions(DbOf(prior).tables[n], role) ensures role in DbOf(prior).roles {
      StatesOfKeys(prior.tables);
      var t :| t in prior.tables && t.name == n;
      StatesOfIn(prior.tables, t);
    }
  }

  /** In every database on the way up, and on the way down, each role named by a grant or policy exists. */
  lemma RolesAlwaysExist(resolver: C.Resolver, prior: Schema, next: Schema)
    requires WellFormed(prior) && WellFormed(next) && DeclaresItsRoles(prior) && DeclaresItsRoles(next)
    ensures Always(DBS, DbOf(prior), Diff(resolver, prior, next), RolesDeclared)
    ensures var es, db := Diff(resolver, prior, next), DbOf(prior);
            forall k :: 0 <= k <= |es| ==> RolesDeclared(Rewind(DBS, Run(DBS, db, es), es[k..]))
  {
    hide Run, Rewind, Diff, AllFit, Throughout, WellFormed, DbOf, RolesDeclared, DeclaresItsRoles, Reversible, Always,
      RoleChanges, KeptChanges, Dropped, Created, Absent, Wrap, AfterRoles, AfterDrops, AfterCreates;
    var es, db := Diff(resolver, prior, next), DbOf(prior);
    EarlyRoleSafe(prior, next);
    CreatesRoleSafe(prior, next);
    KeptRoleSafe(resolver, prior, next);
    RoleDropsSafe(resolver, prior, next);
    ThroughoutDiff(resolver, prior, next, RoleSafe);
    DiffRuns(resolver, prior, next);
    OldDeclared(prior);
    AlwaysDeclared(db, es);
    DbsReversible();
    forall k | 0 <= k <= |es| ensures RolesDeclared(Rewind(DBS, Run(DBS, db, es), es[k..])) {
      RewindRetraces(DBS, db, es, k);
      AlwaysAt(DBS, db, es, RolesDeclared, k);
    }
  }
}
