/**
 * No change is made for nothing: each change of the list names something the two schemas declare
 * differently, and the list is empty exactly when they declare the same.
 */
module MigrationNeeded {
  import opened Wrappers
  import opened SchemaModel
  import opened Machines
  import opened TopoSort
  import opened TableDiff
  import opened Migration
  import opened MigrationTheorems
  import K = KeyedDiff
  import G = GrantDiff
  import C = ColumnDiff

  /** No entry has that key. */
  ghost predicate Lacks<T(!new)>(xs: seq<T>, key: T -> Name, name: Name) {
    forall x :: x in xs ==> key(x) != name
  }

  // ----- Which edits are called for -------------------------------------------------------------------

  /** A column that goes, under its old name, and one that comes, under its new one. */
  ghost predicate Replaces(olds: seq<Column>, news: seq<Column>, o: Column, c: Column) {
    && o in olds && Lacks(news, ColumnName, o.name)
    && c in news && Lacks(olds, ColumnName, c.name)
  }

  ghost predicate RenamedFrom(olds: seq<Column>, news: seq<Column>, before: Column, after: Column) {
    exists o :: Replaces(olds, news, o, after) && before == o.(name := after.name)
  }

  ghost predicate ColumnNeeds(olds: seq<Column>, news: seq<Column>, e: C.ColumnEdit) {
    match e
    case Add(c) => c in news && Lacks(olds, ColumnName, c.name)
    case Drop(c) => c in olds && Lacks(news, ColumnName, c.name)
    case Alter(before, after) =>
      && TypeDiffers(before, after) && before.name == after.name && after in news
      && (before in olds || RenamedFrom(olds, news, before, after))
    case Rename(from, to) => exists o, c :: Replaces(olds, news, o, c) && o.name == from && c.name == to
  }

  /** The role is granted just these powers. */
  ghost predicate GrantsJust(gs: seq<Grant>, role: Name, powers: set<G.Power>) {
    exists g :: g in gs && g.role == role && G.Powers(g.privileges) == powers
  }

  ghost predicate GrantNeeds(olds: seq<Grant>, news: seq<Grant>, e: G.GrantEdit) {
    match e
    case Give(role, ps) => GrantsJust(news, role, G.Powers(ps)) && !GrantsJust(olds, role, G.Powers(ps))
    case Revoke(role, ps) => GrantsJust(olds, role, G.Powers(ps)) && !GrantsJust(news, role, G.Powers(ps))
  }

  predicate KeyedNeeds<T(==)>(olds: seq<T>, news: seq<T>, e: K.KeyedEdit<T>) {
    match e
    case Take(x) => x in olds && x !in news
    case Put(x) => x in news && x !in olds
  }

  ghost predicate TableNeeds(o: Table, t: Table, e: TableEdit) {
    match e
    case OnColumns(f) => ColumnNeeds(o.columns, t.columns, f)
    case SetRls(b) => o.rls != b && t.rls == b
    case SetForceRls(b) => o.forceRls != b && t.forceRls == b
    case OnGrants(f) => GrantNeeds(o.grants, t.grants, f)
    case OnPolicies(f) => KeyedNeeds(o.policies, t.policies, f)
    case OnIndexes(f) => KeyedNeeds(o.indexes, t.indexes, f)
  }

  /** The table of that name in both schemas. */
  ghost predicate Kept(prior: Schema, next: Schema, name: Name, o: Table, t: Table) {
    o in prior.tables && t in next.tables && o.name == t.name == name
  }

  ghost predicate Needs(prior: Schema, next: Schema, c: Change) {
    match c
    case CreateTable(t) => t in next.tables && Lacks(prior.tables, TableName, t.name)
    case DropTable(t) => t in prior.tables && Lacks(next.tables, TableName, t.name)
    case OnTable(name, e) => exists o, t :: Kept(prior, next, name, o, t) && TableNeeds(o, t, e)
    case CreateRole(r) => r in next.roles && Lacks(prior.roles, RoleName, r.name)
    case DropRole(r) => r in prior.roles && Lacks(next.roles, RoleName, r.name)
    case AlterRole(before, after) =>
      before in prior.roles && after in next.roles && before.name == after.name && before != after
  }

  // ----- Columns -----------------------------------------------------------------------------------------

  lemma {:induction false} InRetypes(news: seq<Column>, olds: seq<Column>, e: C.ColumnEdit) returns (c: Column)
    requires e in C.Retypes(news, olds)
    ensures c in news && e in C.Retype(c, olds)
  {
    hide C.Retype;
    var n := |news| - 1;
    if e in C.Retype(news[n], olds) {
      c := news[n];
    } else {
      c := InRetypes(news[..n], olds, e);
    }
  }

  lemma InRetype(c: Column, olds: seq<Column>, news: seq<Column>, e: C.ColumnEdit)
    requires c in news && e in C.Retype(c, olds)
    ensures ColumnNeeds(olds, news, e)
  {
  }

  /** What filling the added columns from the removed ones can ask for. */
  ghost predicate FillNeeds(added: seq<Column>, removed: seq<Column>, e: C.ColumnEdit) {
    match e
    case Add(c) => c in added
    case Rename(from, to) => exists o, c :: o in removed && c in added && o.name == from && c.name == to
    case Alter(before, after) =>
      TypeDiffers(before, after) && after in added && exists o :: o in removed && before == o.(name := after.name)
    case Drop(_) => false
  }

  lemma FillMore(added: seq<Column>, removed: seq<Column>, more: seq<Column>, others: seq<Column>, e: C.ColumnEdit)
    requires FillNeeds(added, removed, e)
    requires (forall c :: c in added ==> c in more) && (forall o :: o in removed ==> o in others)
    ensures FillNeeds(more, others, e)
  {
  }

  lemma InRenaming(o: Column, c: Column, added: seq<Column>, removed: seq<Column>, e: C.ColumnEdit)
    requires o in removed && c in added && e in C.Renaming(o, c)
    ensures FillNeeds(added, removed, e)
  {
    var whole := [C.Rename(o.name, c.name)] + (if TypeDiffers(o, c) then [C.Alter(o.(name := c.name), c)] else []);
    assert e == whole[0] || (|whole| == 2 && e == whole[1]);
  }

  lemma WithoutIn(removed: seq<Column>, i: nat)
    requires i < |removed|
    ensures forall o :: o in Without(removed, i) ==> o in removed
  {
  }

  lemma {:induction false} InFill(resolver: C.Resolver, table: Name, added: seq<Column>, removed: seq<Column>, e: C.ColumnEdit)
    requires e in C.Fill(resolver, table, added, removed).edits
    ensures FillNeeds(added, removed, e)
  {
    hide C.Source, C.Renaming, FillNeeds, Without;
    var source := C.Source(resolver, table, added[0], removed);
    assert forall c :: c in added[1..] ==> c in added;
    if source.Some? {
      var left := Without(removed, source.value);
      WithoutIn(removed, source.value);
      if e in C.Renaming(removed[source.value], added[0]) {
        InRenaming(removed[source.value], added[0], added, removed, e);
      } else {
        InFill(resolver, table, added[1..], left, e);
        FillMore(added[1..], left, added, removed, e);
      }
    } else if e in C.Fill(resolver, table, added[1..], removed).edits {
      InFill(resolver, table, added[1..], removed, e);
      FillMore(added[1..], removed, added, removed, e);
    } else {
      assert e == C.Add(added[0]);
      AddedNeeds(added, removed);
    }
  }

  lemma AddedNeeds(added: seq<Column>, removed: seq<Column>)
    requires added != []
    ensures FillNeeds(added, removed, C.Add(added[0]))
  {
  }

  lemma {:induction false} LeftIn(resolver: C.Resolver, table: Name, added: seq<Column>, removed: seq<Column>)
    ensures forall o :: o in C.Fill(resolver, table, added, removed).left ==> o in removed
  {
    hide C.Source, C.Renaming, Without;
    if added != [] {
      var source := C.Source(resolver, table, added[0], removed);
      if source.Some? {
        WithoutIn(removed, source.value);
        LeftIn(resolver, table, added[1..], Without(removed, source.value));
      } else {
        LeftIn(resolver, table, added[1..], removed);
      }
    }
  }

  lemma {:induction false} InDrops(left: seq<Column>, e: C.ColumnEdit)
    requires e in C.Drops(left)
    ensures e.Drop? && e.column in left
  {
    var n := |left| - 1;
    assert left == left[..n] + [left[n]];
    if e != C.Drop(left[n]) {
      InDrops(left[..n], e);
    }
  }

  lemma FilledNeeds(olds: seq<Column>, news: seq<Column>, e: C.ColumnEdit)
    requires FillNeeds(Absent(news, olds, ColumnName), Absent(olds, news, ColumnName), e)
    ensures ColumnNeeds(olds, news, e)
  {
    hide Absent;
    var added, removed := Absent(news, olds, ColumnName), Absent(olds, news, ColumnName);
    forall o, c | o in removed && c in added ensures Replaces(olds, news, o, c) {
    }
  }

  lemma ColumnsNeeded(resolver: C.Resolver, table: Name, olds: seq<Column>, news: seq<Column>, e: C.ColumnEdit)
    requires e in C.ColumnEdits(resolver, table, olds, news)
    ensures ColumnNeeds(olds, news, e)
  {
    hide C.Retypes, C.Fill, C.Drops, Absent, ColumnNeeds, FillNeeds;
    var added, removed := Absent(news, olds, ColumnName), Absent(olds, news, ColumnName);
    var filled := C.Fill(resolver, table, added, removed);
    if e in C.Retypes(news, olds) {
      var c := InRetypes(news, olds, e);
      InRetype(c, olds, news, e);
    } else if e in filled.edits {
      InFill(resolver, table, added, removed, e);
      FilledNeeds(olds, news, e);
    } else {
      InDrops(filled.left, e);
      LeftIn(resolver, table, added, removed);
      DropNeeds(olds, news, e);
    }
  }

  lemma DropNeeds(olds: seq<Column>, news: seq<Column>, e: C.ColumnEdit)
    requires e.Drop? && e.column in Absent(olds, news, ColumnName)
    ensures ColumnNeeds(olds, news, e)
  {
    hide Absent;
  }

  // ----- Grants, policies and indexes ------------------------------------------------------------------------

  lemma OnlyGrant(gs: seq<Grant>, g: Grant, powers: set<G.Power>)
    requires UniqueKeys(gs, GrantRole) && g in gs
    ensures GrantsJust(gs, g.role, powers) <==> G.Powers(g.privileges) == powers
  {
    hide G.Powers;
    var i :| 0 <= i < |gs| && gs[i] == g;
    forall h | h in gs && h.role == g.role ensures h == g {
      var j :| 0 <= j < |gs| && gs[j] == h;
      assert GrantRole(gs[i]) == GrantRole(gs[j]);
    }
  }

  lemma NoGrant(gs: seq<Grant>, role: Name, powers: set<G.Power>)
    requires Find(gs, GrantRole, role).None?
    ensures !GrantsJust(gs, role, powers)
  {
    hide G.Powers, Find;
    forall g | g in gs ensures g.role != role {
      assert GrantRole(g) != role;
    }
  }

  lemma InRegrant(g: Grant, olds: seq<Grant>, news: seq<Grant>, e: G.GrantEdit)
    requires UniqueKeys(olds, GrantRole) && UniqueKeys(news, GrantRole) && g in news && e in G.Regrant(g, olds)
    ensures GrantNeeds(olds, news, e)
  {
    hide G.Powers, G.Canonical, GrantsJust, Find;
    G.CanonicalConfersTheSame(g.privileges);
    OnlyGrant(news, g, G.Powers(g.privileges));
    var found := Find(olds, GrantRole, g.role);
    if found.None? {
      NoGrant(olds, g.role, G.Powers(g.privileges));
      assert e == G.Give(g.role, G.Canonical(g.privileges));
    } else {
      var previous := found.value;
      G.CanonicalConfersTheSame(previous.privileges);
      G.CanonicalEqualIff(previous.privileges, g.privileges);
      OnlyGrant(olds, previous, G.Powers(previous.privileges));
      OnlyGrant(olds, previous, G.Powers(g.privileges));
      OnlyGrant(news, g, G.Powers(previous.privileges));
    }
  }

  lemma {:induction false} InRegrants(news: seq<Grant>, olds: seq<Grant>, e: G.GrantEdit) returns (g: Grant)
    requires e in G.Regrants(news, olds)
    ensures g in news && e in G.Regrant(g, olds)
  {
    hide G.Regrant;
    var n := |news| - 1;
    if e in G.Regrant(news[n], olds) {
      g := news[n];
    } else {
      g := InRegrants(news[..n], olds, e);
    }
  }

  lemma {:induction false} InWithdrawals(olds: seq<Grant>, news: seq<Grant>, e: G.GrantEdit) returns (g: Grant)
    requires e in G.Withdrawals(olds, news)
    ensures g in olds && e in G.Withdrawal(g, news)
  {
    hide G.Withdrawal;
    var n := |olds| - 1;
    if e in G.Withdrawal(olds[n], news) {
      g := olds[n];
    } else {
      g := InWithdrawals(olds[..n], news, e);
    }
  }

  lemma GrantsNeeded(olds: seq<Grant>, news: seq<Grant>, e: G.GrantEdit)
    requires UniqueKeys(olds, GrantRole) && UniqueKeys(news, GrantRole) && e in G.GrantEdits(olds, news)
    ensures GrantNeeds(olds, news, e)
  {
    hide G.Powers, G.Canonical, GrantsJust, Find, G.Regrants, G.Withdrawals, G.Regrant;
    if e in G.Regrants(news, olds) {
      var g := InRegrants(news, olds, e);
      InRegrant(g, olds, news, e);
    } else {
      var g := InWithdrawals(olds, news, e);
      G.CanonicalConfersTheSame(g.privileges);
      OnlyGrant(olds, g, G.Powers(g.privileges));
      NoGrant(news, g.role, G.Powers(g.privileges));
    }
  }

  lemma {:induction false} InRemovals<T>(xs: seq<T>, others: seq<T>, key: T -> Name, e: K.KeyedEdit<T>)
    requires e in K.Removals(xs, others, key)
    ensures e.Take? && e.value in xs && K.Differs(e.value, others, key)
  {
    hide K.Differs;
    var n := |xs| - 1;
    assert xs == xs[..n] + [xs[n]];
    if e in K.Removals(xs[..n], others, key) {
      InRemovals(xs[..n], others, key, e);
    }
  }

  lemma {:induction false} InInsertions<T>(xs: seq<T>, others: seq<T>, key: T -> Name, e: K.KeyedEdit<T>)
    requires e in K.Insertions(xs, others, key)
    ensures e.Put? && e.value in xs && K.Differs(e.value, others, key)
  {
    hide K.Differs;
    var n := |xs| - 1;
    assert xs == xs[..n] + [xs[n]];
    if e in K.Insertions(xs[..n], others, key) {
      InInsertions(xs[..n], others, key, e);
    }
  }

  lemma DiffersIff<T>(x: T, others: seq<T>, key: T -> Name)
    requires UniqueKeys(others, key)
    ensures K.Differs(x, others, key) <==> x !in others
  {
    hide Find;
    if x in others {
      var i :| 0 <= i < |others| && others[i] == x;
      var found := Find(others, key, key(x));
      var j :| 0 <= j < |others| && others[j] == found.value;
    }
  }

  lemma KeyedNeeded<T>(olds: seq<T>, news: seq<T>, key: T -> Name, e: K.KeyedEdit<T>)
    requires UniqueKeys(olds, key) && UniqueKeys(news, key) && e in K.KeyedEdits(olds, news, key)
    ensures KeyedNeeds(olds, news, e)
  {
    hide K.Removals, K.Insertions, K.Differs, UniqueKeys;
    if e in K.Removals(olds, news, key) {
      InRemovals(olds, news, key, e);
      DiffersIff(e.value, news, key);
    } else {
      InInsertions(news, olds, key, e);
      DiffersIff(e.value, olds, key);
    }
  }

  // ----- Tables ---------------------------------------------------------------------------------------------------

  lemma InWrap<E, F>(wrap: F -> E, fs: seq<F>, e: E) returns (f: F)
    requires e in Wrap(wrap, fs)
    ensures f in fs && wrap(f) == e
  {
    var i :| 0 <= i < |Wrap(wrap, fs)| && Wrap(wrap, fs)[i] == e;
    f := fs[i];
  }

  lemma TableNeeded(resolver: C.Resolver, o: Table, t: Table, e: TableEdit)
    requires WellFormedTable(o) && WellFormedTable(t) && e in TableEdits(resolver, o, t)
    ensures TableNeeds(o, t, e)
  {
    hide Wrap, C.ColumnEdits, G.GrantEdits, K.KeyedEdits, ColumnNeeds, GrantNeeds, KeyedNeeds, UniqueKeys;
    if e in ColumnPhase(resolver, o, t) {
      var f := InWrap(WrapColumn, C.ColumnEdits(resolver, t.name, o.columns, t.columns), e);
      ColumnsNeeded(resolver, t.name, o.columns, t.columns, f);
    } else if e in FlagPhase(o, t) {
      FlagNeeded(o, t, e);
    } else if e in GrantPhase(o, t) {
      var f := InWrap(WrapGrant, G.GrantEdits(o.grants, t.grants), e);
      GrantsNeeded(o.grants, t.grants, f);
    } else if e in PolicyPhase(o, t) {
      var f := InWrap(WrapPolicy, K.KeyedEdits(o.policies, t.policies, PolicyName), e);
      KeyedNeeded(o.policies, t.policies, PolicyName, f);
    } else {
      var f := InWrap(WrapIndex, K.KeyedEdits(o.indexes, t.indexes, IndexName), e);
      KeyedNeeded(o.indexes, t.indexes, IndexName, f);
    }
  }

  lemma FlagNeeded(o: Table, t: Table, e: TableEdit)
    requires e in FlagPhase(o, t)
    ensures TableNeeds(o, t, e)
  {
  }

  // ----- The whole list --------------------------------------------------------------------------------------------

  lemma {:induction false} InRoleChanges(news: seq<Role>, olds: seq<Role>, c: Change) returns (r: Role)
    requires c in RoleChanges(news, olds)
    ensures r in news && c in RoleChange(r, olds)
  {
    hide RoleChange;
    var n := |news| - 1;
    if c in RoleChange(news[n], olds) {
      r := news[n];
    } else {
      r := InRoleChanges(news[..n], olds, c);
    }
  }

  lemma RoleNeeded(prior: Schema, next: Schema, r: Role, c: Change)
    requires r in next.roles && c in RoleChange(r, prior.roles)
    ensures Needs(prior, next, c)
  {
  }

  lemma {:induction false} InKeptChanges(resolver: C.Resolver, news: seq<Table>, olds: seq<Table>, c: Change) returns (t: Table)
    requires c in KeptChanges(resolver, news, olds)
    ensures t in news && c in KeptChange(resolver, t, olds)
  {
    hide KeptChange;
    var n := |news| - 1;
    if c in KeptChange(resolver, news[n], olds) {
      t := news[n];
    } else {
      t := InKeptChanges(resolver, news[..n], olds, c);
    }
  }

  lemma KeptNeeded(resolver: C.Resolver, prior: Schema, next: Schema, t: Table, c: Change)
    requires WellFormed(prior) && WellFormed(next) && t in next.tables && c in KeptChange(resolver, t, prior.tables)
    ensures Needs(prior, next, c)
  {
    hide Wrap, TableEdits, TableNeeds, WellFormedTable, UniqueKeys, Find;
    var o := Find(prior.tables, TableName, t.name).value;
    var e := InWrap(TablePart(t.name).wrap, TableEdits(resolver, o, t), c);
    TableNeeded(resolver, o, t, e);
    assert Kept(prior, next, t.name, o, t);
  }

  lemma ReverseIn(ts: seq<Table>)
    ensures forall t :: t in Reverse(ts) ==> t in ts
  {
  }

  lemma SortedIn(ts: seq<Table>)
    ensures forall t :: t in Sorted(ts) ==> t in ts
    ensures forall t :: t in Reverse(Sorted(ts)) ==> t in ts
  {
    hide Sorted, Reverse;
    SortedPermutes(ts);
    ReverseIn(Sorted(ts));
    forall t | t in Sorted(ts) ensures t in ts {
      assert t in multiset(Sorted(ts));
    }
  }

  lemma PhaseNeeded(prior: Schema, next: Schema, c: Change)
    requires c in Wrap(WrapDrop, Dropped(prior, next)) || c in Wrap(WrapCreate, Created(prior, next))
             || c in Wrap(WrapRoleDrop, Absent(prior.roles, next.roles, RoleName))
    ensures Needs(prior, next, c)
  {
    hide Wrap, Sorted, Reverse, Absent;
    SortedIn(Absent(prior.tables, next.tables, TableName));
    SortedIn(Absent(next.tables, prior.tables, TableName));
    if c in Wrap(WrapDrop, Dropped(prior, next)) {
      var t := InWrap(WrapDrop, Dropped(prior, next), c);
    } else if c in Wrap(WrapCreate, Created(prior, next)) {
      var t := InWrap(WrapCreate, Created(prior, next), c);
    } else {
      var r := InWrap(WrapRoleDrop, Absent(prior.roles, next.roles, RoleName), c);
    }
  }

  /** Every change of the list is called for by what the two schemas declare. */
  lemma EveryChangeNeeded(resolver: C.Resolver, prior: Schema, next: Schema, c: Change)
    requires WellFormed(prior) && WellFormed(next) && c in Diff(resolver, prior, next)
    ensures Needs(prior, next, c)
  {
    hide Wrap, Created, Dropped, Absent, RoleChanges, KeptChanges, RoleChange, KeptChange, Needs, WellFormed;
    if c in RoleChanges(next.roles, prior.roles) {
      var r := InRoleChanges(next.roles, prior.roles, c);
      RoleNeeded(prior, next, r, c);
    } else if c in KeptChanges(resolver, next.tables, prior.tables) {
      var t := InKeptChanges(resolver, next.tables, prior.tables, c);
      KeptNeeded(resolver, prior, next, t, c);
    } else {
      PhaseNeeded(prior, next, c);
    }
  }

  // ----- When there is nothing to do --------------------------------------------------------------------------------

  ghost predicate SameColumns(olds: seq<Column>, news: seq<Column>) {
    && (forall o :: o in olds ==> exists c :: c in news && c.name == o.name)
    && (forall c :: c in news ==> exists o :: o in olds && c.name == o.name && !TypeDiffers(o, c))
  }

  ghost predicate SameEntries<T(!new)>(olds: seq<T>, news: seq<T>) {
    forall x :: x in olds <==> x in news
  }

  /** Declared alike: attributes aside, which no migration touches. */
  ghost predicate AlikeTables(o: Table, t: Table) {
    && SameColumns(o.columns, t.columns) && o.rls == t.rls && o.forceRls == t.forceRls
    && G.Denote(o.grants) == G.Denote(t.grants)
    && SameEntries(o.policies, t.policies) && SameEntries(o.indexes, t.indexes)
  }

  ghost predicate Named(ts: seq<Table>, name: Name) {
    exists t :: t in ts && t.name == name
  }

  ghost predicate Twinned(olds: seq<Table>, t: Table) {
    exists o :: o in olds && t.name == o.name && AlikeTables(o, t)
  }

  ghost predicate Alike(prior: Schema, next: Schema) {
    && (forall o :: o in prior.tables ==> Named(next.tables, o.name))
    && (forall t :: t in next.tables ==> Twinned(prior.tables, t))
    && SameEntries(prior.roles, next.roles)
  }

  lemma Unique<T>(xs: seq<T>, key: T -> Name, x: T, y: T)
    requires UniqueKeys(xs, key) && x in xs && y in xs && key(x) == key(y)
    ensures x == y
  {
    var i :| 0 <= i < |xs| && xs[i] == x;
    var j :| 0 <= j < |xs| && xs[j] == y;
  }

  lemma HasName<T(!new)>(xs: seq<T>, key: T -> Name, x: T)
    requires x in xs
    ensures !Lacks(xs, key, key(x))
  {
  }

  lemma NoneLacking(olds: seq<Column>, news: seq<Column>)
    requires SameColumns(olds, news)
    ensures forall o :: o in olds ==> !Lacks(news, ColumnName, o.name)
    ensures forall c :: c in news ==> !Lacks(olds, ColumnName, c.name)
  {
    hide Lacks;
    forall o | o in olds ensures !Lacks(news, ColumnName, o.name) {
      var c :| c in news && c.name == o.name;
      HasName(news, ColumnName, c);
    }
    forall c | c in news ensures !Lacks(olds, ColumnName, c.name) {
      var o :| o in olds && c.name == o.name && !TypeDiffers(o, c);
      HasName(olds, ColumnName, o);
    }
  }

  lemma SameType(olds: seq<Column>, news: seq<Column>, o: Column, c: Column)
    requires UniqueKeys(olds, ColumnName) && SameColumns(olds, news) && o in olds && c in news && o.name == c.name
    ensures !TypeDiffers(o, c)
  {
    hide UniqueKeys;
    var p :| p in olds && c.name == p.name && !TypeDiffers(p, c);
    Unique(olds, ColumnName, o, p);
  }

  lemma NoColumnNeed(olds: seq<Column>, news: seq<Column>, e: C.ColumnEdit)
    requires UniqueKeys(olds, ColumnName) && SameColumns(olds, news)
    ensures !ColumnNeeds(olds, news, e)
  {
    hide SameColumns, Lacks, UniqueKeys;
    NoneLacking(olds, news);
    if e.Alter? && e.after in news && e.before in olds && e.before.name == e.after.name {
      SameType(olds, news, e.before, e.after);
    }
  }

  lemma NoGrantNeed(olds: seq<Grant>, news: seq<Grant>, e: G.GrantEdit)
    requires UniqueKeys(olds, GrantRole) && UniqueKeys(news, GrantRole) && G.Denote(olds) == G.Denote(news)
    ensures !GrantNeeds(olds, news, e)
  {
    hide G.Powers, GrantsJust, G.Denote;
    JustDenotes(olds, e.role, G.Powers(e.privileges));
    JustDenotes(news, e.role, G.Powers(e.privileges));
  }

  lemma JustDenotes(gs: seq<Grant>, role: Name, powers: set<G.Power>)
    requires UniqueKeys(gs, GrantRole)
    ensures GrantsJust(gs, role, powers) <==> role in G.Denote(gs) && G.Denote(gs)[role] == powers
  {
    hide G.Powers, G.Denote, UniqueKeys;
    G.DenoteRoles(gs, role);
    forall g | g in gs ensures g.role in G.Denote(gs) && G.Denote(gs)[g.role] == G.Powers(g.privileges) {
      var i :| 0 <= i < |gs| && gs[i] == g;
      G.DenoteOf(gs, i);
    }
  }

  lemma NoTableNeed(o: Table, t: Table, e: TableEdit)
    requires WellFormedTable(o) && WellFormedTable(t) && AlikeTables(o, t)
    ensures !TableNeeds(o, t, e)
  {
    hide SameColumns, ColumnNeeds, GrantNeeds, G.Denote, UniqueKeys;
    if e.OnColumns? {
      NoColumnNeed(o.columns, t.columns, e.column);
    } else if e.OnGrants? {
      NoGrantNeed(o.grants, t.grants, e.grant);
    }
  }

  lemma NotLacking(ts: seq<Table>, name: Name)
    requires Named(ts, name)
    ensures !Lacks(ts, TableName, name)
  {
    var t :| t in ts && t.name == name;
    HasName(ts, TableName, t);
  }

  lemma TwinNamed(olds: seq<Table>, t: Table)
    requires Twinned(olds, t)
    ensures Named(olds, t.name)
  {
    hide AlikeTables;
  }

  lemma TwinOf(olds: seq<Table>, o: Table, t: Table)
    requires UniqueKeys(olds, TableName) && Twinned(olds, t) && o in olds && o.name == t.name
    ensures AlikeTables(o, t)
  {
    hide AlikeTables, UniqueKeys;
    var p :| p in olds && t.name == p.name && AlikeTables(p, t);
    Unique(olds, TableName, o, p);
  }

  lemma NoTableLacking(prior: Schema, next: Schema)
    requires Alike(prior, next)
    ensures forall o :: o in prior.tables ==> !Lacks(next.tables, TableName, o.name)
    ensures forall t :: t in next.tables ==> !Lacks(prior.tables, TableName, t.name)
  {
    hide Lacks, Named, Twinned, SameEntries;
    forall o | o in prior.tables ensures !Lacks(next.tables, TableName, o.name) {
      NotLacking(next.tables, o.name);
    }
    forall t | t in next.tables ensures !Lacks(prior.tables, TableName, t.name) {
      TwinNamed(prior.tables, t);
      NotLacking(prior.tables, t.name);
    }
  }

  lemma KeptAlike(prior: Schema, next: Schema, o: Table, t: Table, e: TableEdit)
    requires WellFormed(prior) && WellFormed(next) && Alike(prior, next)
    requires o in prior.tables && t in next.tables && o.name == t.name
    ensures !TableNeeds(o, t, e)
  {
    hide AlikeTables, TableNeeds, WellFormedTable, UniqueKeys, Named, Twinned, SameEntries;
    TwinOf(prior.tables, o, t);
    NoTableNeed(o, t, e);
  }

  lemma NoRoleNeed(prior: Schema, next: Schema, c: Change)
    requires UniqueKeys(next.roles, RoleName) && SameEntries(prior.roles, next.roles)
    requires c.CreateRole? || c.DropRole? || c.AlterRole?
    ensures !Needs(prior, next, c)
  {
    hide Lacks, UniqueKeys;
    if c.AlterRole? {
      if c.before in prior.roles && c.after in next.roles && c.before.name == c.after.name {
        Unique(next.roles, RoleName, c.before, c.after);
      }
    } else if c.role in prior.roles {
      HasName(prior.roles, RoleName, c.role);
      HasName(next.roles, RoleName, c.role);
    }
  }

  lemma NoNeed(prior: Schema, next: Schema, c: Change)
    requires WellFormed(prior) && WellFormed(next) && Alike(prior, next)
    ensures !Needs(prior, next, c)
  {
    hide AlikeTables, TableNeeds, WellFormedTable, UniqueKeys, Lacks, SameEntries;
    if c.CreateTable? || c.DropTable? {
      NoTableLacking(prior, next);
    } else if c.OnTable? {
      forall o, t | Kept(prior, next, c.name, o, t) ensures !TableNeeds(o, t, c.edit) {
        KeptAlike(prior, next, o, t, c.edit);
      }
    } else {
      NoRoleNeed(prior, next, c);
    }
  }

  // What a list of no changes reaches is what there was.

  lemma SameByKey<T(!new)>(olds: seq<T>, news: seq<T>, key: T -> Name)
    requires UniqueKeys(olds, key) && UniqueKeys(news, key) && ByKey(olds, key) == ByKey(news, key)
    ensures SameEntries(olds, news)
  {
    hide UniqueKeys;
    forall x ensures x in olds <==> x in news {
      if x in olds {
        ByKeyIn(olds, key, x);
      }
      if x in news {
        ByKeyIn(news, key, x);
      }
    }
  }

  lemma ColumnsUnmoved(olds: seq<Column>, news: seq<Column>)
    requires UniqueKeys(olds, ColumnName) && C.Reached(ByKey(olds, ColumnName), olds, news)
    ensures SameColumns(olds, news)
  {
    hide UniqueKeys, C.Reached;
    var m := ByKey(olds, ColumnName);
    ReachedNames(m, olds, news);
    forall o | o in olds ensures exists c :: c in news && c.name == o.name {
      assert ColumnName(o) in m;
    }
    forall c | c in news ensures exists o :: o in olds && c.name == o.name && !TypeDiffers(o, c) {
      C.ReachedTypes(m, olds, news, c);
      assert m[c.name] in olds;
    }
  }

  lemma ReachedNames(m: C.Columns, olds: seq<Column>, news: seq<Column>)
    requires C.Reached(m, olds, news)
    ensures forall name :: name in m ==> exists c :: c in news && c.name == name
  {
    forall name | name in m ensures exists c :: c in news && c.name == name {
      assert name in C.ColumnNames(news);
    }
  }

  lemma TableUnmoved(o: Table, t: Table)
    requires WellFormedTable(o) && WellFormedTable(t) && Migrated(StateOf(o), o, t)
    ensures AlikeTables(o, t)
  {
    hide C.Reached, G.Denote, ByKey, UniqueKeys, SameColumns, SameEntries;
    ColumnsUnmoved(o.columns, t.columns);
    SameByKey(o.policies, t.policies, PolicyName);
    SameByKey(o.indexes, t.indexes, IndexName);
  }

  lemma Unmoved(prior: Schema, next: Schema)
    requires WellFormed(prior) && WellFormed(next) && Reaches(DbOf(prior), prior, next)
    ensures Alike(prior, next)
  {
    hide AlikeTables, Migrated, StateOf, ByKey, UniqueKeys, WellFormedTable, Find, StatesOf;
    SameByKey(prior.roles, next.roles, RoleName);
    StatesOfKeys(prior.tables);
    forall o | o in prior.tables ensures o.name in DbOf(prior).tables && DbOf(prior).tables[o.name] == StateOf(o) {
      var i :| 0 <= i < |prior.tables| && prior.tables[i] == o;
      StatesOfAt(prior.tables, i);
    }
    forall o | o in prior.tables ensures Named(next.tables, o.name) {
      assert o.name in TableNames(next.tables);
    }
    forall t | t in next.tables ensures Twinned(prior.tables, t) {
      assert t.name in TableNames(prior.tables);
      var p :| p in prior.tables && p.name == t.name;
      assert TableName(p) == t.name;
      var o := Find(prior.tables, TableName, t.name).value;
      TableUnmoved(o, t);
    }
  }

  ghost predicate AllNeeded(prior: Schema, next: Schema, es: seq<Change>) {
    forall c :: c in es ==> Needs(prior, next, c)
  }

  lemma AllAreNeeded(resolver: C.Resolver, prior: Schema, next: Schema)
    requires WellFormed(prior) && WellFormed(next)
    ensures AllNeeded(prior, next, Diff(resolver, prior, next))
  {
    hide Needs, Diff, WellFormed;
    forall c | c in Diff(resolver, prior, next) ensures Needs(prior, next, c) {
      EveryChangeNeeded(resolver, prior, next, c);
    }
  }

  /** For every resolver the list is empty iff the two schemas declare the same, attributes of columns aside. */
  lemma EmptyIffAlike(resolver: C.Resolver, prior: Schema, next: Schema)
    requires WellFormed(prior) && WellFormed(next)
    ensures Diff(resolver, prior, next) == [] <==> Alike(prior, next)
  {
    hide Diff, Run, AllFit, Reaches, Alike, WellFormed, DbOf, Needs;
    var es := Diff(resolver, prior, next);
    if es == [] {
      DiffCorrect(resolver, prior, next);
      NoChanges(DbOf(prior));
      Unmoved(prior, next);
    } else if Alike(prior, next) {
      EveryChangeNeeded(resolver, prior, next, es[0]);
      NoNeed(prior, next, es[0]);
    }
  }

  /** In particular a schema compared with itself calls for nothing. */
  lemma NothingToDo(resolver: C.Resolver, s: Schema)
    requires WellFormed(s)
    ensures Diff(resolver, s, s) == []
  {
    hide Diff, WellFormed;
    EmptyIffAlike(resolver, s, s);
  }
}
