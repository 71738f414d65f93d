/**
 * The compiler as it runs (crates/orm-cli/src/diff.rs): loops that push to one change list,
 * each proved to append exactly its part of the list, and `dollar_tag`.
 */
module MigrationCompiler {
  import opened Wrappers
  import opened SchemaModel
  import opened Machines
  import opened TopoSort
  import opened TableDiff
  import opened Migration
  import opened MigrationTheorems
  import opened MigrationNeeded
  import K = KeyedDiff
  import G = GrantDiff
  import C = ColumnDiff

  /** Edits of one part of one table, as changes. */
  ghost function Pushed<E>(name: Name, wrap: E -> TableEdit, es: seq<E>): seq<Change> {
    Wrap(TablePart(name).wrap, Wrap(wrap, es))
  }

  lemma PushedConcat<E>(name: Name, wrap: E -> TableEdit, a: seq<E>, b: seq<E>)
    ensures Pushed(name, wrap, a + b) == Pushed(name, wrap, a) + Pushed(name, wrap, b)
  {
  }

  lemma PushedOne<E>(name: Name, wrap: E -> TableEdit, e: E)
    ensures Pushed(name, wrap, []) == [] && Pushed(name, wrap, [e]) == [OnTable(name, wrap(e))]
  {
  }

  lemma PushedTwo<E>(name: Name, wrap: E -> TableEdit, e: E, f: E)
    ensures Pushed(name, wrap, [e, f]) == [OnTable(name, wrap(e)), OnTable(name, wrap(f))]
  {
  }

  lemma TakeOne<T>(xs: seq<T>, i: nat)
    requires i < |xs|
    ensures xs[..i + 1][..i] == xs[..i] && xs[..i + 1][i] == xs[i] && |xs[..i + 1]| == i + 1
  {
  }

  lemma TakeAll<T>(xs: seq<T>)
    ensures xs[..|xs|] == xs && xs[..0] == []
  {
  }

  lemma RegrantsStep(news: seq<Grant>, olds: seq<Grant>, i: nat)
    requires i < |news|
    ensures G.Regrants(news[..i + 1], olds) == G.Regrants(news[..i], olds) + G.Regrant(news[i], olds)
    ensures G.Withdrawals(news[..i + 1], olds) == G.Withdrawals(news[..i], olds) + G.Withdrawal(news[i], olds)
  {
    TakeOne(news, i);
  }

  method DiffGrants(o: Table, t: Table, before: seq<Change>) returns (changes: seq<Change>)
    ensures changes == before + Wrap(TablePart(t.name).wrap, GrantPhase(o, t))
  {
    hide Pushed, Find, G.Canonical, G.Regrants, G.Withdrawals;
    changes := before;
    TakeAll(t.grants);
    TakeAll(o.grants);
    NoGrants(t.name);
    for i := 0 to |t.grants|
      invariant changes == before + Pushed(t.name, WrapGrant, G.Regrants(t.grants[..i], o.grants))
    {
      var grant := t.grants[i];
      var newPrivileges := G.Canonical(grant.privileges);
      RegrantsStep(t.grants, o.grants, i);
      PushedConcat(t.name, WrapGrant, G.Regrants(t.grants[..i], o.grants), G.Regrant(grant, o.grants));
      match Find(o.grants, GrantRole, grant.role)
      case None =>
        changes := changes + [OnTable(t.name, OnGrants(G.Give(grant.role, newPrivileges)))];
        PushedOne(t.name, WrapGrant, G.Give(grant.role, newPrivileges));
      case Some(previous) =>
        var oldPrivileges := G.Canonical(previous.privileges);
        if oldPrivileges != newPrivileges {
          changes := changes + [OnTable(t.name, OnGrants(G.Revoke(grant.role, oldPrivileges)))];
          changes := changes + [OnTable(t.name, OnGrants(G.Give(grant.role, newPrivileges)))];
          PushedTwo(t.name, WrapGrant, G.Revoke(grant.role, oldPrivileges), G.Give(grant.role, newPrivileges));
        } else {
          NoGrants(t.name);
        }
    }
    ghost var mid := changes;
    for i := 0 to |o.grants|
      invariant changes == mid + Pushed(t.name, WrapGrant, G.Withdrawals(o.grants[..i], t.grants))
    {
      var grant := o.grants[i];
      RegrantsStep(o.grants, t.grants, i);
      PushedConcat(t.name, WrapGrant, G.Withdrawals(o.grants[..i], t.grants), G.Withdrawal(grant, t.grants));
      if Find(t.grants, GrantRole, grant.role).None? {
        changes := changes + [OnTable(t.name, OnGrants(G.Revoke(grant.role, G.Canonical(grant.privileges))))];
        PushedOne(t.name, WrapGrant, G.Revoke(grant.role, G.Canonical(grant.privileges)));
      } else {
        NoGrants(t.name);
      }
    }
    PushedConcat(t.name, WrapGrant, G.Regrants(t.grants, o.grants), G.Withdrawals(o.grants, t.grants));
    PushedIs(t.name, WrapGrant, G.GrantEdits(o.grants, t.grants));
  }

  lemma NoGrants(name: Name)
    ensures Pushed(name, WrapGrant, []) == []
    ensures forall gs :: G.Regrants([], gs) == [] && G.Withdrawals([], gs) == []
  {
  }

  lemma PushedIs<E>(name: Name, wrap: E -> TableEdit, es: seq<E>)
    ensures Pushed(name, wrap, es) == Wrap(TablePart(name).wrap, Wrap(wrap, es))
  {
  }

  lemma NoKeyed<T>(name: Name, wrap: K.KeyedEdit<T> -> TableEdit, xs: seq<T>, key: T -> Name)
    ensures Pushed(name, wrap, []) == [] && K.Removals([], xs, key) == [] && K.Insertions([], xs, key) == []
  {
  }

  /** Drops before creates, so that a changed entry's name is free again (policies and indexes alike). */
  method DiffKeyed<T(==)>(name: Name, olds: seq<T>, news: seq<T>, key: T -> Name, wrap: K.KeyedEdit<T> -> TableEdit,
                          before: seq<Change>) returns (changes: seq<Change>)
    ensures changes == before + Wrap(TablePart(name).wrap, Wrap(wrap, K.KeyedEdits(olds, news, key)))
  {
    hide Pushed, Find, K.Removals, K.Insertions;
    changes := before;
    TakeAll(olds);
    TakeAll(news);
    NoKeyed(name, wrap, news, key);
    NoKeyed(name, wrap, olds, key);
    for i := 0 to |olds|
      invariant changes == before + Pushed(name, wrap, K.Removals(olds[..i], news, key))
    {
      K.EditsStep(olds, i, news, key);
      if Find(news, key, key(olds[i])) != Some(olds[i]) {
        changes := changes + [OnTable(name, wrap(K.Take(olds[i])))];
        PushedOne(name, wrap, K.Take(olds[i]));
        PushedConcat(name, wrap, K.Removals(olds[..i], news, key), [K.Take(olds[i])]);
      }
    }
    ghost var mid := changes;
    for i := 0 to |news|
      invariant changes == mid + Pushed(name, wrap, K.Insertions(news[..i], olds, key))
    {
      K.EditsStep(news, i, olds, key);
      if Find(olds, key, key(news[i])) != Some(news[i]) {
        changes := changes + [OnTable(name, wrap(K.Put(news[i])))];
        PushedOne(name, wrap, K.Put(news[i]));
        PushedConcat(name, wrap, K.Insertions(news[..i], olds, key), [K.Put(news[i])]);
      }
    }
    PushedConcat(name, wrap, K.Removals(olds, news, key), K.Insertions(news, olds, key));
    PushedIs(name, wrap, K.KeyedEdits(olds, news, key));
  }

  lemma WrapConcat<E, F>(wrap: F -> E, a: seq<F>, b: seq<F>)
    ensures Wrap(wrap, a + b) == Wrap(wrap, a) + Wrap(wrap, b)
  {
  }

  method PushFlags(o: Table, t: Table, before: seq<Change>) returns (changes: seq<Change>)
    ensures changes == before + Wrap(TablePart(t.name).wrap, FlagPhase(o, t))
  {
    changes := before;
    if o.rls != t.rls {
      changes := changes + [OnTable(t.name, SetRls(t.rls))];
    }
    if o.forceRls != t.forceRls {
      changes := changes + [OnTable(t.name, SetForceRls(t.forceRls))];
    }
  }

  /** `diff_table_rls`: the flags, the grants, the policies. */
  method DiffTableRls(o: Table, t: Table, before: seq<Change>) returns (changes: seq<Change>)
    ensures changes == before + Wrap(TablePart(t.name).wrap, FlagPhase(o, t) + GrantPhase(o, t) + PolicyPhase(o, t))
  {
    hide FlagPhase, GrantPhase, Wrap, K.KeyedEdits;
    changes := PushFlags(o, t, before);
    changes := DiffGrants(o, t, changes);
    changes := DiffKeyed(t.name, o.policies, t.policies, PolicyName, WrapPolicy, changes);
    WrapConcat(TablePart(t.name).wrap, FlagPhase(o, t), GrantPhase(o, t));
    WrapConcat(TablePart(t.name).wrap, FlagPhase(o, t) + GrantPhase(o, t), PolicyPhase(o, t));
  }

  lemma NoColumns(name: Name, olds: seq<Column>)
    ensures Pushed(name, WrapColumn, []) == [] && C.Retypes([], olds) == [] && C.Drops([]) == []
  {
  }

  lemma RetypesSnoc(news: seq<Column>, olds: seq<Column>, i: nat)
    requires i < |news|
    ensures C.Retypes(news[..i + 1], olds) == C.Retypes(news[..i], olds) + C.Retype(news[i], olds)
    ensures C.Drops(news[..i + 1]) == C.Drops(news[..i]) + [C.Drop(news[i])]
  {
    TakeOne(news, i);
  }

  /** What is still to be filled in, given what has been. */
  ghost predicate Filling(resolver: C.Resolver, table: Name, done: seq<C.ColumnEdit>, added: seq<Column>, removed: seq<Column>,
                          all: C.Filled)
  {
    var rest := C.Fill(resolver, table, added, removed);
    all == C.Filled(done + rest.edits, rest.left)
  }

  lemma FillStarts(resolver: C.Resolver, table: Name, added: seq<Column>, removed: seq<Column>)
    ensures Filling(resolver, table, [], added, removed, C.Fill(resolver, table, added, removed))
  {
    var all := C.Fill(resolver, table, added, removed);
    assert [] + all.edits == all.edits;
  }

  lemma FillEnds(resolver: C.Resolver, table: Name, done: seq<C.ColumnEdit>, removed: seq<Column>, all: C.Filled)
    requires Filling(resolver, table, done, [], removed, all)
    ensures all == C.Filled(done, removed)
  {
    assert done + [] == done;
  }

  lemma FillGoesOn(resolver: C.Resolver, table: Name, done: seq<C.ColumnEdit>, added: seq<Column>, removed: seq<Column>,
                   all: C.Filled)
    requires Filling(resolver, table, done, added, removed, all) && added != []
    ensures match C.Source(resolver, table, added[0], removed)
            case Some(i) =>
              Filling(resolver, table, done + C.Renaming(removed[i], added[0]), added[1..], Without(removed, i), all)
            case None => Filling(resolver, table, done + [C.Add(added[0])], added[1..], removed, all)
  {
    match C.Source(resolver, table, added[0], removed)
    case Some(i) =>
      var rest := C.Fill(resolver, table, added[1..], Without(removed, i));
      assert done + (C.Renaming(removed[i], added[0]) + rest.edits) == done + C.Renaming(removed[i], added[0]) + rest.edits;
    case None =>
      var rest := C.Fill(resolver, table, added[1..], removed);
      assert done + ([C.Add(added[0])] + rest.edits) == done + [C.Add(added[0])] + rest.edits;
  }

  method PushRetypes(o: Table, t: Table, before: seq<Change>) returns (changes: seq<Change>)
    ensures changes == before + Pushed(t.name, WrapColumn, C.Retypes(t.columns, o.columns))
  {
    hide Pushed, Find, C.Retypes;
    changes := before;
    NoColumns(t.name, o.columns);
    TakeAll(t.columns);
    for i := 0 to |t.columns|
      invariant changes == before + Pushed(t.name, WrapColumn, C.Retypes(t.columns[..i], o.columns))
    {
      var column := t.columns[i];
      RetypesSnoc(t.columns, o.columns, i);
      PushedConcat(t.name, WrapColumn, C.Retypes(t.columns[..i], o.columns), C.Retype(column, o.columns));
      match Find(o.columns, ColumnName, column.name)
      case Some(existing) =>
        if TypeDiffers(column, existing) {
          changes := changes + [OnTable(t.name, OnColumns(C.Alter(existing, column)))];
          PushedOne(t.name, WrapColumn, C.Alter(existing, column));
        } else {
          NoColumns(t.name, o.columns);
        }
      case None =>
        NoColumns(t.name, o.columns);
    }
  }

  method PushFill(resolver: C.Resolver, name: Name, added: seq<Column>, gone: seq<Column>, before: seq<Change>)
    returns (changes: seq<Change>, removed: seq<Column>)
    ensures var filled := C.Fill(resolver, name, added, gone);
            changes == before + Pushed(name, WrapColumn, filled.edits) && removed == filled.left
  {
    hide Pushed, Filling, C.Source;
    changes, removed := before, gone;
    ghost var done: seq<C.ColumnEdit>, all := [], C.Fill(resolver, name, added, gone);
    FillStarts(resolver, name, added, gone);
    NoColumns(name, []);
    assert added[0..] == added;
    for i := 0 to |added|
      invariant Filling(resolver, name, done, added[i..], removed, all)
      invariant changes == before + Pushed(name, WrapColumn, done)
    {
      var column := added[i];
      assert added[i..][0] == column && added[i..][1..] == added[i + 1..];
      FillGoesOn(resolver, name, done, added[i..], removed, all);
      match C.Source(resolver, name, column, removed)
      case Some(index) =>
        var source := removed[index];
        removed := Without(removed, index);
        changes := changes + [OnTable(name, OnColumns(C.Rename(source.name, column.name)))];
        PushedConcat(name, WrapColumn, done, C.Renaming(source, column));
        assert Filling(resolver, name, done + C.Renaming(source, column), added[i + 1..], removed, all);
        if TypeDiffers(source, column) {
          changes := changes + [OnTable(name, OnColumns(C.Alter(source.(name := column.name), column)))];
          PushedTwo(name, WrapColumn, C.Rename(source.name, column.name), C.Alter(source.(name := column.name), column));
          assert C.Renaming(source, column) == [C.Rename(source.name, column.name), C.Alter(source.(name := column.name), column)];
        } else {
          PushedOne(name, WrapColumn, C.Rename(source.name, column.name));
          assert C.Renaming(source, column) == [C.Rename(source.name, column.name)];
        }
        done := done + C.Renaming(source, column);
      case None =>
        changes := changes + [OnTable(name, OnColumns(C.Add(column)))];
        PushedConcat(name, WrapColumn, done, [C.Add(column)]);
        assert Filling(resolver, name, done + [C.Add(column)], added[i + 1..], removed, all);
        PushedOne(name, WrapColumn, C.Add(column));
        done := done + [C.Add(column)];
    }
    assert added[|added|..] == [];
    FillEnds(resolver, name, done, removed, all);
  }

  method PushDrops(name: Name, removed: seq<Column>, before: seq<Change>) returns (changes: seq<Change>)
    ensures changes == before + Pushed(name, WrapColumn, C.Drops(removed))
  {
    hide Pushed, C.Drops;
    changes := before;
    NoColumns(name, []);
    TakeAll(removed);
    for i := 0 to |removed|
      invariant changes == before + Pushed(name, WrapColumn, C.Drops(removed[..i]))
    {
      RetypesSnoc(removed, [], i);
      changes := changes + [OnTable(name, OnColumns(C.Drop(removed[i])))];
      PushedConcat(name, WrapColumn, C.Drops(removed[..i]), [C.Drop(removed[i])]);
      PushedOne(name, WrapColumn, C.Drop(removed[i]));
    }
  }

  /** `diff_table`: retypes, then each added column renamed from a removed one or added, then drops. */
  method DiffColumns(resolver: C.Resolver, o: Table, t: Table, before: seq<Change>) returns (changes: seq<Change>)
    ensures changes == before + Wrap(TablePart(t.name).wrap, ColumnPhase(resolver, o, t))
  {
    hide Pushed, C.Fill, C.Retypes, C.Drops;
    changes := PushRetypes(o, t, before);
    var gone := Absent(o.columns, t.columns, ColumnName);
    var added := Absent(t.columns, o.columns, ColumnName);
    hide Absent, Wrap;
    var removed;
    changes, removed := PushFill(resolver, t.name, added, gone, changes);
    changes := PushDrops(t.name, removed, changes);
    ghost var filled := C.Fill(resolver, t.name, added, gone);
    PushedConcat(t.name, WrapColumn, C.Retypes(t.columns, o.columns), filled.edits);
    PushedConcat(t.name, WrapColumn, C.Retypes(t.columns, o.columns) + filled.edits, C.Drops(filled.left));
    PushedIs(t.name, WrapColumn, C.ColumnEdits(resolver, t.name, o.columns, t.columns));
  }

  method DiffKept(resolver: C.Resolver, o: Table, t: Table, before: seq<Change>) returns (changes: seq<Change>)
    ensures changes == before + Wrap(TablePart(t.name).wrap, TableEdits(resolver, o, t))
  {
    hide Wrap, ColumnPhase, FlagPhase, GrantPhase, PolicyPhase, K.KeyedEdits;
    changes := DiffColumns(resolver, o, t, before);
    changes := DiffTableRls(o, t, changes);
    changes := DiffKeyed(t.name, o.indexes, t.indexes, IndexName, WrapIndex, changes);
    var wrap := TablePart(t.name).wrap;
    WrapConcat(wrap, ColumnPhase(resolver, o, t), FlagPhase(o, t) + GrantPhase(o, t) + PolicyPhase(o, t));
    WrapConcat(wrap, ColumnPhase(resolver, o, t) + (FlagPhase(o, t) + GrantPhase(o, t) + PolicyPhase(o, t)), IndexPhase(o, t));
    assert ColumnPhase(resolver, o, t) + (FlagPhase(o, t) + GrantPhase(o, t) + PolicyPhase(o, t)) + IndexPhase(o, t)
           == TableEdits(resolver, o, t);
  }

  method PushRoles(news: seq<Role>, olds: seq<Role>) returns (changes: seq<Change>)
    ensures changes == RoleChanges(news, olds)
  {
    changes := [];
    TakeAll(news);
    for i := 0 to |news|
      invariant changes == RoleChanges(news[..i], olds)
    {
      var role := news[i];
      TakeOne(news, i);
      match Find(olds, RoleName, role.name)
      case None => changes := changes + [CreateRole(role)];
      case Some(previous) =>
        if previous != role {
          changes := changes + [AlterRole(previous, role)];
        }
    }
  }

  /** The whole compiler: its list runs without a clash and reaches the new schema. */
  method CompileDiff(resolver: C.Resolver, prior: Schema, next: Schema) returns (changes: seq<Change>)
    ensures changes == Diff(resolver, prior, next)
    ensures WellFormed(prior) && WellFormed(next) ==>
              && AllFit(DBS, DbOf(prior), changes)
              && Reaches(Run(DBS, DbOf(prior), changes), prior, next)
              && (changes == [] <==> Alike(prior, next)) && AllNeeded(prior, next, changes)
  {
    hide Run, AllFit, Reaches, WellFormed, DbOf, RoleChanges, KeptChanges, TableEdits, Find, Sorted, Alike, Needs;
    changes := PushRoles(next.roles, prior.roles);
    var toDrop := Absent(prior.tables, next.tables, TableName);
    var toCreate := Absent(next.tables, prior.tables, TableName);
    var gone := Absent(prior.roles, next.roles, RoleName);
    hide Absent;
    var dropped := TopoSortCreates(toDrop);
    dropped := Reverse(dropped);
    changes := PushAll(WrapDrop, dropped, changes);
    var created := TopoSortCreates(toCreate);
    changes := PushAll(WrapCreate, created, changes);
    changes := PushKept(resolver, prior.tables, next.tables, changes);
    changes := PushAll(WrapRoleDrop, gone, changes);
    if WellFormed(prior) && WellFormed(next) {
      DiffCorrect(resolver, prior, next);
      EmptyIffAlike(resolver, prior, next);
      AllAreNeeded(resolver, prior, next);
    }
  }

  method PushAll<T>(wrap: T -> Change, xs: seq<T>, before: seq<Change>) returns (changes: seq<Change>)
    ensures changes == before + Wrap(wrap, xs)
  {
    changes := before;
    TakeAll(xs);
    for i := 0 to |xs|
      invariant changes == before + Wrap(wrap, xs[..i])
    {
      changes := changes + [wrap(xs[i])];
      WrapStep(wrap, xs, i);
    }
  }

  method PushKept(resolver: C.Resolver, olds: seq<Table>, news: seq<Table>, before: seq<Change>) returns (changes: seq<Change>)
    ensures changes == before + KeptChanges(resolver, news, olds)
  {
    hide Wrap, TableEdits, Find, KeptChanges;
    changes := before;
    TakeAll(news);
    NothingKept(resolver, olds);
    for i := 0 to |news|
      invariant changes == before + KeptChanges(resolver, news[..i], olds)
    {
      KeptStep(resolver, news, i, olds);
      match Find(olds, TableName, news[i].name)
      case Some(o) => changes := DiffKept(resolver, o, news[i], changes);
      case None =>
    }
  }

  lemma NothingKept(resolver: C.Resolver, olds: seq<Table>)
    ensures KeptChanges(resolver, [], olds) == []
  {
  }
}
