/**
 * Foreign keys on the way down (crates/orm-cli/src/diff.rs, `down`, `down_sql`): when every table that
 * is recreated, and every column that is added back, finds the tables it refers to.
 */
module MigrationDown {
  import opened Wrappers
  import opened SchemaModel
  import opened Machines
  import opened TopoSort
  import opened TableDiff
  import opened Migration
  import opened MigrationTheorems
  import opened MigrationSafety
  import opened MigrationKeys
  import K = KeyedDiff
  import G = GrantDiff
  import C = ColumnDiff

  /** The tables that undoing a change makes something refer to, its own aside, exist when it is undone. */
  ghost predicate UndoReady(db: Db, c: Change) {
    match c
    case DropTable(t) => Targets(t) <= db.tables.Keys
    case OnTable(_, OnColumns(Drop(column))) =>
      column.attributes.references.Some? ==> column.attributes.references.value.table in db.tables
    case _ => true
  }

  /** The same, asked of the database the change was made to. */
  ghost predicate DownReady(db: Db, c: Change) { UndoReady(ApplyDb(db, c), c) }

  /** Undoing a list newest first, each change meets the database it had led to. */
  lemma DownwardIff(db: Db, es: seq<Change>)
    requires AllFit(DBS, db, es)
    ensures (forall k :: 0 <= k < |es| ==> UndoReady(Rewind(DBS, Run(DBS, db, es), es[k + 1..]), es[k]))
            <==> Throughout(DBS, db, es, DownReady)
  {
    hide Run, Rewind, AllFit, ApplyDb, UndoReady, Reversible, FitsDb;
    DbsReversible();
    forall k | 0 <= k < |es|
      ensures UndoReady(Rewind(DBS, Run(DBS, db, es), es[k + 1..]), es[k]) <==> DownReady(Run(DBS, db, es[..k]), es[k])
    {
      RewindRetraces(DBS, db, es, k + 1);
      assert es[..k + 1] == es[..k] + [es[k]];
      RunSnoc(DBS, db, es[..k], es[k]);
    }
  }

  // ----- Recreated tables ------------------------------------------------------------------------------------

  lemma DropState(prior: Schema, next: Schema, k: nat)
    requires WellFormed(prior) && WellFormed(next) && k < |Dropped(prior, next)|
    ensures var ts := Dropped(prior, next);
            var es := Wrap(WrapDrop, ts);
            && k < |es| && es[k] == DropTable(ts[k])
            && ApplyDb(Run(DBS, AfterRoles(prior, next), es[..k]), es[k]).tables.Keys ==
               TableNames(prior.tables) - TableNames(ts[..k + 1])
  {
    hide Run, Dropped, StatesOf, TableNames, StateOf, UniqueKeys, Wrap;
    var ts := Dropped(prior, next);
    DropMeets(prior, next, k);
    DroppedTables(prior, next);
    StatesOfKeys(prior.tables);
    TableNamesStep(ts, k);
  }

  lemma RecreatedAtIff(prior: Schema, next: Schema, k: nat)
    requires WellFormed(prior) && WellFormed(next) && KeysClosed(prior) && k < |Dropped(prior, next)|
    ensures var ts := Dropped(prior, next);
            var es := Wrap(WrapDrop, ts);
            && k < |es|
            && (DownReady(Run(DBS, AfterRoles(prior, next), es[..k]), es[k])
                <==> forall i :: 0 <= i < k ==> ts[i].name !in Targets(ts[k]))
  {
    hide Run, Dropped, StatesOf, StateOf, Targets, AfterRoles, Wrap, KeysClosed, ApplyDb, WellFormed;
    var ts := Dropped(prior, next);
    DropState(prior, next, k);
    ClosedTargets(prior, next, k);
    NoSelfTarget(ts[k]);
    forall u | u in Targets(ts[k]) ensures u in TableNames(ts[..k + 1]) <==> exists i :: 0 <= i <= k && ts[i].name == u {
      NamedIn(ts[..k + 1], u);
      assert forall i :: 0 <= i <= k ==> ts[..k + 1][i] == ts[i];
    }
  }

  lemma NamedIn(ts: seq<Table>, u: Name)
    ensures u in TableNames(ts) <==> exists i :: 0 <= i < |ts| && ts[i].name == u
  {
    if u in TableNames(ts) {
      var t :| t in ts && t.name == u;
      var i :| 0 <= i < |ts| && ts[i] == t;
    }
    if i :| 0 <= i < |ts| && ts[i].name == u {
      assert ts[i] in ts;
    }
  }

  lemma ClosedTargets(prior: Schema, next: Schema, k: nat)
    requires WellFormed(prior) && KeysClosed(prior) && k < |Dropped(prior, next)|
    ensures Targets(Dropped(prior, next)[k]) <= TableNames(prior.tables)
  {
    hide Dropped, TableNames;
    DroppedTables(prior, next);
    assert Dropped(prior, next)[k] in Dropped(prior, next);
  }

  lemma RecreatedReadyIff(prior: Schema, next: Schema)
    requires WellFormed(prior) && WellFormed(next) && KeysClosed(prior)
    ensures Throughout(DBS, AfterRoles(prior, next), Wrap(WrapDrop, Dropped(prior, next)), DownReady)
            <==> Acyclic(Absent(prior.tables, next.tables, TableName))
  {
    hide Run, Dropped, Targets, AfterRoles, Wrap, WellFormed, KeysClosed, DownReady, Acyclic, Absent;
    var ts, es := Dropped(prior, next), Wrap(WrapDrop, Dropped(prior, next));
    WrapLength(WrapDrop, ts);
    ReversedOrder(prior, next);
    forall k | 0 <= k < |ts|
      ensures DownReady(Run(DBS, AfterRoles(prior, next), es[..k]), es[k])
              <==> forall i :: 0 <= i < k ==> ts[i].name !in Targets(ts[k])
    {
      RecreatedAtIff(prior, next, k);
    }
  }

  // ----- Columns added back -----------------------------------------------------------------------------------

  /** The columns of a kept table that are dropped, not renamed. */
  ghost function Discarded(resolver: C.Resolver, o: Table, t: Table): seq<Column> {
    C.Fill(resolver, t.name, Absent(t.columns, o.columns, ColumnName), Absent(o.columns, t.columns, ColumnName)).left
  }

  predicate Discards(e: TableEdit) { e.OnColumns? && e.column.Drop? }

  lemma {:induction false} DropsAt(left: seq<Column>, i: nat)
    requires i < |left|
    ensures |C.Drops(left)| == |left| && C.Drops(left)[i] == C.Drop(left[i])
  {
    var n := |left| - 1;
    if n > 0 {
      DropsAt(left[..n], if i < n then i else 0);
    }
  }

  lemma NoDrops()
    ensures C.Drops([]) == []
  {
  }

  lemma {:induction false} FillNeverDrops(resolver: C.Resolver, table: Name, added: seq<Column>, removed: seq<Column>, i: nat)
    requires i < |C.Fill(resolver, table, added, removed).edits|
    ensures !C.Fill(resolver, table, added, removed).edits[i].Drop?
    decreases |added|
  {
    hide C.Source;
    if added != [] {
      match C.Source(resolver, table, added[0], removed)
      case Some(j) =>
        var head := C.Renaming(removed[j], added[0]);
        if i >= |head| {
          FillNeverDrops(resolver, table, added[1..], Without(removed, j), i - |head|);
        }
      case None =>
        if i >= 1 {
          FillNeverDrops(resolver, table, added[1..], removed, i - 1);
        }
    }
  }

  /** A dropped column is a discarded one. */
  lemma ColumnDropMeans(resolver: C.Resolver, o: Table, t: Table, i: nat)
    requires i < |C.ColumnEdits(resolver, t.name, o.columns, t.columns)|
    ensures var e := C.ColumnEdits(resolver, t.name, o.columns, t.columns)[i];
            e.Drop? ==> e.column in Discarded(resolver, o, t)
  {
    hide C.Fill, C.Retypes, C.Drops, Absent;
    var added, removed := Absent(t.columns, o.columns, ColumnName), Absent(o.columns, t.columns, ColumnName);
    var filled := C.Fill(resolver, t.name, added, removed);
    var a, b := C.Retypes(t.columns, o.columns), filled.edits;
    if i < |a| {
      RetypesOnly(t.columns, o.columns, i);
    } else if i < |a| + |b| {
      FillNeverDrops(resolver, t.name, added, removed, i - |a|);
    } else {
      DropsLength(filled.left);
      DropsAt(filled.left, i - |a| - |b|);
    }
  }

  lemma DropsLength(left: seq<Column>)
    ensures |C.Drops(left)| == |left|
  {
    hide C.Drops;
    NoDrops();
    if left != [] {
      DropsAt(left, 0);
    }
  }

  lemma DiscardedIsDropped(resolver: C.Resolver, o: Table, t: Table, c: Column) returns (i: nat)
    requires c in Discarded(resolver, o, t)
    ensures i < |C.ColumnEdits(resolver, t.name, o.columns, t.columns)|
    ensures C.ColumnEdits(resolver, t.name, o.columns, t.columns)[i] == C.Drop(c)
  {
    hide C.Fill, C.Retypes, C.Drops, Absent;
    var left := Discarded(resolver, o, t);
    var j :| 0 <= j < |left| && left[j] == c;
    DropsAt(left, j);
    i := |C.ColumnEdits(resolver, t.name, o.columns, t.columns)| - |left| + j;
  }

  lemma LaterNoDrops(resolver: C.Resolver, o: Table, t: Table, k: nat)
    requires k < |TableEdits(resolver, o, t)| && Discards(TableEdits(resolver, o, t)[k])
    ensures k < |ColumnPhase(resolver, o, t)| && TableEdits(resolver, o, t)[k] == ColumnPhase(resolver, o, t)[k]
  {
    hide C.ColumnEdits, G.GrantEdits, K.KeyedEdits;
    var a, b, c, d, e :=
      ColumnPhase(resolver, o, t), FlagPhase(o, t), GrantPhase(o, t), PolicyPhase(o, t), IndexPhase(o, t);
    var j := k - |a| - |b|;
    if |a| <= k < |a| + |b| {
      assert false;
    } else if |a| + |b| <= k < |a| + |b| + |c| {
      WrapAt(WrapGrant, G.GrantEdits(o.grants, t.grants), j);
      assert false;
    } else if |a| + |b| + |c| <= k < |a| + |b| + |c| + |d| {
      WrapAt(WrapPolicy, K.KeyedEdits(o.policies, t.policies, PolicyName), j - |c|);
      assert false;
    } else if k >= |a| + |b| + |c| + |d| {
      WrapAt(WrapIndex, K.KeyedEdits(o.indexes, t.indexes, IndexName), j - |c| - |d|);
      assert false;
    }
  }

  /** The edits that drop a column of a kept table are those of its discarded columns. */
  lemma DropMeansDiscarded(resolver: C.Resolver, o: Table, t: Table, k: nat)
    requires k < |TableEdits(resolver, o, t)| && Discards(TableEdits(resolver, o, t)[k])
    ensures TableEdits(resolver, o, t)[k].column.column in Discarded(resolver, o, t)
  {
    hide C.ColumnEdits, TableEdits, Discarded;
    LaterNoDrops(resolver, o, t, k);
    WrapAt(WrapColumn, C.ColumnEdits(resolver, t.name, o.columns, t.columns), k);
    ColumnDropMeans(resolver, o, t, k);
  }

  lemma DiscardedMeansDrop(resolver: C.Resolver, o: Table, t: Table, c: Column) returns (k: nat)
    requires c in Discarded(resolver, o, t)
    ensures k < |TableEdits(resolver, o, t)| && TableEdits(resolver, o, t)[k] == OnColumns(C.Drop(c))
  {
    hide C.ColumnEdits, Discarded, FlagPhase, GrantPhase, PolicyPhase, IndexPhase;
    k := DiscardedIsDropped(resolver, o, t, c);
    WrapAt(WrapColumn, C.ColumnEdits(resolver, t.name, o.columns, t.columns), k);
  }

  /** Every column a kept table discards refers, if at all, to a table of the new schema. */
  ghost predicate DiscardedReady(resolver: C.Resolver, prior: Schema, next: Schema) {
    forall i :: 0 <= i < |next.tables| ==> TableDiscards(resolver, prior, next, next.tables[i])
  }

  ghost predicate TableDiscards(resolver: C.Resolver, prior: Schema, next: Schema, t: Table) {
    match Find(prior.tables, TableName, t.name)
    case None => true
    case Some(o) =>
      forall c :: c in Discarded(resolver, o, t) && c.attributes.references.Some? ==>
        c.attributes.references.value.table in TableNames(next.tables)
  }

  /** A change of the kept phase comes from an edit of a kept table. */
  lemma {:induction false} KeptChangeFrom(resolver: C.Resolver, news: seq<Table>, olds: seq<Table>, k: nat)
    returns (i: nat, at: nat)
    requires k < |KeptChanges(resolver, news, olds)|
    ensures i < |news| && Find(olds, TableName, news[i].name).Some?
    ensures at < |TableEdits(resolver, Find(olds, TableName, news[i].name).value, news[i])|
    ensures KeptChanges(resolver, news, olds)[k] ==
            OnTable(news[i].name, TableEdits(resolver, Find(olds, TableName, news[i].name).value, news[i])[at])
  {
    hide TableEdits, Find;
    var n := |news| - 1;
    var before := KeptChanges(resolver, news[..n], olds);
    if k < |before| {
      i, at := KeptChangeFrom(resolver, news[..n], olds, k);
    } else {
      i, at := n, k - |before|;
      WrapAt(TablePart(news[n].name).wrap, TableEdits(resolver, Find(olds, TableName, news[n].name).value, news[n]), at);
    }
  }

  lemma {:induction false} KeptChangeThere(resolver: C.Resolver, news: seq<Table>, olds: seq<Table>, i: nat, at: nat)
    returns (k: nat)
    requires i < |news| && Find(olds, TableName, news[i].name).Some?
    requires at < |TableEdits(resolver, Find(olds, TableName, news[i].name).value, news[i])|
    ensures k < |KeptChanges(resolver, news, olds)|
    ensures KeptChanges(resolver, news, olds)[k] ==
            OnTable(news[i].name, TableEdits(resolver, Find(olds, TableName, news[i].name).value, news[i])[at])
    decreases |news|
  {
    hide TableEdits, Find;
    var n := |news| - 1;
    if i < n {
      k := KeptChangeThere(resolver, news[..n], olds, i, at);
    } else {
      k := |KeptChanges(resolver, news[..n], olds)| + at;
      WrapAt(TablePart(news[n].name).wrap, TableEdits(resolver, Find(olds, TableName, news[n].name).value, news[n]), at);
    }
  }

  /** Throughout the kept phase the tables are those of the new schema. */
  lemma KeptTables(resolver: C.Resolver, prior: Schema, next: Schema, k: nat)
    requires WellFormed(prior) && WellFormed(next) && k < |KeptChanges(resolver, next.tables, prior.tables)|
    ensures var es := KeptChanges(resolver, next.tables, prior.tables);
            ApplyDb(Run(DBS, AfterCreates(prior, next), es[..k]), es[k]).tables.Keys == TableNames(next.tables)
  {
    hide Run, KeptChanges, AfterCreates, WellFormed, Find, EditFrom, TableNames, ApplyDb;
    var db, es := AfterCreates(prior, next), KeptChanges(resolver, next.tables, prior.tables);
    FinalTables(prior, next);
    forall i | 0 <= i < |es| ensures es[i].OnTable? && es[i].name in db.tables {
      var t := KeptChangesFrom(resolver, next.tables, prior.tables, i);
      NamedTable(next.tables, t);
    }
    TableNamesFixed(db, es, k + 1);
    assert es[..k + 1] == es[..k] + [es[k]];
    RunSnoc(DBS, db, es[..k], es[k]);
  }

  lemma NamedTable(ts: seq<Table>, t: Table)
    requires t in ts
    ensures t.name in TableNames(ts)
  {
  }

  lemma DiscardedReadyIff(resolver: C.Resolver, prior: Schema, next: Schema)
    requires WellFormed(prior) && WellFormed(next)
    ensures Throughout(DBS, AfterCreates(prior, next), KeptChanges(resolver, next.tables, prior.tables), DownReady)
            <==> DiscardedReady(resolver, prior, next)
  {
    hide Run, KeptChanges, AfterCreates, WellFormed, Find, TableNames, ApplyDb, TableEdits, Discarded, Targets;
    var db, news, olds := AfterCreates(prior, next), next.tables, prior.tables;
    var es := KeptChanges(resolver, news, olds);
    if Throughout(DBS, db, es, DownReady) {
      forall i, c | 0 <= i < |news| && Find(olds, TableName, news[i].name).Some? &&
                    c in Discarded(resolver, Find(olds, TableName, news[i].name).value, news[i]) &&
                    c.attributes.references.Some?
        ensures c.attributes.references.value.table in TableNames(news)
      {
        var at := DiscardedMeansDrop(resolver, Find(olds, TableName, news[i].name).value, news[i], c);
        var k := KeptChangeThere(resolver, news, olds, i, at);
        KeptTables(resolver, prior, next, k);
        assert DownReady(Run(DBS, db, es[..k]), es[k]);
      }
    }
    if DiscardedReady(resolver, prior, next) {
      forall k | 0 <= k < |es| ensures DownReady(Run(DBS, db, es[..k]), es[k]) {
        var i, at := KeptChangeFrom(resolver, news, olds, k);
        KeptTables(resolver, prior, next, k);
        if Discards(es[k].edit) {
          DropMeansDiscarded(resolver, Find(olds, TableName, news[i].name).value, news[i], at);
          assert TableDiscards(resolver, prior, next, news[i]);
        }
      }
    }
  }

  // ----- The whole way down --------------------------------------------------------------------------------------

  lemma NeverUndone(resolver: C.Resolver, prior: Schema, next: Schema)
    ensures Throughout(DBS, DbOf(prior), RoleChanges(next.roles, prior.roles), DownReady)
    ensures Throughout(DBS, AfterDrops(prior, next), Wrap(WrapCreate, Created(prior, next)), DownReady)
    ensures Throughout(DBS, AfterKept(resolver, prior, next),
                       Wrap(WrapRoleDrop, Absent(prior.roles, next.roles, RoleName)), DownReady)
  {
    hide Run, RoleChanges, Created, DbOf, AfterDrops, AfterKept, Absent, ApplyDb, Targets;
    RoleOnlyPhases(resolver, prior, next, DownReady);
    var cs := Wrap(WrapCreate, Created(prior, next));
    forall k | 0 <= k < |cs| ensures DownReady(Run(DBS, AfterDrops(prior, next), cs[..k]), cs[k]) {
      WrapAt(WrapCreate, Created(prior, next), k);
    }
  }

  /**
   * With closed foreign keys in the old schema, every table `down` recreates and every column it adds
   * back finds the tables it refers to, exactly when the dropped tables form no cycle and no kept
   * table discards a column that refers to a dropped one.
   */
  lemma DownTargetsReadyIff(resolver: C.Resolver, prior: Schema, next: Schema)
    requires WellFormed(prior) && WellFormed(next) && KeysClosed(prior)
    ensures var es, db := Diff(resolver, prior, next), DbOf(prior);
            (forall k :: 0 <= k < |es| ==> UndoReady(Rewind(DBS, Run(DBS, db, es), es[k + 1..]), es[k]))
            <==> Acyclic(Absent(prior.tables, next.tables, TableName)) && DiscardedReady(resolver, prior, next)
  {
    hide Run, Rewind, AllFit, Throughout, Diff, DbOf, Wrap, RoleChanges, KeptChanges, Dropped, Created, AfterRoles, AfterDrops,
      Absent, AfterCreates, AfterKept, AfterAll, Acyclic, WellFormed, KeysClosed, DiscardedReady, UndoReady, DownReady;
    DiffRuns(resolver, prior, next);
    DownwardIff(DbOf(prior), Diff(resolver, prior, next));
    RecreatedReadyIff(prior, next);
    DiscardedReadyIff(resolver, prior, next);
    NeverUndone(resolver, prior, next);
    if Throughout(DBS, DbOf(prior), Diff(resolver, prior, next), DownReady) {
      ThroughoutPhases(resolver, prior, next, DownReady);
    } else if Acyclic(Absent(prior.tables, next.tables, TableName)) && DiscardedReady(resolver, prior, next) {
      ThroughoutDiff(resolver, prior, next, DownReady);
    }
  }

  /** A kept table whose column refers to a dropped one gets it back before that table is recreated. */
  lemma DiscardedReferenceBlocksDown(resolver: C.Resolver)
    ensures var prior := Schema([Bare("a", [Reference("b")]), Bare("b", [])], []);
            var next := Schema([Bare("a", [])], []);
            var es, db := Diff(resolver, prior, next), DbOf(prior);
            && WellFormed(prior) && WellFormed(next) && KeysClosed(prior)
            && !(forall k :: 0 <= k < |es| ==> UndoReady(Rewind(DBS, Run(DBS, db, es), es[k + 1..]), es[k]))
  {
    hide Run, Rewind, Diff, DbOf, WellFormedTable, WellFormed, UndoReady, DiscardedReady, Acyclic;
    var a, b := Bare("a", [Reference("b")]), Bare("b", []);
    var prior, next := Schema([a, b], []), Schema([Bare("a", [])], []);
    assert "a"[0] != "b"[0];
    BareIsFine("a", [Reference("b")]);
    BareIsFine("b", []);
    BareIsFine("a", []);
    PairWellFormed(a, b);
    PairWellFormed(Bare("a", []), b);
    assert KeysClosed(prior) by {
      assert b in prior.tables;
    }
    ReferenceIsDiscarded(resolver);
    DownTargetsReadyIff(resolver, prior, next);
  }

  lemma ReferenceIsDiscarded(resolver: C.Resolver)
    ensures var prior := Schema([Bare("a", [Reference("b")]), Bare("b", [])], []);
            !DiscardedReady(resolver, prior, Schema([Bare("a", [])], []))
  {
    var a, t := Bare("a", [Reference("b")]), Bare("a", []);
    var prior, next := Schema([a, Bare("b", [])], []), Schema([t], []);
    assert "a"[0] != "b"[0];
    assert Find(prior.tables, TableName, "a") == Some(a);
    assert Absent(t.columns, a.columns, ColumnName) == [];
    assert Reference("b") in [Reference("b")];
    assert Reference("b") in Absent(a.columns, t.columns, ColumnName);
    hide Absent, Find;
    assert Reference("b") in Discarded(resolver, a, t);
    assert "b" !in TableNames(next.tables);
    assert !TableDiscards(resolver, prior, next, next.tables[0]);
  }
}
