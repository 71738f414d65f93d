/**
 * Diffing the columns of a kept table (crates/orm-cli/src/diff.rs, `diff_table`): retypes of
 * surviving columns, then renames and additions as the resolver decides, then drops.
 */
module ColumnDiff {
  import opened Wrappers
  import opened SchemaModel
  import opened Machines
  import opened TopoSort

  datatype ColumnEdit =
    | Add(column: Column)
    | Drop(column: Column)
    | Alter(before: Column, after: Column)
    | Rename(from: Name, to: Name)

  type Columns = map<Name, Column>

  /** `ALTER TYPE` sets the type and the nullability and leaves the rest. */
  function Retyped(c: Column, like: Column): Column {
    c.(sqlType := like.sqlType, nullable := like.nullable)
  }

  function SetType(m: Columns, like: Column): Columns {
    if like.name in m then m[like.name := Retyped(m[like.name], like)] else m
  }

  function Moved(m: Columns, from: Name, to: Name): Columns {
    if from in m then (m - {from})[to := m[from].(name := to)] else m
  }

  function ApplyColumn(m: Columns, e: ColumnEdit): Columns {
    match e
    case Add(c) => m[c.name := c]
    case Drop(c) => m - {c.name}
    case Alter(_, after) => SetType(m, after)
    case Rename(from, to) => Moved(m, from, to)
  }

  predicate FitsColumn(m: Columns, e: ColumnEdit) {
    match e
    case Add(c) => c.name !in m
    case Drop(c) => c.name in m && m[c.name] == c
    case Alter(before, after) =>
      before.name == after.name && before.name in m && Retyped(m[before.name], before) == m[before.name]
    case Rename(from, to) => from in m && m[from].name == from && to !in m
  }

  function UndoColumn(m: Columns, e: ColumnEdit): Columns {
    match e
    case Add(c) => m - {c.name}
    case Drop(c) => m[c.name := c]
    case Alter(before, _) => SetType(m, before)
    case Rename(from, to) => Moved(m, to, from)
  }

  const COLUMNS: Machine<Columns, ColumnEdit> := Machine(ApplyColumn, FitsColumn, UndoColumn)

  lemma ColumnsReverse(m: Columns, e: ColumnEdit)
    requires FitsColumn(m, e)
    ensures UndoColumn(ApplyColumn(m, e), e) == m
  {
    match e
    case Add(c) => assert m[c.name := c] - {c.name} == m;
    case Drop(c) => assert (m - {c.name})[c.name := c] == m;
    case Alter(before, after) => assert UndoColumn(ApplyColumn(m, e), e) == m;
    case Rename(from, to) =>
      var out := ApplyColumn(m, e);
      assert out[to].(name := from) == m[from];
      assert (out - {to})[from := m[from]] == m;
  }

  // ----- The edit list --------------------------------------------------------------------------

  /** The interactive rename decision: any function of the table, the new column and the candidates. */
  type Resolver = (Name, Column, seq<Column>) -> Option<Name>

  function Retype(c: Column, olds: seq<Column>): seq<ColumnEdit> {
    match Find(olds, ColumnName, c.name)
    case Some(o) => if TypeDiffers(c, o) then [Alter(o, c)] else []
    case None => []
  }

  function Retypes(news: seq<Column>, olds: seq<Column>): seq<ColumnEdit> {
    if news == [] then [] else Retypes(news[..|news| - 1], olds) + Retype(news[|news| - 1], olds)
  }

  function PositionOf(xs: seq<Column>, name: Name): (at: Option<nat>)
    ensures at.Some? ==> at.value < |xs| && xs[at.value].name == name
    ensures at.None? ==> forall x :: x in xs ==> x.name != name
  {
    if xs == [] then None
    else if xs[0].name == name then Some(0)
    else
      assert xs == [xs[0]] + xs[1..];
      match PositionOf(xs[1..], name) case None => None case Some(i) => Some(i + 1)
  }

  /** Which removed column, if any, a new column is declared to be. */
  function Source(resolver: Resolver, table: Name, c: Column, removed: seq<Column>): (at: Option<nat>)
    ensures at.Some? ==> at.value < |removed|
  {
    if removed == [] then None
    else match resolver(table, c, removed) case None => None case Some(name) => PositionOf(removed, name)
  }

  /** The old column under its new name, retyped if the types differ. */
  function Renaming(o: Column, c: Column): seq<ColumnEdit> {
    [Rename(o.name, c.name)] + (if TypeDiffers(o, c) then [Alter(o.(name := c.name), c)] else [])
  }

  datatype Filled = Filled(edits: seq<ColumnEdit>, left: seq<Column>)

  function Fill(resolver: Resolver, table: Name, added: seq<Column>, removed: seq<Column>): Filled {
    if added == [] then Filled([], removed) else
      match Source(resolver, table, added[0], removed)
      case Some(i) =>
        var rest := Fill(resolver, table, added[1..], Without(removed, i));
        Filled(Renaming(removed[i], added[0]) + rest.edits, rest.left)
      case None =>
        var rest := Fill(resolver, table, added[1..], removed);
        Filled([Add(added[0])] + rest.edits, rest.left)
  }

  function Drops(left: seq<Column>): seq<ColumnEdit> {
    if left == [] then [] else Drops(left[..|left| - 1]) + [Drop(left[|left| - 1])]
  }

  function ColumnEdits(resolver: Resolver, table: Name, olds: seq<Column>, news: seq<Column>): seq<ColumnEdit> {
    var filled := Fill(resolver, table, Absent(news, olds, ColumnName), Absent(olds, news, ColumnName));
    Retypes(news, olds) + filled.edits + Drops(filled.left)
  }

  // ----- Phase 1: surviving columns ----------------------------------------------------------------

  ghost function ColumnNames(cs: seq<Column>): set<Name> {
    set c | c in cs :: c.name
  }

  /** The old columns, those named in `news` retyped like them. */
  ghost function Survivors(olds: seq<Column>, news: seq<Column>): Columns {
    var oldMap, newMap := ByKey(olds, ColumnName), ByKey(news, ColumnName);
    map k | k in oldMap :: if k in newMap then Retyped(oldMap[k], newMap[k]) else oldMap[k]
  }

  lemma RetypesStep(news: seq<Column>, n: nat, olds: seq<Column>)
    requires n <= |news|
    ensures n == 0 ==> Retypes(news[..n], olds) == [] && ByKey(news[..n], ColumnName) == map[]
    ensures n > 0 ==>
              && Retypes(news[..n], olds) == Retypes(news[..n - 1], olds) + Retype(news[n - 1], olds)
              && ByKey(news[..n], ColumnName) == ByKey(news[..n - 1], ColumnName)[news[n - 1].name := news[n - 1]]
  {
    if n > 0 {
      assert news[..n][..n - 1] == news[..n - 1];
    }
  }

  lemma NoEdits(m: Columns)
    ensures Run(COLUMNS, m, []) == m && AllFit(COLUMNS, m, [])
  {
  }

  lemma OneEdit(m: Columns, e: ColumnEdit)
    requires FitsColumn(m, e)
    ensures Run(COLUMNS, m, [e]) == ApplyColumn(m, e) && AllFit(COLUMNS, m, [e])
  {
    assert [e][..0] == [];
  }

  lemma Then(m: Columns, a: seq<ColumnEdit>, b: seq<ColumnEdit>)
    requires AllFit(COLUMNS, m, a) && AllFit(COLUMNS, Run(COLUMNS, m, a), b)
    ensures Run(COLUMNS, m, a + b) == Run(COLUMNS, Run(COLUMNS, m, a), b)
    ensures AllFit(COLUMNS, m, a + b)
  {
    RunConcat(COLUMNS, m, a, b);
    FitConcat(COLUMNS, m, a, b);
  }

  lemma {:induction false} RunRetypes(olds: seq<Column>, news: seq<Column>, n: nat)
    requires UniqueKeys(olds, ColumnName) && UniqueKeys(news, ColumnName) && n <= |news|
    ensures AllFit(COLUMNS, ByKey(olds, ColumnName), Retypes(news[..n], olds))
    ensures Run(COLUMNS, ByKey(olds, ColumnName), Retypes(news[..n], olds)) == Survivors(olds, news[..n])
  {
    hide Run, AllFit, ByKey, Retypes, UniqueKeys, Find, Survivors;
    RetypesStep(news, n, olds);
    var oldMap := ByKey(olds, ColumnName);
    SurvivorsStep(olds, news, n);
    if n == 0 {
      NoEdits(oldMap);
    } else {
      RunRetypes(olds, news, n - 1);
      var c, m := news[n - 1], Survivors(olds, news[..n - 1]);
      FindIsLookup(olds, ColumnName, c.name);
      NoEdits(m);
      if c.name in oldMap && TypeDiffers(c, oldMap[c.name]) {
        OneEdit(m, Alter(oldMap[c.name], c));
      }
      Then(oldMap, Retypes(news[..n - 1], olds), Retype(c, olds));
    }
  }

  lemma SurvivorsStep(olds: seq<Column>, news: seq<Column>, n: nat)
    requires UniqueKeys(olds, ColumnName) && UniqueKeys(news, ColumnName) && n <= |news|
    ensures n == 0 ==> Survivors(olds, news[..n]) == ByKey(olds, ColumnName)
    ensures n > 0 ==>
              var c, oldMap := news[n - 1], ByKey(olds, ColumnName);
              var m := Survivors(olds, news[..n - 1]);
              && (c.name in oldMap ==> c.name in m && m[c.name] == oldMap[c.name] && oldMap[c.name].name == c.name)
              && Survivors(olds, news[..n]) == SetType(m, c)
              && (c.name in oldMap && !TypeDiffers(c, oldMap[c.name]) ==> SetType(m, c) == m)
              && (c.name !in oldMap ==> SetType(m, c) == m)
  {
    hide ByKey, UniqueKeys, Retypes, Survivors, SetType;
    RetypesStep(news, n, olds);
    if n == 0 {
      NoneRetyped(olds, news[..0]);
    } else {
      NewName(news, n - 1);
      OneSurvivor(olds, news[..n - 1], news[..n], news[n - 1]);
    }
  }

  lemma NoneRetyped(olds: seq<Column>, news: seq<Column>)
    requires ByKey(news, ColumnName) == map[]
    ensures Survivors(olds, news) == ByKey(olds, ColumnName)
  {
    hide ByKey;
  }

  /** Retyping like one more column, of a new name. */
  lemma OneSurvivor(olds: seq<Column>, some: seq<Column>, more: seq<Column>, c: Column)
    requires UniqueKeys(olds, ColumnName) && c.name !in ByKey(some, ColumnName)
    requires ByKey(more, ColumnName) == ByKey(some, ColumnName)[c.name := c]
    ensures var oldMap, m := ByKey(olds, ColumnName), Survivors(olds, some);
            && (c.name in oldMap ==> c.name in m && m[c.name] == oldMap[c.name] && oldMap[c.name].name == c.name)
            && Survivors(olds, more) == SetType(m, c)
            && (c.name in oldMap && !TypeDiffers(c, oldMap[c.name]) ==> SetType(m, c) == m)
            && (c.name !in oldMap ==> SetType(m, c) == m)
  {
    hide ByKey, UniqueKeys;
    var m := Survivors(olds, some);
    assert Survivors(olds, more) == SetType(m, c);
  }

  lemma NewName(news: seq<Column>, n: nat)
    requires n < |news| && UniqueKeys(news, ColumnName)
    ensures news[n].name !in ByKey(news[..n], ColumnName)
  {
    assert forall i :: 0 <= i < n ==> ColumnName(news[i]) != ColumnName(news[n]);
  }

  // ----- Phase 2: renames and additions ----------------------------------------------------------------

  /** `f` is the new column itself, or a removed one under its name, type and nullability. */
  ghost predicate From(f: Column, c: Column, removed: seq<Column>) {
    f == c || exists o :: o in removed && f == Retyped(o.(name := c.name), c)
  }

  ghost predicate KeysFilled(m: Columns, out: Columns, added: seq<Column>, removed: seq<Column>, left: seq<Column>) {
    out.Keys == (m.Keys - ColumnNames(removed)) + ColumnNames(added) + ColumnNames(left)
  }

  /** Everything but the removed columns is untouched, the added ones arrive, the left ones remain. */
  ghost predicate FilledIn(m: Columns, out: Columns, added: seq<Column>, removed: seq<Column>, left: seq<Column>) {
    && KeysFilled(m, out, added, removed, left)
    && (forall k :: k in m && k !in ColumnNames(removed) ==> k in out && out[k] == m[k])
    && (forall c :: c in added ==> c.name in out && From(out[c.name], c, removed))
    && (forall o :: o in left ==> o in removed && o.name in out && out[o.name] == o)
    && UniqueKeys(left, ColumnName)
  }

  ghost predicate Fillable(m: Columns, added: seq<Column>, removed: seq<Column>) {
    && UniqueKeys(added, ColumnName) && UniqueKeys(removed, ColumnName)
    && (forall c :: c in added ==> c.name !in m)
    && (forall o :: o in removed ==> o.name in m && m[o.name] == o)
  }

  lemma RunRenaming(m: Columns, o: Column, c: Column)
    requires o.name in m && m[o.name] == o && c.name !in m
    ensures AllFit(COLUMNS, m, Renaming(o, c))
    ensures Run(COLUMNS, m, Renaming(o, c)) == (m - {o.name})[c.name := Retyped(o.(name := c.name), c)]
  {
    hide Run, AllFit;
    var moved := ApplyColumn(m, Rename(o.name, c.name));
    OneEdit(m, Rename(o.name, c.name));
    if TypeDiffers(o, c) {
      OneEdit(moved, Alter(o.(name := c.name), c));
      Then(m, [Rename(o.name, c.name)], [Alter(o.(name := c.name), c)]);
      assert ApplyColumn(moved, Alter(o.(name := c.name), c)) ==
             (m - {o.name})[c.name := Retyped(o.(name := c.name), c)];
    } else {
      assert Renaming(o, c) == [Rename(o.name, c.name)];
    }
  }

  lemma RemovedWithout(removed: seq<Column>, i: nat)
    requires i < |removed| && UniqueKeys(removed, ColumnName)
    ensures var rest := Without(removed, i);
            && UniqueKeys(rest, ColumnName)
            && ColumnNames(rest) == ColumnNames(removed) - {removed[i].name}
            && (forall o :: o in rest ==> o in removed && o.name != removed[i].name)
  {
    var rest := Without(removed, i);
    forall o | o in rest ensures o in removed && o.name != removed[i].name {
      var k :| 0 <= k < |rest| && rest[k] == o;
      var at := if k < i then k else k + 1;
      assert removed[at] == o && ColumnName(removed[at]) != ColumnName(removed[i]);
    }
    hide UniqueKeys;
    RestKeepsTheOthers(removed, i);
  }

  lemma RestKeepsTheOthers(removed: seq<Column>, i: nat)
    requires i < |removed|
    ensures forall o :: o in removed && o.name != removed[i].name ==> o in Without(removed, i)
  {
    var rest := Without(removed, i);
    forall o | o in removed && o.name != removed[i].name ensures o in rest {
      var k :| 0 <= k < |removed| && removed[k] == o;
      assert rest[if k < i then k else k - 1] == o;
    }
  }

  /** After one column is dealt with, the rest of the work starts from a fillable state. */
  lemma AfterRename(m: Columns, added: seq<Column>, removed: seq<Column>, i: nat, out: Columns, left: seq<Column>)
    requires Fillable(m, added, removed) && added != [] && i < |removed|
    requires var m' := (m - {removed[i].name})[added[0].name := Retyped(removed[i].(name := added[0].name), added[0])];
             FilledIn(m', out, added[1..], Without(removed, i), left)
    ensures FilledIn(m, out, added, removed, left)
  {
    hide From, Retyped, UniqueKeys, KeysFilled, ColumnNames, Without, Fillable;
    var c, o := added[0], removed[i];
    var m' := (m - {o.name})[c.name := Retyped(o.(name := c.name), c)];
    SourceNames(m, added, removed, i);
    FirstAdded(added);
    RemovedWithout(removed, i);
    forall d | d in added[1..] ensures d.name in out && From(out[d.name], d, removed) {
      FromGrows(out[d.name], d, Without(removed, i), removed);
    }
    RenamedKeys(m, m', added, removed, i, out, left);
  }

  lemma SourceNames(m: Columns, added: seq<Column>, removed: seq<Column>, i: nat)
    requires Fillable(m, added, removed) && added != [] && i < |removed|
    ensures var c, o := added[0], removed[i];
            && o.name in ColumnNames(removed) && c.name !in ColumnNames(removed) && c.name !in m
            && From(Retyped(o.(name := c.name), c), c, removed)
    ensures UniqueKeys(removed, ColumnName) && forall o :: o in removed ==> o.name in m
  {
    assert removed[i] in removed;
  }

  lemma FirstAdded(added: seq<Column>)
    requires added != []
    ensures ColumnNames(added) == {added[0].name} + ColumnNames(added[1..])
    ensures forall d :: d in added <==> d == added[0] || d in added[1..]
  {
    assert added == [added[0]] + added[1..];
  }

  lemma RenamedKeys(m: Columns, m': Columns, added: seq<Column>, removed: seq<Column>, i: nat, out: Columns, left: seq<Column>)
    requires added != [] && i < |removed| && UniqueKeys(removed, ColumnName)
    requires added[0].name !in m && (forall o :: o in removed ==> o.name in m)
    requires m'.Keys == m.Keys - {removed[i].name} + {added[0].name}
    requires KeysFilled(m', out, added[1..], Without(removed, i), left)
    ensures KeysFilled(m, out, added, removed, left)
  {
    RemovedWithout(removed, i);
    assert added == [added[0]] + added[1..];
    assert ColumnNames(added) == {added[0].name} + ColumnNames(added[1..]);
    assert removed[i] in removed;
  }

  lemma FromGrows(f: Column, c: Column, some: seq<Column>, all: seq<Column>)
    requires From(f, c, some) && forall o :: o in some ==> o in all
    ensures From(f, c, all)
  {
  }

  lemma AfterAdd(m: Columns, added: seq<Column>, removed: seq<Column>, out: Columns, left: seq<Column>)
    requires Fillable(m, added, removed) && added != []
    requires FilledIn(m[added[0].name := added[0]], out, added[1..], removed, left)
    ensures FilledIn(m, out, added, removed, left)
  {
    hide From, UniqueKeys, ColumnNames, Fillable;
    AddedIsNew(m, added, removed);
    FirstAdded(added);
  }

  lemma AddedIsNew(m: Columns, added: seq<Column>, removed: seq<Column>)
    requires Fillable(m, added, removed) && added != []
    ensures added[0].name !in ColumnNames(removed) && added[0].name !in m && From(added[0], added[0], removed)
  {
  }

  lemma StillFillable(m: Columns, added: seq<Column>, removed: seq<Column>)
    requires Fillable(m, added, removed) && added != []
    ensures Fillable(m[added[0].name := added[0]], added[1..], removed)
    ensures forall i :: 0 <= i < |removed| ==>
              Fillable((m - {removed[i].name})[added[0].name := Retyped(removed[i].(name := added[0].name), added[0])],
                       added[1..], Without(removed, i))
  {
    assert forall k :: 1 <= k < |added| ==> ColumnName(added[k]) != ColumnName(added[0]);
    forall i | 0 <= i < |removed|
      ensures Fillable((m - {removed[i].name})[added[0].name := Retyped(removed[i].(name := added[0].name), added[0])],
                       added[1..], Without(removed, i))
    {
      RemovedWithout(removed, i);
    }
  }

  lemma {:induction false} RunFill(m: Columns, resolver: Resolver, table: Name, added: seq<Column>, removed: seq<Column>)
    requires Fillable(m, added, removed)
    ensures var filled := Fill(resolver, table, added, removed);
            && AllFit(COLUMNS, m, filled.edits)
            && FilledIn(m, Run(COLUMNS, m, filled.edits), added, removed, filled.left)
    decreases |added|
  {
    hide Run, AllFit, FilledIn, Fillable, Source;
    if added == [] {
      NoEdits(m);
      NothingToFill(m, removed);
    } else {
      StillFillable(m, added, removed);
      Usable(m, added, removed);
      var c := added[0];
      var source := Source(resolver, table, c, removed);
      match source
      case Some(i) =>
        var m' := (m - {removed[i].name})[c.name := Retyped(removed[i].(name := c.name), c)];
        RunRenaming(m, removed[i], c);
        RunFill(m', resolver, table, added[1..], Without(removed, i));
        var rest := Fill(resolver, table, added[1..], Without(removed, i));
        Then(m, Renaming(removed[i], c), rest.edits);
        AfterRename(m, added, removed, i, Run(COLUMNS, m', rest.edits), rest.left);
      case None =>
        OneEdit(m, Add(c));
        RunFill(m[c.name := c], resolver, table, added[1..], removed);
        var rest := Fill(resolver, table, added[1..], removed);
        Then(m, [Add(c)], rest.edits);
        AfterAdd(m, added, removed, Run(COLUMNS, m[c.name := c], rest.edits), rest.left);
    }
  }

  lemma NothingToFill(m: Columns, removed: seq<Column>)
    requires Fillable(m, [], removed)
    ensures FilledIn(m, m, [], removed, removed)
  {
    assert ColumnNames([]) == {};
  }

  lemma Usable(m: Columns, added: seq<Column>, removed: seq<Column>)
    requires Fillable(m, added, removed)
    ensures added != [] ==> added[0].name !in m
    ensures forall i :: 0 <= i < |removed| ==> removed[i].name in m && m[removed[i].name] == removed[i]
  {
  }

  // ----- Phase 3: drops --------------------------------------------------------------------------------

  lemma {:induction false} RunDrops(m: Columns, left: seq<Column>)
    requires UniqueKeys(left, ColumnName) && forall o :: o in left ==> o.name in m && m[o.name] == o
    ensures AllFit(COLUMNS, m, Drops(left))
    ensures Run(COLUMNS, m, Drops(left)) == m - ColumnNames(left)
  {
    if left == [] {
      NoEdits(m);
    } else {
      var n := |left| - 1;
      var o := left[n];
      assert left == left[..n] + [o];
      RunDrops(m, left[..n]);
      hide Run, AllFit, Drops;
      assert o.name !in ColumnNames(left[..n]) by {
        assert forall i :: 0 <= i < n ==> ColumnName(left[i]) != ColumnName(o);
      }
      OneEdit(m - ColumnNames(left[..n]), Drop(o));
      Then(m, Drops(left[..n]), [Drop(o)]);
      assert ColumnNames(left) == ColumnNames(left[..n]) + {o.name};
      assert Drops(left) == Drops(left[..n]) + [Drop(o)];
      assert m - ColumnNames(left[..n]) - {o.name} == m - ColumnNames(left);
    }
  }

  // ----- The whole column diff ---------------------------------------------------------------------------

  /** A surviving column keeps its attributes and takes the new type; another one is new or renamed. */
  ghost predicate Arrived(f: Column, c: Column, olds: seq<Column>, news: seq<Column>) {
    match Find(olds, ColumnName, c.name)
    case Some(o) => f == Retyped(o, c)
    case None => From(f, c, Absent(olds, news, ColumnName))
  }

  /** Exactly the new columns exist, each with the new name, type and nullability. */
  ghost predicate Reached(final: Columns, olds: seq<Column>, news: seq<Column>) {
    && final.Keys == ColumnNames(news)
    && forall c :: c in news ==> c.name in final && Arrived(final[c.name], c, olds, news)
  }

  lemma ReachedTypes(final: Columns, olds: seq<Column>, news: seq<Column>, c: Column)
    requires Reached(final, olds, news) && c in news
    ensures c.name in final && final[c.name].name == c.name && !TypeDiffers(final[c.name], c)
  {
  }

  lemma ReadyToFill(olds: seq<Column>, news: seq<Column>)
    requires UniqueKeys(olds, ColumnName) && UniqueKeys(news, ColumnName)
    ensures Fillable(Survivors(olds, news), Absent(news, olds, ColumnName), Absent(olds, news, ColumnName))
  {
    AbsentUnique(olds, news, ColumnName);
    AbsentUnique(news, olds, ColumnName);
    hide UniqueKeys, Absent;
    forall c | c in Absent(news, olds, ColumnName) ensures c.name !in Survivors(olds, news) {
      FindIsLookup(olds, ColumnName, c.name);
    }
    forall o | o in Absent(olds, news, ColumnName)
      ensures o.name in Survivors(olds, news) && Survivors(olds, news)[o.name] == o
    {
      FindIsLookup(news, ColumnName, o.name);
      ByKeyIn(olds, ColumnName, o);
    }
  }

  lemma AllArrived(olds: seq<Column>, news: seq<Column>, out: Columns, left: seq<Column>)
    requires UniqueKeys(olds, ColumnName) && UniqueKeys(news, ColumnName)
    requires FilledIn(Survivors(olds, news), out, Absent(news, olds, ColumnName), Absent(olds, news, ColumnName), left)
    ensures Reached(out - ColumnNames(left), olds, news)
  {
    hide UniqueKeys, FilledIn, Survivors, Absent, Arrived;
    var final := out - ColumnNames(left);
    forall c | c in news ensures c.name in final && Arrived(final[c.name], c, olds, news) {
      EachArrived(olds, news, out, left, c);
    }
    forall k | k in final ensures k in ColumnNames(news) {
      NothingElse(olds, news, out, left, k);
    }
  }

  lemma EachArrived(olds: seq<Column>, news: seq<Column>, out: Columns, left: seq<Column>, c: Column)
    requires UniqueKeys(olds, ColumnName) && UniqueKeys(news, ColumnName) && c in news
    requires FilledIn(Survivors(olds, news), out, Absent(news, olds, ColumnName), Absent(olds, news, ColumnName), left)
    ensures var final := out - ColumnNames(left); c.name in final && Arrived(final[c.name], c, olds, news)
  {
    hide UniqueKeys, Absent, From, ByKey;
    var m, added, removed := Survivors(olds, news), Absent(news, olds, ColumnName), Absent(olds, news, ColumnName);
    assert ColumnNames(left) <= ColumnNames(removed);
    FindIsLookup(olds, ColumnName, c.name);
    ByKeyIn(news, ColumnName, c);
    FindIsLookup(news, ColumnName, c.name);
    if Find(olds, ColumnName, c.name).Some? {
      assert c.name in m && c.name !in ColumnNames(removed);
    } else {
      assert c in added;
      LeftAreOld(olds, news, left, c.name);
    }
  }

  lemma NothingElse(olds: seq<Column>, news: seq<Column>, out: Columns, left: seq<Column>, k: Name)
    requires UniqueKeys(olds, ColumnName) && UniqueKeys(news, ColumnName)
    requires FilledIn(Survivors(olds, news), out, Absent(news, olds, ColumnName), Absent(olds, news, ColumnName), left)
    requires k in out && k !in ColumnNames(left)
    ensures k in ColumnNames(news)
  {
    hide UniqueKeys, From, Absent;
    var m, removed := Survivors(olds, news), Absent(olds, news, ColumnName);
    if k in m {
      FindIsLookup(news, ColumnName, k);
      FindIsLookup(olds, ColumnName, k);
      if Find(news, ColumnName, k).None? {
        assert ByKey(olds, ColumnName)[k] in removed;
        assert k in ColumnNames(removed);
      }
    }
  }

  lemma LeftAreOld(olds: seq<Column>, news: seq<Column>, left: seq<Column>, name: Name)
    requires forall o :: o in left ==> o in Absent(olds, news, ColumnName)
    requires Find(olds, ColumnName, name).None?
    ensures name !in ColumnNames(left)
  {
  }

  /** Each column edit meets the column it expects or a free name, and the new columns are reached. */
  lemma ColumnEditsCorrect(resolver: Resolver, table: Name, olds: seq<Column>, news: seq<Column>)
    requires UniqueKeys(olds, ColumnName) && UniqueKeys(news, ColumnName)
    ensures AllFit(COLUMNS, ByKey(olds, ColumnName), ColumnEdits(resolver, table, olds, news))
    ensures Reached(Run(COLUMNS, ByKey(olds, ColumnName), ColumnEdits(resolver, table, olds, news)), olds, news)
  {
    hide Run, AllFit, Retypes, Fill, Drops, Absent, Survivors, UniqueKeys, Reached;
    var oldMap := ByKey(olds, ColumnName);
    var filled := Fill(resolver, table, Absent(news, olds, ColumnName), Absent(olds, news, ColumnName));
    assert news[..|news|] == news;
    RunRetypes(olds, news, |news|);
    ReadyToFill(olds, news);
    RunFill(Survivors(olds, news), resolver, table, Absent(news, olds, ColumnName), Absent(olds, news, ColumnName));
    Then(oldMap, Retypes(news, olds), filled.edits);
    var out := Run(COLUMNS, oldMap, Retypes(news, olds) + filled.edits);
    RunDrops(out, filled.left);
    Then(oldMap, Retypes(news, olds) + filled.edits, Drops(filled.left));
    AllArrived(olds, news, out, filled.left);
  }
}
