/**
 * Where each added column of a kept table comes from (crates/orm-cli/src/diff.rs, `diff_table`), and
 * when the migrated columns are exactly the declared ones.
 */
module ColumnOrigins {
  import opened Wrappers
  import opened SchemaModel
  import opened Machines
  import opened TopoSort
  import opened ColumnDiff

  // ----- The resolver's choices ---------------------------------------------------------------------------

  /** The removed columns still there when the k-th added column is asked about. */
  function Offered(resolver: Resolver, table: Name, added: seq<Column>, removed: seq<Column>, k: nat): seq<Column>
    requires k <= |added|
  {
    if k == 0 then removed
    else
      var before := Offered(resolver, table, added, removed, k - 1);
      match Source(resolver, table, added[k - 1], before)
      case Some(i) => Without(before, i)
      case None => before
  }

  /** The removed column that becomes the k-th added one, if any does. */
  function Origin(resolver: Resolver, table: Name, added: seq<Column>, removed: seq<Column>, k: nat): Option<Column>
    requires k < |added|
  {
    var offered := Offered(resolver, table, added, removed, k);
    match Source(resolver, table, added[k], offered)
    case Some(i) => Some(offered[i])
    case None => None
  }

  /** A column is renamed exactly from the offered one the resolver names. */
  lemma OriginIff(resolver: Resolver, table: Name, added: seq<Column>, removed: seq<Column>, k: nat, o: Column)
    requires UniqueKeys(removed, ColumnName) && k < |added|
    ensures var offered := Offered(resolver, table, added, removed, k);
            Origin(resolver, table, added, removed, k) == Some(o)
            <==> o in offered && resolver(table, added[k], offered) == Some(o.name)
  {
    hide UniqueKeys, Offered;
    OfferedUnique(resolver, table, added, removed, k);
    var offered := Offered(resolver, table, added, removed, k);
    if o in offered && resolver(table, added[k], offered) == Some(o.name) {
      var i := PositionOf(offered, o.name).value;
      OneOfName(offered, o, offered[i]);
    }
  }

  lemma OneOfName(cs: seq<Column>, a: Column, b: Column)
    requires UniqueKeys(cs, ColumnName) && a in cs && b in cs && a.name == b.name
    ensures a == b
  {
    ByKeyIn(cs, ColumnName, a);
    ByKeyIn(cs, ColumnName, b);
  }

  lemma {:induction false} OfferedUnique(resolver: Resolver, table: Name, added: seq<Column>, removed: seq<Column>, k: nat)
    requires UniqueKeys(removed, ColumnName) && k <= |added|
    ensures UniqueKeys(Offered(resolver, table, added, removed, k), ColumnName)
    ensures forall o :: o in Offered(resolver, table, added, removed, k) ==> o in removed
  {
    hide UniqueKeys, Source;
    if k > 0 {
      OfferedUnique(resolver, table, added, removed, k - 1);
      var before := Offered(resolver, table, added, removed, k - 1);
      var source := Source(resolver, table, added[k - 1], before);
      if source.Some? {
        RemovedWithout(before, source.value);
      }
    }
  }

  /** What is offered later was offered before, and lacks every column used in between. */
  lemma {:induction false} OfferedShrinks(resolver: Resolver, table: Name, added: seq<Column>, removed: seq<Column>, j: nat, k: nat)
    requires UniqueKeys(removed, ColumnName) && j < k <= |added|
    ensures forall o :: o in Offered(resolver, table, added, removed, k) ==>
              o in Offered(resolver, table, added, removed, j) &&
              (Origin(resolver, table, added, removed, j).Some? ==>
                 o.name != Origin(resolver, table, added, removed, j).value.name)
    decreases k
  {
    hide UniqueKeys, Source;
    var before := Offered(resolver, table, added, removed, k - 1);
    OfferedUnique(resolver, table, added, removed, k - 1);
    var source := Source(resolver, table, added[k - 1], before);
    if source.Some? {
      RemovedWithout(before, source.value);
    }
    if j < k - 1 {
      OfferedShrinks(resolver, table, added, removed, j, k - 1);
    }
  }

  /** No removed column becomes two new ones. */
  lemma OriginsDistinct(resolver: Resolver, table: Name, added: seq<Column>, removed: seq<Column>, j: nat, k: nat)
    requires UniqueKeys(removed, ColumnName) && j < k < |added|
    requires Origin(resolver, table, added, removed, j).Some? && Origin(resolver, table, added, removed, k).Some?
    ensures Origin(resolver, table, added, removed, j).value.name != Origin(resolver, table, added, removed, k).value.name
    ensures Origin(resolver, table, added, removed, k).value in removed
  {
    hide UniqueKeys, Offered;
    OfferedShrinks(resolver, table, added, removed, j, k);
    OfferedUnique(resolver, table, added, removed, k);
    var offered := Offered(resolver, table, added, removed, k);
    assert Origin(resolver, table, added, removed, k).value in offered;
  }

  // ----- What arrives ----------------------------------------------------------------------------------------

  /** A new column as declared, or the old one under its name, type and nullability. */
  function Arriving(origin: Option<Column>, c: Column): Column {
    match origin case None => c case Some(o) => Retyped(o.(name := c.name), c)
  }

  lemma {:induction false} OfferedShift(resolver: Resolver, table: Name, added: seq<Column>, removed: seq<Column>, k: nat)
    requires k < |added|
    ensures Offered(resolver, table, added, removed, k + 1) ==
            Offered(resolver, table, added[1..], Offered(resolver, table, added, removed, 1), k)
  {
    hide Source;
    if k > 0 {
      OfferedShift(resolver, table, added, removed, k - 1);
      assert added[1..][k - 1] == added[k];
    }
  }

  lemma OriginShift(resolver: Resolver, table: Name, added: seq<Column>, removed: seq<Column>, k: nat)
    requires k + 1 < |added|
    ensures Origin(resolver, table, added, removed, k + 1) ==
            Origin(resolver, table, added[1..], Offered(resolver, table, added, removed, 1), k)
  {
    hide Source, Offered;
    OfferedShift(resolver, table, added, removed, k);
    assert added[1..][k] == added[k + 1];
  }

  ghost predicate ArrivedFrom(out: Columns, resolver: Resolver, table: Name, added: seq<Column>, removed: seq<Column>) {
    forall k :: 0 <= k < |added| ==>
      added[k].name in out && out[added[k].name] == Arriving(Origin(resolver, table, added, removed, k), added[k])
  }

  lemma FirstAndRest(out: Columns, resolver: Resolver, table: Name, added: seq<Column>, removed: seq<Column>)
    requires added != [] && added[0].name in out
    requires out[added[0].name] == Arriving(Origin(resolver, table, added, removed, 0), added[0])
    requires ArrivedFrom(out, resolver, table, added[1..], Offered(resolver, table, added, removed, 1))
    ensures ArrivedFrom(out, resolver, table, added, removed)
  {
    hide Origin, Offered, Arriving;
    forall k | 0 <= k < |added|
      ensures added[k].name in out && out[added[k].name] == Arriving(Origin(resolver, table, added, removed, k), added[k])
    {
      if k > 0 {
        OriginShift(resolver, table, added, removed, k - 1);
        assert added[1..][k - 1] == added[k];
      }
    }
  }

  lemma OneOffer(resolver: Resolver, table: Name, added: seq<Column>, removed: seq<Column>)
    requires added != []
    ensures Offered(resolver, table, added, removed, 1) ==
            match Source(resolver, table, added[0], removed) case Some(i) => Without(removed, i) case None => removed
    ensures Origin(resolver, table, added, removed, 0) ==
            match Source(resolver, table, added[0], removed) case Some(i) => Some(removed[i]) case None => None
  {
    hide Source;
    assert Offered(resolver, table, added, removed, 0) == removed;
  }

  /** The first added column stays as it arrived while the rest is filled in. */
  lemma FirstStays(m: Columns, out: Columns, added: seq<Column>, removed: seq<Column>, left: seq<Column>, c: Column)
    requires FilledIn(m, out, added, removed, left) && c.name in m && c.name !in ColumnNames(removed)
    ensures c.name in out && out[c.name] == m[c.name]
  {
    hide KeysFilled, From;
  }

  /** Every added column arrives from its origin, for every resolver. */
  lemma {:induction false} FillOrigins(m: Columns, resolver: Resolver, table: Name, added: seq<Column>, removed: seq<Column>)
    requires Fillable(m, added, removed)
    ensures ArrivedFrom(Run(COLUMNS, m, Fill(resolver, table, added, removed).edits), resolver, table, added, removed)
    decreases |added|
  {
    hide Run, AllFit, FilledIn, Fillable, Source, ArrivedFrom, Origin, Offered, Renaming;
    if added == [] {
      NothingArrives(m, resolver, table, removed);
    } else {
      StillFillable(m, added, removed);
      Usable(m, added, removed);
      OneOffer(resolver, table, added, removed);
      FirstNotRemoved(m, added, removed);
      var c := added[0];
      match Source(resolver, table, c, removed)
      case Some(i) =>
        var m' := (m - {removed[i].name})[c.name := Retyped(removed[i].(name := c.name), c)];
        RunRenaming(m, removed[i], c);
        RunFill(m', resolver, table, added[1..], Without(removed, i));
        FillOrigins(m', resolver, table, added[1..], Without(removed, i));
        var rest := Fill(resolver, table, added[1..], Without(removed, i));
        Then(m, Renaming(removed[i], c), rest.edits);
        var out := Run(COLUMNS, m', rest.edits);
        FirstStays(m', out, added[1..], Without(removed, i), rest.left, c);
        FirstAndRest(out, resolver, table, added, removed);
      case None =>
        OneEdit(m, Add(c));
        RunFill(m[c.name := c], resolver, table, added[1..], removed);
        FillOrigins(m[c.name := c], resolver, table, added[1..], removed);
        var rest := Fill(resolver, table, added[1..], removed);
        Then(m, [Add(c)], rest.edits);
        var out := Run(COLUMNS, m[c.name := c], rest.edits);
        FirstStays(m[c.name := c], out, added[1..], removed, rest.left, c);
        FirstAndRest(out, resolver, table, added, removed);
    }
  }

  lemma NothingArrives(m: Columns, resolver: Resolver, table: Name, removed: seq<Column>)
    ensures ArrivedFrom(Run(COLUMNS, m, Fill(resolver, table, [], removed).edits), resolver, table, [], removed)
  {
  }

  lemma FirstNotRemoved(m: Columns, added: seq<Column>, removed: seq<Column>)
    requires Fillable(m, added, removed) && added != []
    ensures added[0].name !in ColumnNames(removed)
    ensures forall i :: 0 <= i < |removed| ==> added[0].name !in ColumnNames(Without(removed, i))
  {
    AddedIsNew(m, added, removed);
    forall i | 0 <= i < |removed| ensures added[0].name !in ColumnNames(Without(removed, i)) {
      RemovedWithout(removed, i);
    }
  }

  // ----- When the new columns are reached exactly -----------------------------------------------------------

  /** Neither a surviving nor a renamed column is declared with other attributes than it had. */
  ghost predicate AttributesKept(resolver: Resolver, table: Name, olds: seq<Column>, news: seq<Column>) {
    && (forall o, c :: o in olds && c in news && o.name == c.name ==> o.attributes == c.attributes)
    && RenamedKept(resolver, table, Absent(news, olds, ColumnName), Absent(olds, news, ColumnName))
  }

  ghost predicate RenamedKept(resolver: Resolver, table: Name, added: seq<Column>, removed: seq<Column>) {
    forall k :: 0 <= k < |added| && Origin(resolver, table, added, removed, k).Some? ==>
      Origin(resolver, table, added, removed, k).value.attributes == added[k].attributes
  }

  lemma FinalColumns(resolver: Resolver, table: Name, olds: seq<Column>, news: seq<Column>)
    requires UniqueKeys(olds, ColumnName) && UniqueKeys(news, ColumnName)
    ensures var final := Run(COLUMNS, ByKey(olds, ColumnName), ColumnEdits(resolver, table, olds, news));
            && Reached(final, olds, news)
            && ArrivedFrom(final, resolver, table, Absent(news, olds, ColumnName), Absent(olds, news, ColumnName))
  {
    hide Run, AllFit, Retypes, Fill, Drops, Absent, Survivors, UniqueKeys, Reached, ArrivedFrom, Fillable, FilledIn;
    ColumnEditsCorrect(resolver, table, olds, news);
    var oldMap, added, removed := ByKey(olds, ColumnName), Absent(news, olds, ColumnName), Absent(olds, news, ColumnName);
    var filled := Fill(resolver, table, added, removed);
    assert news[..|news|] == news;
    RunRetypes(olds, news, |news|);
    ReadyToFill(olds, news);
    RunFill(Survivors(olds, news), resolver, table, added, removed);
    FillOrigins(Survivors(olds, news), resolver, table, added, removed);
    Then(oldMap, Retypes(news, olds), filled.edits);
    var out := Run(COLUMNS, oldMap, Retypes(news, olds) + filled.edits);
    LeftInPlace(Survivors(olds, news), out, added, removed, filled.left);
    RunDrops(out, filled.left);
    Then(oldMap, Retypes(news, olds) + filled.edits, Drops(filled.left));
    DropsSpareAdded(olds, news, out, filled.left, resolver, table);
  }

  lemma LeftInPlace(m: Columns, out: Columns, added: seq<Column>, removed: seq<Column>, left: seq<Column>)
    requires FilledIn(m, out, added, removed, left)
    ensures UniqueKeys(left, ColumnName) && forall o :: o in left ==> o in removed && o.name in out && out[o.name] == o
  {
    hide KeysFilled, From;
  }

  lemma DropsSpareAdded(olds: seq<Column>, news: seq<Column>, out: Columns, left: seq<Column>, resolver: Resolver, table: Name)
    requires forall o :: o in left ==> o in Absent(olds, news, ColumnName)
    requires ArrivedFrom(out, resolver, table, Absent(news, olds, ColumnName), Absent(olds, news, ColumnName))
    ensures ArrivedFrom(out - ColumnNames(left), resolver, table, Absent(news, olds, ColumnName), Absent(olds, news, ColumnName))
  {
    hide Origin, Arriving, Absent;
    var added := Absent(news, olds, ColumnName);
    forall k | 0 <= k < |added| ensures added[k].name !in ColumnNames(left) {
      assert added[k] in added;
      LeftAreOld(olds, news, left, added[k].name);
    }
  }

  lemma AsDeclaredIff(origin: Option<Column>, c: Column)
    ensures Arriving(origin, c) == c <==> (origin.Some? ==> origin.value.attributes == c.attributes)
  {
  }

  /** A survivor is as declared iff its attributes are. */
  lemma SurvivorIff(final: Columns, olds: seq<Column>, news: seq<Column>, c: Column)
    requires UniqueKeys(olds, ColumnName) && Reached(final, olds, news) && c in news && Find(olds, ColumnName, c.name).Some?
    ensures c.name in final
    ensures final[c.name] == c <==> forall o :: o in olds && o.name == c.name ==> o.attributes == c.attributes
  {
    FindIsLookup(olds, ColumnName, c.name);
    forall o | o in olds && o.name == c.name ensures Find(olds, ColumnName, c.name) == Some(o) {
      ByKeyIn(olds, ColumnName, o);
    }
  }

  lemma ReachedKeys(final: Columns, olds: seq<Column>, news: seq<Column>)
    requires Reached(final, olds, news)
    ensures final.Keys == ColumnNames(news) && forall c :: c in news ==> c.name in final
  {
  }

  lemma ArrivedExactly(final: Columns, news: seq<Column>)
    requires UniqueKeys(news, ColumnName) && final.Keys == ColumnNames(news)
    ensures final == ByKey(news, ColumnName) <==> forall c :: c in news ==> c.name in final && final[c.name] == c
  {
    forall c | c in news ensures c.name in ByKey(news, ColumnName) && ByKey(news, ColumnName)[c.name] == c {
      ByKeyIn(news, ColumnName, c);
    }
  }

  lemma SurvivorsIff(final: Columns, olds: seq<Column>, news: seq<Column>)
    requires UniqueKeys(olds, ColumnName) && Reached(final, olds, news)
    ensures (forall c :: c in news && Find(olds, ColumnName, c.name).Some? ==> c.name in final && final[c.name] == c)
            <==> forall o, c :: o in olds && c in news && o.name == c.name ==> o.attributes == c.attributes
  {
    hide Reached, UniqueKeys, Find;
    forall c | c in news && Find(olds, ColumnName, c.name).Some?
      ensures c.name in final
      ensures final[c.name] == c <==> forall o :: o in olds && o.name == c.name ==> o.attributes == c.attributes
    {
      SurvivorIff(final, olds, news, c);
    }
    if forall c :: c in news && Find(olds, ColumnName, c.name).Some? ==> c.name in final && final[c.name] == c {
      forall o, c | o in olds && c in news && o.name == c.name ensures o.attributes == c.attributes {
        assert Find(olds, ColumnName, c.name).Some?;
      }
    }
  }

  lemma AddedIff(final: Columns, resolver: Resolver, table: Name, olds: seq<Column>, news: seq<Column>)
    requires ArrivedFrom(final, resolver, table, Absent(news, olds, ColumnName), Absent(olds, news, ColumnName))
    ensures (forall c :: c in news && Find(olds, ColumnName, c.name).None? ==> c.name in final && final[c.name] == c)
            <==> RenamedKept(resolver, table, Absent(news, olds, ColumnName), Absent(olds, news, ColumnName))
  {
    hide Absent, Find, Origin, Arriving;
    var added, removed := Absent(news, olds, ColumnName), Absent(olds, news, ColumnName);
    forall k | 0 <= k < |added|
      ensures added[k].name in final
      ensures final[added[k].name] == added[k] <==>
              (Origin(resolver, table, added, removed, k).Some? ==>
                 Origin(resolver, table, added, removed, k).value.attributes == added[k].attributes)
      ensures added[k] in news && Find(olds, ColumnName, added[k].name).None?
    {
      assert added[k] in added;
      AsDeclaredIff(Origin(resolver, table, added, removed, k), added[k]);
    }
    forall c | c in news && Find(olds, ColumnName, c.name).None? ensures exists k :: 0 <= k < |added| && added[k] == c {
      assert c in added;
    }
  }

  /**
   * For every resolver the migration ends in exactly the new columns iff no surviving and no renamed
   * column changes anything but its type and nullability: those are all that `type_differs` compares.
   */
  lemma ExactlyNewIff(resolver: Resolver, table: Name, olds: seq<Column>, news: seq<Column>)
    requires UniqueKeys(olds, ColumnName) && UniqueKeys(news, ColumnName)
    ensures Run(COLUMNS, ByKey(olds, ColumnName), ColumnEdits(resolver, table, olds, news)) == ByKey(news, ColumnName)
            <==> AttributesKept(resolver, table, olds, news)
  {
    hide Run, ColumnEdits, Absent, UniqueKeys, Find, ByKey, Reached, ColumnNames, ArrivedFrom, RenamedKept;
    var final := Run(COLUMNS, ByKey(olds, ColumnName), ColumnEdits(resolver, table, olds, news));
    FinalColumns(resolver, table, olds, news);
    ReachedKeys(final, olds, news);
    ArrivedExactly(final, news);
    SurvivorsIff(final, olds, news);
    AddedIff(final, resolver, table, olds, news);
  }
}
