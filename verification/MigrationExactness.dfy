/** When a migration ends in exactly the new schema, attributes included. */
module MigrationExactness {
  import opened Wrappers
  import opened SchemaModel
  import opened Machines
  import opened TableDiff
  import opened Migration
  import opened MigrationTheorems
  import G = GrantDiff
  import C = ColumnDiff
  import O = ColumnOrigins

  /** In no kept table does a surviving or renamed column change an attribute no migration touches. */
  ghost predicate AttributesKept(resolver: C.Resolver, prior: Schema, next: Schema) {
    forall i :: 0 <= i < |next.tables| ==> TableKept(resolver, prior, next.tables[i])
  }

  ghost predicate TableKept(resolver: C.Resolver, prior: Schema, t: Table) {
    match Find(prior.tables, TableName, t.name)
    case None => true
    case Some(o) => O.AttributesKept(resolver, t.name, o.columns, t.columns)
  }

  /** A kept table ends as declared iff its columns do. */
  lemma TableExactIff(resolver: C.Resolver, s: TableState, o: Table, t: Table)
    requires WellFormedTable(o) && WellFormedTable(t) && MigratedBy(resolver, s, o, t)
    ensures s == StateOf(t) <==> O.AttributesKept(resolver, t.name, o.columns, t.columns)
  {
    hide Run, C.ColumnEdits, C.Reached, ByKey, G.Denote, UniqueKeys, O.AttributesKept;
    O.ExactlyNewIff(resolver, t.name, o.columns, t.columns);
  }

  lemma FinalExactIff(resolver: C.Resolver, prior: Schema, next: Schema, i: nat)
    requires WellFormed(prior) && WellFormed(next) && i < |next.tables|
    ensures var t, out := next.tables[i], AfterKept(resolver, prior, next).tables;
            t.name in out && (out[t.name] == StateOf(t) <==> TableKept(resolver, prior, t))
  {
    hide AfterKept, StateOf, MigratedBy, O.AttributesKept, WellFormedTable;
    FinalTable(resolver, prior, next, i);
    var t := next.tables[i];
    if Find(prior.tables, TableName, t.name).Some? {
      var o := Find(prior.tables, TableName, t.name).value;
      TableExactIff(resolver, AfterKept(resolver, prior, next).tables[t.name], o, t);
    }
  }

  lemma SameTables(tables: map<Name, TableState>, ts: seq<Table>)
    requires UniqueKeys(ts, TableName) && tables.Keys == TableNames(ts)
    ensures tables == StatesOf(ts) <==>
            forall i :: 0 <= i < |ts| ==> ts[i].name in tables && tables[ts[i].name] == StateOf(ts[i])
  {
    hide StateOf, StatesOf;
    StatesOfKeys(ts);
    forall i | 0 <= i < |ts| ensures ts[i].name in StatesOf(ts) && StatesOf(ts)[ts[i].name] == StateOf(ts[i]) {
      StatesOfAt(ts, i);
    }
  }

  /**
   * For every resolver the migrated database is exactly the new schema iff every surviving and every
   * renamed column of every kept table is declared with the attributes it had.
   */
  lemma DiffExactIff(resolver: C.Resolver, prior: Schema, next: Schema)
    requires WellFormed(prior) && WellFormed(next)
    ensures Run(DBS, DbOf(prior), Diff(resolver, prior, next)) == DbOf(next) <==> AttributesKept(resolver, prior, next)
  {
    hide Run, Diff, StateOf, StatesOf, AfterKept, AfterAll, ByKey, TableNames, UniqueKeys, TableKept, AllFit;
    DiffRuns(resolver, prior, next);
    AfterAllTables(resolver, prior, next);
    SameTables(AfterKept(resolver, prior, next).tables, next.tables);
    forall i | 0 <= i < |next.tables|
      ensures var t, out := next.tables[i], AfterKept(resolver, prior, next).tables;
              t.name in out && (out[t.name] == StateOf(t) <==> TableKept(resolver, prior, t))
    {
      FinalExactIff(resolver, prior, next, i);
    }
  }

  // ----- An input that falls short ----------------------------------------------------------------------------

  /** One table with one column. */
  function Single(c: Column): Schema {
    Schema([Table("t", [c], false, false, [], [], [])], [])
  }

  lemma SingleIsFine(c: Column)
    ensures WellFormed(Single(c)) && Find(Single(c).tables, TableName, "t") == Some(Single(c).tables[0])
  {
  }

  lemma OnlySurvivor(c: Column, d: Column)
    requires c.name == d.name
    ensures Find([c], ColumnName, d.name) == Some(c)
  {
  }

  /** A surviving column whose declared default changes keeps the default it had. */
  lemma DefaultIsKept(resolver: C.Resolver, c: Column, default: string)
    requires c.attributes.default.None?
    ensures var d := c.(attributes := c.attributes.(default := Some(default)));
            var out := Run(DBS, DbOf(Single(c)), Diff(resolver, Single(c), Single(d)));
            && out != DbOf(Single(d))
            && "t" in out.tables && c.name in out.tables["t"].columns && out.tables["t"].columns[c.name] == c
  {
    hide Run, Diff, DbOf, WellFormed, Find, AllFit;
    var d := c.(attributes := c.attributes.(default := Some(default)));
    SingleIsFine(c);
    SingleIsFine(d);
    assert c in [c] && d in [d];
    assert !O.AttributesKept(resolver, "t", [c], [d]);
    assert !TableKept(resolver, Single(c), Single(d).tables[0]);
    DiffExactIff(resolver, Single(c), Single(d));
    DiffCorrect(resolver, Single(c), Single(d));
    assert Single(d).tables[0] in Single(d).tables;
    OnlySurvivor(c, d);
  }
}
