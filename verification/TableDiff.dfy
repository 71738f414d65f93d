/**
 * A kept table: its state in the database, the edits a migration makes to it
 * (crates/orm-cli/src/diff.rs, `diff_table`, `diff_table_rls`, `diff_table_indexes`), and what
 * `up` and `down` make each edit mean.
 */
module TableDiff {
  import opened Wrappers
  import opened SchemaModel
  import opened Machines
  import opened KeyedDiff
  import G = GrantDiff
  import C = ColumnDiff

  datatype TableState = TableState(
    columns: C.Columns, rls: bool, forceRls: bool,
    policies: map<Name, Policy>, grants: G.Held, indexes: map<Name, Index>)

  ghost function StateOf(t: Table): TableState {
    TableState(ByKey(t.columns, ColumnName), t.rls, t.forceRls, ByKey(t.policies, PolicyName),
               G.Denote(t.grants), ByKey(t.indexes, IndexName))
  }

  datatype TableEdit =
    | OnColumns(column: C.ColumnEdit)
    | SetRls(enabled: bool)
    | SetForceRls(forced: bool)
    | OnGrants(grant: G.GrantEdit)
    | OnPolicies(policy: KeyedEdit<Policy>)
    | OnIndexes(index: KeyedEdit<Index>)

  function ApplyTable(s: TableState, e: TableEdit): TableState {
    match e
    case OnColumns(f) => s.(columns := C.ApplyColumn(s.columns, f))
    case SetRls(b) => s.(rls := b)
    case SetForceRls(b) => s.(forceRls := b)
    case OnGrants(f) => s.(grants := G.ApplyGrant(s.grants, f))
    case OnPolicies(f) => s.(policies := ApplyKeyed(PolicyName, s.policies, f))
    case OnIndexes(f) => s.(indexes := ApplyKeyed(IndexName, s.indexes, f))
  }

  predicate FitsTable(s: TableState, e: TableEdit) {
    match e
    case OnColumns(f) => C.FitsColumn(s.columns, f)
    case SetRls(b) => s.rls != b
    case SetForceRls(b) => s.forceRls != b
    case OnGrants(f) => G.FitsGrant(s.grants, f)
    case OnPolicies(f) => FitsKeyed(PolicyName, s.policies, f)
    case OnIndexes(f) => FitsKeyed(IndexName, s.indexes, f)
  }

  function UndoTable(s: TableState, e: TableEdit): TableState {
    match e
    case OnColumns(f) => s.(columns := C.UndoColumn(s.columns, f))
    case SetRls(b) => s.(rls := !b)
    case SetForceRls(b) => s.(forceRls := !b)
    case OnGrants(f) => s.(grants := G.UndoGrant(s.grants, f))
    case OnPolicies(f) => s.(policies := UndoKeyed(PolicyName, s.policies, f))
    case OnIndexes(f) => s.(indexes := UndoKeyed(IndexName, s.indexes, f))
  }

  const TABLES: Machine<TableState, TableEdit> := Machine(ApplyTable, FitsTable, UndoTable)

  lemma TablesReverse(s: TableState, e: TableEdit)
    requires FitsTable(s, e)
    ensures UndoTable(ApplyTable(s, e), e) == s
  {
    match e
    case OnColumns(f) => C.ColumnsReverse(s.columns, f);
    case OnGrants(f) => G.GrantsReverse(s.grants, f);
    case OnPolicies(f) => KeyedReverses(PolicyName, s.policies, f);
    case OnIndexes(f) => KeyedReverses(IndexName, s.indexes, f);
    case SetRls(_) =>
    case SetForceRls(_) =>
  }

  // ----- The parts of a table ----------------------------------------------------------------------

  function WrapColumn(f: C.ColumnEdit): TableEdit { OnColumns(f) }
  function WrapGrant(f: G.GrantEdit): TableEdit { OnGrants(f) }
  function WrapPolicy(f: KeyedEdit<Policy>): TableEdit { OnPolicies(f) }
  function WrapIndex(f: KeyedEdit<Index>): TableEdit { OnIndexes(f) }

  function GetColumns(s: TableState): C.Columns { s.columns }
  function GetGrants(s: TableState): G.Held { s.grants }
  function GetPolicies(s: TableState): map<Name, Policy> { s.policies }
  function GetIndexes(s: TableState): map<Name, Index> { s.indexes }

  function PutColumns(s: TableState, m: C.Columns): TableState { s.(columns := m) }
  function PutGrants(s: TableState, m: G.Held): TableState { s.(grants := m) }
  function PutPolicies(s: TableState, m: map<Name, Policy>): TableState { s.(policies := m) }
  function PutIndexes(s: TableState, m: map<Name, Index>): TableState { s.(indexes := m) }

  const COLUMN_PART: Lens<TableState, TableEdit, C.Columns, C.ColumnEdit> := Lens(GetColumns, PutColumns, WrapColumn)
  const GRANT_PART: Lens<TableState, TableEdit, G.Held, G.GrantEdit> := Lens(GetGrants, PutGrants, WrapGrant)
  const POLICY_PART: Lens<TableState, TableEdit, map<Name, Policy>, KeyedEdit<Policy>> :=
    Lens(GetPolicies, PutPolicies, WrapPolicy)
  const INDEX_PART: Lens<TableState, TableEdit, map<Name, Index>, KeyedEdit<Index>> :=
    Lens(GetIndexes, PutIndexes, WrapIndex)

  lemma ColumnsEmbed(s: TableState)
    ensures Embeds(TABLES, C.COLUMNS, COLUMN_PART, s)
  {
    hide C.ApplyColumn, C.FitsColumn, C.UndoColumn;
  }

  lemma GrantsEmbed(s: TableState)
    ensures Embeds(TABLES, G.GRANTS, GRANT_PART, s)
  {
    hide G.ApplyGrant, G.FitsGrant, G.UndoGrant;
  }

  lemma PoliciesEmbed(s: TableState)
    ensures Embeds(TABLES, Keyed(PolicyName), POLICY_PART, s)
  {
    hide ApplyKeyed, FitsKeyed, UndoKeyed;
  }

  lemma IndexesEmbed(s: TableState)
    ensures Embeds(TABLES, Keyed(IndexName), INDEX_PART, s)
  {
    hide ApplyKeyed, FitsKeyed, UndoKeyed;
  }

  // ----- The edit list ------------------------------------------------------------------------------

  function ColumnPhase(resolver: C.Resolver, o: Table, t: Table): seq<TableEdit> {
    Wrap(WrapColumn, C.ColumnEdits(resolver, t.name, o.columns, t.columns))
  }

  function FlagPhase(o: Table, t: Table): seq<TableEdit> {
    (if o.rls != t.rls then [SetRls(t.rls)] else []) +
    (if o.forceRls != t.forceRls then [SetForceRls(t.forceRls)] else [])
  }

  function GrantPhase(o: Table, t: Table): seq<TableEdit> {
    Wrap(WrapGrant, G.GrantEdits(o.grants, t.grants))
  }

  function PolicyPhase(o: Table, t: Table): seq<TableEdit> {
    Wrap(WrapPolicy, KeyedEdits(o.policies, t.policies, PolicyName))
  }

  function IndexPhase(o: Table, t: Table): seq<TableEdit> {
    Wrap(WrapIndex, KeyedEdits(o.indexes, t.indexes, IndexName))
  }

  function TableEdits(resolver: C.Resolver, o: Table, t: Table): seq<TableEdit> {
    ColumnPhase(resolver, o, t) + FlagPhase(o, t) + GrantPhase(o, t) + PolicyPhase(o, t) + IndexPhase(o, t)
  }

  // ----- Running it ---------------------------------------------------------------------------------

  lemma Then(s: TableState, a: seq<TableEdit>, b: seq<TableEdit>)
    requires AllFit(TABLES, s, a) && AllFit(TABLES, Run(TABLES, s, a), b)
    ensures Run(TABLES, s, a + b) == Run(TABLES, Run(TABLES, s, a), b) && AllFit(TABLES, s, a + b)
  {
    RunConcat(TABLES, s, a, b);
    FitConcat(TABLES, s, a, b);
  }

  /** The columns a kept table ends with. */
  ghost function MigratedColumns(resolver: C.Resolver, o: Table, t: Table): C.Columns {
    Run(C.COLUMNS, ByKey(o.columns, ColumnName), C.ColumnEdits(resolver, t.name, o.columns, t.columns))
  }

  lemma RunColumnPhase(s: TableState, resolver: C.Resolver, o: Table, t: Table)
    requires WellFormedTable(o) && WellFormedTable(t) && s.columns == ByKey(o.columns, ColumnName)
    ensures AllFit(TABLES, s, ColumnPhase(resolver, o, t))
    ensures var m := MigratedColumns(resolver, o, t);
            C.Reached(m, o.columns, t.columns) && Run(TABLES, s, ColumnPhase(resolver, o, t)) == s.(columns := m)
  {
    hide Run, AllFit, C.ColumnEdits, C.Reached, Embeds, ByKey;
    var es := C.ColumnEdits(resolver, t.name, o.columns, t.columns);
    C.ColumnEditsCorrect(resolver, t.name, o.columns, t.columns);
    ColumnsEmbed(s);
    RunPart(TABLES, C.COLUMNS, COLUMN_PART, s, es);
    FitPart(TABLES, C.COLUMNS, COLUMN_PART, s, es);
  }

  lemma RunFlagPhase(s: TableState, o: Table, t: Table)
    requires s.rls == o.rls && s.forceRls == o.forceRls
    ensures AllFit(TABLES, s, FlagPhase(o, t))
    ensures Run(TABLES, s, FlagPhase(o, t)) == s.(rls := t.rls, forceRls := t.forceRls)
  {
    var a := if o.rls != t.rls then [SetRls(t.rls)] else [];
    var b := if o.forceRls != t.forceRls then [SetForceRls(t.forceRls)] else [];
    var s' := s.(rls := t.rls);
    assert a != [] ==> a[..0] == [];
    assert b != [] ==> b[..0] == [];
    assert AllFit(TABLES, s, a) && Run(TABLES, s, a) == s';
    assert AllFit(TABLES, s', b) && Run(TABLES, s', b) == s'.(forceRls := t.forceRls);
    Then(s, a, b);
  }

  lemma RunGrantPhase(s: TableState, o: Table, t: Table)
    requires WellFormedTable(o) && WellFormedTable(t) && s.grants == G.Denote(o.grants)
    ensures AllFit(TABLES, s, GrantPhase(o, t))
    ensures Run(TABLES, s, GrantPhase(o, t)) == s.(grants := G.Denote(t.grants))
  {
    hide Run, AllFit, G.GrantEdits, Embeds, G.Denote;
    G.GrantEditsCorrect(o.grants, t.grants);
    GrantsEmbed(s);
    RunPart(TABLES, G.GRANTS, GRANT_PART, s, G.GrantEdits(o.grants, t.grants));
    FitPart(TABLES, G.GRANTS, GRANT_PART, s, G.GrantEdits(o.grants, t.grants));
  }

  lemma RunPolicyPhase(s: TableState, o: Table, t: Table)
    requires WellFormedTable(o) && WellFormedTable(t) && s.policies == ByKey(o.policies, PolicyName)
    ensures AllFit(TABLES, s, PolicyPhase(o, t))
    ensures Run(TABLES, s, PolicyPhase(o, t)) == s.(policies := ByKey(t.policies, PolicyName))
  {
    hide Run, AllFit, KeyedEdits, Embeds, ByKey;
    KeyedEditsCorrect(o.policies, t.policies, PolicyName);
    PoliciesEmbed(s);
    RunPart(TABLES, Keyed(PolicyName), POLICY_PART, s, KeyedEdits(o.policies, t.policies, PolicyName));
    FitPart(TABLES, Keyed(PolicyName), POLICY_PART, s, KeyedEdits(o.policies, t.policies, PolicyName));
  }

  lemma RunIndexPhase(s: TableState, o: Table, t: Table)
    requires WellFormedTable(o) && WellFormedTable(t) && s.indexes == ByKey(o.indexes, IndexName)
    ensures AllFit(TABLES, s, IndexPhase(o, t))
    ensures Run(TABLES, s, IndexPhase(o, t)) == s.(indexes := ByKey(t.indexes, IndexName))
  {
    hide Run, AllFit, KeyedEdits, Embeds, ByKey;
    KeyedEditsCorrect(o.indexes, t.indexes, IndexName);
    IndexesEmbed(s);
    RunPart(TABLES, Keyed(IndexName), INDEX_PART, s, KeyedEdits(o.indexes, t.indexes, IndexName));
    FitPart(TABLES, Keyed(IndexName), INDEX_PART, s, KeyedEdits(o.indexes, t.indexes, IndexName));
  }

  /** The table is as declared, its surviving columns up to the attributes no migration touches. */
  ghost predicate Migrated(s: TableState, o: Table, t: Table) {
    && C.Reached(s.columns, o.columns, t.columns)
    && s.rls == t.rls && s.forceRls == t.forceRls
    && s.policies == ByKey(t.policies, PolicyName)
    && s.grants == G.Denote(t.grants)
    && s.indexes == ByKey(t.indexes, IndexName)
  }

  /** The same, with the very columns its edits lead to. */
  ghost predicate MigratedBy(resolver: C.Resolver, s: TableState, o: Table, t: Table) {
    Migrated(s, o, t) && s.columns == MigratedColumns(resolver, o, t)
  }

  lemma TableEditsCorrect(resolver: C.Resolver, o: Table, t: Table)
    requires WellFormedTable(o) && WellFormedTable(t)
    ensures AllFit(TABLES, StateOf(o), TableEdits(resolver, o, t))
    ensures MigratedBy(resolver, Run(TABLES, StateOf(o), TableEdits(resolver, o, t)), o, t)
  {
    hide Run, AllFit, ByKey, WellFormedTable, C.Reached, G.Denote, MigratedColumns, ColumnPhase, FlagPhase, GrantPhase, PolicyPhase, IndexPhase;
    var s := StateOf(o);
    RunColumnPhase(s, resolver, o, t);
    var es := ColumnPhase(resolver, o, t);
    RunFlagPhase(Run(TABLES, s, es), o, t);
    Then(s, es, FlagPhase(o, t));
    es := es + FlagPhase(o, t);
    RunGrantPhase(Run(TABLES, s, es), o, t);
    Then(s, es, GrantPhase(o, t));
    es := es + GrantPhase(o, t);
    RunPolicyPhase(Run(TABLES, s, es), o, t);
    Then(s, es, PolicyPhase(o, t));
    es := es + PolicyPhase(o, t);
    RunIndexPhase(Run(TABLES, s, es), o, t);
    Then(s, es, IndexPhase(o, t));
  }
}
