/** The schema snapshot the migration compiler compares (crates/orm-cli/src/model.rs). */
module SchemaModel {
  import opened Wrappers

  type Name = string

  datatype ForeignKey = ForeignKey(table: Name, column: Name, onDelete: string)

  /** Everything about a column that a migration of an existing column leaves alone. */
  datatype Attributes = Attributes(
    pk: bool, unique: bool, index: bool, indexMethod: Option<string>, opclass: Option<string>,
    generated: Option<string>, default: Option<string>, references: Option<ForeignKey>)

  datatype Column = Column(name: Name, sqlType: string, nullable: bool, attributes: Attributes)

  predicate TypeDiffers(a: Column, b: Column) {
    a.sqlType != b.sqlType || a.nullable != b.nullable
  }

  datatype Privilege = All | Select | Insert | Update | Delete

  datatype PolicyCommand = ForAll | ForSelect | ForInsert | ForUpdate | ForDelete

  datatype Policy = Policy(
    name: Name, command: PolicyCommand, roles: seq<Name>, using: Option<string>, check: Option<string>)

  datatype Grant = Grant(role: Name, privileges: seq<Privilege>)

  datatype Index = Index(
    name: Name, columns: seq<Name>, unique: bool, accessMethod: Option<string>, condition: Option<string>)

  datatype Role = Role(name: Name, login: bool, createdb: bool, createrole: bool, bypassrls: bool)

  datatype Table = Table(
    name: Name, columns: seq<Column>, rls: bool, forceRls: bool,
    policies: seq<Policy>, grants: seq<Grant>, indexes: seq<Index>)

  datatype Schema = Schema(tables: seq<Table>, roles: seq<Role>)

  // The keys the by-name lookups compare.
  function ColumnName(c: Column): Name { c.name }
  function PolicyName(p: Policy): Name { p.name }
  function GrantRole(g: Grant): Name { g.role }
  function IndexName(i: Index): Name { i.name }
  function RoleName(r: Role): Name { r.name }
  function TableName(t: Table): Name { t.name }

  /** The first element with the given key. */
  function Find<T>(xs: seq<T>, key: T -> Name, name: Name): (found: Option<T>)
    ensures found.Some? ==> found.value in xs && key(found.value) == name
    ensures found.None? <==> forall x :: x in xs ==> key(x) != name
  {
    if xs == [] then None
    else if key(xs[0]) == name then Some(xs[0])
    else
      var found := Find(xs[1..], key, name);
      assert xs == [xs[0]] + xs[1..];
      found
  }

  ghost predicate UniqueKeys<T>(xs: seq<T>, key: T -> Name) {
    forall i, j :: 0 <= i < j < |xs| ==> key(xs[i]) != key(xs[j])
  }

  /** A list with unique keys, as the map it stands for. */
  ghost function ByKey<T>(xs: seq<T>, key: T -> Name): (m: map<Name, T>)
    ensures forall k :: k in m ==> m[k] in xs && key(m[k]) == k
    ensures forall x :: x in xs ==> key(x) in m
  {
    if xs == [] then map[]
    else
      var m := ByKey(xs[..|xs| - 1], key)[key(xs[|xs| - 1]) := xs[|xs| - 1]];
      assert xs == xs[..|xs| - 1] + [xs[|xs| - 1]];
      m
  }

  lemma ByKeyIn<T>(xs: seq<T>, key: T -> Name, x: T)
    requires UniqueKeys(xs, key) && x in xs
    ensures key(x) in ByKey(xs, key) && ByKey(xs, key)[key(x)] == x
  {
  }

  /** Looking a name up in the list is looking it up in the map. */
  lemma FindIsLookup<T>(xs: seq<T>, key: T -> Name, name: Name)
    requires UniqueKeys(xs, key)
    ensures Find(xs, key, name) ==
            if name in ByKey(xs, key) then Some(ByKey(xs, key)[name]) else None
  {
    var found := Find(xs, key, name);
    if found.Some? {
      ByKeyIn(xs, key, found.value);
    }
  }

  lemma UniquePrefix<T>(xs: seq<T>, key: T -> Name, n: nat)
    requires UniqueKeys(xs, key) && n <= |xs|
    ensures UniqueKeys(xs[..n], key)
  {
  }

  /** The entries of `xs` whose key `others` lacks, in order. */
  function Absent<T(!new)>(xs: seq<T>, others: seq<T>, key: T -> Name): (lack: seq<T>)
    ensures forall x :: x in lack <==> x in xs && Find(others, key, key(x)).None?
  {
    if xs == [] then [] else
      assert xs == xs[..|xs| - 1] + [xs[|xs| - 1]];
      Absent(xs[..|xs| - 1], others, key) +
      (if Find(others, key, key(xs[|xs| - 1])).None? then [xs[|xs| - 1]] else [])
  }

  lemma {:induction false} AbsentUnique<T(!new)>(xs: seq<T>, others: seq<T>, key: T -> Name)
    requires UniqueKeys(xs, key)
    ensures UniqueKeys(Absent(xs, others, key), key)
  {
    if xs != [] {
      var n := |xs| - 1;
      UniquePrefix(xs, key, n);
      AbsentUnique(xs[..n], others, key);
      var lack := Absent(xs[..n], others, key);
      forall i | 0 <= i < |lack| ensures key(lack[i]) != key(xs[n]) {
        assert lack[i] in lack;
        var k :| 0 <= k < n && xs[k] == lack[i];
      }
    }
  }

  /** Tables this one references, apart from itself. */
  ghost function Targets(t: Table): set<Name> {
    set c | c in t.columns && c.attributes.references.Some? && c.attributes.references.value.table != t.name
      :: c.attributes.references.value.table
  }

  /** Unique names throughout, and no grant of nothing (the attribute parser rejects one). */
  ghost predicate WellFormedTable(t: Table) {
    && UniqueKeys(t.columns, ColumnName)
    && UniqueKeys(t.policies, PolicyName)
    && UniqueKeys(t.grants, GrantRole)
    && UniqueKeys(t.indexes, IndexName)
    && forall g :: g in t.grants ==> g.privileges != []
  }

  ghost predicate WellFormed(s: Schema) {
    && UniqueKeys(s.tables, TableName)
    && UniqueKeys(s.roles, RoleName)
    && forall t :: t in s.tables ==> WellFormedTable(t)
  }
}
