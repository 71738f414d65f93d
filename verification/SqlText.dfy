/**
 * SQL text as tokens and the writer that assembles it with its binds
 * (crates/orm/src/sql.rs, `SqlWriter`).
 */
module SqlText {
  import opened Wrappers

  datatype Compare = Eq | Ne | Gt | Lt | Ge | Le | Like

  datatype Sign = Plus | Minus

  datatype Datum = Null | Bool(b: bool) | Int(i: int) | Text(s: string) | Array(items: seq<Datum>)

  datatype Token =
    | Open | Close | Comma
    | AndWord | OrWord | NotWord | IsWord | NullWord | InWord | AnyWord
    | CaseWord | WhenWord | ThenWord | ElseWord | EndWord | ValuesWord | CoalesceWord | EscapeBackslash
    | SetSridWord | InsertWord | OnConflictWord | DoNothingWord | DoUpdateWord | WhereWord | OnDuplicateWord
    | CompareSign(compare: Compare)
    | PlusMinus(sign: Sign)
    | Number(n: int)
    | Qualified(table: string, name: string)
    | Incoming(name: string)
    | Ident(name: string)
    | Numbered(position: nat)
    | Bare
    | Verbatim(text: string)

  type Sql = seq<Token>

  /** A value to bind; some are wrapped so that the backend reads them as the right type. */
  datatype Bind = Simple(value: Datum) | Cast(cast: string, inner: Datum) | Geo(srid: Option<int>, wkt: Datum) | Vector(v: Datum)

  function Payload(b: Bind): Datum {
    match b case Simple(d) => d case Cast(_, d) => d case Geo(_, d) => d case Vector(d) => d
  }

  datatype Dialect = Dialect(
    numbered: bool, anyArray: bool, casts: bool, onDuplicateKey: bool,
    vectorBefore: string, vectorAfter: string, geoBefore: string, geoAfter: string)

  function Placeholder(d: Dialect, position: nat): Token {
    if d.numbered then Numbered(position) else Bare
  }

  predicate IsPlaceholder(t: Token) { t.Numbered? || t.Bare? }

  function Placeholders(ts: Sql): Sql {
    if ts == [] then []
    else Placeholders(ts[..|ts| - 1]) + (if IsPlaceholder(ts[|ts| - 1]) then [ts[|ts| - 1]] else [])
  }

  lemma {:induction false} PlaceholdersConcat(a: Sql, b: Sql)
    ensures Placeholders(a + b) == Placeholders(a) + Placeholders(b)
  {
    if b == [] {
      assert a + b == a;
    } else {
      var n := |b| - 1;
      PlaceholdersConcat(a, b[..n]);
      assert (a + b)[..|a| + n] == a + b[..n];
    }
  }

  /** The placeholders of `count` binds after the first `from`, in order. */
  function InOrder(d: Dialect, from: nat, count: nat): Sql {
    seq(count, i requires 0 <= i < count => Placeholder(d, from + i + 1))
  }

  lemma InOrderConcat(d: Dialect, from: nat, a: nat, b: nat)
    ensures InOrder(d, from, a) + InOrder(d, from + a, b) == InOrder(d, from, a + b)
  {
  }

  /** Text that consumes exactly the `count` binds after the first `from`, each once and in order. */
  ghost predicate Consumes(d: Dialect, ts: Sql, from: nat, count: nat) {
    Placeholders(ts) == InOrder(d, from, count)
  }

  lemma ConsumesConcat(d: Dialect, a: Sql, b: Sql, from: nat, m: nat, n: nat)
    requires Consumes(d, a, from, m) && Consumes(d, b, from + m, n)
    ensures Consumes(d, a + b, from, m + n)
  {
    PlaceholdersConcat(a, b);
    InOrderConcat(d, from, m, n);
  }

  function Raw(text: string): Sql { if text == "" then [] else [Verbatim(text)] }

  /** The text of one bind at the given position. */
  function BindText(d: Dialect, position: nat, b: Bind): Sql {
    match b
    case Simple(_) => [Placeholder(d, position)]
    case Cast(cast, _) => [Placeholder(d, position)] + (if d.casts then [Verbatim("::"), Verbatim(cast)] else [])
    case Vector(_) => Raw(d.vectorBefore) + [Placeholder(d, position)] + Raw(d.vectorAfter)
    case Geo(srid, _) => GeoText(d, position, srid)
  }

  /** The spatial reference is only kept where the backend casts to a geometry. */
  function GeoText(d: Dialect, position: nat, srid: Option<int>): Sql {
    var point := Raw(d.geoBefore) + [Placeholder(d, position)] + Raw(d.geoAfter);
    if srid.Some? && (d.geoBefore != "" || d.geoAfter != "")
    then [SetSridWord] + point + [Comma, Number(srid.value), Close]
    else point
  }

  lemma PlaceholdersOne(t: Token)
    ensures Placeholders([t]) == if IsPlaceholder(t) then [t] else []
    ensures Placeholders([]) == []
  {
  }

  lemma PlaceholdersAppend(a: Sql, t: Token)
    ensures Placeholders(a + [t]) == Placeholders(a) + (if IsPlaceholder(t) then [t] else [])
  {
    assert (a + [t])[..|a|] == a;
  }

  lemma {:induction false} NoPlaceholders(ts: Sql)
    requires forall i :: 0 <= i < |ts| ==> !IsPlaceholder(ts[i])
    ensures Placeholders(ts) == []
  {
    if ts != [] {
      NoPlaceholders(ts[..|ts| - 1]);
    }
  }

  /** However it is wrapped, a bind is one placeholder. */
  lemma BindConsumes(d: Dialect, from: nat, b: Bind)
    ensures Consumes(d, BindText(d, from + 1, b), from, 1)
  {
    hide Placeholders;
    var p := Placeholder(d, from + 1);
    var before, after := BindAround(d, from, b);
    NoPlaceholders(before);
    NoPlaceholders(after);
    PlaceholdersOne(p);
    PlaceholdersConcat(before, [p]);
    PlaceholdersConcat(before + [p], after);
  }

  lemma BindAround(d: Dialect, from: nat, b: Bind) returns (before: Sql, after: Sql)
    ensures BindText(d, from + 1, b) == before + [Placeholder(d, from + 1)] + after
    ensures forall i :: 0 <= i < |before| ==> !IsPlaceholder(before[i])
    ensures forall i :: 0 <= i < |after| ==> !IsPlaceholder(after[i])
  {
    match b
    case Simple(_) => before, after := [], [];
    case Cast(cast, _) => before, after := [], if d.casts then [Verbatim("::"), Verbatim(cast)] else [];
    case Vector(_) => before, after := Raw(d.vectorBefore), Raw(d.vectorAfter);
    case Geo(srid, _) =>
      if srid.Some? && (d.geoBefore != "" || d.geoAfter != "") {
        before := [SetSridWord] + Raw(d.geoBefore);
        after := Raw(d.geoAfter) + [Comma, Number(srid.value), Close];
      } else {
        before, after := Raw(d.geoBefore), Raw(d.geoAfter);
      }
  }

  /** A growing text and its ordered binds. */
  class SqlWriter {
    const dialect: Dialect
    const validIdent: string -> bool
    var sql: Sql
    var binds: seq<Datum>
    var unsupported: Option<string>

    /** The placeholders in the text are those of the binds, each once and in order. */
    ghost predicate Valid()
      reads this
    {
      Consumes(dialect, sql, 0, |binds|)
    }

    constructor (dialect: Dialect, validIdent: string -> bool)
      ensures this.dialect == dialect && this.validIdent == validIdent
      ensures Valid() && sql == [] && binds == [] && unsupported == None
    {
      this.dialect, this.validIdent := dialect, validIdent;
      sql, binds, unsupported := [], [], None;
    }

    method Push(text: Sql)
      requires Valid() && Placeholders(text) == []
      modifies this`sql
      ensures Valid() && sql == old(sql) + text
    {
      PlaceholdersConcat(sql, text);
      sql := sql + text;
    }

    method PushIdent(name: string) returns (ok: bool)
      requires Valid()
      modifies this`sql
      ensures Valid() && ok == validIdent(name)
      ensures sql == if ok then old(sql) + [Ident(name)] else old(sql)
    {
      ok := validIdent(name);
      if ok {
        PlaceholdersAppend(sql, Ident(name));
        sql := sql + [Ident(name)];
      }
    }

    /** The table part may be written before the column part is rejected. */
    method PushQualified(table: string, name: string) returns (ok: bool)
      requires Valid()
      modifies this`sql
      ensures Valid() && ok == (validIdent(table) && validIdent(name))
      ensures ok ==> sql == old(sql) + [Qualified(table, name)]
    {
      ok := validIdent(table) && validIdent(name);
      if ok {
        PlaceholdersAppend(sql, Qualified(table, name));
        sql := sql + [Qualified(table, name)];
      } else if validIdent(table) {
        PlaceholdersAppend(sql, Ident(table));
        sql := sql + [Ident(table)];
      }
    }

    /** The first marker wins. */
    method MarkUnsupported(feature: string)
      modifies this`unsupported
      ensures unsupported == if old(unsupported).None? then Some(feature) else old(unsupported)
    {
      if unsupported.None? {
        unsupported := Some(feature);
      }
    }

    method PushGeo(srid: Option<int>, position: nat)
      modifies this`sql
      ensures sql == old(sql) + GeoText(dialect, position, srid)
    {
      var setSrid := srid.Some? && (dialect.geoBefore != "" || dialect.geoAfter != "");
      if setSrid {
        sql := sql + [SetSridWord];
      }
      sql := sql + Raw(dialect.geoBefore);
      sql := sql + [Placeholder(dialect, position)];
      sql := sql + Raw(dialect.geoAfter);
      if setSrid {
        sql := sql + [Comma, Number(srid.value), Close];
      }
    }

    /** One more bind, one more placeholder, whatever the bind is wrapped in. */
    method PushBind(value: Bind)
      requires Valid()
      modifies this
      ensures Valid() && binds == old(binds) + [Payload(value)]
      ensures sql == old(sql) + BindText(dialect, |old(binds)| + 1, value)
      ensures unsupported ==
              if value.Cast? && !dialect.casts && old(unsupported).None? then Some(value.cast) else old(unsupported)
    {
      hide Consumes, GeoText, Raw;
      BindConsumes(dialect, |binds|, value);
      ConsumesConcat(dialect, sql, BindText(dialect, |binds| + 1, value), 0, |binds|, 1);
      ghost var before := sql;
      binds := binds + [Payload(value)];
      var position := |binds|;
      match value {
        case Simple(_) =>
          sql := sql + [Placeholder(dialect, position)];
        case Cast(cast, _) =>
          sql := sql + [Placeholder(dialect, position)];
          if dialect.casts {
            sql := sql + [Verbatim("::")];
            sql := sql + [Verbatim(cast)];
          } else {
            MarkUnsupported(cast);
          }
        case Vector(_) =>
          sql := sql + Raw(dialect.vectorBefore);
          sql := sql + [Placeholder(dialect, position)];
          sql := sql + Raw(dialect.vectorAfter);
        case Geo(srid, _) =>
          PushGeo(srid, position);
      }
      assert sql == before + BindText(dialect, position, value);
    }
  }
}
