/**
 * Writing a predicate (crates/orm/src/expr.rs, `write`, `write_into`, `write_any_of`, `combine`):
 * the recursion over a mutable writer, the placeholders it leaves, and the whole journey from the
 * tree to what the database makes of the text.
 */
module PredicateWriter {
  import opened Wrappers
  import opened SqlText
  import opened SqlGrammar
  import opened PredicateSql
  import L = LikeEscape

  // ----- Placeholders ----------------------------------------------------------------------------------

  function Mark(d: Dialect, t: Token): Token {
    if t.Numbered? then Placeholder(d, t.position) else t
  }

  /** The text as the dialect spells it: a bare `?` where placeholders are not numbered. */
  function Mask(d: Dialect, ts: Sql): Sql {
    seq(|ts|, i requires 0 <= i < |ts| => Mark(d, ts[i]))
  }

  lemma MaskConcat(d: Dialect, a: Sql, b: Sql)
    ensures Mask(d, a + b) == Mask(d, a) + Mask(d, b)
  {
  }

  lemma MaskOne(d: Dialect, t: Token)
    ensures Mask(d, [t]) == [Mark(d, t)]
  {
  }

  /** How a driver numbers bare placeholders: in text order. */
  function Resolve(ts: Sql): Sql {
    if ts == [] then []
    else
      var before, t := ts[..|ts| - 1], ts[|ts| - 1];
      Resolve(before) + [if t.Bare? then Numbered(|Placeholders(before)| + 1) else t]
  }

  lemma {:induction false} MaskPlaceholders(d: Dialect, ts: Sql)
    ensures |Placeholders(Mask(d, ts))| == |Placeholders(ts)|
  {
    if ts != [] {
      var n := |ts| - 1;
      MaskPlaceholders(d, ts[..n]);
      assert Mask(d, ts)[..n] == Mask(d, ts[..n]);
    }
  }

  /** Text whose placeholders are 1, 2, 3, … is recovered from either spelling. */
  lemma {:induction false} ResolveMask(d: Dialect, ts: Sql)
    requires Consumes(d.(numbered := true), ts, 0, |Placeholders(ts)|)
    ensures Resolve(Mask(d, ts)) == ts
  {
    if ts != [] {
      var n := |ts| - 1;
      var before, t := ts[..n], ts[n];
      assert Mask(d, ts)[..n] == Mask(d, before);
      MaskPlaceholders(d, before);
      assert ts == before + [t];
      PlaceholdersAppend(before, t);
      hide Placeholders, Resolve;
      var all := InOrder(d.(numbered := true), 0, |Placeholders(ts)|);
      assert Placeholders(before) == all[..|Placeholders(before)|];
      assert all[..|Placeholders(before)|] == InOrder(d.(numbered := true), 0, |Placeholders(before)|);
      ResolveMask(d, before);
      ResolveStep(Mask(d, ts));
      if IsPlaceholder(t) {
        assert t == Placeholders(ts)[|Placeholders(before)|];
        assert t == Numbered(|Placeholders(before)| + 1);
      }
    }
  }

  lemma ResolveStep(ts: Sql)
    requires ts != []
    ensures var before, t := ts[..|ts| - 1], ts[|ts| - 1];
            Resolve(ts) == Resolve(before) + [if t.Bare? then Numbered(|Placeholders(before)| + 1) else t]
  {
  }

  // ----- The text of a predicate consumes its binds in order --------------------------------------------------

  lemma Around(d: Dialect, a: Sql, x: Sql, b: Sql, from: nat, n: nat)
    requires Placeholders(a) == [] && Placeholders(b) == [] && Consumes(d, x, from, n)
    ensures Consumes(d, a + (x + b), from, n)
  {
    PlaceholdersConcat(x, b);
    PlaceholdersConcat(a, x + b);
  }

  lemma Between(d: Dialect, a: Sql, x: Sql, b: Sql, y: Sql, c: Sql, from: nat, m: nat, n: nat)
    requires Placeholders(a) == [] && Placeholders(b) == [] && Placeholders(c) == []
    requires Consumes(d, x, from, m) && Consumes(d, y, from + m, n)
    ensures Consumes(d, a + (x + (b + (y + c))), from, m + n)
  {
    hide Consumes;
    Around(d, b, y, c, from + m, n);
    ConsumesConcat(d, x, b + (y + c), from, m, n);
    Around(d, a, x + (b + (y + c)), [], from, m + n);
    assert x + (b + (y + c)) + [] == x + (b + (y + c));
  }

  lemma PlainTokens(ts: Sql)
    requires forall i :: 0 <= i < |ts| ==> !IsPlaceholder(ts[i])
    ensures Placeholders(ts) == [] && forall d, from :: Consumes(d, ts, from, 0)
  {
    NoPlaceholders(ts);
  }

  lemma ItemsStep(from: nat, count: nat)
    requires count > 1
    ensures ItemsText(from, count) == [Numbered(from + 1)] + ([Comma] + (ItemsText(from + 1, count - 1) + []))
  {
  }

  lemma {:induction false} ItemsConsume(d: Dialect, from: nat, count: nat)
    requires d.numbered
    ensures Consumes(d, ItemsText(from, count), from, count)
    decreases count
  {
    hide Consumes, Placeholders;
    if count == 0 {
      PlainTokens([]);
    } else {
      OneConsumes(d, from);
      if count > 1 {
        ItemsConsume(d, from + 1, count - 1);
        PlainTokens([Comma]);
        PlainTokens([]);
        ItemsStep(from, count);
        Around(d, [Comma], ItemsText(from + 1, count - 1), [], from + 1, count - 1);
        ConsumesConcat(d, [Numbered(from + 1)], [Comma] + (ItemsText(from + 1, count - 1) + []), from, 1, count - 1);
      }
    }
  }

  lemma OneConsumes(d: Dialect, from: nat)
    requires d.numbered
    ensures Consumes(d, [Numbered(from + 1)], from, 1)
  {
    PlaceholdersOne(Numbered(from + 1));
    assert InOrder(d, from, 1)[0] == Placeholder(d, from + 1);
  }

  lemma {:induction false} OperandConsumes(d: Dialect, from: nat, o: Operand)
    ensures Consumes(d.(numbered := true), OperandText(d, from, o), from, |OperandBinds(d, o)|)
    decreases o, 0
  {
    hide Consumes, Placeholders;
    var dn := d.(numbered := true);
    match o {
      case ColumnRef(table, name) => PlainTokens([Qualified(table, name)]);
      case Excluded(name) => PlainTokens(OperandText(d, from, o));
      case Value(_) => OneConsumes(dn, from);
      case Case(c, yes, no) => CaseConsumes(d, from, c, yes, no);
      case Arith(l, sign, r) =>
        OperandConsumes(d, from, l);
        OperandConsumes(d, from + |OperandBinds(d, l)|, r);
        PlainTokens([Open]);
        PlainTokens([PlusMinus(sign)]);
        PlainTokens([Close]);
        Between(dn, [Open], OperandText(d, from, l), [PlusMinus(sign)], OperandText(d, from + |OperandBinds(d, l)|, r), [Close],
                from, |OperandBinds(d, l)|, |OperandBinds(d, r)|);
    }
  }

  lemma CaseConsumes(d: Dialect, from: nat, c: Predicate, yes: Operand, no: Operand)
    ensures Consumes(d.(numbered := true), OperandText(d, from, Case(c, yes, no)), from, |OperandBinds(d, Case(c, yes, no))|)
    decreases Case(c, yes, no), -1
  {
    hide Consumes, Placeholders, Binds, PredicateText;
    var dn := d.(numbered := true);
    var a := from + |Binds(d, c)|;
    var b := a + |OperandBinds(d, yes)|;
    PredicateConsumes(d, from, c);
    OperandConsumes(d, a, yes);
    OperandConsumes(d, b, no);
    PlainTokens([CaseWord, WhenWord]);
    PlainTokens([ThenWord]);
    PlainTokens([ElseWord]);
    PlainTokens([EndWord]);
    PlainTokens([]);
    var y, n := OperandText(d, a, yes), OperandText(d, b, no);
    Between(dn, [ThenWord], y, [ElseWord], n, [EndWord], a, |OperandBinds(d, yes)|, |OperandBinds(d, no)|);
    var tail := [ThenWord] + (y + ([ElseWord] + (n + [EndWord])));
    ConsumesConcat(dn, PredicateText(d, from, c), tail, from, |Binds(d, c)|, |OperandBinds(d, yes)| + |OperandBinds(d, no)|);
    Around(dn, [CaseWord, WhenWord], PredicateText(d, from, c) + tail, [], from, |OperandBinds(d, Case(c, yes, no))|);
    assert PredicateText(d, from, c) + tail + [] == PredicateText(d, from, c) + tail;
  }

  lemma {:induction false} PredicateConsumes(d: Dialect, from: nat, p: Predicate)
    ensures Consumes(d.(numbered := true), PredicateText(d, from, p), from, |Binds(d, p)|)
    decreases p, 0
  {
    hide Consumes, Placeholders, OperandText, OperandBinds;
    var dn := d.(numbered := true);
    match p {
      case Binary(table, name, op, rhs) =>
        OperandConsumes(d, from, rhs);
        PlainTokens([Qualified(table, name), CompareSign(op)]);
        ConsumesConcat(dn, [Qualified(table, name), CompareSign(op)], OperandText(d, from, rhs), from, 0, |OperandBinds(d, rhs)|);
      case IsNull(table, name) => PlainTokens([Qualified(table, name), IsWord, NullWord]);
      case AnyOf(table, name, values) => AnyOfConsumes(d, from, table, name, values);
      case ContainsText(table, name, _) =>
        OneConsumes(dn, from);
        PlainTokens([Qualified(table, name), CompareSign(Like)]);
        PlainTokens([EscapeBackslash]);
        Around(dn, [Qualified(table, name), CompareSign(Like)], [Numbered(from + 1)], [EscapeBackslash], from, 1);
        assert PredicateText(d, from, p) ==
               [Qualified(table, name), CompareSign(Like)] + ([Numbered(from + 1)] + [EscapeBackslash]);
      case And(l, r) => JunctionRead(d, from, p, l, r);
      case Or(l, r) => JunctionRead(d, from, p, l, r);
      case Not(inner) =>
        PredicateConsumes(d, from, inner);
        PlainTokens([NotWord, Open]);
        PlainTokens([Close]);
        Around(dn, [NotWord, Open], PredicateText(d, from, inner), [Close], from, |Binds(d, inner)|);
    }
  }

  lemma AnyOfConsumes(d: Dialect, from: nat, table: string, name: string, values: seq<Datum>)
    ensures Consumes(d.(numbered := true), AnyOfText(d, from, table, name, |values|), from,
                     |Binds(d, AnyOf(table, name, values))|)
  {
    hide Consumes, Placeholders;
    var dn := d.(numbered := true);
    PlainTokens([Close]);
    if d.anyArray {
      OneConsumes(dn, from);
      var head := [Qualified(table, name), CompareSign(Eq), AnyWord, Open];
      PlainTokens(head);
      Around(dn, head, [Numbered(from + 1)], [Close], from, 1);
      assert AnyOfText(d, from, table, name, |values|) == head + ([Numbered(from + 1)] + [Close]);
    } else if values == [] {
      PlainTokens([Number(1), CompareSign(Eq), Number(0)]);
    } else {
      ItemsConsume(dn, from, |values|);
      PlainTokens([Qualified(table, name), InWord, Open]);
      Around(dn, [Qualified(table, name), InWord, Open], ItemsText(from, |values|), [Close], from, |values|);
    }
  }

  lemma JunctionRead(d: Dialect, from: nat, p: Predicate, l: Predicate, r: Predicate)
    requires p == And(l, r) || p == Or(l, r)
    ensures Consumes(d.(numbered := true), PredicateText(d, from, p), from, |Binds(d, p)|)
    decreases p, -1
  {
    hide Consumes, PredicateText, Binds;
    JunctionText(d, from, l, r);
    JunctionBinds(d, l, r);
    PredicateConsumes(d, from, l);
    PredicateConsumes(d, from + |Binds(d, l)|, r);
    JunctionConsumes(d, from, l, r, AndWord);
    JunctionConsumes(d, from, l, r, OrWord);
  }

  lemma JunctionBinds(d: Dialect, l: Predicate, r: Predicate)
    ensures Binds(d, And(l, r)) == Binds(d, l) + Binds(d, r) && Binds(d, Or(l, r)) == Binds(d, l) + Binds(d, r)
  {
    hide OperandBinds;
  }

  lemma JunctionConsumes(d: Dialect, from: nat, l: Predicate, r: Predicate, word: Token)
    requires !IsPlaceholder(word)
    requires Consumes(d.(numbered := true), PredicateText(d, from, l), from, |Binds(d, l)|)
    requires Consumes(d.(numbered := true), PredicateText(d, from + |Binds(d, l)|, r), from + |Binds(d, l)|, |Binds(d, r)|)
    ensures Consumes(d.(numbered := true),
                     [Open] + (PredicateText(d, from, l) + ([word] + (PredicateText(d, from + |Binds(d, l)|, r) + [Close]))),
                     from, |Binds(d, l)| + |Binds(d, r)|)
  {
    hide Consumes, Placeholders, PredicateText, Binds;
    PlainTokens([Open]);
    PlainTokens([word]);
    PlainTokens([Close]);
    Between(d.(numbered := true), [Open], PredicateText(d, from, l), [word], PredicateText(d, from + |Binds(d, l)|, r), [Close],
            from, |Binds(d, l)|, |Binds(d, r)|);
  }

  // ----- From the tree to what the database makes of it ---------------------------------------------------------

  /** Parsing the whole text, with bare placeholders numbered, and evaluating it. */
  ghost function Answer(sql: Sql, binds: seq<Datum>, env: Env): Option<Datum> {
    var p := ParseOr(Resolve(sql));
    if p.Done? && p.rest == [] then Some(Eval(p.value, env, binds)) else None
  }

  /**
   * In every dialect, for every predicate and every row, the database's three-valued answer to the
   * written text with the written binds is the truth of the tree.
   */
  lemma MeaningPreserved(d: Dialect, p: Predicate, env: Env)
    requires Sane(env.sem)
    ensures Answer(Mask(d, PredicateText(d, 0, p)), Binds(d, p), env) == Some(AsDatum(Meaning(p, env)))
  {
    hide ParseOr, Resolve, Mask, PredicateText, PredicateExpr, Binds, Meaning, Eval, Consumes;
    var ts := PredicateText(d, 0, p);
    PredicateConsumes(d, 0, p);
    CountIs(d, ts, |Binds(d, p)|);
    ResolveMask(d, ts);
    PredicateAll(d, 0, p, []);
    assert ts + [] == ts;
    AllPlaced(Binds(d, p));
    PredicateEval(d, 0, p, env, Binds(d, p));
  }

  lemma CountIs(d: Dialect, ts: Sql, n: nat)
    requires Consumes(d.(numbered := true), ts, 0, n)
    ensures |Placeholders(ts)| == n
  {
  }

  lemma AllPlaced(binds: seq<Datum>)
    ensures Placed(binds, 0, binds)
  {
  }

  // ----- Writing ------------------------------------------------------------------------------------------------

  /** Every identifier the text would hold is accepted. */
  predicate OperandIdents(valid: string -> bool, d: Dialect, o: Operand)
    decreases o
  {
    match o
    case ColumnRef(table, name) => valid(table) && valid(name)
    case Value(_) => true
    case Excluded(name) => valid(name)
    case Case(c, yes, no) => Idents(valid, d, c) && OperandIdents(valid, d, yes) && OperandIdents(valid, d, no)
    case Arith(l, _, r) => OperandIdents(valid, d, l) && OperandIdents(valid, d, r)
  }

  predicate Idents(valid: string -> bool, d: Dialect, p: Predicate)
    decreases p
  {
    match p
    case Binary(table, name, _, rhs) => valid(table) && valid(name) && OperandIdents(valid, d, rhs)
    case IsNull(table, name) => valid(table) && valid(name)
    case AnyOf(table, name, values) => (values == [] && !d.anyArray) || (valid(table) && valid(name))
    case ContainsText(table, name, _) => valid(table) && valid(name)
    case And(l, r) => Idents(valid, d, l) && Idents(valid, d, r)
    case Or(l, r) => Idents(valid, d, l) && Idents(valid, d, r)
    case Not(inner) => Idents(valid, d, inner)
  }

  datatype Snapshot = Snapshot(sql: Sql, binds: seq<Datum>)

  ghost function Now(w: SqlWriter): Snapshot
    reads w
  {
    Snapshot(w.sql, w.binds)
  }

  /** Between two moments exactly this text and these binds were written. */
  ghost predicate Wrote(d: Dialect, a: Snapshot, b: Snapshot, text: Sql, more: seq<Datum>) {
    b.sql == a.sql + Mask(d, text) && b.binds == a.binds + more
  }

  lemma WroteConcat(d: Dialect, a: Snapshot, b: Snapshot, c: Snapshot, t: Sql, u: Sql, x: seq<Datum>, y: seq<Datum>)
    requires Wrote(d, a, b, t, x) && Wrote(d, b, c, u, y)
    ensures Wrote(d, a, c, t + u, x + y) && |b.binds| == |a.binds| + |x|
  {
    MaskConcat(d, t, u);
  }

  lemma WroteCount(d: Dialect, a: Snapshot, b: Snapshot, t: Sql, x: seq<Datum>)
    requires Wrote(d, a, b, t, x)
    ensures |b.binds| == |a.binds| + |x|
  {
  }

  /** Wrapped in text of their own, two parts. */
  lemma WroteAround(d: Dialect, a: Snapshot, b: Snapshot, c: Snapshot, e: Snapshot, f: Snapshot, g: Snapshot,
                    opening: Sql, t: Sql, mid: Sql, u: Sql, close: Sql, x: seq<Datum>, y: seq<Datum>)
    requires Wrote(d, a, b, opening, []) && Wrote(d, b, c, t, x) && Wrote(d, c, e, mid, []) && Wrote(d, e, f, u, y)
    requires Wrote(d, f, g, close, [])
    ensures Wrote(d, a, g, opening + (t + (mid + (u + close))), x + y)
  {
    hide Wrote;
    WroteConcat(d, e, f, g, u, close, y, []);
    assert y + [] == y;
    WroteConcat(d, c, e, g, mid, u + close, [], y);
    assert [] + y == y;
    WroteConcat(d, b, c, g, t, mid + (u + close), x, y);
    WroteConcat(d, a, b, g, opening, t + (mid + (u + close)), [], x + y);
    assert [] + (x + y) == x + y;
  }

  method Push(w: SqlWriter, text: Sql)
    requires w.Valid() && forall i :: 0 <= i < |text| ==> !IsPlaceholder(text[i])
    modifies w`sql
    ensures w.Valid() && Wrote(w.dialect, old(Now(w)), Now(w), text, []) && w.binds == old(w.binds)
  {
    PlainTokens(text);
    assert Mask(w.dialect, text) == text;
    w.Push(text);
  }

  method PushQualified(w: SqlWriter, table: string, name: string) returns (ok: bool)
    requires w.Valid()
    modifies w`sql
    ensures w.Valid() && ok == (w.validIdent(table) && w.validIdent(name))
    ensures ok ==> Wrote(w.dialect, old(Now(w)), Now(w), [Qualified(table, name)], [])
  {
    MaskOne(w.dialect, Qualified(table, name));
    ok := w.PushQualified(table, name);
  }

  method PushBind(w: SqlWriter, v: Datum)
    requires w.Valid()
    modifies w
    ensures w.Valid() && w.unsupported == old(w.unsupported)
    ensures Wrote(w.dialect, old(Now(w)), Now(w), [Numbered(|old(w.binds)| + 1)], [v])
  {
    MaskOne(w.dialect, Numbered(|w.binds| + 1));
    w.PushBind(Simple(v));
  }

  method WriteOperand(o: Operand, w: SqlWriter) returns (ok: bool)
    requires w.Valid()
    modifies w
    ensures w.Valid() && w.unsupported == old(w.unsupported)
    ensures ok == OperandIdents(w.validIdent, w.dialect, o)
    ensures ok ==> Wrote(w.dialect, old(Now(w)), Now(w), OperandText(w.dialect, |old(w.binds)|, o), OperandBinds(w.dialect, o))
    decreases o, 0
  {
    hide Wrote;
    match o {
      case ColumnRef(table, name) => ok := PushQualified(w, table, name);
      case Excluded(name) => ok := WriteExcluded(name, w);
      case Value(v) =>
        PushBind(w, v);
        ok := true;
      case Case(c, yes, no) => ok := WriteCase(c, yes, no, w);
      case Arith(l, sign, r) => ok := WriteArith(l, sign, r, w);
    }
  }

  method WriteExcluded(name: string, w: SqlWriter) returns (ok: bool)
    requires w.Valid()
    modifies w`sql
    ensures w.Valid() && ok == w.validIdent(name)
    ensures ok ==> Wrote(w.dialect, old(Now(w)), Now(w), OperandText(w.dialect, 0, Excluded(name)), [])
  {
    if w.dialect.onDuplicateKey {
      Push(w, [ValuesWord, Open]);
      ok := w.PushIdent(name);
      if ok {
        Push(w, [Close]);
      }
    } else {
      ok := w.validIdent(name);
      if ok {
        Push(w, [Incoming(name)]);
      }
    }
  }

  method WriteCase(c: Predicate, yes: Operand, no: Operand, w: SqlWriter) returns (ok: bool)
    requires w.Valid()
    modifies w
    ensures w.Valid() && w.unsupported == old(w.unsupported)
    ensures ok == OperandIdents(w.validIdent, w.dialect, Case(c, yes, no))
    ensures ok ==> Wrote(w.dialect, old(Now(w)), Now(w), OperandText(w.dialect, |old(w.binds)|, Case(c, yes, no)),
                         OperandBinds(w.dialect, Case(c, yes, no)))
    decreases Case(c, yes, no), -1
  {
    hide Wrote, PredicateText, Idents, Binds, OperandText, OperandBinds, OperandIdents;
    CaseIdents(w.validIdent, w.dialect, c, yes, no);
    ghost var d, s0, from := w.dialect, Now(w), |w.binds|;
    Push(w, [CaseWord, WhenWord]);
    ghost var s1 := Now(w);
    ok := WritePredicate(c, w);
    if !ok { return; }
    ghost var s2 := Now(w);
    WroteCount(d, s1, s2, PredicateText(d, from, c), Binds(d, c));
    Push(w, [ThenWord]);
    ghost var s3, a := Now(w), |w.binds|;
    ok := WriteOperand(yes, w);
    if !ok { return; }
    ghost var s4 := Now(w);
    WroteCount(d, s3, s4, OperandText(d, a, yes), OperandBinds(d, yes));
    Push(w, [ElseWord]);
    ghost var s5, b := Now(w), |w.binds|;
    ok := WriteOperand(no, w);
    if !ok { return; }
    ghost var s6 := Now(w);
    Push(w, [EndWord]);
    WroteCase(d, s0, s1, s2, s3, s4, s5, s6, Now(w), c, yes, no);
  }

  lemma WroteCase(d: Dialect, s0: Snapshot, s1: Snapshot, s2: Snapshot, s3: Snapshot, s4: Snapshot, s5: Snapshot, s6: Snapshot,
                  s7: Snapshot, c: Predicate, yes: Operand, no: Operand)
    requires Wrote(d, s0, s1, [CaseWord, WhenWord], []) && Wrote(d, s2, s3, [ThenWord], [])
    requires Wrote(d, s4, s5, [ElseWord], []) && Wrote(d, s6, s7, [EndWord], [])
    requires var from := |s0.binds|;
             var a := from + |Binds(d, c)|;
             && Wrote(d, s1, s2, PredicateText(d, from, c), Binds(d, c))
             && Wrote(d, s3, s4, OperandText(d, a, yes), OperandBinds(d, yes))
             && Wrote(d, s5, s6, OperandText(d, a + |OperandBinds(d, yes)|, no), OperandBinds(d, no))
    ensures Wrote(d, s0, s7, OperandText(d, |s0.binds|, Case(c, yes, no)), OperandBinds(d, Case(c, yes, no)))
  {
    hide Wrote, PredicateText, Binds, OperandText, OperandBinds;
    CaseText(d, |s0.binds|, c, yes, no);
    CaseBinds(d, c, yes, no);
    var from := |s0.binds|;
    var a := from + |Binds(d, c)|;
    var y, n := OperandText(d, a, yes), OperandText(d, a + |OperandBinds(d, yes)|, no);
    var tail := [ThenWord] + (y + ([ElseWord] + (n + [EndWord])));
    var more := OperandBinds(d, yes) + OperandBinds(d, no);
    WroteAround(d, s2, s3, s4, s5, s6, s7, [ThenWord], y, [ElseWord], n, [EndWord], OperandBinds(d, yes), OperandBinds(d, no));
    WroteConcat(d, s1, s2, s7, PredicateText(d, from, c), tail, Binds(d, c), more);
    WroteConcat(d, s0, s1, s7, [CaseWord, WhenWord], PredicateText(d, from, c) + tail, [], Binds(d, c) + more);
    assert [] + (Binds(d, c) + more) == Binds(d, c) + OperandBinds(d, yes) + OperandBinds(d, no);
  }

  lemma CaseBinds(d: Dialect, c: Predicate, yes: Operand, no: Operand)
    ensures OperandBinds(d, Case(c, yes, no)) == Binds(d, c) + OperandBinds(d, yes) + OperandBinds(d, no)
  {
    hide Binds;
  }

  lemma CaseIdents(valid: string -> bool, d: Dialect, c: Predicate, yes: Operand, no: Operand)
    ensures OperandIdents(valid, d, Case(c, yes, no)) ==
            (Idents(valid, d, c) && OperandIdents(valid, d, yes) && OperandIdents(valid, d, no))
  {
    hide Idents;
  }

  method WriteArith(l: Operand, sign: Sign, r: Operand, w: SqlWriter) returns (ok: bool)
    requires w.Valid()
    modifies w
    ensures w.Valid() && w.unsupported == old(w.unsupported)
    ensures ok == OperandIdents(w.validIdent, w.dialect, Arith(l, sign, r))
    ensures ok ==> Wrote(w.dialect, old(Now(w)), Now(w), OperandText(w.dialect, |old(w.binds)|, Arith(l, sign, r)),
                         OperandBinds(w.dialect, Arith(l, sign, r)))
    decreases Arith(l, sign, r), -1
  {
    hide Wrote, OperandText, OperandBinds, OperandIdents;
    ghost var d, s0, from := w.dialect, Now(w), |w.binds|;
    ArithText(d, from, l, sign, r);
    ArithParts(w.validIdent, d, l, sign, r);
    Push(w, [Open]);
    ghost var s1 := Now(w);
    ok := WriteOperand(l, w);
    if !ok { return; }
    ghost var s2 := Now(w);
    WroteCount(d, s1, s2, OperandText(d, from, l), OperandBinds(d, l));
    Push(w, [PlusMinus(sign)]);
    ghost var s3, a := Now(w), |w.binds|;
    ok := WriteOperand(r, w);
    if !ok { return; }
    ghost var s4 := Now(w);
    Push(w, [Close]);
    WroteAround(d, s0, s1, s2, s3, s4, Now(w), [Open], OperandText(d, from, l), [PlusMinus(sign)], OperandText(d, a, r), [Close],
                OperandBinds(d, l), OperandBinds(d, r));
  }

  lemma ArithParts(valid: string -> bool, d: Dialect, l: Operand, sign: Sign, r: Operand)
    ensures var o := Arith(l, sign, r);
            && OperandIdents(valid, d, o) == (OperandIdents(valid, d, l) && OperandIdents(valid, d, r))
            && OperandBinds(d, o) == OperandBinds(d, l) + OperandBinds(d, r)
  {
    hide Idents, Binds;
  }

  method WritePredicate(p: Predicate, w: SqlWriter) returns (ok: bool)
    requires w.Valid()
    modifies w
    ensures w.Valid() && w.unsupported == old(w.unsupported)
    ensures ok == Idents(w.validIdent, w.dialect, p)
    ensures ok ==> Wrote(w.dialect, old(Now(w)), Now(w), PredicateText(w.dialect, |old(w.binds)|, p), Binds(w.dialect, p))
    decreases p, 0
  {
    hide Wrote, OperandText, OperandBinds, OperandIdents;
    match p {
      case Binary(table, name, op, rhs) => ok := WriteBinary(table, name, op, rhs, w);
      case IsNull(table, name) => ok := WriteIsNull(table, name, w);
      case AnyOf(table, name, values) => ok := WriteAnyOf(table, name, values, w);
      case ContainsText(table, name, needle) => ok := WriteLike(table, name, needle, w);
      case And(l, r) => ok := Combine(p, l, AndWord, r, w);
      case Or(l, r) => ok := Combine(p, l, OrWord, r, w);
      case Not(inner) => ok := WriteNot(inner, w);
    }
  }

  method WriteBinary(table: string, name: string, op: Compare, rhs: Operand, w: SqlWriter) returns (ok: bool)
    requires w.Valid()
    modifies w
    ensures w.Valid() && w.unsupported == old(w.unsupported)
    ensures ok == Idents(w.validIdent, w.dialect, Binary(table, name, op, rhs))
    ensures ok ==> Wrote(w.dialect, old(Now(w)), Now(w), PredicateText(w.dialect, |old(w.binds)|, Binary(table, name, op, rhs)),
                         OperandBinds(w.dialect, rhs))
    decreases rhs, 1
  {
    hide Wrote, OperandText, OperandBinds, OperandIdents;
    ghost var d, s0, from := w.dialect, Now(w), |w.binds|;
    ok := PushQualified(w, table, name);
    if !ok { return; }
    ghost var s1 := Now(w);
    WroteCount(d, s0, s1, [Qualified(table, name)], []);
    Push(w, [CompareSign(op)]);
    ghost var s2 := Now(w);
    ok := WriteOperand(rhs, w);
    if !ok { return; }
    WroteConcat(d, s0, s1, s2, [Qualified(table, name)], [CompareSign(op)], [], []);
    WroteConcat(d, s0, s2, Now(w), [Qualified(table, name)] + [CompareSign(op)], OperandText(d, from, rhs), [] + [], OperandBinds(d, rhs));
    assert [] + [] + OperandBinds(d, rhs) == OperandBinds(d, rhs);
    assert [Qualified(table, name)] + [CompareSign(op)] == [Qualified(table, name), CompareSign(op)];
  }

  method WriteIsNull(table: string, name: string, w: SqlWriter) returns (ok: bool)
    requires w.Valid()
    modifies w`sql
    ensures w.Valid() && ok == (w.validIdent(table) && w.validIdent(name))
    ensures ok ==> Wrote(w.dialect, old(Now(w)), Now(w), [Qualified(table, name), IsWord, NullWord], [])
  {
    hide Wrote;
    ghost var d, s0 := w.dialect, Now(w);
    ok := PushQualified(w, table, name);
    if !ok { return; }
    ghost var s1 := Now(w);
    Push(w, [IsWord, NullWord]);
    WroteConcat(d, s0, s1, Now(w), [Qualified(table, name)], [IsWord, NullWord], [], []);
    assert [Qualified(table, name)] + [IsWord, NullWord] == [Qualified(table, name), IsWord, NullWord];
  }

  method WriteLike(table: string, name: string, needle: string, w: SqlWriter) returns (ok: bool)
    requires w.Valid()
    modifies w
    ensures w.Valid() && w.unsupported == old(w.unsupported)
    ensures ok == (w.validIdent(table) && w.validIdent(name))
    ensures ok ==> Wrote(w.dialect, old(Now(w)), Now(w),
                         [Qualified(table, name), CompareSign(Like), Numbered(|old(w.binds)| + 1), EscapeBackslash],
                         [Text(L.Pattern(needle))])
  {
    hide Wrote;
    var escaped := L.EscapeLike(needle);
    var pattern := Text("%" + escaped + "%");
    ghost var d, s0, k := w.dialect, Now(w), |w.binds| + 1;
    ok := PushQualified(w, table, name);
    if !ok { return; }
    ghost var s1 := Now(w);
    WroteCount(d, s0, s1, [Qualified(table, name)], []);
    Push(w, [CompareSign(Like)]);
    ghost var s2 := Now(w);
    PushBind(w, pattern);
    ghost var s3 := Now(w);
    Push(w, [EscapeBackslash]);
    WroteConcat(d, s2, s3, Now(w), [Numbered(k)], [EscapeBackslash], [pattern], []);
    WroteConcat(d, s1, s2, Now(w), [CompareSign(Like)], [Numbered(k)] + [EscapeBackslash], [], [pattern] + []);
    WroteConcat(d, s0, s1, Now(w), [Qualified(table, name)], [CompareSign(Like)] + ([Numbered(k)] + [EscapeBackslash]), [],
                [] + ([pattern] + []));
    assert [] + ([] + ([pattern] + [])) == [pattern];
    assert [Qualified(table, name)] + ([CompareSign(Like)] + ([Numbered(k)] + [EscapeBackslash]))
           == [Qualified(table, name), CompareSign(Like), Numbered(k), EscapeBackslash];
  }

  lemma {:induction false} ItemsSnoc(from: nat, count: nat)
    ensures ItemsText(from, count + 1) == ItemsText(from, count) + (if count > 0 then [Comma] else []) + [Numbered(from + count + 1)]
    decreases count
  {
    if count > 0 {
      ItemsSnoc(from + 1, count - 1);
    }
  }

  /** `$1, $2, …`: one bind per element. */
  method WriteItems(values: seq<Datum>, w: SqlWriter)
    requires w.Valid()
    modifies w
    ensures w.Valid() && w.unsupported == old(w.unsupported)
    ensures Wrote(w.dialect, old(Now(w)), Now(w), ItemsText(|old(w.binds)|, |values|), values)
  {
    hide Wrote, ItemsText;
    ghost var d, s0, from := w.dialect, Now(w), |w.binds|;
    assert values[..0] == [];
    WroteNothing(d, s0, from);
    for i := 0 to |values|
      invariant w.Valid() && w.unsupported == old(w.unsupported)
      invariant Wrote(d, s0, Now(w), ItemsText(from, i), values[..i])
    {
      ghost var s1 := Now(w);
      WroteCount(d, s0, s1, ItemsText(from, i), values[..i]);
      if i > 0 {
        Push(w, [Comma]);
      }
      ghost var s2 := Now(w);
      PushBind(w, values[i]);
      WroteItem(d, s0, s1, s2, Now(w), from, i, values);
    }
    assert values[..|values|] == values;
  }

  lemma WroteItem(d: Dialect, s0: Snapshot, s1: Snapshot, s2: Snapshot, s3: Snapshot, from: nat, i: nat, values: seq<Datum>)
    requires i < |values| && Wrote(d, s0, s1, ItemsText(from, i), values[..i])
    requires if i > 0 then Wrote(d, s1, s2, [Comma], []) else s2 == s1
    requires Wrote(d, s2, s3, [Numbered(from + i + 1)], [values[i]])
    ensures Wrote(d, s0, s3, ItemsText(from, i + 1), values[..i + 1])
  {
    hide Wrote, ItemsText;
    ItemsSnoc(from, i);
    var done := ItemsText(from, i) + (if i > 0 then [Comma] else []);
    assert values[..i] + [] == values[..i] && values[..i] + [values[i]] == values[..i + 1];
    if i > 0 {
      WroteConcat(d, s0, s1, s2, ItemsText(from, i), [Comma], values[..i], []);
    } else {
      assert done == ItemsText(from, i);
    }
    WroteConcat(d, s0, s2, s3, done, [Numbered(from + i + 1)], values[..i], [values[i]]);
  }

  lemma WroteNothing(d: Dialect, s: Snapshot, from: nat)
    ensures Wrote(d, s, s, ItemsText(from, 0), [])
  {
  }

  method WriteAnyOf(table: string, name: string, values: seq<Datum>, w: SqlWriter) returns (ok: bool)
    requires w.Valid()
    modifies w
    ensures w.Valid() && w.unsupported == old(w.unsupported)
    ensures ok == Idents(w.validIdent, w.dialect, AnyOf(table, name, values))
    ensures ok ==> Wrote(w.dialect, old(Now(w)), Now(w), AnyOfText(w.dialect, |old(w.binds)|, table, name, |values|),
                         Binds(w.dialect, AnyOf(table, name, values)))
  {
    hide Wrote, ItemsText;
    ghost var d, s0, from := w.dialect, Now(w), |w.binds|;
    if !w.dialect.anyArray && values == [] {
      Push(w, [Number(1), CompareSign(Eq), Number(0)]);
      return true;
    }
    ok := PushQualified(w, table, name);
    if !ok { return; }
    ghost var s1 := Now(w);
    WroteCount(d, s0, s1, [Qualified(table, name)], []);
    ghost var opening := if d.anyArray then [CompareSign(Eq), AnyWord, Open] else [InWord, Open];
    if w.dialect.anyArray {
      Push(w, [CompareSign(Eq), AnyWord, Open]);
    } else {
      Push(w, [InWord, Open]);
    }
    ghost var s2 := Now(w);
    if w.dialect.anyArray {
      PushBind(w, Array(values));
    } else {
      WriteItems(values, w);
    }
    ghost var s3 := Now(w);
    Push(w, [Close]);
    ghost var items := if d.anyArray then [Numbered(from + 1)] else ItemsText(from, |values|);
    ghost var binds := if d.anyArray then [Array(values)] else values;
    WroteList(d, s0, s1, s2, s3, Now(w), Qualified(table, name), opening, items, binds);
    assert d.anyArray ==> [Qualified(table, name)] + (opening + (items + [Close])) == AnyOfText(d, from, table, name, |values|);
    assert !d.anyArray ==> [Qualified(table, name)] + (opening + (items + [Close])) ==
                           [Qualified(table, name), InWord, Open] + (items + [Close]);
  }

  lemma WroteList(d: Dialect, s0: Snapshot, s1: Snapshot, s2: Snapshot, s3: Snapshot, s4: Snapshot, head: Token, opening: Sql,
                  items: Sql, binds: seq<Datum>)
    requires Wrote(d, s0, s1, [head], []) && Wrote(d, s1, s2, opening, []) && Wrote(d, s2, s3, items, binds)
    requires Wrote(d, s3, s4, [Close], [])
    ensures Wrote(d, s0, s4, [head] + (opening + (items + [Close])), binds)
  {
    hide Wrote;
    WroteConcat(d, s2, s3, s4, items, [Close], binds, []);
    assert binds + [] == binds;
    WroteConcat(d, s1, s2, s4, opening, items + [Close], [], binds);
    assert [] + binds == binds;
    WroteConcat(d, s0, s1, s4, [head], opening + (items + [Close]), [], binds);
  }

  method Combine(ghost whole: Predicate, l: Predicate, word: Token, r: Predicate, w: SqlWriter) returns (ok: bool)
    requires w.Valid() && !IsPlaceholder(word) && (whole == And(l, r) || whole == Or(l, r))
    modifies w
    ensures w.Valid() && w.unsupported == old(w.unsupported)
    ensures ok == (Idents(w.validIdent, w.dialect, l) && Idents(w.validIdent, w.dialect, r))
    ensures var d, from := w.dialect, |old(w.binds)|;
            ok ==> Wrote(d, old(Now(w)), Now(w),
                         [Open] + (PredicateText(d, from, l) + ([word] + (PredicateText(d, from + |Binds(d, l)|, r) + [Close]))),
                         Binds(d, l) + Binds(d, r))
    decreases whole, -1
  {
    hide Wrote, PredicateText, Idents, Binds;
    ghost var d, s0, from := w.dialect, Now(w), |w.binds|;
    Push(w, [Open]);
    ghost var s1 := Now(w);
    ok := WritePredicate(l, w);
    if !ok { return; }
    ghost var s2 := Now(w);
    WroteCount(d, s1, s2, PredicateText(d, from, l), Binds(d, l));
    Push(w, [word]);
    ghost var s3, a := Now(w), |w.binds|;
    ok := WritePredicate(r, w);
    if !ok { return; }
    ghost var s4 := Now(w);
    Push(w, [Close]);
    WroteAround(d, s0, s1, s2, s3, s4, Now(w), [Open], PredicateText(d, from, l), [word], PredicateText(d, a, r), [Close],
                Binds(d, l), Binds(d, r));
  }

  method WriteNot(inner: Predicate, w: SqlWriter) returns (ok: bool)
    requires w.Valid()
    modifies w
    ensures w.Valid() && w.unsupported == old(w.unsupported)
    ensures ok == Idents(w.validIdent, w.dialect, inner)
    ensures ok ==> Wrote(w.dialect, old(Now(w)), Now(w),
                         [NotWord, Open] + (PredicateText(w.dialect, |old(w.binds)|, inner) + [Close]), Binds(w.dialect, inner))
    decreases inner, 1
  {
    hide Wrote, PredicateText, Idents, Binds;
    ghost var d, s0, from := w.dialect, Now(w), |w.binds|;
    Push(w, [NotWord, Open]);
    ghost var s1 := Now(w);
    ok := WritePredicate(inner, w);
    if !ok { return; }
    ghost var s2, text, binds := Now(w), PredicateText(d, from, inner), Binds(d, inner);
    Push(w, [Close]);
    WroteConcat(d, s1, s2, Now(w), text, [Close], binds, []);
    assert binds + [] == binds;
    WroteConcat(d, s0, s1, Now(w), [NotWord, Open], text + [Close], [], binds);
    assert [] + binds == binds;
  }

  /** Rendered from scratch, a predicate is answered as it was meant, on every row. */
  method RenderPredicate(d: Dialect, validIdent: string -> bool, p: Predicate) returns (ok: bool, sql: Sql, binds: seq<Datum>)
    ensures ok == Idents(validIdent, d, p)
    ensures ok ==> forall env: Env :: Sane(env.sem) ==> Answer(sql, binds, env) == Some(AsDatum(Meaning(p, env)))
    ensures ok ==> Consumes(d, sql, 0, |binds|)
  {
    hide PredicateText, Binds, Meaning, Answer, Idents, Mask, Consumes;
    var w := new SqlWriter(d, validIdent);
    ok := WritePredicate(p, w);
    sql, binds := w.sql, w.binds;
    if ok {
      assert sql == Mask(d, PredicateText(d, 0, p)) && binds == Binds(d, p);
      forall env: Env | Sane(env.sem) ensures Answer(sql, binds, env) == Some(AsDatum(Meaning(p, env))) {
        MeaningPreserved(d, p, env);
      }
    }
  }
}
