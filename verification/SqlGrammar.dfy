/**
 * How a database reads an expression: an independent precedence parser (OR, AND, NOT, comparison,
 * sum, primary) and the three-valued meaning of what it builds.
 */
module SqlGrammar {
  import opened Wrappers
  import opened SqlText
  import L = LikeEscape

  datatype Expr =
    | Column(table: string, name: string)
    | Stored(name: string)
    | New(name: string)
    | Param(position: nat)
    | Constant(n: int)
    | Choice(condition: Expr, yes: Expr, no: Expr)
    | Sum(sign: Sign, left: Expr, right: Expr)
    | Comparison(compare: Compare, left: Expr, right: Expr)
    | EscapedLike(left: Expr, pattern: Expr)
    | NullTest(e: Expr)
    | AnyElement(e: Expr, list: Expr)
    | Member(e: Expr, items: seq<Expr>)
    | Both(left: Expr, right: Expr)
    | Either(left: Expr, right: Expr)
    | Negation(e: Expr)
    | FirstNonNull(left: Expr, right: Expr)

  datatype Parse<T> = Fail | Done(value: T, rest: Sql)

  /** The next token, and the rest if it is the expected one. */
  predicate At(ts: Sql, t: Token) { ts != [] && ts[0] == t }

  function Expect<T>(p: Parse<T>, t: Token): (q: Parse<T>)
    ensures q.Done? ==> p.Done? && |q.rest| < |p.rest|
  {
    if p.Done? && At(p.rest, t) then Done(p.value, p.rest[1..]) else Fail
  }

  function ParseOr(ts: Sql): (p: Parse<Expr>)
    ensures p.Done? ==> |p.rest| < |ts|
    decreases |ts|, 7
  {
    var p := ParseAnd(ts);
    if p.Fail? then Fail else OrTail(p.value, p.rest)
  }

  function OrTail(e: Expr, ts: Sql): (p: Parse<Expr>)
    ensures p.Done? ==> |p.rest| <= |ts|
    decreases |ts|, 8
  {
    if At(ts, OrWord) then
      var p := ParseAnd(ts[1..]);
      if p.Fail? then Fail else OrTail(Either(e, p.value), p.rest)
    else Done(e, ts)
  }

  function ParseAnd(ts: Sql): (p: Parse<Expr>)
    ensures p.Done? ==> |p.rest| < |ts|
    decreases |ts|, 6
  {
    var p := ParseNot(ts);
    if p.Fail? then Fail else AndTail(p.value, p.rest)
  }

  function AndTail(e: Expr, ts: Sql): (p: Parse<Expr>)
    ensures p.Done? ==> |p.rest| <= |ts|
    decreases |ts|, 8
  {
    if At(ts, AndWord) then
      var p := ParseNot(ts[1..]);
      if p.Fail? then Fail else AndTail(Both(e, p.value), p.rest)
    else Done(e, ts)
  }

  function ParseNot(ts: Sql): (p: Parse<Expr>)
    ensures p.Done? ==> |p.rest| < |ts|
    decreases |ts|, 5
  {
    if At(ts, NotWord) then
      var p := ParseNot(ts[1..]);
      if p.Fail? then Fail else Done(Negation(p.value), p.rest)
    else ParseComparison(ts)
  }

  function ParseComparison(ts: Sql): (p: Parse<Expr>)
    ensures p.Done? ==> |p.rest| < |ts|
    decreases |ts|, 4
  {
    var p := ParseSum(ts);
    if p.Fail? then Fail else ComparisonTail(p.value, p.rest)
  }

  function ComparisonTail(e: Expr, ts: Sql): (p: Parse<Expr>)
    ensures p.Done? ==> |p.rest| <= |ts|
    decreases |ts|, 8
  {
    if |ts| >= 3 && ts[0] == CompareSign(Eq) && ts[1] == AnyWord && ts[2] == Open then
      var p := Expect(ParseOr(ts[3..]), Close);
      if p.Fail? then Fail else Done(AnyElement(e, p.value), p.rest)
    else if ts != [] && ts[0].CompareSign? then
      var p := ParseSum(ts[1..]);
      if p.Fail? then Fail
      else if ts[0].compare == Like && At(p.rest, EscapeBackslash) then Done(EscapedLike(e, p.value), p.rest[1..])
      else Done(Comparison(ts[0].compare, e, p.value), p.rest)
    else if |ts| >= 2 && ts[0] == IsWord && ts[1] == NullWord then Done(NullTest(e), ts[2..])
    else if |ts| >= 2 && ts[0] == InWord && ts[1] == Open then
      var p := Expect(ParseItems(ts[2..]), Close);
      if p.Fail? then Fail else Done(Member(e, p.value), p.rest)
    else Done(e, ts)
  }

  function ParseItems(ts: Sql): (p: Parse<seq<Expr>>)
    ensures p.Done? ==> |p.rest| < |ts|
    decreases |ts|, 8
  {
    var p := ParseOr(ts);
    if p.Fail? then Fail
    else if At(p.rest, Comma) then
      var q := ParseItems(p.rest[1..]);
      if q.Fail? then Fail else Done([p.value] + q.value, q.rest)
    else Done([p.value], p.rest)
  }

  function ParseSum(ts: Sql): (p: Parse<Expr>)
    ensures p.Done? ==> |p.rest| < |ts|
    decreases |ts|, 3
  {
    var p := ParsePrimary(ts);
    if p.Fail? then Fail else SumTail(p.value, p.rest)
  }

  function SumTail(e: Expr, ts: Sql): (p: Parse<Expr>)
    ensures p.Done? ==> |p.rest| <= |ts|
    decreases |ts|, 8
  {
    if ts != [] && ts[0].PlusMinus? then
      var p := ParsePrimary(ts[1..]);
      if p.Fail? then Fail else SumTail(Sum(ts[0].sign, e, p.value), p.rest)
    else Done(e, ts)
  }

  function ParsePrimary(ts: Sql): (p: Parse<Expr>)
    ensures p.Done? ==> |p.rest| < |ts|
    decreases |ts|, 2
  {
    if ts == [] then Fail else
      match ts[0]
      case Qualified(table, name) => Done(Column(table, name), ts[1..])
      case Ident(name) => Done(Stored(name), ts[1..])
      case Incoming(name) => Done(New(name), ts[1..])
      case Numbered(k) => Done(Param(k), ts[1..])
      case Number(n) => Done(Constant(n), ts[1..])
      case Open => Expect(ParseOr(ts[1..]), Close)
      case CaseWord => ParseCase(ts[1..])
      case ValuesWord =>
        if |ts| >= 4 && ts[1] == Open && ts[2].Ident? && ts[3] == Close then Done(New(ts[2].name), ts[4..]) else Fail
      case CoalesceWord => ParseCoalesce(ts[1..])
      case _ => Fail
  }

  function ParseCase(ts: Sql): (p: Parse<Expr>)
    ensures p.Done? ==> |p.rest| < |ts|
    decreases |ts|, 8
  {
    if !At(ts, WhenWord) then Fail else
      var c := Expect(ParseOr(ts[1..]), ThenWord);
      if c.Fail? then Fail else
        var yes := Expect(ParseOr(c.rest), ElseWord);
        if yes.Fail? then Fail else
          var no := Expect(ParseOr(yes.rest), EndWord);
          if no.Fail? then Fail else Done(Choice(c.value, yes.value, no.value), no.rest)
  }

  function ParseCoalesce(ts: Sql): (p: Parse<Expr>)
    ensures p.Done? ==> |p.rest| < |ts|
    decreases |ts|, 8
  {
    if !At(ts, Open) then Fail else
      var a := Expect(ParseOr(ts[1..]), Comma);
      if a.Fail? then Fail else
        var b := Expect(ParseOr(a.rest), Close);
        if b.Fail? then Fail else Done(FirstNonNull(a.value, b.value), b.rest)
  }

  // ----- What may follow ----------------------------------------------------------------------------

  /** No token that a sum, a comparison, a conjunction or a disjunction would go on with. */
  predicate EndsSum(ts: Sql) { ts == [] || !ts[0].PlusMinus? }

  predicate EndsComparison(ts: Sql) {
    EndsSum(ts) && (ts == [] || !(ts[0].CompareSign? || ts[0].IsWord? || ts[0].InWord? || ts[0].EscapeBackslash?))
  }

  predicate EndsAll(ts: Sql) { EndsComparison(ts) && !At(ts, AndWord) && !At(ts, OrWord) }

  /** Something parsed as a primary is parsed the same at every level that nothing after it extends. */
  lemma PrimaryUp(ts: Sql, e: Expr, rest: Sql)
    requires ParsePrimary(ts) == Done(e, rest)
    ensures EndsSum(rest) ==> ParseSum(ts) == Done(e, rest)
    ensures EndsComparison(rest) && !At(ts, NotWord) ==> ParseNot(ts) == Done(e, rest)
  {
    assert EndsSum(rest) ==> ParseSum(ts) == Done(e, rest);
    assert EndsComparison(rest) ==> ComparisonTail(e, rest) == Done(e, rest);
    assert EndsComparison(rest) ==> ParseComparison(ts) == Done(e, rest);
  }

  lemma NotUp(ts: Sql, e: Expr, rest: Sql)
    requires ParseNot(ts) == Done(e, rest)
    ensures EndsAll(rest) ==> ParseOr(ts) == Done(e, rest)
  {
    assert !At(rest, AndWord) ==> ParseAnd(ts) == Done(e, rest);
  }

  lemma PrimaryAll(ts: Sql, e: Expr, rest: Sql)
    requires ParsePrimary(ts) == Done(e, rest) && EndsAll(rest)
    ensures ParseOr(ts) == Done(e, rest)
  {
    hide ParsePrimary, ParseSum, ParseNot, ParseOr;
    PrimaryNotNot(ts, e, rest);
    PrimaryUp(ts, e, rest);
    NotUp(ts, e, rest);
  }

  lemma PrimaryNotNot(ts: Sql, e: Expr, rest: Sql)
    requires ParsePrimary(ts) == Done(e, rest)
    ensures !At(ts, NotWord)
  {
  }

  // ----- Meaning ------------------------------------------------------------------------------------------

  datatype Truth = True | False | Unknown

  function AndT(a: Truth, b: Truth): Truth {
    if a == False || b == False then False else if a == True && b == True then True else Unknown
  }

  function OrT(a: Truth, b: Truth): Truth {
    if a == True || b == True then True else if a == False && b == False then False else Unknown
  }

  function NotT(a: Truth): Truth {
    match a case True => False case False => True case Unknown => Unknown
  }

  /** What the database does with two non-null values. */
  datatype Semantics = Semantics(holds: (Compare, Datum, Datum) -> bool, sum: (Sign, Datum, Datum) -> Datum)

  /** Of comparisons between numbers only this one matters here. */
  ghost predicate Sane(sem: Semantics) { !sem.holds(Eq, Int(1), Int(0)) }

  datatype Env = Env(stored: (string, string) -> Datum, bare: string -> Datum, incoming: string -> Datum, sem: Semantics)

  function Compare3(sem: Semantics, op: Compare, a: Datum, b: Datum): Truth {
    if a.Null? || b.Null? then Unknown else if sem.holds(op, a, b) then True else False
  }

  function Sum3(sem: Semantics, sign: Sign, a: Datum, b: Datum): Datum {
    if a.Null? || b.Null? then Null else sem.sum(sign, a, b)
  }

  function Like3(a: Datum, p: Datum): Truth {
    if a.Text? && p.Text? then
      match L.Like(a.s, p.s) case Some(b) => (if b then True else False) case None => Unknown
    else Unknown
  }

  function AsDatum(t: Truth): Datum {
    match t case True => Bool(true) case False => Bool(false) case Unknown => Null
  }

  function AsTruth(d: Datum): Truth {
    if d.Bool? then (if d.b then True else False) else Unknown
  }

  /** `x in (…)` is `x = a or x = b or …`. */
  function InList(sem: Semantics, x: Datum, items: seq<Datum>): Truth {
    if items == [] then False else OrT(Compare3(sem, Eq, x, items[0]), InList(sem, x, items[1..]))
  }

  /** `x = any(array)`: true if some element is equal, unknown if some comparison is, false otherwise. */
  ghost function EqualsAny(sem: Semantics, x: Datum, items: seq<Datum>): Truth {
    if exists i :: 0 <= i < |items| && Compare3(sem, Eq, x, items[i]) == True then True
    else if exists i :: 0 <= i < |items| && Compare3(sem, Eq, x, items[i]) == Unknown then Unknown
    else False
  }

  lemma {:induction false} AnyIsIn(sem: Semantics, x: Datum, items: seq<Datum>)
    ensures EqualsAny(sem, x, items) == InList(sem, x, items)
  {
    if items != [] {
      AnyIsIn(sem, x, items[1..]);
      hide Compare3;
      assert items == [items[0]] + items[1..];
      assert forall i :: 1 <= i < |items| ==> items[i] == items[1..][i - 1];
    }
  }

  ghost function Eval(e: Expr, env: Env, binds: seq<Datum>): Datum
    decreases e
  {
    match e
    case Column(table, name) => env.stored(table, name)
    case Stored(name) => env.bare(name)
    case New(name) => env.incoming(name)
    case Param(k) => if 1 <= k <= |binds| then binds[k - 1] else Null
    case Constant(n) => Int(n)
    case Choice(c, yes, no) => if AsTruth(Eval(c, env, binds)) == True then Eval(yes, env, binds) else Eval(no, env, binds)
    case Sum(sign, l, r) => Sum3(env.sem, sign, Eval(l, env, binds), Eval(r, env, binds))
    case Comparison(op, l, r) => AsDatum(Compare3(env.sem, op, Eval(l, env, binds), Eval(r, env, binds)))
    case EscapedLike(l, p) => AsDatum(Like3(Eval(l, env, binds), Eval(p, env, binds)))
    case NullTest(x) => Bool(Eval(x, env, binds).Null?)
    case AnyElement(x, list) =>
      var items := Eval(list, env, binds);
      if items.Array? then AsDatum(EqualsAny(env.sem, Eval(x, env, binds), items.items)) else Null
    case Member(x, items) =>
      AsDatum(InList(env.sem, Eval(x, env, binds), EvalAll(items, env, binds)))
    case Both(l, r) => AsDatum(AndT(AsTruth(Eval(l, env, binds)), AsTruth(Eval(r, env, binds))))
    case Either(l, r) => AsDatum(OrT(AsTruth(Eval(l, env, binds)), AsTruth(Eval(r, env, binds))))
    case Negation(x) => AsDatum(NotT(AsTruth(Eval(x, env, binds))))
    case FirstNonNull(l, r) => if Eval(l, env, binds).Null? then Eval(r, env, binds) else Eval(l, env, binds)
  }

  ghost function EvalAll(items: seq<Expr>, env: Env, binds: seq<Datum>): seq<Datum>
    decreases items
  {
    if items == [] then [] else [Eval(items[0], env, binds)] + EvalAll(items[1..], env, binds)
  }

  // One unfolding at a time.
  lemma EvalChoice(c: Expr, l: Expr, r: Expr, env: Env, binds: seq<Datum>)
    ensures Eval(Choice(c, l, r), env, binds) ==
            if AsTruth(Eval(c, env, binds)) == True then Eval(l, env, binds) else Eval(r, env, binds)
  {
    hide NotT, AsTruth, AsDatum, InList, EqualsAny, Compare3, Sum3, Like3, AndT, OrT, EvalAll;
  }

  lemma EvalBoth(l: Expr, r: Expr, env: Env, binds: seq<Datum>)
    ensures Eval(Both(l, r), env, binds) == AsDatum(AndT(AsTruth(Eval(l, env, binds)), AsTruth(Eval(r, env, binds))))
  {
    hide NotT, AsTruth, AsDatum, InList, EqualsAny, Compare3, Sum3, Like3, AndT, OrT, EvalAll;
  }

  lemma EvalEither(l: Expr, r: Expr, env: Env, binds: seq<Datum>)
    ensures Eval(Either(l, r), env, binds) == AsDatum(OrT(AsTruth(Eval(l, env, binds)), AsTruth(Eval(r, env, binds))))
  {
    hide NotT, AsTruth, AsDatum, InList, EqualsAny, Compare3, Sum3, Like3, AndT, OrT, EvalAll;
  }

  lemma EvalUnary(l: Expr, env: Env, binds: seq<Datum>)
    ensures Eval(Negation(l), env, binds) == AsDatum(NotT(AsTruth(Eval(l, env, binds))))
    ensures Eval(NullTest(l), env, binds) == Bool(Eval(l, env, binds).Null?)
  {
    hide NotT, AsTruth, AsDatum, InList, EqualsAny, Compare3, Sum3, Like3, AndT, OrT, EvalAll;
  }

  lemma EvalLeaves(table: string, name: string, k: nat, n: int, env: Env, binds: seq<Datum>)
    ensures Eval(Column(table, name), env, binds) == env.stored(table, name)
    ensures Eval(Stored(name), env, binds) == env.bare(name)
    ensures Eval(New(name), env, binds) == env.incoming(name)
    ensures Eval(Param(k), env, binds) == if 1 <= k <= |binds| then binds[k - 1] else Null
    ensures Eval(Constant(n), env, binds) == Int(n)
  {
  }

  lemma EvalOperators(op: Compare, sign: Sign, l: Expr, r: Expr, env: Env, binds: seq<Datum>)
    ensures Eval(Comparison(op, l, r), env, binds) == AsDatum(Compare3(env.sem, op, Eval(l, env, binds), Eval(r, env, binds)))
    ensures Eval(Sum(sign, l, r), env, binds) == Sum3(env.sem, sign, Eval(l, env, binds), Eval(r, env, binds))
    ensures Eval(FirstNonNull(l, r), env, binds) == if Eval(l, env, binds).Null? then Eval(r, env, binds) else Eval(l, env, binds)
  {
    hide NotT, AsTruth, AsDatum, InList, EqualsAny, Compare3, Sum3, Like3, AndT, OrT, EvalAll;
  }
}
