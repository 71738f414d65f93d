/**
 * Typed predicates (crates/orm/src/expr.rs): what a predicate tree means, the text and binds it is
 * written as in each dialect, and that the database reads the text as the tree.
 */
module PredicateSql {
  import opened Wrappers
  import opened SqlText
  import opened SqlGrammar
  import T = Text
  import L = LikeEscape

  datatype Operand =
    | ColumnRef(table: string, name: string)
    | Value(value: Datum)
    | Excluded(name: string)
    | Case(condition: Predicate, yes: Operand, no: Operand)
    | Arith(lhs: Operand, sign: Sign, rhs: Operand)

  datatype Predicate =
    | Binary(table: string, name: string, compare: Compare, rhs: Operand)
    | IsNull(table: string, name: string)
    | AnyOf(table: string, name: string, values: seq<Datum>)
    | ContainsText(table: string, name: string, needle: string)
    | And(left: Predicate, right: Predicate)
    | Or(left: Predicate, right: Predicate)
    | Not(inner: Predicate)

  // ----- What the tree means --------------------------------------------------------------------------

  function OperandMeaning(o: Operand, env: Env): Datum
    decreases o
  {
    match o
    case ColumnRef(table, name) => env.stored(table, name)
    case Value(v) => v
    case Excluded(name) => env.incoming(name)
    case Case(c, yes, no) => if Meaning(c, env) == True then OperandMeaning(yes, env) else OperandMeaning(no, env)
    case Arith(l, sign, r) => Sum3(env.sem, sign, OperandMeaning(l, env), OperandMeaning(r, env))
  }

  function Meaning(p: Predicate, env: Env): Truth
    decreases p
  {
    match p
    case Binary(table, name, op, rhs) => Compare3(env.sem, op, env.stored(table, name), OperandMeaning(rhs, env))
    case IsNull(table, name) => if env.stored(table, name).Null? then True else False
    case AnyOf(table, name, values) => InList(env.sem, env.stored(table, name), values)
    case ContainsText(table, name, needle) =>
      var subject := env.stored(table, name);
      if !subject.Text? then Unknown else if T.Contains(subject.s, needle) then True else False
    case And(l, r) => AndT(Meaning(l, env), Meaning(r, env))
    case Or(l, r) => OrT(Meaning(l, env), Meaning(r, env))
    case Not(inner) => NotT(Meaning(inner, env))
  }

  // ----- The text and the binds --------------------------------------------------------------------------

  function OperandBinds(d: Dialect, o: Operand): seq<Datum>
    decreases o
  {
    match o
    case ColumnRef(_, _) => []
    case Excluded(_) => []
    case Value(v) => [v]
    case Case(c, yes, no) => Binds(d, c) + OperandBinds(d, yes) + OperandBinds(d, no)
    case Arith(l, _, r) => OperandBinds(d, l) + OperandBinds(d, r)
  }

  function Binds(d: Dialect, p: Predicate): seq<Datum>
    decreases p
  {
    match p
    case Binary(_, _, _, rhs) => OperandBinds(d, rhs)
    case IsNull(_, _) => []
    case AnyOf(_, _, values) => if d.anyArray then [Array(values)] else values
    case ContainsText(_, _, needle) => [Text(L.Pattern(needle))]
    case And(l, r) => Binds(d, l) + Binds(d, r)
    case Or(l, r) => Binds(d, l) + Binds(d, r)
    case Not(inner) => Binds(d, inner)
  }

  /** `?, ?, …`: the placeholders of a list, numbered. */
  function ItemsText(from: nat, count: nat): Sql
    decreases count
  {
    if count == 0 then [] else if count == 1 then [Numbered(from + 1)]
    else [Numbered(from + 1), Comma] + ItemsText(from + 1, count - 1)
  }

  /** The text after `from` binds, with every placeholder numbered. */
  function OperandText(d: Dialect, from: nat, o: Operand): Sql
    decreases o
  {
    match o
    case ColumnRef(table, name) => [Qualified(table, name)]
    case Value(_) => [Numbered(from + 1)]
    case Excluded(name) => if d.onDuplicateKey then [ValuesWord, Open, Ident(name), Close] else [Incoming(name)]
    case Case(c, yes, no) =>
      var a := from + |Binds(d, c)|;
      [CaseWord, WhenWord] + (PredicateText(d, from, c) + ([ThenWord] + (OperandText(d, a, yes) +
        ([ElseWord] + (OperandText(d, a + |OperandBinds(d, yes)|, no) + [EndWord])))))
    case Arith(l, sign, r) =>
      [Open] + (OperandText(d, from, l) + ([PlusMinus(sign)] + (OperandText(d, from + |OperandBinds(d, l)|, r) + [Close])))
  }

  function PredicateText(d: Dialect, from: nat, p: Predicate): Sql
    decreases p
  {
    match p
    case Binary(table, name, op, rhs) => [Qualified(table, name), CompareSign(op)] + OperandText(d, from, rhs)
    case IsNull(table, name) => [Qualified(table, name), IsWord, NullWord]
    case AnyOf(table, name, values) => AnyOfText(d, from, table, name, |values|)
    case ContainsText(table, name, _) => [Qualified(table, name), CompareSign(Like), Numbered(from + 1), EscapeBackslash]
    case And(l, r) =>
      [Open] + (PredicateText(d, from, l) + ([AndWord] + (PredicateText(d, from + |Binds(d, l)|, r) + [Close])))
    case Or(l, r) =>
      [Open] + (PredicateText(d, from, l) + ([OrWord] + (PredicateText(d, from + |Binds(d, l)|, r) + [Close])))
    case Not(inner) => [NotWord, Open] + (PredicateText(d, from, inner) + [Close])
  }

  function AnyOfText(d: Dialect, from: nat, table: string, name: string, count: nat): Sql {
    if d.anyArray then [Qualified(table, name), CompareSign(Eq), AnyWord, Open, Numbered(from + 1), Close]
    else if count == 0 then [Number(1), CompareSign(Eq), Number(0)]
    else [Qualified(table, name), InWord, Open] + (ItemsText(from, count) + [Close])
  }

  // ----- The expression the text stands for ---------------------------------------------------------------

  function OperandExpr(d: Dialect, from: nat, o: Operand): Expr
    decreases o
  {
    match o
    case ColumnRef(table, name) => Column(table, name)
    case Value(_) => Param(from + 1)
    case Excluded(name) => New(name)
    case Case(c, yes, no) =>
      var a := from + |Binds(d, c)|;
      Choice(PredicateExpr(d, from, c), OperandExpr(d, a, yes), OperandExpr(d, a + |OperandBinds(d, yes)|, no))
    case Arith(l, sign, r) => Sum(sign, OperandExpr(d, from, l), OperandExpr(d, from + |OperandBinds(d, l)|, r))
  }

  function PredicateExpr(d: Dialect, from: nat, p: Predicate): Expr
    decreases p
  {
    match p
    case Binary(table, name, op, rhs) => Comparison(op, Column(table, name), OperandExpr(d, from, rhs))
    case IsNull(table, name) => NullTest(Column(table, name))
    case AnyOf(table, name, values) =>
      if d.anyArray then AnyElement(Column(table, name), Param(from + 1))
      else if values == [] then Comparison(Eq, Constant(1), Constant(0))
      else Member(Column(table, name), Params(from, |values|))
    case ContainsText(table, name, _) => EscapedLike(Column(table, name), Param(from + 1))
    case And(l, r) => Both(PredicateExpr(d, from, l), PredicateExpr(d, from + |Binds(d, l)|, r))
    case Or(l, r) => Either(PredicateExpr(d, from, l), PredicateExpr(d, from + |Binds(d, l)|, r))
    case Not(inner) => Negation(PredicateExpr(d, from, inner))
  }

  function Params(from: nat, count: nat): seq<Expr> {
    seq(count, i requires 0 <= i < count => Param(from + i + 1))
  }

  // ----- Parsing the pieces --------------------------------------------------------------------------------

  lemma GroupParses(x: Sql, e: Expr, rest: Sql)
    requires ParseOr(x + ([Close] + rest)) == Done(e, [Close] + rest)
    ensures ParsePrimary([Open] + (x + [Close]) + rest) == Done(e, rest)
  {
    var ts := [Open] + (x + [Close]) + rest;
    assert ts[1..] == x + ([Close] + rest);
    assert ([Close] + rest)[1..] == rest;
  }

  lemma CaseParses(c: Sql, ce: Expr, y: Sql, ye: Expr, n: Sql, ne: Expr, rest: Sql)
    requires ParseOr(n + ([EndWord] + rest)) == Done(ne, [EndWord] + rest)
    requires var t := [ElseWord] + (n + [EndWord]) + rest; ParseOr(y + t) == Done(ye, t)
    requires var t := [ThenWord] + (y + ([ElseWord] + (n + [EndWord]))) + rest; ParseOr(c + t) == Done(ce, t)
    ensures ParsePrimary([CaseWord, WhenWord] + (c + ([ThenWord] + (y + ([ElseWord] + (n + [EndWord]))))) + rest)
            == Done(Choice(ce, ye, ne), rest)
  {
    hide ParseOr, ParsePrimary, ParseCase;
    var ts := [CaseWord, WhenWord] + (c + ([ThenWord] + (y + ([ElseWord] + (n + [EndWord]))))) + rest;
    var a := [ThenWord] + (y + ([ElseWord] + (n + [EndWord]))) + rest;
    var b := [ElseWord] + (n + [EndWord]) + rest;
    assert ts[1..][1..] == c + a;
    assert a[1..] == y + b;
    assert b[1..] == n + ([EndWord] + rest);
    assert ([EndWord] + rest)[1..] == rest;
    CaseBody(ts[1..], ce, a, ye, b, ne, [EndWord] + rest);
    CaseHead(ts);
  }

  lemma CaseHead(ts: Sql)
    requires At(ts, CaseWord)
    ensures ParsePrimary(ts) == ParseCase(ts[1..])
  {
  }

  lemma CaseBody(ts: Sql, ce: Expr, a: Sql, ye: Expr, b: Sql, ne: Expr, c: Sql)
    requires At(ts, WhenWord) && At(a, ThenWord) && At(b, ElseWord) && At(c, EndWord)
    requires ParseOr(ts[1..]) == Done(ce, a) && ParseOr(a[1..]) == Done(ye, b) && ParseOr(b[1..]) == Done(ne, c)
    ensures ParseCase(ts) == Done(Choice(ce, ye, ne), c[1..])
  {
    hide ParseOr;
  }

  lemma SumParses(l: Sql, le: Expr, sign: Sign, r: Sql, re: Expr, rest: Sql)
    requires ParsePrimary(r + ([Close] + rest)) == Done(re, [Close] + rest)
    requires var t := [PlusMinus(sign)] + (r + [Close]) + rest; ParsePrimary(l + t) == Done(le, t)
    ensures ParsePrimary([Open] + (l + ([PlusMinus(sign)] + (r + [Close]))) + rest) == Done(Sum(sign, le, re), rest)
  {
    hide ParsePrimary, ParseOr;
    var x := l + ([PlusMinus(sign)] + r);
    var t := [PlusMinus(sign)] + (r + [Close]) + rest;
    assert t[1..] == r + ([Close] + rest);
    assert x + ([Close] + rest) == l + t;
    PrimaryNotNot(l + t, le, t);
    assert SumTail(Sum(sign, le, re), [Close] + rest) == Done(Sum(sign, le, re), [Close] + rest);
    assert SumTail(le, t) == Done(Sum(sign, le, re), [Close] + rest);
    assert ParseSum(l + t) == Done(Sum(sign, le, re), [Close] + rest);
    SumUp(l + t, Sum(sign, le, re), [Close] + rest);
    GroupParses(x, Sum(sign, le, re), rest);
    assert [Open] + (l + ([PlusMinus(sign)] + (r + [Close]))) + rest == [Open] + (x + [Close]) + rest;
  }

  lemma SumUp(ts: Sql, e: Expr, rest: Sql)
    requires ParseSum(ts) == Done(e, rest) && EndsAll(rest) && !At(ts, NotWord)
    ensures ParseOr(ts) == Done(e, rest)
  {
    hide ParseSum, ParseOr;
    assert ComparisonTail(e, rest) == Done(e, rest);
    assert ParseComparison(ts) == Done(e, rest);
    NotUp(ts, e, rest);
  }

  lemma JunctionParses(l: Sql, le: Expr, both: bool, r: Sql, re: Expr, rest: Sql)
    requires ParseNot(r + ([Close] + rest)) == Done(re, [Close] + rest)
    requires var t := [if both then AndWord else OrWord] + (r + [Close]) + rest; ParseNot(l + t) == Done(le, t)
    ensures ParsePrimary([Open] + (l + ([if both then AndWord else OrWord] + (r + [Close]))) + rest)
            == Done(if both then Both(le, re) else Either(le, re), rest)
  {
    hide ParsePrimary, ParseNot, ParseOr;
    var word, e := if both then AndWord else OrWord, if both then Both(le, re) else Either(le, re);
    var x := l + ([word] + r);
    var t := [word] + (r + [Close]) + rest;
    assert t[1..] == r + ([Close] + rest);
    assert x + ([Close] + rest) == l + t;
    JunctionTail(l + t, le, both, r + ([Close] + rest), re, [Close] + rest);
    GroupParses(x, e, rest);
    assert [Open] + (l + ([word] + (r + [Close]))) + rest == [Open] + (x + [Close]) + rest;
  }

  lemma JunctionTail(ts: Sql, le: Expr, both: bool, more: Sql, re: Expr, rest: Sql)
    requires ParseNot(ts) == Done(le, [if both then AndWord else OrWord] + more)
    requires ParseNot(more) == Done(re, rest) && EndsAll(rest)
    ensures ParseOr(ts) == Done(if both then Both(le, re) else Either(le, re), rest)
  {
    hide ParseNot;
    var t := [if both then AndWord else OrWord] + more;
    assert t[1..] == more;
    if both {
      assert AndTail(Both(le, re), rest) == Done(Both(le, re), rest);
      assert AndTail(le, t) == Done(Both(le, re), rest);
      assert ParseAnd(ts) == Done(Both(le, re), rest);
    } else {
      assert AndTail(le, t) == Done(le, t);
      assert ParseAnd(ts) == Done(le, t);
      assert AndTail(re, rest) == Done(re, rest);
      assert ParseAnd(more) == Done(re, rest);
      assert OrTail(Either(le, re), rest) == Done(Either(le, re), rest);
    }
  }

  lemma NegationParses(x: Sql, e: Expr, rest: Sql)
    requires ParseOr(x + ([Close] + rest)) == Done(e, [Close] + rest) && EndsComparison(rest)
    ensures ParseNot([NotWord, Open] + (x + [Close]) + rest) == Done(Negation(e), rest)
  {
    hide ParsePrimary, ParseOr;
    var ts := [NotWord, Open] + (x + [Close]) + rest;
    var inner := [Open] + (x + [Close]) + rest;
    assert ts[1..] == inner;
    GroupParses(x, e, rest);
    PrimaryUp(inner, e, rest);
  }

  /** A column followed by the rest of a comparison. */
  lemma ColumnFirst(table: string, name: string, more: Sql, e: Expr, rest: Sql)
    requires EndsSum(more) && ComparisonTail(Column(table, name), more) == Done(e, rest)
    ensures ParseNot([Qualified(table, name)] + more) == Done(e, rest)
  {
    hide ComparisonTail;
    var ts := [Qualified(table, name)] + more;
    assert ts[1..] == more;
    assert ParsePrimary(ts) == Done(Column(table, name), more);
    assert ParseSum(ts) == Done(Column(table, name), more);
  }

  lemma BinaryParses(table: string, name: string, op: Compare, x: Sql, e: Expr, rest: Sql)
    requires ParsePrimary(x + rest) == Done(e, rest) && EndsComparison(rest)
    ensures ParseNot([Qualified(table, name), CompareSign(op)] + x + rest) == Done(Comparison(op, Column(table, name), e), rest)
  {
    hide ParsePrimary, ParseOr, ParseSum, ParseNot, ComparisonTail;
    var more := [CompareSign(op)] + (x + rest);
    PrimaryNotAny(x + rest);
    PrimaryUp(x + rest, e, rest);
    ComparesTo(Column(table, name), op, x + rest, e, rest);
    ColumnFirst(table, name, more, Comparison(op, Column(table, name), e), rest);
    assert [Qualified(table, name), CompareSign(op)] + x + rest == [Qualified(table, name)] + more;
  }

  lemma ComparesTo(l: Expr, op: Compare, more: Sql, r: Expr, rest: Sql)
    requires more != [] && more[0] != AnyWord && ParseSum(more) == Done(r, rest) && !At(rest, EscapeBackslash)
    ensures ComparisonTail(l, [CompareSign(op)] + more) == Done(Comparison(op, l, r), rest)
  {
    hide ParseSum, ParseOr, ParseItems;
    assert ([CompareSign(op)] + more)[1..] == more && ([CompareSign(op)] + more)[1] == more[0];
  }

  lemma PrimaryNotAny(ts: Sql)
    requires ParsePrimary(ts).Done?
    ensures ts != [] && ts[0] != AnyWord
  {
  }

  lemma ParamPrimary(k: nat, rest: Sql)
    ensures ParsePrimary([Numbered(k)] + rest) == Done(Param(k), rest)
  {
    assert ([Numbered(k)] + rest)[1..] == rest;
  }

  lemma LikeParses(table: string, name: string, k: nat, rest: Sql)
    requires EndsComparison(rest)
    ensures ParseNot([Qualified(table, name), CompareSign(Like), Numbered(k), EscapeBackslash] + rest)
            == Done(EscapedLike(Column(table, name), Param(k)), rest)
  {
    hide ParsePrimary, ParseSum, ParseOr, ParseNot, ParseItems;
    var tail := [EscapeBackslash] + rest;
    var more := [CompareSign(Like)] + ([Numbered(k)] + tail);
    assert more[1..] == [Numbered(k)] + tail && tail[1..] == rest;
    ParamPrimary(k, tail);
    PrimaryUp([Numbered(k)] + tail, Param(k), tail);
    assert ComparisonTail(Column(table, name), more) == Done(EscapedLike(Column(table, name), Param(k)), rest);
    ColumnFirst(table, name, more, EscapedLike(Column(table, name), Param(k)), rest);
    assert [Qualified(table, name), CompareSign(Like), Numbered(k), EscapeBackslash] + rest == [Qualified(table, name)] + more;
  }

  lemma NullTestParses(table: string, name: string, rest: Sql)
    ensures ParseNot([Qualified(table, name), IsWord, NullWord] + rest) == Done(NullTest(Column(table, name)), rest)
  {
    var more := [IsWord, NullWord] + rest;
    assert more[2..] == rest;
    ColumnFirst(table, name, more, NullTest(Column(table, name)), rest);
    assert [Qualified(table, name), IsWord, NullWord] + rest == [Qualified(table, name)] + more;
  }

  lemma ParamParses(k: nat, rest: Sql)
    requires EndsAll(rest)
    ensures ParseOr([Numbered(k)] + rest) == Done(Param(k), rest)
  {
    var ts := [Numbered(k)] + rest;
    ParamPrimary(k, rest);
    PrimaryAll(ts, Param(k), rest);
  }

  lemma AnyParses(table: string, name: string, k: nat, rest: Sql)
    ensures ParseNot([Qualified(table, name), CompareSign(Eq), AnyWord, Open, Numbered(k), Close] + rest)
            == Done(AnyElement(Column(table, name), Param(k)), rest)
  {
    hide ParseOr;
    var more := [CompareSign(Eq), AnyWord, Open] + ([Numbered(k)] + ([Close] + rest));
    assert more[3..] == [Numbered(k)] + ([Close] + rest);
    ParamParses(k, [Close] + rest);
    assert ([Close] + rest)[1..] == rest;
    assert ComparisonTail(Column(table, name), more) == Done(AnyElement(Column(table, name), Param(k)), rest);
    ColumnFirst(table, name, more, AnyElement(Column(table, name), Param(k)), rest);
    assert [Qualified(table, name), CompareSign(Eq), AnyWord, Open, Numbered(k), Close] + rest == [Qualified(table, name)] + more;
  }

  lemma {:induction false} ItemsParse(from: nat, count: nat, rest: Sql)
    requires count > 0
    ensures ParseItems(ItemsText(from, count) + ([Close] + rest)) == Done(Params(from, count), [Close] + rest)
    decreases count
  {
    hide ParseOr, ParseItems;
    var tail := [Close] + rest;
    if count == 1 {
      ParamParses(from + 1, tail);
      assert Params(from, 1) == [Param(from + 1)];
      LastItem([Numbered(from + 1)] + tail, Param(from + 1), tail);
    } else {
      ItemsParse(from + 1, count - 1, rest);
      var more := ItemsText(from + 1, count - 1) + tail;
      var ts := ItemsText(from, count) + tail;
      assert ts == [Numbered(from + 1)] + ([Comma] + more);
      ParamParses(from + 1, [Comma] + more);
      assert ([Comma] + more)[1..] == more;
      assert Params(from, count) == [Param(from + 1)] + Params(from + 1, count - 1);
      MoreItems(ts, Param(from + 1), [Comma] + more, Params(from + 1, count - 1), tail);
    }
  }

  lemma LastItem(ts: Sql, e: Expr, rest: Sql)
    requires ParseOr(ts) == Done(e, rest) && !At(rest, Comma)
    ensures ParseItems(ts) == Done([e], rest)
  {
    hide ParseOr;
  }

  lemma MoreItems(ts: Sql, e: Expr, more: Sql, es: seq<Expr>, rest: Sql)
    requires ParseOr(ts) == Done(e, more) && At(more, Comma) && ParseItems(more[1..]) == Done(es, rest)
    ensures ParseItems(ts) == Done([e] + es, rest)
  {
    hide ParseOr;
  }

  lemma MemberParses(table: string, name: string, from: nat, count: nat, rest: Sql)
    requires count > 0
    ensures ParseNot([Qualified(table, name), InWord, Open] + (ItemsText(from, count) + [Close]) + rest)
            == Done(Member(Column(table, name), Params(from, count)), rest)
  {
    hide ParseItems;
    var more := [InWord, Open] + (ItemsText(from, count) + ([Close] + rest));
    assert more[2..] == ItemsText(from, count) + ([Close] + rest);
    ItemsParse(from, count, rest);
    assert ([Close] + rest)[1..] == rest;
    assert ComparisonTail(Column(table, name), more) == Done(Member(Column(table, name), Params(from, count)), rest);
    ColumnFirst(table, name, more, Member(Column(table, name), Params(from, count)), rest);
    assert [Qualified(table, name), InWord, Open] + (ItemsText(from, count) + [Close]) + rest == [Qualified(table, name)] + more;
  }

  lemma NeverParses(rest: Sql)
    requires EndsComparison(rest)
    ensures ParseNot([Number(1), CompareSign(Eq), Number(0)] + rest) == Done(Comparison(Eq, Constant(1), Constant(0)), rest)
  {
    var ts := [Number(1), CompareSign(Eq), Number(0)] + rest;
    var more := [CompareSign(Eq)] + ([Number(0)] + rest);
    assert ts[1..] == more && more[1..] == [Number(0)] + rest && ([Number(0)] + rest)[1..] == rest;
    assert ParsePrimary([Number(0)] + rest) == Done(Constant(0), rest);
    PrimaryUp([Number(0)] + rest, Constant(0), rest);
    assert ParsePrimary(ts) == Done(Constant(1), more);
    PrimaryUp(ts, Constant(1), more);
    hide ParsePrimary, ParseSum;
    assert ComparisonTail(Constant(1), more) == Done(Comparison(Eq, Constant(1), Constant(0)), rest);
  }

  // ----- The text is read as the expression --------------------------------------------------------------------

  /** An operand is read as one primary, whatever follows it. */
  lemma {:induction false} OperandParses(d: Dialect, from: nat, o: Operand, rest: Sql)
    ensures ParsePrimary(OperandText(d, from, o) + rest) == Done(OperandExpr(d, from, o), rest)
    decreases o, 0
  {
    hide ParsePrimary;
    match o {
      case ColumnRef(table, name) => ColumnPrimary(table, name, rest);
      case Value(_) => ParamPrimary(from + 1, rest);
      case Excluded(name) => ExcludedParses(d, name, rest);
      case Case(c, yes, no) => CaseRead(d, from, c, yes, no, rest);
      case Arith(l, sign, r) => ArithRead(d, from, l, sign, r, rest);
    }
  }

  lemma CaseRead(d: Dialect, from: nat, c: Predicate, yes: Operand, no: Operand, rest: Sql)
    ensures ParsePrimary(OperandText(d, from, Case(c, yes, no)) + rest) == Done(OperandExpr(d, from, Case(c, yes, no)), rest)
    decreases Case(c, yes, no), -1
  {
    hide ParsePrimary, ParseOr, OperandBinds, Binds, PredicateText, PredicateExpr, OperandText, OperandExpr;
    CaseText(d, from, c, yes, no);
    var a := from + |Binds(d, c)|;
    var b := a + |OperandBinds(d, yes)|;
    var y, n := OperandText(d, a, yes), OperandText(d, b, no);
    OperandAll(d, b, no, [EndWord] + rest);
    OperandAll(d, a, yes, [ElseWord] + (n + [EndWord]) + rest);
    PredicateAll(d, from, c, [ThenWord] + (y + ([ElseWord] + (n + [EndWord]))) + rest);
    CaseParses(PredicateText(d, from, c), PredicateExpr(d, from, c), y, OperandExpr(d, a, yes), n, OperandExpr(d, b, no), rest);
  }

  lemma CaseText(d: Dialect, from: nat, c: Predicate, yes: Operand, no: Operand)
    ensures var a := from + |Binds(d, c)|;
            var b := a + |OperandBinds(d, yes)|;
            && OperandText(d, from, Case(c, yes, no)) ==
               [CaseWord, WhenWord] + (PredicateText(d, from, c) + ([ThenWord] + (OperandText(d, a, yes) +
               ([ElseWord] + (OperandText(d, b, no) + [EndWord])))))
            && OperandExpr(d, from, Case(c, yes, no)) ==
               Choice(PredicateExpr(d, from, c), OperandExpr(d, a, yes), OperandExpr(d, b, no))
  {
    hide PredicateText, PredicateExpr, Binds, OperandBinds;
  }

  lemma ArithText(d: Dialect, from: nat, l: Operand, sign: Sign, r: Operand)
    ensures var a := from + |OperandBinds(d, l)|;
            && OperandText(d, from, Arith(l, sign, r)) ==
               [Open] + (OperandText(d, from, l) + ([PlusMinus(sign)] + (OperandText(d, a, r) + [Close])))
            && OperandExpr(d, from, Arith(l, sign, r)) == Sum(sign, OperandExpr(d, from, l), OperandExpr(d, a, r))
  {
    hide PredicateText, PredicateExpr, Binds, OperandBinds;
  }

  lemma ArithRead(d: Dialect, from: nat, l: Operand, sign: Sign, r: Operand, rest: Sql)
    ensures ParsePrimary(OperandText(d, from, Arith(l, sign, r)) + rest) == Done(OperandExpr(d, from, Arith(l, sign, r)), rest)
    decreases Arith(l, sign, r), -1
  {
    hide ParsePrimary, OperandBinds, Binds, OperandText, OperandExpr;
    ArithText(d, from, l, sign, r);
    var a := from + |OperandBinds(d, l)|;
    OperandParses(d, a, r, [Close] + rest);
    OperandParses(d, from, l, [PlusMinus(sign)] + (OperandText(d, a, r) + [Close]) + rest);
    SumParses(OperandText(d, from, l), OperandExpr(d, from, l), sign, OperandText(d, a, r), OperandExpr(d, a, r), rest);
  }

  lemma ColumnPrimary(table: string, name: string, rest: Sql)
    ensures ParsePrimary([Qualified(table, name)] + rest) == Done(Column(table, name), rest)
  {
    assert ([Qualified(table, name)] + rest)[1..] == rest;
  }

  lemma ExcludedParses(d: Dialect, name: string, rest: Sql)
    ensures ParsePrimary(OperandText(d, 0, Excluded(name)) + rest) == Done(New(name), rest)
  {
    if d.onDuplicateKey {
      var ts := [ValuesWord, Open, Ident(name), Close] + rest;
      assert ts[4..] == rest && ts[1] == Open && ts[2] == Ident(name) && ts[3] == Close;
    } else {
      assert ([Incoming(name)] + rest)[1..] == rest;
    }
  }

  lemma OperandAll(d: Dialect, from: nat, o: Operand, rest: Sql)
    requires EndsAll(rest)
    ensures ParseOr(OperandText(d, from, o) + rest) == Done(OperandExpr(d, from, o), rest)
    decreases o, 1
  {
    hide ParseOr, ParsePrimary, OperandText, OperandExpr;
    OperandParses(d, from, o, rest);
    PrimaryAll(OperandText(d, from, o) + rest, OperandExpr(d, from, o), rest);
  }

  lemma PredicateAll(d: Dialect, from: nat, p: Predicate, rest: Sql)
    requires EndsAll(rest)
    ensures ParseOr(PredicateText(d, from, p) + rest) == Done(PredicateExpr(d, from, p), rest)
    decreases p, 1
  {
    hide ParseOr, ParseNot, PredicateText, PredicateExpr;
    PredicateParses(d, from, p, rest);
    NotUp(PredicateText(d, from, p) + rest, PredicateExpr(d, from, p), rest);
  }

  /** A predicate is read as itself before anything that does not extend a comparison. */
  lemma {:induction false} PredicateParses(d: Dialect, from: nat, p: Predicate, rest: Sql)
    requires EndsComparison(rest)
    ensures ParseNot(PredicateText(d, from, p) + rest) == Done(PredicateExpr(d, from, p), rest)
    decreases p, 0
  {
    hide ParseOr, ParsePrimary, ParseNot, OperandText, OperandExpr, OperandBinds, Binds;
    match p {
      case Binary(table, name, op, rhs) =>
        OperandParses(d, from, rhs, rest);
        BinaryParses(table, name, op, OperandText(d, from, rhs), OperandExpr(d, from, rhs), rest);
      case IsNull(table, name) => NullTestParses(table, name, rest);
      case AnyOf(table, name, values) =>
        if d.anyArray {
          AnyParses(table, name, from + 1, rest);
        } else if values == [] {
          NeverParses(rest);
        } else {
          MemberParses(table, name, from, |values|, rest);
        }
      case ContainsText(table, name, _) => LikeParses(table, name, from + 1, rest);
      case And(l, r) => JunctionRead(d, from, l, r, true, rest);
      case Or(l, r) => JunctionRead(d, from, l, r, false, rest);
      case Not(inner) =>
        PredicateAll(d, from, inner, [Close] + rest);
        NegationParses(PredicateText(d, from, inner), PredicateExpr(d, from, inner), rest);
    }
  }

  lemma JunctionRead(d: Dialect, from: nat, l: Predicate, r: Predicate, both: bool, rest: Sql)
    requires EndsComparison(rest)
    ensures var p := if both then And(l, r) else Or(l, r);
            ParseNot(PredicateText(d, from, p) + rest) == Done(PredicateExpr(d, from, p), rest)
    decreases if both then And(l, r) else Or(l, r), -1
  {
    hide ParseOr, ParsePrimary, ParseNot, PredicateText, PredicateExpr, Binds;
    JunctionText(d, from, l, r);
    var a := from + |Binds(d, l)|;
    var x, y, xe, ye := PredicateText(d, from, l), PredicateText(d, a, r), PredicateExpr(d, from, l), PredicateExpr(d, a, r);
    PredicateParses(d, a, r, [Close] + rest);
    PredicateParses(d, from, l, [if both then AndWord else OrWord] + (y + [Close]) + rest);
    JunctionParses(x, xe, both, y, ye, rest);
    var ts, e := [Open] + (x + ([if both then AndWord else OrWord] + (y + [Close]))) + rest, if both then Both(xe, ye) else Either(xe, ye);
    PrimaryNotNot(ts, e, rest);
    PrimaryUp(ts, e, rest);
  }

  lemma JunctionText(d: Dialect, from: nat, l: Predicate, r: Predicate)
    ensures var a := from + |Binds(d, l)|;
            var x, y, xe, ye := PredicateText(d, from, l), PredicateText(d, a, r), PredicateExpr(d, from, l), PredicateExpr(d, a, r);
            && PredicateText(d, from, And(l, r)) == [Open] + (x + ([AndWord] + (y + [Close])))
            && PredicateText(d, from, Or(l, r)) == [Open] + (x + ([OrWord] + (y + [Close])))
            && PredicateExpr(d, from, And(l, r)) == Both(xe, ye) && PredicateExpr(d, from, Or(l, r)) == Either(xe, ye)
  {
    hide Binds, OperandText, OperandExpr, AnyOfText, Params;
  }

  // ----- The expression means what the tree means ----------------------------------------------------------------

  /** The binds of a part, in place. */
  ghost predicate Placed(binds: seq<Datum>, from: nat, part: seq<Datum>) {
    from + |part| <= |binds| && binds[from..from + |part|] == part
  }

  lemma PlacedParts(binds: seq<Datum>, from: nat, a: seq<Datum>, b: seq<Datum>)
    requires Placed(binds, from, a + b)
    ensures Placed(binds, from, a) && Placed(binds, from + |a|, b)
  {
    assert binds[from..from + |a|] == (a + b)[..|a|];
    assert binds[from + |a|..from + |a| + |b|] == (a + b)[|a|..];
  }

  lemma {:induction false} OperandEval(d: Dialect, from: nat, o: Operand, env: Env, binds: seq<Datum>)
    requires Placed(binds, from, OperandBinds(d, o)) && Sane(env.sem)
    ensures Eval(OperandExpr(d, from, o), env, binds) == OperandMeaning(o, env)
    decreases o, 0
  {
    hide Placed, Sane, Eval;
    match o {
      case ColumnRef(table, name) => EvalLeaves(table, name, 0, 0, env, binds);
      case Excluded(name) => EvalLeaves("", name, 0, 0, env, binds);
      case Value(v) =>
        PlacedAt(binds, from, [v], 0);
        EvalLeaves("", "", from + 1, 0, env, binds);
      case Case(c, yes, no) => CaseEval(d, from, c, yes, no, env, binds);
      case Arith(l, sign, r) =>
        PlacedParts(binds, from, OperandBinds(d, l), OperandBinds(d, r));
        OperandEval(d, from, l, env, binds);
        OperandEval(d, from + |OperandBinds(d, l)|, r, env, binds);
        EvalOperators(Eq, sign, OperandExpr(d, from, l), OperandExpr(d, from + |OperandBinds(d, l)|, r), env, binds);
    }
  }

  lemma CaseEval(d: Dialect, from: nat, c: Predicate, yes: Operand, no: Operand, env: Env, binds: seq<Datum>)
    requires Placed(binds, from, OperandBinds(d, Case(c, yes, no))) && Sane(env.sem)
    ensures Eval(OperandExpr(d, from, Case(c, yes, no)), env, binds) == OperandMeaning(Case(c, yes, no), env)
    decreases Case(c, yes, no), -1
  {
    hide Placed, Sane, Eval, Binds, Meaning, PredicateExpr;
    var a := from + |Binds(d, c)|;
    PlacedParts(binds, from, Binds(d, c) + OperandBinds(d, yes), OperandBinds(d, no));
    PlacedParts(binds, from, Binds(d, c), OperandBinds(d, yes));
    PredicateEval(d, from, c, env, binds);
    OperandEval(d, a, yes, env, binds);
    OperandEval(d, a + |OperandBinds(d, yes)|, no, env, binds);
    EvalChoice(PredicateExpr(d, from, c), OperandExpr(d, a, yes), OperandExpr(d, a + |OperandBinds(d, yes)|, no), env, binds);
  }

  lemma PlacedAt(binds: seq<Datum>, from: nat, part: seq<Datum>, i: nat)
    requires Placed(binds, from, part) && i < |part|
    ensures from + i < |binds| && binds[from + i] == part[i]
  {
    assert binds[from..from + |part|][i] == part[i];
  }

  lemma {:induction false} MembersEval(from: nat, values: seq<Datum>, env: Env, binds: seq<Datum>)
    requires Placed(binds, from, values)
    ensures EvalAll(Params(from, |values|), env, binds) == values
    decreases |values|
  {
    if values != [] {
      PlacedAt(binds, from, values, 0);
      assert values == [values[0]] + values[1..];
      PlacedParts(binds, from, [values[0]], values[1..]);
      MembersEval(from + 1, values[1..], env, binds);
      var items := Params(from, |values|);
      assert items[1..] == Params(from + 1, |values| - 1);
    }
  }

  lemma AnyOfEval(d: Dialect, from: nat, table: string, name: string, values: seq<Datum>, env: Env, binds: seq<Datum>)
    requires Placed(binds, from, Binds(d, AnyOf(table, name, values))) && Sane(env.sem)
    ensures Eval(PredicateExpr(d, from, AnyOf(table, name, values)), env, binds)
            == AsDatum(InList(env.sem, env.stored(table, name), values))
  {
    hide Placed, EqualsAny;
    if d.anyArray {
      PlacedAt(binds, from, [Array(values)], 0);
      AnyIsIn(env.sem, env.stored(table, name), values);
    } else if values != [] {
      MembersEval(from, values, env, binds);
    }
  }

  lemma ContainsEval(d: Dialect, from: nat, table: string, name: string, needle: string, env: Env, binds: seq<Datum>)
    requires Placed(binds, from, [Text(L.Pattern(needle))])
    ensures Eval(EscapedLike(Column(table, name), Param(from + 1)), env, binds)
            == AsDatum(Meaning(ContainsText(table, name, needle), env))
  {
    hide Placed, L.Pattern, L.Like;
    PlacedAt(binds, from, [Text(L.Pattern(needle))], 0);
    var subject := env.stored(table, name);
    if subject.Text? {
      L.ContainsFilterIff(needle, subject.s);
    }
  }

  lemma {:induction false} PredicateEval(d: Dialect, from: nat, p: Predicate, env: Env, binds: seq<Datum>)
    requires Placed(binds, from, Binds(d, p)) && Sane(env.sem)
    ensures Eval(PredicateExpr(d, from, p), env, binds) == AsDatum(Meaning(p, env))
    decreases p, 0
  {
    hide Placed, Sane, Eval, OperandExpr, OperandMeaning, OperandBinds, InList, Compare3;
    match p {
      case Binary(table, name, op, rhs) =>
        OperandEval(d, from, rhs, env, binds);
        EvalLeaves(table, name, 0, 0, env, binds);
        EvalOperators(op, Plus, Column(table, name), OperandExpr(d, from, rhs), env, binds);
      case IsNull(table, name) =>
        EvalLeaves(table, name, 0, 0, env, binds);
        EvalUnary(Column(table, name), env, binds);
      case AnyOf(table, name, values) => AnyOfEval(d, from, table, name, values, env, binds);
      case ContainsText(table, name, needle) => ContainsEval(d, from, table, name, needle, env, binds);
      case And(l, r) => JunctionEval(d, from, l, r, true, env, binds);
      case Or(l, r) => JunctionEval(d, from, l, r, false, env, binds);
      case Not(inner) =>
        PredicateEval(d, from, inner, env, binds);
        EvalUnary(PredicateExpr(d, from, inner), env, binds);
    }
  }

  lemma JunctionEval(d: Dialect, from: nat, l: Predicate, r: Predicate, both: bool, env: Env, binds: seq<Datum>)
    requires Placed(binds, from, Binds(d, l) + Binds(d, r)) && Sane(env.sem)
    ensures Eval(PredicateExpr(d, from, And(l, r)), env, binds) == AsDatum(AndT(Meaning(l, env), Meaning(r, env)))
    ensures Eval(PredicateExpr(d, from, Or(l, r)), env, binds) == AsDatum(OrT(Meaning(l, env), Meaning(r, env)))
    decreases if both then And(l, r) else Or(l, r), -1
  {
    hide Placed, Sane, Eval, Binds, Meaning;
    var a := from + |Binds(d, l)|;
    PlacedParts(binds, from, Binds(d, l), Binds(d, r));
    PredicateEval(d, from, l, env, binds);
    PredicateEval(d, a, r, env, binds);
    EvalBoth(PredicateExpr(d, from, l), PredicateExpr(d, a, r), env, binds);
    EvalEither(PredicateExpr(d, from, l), PredicateExpr(d, a, r), env, binds);
  }
}
