/**
 * Literal-substring filters (crates/orm/src/expr.rs, `contains`, `escape_like`): the bound pattern
 * means "contains this text" under LIKE with escape `\` (section 8.5 of SQL-92).
 */
module LikeEscape {
  import opened Wrappers
  import opened Text

  predicate Special(c: char) { c == '\\' || c == '%' || c == '_' }

  function Escaped(s: string): string {
    if s == [] then []
    else Escaped(s[..|s| - 1]) + (if Special(s[|s| - 1]) then ['\\', s[|s| - 1]] else [s[|s| - 1]])
  }

  method EscapeLike(input: string) returns (out: string)
    ensures out == Escaped(input)
  {
    out := "";
    for i := 0 to |input|
      invariant out == Escaped(input[..i])
    {
      assert input[..i + 1][..i] == input[..i];
      if Special(input[i]) {
        out := out + ['\\'];
      }
      out := out + [input[i]];
    }
    assert input[..|input|] == input;
  }

  function Pattern(needle: string): string {
    "%" + Escaped(needle) + "%"
  }

  // ----- LIKE ---------------------------------------------------------------------------------------

  datatype Token = AnyString | AnyCharacter | Exactly(c: char)

  /** A pattern's elements; an escape that escapes nothing special is an error. */
  function Tokens(p: string): Option<seq<Token>> {
    if p == [] then Some([])
    else if p[0] == '\\' then
      if |p| < 2 || !Special(p[1]) then None
      else match Tokens(p[2..]) case None => None case Some(ts) => Some([Exactly(p[1])] + ts)
    else
      var t := if p[0] == '%' then AnyString else if p[0] == '_' then AnyCharacter else Exactly(p[0]);
      match Tokens(p[1..]) case None => None case Some(ts) => Some([t] + ts)
  }

  predicate Matches(ts: seq<Token>, s: string)
    decreases |ts|, |s|
  {
    if ts == [] then s == []
    else match ts[0]
      case AnyString => Matches(ts[1..], s) || (s != [] && Matches(ts, s[1..]))
      case AnyCharacter => s != [] && Matches(ts[1..], s[1..])
      case Exactly(c) => s != [] && s[0] == c && Matches(ts[1..], s[1..])
  }

  /** `s like p escape '\'`; `None` when the pattern is malformed. */
  function Like(s: string, p: string): Option<bool> {
    match Tokens(p) case None => None case Some(ts) => Some(Matches(ts, s))
  }

  function Literal(s: string): seq<Token> {
    seq(|s|, i requires 0 <= i < |s| => Exactly(s[i]))
  }

  lemma LiteralCons(c: char, s: string)
    ensures Literal([c] + s) == [Exactly(c)] + Literal(s)
  {
  }

  /** Escaping one character at the front. */
  lemma {:induction false} EscapedCons(s: string)
    requires s != []
    ensures Escaped(s) == (if Special(s[0]) then ['\\', s[0]] else [s[0]]) + Escaped(s[1..])
  {
    var n := |s| - 1;
    if n > 0 {
      EscapedCons(s[..n]);
      assert s[..n][1..] == s[1..][..n - 1];
    }
  }

  /** Escaped text reads back as its own characters, whatever follows. */
  lemma {:induction false} EscapedIsLiteral(s: string, rest: string)
    ensures Tokens(rest).Some? ==> Tokens(Escaped(s) + rest) == Some(Literal(s) + Tokens(rest).value)
  {
    hide Escaped, Tokens, Literal;
    if Tokens(rest).Some? {
      if s == [] {
        NothingEscaped();
        assert Escaped(s) + rest == rest && Literal(s) + Tokens(rest).value == Tokens(rest).value;
      } else {
        EscapedIsLiteral(s[1..], rest);
        EscapedCons(s);
        var tail := Escaped(s[1..]) + rest;
        assert Escaped(s) + rest == (if Special(s[0]) then ['\\', s[0]] else [s[0]]) + tail;
        if Special(s[0]) {
          SpecialReads(s[0], tail);
        } else {
          OrdinaryReads(s[0], tail);
        }
        assert s == [s[0]] + s[1..];
        LiteralCons(s[0], s[1..]);
        assert [Exactly(s[0])] + (Literal(s[1..]) + Tokens(rest).value) == Literal(s) + Tokens(rest).value;
      }
    }
  }

  lemma NothingEscaped()
    ensures Escaped("") == "" && Literal("") == []
  {
  }

  /** An escaped special character is read as itself. */
  lemma SpecialReads(c: char, tail: string)
    requires Special(c) && Tokens(tail).Some?
    ensures Tokens(['\\', c] + tail) == Some([Exactly(c)] + Tokens(tail).value)
  {
    assert (['\\', c] + tail)[2..] == tail;
  }

  /** So is any other character, unescaped. */
  lemma OrdinaryReads(c: char, tail: string)
    requires !Special(c) && Tokens(tail).Some?
    ensures Tokens([c] + tail) == Some([Exactly(c)] + Tokens(tail).value)
  {
    assert ([c] + tail)[1..] == tail;
  }

  lemma PatternTokens(needle: string)
    ensures Tokens(Pattern(needle)) == Some([AnyString] + (Literal(needle) + [AnyString]))
  {
    hide Escaped, Literal;
    EscapedIsLiteral(needle, "%");
    assert Tokens("%") == Some([AnyString]) by {
      assert "%"[1..] == "" && [AnyString] + [] == [AnyString];
    }
    assert Pattern(needle)[0] == '%' && Pattern(needle)[1..] == Escaped(needle) + "%";
  }

  lemma {:induction false} AnythingMatches(s: string)
    ensures Matches([AnyString], s)
  {
    if s != [] {
      AnythingMatches(s[1..]);
    }
  }

  lemma {:induction false} PrefixMatchesIff(part: string, s: string)
    ensures Matches(Literal(part) + [AnyString], s) <==> part <= s
  {
    if part == [] {
      assert Literal(part) + [AnyString] == [AnyString];
      AnythingMatches(s);
    } else if s != [] {
      PrefixMatchesIff(part[1..], s[1..]);
      assert part == [part[0]] + part[1..] && s == [s[0]] + s[1..];
      LiteralCons(part[0], part[1..]);
      assert (Literal(part) + [AnyString])[1..] == Literal(part[1..]) + [AnyString];
    }
  }

  lemma {:induction false} ContainsMatchesIff(needle: string, s: string)
    ensures Matches([AnyString] + (Literal(needle) + [AnyString]), s) <==> Contains(s, needle)
  {
    hide Contains, Literal;
    var ts := Literal(needle) + [AnyString];
    assert ([AnyString] + ts)[1..] == ts;
    PrefixMatchesIff(needle, s);
    if s == [] {
      EmptyContains(needle);
    } else {
      ContainsMatchesIff(needle, s[1..]);
      ContainsStep(s, needle);
    }
  }

  lemma EmptyContains(part: string)
    ensures Contains([], part) <==> part <= []
  {
    assert part == [] ==> OccursAt([], part, 0);
  }

  /** For every needle and subject, the filter holds iff the needle is a literal substring. */
  lemma ContainsFilterIff(needle: string, subject: string)
    ensures Like(subject, Pattern(needle)) == Some(Contains(subject, needle))
  {
    hide Contains, Matches, Tokens;
    PatternTokens(needle);
    ContainsMatchesIff(needle, subject);
  }
}
