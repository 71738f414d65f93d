/**
 * Dollar-quoting the body of a role's `do` block (crates/orm-cli/src/diff.rs, `dollar_tag`,
 * `create_role_sql`).
 */
module DollarQuote {
  import opened Wrappers
  import opened Text
  import opened SchemaModel

  function Tag(n: nat): string { "$role" + seq(n, _ => '_') + "$" }

  /** The shortest tag of the family that does not occur in the body. */
  method DollarTag(body: string) returns (tag: string, ghost n: nat)
    ensures tag == Tag(n) && !Contains(body, tag)
    ensures forall m: nat :: m < n ==> Contains(body, Tag(m))
  {
    tag := "$role$";
    n := 0;
    assert tag == Tag(0);
    while Contains(body, tag)
      invariant tag == Tag(n)
      invariant forall m: nat :: m < n ==> Contains(body, Tag(m))
      decreases |body| - |tag|
    {
      ghost var at :| 0 <= at <= |body| && OccursAt(body, tag, at);
      var last := |tag| - 1;
      tag := tag[..last] + ['_'] + tag[last..];
      n := n + 1;
    }
  }

  /** Where a dollar-quoted text ends: at the first closing tag. */
  ghost predicate ReadsBack(body: string, tag: string) {
    forall at: nat :: OccursAt(body + tag, tag, at) ==> at == |body|
  }

  /** Between its two dollars a tag has neither a dollar nor a newline. */
  lemma TagInside(n: nat, q: nat)
    requires 0 < q < |Tag(n)| - 1
    ensures Tag(n)[q] != '$' && Tag(n)[q] != '\n'
  {
    assert Tag(n)[q] == if q < 5 then "$role"[q] else '_';
  }

  /**
   * A body free of its tag is read back whole unless it ends in the tag without its last dollar,
   * in which case the closing tag completes an earlier one.
   */
  lemma ReadsBackIff(body: string, n: nat)
    requires !Contains(body, Tag(n))
    ensures var opening := Tag(n)[..|Tag(n)| - 1];
            ReadsBack(body, Tag(n)) <==> !(|opening| <= |body| && body[|body| - |opening|..] == opening)
  {
    var tag := Tag(n);
    var text, opening := body + tag, tag[..|tag| - 1];
    if |opening| <= |body| && body[|body| - |opening|..] == opening {
      var at := |body| - |opening|;
      assert text[at..at + |tag|] == opening + ['$'];
      assert OccursAt(text, tag, at) && at != |body|;
    }
    forall at: nat | OccursAt(text, tag, at) && at != |body|
      ensures |opening| <= |body| && body[|body| - |opening|..] == opening
    {
      if at + |tag| <= |body| {
        assert body[at..at + |tag|] == text[at..at + |tag|];
        assert OccursAt(body, tag, at);
        assert false;
      }
      var q := |body| - at;
      Overlap(body, tag, at);
      if q < |tag| - 1 {
        TagInside(n, q);
        assert false;
      }
    }
  }

  /** A second occurrence that reaches into the closing tag starts with the end of the body and goes on with a dollar. */
  lemma Overlap(body: string, tag: string, at: nat)
    requires OccursAt(body + tag, tag, at) && at < |body| < at + |tag|
    ensures var q := |body| - at;
            tag[q] == tag[0] && body[at..] == tag[..q]
  {
    var text, q := body + tag, |body| - at;
    assert text[at..at + |tag|][..q] == text[at..at + q];
    assert text[at..at + |tag|][q] == text[at + q] == tag[0];
    assert text[at..at + q] == body[at..];
  }

  // ----- The bodies that are quoted --------------------------------------------------------------------

  /** A name or literal with its quote character doubled inside. */
  function Doubled(s: string, quote: char): string {
    if s == [] then "" else (if s[0] == quote then [quote, quote] else [s[0]]) + Doubled(s[1..], quote)
  }

  function Quote(name: string): string { "\"" + Doubled(name, '"') + "\"" }

  function QuoteLiteral(value: string): string { "'" + Doubled(value, '\'') + "'" }

  /** `create role`, with only the attributes the role has. */
  function CreateRole(role: Role): string {
    "create role " + Quote(role.name)
    + (if role.login then " login" else "")
    + (if role.createdb then " createdb" else "")
    + (if role.createrole then " createrole" else "")
    + (if role.bypassrls then " bypassrls" else "")
  }

  /** Reads a quoted name up to its closing quote, a doubled one standing for one. */
  function ReadQuoted(s: string, quote: char): Option<(string, string)> {
    if s == [] then None
    else if s[0] != quote then
      var more := ReadQuoted(s[1..], quote);
      if more.None? then None else Some(([s[0]] + more.value.0, more.value.1))
    else if |s| > 1 && s[1] == quote then
      var more := ReadQuoted(s[2..], quote);
      if more.None? then None else Some(([quote] + more.value.0, more.value.1))
    else Some(("", s[1..]))
  }

  lemma {:induction false} QuotedReads(name: string, quote: char, rest: string)
    requires rest == "" || rest[0] != quote
    ensures ReadQuoted(Doubled(name, quote) + ([quote] + rest), quote) == Some((name, rest))
  {
    var ts := Doubled(name, quote) + ([quote] + rest);
    if name == "" {
      assert ts == [quote] + rest;
    } else {
      QuotedReads(name[1..], quote, rest);
      var more := Doubled(name[1..], quote) + ([quote] + rest);
      assert name == [name[0]] + name[1..];
      if name[0] == quote {
        assert ts[2..] == more && ts[1] == quote;
      } else {
        assert ts[1..] == more;
      }
    }
  }

  /** The words of a role's attributes, separated by spaces. */
  function Words(s: string): seq<string>
    requires s == "" || s[0] == ' '
    decreases |s|
  {
    if s == "" then [] else
      var n := WordEnd(s[1..]);
      [s[1..][..n]] + Words(s[1..][n..])
  }

  function WordEnd(s: string): (n: nat)
    ensures n <= |s| && (n < |s| ==> s[n] == ' ') && ' ' !in s[..n]
  {
    if s == "" || s[0] == ' ' then 0
    else
      var n := WordEnd(s[1..]) + 1;
      assert s[..n] == [s[0]] + s[1..][..n - 1];
      n
  }

  lemma {:induction false} WordEnds(word: string, rest: string)
    requires ' ' !in word && (rest == "" || rest[0] == ' ')
    ensures WordEnd(word + rest) == |word|
  {
    if word == "" {
      assert word + rest == rest;
    } else {
      assert (word + rest)[1..] == word[1..] + rest;
      WordEnds(word[1..], rest);
    }
  }

  lemma WordReads(word: string, rest: string)
    requires ' ' !in word && (rest == "" || rest[0] == ' ')
    ensures Words(" " + word + rest) == [word] + Words(rest)
  {
    hide WordEnd;
    var s := " " + word + rest;
    WordEnds(word, rest);
    assert s[1..] == word + rest;
    assert (word + rest)[..|word|] == word && (word + rest)[|word|..] == rest;
  }

  function Flag(b: bool, word: string): seq<string> { if b then [word] else [] }

  lemma FlagReads(b: bool, word: string, rest: string)
    requires ' ' !in word && (rest == "" || rest[0] == ' ')
    ensures var s := (if b then " " + word else "") + rest;
            (s == "" || s[0] == ' ') && Words(s) == Flag(b, word) + Words(rest)
  {
    hide Words;
    if b {
      WordReads(word, rest);
      assert " " + word + rest == (" " + word) + rest;
    } else {
      assert "" + rest == rest;
    }
  }

  function Optionally(b: bool, text: string): string { if b then text else "" }

  function Attributes(role: Role): string {
    Optionally(role.login, " login") + (Optionally(role.createdb, " createdb") +
      (Optionally(role.createrole, " createrole") + (Optionally(role.bypassrls, " bypassrls") + "")))
  }

  lemma CreateRoleParts(role: Role)
    ensures CreateRole(role) ==
            "create role " + ("\"" + Doubled(role.name, '"') + "\"")
            + Optionally(role.login, " login") + Optionally(role.createdb, " createdb")
            + Optionally(role.createrole, " createrole") + Optionally(role.bypassrls, " bypassrls")
  {
    hide Doubled;
  }

  lemma CreateRoleText(role: Role)
    ensures CreateRole(role) == "create role \"" + (Doubled(role.name, '"') + (['"'] + Attributes(role)))
  {
    assert Attributes(role) ==
           Optionally(role.login, " login") + (Optionally(role.createdb, " createdb") +
             (Optionally(role.createrole, " createrole") + (Optionally(role.bypassrls, " bypassrls") + "")));
    hide Doubled, Optionally;
    var name := Doubled(role.name, '"');
    var a, b, c, d := Optionally(role.login, " login"), Optionally(role.createdb, " createdb"),
                      Optionally(role.createrole, " createrole"), Optionally(role.bypassrls, " bypassrls");
    CreateRoleParts(role);
    hide CreateRole, Attributes;
    assert "create role " + ("\"" + name + "\"") == "create role \"" + (name + ['"']);
    Regrouped("create role \"", name, ['"'], a, b, c, d);
  }

  lemma Regrouped(head: string, name: string, quote: string, a: string, b: string, c: string, d: string)
    ensures head + (name + quote) + a + b + c + d == head + (name + (quote + (a + (b + (c + (d + ""))))))
  {
  }

  lemma AttributeWords(role: Role)
    ensures Attributes(role) == "" || Attributes(role)[0] == ' '
    ensures Words(Attributes(role)) == Flag(role.login, "login") + Flag(role.createdb, "createdb") +
                                       Flag(role.createrole, "createrole") + Flag(role.bypassrls, "bypassrls")
  {
    hide Words, Flag;
    NoWords();
    var d := Optionally(role.bypassrls, " bypassrls") + "";
    var c := Optionally(role.createrole, " createrole") + d;
    var b := Optionally(role.createdb, " createdb") + c;
    assert " " + "bypassrls" == " bypassrls" && " " + "createrole" == " createrole";
    assert " " + "createdb" == " createdb" && " " + "login" == " login";
    FlagReads(role.bypassrls, "bypassrls", "");
    FlagReads(role.createrole, "createrole", d);
    FlagReads(role.createdb, "createdb", c);
    FlagReads(role.login, "login", b);
  }

  /** A database reads the statement as creating that role with exactly the attributes it has. */
  lemma CreateRoleReads(role: Role)
    ensures var head, s := "create role \"", CreateRole(role);
            && |s| >= |head| && s[..|head|] == head
            && var named := ReadQuoted(s[|head|..], '"');
               && named.Some? && named.value.0 == role.name
               && (named.value.1 == "" || named.value.1[0] == ' ')
               && Words(named.value.1) == Flag(role.login, "login") + Flag(role.createdb, "createdb") +
                                          Flag(role.createrole, "createrole") + Flag(role.bypassrls, "bypassrls")
  {
    hide Words, Doubled, ReadQuoted, Attributes, CreateRole, Flag;
    CreateRoleText(role);
    AttributeWords(role);
    var head := "create role \"";
    assert CreateRole(role)[|head|..] == Doubled(role.name, '"') + (['"'] + Attributes(role));
    QuotedReads(role.name, '"', Attributes(role));
  }

  lemma NoWords()
    ensures Words("") == []
  {
  }

  /** The block that creates the role unless it exists. */
  function RoleBody(role: Role): string { RoleStatements(role) + "end\n" }

  /** What is written around the role's name and its creation. */
  function Asks(): string { "\nbegin\n    if exists (select from pg_roles where rolname = " }

  function Tells(): string { ")" + " then\n        raise notice 'role % already exists, keeping its attributes', " }

  function Otherwise(): string { ";" + "\n    else\n        " }

  function Done(): string { ";\n    end if;\n" }

  function Denied(): string {
    "exception when insufficient_privilege then\n    "
    + "raise exception 'role % does not exist and this role may not create it (%): create it first', "
  }

  /** Nothing is done if the role is there. */
  function Unless(name: string): string { Asks() + name + Tells() + name + Otherwise() }

  /** If it may not be created, the error says so. */
  function OrElse(name: string): string { Done() + Denied() + name + ", sqlerrm;\n" }

  function RoleStatements(role: Role): string {
    Unless(QuoteLiteral(role.name)) + CreateRole(role) + OrElse(QuoteLiteral(role.name))
  }

  /** The block as a statement, quoted with a tag. */
  function Block(role: Role, tag: string): string { "do " + tag + RoleBody(role) + tag + ";" }

  /** The text starts with the head and then a literal that a database reads as that value. */
  ghost predicate StartsWith(s: string, head: string, value: string, tail: string) {
    && head + "'" <= s
    && ReadQuoted(s[|head| + 1..], '\'') == Some((value, tail))
  }

  lemma LiteralReads(head: string, value: string, tail: string)
    requires tail != "" && tail[0] != '\''
    ensures StartsWith(head + QuoteLiteral(value) + tail, head, value, tail)
  {
    hide ReadQuoted, Doubled;
    var s := head + QuoteLiteral(value) + tail;
    QuotedReads(value, '\'', tail);
    assert s == head + "'" + (Doubled(value, '\'') + (['\''] + tail));
    assert s[|head| + 1..] == Doubled(value, '\'') + (['\''] + tail);
  }

  /** The block asks for a role of that name, tells of it if there is one, and creates this role otherwise. */
  lemma BodyCreates(role: Role) returns (told: string, created: string)
    ensures StartsWith(RoleBody(role), Asks(), role.name, told) && StartsWith(told, Tells(), role.name, created)
    ensures Otherwise() + CreateRole(role) + Done() <= created
  {
    hide CreateRole, QuoteLiteral, StartsWith, Asks, Tells, Otherwise, Done, Denied;
    var name := QuoteLiteral(role.name);
    var rest := Denied() + name + ", sqlerrm;\n" + "end\n";
    created := Otherwise() + CreateRole(role) + Done() + rest;
    told := Tells() + name + created;
    FirstCharacters();
    assert told[0] == Tells()[0] && created[0] == Otherwise()[0];
    LiteralReads(Tells(), role.name, created);
    LiteralReads(Asks(), role.name, told);
    assert RoleBody(role) == Asks() + name + told;
  }

  lemma FirstCharacters()
    ensures Tells() != "" && Tells()[0] != '\'' && Otherwise() != "" && Otherwise()[0] != '\''
  {
    var tells, otherwise := Tells(), Otherwise();
    assert |tells| > 0 && tells[0] == ')';
    assert |otherwise| > 0 && otherwise[0] == ';';
  }

  lemma BodyEnds(role: Role)
    ensures RoleBody(role) != [] && RoleBody(role)[|RoleBody(role)| - 1] == '\n'
  {
    hide RoleStatements;
  }

  lemma NewlineReadsBack(body: string, n: nat)
    requires !Contains(body, Tag(n)) && body != [] && body[|body| - 1] == '\n'
    ensures ReadsBack(body, Tag(n))
  {
    ReadsBackIff(body, n);
    var opening := Tag(n)[..|Tag(n)| - 1];
    TagInside(n, |opening| - 1);
    assert opening[|opening| - 1] != '\n';
    assert |opening| <= |body| ==> body[|body| - |opening|..][|opening| - 1] == '\n';
  }

  /** Every role's block, whatever its name, is read back whole under the tag chosen for it. */
  method QuoteRole(role: Role) returns (sql: string)
    ensures exists n :: sql == Block(role, Tag(n)) && ReadsBack(RoleBody(role), Tag(n))
  {
    hide RoleBody, ReadsBack, Contains;
    var body := RoleBody(role);
    var tag;
    ghost var n;
    tag, n := DollarTag(body);
    BodyEnds(role);
    NewlineReadsBack(body, n);
    sql := "do " + tag + body + tag + ";";
    assert sql == Block(role, Tag(n));
  }
}
