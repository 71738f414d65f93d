/**
 * The composite text codec (crates/orm/src/composite.rs): `(a,b,c)` with quoting, NULL as an empty
 * unquoted field, and the parser that undoes it.
 */
module Composite {
  import opened Wrappers
  import opened Decimal

  predicate Delimiter(c: char) { c == ',' || c == '(' || c == ')' || c == '"' || c == '\\' }

  predicate IsPlain(s: string) {
    s != [] && forall i :: 0 <= i < |s| ==> !Delimiter(s[i])
  }

  /** Text the standard library prints for floats and UUIDs: written unquoted. */
  type PlainText = s: string | IsPlain(s) witness "0"

  datatype Width = W16 | W32 | W64

  function Limit(w: Width): nat {
    match w case W16 => 0x8000 case W32 => 0x8000_0000 case W64 => 0x8000_0000_0000_0000
  }

  predicate InRange(w: Width, n: int) { -(Limit(w) as int) <= n < Limit(w) }

  datatype Value =
    | Null
    | Bool(b: bool)
    | Int(width: Width, n: int)
    | Plain(text: PlainText)
    | Text(s: string)
    | Other(rendered: string)

  /** What a field says: nothing for NULL, its text otherwise. */
  function FieldText(v: Value): Option<string> {
    match v
    case Null => None
    case Bool(b) => Some(if b then "t" else "f")
    case Int(_, n) => Some(Integer(n))
    case Plain(t) => Some(t)
    case Text(s) => Some(s)
    case Other(s) => Some(s)
  }

  // ----- Encoding -----------------------------------------------------------------------------------

  predicate NeedsQuote(white: char -> bool, s: string) {
    s == [] || exists i :: 0 <= i < |s| && (Delimiter(s[i]) || white(s[i]))
  }

  function Doubled(s: string): string {
    if s == [] then []
    else Doubled(s[..|s| - 1]) +
         (if s[|s| - 1] == '"' || s[|s| - 1] == '\\' then [s[|s| - 1], s[|s| - 1]] else [s[|s| - 1]])
  }

  function TextLiteral(white: char -> bool, s: string): string {
    if NeedsQuote(white, s) then "\"" + Doubled(s) + "\"" else s
  }

  function FieldLiteral(white: char -> bool, v: Value): string {
    match v
    case Null => ""
    case Text(s) => TextLiteral(white, s)
    case Other(s) => TextLiteral(white, s)
    case _ => FieldText(v).value
  }

  function Fields(white: char -> bool, vs: seq<Value>): string {
    if vs == [] then ""
    else if |vs| == 1 then FieldLiteral(white, vs[0])
    else Fields(white, vs[..|vs| - 1]) + "," + FieldLiteral(white, vs[|vs| - 1])
  }

  function Encoded(white: char -> bool, vs: seq<Value>): string {
    "(" + Fields(white, vs) + ")"
  }

  method EncodeText(white: char -> bool, before: string, s: string) returns (out: string)
    ensures out == before + TextLiteral(white, s)
  {
    hide Doubled, NeedsQuote;
    if !NeedsQuote(white, s) {
      return before + s;
    }
    out := PushDoubled(before + "\"", s);
    out := out + "\"";
    assert out == before + TextLiteral(white, s);
  }

  method PushDoubled(before: string, s: string) returns (out: string)
    ensures out == before + Doubled(s)
  {
    hide Doubled;
    NothingDoubled();
    assert s[..0] == "";
    out := before;
    for i := 0 to |s|
      invariant out == before + Doubled(s[..i])
    {
      DoubledSnoc(s, i);
      if s[i] == '"' || s[i] == '\\' {
        out := out + [s[i]];
      }
      out := out + [s[i]];
    }
    assert s[..|s|] == s;
  }

  method EncodeField(white: char -> bool, before: string, v: Value) returns (out: string)
    ensures out == before + FieldLiteral(white, v)
  {
    match v
    case Null => out := before;
    case Bool(b) => out := before + (if b then "t" else "f");
    case Int(_, n) => out := before + Integer(n);
    case Plain(t) => out := before + t;
    case Text(s) => out := EncodeText(white, before, s);
    case Other(s) => out := EncodeText(white, before, s);
  }

  method Encode(white: char -> bool, vs: seq<Value>) returns (out: string)
    ensures out == Encoded(white, vs)
  {
    hide FieldLiteral;
    out := "(";
    for i := 0 to |vs|
      invariant out == "(" + Fields(white, vs[..i])
    {
      FieldsStep(white, vs, i);
      if i > 0 {
        out := out + ",";
      }
      out := EncodeField(white, out, vs[i]);
    }
    assert vs[..|vs|] == vs;
    out := out + ")";
  }

  lemma FieldsStep(white: char -> bool, vs: seq<Value>, i: nat)
    requires i < |vs|
    ensures Fields(white, vs[..i + 1]) ==
            Fields(white, vs[..i]) + (if i > 0 then "," else "") + FieldLiteral(white, vs[i])
  {
    assert vs[..i + 1][..i] == vs[..i];
  }

  // ----- Parsing ------------------------------------------------------------------------------------

  datatype State = State(fields: seq<Option<string>>, buffer: string, inQuote: bool, wasQuoted: bool)

  function FinishField(buffer: string, wasQuoted: bool): Option<string> {
    if !wasQuoted && buffer == [] then None else Some(buffer)
  }

  function Keep(st: State, c: char): State { st.(buffer := st.buffer + [c]) }

  /** How many characters the loop takes from the front, and where that leaves it. */
  function Taken(rest: string, st: State): nat
    requires rest != []
  {
    if |rest| > 1 && (rest[0] == '\\' || (st.inQuote && rest[0] == '"' && rest[1] == '"')) then 2 else 1
  }

  function Next(rest: string, st: State): State
    requires rest != []
  {
    if rest[0] == '\\' then (if |rest| > 1 then Keep(st, rest[1]) else st)
    else if rest[0] == '"' then
      if !st.inQuote then st.(inQuote := true, wasQuoted := true)
      else if |rest| > 1 && rest[1] == '"' then Keep(st, '"')
      else st.(inQuote := false)
    else if rest[0] == ',' && !st.inQuote then
      State(st.fields + [FinishField(st.buffer, st.wasQuoted)], "", false, false)
    else Keep(st, rest[0])
  }

  function Scan(rest: string, st: State): State {
    if rest == [] then st else Scan(rest[Taken(rest, st)..], Next(rest, st))
  }

  datatype DecodeError = MissingParentheses | FieldCount(got: nat)

  const FRESH := State([], "", false, false)

  function Finished(st: State): seq<Option<string>> {
    st.fields + [FinishField(st.buffer, st.wasQuoted)]
  }

  function Parsed(text: string, expected: nat): Result<seq<Option<string>>, DecodeError> {
    if |text| < 2 || text[0] != '(' || text[|text| - 1] != ')' then Err(MissingParentheses)
    else
      var fields := Finished(Scan(text[1..|text| - 1], FRESH));
      if |fields| != expected then Err(FieldCount(|fields|)) else Ok(fields)
  }

  method Parse(text: string, expected: nat) returns (r: Result<seq<Option<string>>, DecodeError>)
    ensures r == Parsed(text, expected)
  {
    if |text| < 2 || text[0] != '(' || text[|text| - 1] != ')' {
      return Err(MissingParentheses);
    }
    var inner := text[1..|text| - 1];
    var fields: seq<Option<string>> := [];
    var buffer := "";
    var inQuote, wasQuoted := false, false;
    var at := 0;
    assert inner[0..] == inner;
    while at < |inner|
      invariant 0 <= at <= |inner|
      invariant Scan(inner[at..], State(fields, buffer, inQuote, wasQuoted)) == Scan(inner, FRESH)
    {
      ghost var rest, st := inner[at..], State(fields, buffer, inQuote, wasQuoted);
      assert rest[0] == inner[at] && (at + 1 < |inner| ==> rest[1] == inner[at + 1]);
      var c := inner[at];
      at := at + 1;
      if inQuote {
        if c == '"' {
          if at < |inner| && inner[at] == '"' {
            at := at + 1;
            buffer := buffer + ['"'];
          } else {
            inQuote := false;
          }
        } else if c == '\\' {
          if at < |inner| {
            buffer := buffer + [inner[at]];
            at := at + 1;
          }
        } else {
          buffer := buffer + [c];
        }
      } else {
        if c == ',' {
          fields := fields + [FinishField(buffer, wasQuoted)];
          buffer := "";
          wasQuoted := false;
        } else if c == '"' {
          inQuote := true;
          wasQuoted := true;
        } else if c == '\\' {
          if at < |inner| {
            buffer := buffer + [inner[at]];
            at := at + 1;
          }
        } else {
          buffer := buffer + [c];
        }
      }
      assert rest[Taken(rest, st)..] == inner[at..];
      assert State(fields, buffer, inQuote, wasQuoted) == Next(rest, st);
    }
    fields := fields + [FinishField(buffer, wasQuoted)];
    if |fields| != expected {
      return Err(FieldCount(|fields|));
    }
    r := Ok(fields);
  }

  // ----- The round trip -------------------------------------------------------------------------------

  lemma ScanStep(rest: string, st: State)
    requires rest != []
    ensures Scan(rest, st) == Scan(rest[Taken(rest, st)..], Next(rest, st))
  {
  }

  lemma {:induction false} DoubledCons(s: string)
    requires s != []
    ensures Doubled(s) == (if s[0] == '"' || s[0] == '\\' then [s[0], s[0]] else [s[0]]) + Doubled(s[1..])
  {
    var n := |s| - 1;
    if n > 0 {
      DoubledCons(s[..n]);
      assert s[..n][1..] == s[1..][..n - 1];
    }
  }

  /** Inside quotes doubled text is read back character by character up to the closing quote. */
  lemma {:induction false} ScanDoubled(s: string, rest: string, st: State)
    requires st.inQuote && (rest == [] || rest[0] != '"')
    ensures Scan(Doubled(s) + ("\"" + rest), st) == Scan(rest, st.(buffer := st.buffer + s, inQuote := false))
  {
    hide Scan, Doubled;
    var text := Doubled(s) + ("\"" + rest);
    if s == [] {
      NothingDoubled();
      assert text == "\"" + rest;
      ScanStep(text, st);
      assert text[1..] == rest && st.buffer + s == st.buffer;
    } else {
      DoubledCons(s);
      ScanStep(text, st);
      var tail := Doubled(s[1..]) + ("\"" + rest);
      assert text == (if s[0] == '"' || s[0] == '\\' then [s[0], s[0]] else [s[0]]) + tail;
      assert text[Taken(text, st)..] == tail;
      assert Next(text, st) == Keep(st, s[0]);
      ScanDoubled(s[1..], rest, Keep(st, s[0]));
      assert st.buffer + [s[0]] + s[1..] == st.buffer + s;
    }
  }

  lemma DoubledSnoc(s: string, i: nat)
    requires i < |s|
    ensures Doubled(s[..i + 1]) == Doubled(s[..i]) + (if s[i] == '"' || s[i] == '\\' then [s[i], s[i]] else [s[i]])
  {
    assert s[..i + 1][..i] == s[..i];
  }

  lemma NothingDoubled()
    ensures Doubled("") == ""
  {
  }

  lemma {:induction false} ScanPlain(s: string, rest: string, st: State)
    requires !st.inQuote && forall i :: 0 <= i < |s| ==> !Delimiter(s[i])
    ensures Scan(s + rest, st) == Scan(rest, st.(buffer := st.buffer + s))
  {
    hide Scan;
    if s == [] {
      assert s + rest == rest && st.buffer + s == st.buffer;
    } else {
      ScanStep(s + rest, st);
      assert !Delimiter(s[0]);
      assert (s + rest)[1..] == s[1..] + rest;
      ScanPlain(s[1..], rest, Keep(st, s[0]));
      assert st.buffer + [s[0]] + s[1..] == st.buffer + s;
    }
  }

  lemma PlainScalars(v: Value)
    requires v.Bool? || v.Int? || v.Plain?
    ensures IsPlain(FieldText(v).value)
  {
    if v.Int? {
      assert forall c :: c in DIGITS + "-" ==> !Delimiter(c);
    }
  }

  lemma ScanQuoted(white: char -> bool, v: Value, rest: string, fields: seq<Option<string>>)
    requires rest == [] || rest[0] == ','
    requires (v.Text? || v.Other?) && NeedsQuote(white, FieldText(v).value)
    ensures var s := FieldText(v).value;
            FinishField(s, true) == FieldText(v) &&
            Scan(FieldLiteral(white, v) + rest, State(fields, "", false, false)) == Scan(rest, State(fields, s, false, true))
  {
    hide Scan, Doubled, NeedsQuote;
    var st := State(fields, "", false, false);
    var s := FieldText(v).value;
    var text := FieldLiteral(white, v) + rest;
    assert text == "\"" + (Doubled(s) + ("\"" + rest));
    ScanStep(text, st);
    assert text[1..] == Doubled(s) + ("\"" + rest);
    ScanDoubled(s, rest, st.(inQuote := true, wasQuoted := true));
    assert "" + s == s;
  }

  /** One field, with whatever may follow a field, is read as its text. */
  lemma ScanField(white: char -> bool, v: Value, rest: string, fields: seq<Option<string>>)
    requires rest == [] || rest[0] == ','
    ensures var st := State(fields, "", false, false);
            exists b, q :: FinishField(b, q) == FieldText(v) &&
                           Scan(FieldLiteral(white, v) + rest, st) == Scan(rest, State(fields, b, false, q))
  {
    hide Scan, Doubled;
    var st := State(fields, "", false, false);
    if v.Null? {
      assert FieldLiteral(white, v) + rest == rest;
      assert FinishField("", false) == FieldText(v);
    } else if (v.Text? || v.Other?) && NeedsQuote(white, FieldText(v).value) {
      ScanQuoted(white, v, rest, fields);
    } else {
      var s := FieldText(v).value;
      if !v.Text? && !v.Other? {
        PlainScalars(v);
      }
      ScanPlain(s, rest, st);
      assert "" + s == s;
      assert FinishField(s, false) == FieldText(v);
    }
  }

  function Texts(vs: seq<Value>): seq<Option<string>> {
    seq(|vs|, i requires 0 <= i < |vs| => FieldText(vs[i]))
  }

  /** From the front: the first field and what is left of the literal. */
  lemma {:induction false} FieldsCons(white: char -> bool, vs: seq<Value>)
    requires |vs| > 1
    ensures Fields(white, vs) == FieldLiteral(white, vs[0]) + "," + Fields(white, vs[1..])
  {
    hide FieldLiteral;
    var n := |vs| - 1;
    if n > 1 {
      FieldsCons(white, vs[..n]);
      assert vs[..n][1..] == vs[1..][..n - 1];
    }
  }

  lemma {:induction false} ScanFields(white: char -> bool, vs: seq<Value>, fields: seq<Option<string>>)
    requires vs != []
    ensures Finished(Scan(Fields(white, vs), State(fields, "", false, false))) == fields + Texts(vs)
  {
    hide FieldLiteral, Scan, Fields;
    if |vs| == 1 {
      OneField(white, vs[0]);
      assert vs == [vs[0]];
      ScanField(white, vs[0], "", fields);
      assert FieldLiteral(white, vs[0]) + "" == FieldLiteral(white, vs[0]);
      NothingScanned();
      assert Texts(vs) == [FieldText(vs[0])];
    } else {
      FieldsCons(white, vs);
      var rest := "," + Fields(white, vs[1..]);
      assert Fields(white, vs) == FieldLiteral(white, vs[0]) + rest;
      ScanField(white, vs[0], rest, fields);
      var b, q :| FinishField(b, q) == FieldText(vs[0]) &&
                  Scan(FieldLiteral(white, vs[0]) + rest, State(fields, "", false, false)) == Scan(rest, State(fields, b, false, q));
      ScanStep(rest, State(fields, b, false, q));
      assert rest[1..] == Fields(white, vs[1..]);
      ScanFields(white, vs[1..], fields + [FieldText(vs[0])]);
      assert fields + [FieldText(vs[0])] + Texts(vs[1..]) == fields + Texts(vs);
    }
  }

  lemma OneField(white: char -> bool, v: Value)
    ensures Fields(white, [v]) == FieldLiteral(white, v)
  {
  }

  lemma NothingScanned()
    ensures forall st :: Scan("", st) == st
  {
  }

  /**
   * Every field's exact text comes back, NULL told from the empty string, for any text and any
   * notion of whitespace; the parse succeeds iff as many fields are expected as were written,
   * an empty literal counting as one NULL.
   */
  lemma RoundTrip(white: char -> bool, vs: seq<Value>, expected: nat)
    ensures var r := Parsed(Encoded(white, vs), expected);
            if vs == [] then r == (if expected == 1 then Ok([None]) else Err(FieldCount(1)))
            else r == (if expected == |vs| then Ok(Texts(vs)) else Err(FieldCount(|vs|)))
  {
    hide Scan, Fields;
    var text := Encoded(white, vs);
    assert text[1..|text| - 1] == Fields(white, vs);
    if vs == [] {
      NoFields(white);
      NothingScanned();
      assert Finished(FRESH) == [None];
    } else {
      ScanFields(white, vs, []);
      assert [] + Texts(vs) == Texts(vs);
    }
  }

  lemma NoFields(white: char -> bool)
    ensures Fields(white, []) == ""
  {
  }

  // ----- Back to typed values ----------------------------------------------------------------------------

  datatype Kind = KBool | KInt(width: Width) | KText

  /** Booleans, integers and text; dates, JSON, floats and UUIDs are left to their own parsers. */
  function FieldValue(field: Option<string>, kind: Kind): Option<Value> {
    match field
    case None => Some(Null)
    case Some(text) =>
      match kind
      case KBool => Some(Bool(text == "t" || text == "true" || text == "T" || text == "1"))
      case KInt(w) =>
        (match ReadInteger(text)
         case Some(n) => if InRange(w, n) then Some(Int(w, n)) else None
         case None => None)
      case KText => Some(Text(text))
  }

  predicate OfKind(v: Value, kind: Kind) {
    match kind
    case KBool => v.Null? || v.Bool?
    case KInt(w) => v.Null? || (v.Int? && v.width == w && InRange(w, v.n))
    case KText => v.Null? || v.Text?
  }

  /** A composite of nullable booleans, integers and text is read back as the very values written. */
  lemma TypedRoundTrip(white: char -> bool, vs: seq<Value>, kinds: seq<Kind>)
    requires vs != [] && |kinds| == |vs| && forall i :: 0 <= i < |vs| ==> OfKind(vs[i], kinds[i])
    ensures var r := Parsed(Encoded(white, vs), |vs|);
            r.Ok? && |r.value| == |vs| && forall i :: 0 <= i < |vs| ==> FieldValue(r.value[i], kinds[i]) == Some(vs[i])
  {
    hide Encoded, Parsed;
    RoundTrip(white, vs, |vs|);
    forall i | 0 <= i < |vs| ensures FieldValue(FieldText(vs[i]), kinds[i]) == Some(vs[i]) {
      assert OfKind(vs[i], kinds[i]);
      if vs[i].Int? {
        IntegerReads(vs[i].n);
      }
    }
  }
}
