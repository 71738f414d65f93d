/** Decimal text of numbers (crates/orm/src/sql.rs, `itoa`). */
module Decimal {
  import opened Wrappers

  const DIGITS := "0123456789"

  function DigitChar(d: nat): (c: char)
    requires d < 10
    ensures c in DIGITS
  {
    DIGITS[d]
  }

  function DigitOf(c: char): Option<nat> {
    if '0' <= c <= '9' then Some((c - '0') as nat) else None
  }

  lemma DigitReads(d: nat)
    requires d < 10
    ensures DigitOf(DigitChar(d)) == Some(d)
  {
  }

  /** The positional notation, most significant digit first and no leading zero. */
  function Natural(n: nat): (s: string)
    ensures s != [] && forall i :: 0 <= i < |s| ==> s[i] in DIGITS
  {
    if n < 10 then [DigitChar(n)] else Natural(n / 10) + [DigitChar(n % 10)]
  }

  function ReadNatural(s: string): Option<nat> {
    if s == [] then None
    else match DigitOf(s[|s| - 1])
      case None => None
      case Some(d) =>
        if |s| == 1 then Some(d)
        else match ReadNatural(s[..|s| - 1]) case None => None case Some(n) => Some(10 * n + d)
  }

  lemma {:induction false} NaturalReads(n: nat)
    ensures ReadNatural(Natural(n)) == Some(n)
  {
    hide Natural, ReadNatural, DigitChar;
    NaturalStep(n);
    if n < 10 {
      DigitReads(n);
      ReadStep("", n, DigitChar(n));
      assert "" + [DigitChar(n)] == [DigitChar(n)];
    } else {
      NaturalReads(n / 10);
      DigitReads(n % 10);
      ReadStep(Natural(n / 10), n % 10, DigitChar(n % 10));
    }
  }

  /** One more digit. */
  lemma ReadStep(front: string, d: nat, c: char)
    requires DigitOf(c) == Some(d) && (front == "" || ReadNatural(front).Some?)
    ensures ReadNatural(front + [c]) == Some(if front == "" then d else 10 * ReadNatural(front).value + d)
  {
    assert (front + [c])[..|front|] == front;
  }

  function Integer(n: int): (s: string)
    ensures s != [] && forall i :: 0 <= i < |s| ==> s[i] in DIGITS + "-"
  {
    if n < 0 then "-" + Natural(-n) else Natural(n)
  }

  function ReadInteger(s: string): Option<int> {
    if s != [] && s[0] == '-' then
      match ReadNatural(s[1..]) case None => None case Some(n) => Some(-(n as int))
    else
      match ReadNatural(s) case None => None case Some(n) => Some(n as int)
  }

  lemma IntegerReads(n: int)
    ensures ReadInteger(Integer(n)) == Some(n)
  {
    hide Natural, ReadNatural, DIGITS;
    if n < 0 {
      NaturalReads(-n);
      assert ("-" + Natural(-n))[1..] == Natural(-n);
    } else {
      NaturalReads(n);
      Unsigned(n);
    }
  }

  lemma Unsigned(n: nat)
    ensures Natural(n)[0] != '-'
  {
    assert Natural(n)[0] in DIGITS;
  }

  lemma NaturalStep(n: nat)
    ensures Natural(n) == if n < 10 then [DigitChar(n)] else Natural(n / 10) + [DigitChar(n % 10)]
  {
  }

  // ----- The hot-path buffer ------------------------------------------------------------------------

  const USIZE_LIMIT: nat := 0x1_0000_0000_0000_0000

  function Power10(k: nat): nat { if k == 0 then 1 else 10 * Power10(k - 1) }

  lemma TwentyDigits()
    ensures USIZE_LIMIT <= Power10(20)
  {
    assert Power10(5) == 100_000;
    assert Power10(10) == 100_000 * 100_000;
    assert Power10(15) == 100_000 * 100_000 * 100_000;
    assert Power10(20) == 100_000 * 100_000 * 100_000 * 100_000;
  }

  lemma PowerStep(k: nat, n: nat)
    requires 0 < n < Power10(k)
    ensures k > 0 && n / 10 < Power10(k - 1)
  {
  }

  lemma ZeroDigit()
    ensures DigitChar(0) == '0'
  {
  }

  /** DIGITS are written backwards from the end; twenty places always suffice for a `usize`. */
  method Itoa(value: nat, buffer: array<char>) returns (text: string)
    requires value < USIZE_LIMIT && buffer.Length == 20
    modifies buffer
    ensures text == Natural(value)
  {
    hide Natural, DigitChar, Power10;
    if value == 0 {
      buffer[0] := '0';
      NaturalStep(0);
      ZeroDigit();
      text := buffer[..1];
      assert text == ['0'];
      return;
    }
    var index := buffer.Length;
    var remaining: nat := value;
    TwentyDigits();
    while remaining > 0
      invariant 0 <= index <= 20 && remaining < Power10(index)
      invariant remaining > 0 ==> Natural(value) == Natural(remaining) + buffer[index..]
      invariant remaining == 0 ==> Natural(value) == buffer[index..]
    {
      ghost var before, tail := remaining, buffer[index..];
      PowerStep(index, remaining);
      NaturalStep(before);
      index := index - 1;
      buffer[index] := DigitChar(remaining % 10);
      remaining := remaining / 10;
      assert buffer[index..] == [DigitChar(before % 10)] + tail;
    }
    text := buffer[index..];
  }
}
