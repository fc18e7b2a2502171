/** Numbers in texts as the C library reads them. */
module Numerals {
  import opened Text

  const INT_MAX: int := 0x7fff_ffff

  predicate IsSpace(c: char) {
    c == ' ' || '\t' <= c <= '\r'
  }

  function SkipSpaces(s: string): string {
    if s != "" && IsSpace(s[0]) then SkipSpaces(s[1..]) else s
  }

  function LeadingDigits(s: string): (d: string)
    ensures AllDigits(d)
  {
    if s == "" || !IsDigit(s[0]) then "" else [s[0]] + LeadingDigits(s[1..])
  }

  // The sign, if there is one, and the digits after it
  function Signed(s: string): (bool, nat) {
    var p := SkipSpaces(s);
    var minus := p != "" && p[0] == '-';
    (minus, NumberIn(LeadingDigits(if minus || (p != "" && p[0] == '+') then p[1..] else p)))
  }

  // strtoul(s, nullptr, 10)
  function Strtoul(s: string): Text.Word {
    var (minus, n) := Signed(s);
    if n >= WORD then WORD - 1 else if minus then Since(0, n) else n
  }

  // atoi; out of range, the nearest int
  function Atoi(s: string): int {
    var (minus, n) := Signed(s);
    if minus then if n > INT_MAX + 1 then -INT_MAX - 1 else -(n as int)
    else if n > INT_MAX then INT_MAX else n
  }

  lemma {:induction false} LeadingWhole(d: string)
    requires AllDigits(d)
    ensures LeadingDigits(d) == d
  {
    if d != "" {
      LeadingWhole(d[1..]);
    }
  }

  lemma {:induction false} LeadingStops(d: string, rest: string)
    requires AllDigits(d) && (rest != "" ==> !IsDigit(rest[0]))
    ensures LeadingDigits(d + rest) == d
    decreases |d|
  {
    if d == "" {
      assert d + rest == rest;
    } else {
      assert (d + rest)[1..] == d[1..] + rest;
      LeadingStops(d[1..], rest);
    }
  }

  // What the C library calls a space
  predicate AllSpaces(pad: string) {
    forall i | 0 <= i < |pad| :: pad[i] in [' ', '\t', '\n', 11 as char, 12 as char, '\r']
  }

  lemma {:induction false} SpacesSkipped(pad: string, s: string)
    requires AllSpaces(pad) && s != "" && !IsSpace(s[0])
    ensures SkipSpaces(pad + s) == s
    decreases |pad|
  {
    if pad == "" {
      assert pad + s == s;
    } else {
      assert (pad + s)[1..] == pad[1..] + s;
      SpacesSkipped(pad[1..], s);
    }
  }

  // Spaces, a sign or none, digits and anything else after them
  lemma SignedStated(pad: string, sign: string, d: string, rest: string)
    requires AllSpaces(pad) && sign in ["", "+", "-"] && d != "" && AllDigits(d) && (rest != "" ==> !IsDigit(rest[0]))
    ensures Signed(pad + (sign + (d + rest))) == (sign == "-", NumberIn(d))
  {
    var s, tail := sign + (d + rest), d + rest;
    assert tail[0] == d[0];
    assert sign != "" ==> s[0] == sign[0] && s[1..] == tail;
    assert sign == "" ==> s == tail;
    SpacesSkipped(pad, s);
    LeadingStops(d, rest);
  }

  // strtoul: a minus wraps, and what is too large is the largest
  lemma StrtoulStated(pad: string, sign: string, d: string, rest: string)
    requires AllSpaces(pad) && sign in ["", "+", "-"] && d != "" && AllDigits(d) && (rest != "" ==> !IsDigit(rest[0]))
    ensures var n, r := NumberIn(d), Strtoul(pad + (sign + (d + rest)));
            r == if n >= 0x1_0000_0000 then 0xFFFF_FFFF else if sign == "-" && n > 0 then 0x1_0000_0000 - n else n
  {
    SignedStated(pad, sign, d, rest);
    hide Signed, NumberIn, Since, AllSpaces, AllDigits;
    Negated(NumberIn(d));
  }

  lemma Negated(n: nat)
    ensures n < WORD ==> Since(0, n) == if n == 0 then 0 else WORD - n
  {
  }

  // atoi: what is too large is the nearest int
  lemma AtoiStated(pad: string, sign: string, d: string, rest: string)
    requires AllSpaces(pad) && sign in ["", "+", "-"] && d != "" && AllDigits(d) && (rest != "" ==> !IsDigit(rest[0]))
    ensures var n := if sign == "-" then -(NumberIn(d) as int) else NumberIn(d);
            Atoi(pad + (sign + (d + rest))) ==
            if n < -0x8000_0000 then -0x8000_0000 else if n > 0x7FFF_FFFF then 0x7FFF_FFFF else n
  {
    SignedStated(pad, sign, d, rest);
    hide Signed, NumberIn;
  }

  // A number written is read as it was, blanks before it or not
  lemma SignedDecimal(n: nat)
    ensures Signed(Decimal(n)) == (false, n) && Signed(" " + Decimal(n)) == (false, n)
  {
    var d := Decimal(n);
    assert IsDigit(d[0]);
    hide Decimal;
    assert (" " + d)[1..] == d;
    assert SkipSpaces(" " + d) == d == SkipSpaces(d);
    LeadingWhole(d);
    NumberInDecimal(n);
  }

  lemma {:induction false} DecimalShort(n: nat, digits: nat)
    requires 0 < digits && n < Power10(digits)
    ensures |Decimal(n)| <= digits
  {
    if n >= 10 {
      DecimalShort(n / 10, digits - 1);
    }
  }

  function Power10(n: nat): (p: nat)
    ensures p > 0
  {
    if n == 0 then 1 else 10 * Power10(n - 1)
  }
}
