/** Text as the firmware handles it: C strings, decimal numbers, 32-bit words. */
module Text {

  datatype Option<+T> = None | Some(value: T)

  const WORD := 0x1_0000_0000

  // unsigned long on the ESP8266, and what millis() gives
  type Word = x: int | 0 <= x < 0x1_0000_0000

  // a - b in unsigned arithmetic: for clock readings, the time from b to a
  function Since(a: Word, b: Word): Word {
    (a - b) % WORD
  }

  // (long)(a - b) >= 0
  predicate Reached(a: Word, b: Word) {
    Since(a, b) < 0x8000_0000
  }

  function Later(a: Word, ms: nat): Word {
    (a + ms) % WORD
  }

  // The time from a reading to a later one is what passed, and a deadline is
  // reached from then on and not before, as far as half a turn of the counter
  lemma DeadlineReached(a: Word, ms: nat)
    requires ms < WORD
    ensures Since(Later(a, ms), a) == ms
    ensures Reached(Later(a, ms), a) <==> ms < 0x8000_0000
    ensures ms <= 0x8000_0000 ==> (Reached(a, Later(a, ms)) <==> ms == 0)
  {
  }

  predicate IsDigit(c: char) {
    '0' <= c <= '9'
  }

  function DigitValue(c: char): nat
    requires IsDigit(c)
  {
    c as int - '0' as int
  }

  function DigitChar(d: nat): (c: char)
    requires d < 10
    ensures IsDigit(c) && DigitValue(c) == d
  {
    ('0' as int + d) as char
  }

  predicate AllDigits(s: string) {
    forall i :: 0 <= i < |s| ==> IsDigit(s[i])
  }

  // %u and %lu
  function Decimal(n: nat): (s: string)
    ensures |s| > 0 && AllDigits(s)
  {
    if n < 10 then [DigitChar(n)] else Decimal(n / 10) + [DigitChar(n % 10)]
  }

  // The number a run of digits writes
  function NumberIn(s: string): nat
    requires AllDigits(s)
  {
    if s == "" then 0 else 10 * NumberIn(s[..|s| - 1]) + DigitValue(s[|s| - 1])
  }

  lemma {:induction false} NumberInDecimal(n: nat)
    ensures NumberIn(Decimal(n)) == n
  {
    if n >= 10 {
      NumberInDecimal(n / 10);
      assert Decimal(n)[..|Decimal(n)| - 1] == Decimal(n / 10);
    } else {
      assert NumberIn([DigitChar(n)][..0]) == 0;
    }
  }

  // A C string ends at its first zero
  function CString(s: string): (t: string)
    ensures |t| <= |s| && t == s[..|t|]
    ensures '\0' !in t
  {
    if s == "" || s[0] == '\0' then "" else [s[0]] + CString(s[1..])
  }

  lemma {:induction false} CStringWhole(s: string)
    requires '\0' !in s
    ensures CString(s) == s
  {
    if s != "" {
      CStringWhole(s[1..]);
    }
  }
}
