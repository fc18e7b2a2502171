/** The authenticator (Totp.h): its key as hexadecimal digits and in base 32,
    and the codes, each taken once. Section 5.2 of RFC 6238. */
module Totp {
  import opened Bytes
  import opened Text
  import Numerals
  import opened JsonTree

  const KEY_LEN := 20
  const STEP := 30

  type Key = k: seq<Byte> | |k| == KEY_LEN witness seq(KEY_LEN, i => 0)

  predicate Blank(k: seq<Byte>) {
    forall i | 0 <= i < |k| :: k[i] == 0
  }

  function Zeros(): Key {
    seq(KEY_LEN, i => 0)
  }

  // ── Hexadecimal ────────────────────────────────────────────────────────────

  function LowerHex(d: nat): (c: char)
    requires d < 16
    ensures HexOf(c) == d && c != '\0'
  {
    if d < 10 then ('0' as int + d) as char else ('a' as int + d - 10) as char
  }

  function ToHex(k: seq<Byte>): string {
    if k == [] then "" else [LowerHex(k[0] / 16), LowerHex(k[0] % 16)] + ToHex(k[1..])
  }

  // The bytes of the digits, in pairs; none if one is not a digit
  function HexBytes(s: string): Option<seq<Byte>>
    requires |s| % 2 == 0
  {
    if s == "" then Some([])
    else if HexOf(s[0]) < 0 || HexOf(s[1]) < 0 then None
    else
      match HexBytes(s[2..])
      case None => None
      case Some(k) => Some([HexOf(s[0]) * 16 + HexOf(s[1])] + k)
  }

  // 40 digits that are not all zero; anything else clears the key
  function FromHex(s: string): (r: (bool, Key)) {
    if |s| != 2 * KEY_LEN then (false, Zeros())
    else
      match HexBytes(s)
      case None => (false, Zeros())
      case Some(k) => if |k| == KEY_LEN && !Blank(k) then (true, k) else (false, Zeros())
  }

  lemma {:induction false} HexBack(k: seq<Byte>)
    ensures |ToHex(k)| == 2 * |k| && HexBytes(ToHex(k)) == Some(k) && '\0' !in ToHex(k)
  {
    if k != [] {
      HexBack(k[1..]);
      assert ToHex(k)[2..] == ToHex(k[1..]);
      assert [k[0]] + k[1..] == k;
    }
  }

  // A key comes back from its digits; the blank one does not count as a key
  lemma KeyBack(k: Key)
    ensures FromHex(ToHex(k)) == (!Blank(k), k)
  {
    HexBack(k);
    if Blank(k) {
      assert k == Zeros();
    }
  }

  method EncodeHex(k: Key) returns (s: string)
    ensures s == ToHex(k)
  {
    s := "";
    var i := 0;
    assert k[0..] == k;
    while i < KEY_LEN
      invariant 0 <= i <= KEY_LEN && s + ToHex(k[i..]) == ToHex(k)
    {
      assert k[i..][1..] == k[i + 1..];
      assert s + ([LowerHex(k[i] / 16), LowerHex(k[i] % 16)] + ToHex(k[i + 1..])) ==
             s + [LowerHex(k[i] / 16), LowerHex(k[i] % 16)] + ToHex(k[i + 1..]);
      s := s + [LowerHex(k[i] / 16), LowerHex(k[i] % 16)];
      i := i + 1;
    }
    assert k[i..] == [];
  }

  // ── Base 32 ────────────────────────────────────────────────────────────────

  function Letter32(v: nat): (c: char)
    requires v < 32
    ensures Value32(c) == v && c != '=' && c != ' ' && c != '\0'
  {
    if v < 26 then ('A' as int + v) as char else ('2' as int + v - 26) as char
  }

  function Value32(c: char): (v: int)
    ensures -1 <= v < 32
  {
    if 'A' <= c <= 'Z' then c as int - 'A' as int
    else if 'a' <= c <= 'z' then c as int - 'a' as int
    else if '2' <= c <= '7' then c as int - '2' as int + 26
    else -1
  }

  // The bits of bytes, and of base 32 digits, the highest first
  function Bits(k: seq<nat>, width: nat): (b: seq<bool>)
    ensures |b| == |k| * width
  {
    if k == [] then [] else Bits(k[..|k| - 1], width) + BitsOf(k[|k| - 1], width)
  }

  // The numbers of so many groups of bits
  function Groups(b: seq<bool>, width: nat, count: nat): (g: seq<nat>)
    requires |b| == count * width
    ensures |g| == count
    decreases count
  {
    if count == 0 then []
    else
      OneMore(count, width);
      Groups(b[..(count - 1) * width], width, count - 1) + [NumberOf(b[(count - 1) * width..])]
  }

  lemma OneMore(count: nat, width: nat)
    requires count > 0
    ensures count * width == (count - 1) * width + width && (count - 1) * width >= 0
  {
  }

  lemma {:induction false} NumberOfBound(b: seq<bool>)
    ensures NumberOf(b) < Power2(|b|)
  {
    if b != [] {
      NumberOfBound(b[..|b| - 1]);
    }
  }

  lemma {:induction false} BitsOfNumber(b: seq<bool>)
    ensures BitsOf(NumberOf(b), |b|) == b
  {
    if b != [] {
      var a := b[..|b| - 1];
      BitsOfNumber(a);
      assert NumberOf(b) / 2 == NumberOf(a) && (NumberOf(b) % 2 == 1) == b[|b| - 1];
      assert b == a + [b[|b| - 1]];
    }
  }

  lemma {:induction false} NumberOfBitsOf(v: nat, n: nat)
    requires v < Power2(n)
    ensures NumberOf(BitsOf(v, n)) == v
    decreases n
  {
    if n > 0 {
      NumberOfBitsOf(v / 2, n - 1);
      assert BitsOf(v, n)[..n - 1] == BitsOf(v / 2, n - 1);
    }
  }

  // Regrouping the bits of numbers by their own width gives the numbers back
  lemma {:induction false} GroupsOfBits(k: seq<nat>, width: nat)
    requires forall i | 0 <= i < |k| :: k[i] < Power2(width)
    ensures Groups(Bits(k, width), width, |k|) == k
  {
    hide BitsOf, NumberOf, Power2, Groups, Bits;
    if k == [] {
      NoGroups(width);
    } else {
      var n := |k| - 1;
      GroupsOfBits(k[..n], width);
      NumberOfBitsOf(k[n], width);
      LastGroup(k, width);
      assert k == k[..n] + [k[n]];
    }
  }

  lemma NoGroups(width: nat)
    ensures Bits([], width) == [] && Groups([], width, 0) == []
  {
  }

  lemma LastGroup(k: seq<nat>, width: nat)
    requires k != []
    ensures var n := |k| - 1;
            Groups(Bits(k, width), width, |k|) == Groups(Bits(k[..n], width), width, n) + [NumberOf(BitsOf(k[n], width))]
  {
    hide BitsOf, NumberOf;
    var n := |k| - 1;
    OneMore(|k|, width);
    Apart(Bits(k[..n], width), BitsOf(k[n], width));
  }

  lemma Apart(a: seq<bool>, b: seq<bool>)
    ensures (a + b)[..|a|] == a && (a + b)[|a|..] == b
  {
  }

  // And the bits of the groups are the bits
  lemma {:induction false} BitsOfGroups(b: seq<bool>, width: nat, count: nat)
    requires |b| == count * width
    ensures Bits(Groups(b, width, count), width) == b
    ensures forall i | 0 <= i < count :: Groups(b, width, count)[i] < Power2(width)
    decreases count
  {
    hide BitsOf, NumberOf, Power2;
    if count == 0 {
      NoGroups(width);
    } else {
      OneMore(count, width);
      var m := (count - 1) * width;
      BitsOfGroups(b[..m], width, count - 1);
      BitsOfNumber(b[m..]);
      NumberOfBound(b[m..]);
      var g, last := Groups(b[..m], width, count - 1), NumberOf(b[m..]);
      assert Groups(b, width, count) == g + [last] && |b[m..]| == width;
      BitsLast(g, last, width);
      assert b == b[..m] + b[m..];
    }
  }

  lemma BitsLast(g: seq<nat>, last: nat, width: nat)
    ensures Bits(g + [last], width) == Bits(g, width) + BitsOf(last, width)
  {
    assert (g + [last])[..|g|] == g;
  }

  function Letters(v: seq<nat>): string
    requires forall i | 0 <= i < |v| :: v[i] < 32
  {
    if v == [] then "" else Letters(v[..|v| - 1]) + [Letter32(v[|v| - 1])]
  }

  function BitsFor(k: Key): (b: seq<bool>)
    ensures |b| == 160
  {
    Bits(k, 8)
  }

  lemma FivePower()
    ensures Power2(5) == 32 && Power2(8) == 256
  {
    assert Power2(5) == 2 * Power2(4) == 4 * Power2(3) == 8 * Power2(2) == 16 * Power2(1);
    ByteBound();
  }

  function Fives(k: Key): (v: seq<nat>)
    ensures |v| == 32 && forall i | 0 <= i < |v| :: v[i] < 32
  {
    BitsOfGroups(BitsFor(k), 5, 32);
    FivePower();
    Groups(BitsFor(k), 5, 32)
  }

  // 32 characters, what authenticator apps ask for
  function ToBase32(k: Key): string {
    Letters(Fives(k))
  }

  // The digits up to an equals sign, spaces left out; none if one is not a digit
  function Values(s: string): Option<seq<nat>> {
    if s == "" || s[0] == '=' then Some([])
    else if s[0] == ' ' then Values(s[1..])
    else if Value32(s[0]) < 0 then None
    else
      match Values(s[1..])
      case None => None
      case Some(v) => Some([Value32(s[0]) as nat] + v)
  }

  // Exactly the 32 digits that 160 bits take
  function FromBase32(s: string): (r: Option<seq<nat>>) {
    match Values(s)
    case None => None
    case Some(v) => if |v| == 32 then Some(Groups(Bits(v, 5), 8, KEY_LEN)) else None
  }

  lemma {:induction false} ValuesOfLetters(v: seq<nat>, s: string)
    requires forall i | 0 <= i < |v| :: v[i] < 32
    ensures Values(Letters(v) + s) == match Values(s) case None => None case Some(w) => Some(v + w)
    decreases |v|
  {
    if v == [] {
      assert "" + s == s;
      assert Values(s).Some? ==> [] + Values(s).value == Values(s).value;
    } else {
      var n := |v| - 1;
      var c := Letter32(v[n]);
      var t := [c] + s;
      assert t[1..] == s;
      ValuesOfLetters(v[..n], t);
      assert Letters(v) + s == Letters(v[..n]) + t;
      assert Values(s).Some? ==> v[..n] + ([v[n]] + Values(s).value) == v + Values(s).value;
    }
  }

  // A key comes back from base 32
  lemma Base32Back(k: Key)
    ensures FromBase32(ToBase32(k)) == Some(k)
  {
    var v := Fives(k);
    ValuesOfLetters(v, "");
    assert Letters(v) + "" == Letters(v) && v + [] == v;
    BitsOfGroups(BitsFor(k), 5, 32);
    FivePower();
    GroupsOfBits(k, 8);
  }

  // ── Base 32 as section 6 of RFC 4648 has it ────────────────────────────────

  function Capitals(): string {
    "ABCDEFGHIJKLMNOPQRSTUVWXYZ234567"
  }

  function Smalls(): string {
    "abcdefghijklmnopqrstuvwxyz234567"
  }

  // A letter's value, capital or not
  predicate Stands(c: char, v: nat) {
    v < |Capitals()| == |Smalls()| && (c == Capitals()[v] || c == Smalls()[v])
  }

  lemma LetterStands(v: nat)
    requires v < 32
    ensures |Capitals()| == 32 && Letter32(v) == Capitals()[v]
  {
  }

  lemma SmallStands(v: nat)
    requires v < 32
    ensures |Smalls()| == 32 && Smalls()[v] == if v < 26 then ('a' as int + v) as char else ('2' as int + v - 26) as char
  {
  }

  lemma ValueStands(c: char)
    ensures Value32(c) >= 0 ==> Stands(c, Value32(c))
    ensures forall v: nat | Stands(c, v) :: Value32(c) == v
  {
    hide Capitals, Smalls;
    LetterStands(0);
    SmallStands(0);
    if Value32(c) >= 0 {
      LetterStands(Value32(c));
      SmallStands(Value32(c));
    }
    forall v: nat | Stands(c, v) ensures Value32(c) == v {
      LetterStands(v);
      SmallStands(v);
    }
  }

  lemma {:induction false} LettersAt(v: seq<nat>, i: nat)
    requires (forall k | 0 <= k < |v| :: v[k] < 32) && i < |v|
    ensures |Letters(v)| == |v| && Letters(v)[i] == Letter32(v[i])
    decreases |v|
  {
    if |v| > 1 {
      LettersAt(v[..|v| - 1], if i < |v| - 1 then i else 0);
    }
  }

  // Each letter has the next five bits of the key
  lemma Base32Bits(k: Key, i: nat)
    requires i < 32
    ensures var v := NumberOf(Bits(k, 8)[5 * i..5 * i + 5]);
            |ToBase32(k)| == 32 && v < |Capitals()| && ToBase32(k)[i] == Capitals()[v]
  {
    hide Letters, Letter32, Bits, BitsFor, NumberOf, Capitals;
    var v := Fives(k);
    LettersAt(v, i);
    LetterStands(v[i]);
    GroupAt(BitsFor(k), 5, 32, i);
    BitsForIs(k);
  }

  lemma BitsForIs(k: Key)
    ensures BitsFor(k) == Bits(k, 8)
  {
  }

  // The letters before an equals sign, and no spaces
  function Typed(s: string): string {
    if s == "" || s[0] == '=' then "" else (if s[0] == ' ' then "" else [s[0]]) + Typed(s[1..])
  }

  ghost predicate IsLetter(c: char) {
    exists v :: Stands(c, v)
  }

  lemma LetterHasValue(c: char)
    ensures IsLetter(c) <==> Value32(c) >= 0
  {
    hide Capitals, Smalls, Value32;
    ValueStands(c);
    if Value32(c) >= 0 {
      assert Stands(c, Value32(c));
    }
  }

  ghost predicate AllLetters(t: string) {
    forall i | 0 <= i < |t| :: IsLetter(t[i])
  }

  // Read when they are all letters, and each as what it stands for
  lemma {:induction false} ValuesExactly(s: string)
    ensures Values(s).Some? <==> AllLetters(Typed(s))
    ensures Values(s).Some? ==> |Values(s).value| == |Typed(s)|
    ensures Values(s).Some? ==> forall i | 0 <= i < |Typed(s)| :: Stands(Typed(s)[i], Values(s).value[i])
  {
    hide Stands, Value32, IsLetter, AllLetters;
    if s == "" || s[0] == '=' {
      OneMoreLetter('=', "");
    } else {
      var c, t := s[0], Typed(s[1..]);
      ValuesExactly(s[1..]);
      if c == ' ' {
        assert "" + t == t;
      } else {
        ValueStands(c);
        LetterHasValue(c);
        OneMoreLetter(c, t);
        assert Typed(s)[0] == c && Typed(s)[1..] == t;
      }
    }
  }

  lemma OneMoreLetter(c: char, t: string)
    ensures AllLetters("") && (AllLetters([c] + t) <==> IsLetter(c) && AllLetters(t))
  {
    var u := [c] + t;
    assert u[0] == c && forall i | 0 <= i < |t| :: t[i] == u[i + 1];
  }

  // ── The loops ──────────────────────────────────────────────────────────────

  lemma {:induction false} BitsAt(k: seq<nat>, width: nat, i: nat)
    requires i < |k|
    ensures 0 <= i * width <= i * width + width <= |Bits(k, width)|
    ensures Bits(k, width)[i * width..i * width + width] == BitsOf(k[i], width)
    decreases |k|
  {
    hide BitsOf;
    var n := |k| - 1;
    var a, b := Bits(k[..n], width), BitsOf(k[n], width);
    OneMore(|k|, width);
    assert Bits(k, width) == a + b && |a| == n * width && |b| == width;
    if i == n {
      assert i * width == |a|;
      assert (a + b)[|a|..|a| + width] == b;
    } else {
      BitsAt(k[..n], width, i);
      var from := i * width;
      assert (a + b)[from..from + width] == a[from..from + width];
    }
  }

  lemma {:induction false} GroupAt(b: seq<bool>, width: nat, count: nat, i: nat)
    requires |b| == count * width && i < count
    ensures 0 <= i * width <= i * width + width <= |b|
    ensures Groups(b, width, count)[i] == NumberOf(b[i * width..i * width + width])
    decreases count
  {
    hide NumberOf;
    OneMore(count, width);
    var m := (count - 1) * width;
    if i < count - 1 {
      GroupAt(b[..m], width, count - 1, i);
      assert b[..m][i * width..i * width + width] == b[i * width..i * width + width];
    } else {
      assert i * width == m && m + width == |b|;
      assert b[m..m + width] == b[m..];
    }
  }

  // The bits shifted in but not out yet, in the low bits of the buffer
  ghost predicate Pending(buf: nat, bits: nat, all: seq<bool>, from: nat) {
    from + bits <= |all| && BitsOf(buf, bits) == all[from..from + bits]
  }

  lemma ShiftIn(buf: nat, bits: nat, all: seq<bool>, from: nat, c: nat, width: nat)
    requires Pending(buf, bits, all, from) && c < Power2(width) && bits + width <= 16
    requires from + bits + width <= |all| && all[from + bits..from + bits + width] == BitsOf(c, width)
    ensures Pending((buf * Power2(width) + c) % 0x1_0000, bits + width, all, from)
  {
    hide BitsOf, Power2;
    BitsShifted(buf, c, bits, width);
    Power16();
    BitsOfRemainder(buf * Power2(width) + c, bits + width, 16);
    assert all[from..from + bits] + all[from + bits..from + bits + width] == all[from..from + bits + width];
  }

  lemma Power16()
    ensures Power2(16) == 0x1_0000
  {
    ByteBound();
    assert Power2(12) == 2 * Power2(11) == 4 * Power2(10) == 8 * Power2(9) == 16 * Power2(8);
    assert Power2(16) == 2 * Power2(15) == 4 * Power2(14) == 8 * Power2(13) == 16 * Power2(12);
  }

  lemma ShiftOut(buf: nat, bits: nat, all: seq<bool>, from: nat, width: nat)
    requires Pending(buf, bits + width, all, from)
    ensures from + width <= |all| && Shr(buf, bits) % Power2(width) == NumberOf(all[from..from + width])
    ensures Pending(buf, bits, all, from + width)
  {
    hide BitsOf, Power2, Shr, NumberOf;
    BitsSplit(buf, width, bits);
    var p := all[from..from + bits + width];
    assert p[..width] == all[from..from + width] && p[width..] == all[from + width..from + width + bits];
    var x := Shr(buf, bits);
    BitsOfRemainder(x, width, width);
    NumberOfBitsOf(x % Power2(width), width);
  }

  // toBase32: eight bits in, five out
  method EncodeBase32(k: Key) returns (out: string)
    ensures out == ToBase32(k)
  {
    hide BitsOf, NumberOf, Power2, Shr, Bits, Groups, Letters, Pending;
    ghost var all, v := BitsFor(k), Fives(k);
    var buf: nat, bits: nat, i := 0, 0, 0;
    ghost var n := 0;
    out := "";
    assert v[..0] == [];
    NothingPending(all);
    NoLetters();
    while i < KEY_LEN
      invariant 0 <= i <= KEY_LEN && bits < 5 && 8 * i == 5 * n + bits && n <= 32
      invariant out == Letters(v[..n]) && Pending(buf, bits, all, 5 * n)
    {
      Absorb(k, buf, bits, n, i);
      buf := (buf * 256 + k[i]) % 0x1_0000;
      bits := bits + 8;
      while bits >= 5
        invariant 8 * (i + 1) == 5 * n + bits && n <= 32
        invariant out == Letters(v[..n]) && Pending(buf, bits, all, 5 * n)
      {
        bits := bits - 5;
        Emit(k, buf, bits, n);
        out := out + [Letter32(Shr(buf, bits) % 32)];
        n := n + 1;
      }
      i := i + 1;
    }
    assert v[..32] == v;
  }

  lemma Absorb(k: Key, buf: nat, bits: nat, n: nat, i: nat)
    requires i < KEY_LEN && bits < 5 && 8 * i == 5 * n + bits && Pending(buf, bits, BitsFor(k), 5 * n)
    ensures Pending((buf * 256 + k[i]) % 0x1_0000, bits + 8, BitsFor(k), 5 * n)
  {
    hide BitsOf, Power2, Bits;
    FivePower();
    BitsAt(k, 8, i);
    ShiftIn(buf, bits, BitsFor(k), 5 * n, k[i], 8);
  }

  lemma Emit(k: Key, buf: nat, bits: nat, n: nat)
    requires n < 32 && Pending(buf, bits + 5, BitsFor(k), 5 * n)
    ensures Pending(buf, bits, BitsFor(k), 5 * n + 5)
    ensures Letters(Fives(k)[..n + 1]) == Letters(Fives(k)[..n]) + [Letter32(Shr(buf, bits) % 32)]
  {
    hide BitsOf, NumberOf, Power2, Shr, Bits;
    FivePower();
    ShiftOut(buf, bits, BitsFor(k), 5 * n, 5);
    GroupAt(BitsFor(k), 5, 32, n);
    var v := Fives(k);
    assert v[..n + 1][..n] == v[..n];
  }

  lemma NothingPending(all: seq<bool>)
    ensures Pending(0, 0, all, 0)
  {
    NoBits();
    assert all[0..0] == [];
  }

  lemma NoLetters()
    ensures Letters([]) == ""
  {
  }

  lemma NoBits()
    ensures BitsOf(0, 0) == []
  {
  }

  // The digits so far: the bytes they made, and the bits that are pending
  ghost predicate Gathered(v: seq<nat>, k: seq<Byte>, buf: nat, bits: nat) {
    && 5 * |v| == 8 * |k| + bits
    && Pending(buf, bits, Bits(v, 5), 8 * |k|)
    && forall j | 0 <= j < |k| :: k[j] == NumberOf(Bits(v, 5)[8 * j..8 * j + 8])
  }

  lemma BitsAdd(v: seq<nat>, d: nat)
    ensures Bits(v + [d], 5) == Bits(v, 5) + BitsOf(d, 5)
  {
    assert (v + [d])[..|v|] == v;
  }

  lemma TakeIn(v: seq<nat>, k: seq<Byte>, buf: nat, bits: nat, d: nat)
    requires d < 32 && bits < 8 && Gathered(v, k, buf, bits)
    ensures Gathered(v + [d], k, (buf * 32 + d) % 0x1_0000, bits + 5)
  {
    hide BitsOf, Power2, NumberOf, Bits;
    FivePower();
    BitsAdd(v, d);
    var was, all, from := Bits(v, 5), Bits(v + [d], 5), 8 * |k|;
    assert all[from..from + bits] == was[from..from + bits];
    assert all[from + bits..from + bits + 5] == BitsOf(d, 5);
    ShiftIn(buf, bits, all, from, d, 5);
    forall j | 0 <= j < |k| ensures k[j] == NumberOf(all[8 * j..8 * j + 8]) {
      assert all[8 * j..8 * j + 8] == was[8 * j..8 * j + 8];
    }
  }

  lemma TakeOut(v: seq<nat>, k: seq<Byte>, buf: nat, bits: nat)
    requires Gathered(v, k, buf, bits + 8)
    ensures Gathered(v, k + [Shr(buf, bits) % 256], buf, bits)
  {
    hide BitsOf, Power2, NumberOf, Bits, Shr;
    FivePower();
    ShiftOut(buf, bits, Bits(v, 5), 8 * |k|, 8);
  }

  lemma AllGathered(v: seq<nat>, k: seq<Byte>, buf: nat)
    requires Gathered(v, k, buf, 0) && |k| == KEY_LEN
    ensures |v| == 32 && k == Groups(Bits(v, 5), 8, KEY_LEN)
  {
    hide Bits, NumberOf, Groups;
    forall j | 0 <= j < KEY_LEN ensures k[j] == Groups(Bits(v, 5), 8, KEY_LEN)[j] {
      GroupAt(Bits(v, 5), 8, KEY_LEN, j);
    }
  }

  // The digits read so far, and the ones to come
  ghost predicate Reading(s: string, rest: string, v: seq<nat>) {
    Values(s) == match Values(rest) case None => None case Some(w) => Some(v + w)
  }

  lemma ReadOne(s: string, rest: string, v: seq<nat>)
    requires rest != "" && rest[0] != '=' && rest[0] != ' ' && Reading(s, rest, v)
    ensures var d := Value32(rest[0]); if d < 0 then Values(s) == None else Reading(s, rest[1..], v + [d as nat])
  {
    var d := Value32(rest[0]);
    if d >= 0 && Values(rest[1..]).Some? {
      assert v + ([d as nat] + Values(rest[1..]).value) == v + [d as nat] + Values(rest[1..]).value;
    }
  }

  // fromBase32: five bits in, eight out; anything but 32 digits clears the key
  method DecodeBase32(s: string) returns (ok: bool, k: seq<Byte>)
    ensures FromBase32(s) == if ok then Some(k) else None
    ensures |k| == KEY_LEN && (!ok ==> Blank(k))
  {
    hide BitsOf, NumberOf, Power2, Shr, Groups, Bits, Gathered, Reading;
    var buf: nat, bits: nat, i := 0, 0, 0;
    ghost var v: seq<nat> := [];
    k := [];
    Begin(s);
    while i < |s| && s[i] != '='
      invariant 0 <= i <= |s| && |k| <= KEY_LEN && bits < 8 && 5 * |v| == 8 * |k| + bits
      invariant Reading(s, s[i..], v) && Gathered(v, k, buf, bits)
    {
      assert s[i..][1..] == s[i + 1..];
      if s[i] == ' ' {
        Skipped(s, s[i..], v);
        i := i + 1;
        continue;
      }
      var d := Value32(s[i]);
      ReadOne(s, s[i..], v);
      if d < 0 {
        return false, Zeros();
      }
      TakeIn(v, k, buf, bits, d);
      buf := (buf * 32 + d) % 0x1_0000;
      bits := bits + 5;
      v := v + [d as nat];
      if bits >= 8 {
        bits := bits - 8;
        if |k| == KEY_LEN {
          TooMany(s, s[i + 1..], v);
          return false, Zeros();
        }
        TakeOut(v, k, buf, bits);
        k := k + [Shr(buf, bits) % 256];
      }
      i := i + 1;
    }
    Ended(s, s[i..], v);
    if |k| != KEY_LEN || bits != 0 {
      return false, Zeros();
    }
    AllGathered(v, k, buf);
    ok := true;
  }

  lemma Begin(s: string)
    ensures Reading(s, s[0..], []) && Gathered([], [], 0, 0)
  {
    NoBits();
    assert s[0..] == s && (Values(s).Some? ==> [] + Values(s).value == Values(s).value);
  }

  lemma Skipped(s: string, rest: string, v: seq<nat>)
    requires Reading(s, rest, v) && rest != "" && rest[0] == ' '
    ensures Reading(s, rest[1..], v)
  {
  }

  lemma TooMany(s: string, rest: string, v: seq<nat>)
    requires Reading(s, rest, v) && |v| > 32
    ensures FromBase32(s) == None
  {
  }

  lemma Ended(s: string, rest: string, v: seq<nat>)
    requires Reading(s, rest, v) && (rest == "" || rest[0] == '=')
    ensures Values(s) == Some(v)
  {
    assert v + [] == v;
  }

  // ── Codes ──────────────────────────────────────────────────────────────────

  // Six digits
  predicate IsCode(code: string) {
    |code| == 6 && AllDigits(code)
  }

  // The step before this one, this one and the next
  function Near(step: nat): set<nat> {
    (if step == 0 then {} else {step - 1}) + {step, step + 1}
  }

  // A step near now, whose code it is, and later than the last one taken
  predicate Takes(hotp: nat -> string, now: nat, code: string, last: Option<nat>, c: nat) {
    c in Near(now / STEP) && hotp(c) == code && (last.Some? ==> c > last.value)
  }

  // verify: hotp is the code of a step under the key. Taken exactly when some
  // step takes it, and then the last is the latest of those steps
  method Verify(hotp: nat -> string, now: int, code: string, last: Option<nat>) returns (ok: bool, hit: Option<nat>)
    requires now < WORD
    ensures ok <==> now > 0 && IsCode(code) && exists c: nat :: Takes(hotp, now, code, last, c)
    ensures last.Some? ==> if ok then hit == Hit(hotp, now, code, last.value) else Hit(hotp, now, code, last.value) == None
    ensures !ok || last.None? ==> hit == last
  {
    if now <= 0 || !IsCode(code) {
      return false, last;
    }
    var step: nat := now / STEP;
    ok := false;
    hit := last;
    var found: nat := 0;
    var w := -1;
    while w <= 1
      invariant -1 <= w <= 2
      invariant ok <==> exists c: nat :: c < step + w && Takes(hotp, now, code, last, c)
      invariant ok ==> found < step + w && Takes(hotp, now, code, last, found)
      invariant ok ==> forall c: nat | c < step + w && Takes(hotp, now, code, last, c) :: c <= found
    {
      if w >= 0 || step > 0 {
        var c: nat := step + w;
        if hotp(c) == code && (last.None? || c > last.value) {
          assert Takes(hotp, now, code, last, c);
          ok := true;
          found := c;
        }
      }
      w := w + 1;
    }
    if ok && last.Some? {
      hit := Some(found);
    }
  }

  // The step a try leaves, if it is taken
  function Hit(hotp: nat -> string, now: int, code: string, last: nat): Option<nat> {
    if now <= 0 || !IsCode(code) then None
    else
      var step := now / STEP;
      if Takes(hotp, now, code, Some(last), step + 1) then Some(step + 1)
      else if Takes(hotp, now, code, Some(last), step) then Some(step)
      else if step > 0 && Takes(hotp, now, code, Some(last), step - 1) then Some(step - 1)
      else None
  }

  // Of the three steps near now, the latest that is later than the last taken
  // and whose code it is
  lemma HitExactly(hotp: nat -> string, now: int, code: string, last: nat)
    ensures match Hit(hotp, now, code, last)
            case Some(c) =>
              && now > 0 && IsCode(code) && now / 30 - 1 <= c <= now / 30 + 1 && hotp(c) == code && c > last
              && forall d: nat | c < d <= now / 30 + 1 :: hotp(d) != code
            case None =>
              now > 0 && IsCode(code) ==> forall d: nat | now / 30 - 1 <= d <= now / 30 + 1 && d > last :: hotp(d) != code
  {
  }

  // ── The codes (section 5.3 of RFC 4226) ────────────────────────────────────

  // The number that four bytes of the hash write, at the place its last byte
  // says, the sign left out
  function Truncated(mac: seq<Byte>): nat
    requires |mac| == 20
  {
    var off := mac[19] % 16;
    var a: nat, b: nat, c: nat, d: nat := mac[off] % 128, mac[off + 1], mac[off + 2], mac[off + 3];
    ((a * 256 + b) * 256 + c) * 256 + d
  }

  // The four bytes together, but for the highest bit
  lemma TruncatedExactly(mac: seq<Byte>)
    requires |mac| == 20
    ensures var off := mac[19] % 16;
            Truncated(mac) == (mac[off] as nat * 0x100_0000 + mac[off + 1] as nat * 0x1_0000 + mac[off + 2] as nat * 0x100
                               + mac[off + 3]) % 0x8000_0000
  {
  }

  // The example of section 5.4
  lemma TruncatedExample()
    ensures Number([0x1f, 0x86, 0x98, 0x69, 0x0e, 0x02, 0xca, 0x16, 0x61, 0x85, 0x50, 0xef, 0x7f, 0x19, 0xda, 0x8e, 0x94, 0x5b,
                    0x55, 0x5a]) == 872921
  {
  }

  // Its six last digits
  function Number(mac: seq<Byte>): (n: nat)
    requires |mac| == 20
    ensures n < 1_000_000
  {
    Truncated(mac) % 1_000_000
  }

  // The low digits of a number, zeros before it
  function Digits(n: nat, count: nat): (s: string)
    ensures |s| == count && AllDigits(s)
    decreases count
  {
    if count == 0 then "" else Digits(n / 10, count - 1) + [DigitChar(n % 10)]
  }

  // format: from the last digit to the first
  method Format(otp: nat) returns (out: array<char>)
    ensures fresh(out) && out.Length == 7 && out[..6] == Digits(otp, 6) && out[6] == '\0'
  {
    out := new char[7](_ => '\0');
    var n, i := otp, 6;
    while i > 0
      invariant 0 <= i <= 6 && out[6] == '\0'
      invariant Digits(n, i) + out[i..6] == Digits(otp, 6)
    {
      ghost var d := Digits(n / 10, i - 1);
      ghost var tail := out[i..6];
      i := i - 1;
      out[i] := DigitChar(n % 10);
      assert out[i..6] == [DigitChar(n % 10)] + tail;
      assert d + ([DigitChar(n % 10)] + tail) == d + [DigitChar(n % 10)] + tail;
      n := n / 10;
    }
    assert out[0..6] == Digits(otp, 6);
  }

  // A code of six digits is one number's, and the number its own
  lemma {:induction false} DigitsRead(n: nat, count: nat)
    requires n < Numerals.Power10(count)
    ensures NumberIn(Digits(n, count)) == n
    decreases count
  {
    if count > 0 {
      DigitsRead(n / 10, count - 1);
      assert Digits(n, count)[..count - 1] == Digits(n / 10, count - 1);
    }
  }

  lemma {:induction false} DigitsWritten(s: string)
    requires AllDigits(s)
    ensures Digits(NumberIn(s), |s|) == s && NumberIn(s) < Numerals.Power10(|s|)
    decreases |s|
  {
    if s != "" {
      DigitsWritten(s[..|s| - 1]);
    }
  }

  lemma Million()
    ensures Numerals.Power10(6) == 1_000_000
  {
    assert Numerals.Power10(2) == 10 * Numerals.Power10(1) == 100;
    assert Numerals.Power10(4) == 100 * Numerals.Power10(2);
    assert Numerals.Power10(6) == 100 * Numerals.Power10(4);
  }

  // What is taken for a code is what format writes
  lemma CodesAreNumbers(code: string)
    ensures IsCode(code) <==> exists n :: n < 1_000_000 && code == Digits(n, 6)
  {
    Million();
    if IsCode(code) {
      DigitsWritten(code);
      assert NumberIn(code) < 1_000_000 && code == Digits(NumberIn(code), 6);
    }
  }

  // The code an application shows is taken while its clock is no more than a
  // step away and no code of that step or a later one was taken
  lemma AppCodeTaken(mac: nat -> seq<Byte>, hotp: nat -> string, now: int, app: nat, last: nat)
    requires forall c :: |mac(c)| == 20 && hotp(c) == Digits(Number(mac(c)), 6)
    requires now > 0 && now / 30 - 1 <= app / 30 <= now / 30 + 1 && app / 30 > last
    ensures var hit := Hit(hotp, now, hotp(app / 30), last); hit.Some? && hit.value >= app / 30
  {
    hide Number, Digits, Hit;
    HitExactly(hotp, now, hotp(app / 30), last);
  }

  // The steps taken over tries, one after another, the clock going either way
  function Hits(hotp: nat -> string, last: nat, tries: seq<(int, string)>): seq<nat>
    decreases |tries|
  {
    if tries == [] then []
    else
      match Hit(hotp, tries[0].0, tries[0].1, last)
      case None => Hits(hotp, last, tries[1..])
      case Some(c) => [c] + Hits(hotp, c, tries[1..])
  }

  // Each later than all before it, and than last
  predicate Increasing(h: seq<nat>, last: nat) {
    h == [] || (h[0] > last && Increasing(h[1..], h[0]))
  }

  // No step is taken twice
  lemma {:induction false} HitsIncrease(hotp: nat -> string, last: nat, tries: seq<(int, string)>)
    ensures Increasing(Hits(hotp, last, tries), last)
    ensures forall i, j | 0 <= i < j < |Hits(hotp, last, tries)| :: Hits(hotp, last, tries)[i] < Hits(hotp, last, tries)[j]
    decreases |tries|
  {
    if tries != [] {
      var hit := Hit(hotp, tries[0].0, tries[0].1, last);
      HitsIncrease(hotp, if hit.Some? then hit.value else last, tries[1..]);
    }
    IncreasingSpreads(Hits(hotp, last, tries), last);
  }

  lemma {:induction false} IncreasingSpreads(h: seq<nat>, last: nat)
    requires Increasing(h, last)
    ensures forall i | 0 <= i < |h| :: h[i] > last
    ensures forall i, j | 0 <= i < j < |h| :: h[i] < h[j]
  {
    if h != [] {
      IncreasingSpreads(h[1..], h[0]);
      assert forall i | 0 < i < |h| :: h[i] == h[1..][i - 1];
    }
  }
}
