/** The data and correction bytes of the panel's QR code (web/i18n.js, QR):
    version 5-L, one block of 108 data and 26 correction bytes, byte mode.
    Section 7.5.2 of ISO/IEC 18004 asks for the remainder of the data by a
    generator polynomial with 26 roots; read as a polynomial, the whole
    block is then a multiple of the generator. */
module QrCode {
  import opened Bytes
  import opened Galois
  import opened Polynomials

  const DATA := 108
  const CORRECTION := 26

  ghost const GF: Field<Octet> := Field(ZERO, ONE, (a, b) => Plus(a, b), (a, b) => Mul(a, b))

  lemma GFIsField()
    ensures IsField(GF)
  {
    forall a: Octet, b: Octet, c: Octet
      ensures Laws(GF, a, b, c)
    {
      SumLaws(a, b, c);
      ProductLaws(a, b, c);
      MulPlus(a, b, c);
    }
  }

  lemma SumLaws(a: Octet, b: Octet, c: Octet)
    ensures GF.plus(a, b) == GF.plus(b, a)
    ensures GF.plus(GF.plus(a, b), c) == GF.plus(a, GF.plus(b, c))
    ensures GF.plus(a, GF.zero) == a && GF.plus(a, a) == GF.zero
  {
    PlusCommutes(a, b);
    PlusAssociates(a, b, c);
    PlusZero(a);
  }

  lemma ProductLaws(a: Octet, b: Octet, c: Octet)
    ensures GF.mul(a, b) == GF.mul(b, a)
    ensures GF.mul(GF.mul(a, b), c) == GF.mul(a, GF.mul(b, c))
    ensures GF.mul(a, GF.zero) == GF.zero && GF.mul(a, GF.one) == a
    ensures a != GF.zero && b != GF.zero ==> GF.mul(a, b) != GF.zero
  {
    MulCommutes(a, b);
    MulAssociates(a, b, c);
    MulZero(a);
    MulOne(a);
    if a != ZERO && b != ZERO {
      NoZeroDivisors(a, b);
    }
  }

  // ── The field, as numbers ──────────────────────────────────────────────────

  lemma XorPush(a: nat, p: bool, b: nat, q: bool, n: nat)
    ensures XorBits(Push(a, p), Push(b, q), n + 1) == Push(XorBits(a, b, n), p != q)
  {
    assert Push(a, p) / 2 == a && Push(b, q) / 2 == b;
  }

  // x ^ y
  lemma PlusIs(x: Octet, y: Octet)
    ensures Value(Plus(x, y)) == XorBits(Value(x), Value(y), 8)
  {
    hide XorBits, Push;
    var x7, y7 := Push(0, x.b7), Push(0, y.b7);
    var x6, y6 := Push(x7, x.b6), Push(y7, y.b6);
    var x5, y5 := Push(x6, x.b5), Push(y6, y.b5);
    var x4, y4 := Push(x5, x.b4), Push(y5, y.b4);
    var x3, y3 := Push(x4, x.b3), Push(y4, y.b3);
    var x2, y2 := Push(x3, x.b2), Push(y3, y.b2);
    NoBits(0, 0);
    XorPush(0, x.b7, 0, y.b7, 0);
    XorPush(x7, x.b6, y7, y.b6, 1);
    XorPush(x6, x.b5, y6, y.b5, 2);
    XorPush(x5, x.b4, y5, y.b4, 3);
    XorPush(x4, x.b3, y4, y.b3, 4);
    XorPush(x3, x.b2, y3, y.b2, 5);
    XorPush(x2, x.b1, y2, y.b1, 6);
    XorPush(Push(x2, x.b1), x.b0, Push(y2, y.b1), y.b0, 7);
  }

  lemma NoBits(a: nat, b: nat)
    ensures XorBits(a, b, 0) == 0
  {
  }

  // x << 1, and ^ 285 when that has a ninth bit
  lemma TwiceIs(x: Octet)
    ensures Value(Twice(x)) == if Value(x) < 128 then 2 * Value(x) else XorBits(2 * Value(x), 285, 9)
  {
    if x.b7 {
      Reduced(x);
    }
    TopBit(x);
  }

  lemma TopBit(x: Octet)
    ensures Value(x) >= 128 <==> x.b7
    ensures !x.b7 ==> Value(Twice(x)) == 2 * Value(x)
  {
  }

  // 285, its bits pushed one by one
  function Modulus(): (m: seq<nat>)
    ensures |m| == 10 && m[9] == 285
  {
    [0, 1, 2, 4, 8, 17, 35, 71, 142, 285]
  }

  lemma ModulusPushed()
    ensures var m := Modulus();
            && m[1] == Push(m[0], true) && m[2] == Push(m[1], false) && m[3] == Push(m[2], false)
            && m[4] == Push(m[3], false) && m[5] == Push(m[4], true) && m[6] == Push(m[5], true)
            && m[7] == Push(m[6], true) && m[8] == Push(m[7], false) && m[9] == Push(m[8], true)
  {
  }

  lemma Ends(v: nat)
    ensures Push(v, false) == 2 * v && Push(0, false) == 0
  {
  }

  lemma Reduced(x: Octet)
    requires x.b7
    ensures Value(Twice(x)) == XorBits(2 * Value(x), 285, 9)
  {
    hide XorBits, Push, Modulus;
    var m := Modulus();
    ModulusPushed();
    var x7 := Push(0, x.b7);
    var x6 := Push(x7, x.b6);
    var x5 := Push(x6, x.b5);
    var x4 := Push(x5, x.b4);
    var x3 := Push(x4, x.b3);
    var x2 := Push(x3, x.b2);
    var x1 := Push(x2, x.b1);
    Ends(Value(x));
    NoBits(0, m[0]);
    XorPush(0, x.b7, m[0], true, 0);
    XorPush(x7, x.b6, m[1], false, 1);
    XorPush(x6, x.b5, m[2], false, 2);
    XorPush(x5, x.b4, m[3], false, 3);
    XorPush(x4, x.b3, m[4], true, 4);
    XorPush(x3, x.b2, m[5], true, 5);
    XorPush(x2, x.b1, m[6], true, 6);
    XorPush(x1, x.b0, m[7], false, 7);
    XorPush(Value(x), false, m[8], true, 8);
  }

  // ── The generator ──────────────────────────────────────────────────────────

  // 2^0, 2^1, ... 2^(n-1)
  function Roots(n: nat): (zs: seq<Octet>)
    ensures |zs| == n
  {
    seq(n, k requires 0 <= k < n => Pow(k))
  }

  lemma RootsDistinct(n: nat)
    requires n <= 255
    ensures Distinct(Roots(n))
  {
    forall i, j | 0 <= i < j < n
      ensures Roots(n)[i] != Roots(n)[j]
    {
      PowInjective(i, j);
    }
  }

  ghost const G: seq<Octet> := Factors(GF, Roots(CORRECTION))

  lemma GFIs(a: Octet, b: Octet)
    ensures GF.plus(a, b) == Plus(a, b) && GF.mul(a, b) == Mul(a, b)
  {
  }

  // for (G.push(0), j = i + 1; j > 0; j--) G[j] ^= mul(G[j - 1], ex[i])
  method TimesRoot(t: Tables, p: seq<Octet>, a: Octet) returns (g: seq<Octet>)
    requires t.Valid() && |p| > 0
    ensures g == TimesLinear(GF, p, a)
  {
    g := p + [ZERO];
    var j := |p|;
    while j > 0
      invariant 0 <= j <= |p| && |g| == |p| + 1
      invariant forall k :: 0 <= k <= j ==> g[k] == (p + [ZERO])[k]
      invariant forall k :: j < k <= |p| ==> g[k] == Coefficient(GF, p, a, k)
    {
      var m := t.Product(g[j - 1], a);
      GFIs(g[j - 1], a);
      GFIs(g[j], m);
      g := g[j := Plus(g[j], m)];
      j := j - 1;
    }
    GFIsField();
    CoefficientsOf(GF, p, a, g);
  }

  method Generator(t: Tables) returns (g: seq<Octet>)
    requires t.Valid()
    ensures g == G
  {
    g := [ONE];
    var i := 0;
    while i < CORRECTION
      invariant 0 <= i <= CORRECTION && g == Factors(GF, Roots(i))
    {
      g := TimesRoot(t, g, t.ex[i]);
      assert Roots(i + 1)[..i] == Roots(i);
      i := i + 1;
    }
  }

  // ── The remainder ──────────────────────────────────────────────────────────

  // for (r = x[i], j = 0; j < 27; j++) x[i + j] ^= mul(G[j], r)
  method Clear(t: Tables, x: array<Octet>, i: nat, g: seq<Octet>)
    requires t.Valid() && x != t.ex && i + |g| <= x.Length && |g| > 0
    modifies x
    ensures t.Valid()
    ensures Round(GF, old(x[..]), x[..], i, old(x[i]), g, |g|)
  {
    hide Mul, Plus, Round;
    ghost var y := x[..];
    var r, j := x[i], 0;
    while j < |g|
      invariant 0 <= j <= |g| && t.Valid()
      invariant PartOf(y, x[..], i, r, g, j)
    {
      ghost var before := x[..];
      var m := t.Product(g[j], r);
      x[i + j] := Plus(x[i + j], m);
      assert x[..] == before[i + j := Plus(before[i + j], Mul(g[j], r))];
      OneCell(y, before, i, r, g, j);
      j := j + 1;
    }
    RoundOf(y, x[..], i, r, g);
  }

  // y is x with the first j cells from i taken
  ghost predicate PartOf(x: seq<Octet>, y: seq<Octet>, i: nat, r: Octet, g: seq<Octet>, j: nat)
    requires j <= |g| && i + |g| <= |x|
  {
    |y| == |x| && forall k :: 0 <= k < |x| ==> y[k] == if i <= k < i + j then Plus(x[k], Mul(g[k - i], r)) else x[k]
  }

  lemma OneCell(x: seq<Octet>, y: seq<Octet>, i: nat, r: Octet, g: seq<Octet>, j: nat)
    requires j < |g| && i + |g| <= |x| && PartOf(x, y, i, r, g, j)
    ensures PartOf(x, y[i + j := Plus(y[i + j], Mul(g[j], r))], i, r, g, j + 1)
  {
    hide Mul, Plus;
  }

  lemma RoundOf(x: seq<Octet>, y: seq<Octet>, i: nat, r: Octet, g: seq<Octet>)
    requires i + |g| <= |x| && PartOf(x, y, i, r, g, |g|)
    ensures Round(GF, x, y, i, r, g, |g|)
  {
    forall k | i <= k < i + |g|
      ensures y[k] == GF.plus(x[k], GF.mul(g[k - i], r))
    {
      GFIs(g[k - i], r);
      GFIs(x[k], Mul(g[k - i], r));
    }
  }

  // One round: cell i becomes zero, and the quotient has its coefficient
  method ClearOne(t: Tables, x: array<Octet>, i: nat, g: seq<Octet>, ghost init: seq<Octet>, ghost q: seq<Octet>)
    requires t.Valid() && x != t.ex && x.Length == |init| == DATA + CORRECTION && i < DATA && g == G
    requires |g| == CORRECTION + 1 && g[0] == GF.one
    requires |q| == i && x[..] == Accumulated(GF, init, q, g) && Null(GF, x[..i])
    modifies x
    ensures t.Valid()
    ensures x[..] == Accumulated(GF, init, q + [old(x[i])], g) && Null(GF, x[..i + 1])
  {
    hide Mul, Plus, Round, Null, Factors, Distinct;
    GFIsField();
    ghost var y := x[..];
    assert y[..i] == x[..i];
    Clear(t, x, i, g);
    RoundIsInto(GF, y, x[..], i, y[i], g);
    RoundClears(GF, y, x[..], i, g);
    assert x[..][..i + 1] == x[..i + 1];
    ghost var r := q + [y[i]];
    assert r[..i] == q;
  }

  method Correct(t: Tables, g: seq<Octet>, d: seq<Octet>) returns (c: seq<Octet>)
    requires t.Valid() && |d| == DATA && g == G
    ensures |c| == DATA + CORRECTION && c[..DATA] == d
    ensures IsMultiple(GF, c, G)
  {
    hide IsField, Mul, Plus, Factors, Distinct, Into, Product;
    GFIsField();
    FactorsLead(GF, Roots(CORRECTION));
    var x := new Octet[DATA + CORRECTION](k => if 0 <= k < |d| then d[k] else ZERO);
    ghost var init, q: seq<Octet> := x[..], [];
    var i := 0;
    while i < DATA
      invariant 0 <= i <= DATA && |q| == i && t.Valid()
      invariant x[..] == Accumulated(GF, init, q, g)
      invariant Null(GF, x[..i])
    {
      ghost var r := x[i];
      ClearOne(t, x, i, g, init, q);
      q := q + [r];
      i := i + 1;
    }
    Cleared(GF, init, x[..], q, g);
    c := d + x[DATA..];
    assert c == init[..|q|] + x[..][|q|..];
  }

  // ── The data ───────────────────────────────────────────────────────────────

  function CharBits(s: seq<Byte>): (b: seq<bool>)
    ensures |b| == 8 * |s|
  {
    if s == [] then [] else CharBits(s[..|s| - 1]) + BitsOf(s[|s| - 1], 8)
  }

  // The mode (4: bytes), the length, the text and the terminator
  function TextBits(s: seq<Byte>): (b: seq<bool>)
    ensures |b| == 8 * (|s| + 2)
  {
    BitsOf(4, 4) + BitsOf(|s|, 8) + CharBits(s) + BitsOf(0, 4)
  }

  function Last(b: seq<bool>): Octet
    requires |b| >= 8
  {
    var o := b[|b| - 8..];
    Octet(o[0], o[1], o[2], o[3], o[4], o[5], o[6], o[7])
  }

  // n bytes of bits
  function Packed(b: seq<bool>, n: nat): (d: seq<Octet>)
    requires |b| == 8 * n
    ensures |d| == n
    decreases n
  {
    if n == 0 then [] else Packed(b[..8 * (n - 1)], n - 1) + [Last(b)]
  }

  const PAD_EVEN := Octet(true, true, true, false, true, true, false, false)    // 236
  const PAD_ODD := Octet(false, false, false, true, false, false, false, true)  // 17

  function Padding(n: nat): (p: seq<Octet>)
    ensures |p| == n
  {
    seq(n, i requires 0 <= i < n => if i % 2 == 1 then PAD_ODD else PAD_EVEN)
  }

  // The 108 data bytes of a text
  function Block(s: seq<Byte>): (d: seq<Octet>)
    requires |s| <= DATA - 2
    ensures |d| == DATA
  {
    Packed(TextBits(s), |s| + 2) + Padding(DATA - 2 - |s|)
  }

  // while (n--) b.push(v >> n & 1)
  method Put(b: seq<bool>, v: nat, n: nat) returns (c: seq<bool>)
    ensures c == b + BitsOf(v, n)
  {
    c := b;
    var k := n;
    while k > 0
      invariant 0 <= k <= n && c == b + BitsOf(Shr(v, k), n - k)
    {
      k := k - 1;
      ShrStep(v, k);
      assert BitsOf(Shr(v, k), n - k) == BitsOf(Shr(v, k + 1), n - k - 1) + [Shr(v, k) % 2 == 1];
      c := c + [Shr(v, k) % 2 == 1];
    }
  }

  method Pack(b: seq<bool>, ghost n: nat) returns (d: seq<Octet>)
    requires |b| == 8 * n
    ensures d == Packed(b, n)
  {
    d := [];
    var i := 0;
    while i < |b|
      invariant i == 8 * |d| <= |b|
      invariant d == Packed(b[..i], |d|)
    {
      var c := b[..i + 8];
      assert c[..i] == b[..i];
      d := d + [Last(c)];
      i := i + 8;
    }
    assert b[..|b|] == b;
  }

  method Bits(s: seq<Byte>) returns (b: seq<bool>)
    ensures b == TextBits(s)
  {
    hide BitsOf;
    b := Put([], 4, 4);
    b := Put(b, |s|, 8);
    ghost var head := b;
    var i := 0;
    while i < |s|
      invariant 0 <= i <= |s| && b == head + CharBits(s[..i])
    {
      assert s[..i + 1][..i] == s[..i];
      b := Put(b, s[i], 8);
      i := i + 1;
    }
    assert s[..|s|] == s;
    b := Put(b, 0, 4);
  }

  // 8 n + 16 bits are whole bytes already: only whole bytes of padding follow
  method Data(s: seq<Byte>) returns (d: seq<Octet>)
    requires |s| <= DATA - 2
    ensures d == Block(s)
  {
    hide TextBits, Packed, Padding;
    var b := Bits(s);
    d := Pack(b, |s| + 2);
    ghost var text := d;
    var i := 0;
    while |d| < DATA
      invariant |d| <= DATA && |d| == |text| + i && i >= 0
      invariant d == text + Padding(i)
    {
      PaddingStep(i);
      assert text + (Padding(i) + [if i % 2 == 1 then PAD_ODD else PAD_EVEN]) == d + [if i % 2 == 1 then PAD_ODD else PAD_EVEN];
      d := d + [if i % 2 == 1 then PAD_ODD else PAD_EVEN];
      i := i + 1;
    }
  }

  // What follows the text is 236, 17, 236 and so on to the end
  lemma PaddingIs(s: seq<Byte>, i: nat)
    requires |s| <= DATA - 2 && |s| + 2 + i < DATA
    ensures Value(Block(s)[|s| + 2 + i]) == if i % 2 == 0 then 236 else 17
  {
    assert Value(PAD_EVEN) == 236 && Value(PAD_ODD) == 17;
  }

  lemma PaddingStep(i: nat)
    ensures Padding(i + 1) == Padding(i) + [if i % 2 == 1 then PAD_ODD else PAD_EVEN]
  {
  }

  // ── Reading it back ────────────────────────────────────────────────────────

  function OctetBits(o: Octet): (b: seq<bool>)
    ensures |b| == 8
  {
    [o.b7, o.b6, o.b5, o.b4, o.b3, o.b2, o.b1, o.b0]
  }

  function Unpacked(d: seq<Octet>): (b: seq<bool>)
    ensures |b| == 8 * |d|
  {
    if d == [] then [] else Unpacked(d[..|d| - 1]) + OctetBits(d[|d| - 1])
  }

  function Chars(b: seq<bool>, n: nat): (s: seq<nat>)
    requires 8 * n <= |b|
    ensures |s| == n
    decreases n
  {
    if n == 0 then [] else Chars(b, n - 1) + [NumberOf(b[8 * (n - 1)..8 * n])]
  }

  // What a reader makes of the data bytes: the text in byte mode
  function Text(d: seq<Octet>): seq<nat> {
    TextOfBits(Unpacked(d))
  }

  lemma LastBits(b: seq<bool>)
    requires |b| >= 8
    ensures OctetBits(Last(b)) == b[|b| - 8..]
  {
  }

  lemma UnpackedStep(d: seq<Octet>, o: Octet)
    ensures Unpacked(d + [o]) == Unpacked(d) + OctetBits(o)
  {
    assert (d + [o])[..|d|] == d;
  }

  lemma {:induction false} UnpackedPacked(b: seq<bool>, n: nat)
    requires |b| == 8 * n
    ensures Unpacked(Packed(b, n)) == b
    decreases n
  {
    if n > 0 {
      var c := b[..8 * (n - 1)];
      UnpackedPacked(c, n - 1);
      UnpackedStep(Packed(c, n - 1), Last(b));
      LastBits(b);
    }
  }

  lemma {:induction false} UnpackedSum(d: seq<Octet>, e: seq<Octet>)
    ensures Unpacked(d + e) == Unpacked(d) + Unpacked(e)
    decreases |e|
  {
    if e == [] {
      assert d + e == d;
    } else {
      assert (d + e)[..|d + e| - 1] == d + e[..|e| - 1];
      UnpackedSum(d, e[..|e| - 1]);
    }
  }

  lemma {:induction false} CharsOfBits(s: seq<Byte>, rest: seq<bool>)
    ensures Chars(CharBits(s) + rest, |s|) == s
    decreases |s|
  {
    if s != [] {
      var n := |s| - 1;
      var bits := BitsOf(s[n], 8);
      assert CharBits(s) + rest == CharBits(s[..n]) + (bits + rest);
      CharsOfBits(s[..n], bits + rest);
      assert (CharBits(s) + rest)[8 * n..8 * (n + 1)] == bits;
      ByteShr(s[n]);
      NumberOfBits(s[n], 8);
    }
  }

  lemma FourBits()
    ensures NumberOf(BitsOf(4, 4)) == 4
  {
    assert Shr(4, 4) == 0;
    NumberOfBits(4, 4);
  }

  // The text of any bits that start with a byte mode header
  function TextOfBits(b: seq<bool>): seq<nat> {
    if |b| < 12 || NumberOf(b[..4]) != 4 || 12 + 8 * NumberOf(b[4..12]) > |b| then []
    else Chars(b[12..], NumberOf(b[4..12]))
  }

  lemma TextOfTextBits(s: seq<Byte>, tail: seq<bool>)
    requires |s| < 256
    ensures TextOfBits(TextBits(s) + tail) == s
  {
    hide BitsOf, NumberOf, CharBits, Chars;
    var b, rest := TextBits(s) + tail, BitsOf(0, 4) + tail;
    assert b == (BitsOf(4, 4) + BitsOf(|s|, 8)) + (CharBits(s) + rest);
    assert b[..4] == BitsOf(4, 4) && b[4..12] == BitsOf(|s|, 8);
    assert b[12..] == CharBits(s) + rest;
    FourBits();
    ByteShr(|s|);
    NumberOfBits(|s|, 8);
    CharsOfBits(s, rest);
  }

  // The data bytes carry the text
  lemma TextOfBlock(s: seq<Byte>)
    requires |s| <= DATA - 2
    ensures Text(Block(s)) == s
  {
    var p := Padding(DATA - 2 - |s|);
    UnpackedSum(Packed(TextBits(s), |s| + 2), p);
    UnpackedPacked(TextBits(s), |s| + 2);
    TextOfTextBits(s, Unpacked(p));
  }

  // ── The whole block ────────────────────────────────────────────────────────

  // All 26 syndromes are zero: what a reader checks
  ghost predicate Sound(c: seq<Octet>) {
    forall k | 0 <= k < CORRECTION :: Eval(GF, c, Pow(k)) == ZERO
  }

  lemma MultipleIsSound(c: seq<Octet>)
    requires IsMultiple(GF, c, G)
    ensures Sound(c)
  {
    hide IsField, Eval, Mul, Plus, Factors, Pow;
    GFIsField();
    var q: seq<Octet> :| |q| + |G| - 1 == |c| && c == Product(GF, q, G);
    forall k | 0 <= k < CORRECTION
      ensures Eval(GF, c, Pow(k)) == ZERO
    {
      assert Roots(CORRECTION)[k] == Pow(k);
      FactorsRoots(GF, Roots(CORRECTION), k);
      EvalProduct(GF, q, G, Pow(k));
      ProductLaws(Eval(GF, q, Pow(k)), ZERO, ZERO);
    }
  }

  lemma SoundRoots(c: seq<Octet>)
    ensures Sound(c) ==> forall z :: z in Roots(CORRECTION) ==> Eval(GF, c, z) == ZERO
  {
    hide Eval, Pow;
  }

  // No other 26 bytes after the same data pass the check
  lemma CorrectionUnique(d: seq<Octet>, r: seq<Octet>, s: seq<Octet>)
    requires |r| == |s| == CORRECTION && Sound(d + r) && Sound(d + s)
    ensures r == s
  {
    GFIsField();
    var zs := Roots(CORRECTION);
    RootsDistinct(CORRECTION);
    SoundRoots(d + r);
    SoundRoots(d + s);
    OnlyRemainder(GF, d, r, s, zs);
  }

  method Codeword(s: seq<Byte>) returns (c: seq<Octet>)
    requires |s| <= DATA - 2
    ensures |c| == DATA + CORRECTION && c[..DATA] == Block(s) && Text(c[..DATA]) == s
    ensures IsMultiple(GF, c, G) && Sound(c)
    ensures forall r: seq<Octet> :: |r| == CORRECTION && Sound(c[..DATA] + r) ==> r == c[DATA..]
  {
    var t := new Tables();
    var g := Generator(t);
    var d := Data(s);
    c := Correct(t, g, d);
    TextOfBlock(s);
    MultipleIsSound(c);
    forall r: seq<Octet> | |r| == CORRECTION && Sound(c[..DATA] + r)
      ensures r == c[DATA..]
    {
      assert c == c[..DATA] + c[DATA..];
      CorrectionUnique(c[..DATA], r, c[DATA..]);
    }
  }
}
