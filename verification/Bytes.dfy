/** Bytes as numbers, and numbers as bits. */
module Bytes {

  type Byte = x: int | 0 <= x < 256

  // v >> n
  function Shr(v: nat, n: nat): nat
    decreases v, n
  {
    if n == 0 then v else Shr(v / 2, n - 1)
  }

  lemma {:induction false} ShrStep(v: nat, n: nat)
    ensures Shr(v, n) / 2 == Shr(v, n + 1)
    decreases n
  {
    if n > 0 {
      ShrStep(v / 2, n - 1);
    }
  }

  // The n low bits of v, the highest first
  function BitsOf(v: nat, n: nat): (b: seq<bool>)
    ensures |b| == n
    decreases v, n
  {
    if n == 0 then [] else BitsOf(v / 2, n - 1) + [v % 2 == 1]
  }

  // The number those bits write
  function NumberOf(b: seq<bool>): nat {
    if b == [] then 0 else 2 * NumberOf(b[..|b| - 1]) + (if b[|b| - 1] then 1 else 0)
  }

  lemma {:induction false} NumberOfBits(v: nat, n: nat)
    requires Shr(v, n) == 0
    ensures NumberOf(BitsOf(v, n)) == v
    decreases n
  {
    if n > 0 {
      NumberOfBits(v / 2, n - 1);
      assert BitsOf(v, n)[..n - 1] == BitsOf(v / 2, n - 1);
    }
  }

  lemma ByteShr(v: Byte)
    ensures Shr(v, 8) == 0
  {
    ShrFour(v);
    ShrFour(v / 16);
    ShrSum(v, 4, 4);
  }

  lemma ShrFour(v: nat)
    ensures Shr(v, 4) == v / 16
  {
    assert Shr(v, 4) == Shr(v / 2, 3);
    assert Shr(v / 2, 3) == Shr(v / 4, 2);
    assert Shr(v / 4, 2) == Shr(v / 8, 1);
    assert Shr(v / 8, 1) == v / 16;
  }

  lemma {:induction false} ShrSum(v: nat, m: nat, n: nat)
    ensures Shr(v, m + n) == Shr(Shr(v, m), n)
    decreases m
  {
    if m > 0 {
      ShrSum(v / 2, m - 1, n);
    }
  }

  // The exclusive or of the n low bits
  function XorBits(a: nat, b: nat, n: nat): nat
    decreases a + b, n
  {
    if n == 0 then 0 else 2 * XorBits(a / 2, b / 2, n - 1) + if a % 2 == b % 2 then 0 else 1
  }

  function Power2(n: nat): (p: nat)
    ensures p > 0
  {
    if n == 0 then 1 else 2 * Power2(n - 1)
  }

  lemma {:induction false} XorBitsTwice(a: nat, b: nat, n: nat)
    requires a < Power2(n)
    ensures XorBits(a, b, n) < Power2(n) && XorBits(XorBits(a, b, n), b, n) == a
    decreases n
  {
    if n > 0 {
      XorBitsTwice(a / 2, b / 2, n - 1);
      var x := XorBits(a, b, n);
      assert x / 2 == XorBits(a / 2, b / 2, n - 1) && x % 2 == if a % 2 == b % 2 then 0 else 1;
    }
  }

  function Xor(a: Byte, b: Byte): (x: Byte)
    ensures x == XorBits(a, b, 8)
  {
    ByteBound();
    XorBitsTwice(a, b, 8);
    XorBits(a, b, 8)
  }

  lemma ByteBound()
    ensures Power2(8) == 256
  {
    assert Power2(4) == 2 * Power2(3) == 4 * Power2(2) == 8 * Power2(1) == 16;
    assert Power2(8) == 2 * Power2(7) == 4 * Power2(6) == 8 * Power2(5) == 16 * Power2(4);
  }

  lemma XorTwice(a: Byte, b: Byte)
    ensures Xor(Xor(a, b), b) == a
  {
    ByteBound();
    XorBitsTwice(a, b, 8);
  }

  // Each bit is set when just one of the two is
  lemma {:induction false} XorBitsAt(a: nat, b: nat, n: nat, k: nat)
    requires k < n
    ensures Shr(XorBits(a, b, n), k) % 2 == if Shr(a, k) % 2 == Shr(b, k) % 2 then 0 else 1
    decreases n
  {
    var x := XorBits(a, b, n);
    assert x / 2 == XorBits(a / 2, b / 2, n - 1) && x % 2 == if a % 2 == b % 2 then 0 else 1;
    if k > 0 {
      XorBitsAt(a / 2, b / 2, n - 1, k - 1);
    }
  }

  lemma XorAt(a: Byte, b: Byte, k: nat)
    requires k < 8
    ensures Shr(Xor(a, b), k) % 2 == if Shr(a, k) % 2 == Shr(b, k) % 2 then 0 else 1
  {
    XorBitsAt(a, b, 8, k);
  }

  // ── Shifting bits in and out ───────────────────────────────────────────────

  // The high bits, then the low ones
  lemma {:induction false} BitsSplit(v: nat, m: nat, n: nat)
    ensures BitsOf(v, m + n) == BitsOf(Shr(v, n), m) + BitsOf(v, n)
    decreases n
  {
    if n == 0 {
      assert BitsOf(v, m) + [] == BitsOf(v, m);
    } else {
      BitsSplit(v / 2, m, n - 1);
    }
  }

  lemma {:induction false} BitsShifted(a: nat, c: nat, n: nat, w: nat)
    requires c < Power2(w)
    ensures BitsOf(a * Power2(w) + c, n + w) == BitsOf(a, n) + BitsOf(c, w)
    decreases w
  {
    if w == 0 {
      assert BitsOf(a, n) + [] == BitsOf(a, n);
    } else {
      var p := Power2(w - 1);
      assert a * Power2(w) == 2 * (a * p);
      assert (2 * (a * p) + c) / 2 == a * p + c / 2 && (2 * (a * p) + c) % 2 == c % 2;
      BitsShifted(a, c / 2, n, w - 1);
    }
  }

  lemma HalfOfRemainder(x: nat, p: nat)
    requires p > 0
    ensures x % (2 * p) / 2 == x / 2 % p && x % (2 * p) % 2 == x % 2
  {
    var q, r := x / (2 * p), x % (2 * p);
    assert x == q * (2 * p) + r;
    assert q * (2 * p) == 2 * (q * p);
    assert x / 2 == q * p + r / 2;
    RemainderIs(q, p, r / 2);
  }

  lemma RemainderIs(q: nat, p: nat, r: nat)
    requires r < p
    ensures (q * p + r) % p == r
  {
    var x := q * p + r;
    var d := x / p - q;
    assert x == x / p * p + x % p;
    assert d * p == r - x % p;
  }

  // The low bits are in the remainder
  lemma {:induction false} BitsOfRemainder(x: nat, n: nat, m: nat)
    requires n <= m
    ensures BitsOf(x % Power2(m), n) == BitsOf(x, n)
    decreases n
  {
    if n > 0 {
      HalfOfRemainder(x, Power2(m - 1));
      BitsOfRemainder(x / 2, n - 1, m - 1);
    }
  }
}
