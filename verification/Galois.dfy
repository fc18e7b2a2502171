/** The field GF(256) behind the panel's QR encoder (web/i18n.js): bytes added
    by exclusive or, and multiplied through tables of powers and logarithms of
    2 modulo x^8 + x^4 + x^3 + x^2 + 1 (285). The tables are right because 2
    has order exactly 255, so that its powers are all the nonzero bytes. */
module Galois {

  // A byte as the encoder builds and shifts it: its bits, the highest first
  datatype Octet = Octet(b7: bool, b6: bool, b5: bool, b4: bool, b3: bool, b2: bool, b1: bool, b0: bool)

  const ZERO := Octet(false, false, false, false, false, false, false, false)
  const ONE := Octet(false, false, false, false, false, false, false, true)

  function Push(v: nat, b: bool): (w: nat)
    ensures w <= 2 * v + 1
  {
    2 * v + (if b then 1 else 0)
  }

  function Value(x: Octet): (v: nat)
    ensures v < 256
  {
    Push(Push(Push(Push(Push(Push(Push(Push(0, x.b7), x.b6), x.b5), x.b4), x.b3), x.b2), x.b1), x.b0)
  }

  lemma PushInjective(v: nat, b: bool, w: nat, c: bool)
    requires Push(v, b) == Push(w, c)
    ensures v == w && b == c
  {
  }

  lemma ValueInjective(x: Octet, y: Octet)
    requires Value(x) == Value(y)
    ensures x == y
  {
    var x7, y7 := Push(0, x.b7), Push(0, y.b7);
    var x6, y6 := Push(x7, x.b6), Push(y7, y.b6);
    var x5, y5 := Push(x6, x.b5), Push(y6, y.b5);
    var x4, y4 := Push(x5, x.b4), Push(y5, y.b4);
    var x3, y3 := Push(x4, x.b3), Push(y4, y.b3);
    var x2, y2 := Push(x3, x.b2), Push(y3, y.b2);
    var x1, y1 := Push(x2, x.b1), Push(y2, y.b1);
    PushInjective(x1, x.b0, y1, y.b0);
    PushInjective(x2, x.b1, y2, y.b1);
    PushInjective(x3, x.b2, y3, y.b2);
    PushInjective(x4, x.b3, y4, y.b3);
    PushInjective(x5, x.b4, y5, y.b4);
    PushInjective(x6, x.b5, y6, y.b5);
    PushInjective(x7, x.b6, y7, y.b6);
    PushInjective(0, x.b7, 0, y.b7);
  }

  // Exclusive or
  function Plus(x: Octet, y: Octet): Octet {
    Octet(x.b7 != y.b7, x.b6 != y.b6, x.b5 != y.b5, x.b4 != y.b4,
          x.b3 != y.b3, x.b2 != y.b2, x.b1 != y.b1, x.b0 != y.b0)
  }

  // x << 1 ^ (x & 128 ? 285 : 0): 285 flips bits 0, 2, 3 and 4 and takes the carry away
  function Twice(x: Octet): Octet {
    Octet(x.b6, x.b5, x.b4, x.b3 != x.b7, x.b2 != x.b7, x.b1 != x.b7, x.b0, x.b7)
  }

  // y times 2^k
  function Raised(y: Octet, k: nat): Octet
    decreases k
  {
    if k == 0 then y else Twice(Raised(y, k - 1))
  }

  function Pow(k: nat): Octet {
    Raised(ONE, k)
  }

  lemma PlusCommutes(a: Octet, b: Octet)
    ensures Plus(a, b) == Plus(b, a)
  {
  }

  lemma PlusAssociates(a: Octet, b: Octet, c: Octet)
    ensures Plus(Plus(a, b), c) == Plus(a, Plus(b, c))
  {
  }

  lemma PlusZero(a: Octet)
    ensures Plus(a, ZERO) == a && Plus(a, a) == ZERO
  {
  }

  // ── The product by a power of 2 ────────────────────────────────────────────

  lemma TwicePlus(a: Octet, b: Octet)
    ensures Twice(Plus(a, b)) == Plus(Twice(a), Twice(b))
  {
  }

  lemma TwiceInjective(a: Octet, b: Octet)
    ensures Twice(a) == Twice(b) ==> a == b
  {
  }

  lemma {:induction false} RaisedPlus(a: Octet, b: Octet, k: nat)
    ensures Raised(Plus(a, b), k) == Plus(Raised(a, k), Raised(b, k))
  {
    if k > 0 {
      RaisedPlus(a, b, k - 1);
      TwicePlus(Raised(a, k - 1), Raised(b, k - 1));
    }
  }

  lemma {:induction false} RaisedSum(y: Octet, i: nat, j: nat)
    ensures Raised(y, i + j) == Raised(Raised(y, i), j)
  {
    if j > 0 {
      RaisedSum(y, i, j - 1);
    }
  }

  lemma {:induction false} RaisedInjective(a: Octet, b: Octet, k: nat)
    ensures Raised(a, k) == Raised(b, k) ==> a == b
  {
    if k > 0 {
      TwiceInjective(Raised(a, k - 1), Raised(b, k - 1));
      RaisedInjective(a, b, k - 1);
    }
  }

  lemma {:induction false} RaisedZero(k: nat)
    ensures Raised(ZERO, k) == ZERO
  {
    if k > 0 {
      RaisedZero(k - 1);
    }
  }

  lemma PowSum(i: nat, j: nat)
    ensures Raised(Pow(i), j) == Pow(i + j)
  {
    RaisedSum(ONE, i, j);
  }

  lemma PowNonZero(k: nat)
    ensures Pow(k) != ZERO
  {
    RaisedZero(k);
    RaisedInjective(ONE, ZERO, k);
  }

  // ── The order of 2 ─────────────────────────────────────────────────────────

  function Four(y: Octet): Octet {
    Twice(Twice(Twice(Twice(y))))
  }

  lemma RaisedFour(y: Octet)
    ensures Raised(y, 4) == Four(y)
  {
    assert Raised(y, 1) == Twice(y);
    assert Raised(y, 2) == Twice(Twice(y));
    assert Raised(y, 3) == Twice(Twice(Twice(y)));
  }

  // One of the fifteen hops of 17 from 2^0 to 2^255
  lemma Hop(k: nat, y: Octet, z: Octet)
    requires Pow(k) == y && Twice(Four(Four(Four(Four(y))))) == z
    ensures Pow(k + 17) == z
  {
    RaisedFour(y);
    RaisedFour(Four(y));
    RaisedFour(Four(Four(y)));
    RaisedFour(Four(Four(Four(y))));
    PowSum(k, 4);
    PowSum(k + 4, 4);
    PowSum(k + 8, 4);
    PowSum(k + 12, 4);
  }

  lemma Pow51()
    ensures Pow(51) == Octet(false, false, false, false, true, false, true, false)
  {
    Hop(0, Octet(false, false, false, false, false, false, false, true),
      Octet(true, false, false, true, true, false, false, false));
    Hop(17, Octet(true, false, false, true, true, false, false, false),
      Octet(false, true, false, false, true, true, true, false));
    Hop(34, Octet(false, true, false, false, true, true, true, false),
      Octet(false, false, false, false, true, false, true, false));
  }

  lemma Pow102()
    ensures Pow(102) == Octet(false, true, false, false, false, true, false, false)
  {
    Pow51();
    Hop(51, Octet(false, false, false, false, true, false, true, false),
      Octet(true, false, false, true, true, false, false, true));
    Hop(68, Octet(true, false, false, true, true, false, false, true),
      Octet(true, true, false, true, false, true, true, false));
    Hop(85, Octet(true, true, false, true, false, true, true, false),
      Octet(false, true, false, false, false, true, false, false));
  }

  lemma Pow153()
    ensures Pow(153) == Octet(true, false, false, true, false, false, true, false)
  {
    Pow102();
    Hop(102, Octet(false, true, false, false, false, true, false, false),
      Octet(true, false, false, true, false, false, true, true));
    Hop(119, Octet(true, false, false, true, false, false, true, true),
      Octet(false, true, false, false, true, true, true, true));
    Hop(136, Octet(false, true, false, false, true, true, true, true),
      Octet(true, false, false, true, false, false, true, false));
  }

  lemma Pow204()
    ensures Pow(204) == Octet(true, true, false, true, true, true, false, true)
  {
    Pow153();
    Hop(153, Octet(true, false, false, true, false, false, true, false),
      Octet(true, true, false, true, false, true, true, true));
    Hop(170, Octet(true, true, false, true, false, true, true, true),
      Octet(true, true, false, true, true, true, false, false));
    Hop(187, Octet(true, true, false, true, true, true, false, false),
      Octet(true, true, false, true, true, true, false, true));
  }

  lemma Pow255()
    ensures Pow(255) == Octet(false, false, false, false, false, false, false, true)
  {
    Pow204();
    Hop(204, Octet(true, true, false, true, true, true, false, true),
      Octet(false, true, false, false, false, true, false, true));
    Hop(221, Octet(false, true, false, false, false, true, false, true),
      Octet(false, false, false, false, true, false, true, true));
    Hop(238, Octet(false, false, false, false, true, false, true, true),
      Octet(false, false, false, false, false, false, false, true));
  }

  lemma {:induction false} PowPeriodic(p: nat, k: nat, r: nat)
    requires Pow(p) == ONE
    ensures Pow(p * k + r) == Pow(r)
  {
    if k == 0 {
      assert p * k + r == r;
    } else {
      PowPeriodic(p, k - 1, r);
      PowSum(p, p * (k - 1) + r);
      PowSum(0, p * (k - 1) + r);
      assert p * k + r == p + (p * (k - 1) + r);
    }
  }

  // A proper divisor of 255 divides 255 / 3, 255 / 5 or 255 / 17
  lemma ProperDivisor(p: nat, k: nat) returns (m: nat, c: nat)
    requires p * k == 255 && k > 1
    ensures m in {15, 51, 85} && p * c == m
  {
    SmallFactor(p, k);
    if k % 3 == 0 {
      m, c := 85, k / 3;
      Regroup(p, 3, c);
    } else if k % 5 == 0 {
      m, c := 51, k / 5;
      Regroup(p, 5, c);
    } else {
      m, c := 15, k / 17;
      Regroup(p, 17, c);
    }
  }

  lemma Regroup(p: nat, f: nat, c: nat)
    ensures p * (f * c) == f * (p * c)
  {
  }

  lemma SmallFactor(p: nat, k: nat)
    requires p * k == 255 && k > 1
    ensures k % 3 == 0 || k % 5 == 0 || k % 17 == 0
  {
    if p >= 16 && k >= 16 {
      AtLeastSquare(p, k, 16);
    } else if p < 16 {
      SmallCofactor(p, k);
    }
  }

  lemma SmallCofactor(p: nat, k: nat)
    requires p < 16 && p * k == 255
    ensures k in {17, 51, 85, 255}
  {
  }

  lemma AtLeastSquare(p: nat, k: nat, low: nat)
    requires low <= p && low <= k
    ensures low * low <= p * k
  {
  }

  lemma {:induction false} LeastPeriod(p: nat) returns (q: nat)
    requires 0 < p && Pow(p) == ONE
    ensures 0 < q <= p && Pow(q) == ONE
    ensures forall r :: 0 < r < q ==> Pow(r) != ONE
  {
    if r :| 0 < r < p && Pow(r) == ONE {
      q := LeastPeriod(r);
    } else {
      q := p;
    }
  }

  lemma PeriodDivides(q: nat, t: nat)
    requires 0 < q && Pow(q) == ONE && Pow(t) == ONE
    requires forall r :: 0 < r < q ==> Pow(r) != ONE
    ensures q * (t / q) == t
  {
    PowPeriodic(q, t / q, t % q);
  }

  // 2 has order 255
  lemma Order(p: nat)
    requires 0 < p < 255
    ensures Pow(p) != ONE && Pow(255) == ONE
  {
    Pow255();
    if Pow(p) == ONE {
      var q := LeastPeriod(p);
      PeriodDivides(q, 255);
      var m, c := ProperDivisor(q, 255 / q);
      PowPeriodic(q, c, 0);
      NotOne(m);
      assert false;
    }
  }

  lemma Pow17()
    ensures Pow(17) == Octet(true, false, false, true, true, false, false, false)
  {
    Hop(0, ONE, Octet(true, false, false, true, true, false, false, false));
  }

  lemma NotOne(m: nat)
    requires m in {15, 51, 85}
    ensures Pow(m) != ONE
  {
    if Pow(m) == ONE {
      if m == 51 {
        Pow51();
      } else {
        Pow17();
        PowSum(m, 17 - m % 17);
        RaisedTwo(ONE);
        if m == 85 {
          Pow102();
        }
      }
      assert false;
    }
  }

  lemma RaisedTwo(y: Octet)
    ensures Raised(y, 2) == Twice(Twice(y))
  {
    assert Raised(y, 1) == Twice(y);
  }

  lemma PowInjective(i: nat, j: nat)
    requires i < j < 255
    ensures Pow(i) != Pow(j)
  {
    Order(j - i);
    RaisedSum(ONE, j - i, i);
    RaisedInjective(Pow(j - i), ONE, i);
  }

  // ── Every nonzero byte is a power of 2 ─────────────────────────────────────

  ghost function Naturals(n: nat): (s: set<nat>)
    ensures |s| == n
    ensures forall v: nat :: v in s <==> v < n
  {
    if n == 0 then {} else Naturals(n - 1) + {n - 1}
  }

  ghost function PowersBelow(n: nat): set<nat> {
    set k: nat | k < n :: Value(Pow(k))
  }

  lemma {:induction false} PowersCount(n: nat)
    requires n <= 255
    ensures |PowersBelow(n)| == n
  {
    if n > 0 {
      PowersCount(n - 1);
      NewPower(n - 1);
      assert PowersBelow(n) == PowersBelow(n - 1) + {Value(Pow(n - 1))};
    }
  }

  lemma NewPower(n: nat)
    requires n < 255
    ensures Value(Pow(n)) !in PowersBelow(n)
  {
    if k: nat :| k < n && Value(Pow(k)) == Value(Pow(n)) {
      PowInjective(k, n);
      ValueInjective(Pow(k), Pow(n));
    }
  }

  lemma PowersNonZero(n: nat)
    ensures PowersBelow(n) <= Naturals(256) - {0}
  {
    forall k: nat | k < n
      ensures 0 < Value(Pow(k)) < 256
    {
      PowNonZero(k);
      if Value(Pow(k)) == 0 {
        ValueInjective(Pow(k), ZERO);
      }
    }
  }

  lemma FullSubset(s: set<nat>, t: set<nat>)
    requires s <= t && |s| == |t|
    ensures s == t
  {
    assert t == s + (t - s);
    assert t - s == {};
  }

  lemma AllNonZero(v: nat, n: nat)
    requires 0 < v < 256 && n == 255
    ensures v in PowersBelow(n)
  {
    PowersCount(n);
    PowersNonZero(n);
    FullSubset(PowersBelow(n), Naturals(n + 1) - {0});
  }

  lemma IsPower(x: Octet)
    requires x != ZERO
    ensures exists k: nat :: k < 255 && Pow(k) == x
  {
    if Value(x) == 0 {
      ValueInjective(x, ZERO);
    }
    AllNonZero(Value(x), 255);
    var k: nat :| k < 255 && Value(x) == Value(Pow(k));
    ValueInjective(x, Pow(k));
  }

  // The exponent below 255: what the table lg holds
  ghost function Log(x: Octet): (k: nat)
    requires x != ZERO
    ensures k < 255 && Pow(k) == x
  {
    IsPower(x);
    var k: nat :| k < 255 && Pow(k) == x;
    k
  }

  lemma LogOfPow(k: nat)
    requires k < 255
    ensures Pow(k) != ZERO && Log(Pow(k)) == k
  {
    PowNonZero(k);
    var l := Log(Pow(k));
    if l < k {
      PowInjective(l, k);
    } else if k < l {
      PowInjective(k, l);
    }
  }

  lemma PowModulo(k: nat)
    ensures Pow(k % 255) == Pow(k)
  {
    Pow255();
    PowPeriodic(255, k / 255, k % 255);
  }

  // ── The product, and that it makes the bytes a field ───────────────────────

  ghost function Mul(a: Octet, y: Octet): Octet {
    if a == ZERO then ZERO else Raised(y, Log(a))
  }

  lemma MulPowers(i: nat, j: nat)
    ensures Mul(Pow(i), Pow(j)) == Pow(i + j)
  {
    PowNonZero(i);
    var l := Log(Pow(i));
    PowSum(j, l);
    PowSum(l, j);
    PowSum(i, j);
  }

  lemma MulZero(a: Octet)
    ensures Mul(a, ZERO) == ZERO && Mul(ZERO, a) == ZERO
  {
    if a != ZERO {
      RaisedZero(Log(a));
    }
  }

  lemma MulLogs(a: Octet, b: Octet)
    requires a != ZERO && b != ZERO
    ensures Mul(a, b) == Pow(Log(a) + Log(b))
  {
    MulPowers(Log(a), Log(b));
  }

  lemma MulOne(a: Octet)
    ensures Mul(a, ONE) == a
  {
    if a == ZERO {
      MulZero(ONE);
    } else {
      MulPowers(Log(a), 0);
    }
  }

  lemma MulCommutes(a: Octet, b: Octet)
    ensures Mul(a, b) == Mul(b, a)
  {
    if a == ZERO {
      MulZero(b);
    } else if b == ZERO {
      MulZero(a);
    } else {
      MulLogs(a, b);
      MulLogs(b, a);
    }
  }

  lemma MulAssociates(a: Octet, b: Octet, c: Octet)
    ensures Mul(Mul(a, b), c) == Mul(a, Mul(b, c))
  {
    if a == ZERO {
      MulZero(b);
      MulZero(c);
      MulZero(Mul(b, c));
    } else if b == ZERO {
      MulZero(a);
      MulZero(c);
    } else if c == ZERO {
      MulZero(a);
      MulZero(b);
      MulZero(Mul(a, b));
    } else {
      MulThree(Log(a), Log(b), Log(c));
    }
  }

  lemma MulThree(i: nat, j: nat, k: nat)
    ensures Mul(Mul(Pow(i), Pow(j)), Pow(k)) == Mul(Pow(i), Mul(Pow(j), Pow(k)))
  {
    MulLeft(i, j, k);
    MulRight(i, j, k);
  }

  lemma MulRight(i: nat, j: nat, k: nat)
    ensures Mul(Pow(i), Mul(Pow(j), Pow(k))) == Pow(i + (j + k))
  {
    MulPowers(j, k);
    MulPowers(i, j + k);
  }

  lemma MulLeft(i: nat, j: nat, k: nat)
    ensures Mul(Mul(Pow(i), Pow(j)), Pow(k)) == Pow(i + (j + k))
  {
    MulPowers(i, j);
    MulPowers(i + j, k);
  }

  lemma MulPlus(a: Octet, y: Octet, z: Octet)
    ensures Mul(a, Plus(y, z)) == Plus(Mul(a, y), Mul(a, z))
  {
    if a == ZERO {
      PlusZero(ZERO);
    } else {
      RaisedPlus(y, z, Log(a));
    }
  }

  lemma NoZeroDivisors(a: Octet, b: Octet)
    requires a != ZERO && b != ZERO
    ensures Mul(a, b) != ZERO
  {
    MulPowers(Log(a), Log(b));
    PowNonZero(Log(a) + Log(b));
  }

  // ── The tables ─────────────────────────────────────────────────────────────

  // ex and lg, and the product that looks them up
  class Tables {
    const ex: array<Octet>
    var lg: map<Octet, nat>

    ghost predicate Valid()
      reads this, ex
    {
      && ex.Length == 255
      && (forall i :: 0 <= i < 255 ==> ex[i] == Pow(i))
      && (forall x: Octet :: x in lg <==> x != ZERO)
      && (forall x: Octet :: x in lg ==> lg[x] == Log(x))
    }

    constructor ()
      ensures Valid() && fresh(ex)
    {
      ex := new Octet[255](i => ZERO);
      lg := map[];
      new;
      var i, x := 0, ONE;
      while i < 255
        invariant 0 <= i <= 255 && x == Pow(i)
        invariant forall j :: 0 <= j < i ==> ex[j] == Pow(j)
        invariant LogsBelow(lg, i)
      {
        LogsGrow(lg, i);
        ex[i] := x;
        lg := lg[x := i];
        i, x := i + 1, Twice(x);
      }
      LogsDone(lg);
    }

    method Product(a: Octet, y: Octet) returns (p: Octet)
      requires Valid()
      ensures p == Mul(a, y)
    {
      hide Mul, Pow, Log;
      if a != ZERO && y != ZERO {
        p := ex[(lg[a] + lg[y]) % 255];
        PowModulo(lg[a] + lg[y]);
        MulLogs(a, y);
      } else {
        p := ZERO;
        MulZero(a);
        MulZero(y);
      }
    }
  }

  // The logarithm table after i rounds
  ghost predicate LogsBelow(lg: map<Octet, nat>, i: nat) {
    && (forall x: Octet :: x in lg ==> x != ZERO && lg[x] == Log(x))
    && (forall x: Octet :: x != ZERO && Log(x) < i ==> x in lg)
  }

  lemma LogsGrow(lg: map<Octet, nat>, i: nat)
    requires LogsBelow(lg, i) && i < 255
    ensures LogsBelow(lg[Pow(i) := i], i + 1)
  {
    LogOfPow(i);
  }

  lemma LogsDone(lg: map<Octet, nat>)
    requires LogsBelow(lg, 255)
    ensures forall x: Octet :: x in lg <==> x != ZERO
  {
  }
}
