/** How far apart the QR code's blocks are: two that a reader accepts differ in
    27 bytes at least, so 13 wrong ones can be put right (section 7.5.2 of
    ISO/IEC 18004). */
module QrDistance {
  import opened Bytes
  import opened Galois
  import opened Polynomials
  import opened QrCode

  // ── Weighted sums of values ────────────────────────────────────────────────

  function Total<T>(f: Field<T>, v: seq<T>): T {
    if v == [] then f.zero else f.plus(Total(f, v[..|v| - 1]), v[|v| - 1])
  }

  function Scaled<T>(f: Field<T>, c: T, v: seq<T>): (s: seq<T>)
    ensures |s| == |v|
  {
    seq(|v|, p requires 0 <= p < |v| => f.mul(c, v[p]))
  }

  function Times<T>(f: Field<T>, v: seq<T>, xs: seq<T>): (s: seq<T>)
    requires |v| == |xs|
    ensures |s| == |v|
  {
    seq(|v|, p requires 0 <= p < |v| => f.mul(v[p], xs[p]))
  }

  // v[p] * xs[p]^k
  function Powered<T>(f: Field<T>, v: seq<T>, xs: seq<T>, k: nat): (s: seq<T>)
    requires |v| == |xs|
    ensures |s| == |v|
    decreases k
  {
    if k == 0 then v else Times(f, Powered(f, v, xs, k - 1), xs)
  }

  // v[p] * l(xs[p])
  function Weighted<T>(f: Field<T>, v: seq<T>, xs: seq<T>, l: seq<T>): (s: seq<T>)
    requires |v| == |xs|
    ensures |s| == |v|
  {
    seq(|v|, p requires 0 <= p < |v| => f.mul(v[p], Eval(f, l, xs[p])))
  }

  lemma {:induction false} TotalScaled<T(!new)>(f: Field<T>, c: T, v: seq<T>)
    requires IsField(f)
    ensures Total(f, Scaled(f, c, v)) == f.mul(c, Total(f, v))
  {
    if v == [] {
      Use(f, c, f.zero, f.zero);
    } else {
      var n := |v| - 1;
      assert Scaled(f, c, v)[..n] == Scaled(f, c, v[..n]);
      TotalScaled(f, c, v[..n]);
      Use(f, c, Total(f, v[..n]), v[n]);
    }
  }

  lemma {:induction false} TotalSum<T(!new)>(f: Field<T>, v: seq<T>, w: seq<T>)
    requires IsField(f) && |v| == |w|
    ensures Total(f, Sum(f, v, w)) == f.plus(Total(f, v), Total(f, w))
  {
    if v == [] {
      Use(f, f.zero, f.zero, f.zero);
    } else {
      var n := |v| - 1;
      assert Sum(f, v, w)[..n] == Sum(f, v[..n], w[..n]);
      TotalSum(f, v[..n], w[..n]);
      Pairs(f, Total(f, v[..n]), Total(f, w[..n]), v[n], w[n]);
    }
  }

  lemma {:induction false} TotalZero<T(!new)>(f: Field<T>, v: seq<T>)
    requires IsField(f) && Null(f, v)
    ensures Total(f, v) == f.zero
  {
    if v != [] {
      TotalZero(f, v[..|v| - 1]);
      Use(f, f.zero, f.zero, f.zero);
    }
  }

  // A sum with one term that is not zero
  lemma {:induction false} TotalOne<T(!new)>(f: Field<T>, v: seq<T>, i: nat)
    requires IsField(f) && i < |v| && forall p | 0 <= p < |v| && p != i :: v[p] == f.zero
    ensures Total(f, v) == v[i]
  {
    var n := |v| - 1;
    if i == n {
      TotalZero(f, v[..n]);
      Use(f, f.zero, v[n], f.zero);
      Use(f, v[n], f.zero, f.zero);
    } else {
      TotalOne(f, v[..n], i);
      Use(f, v[i], f.zero, f.zero);
    }
  }

  lemma {:induction false} PoweredOnce<T>(f: Field<T>, v: seq<T>, xs: seq<T>, k: nat)
    requires |v| == |xs|
    ensures Powered(f, Times(f, v, xs), xs, k) == Powered(f, v, xs, k + 1)
    decreases k
  {
    if k > 0 {
      PoweredOnce(f, v, xs, k - 1);
    }
  }

  lemma WeightedStep<T(!new)>(f: Field<T>, v: seq<T>, xs: seq<T>, l: seq<T>, c: T)
    requires IsField(f) && |v| == |xs|
    ensures Weighted(f, v, xs, l + [c]) == Sum(f, Weighted(f, Times(f, v, xs), xs, l), Scaled(f, c, v))
  {
    forall p | 0 <= p < |v|
      ensures Weighted(f, v, xs, l + [c])[p] == Sum(f, Weighted(f, Times(f, v, xs), xs, l), Scaled(f, c, v))[p]
    {
      EvalStep(f, l, c, xs[p]);
      var e := Eval(f, l, xs[p]);
      Use(f, v[p], f.mul(xs[p], e), c);
      Use(f, v[p], xs[p], e);
      Use(f, v[p], c, c);
    }
  }

  // With no moment below the length of l, nothing is left of the weighted sum
  lemma {:induction false} WeightedVanishes<T(!new)>(f: Field<T>, v: seq<T>, xs: seq<T>, l: seq<T>)
    requires IsField(f) && |v| == |xs|
    requires forall k | 0 <= k < |l| :: Total(f, Powered(f, v, xs, k)) == f.zero
    ensures Total(f, Weighted(f, v, xs, l)) == f.zero
    decreases |l|
  {
    if l == [] {
      forall p | 0 <= p < |v| ensures Weighted(f, v, xs, l)[p] == f.zero {
        assert Eval(f, l, xs[p]) == f.zero;
        Use(f, v[p], f.zero, f.zero);
      }
      TotalZero(f, Weighted(f, v, xs, l));
    } else {
      var n := |l| - 1;
      var w := Times(f, v, xs);
      forall k | 0 <= k < n ensures Total(f, Powered(f, w, xs, k)) == f.zero {
        PoweredOnce(f, v, xs, k);
      }
      WeightedVanishes(f, w, xs, l[..n]);
      assert l == l[..n] + [l[n]];
      WeightedStep(f, v, xs, l[..n], l[n]);
      TotalSum(f, Weighted(f, w, xs, l[..n]), Scaled(f, l[n], v));
      TotalScaled(f, l[n], v);
      assert Powered(f, v, xs, 0) == v;
      Use(f, l[n], f.zero, f.zero);
      Use(f, f.zero, f.zero, f.zero);
    }
  }

  // A product of factors is zero at its roots only
  lemma {:induction false} FactorsNonZero<T(!new)>(f: Field<T>, zs: seq<T>, a: T)
    requires IsField(f) && a !in zs && f.one != f.zero
    ensures Eval(f, Factors(f, zs), a) != f.zero
  {
    if zs == [] {
      assert [f.one][..0] == [];
      Use(f, a, f.zero, f.zero);
      Use(f, f.zero, f.one, f.zero);
      Use(f, f.one, f.zero, f.zero);
    } else {
      var n := |zs| - 1;
      FactorsNonZero(f, zs[..n], a);
      EvalTimesLinear(f, Factors(f, zs[..n]), zs[n], a);
      var e := Eval(f, Factors(f, zs[..n]), a);
      Use(f, e, f.plus(a, zs[n]), f.zero);
      if f.plus(a, zs[n]) == f.zero {
        SumZero(f, a, zs[n]);
      }
    }
  }

  // ── The places of a block ──────────────────────────────────────────────────

  // The power of x at each place: 2^(n-1), ..., 2, 1
  function Points(n: nat): (xs: seq<Octet>)
    ensures |xs| == n
  {
    seq(n, p requires 0 <= p < n => Pow(n - 1 - p))
  }

  // e[p] * 2^((n - 1 - p) * k)
  ghost function Terms(e: seq<Octet>, k: nat): (v: seq<Octet>)
    ensures |v| == |e|
  {
    seq(|e|, p requires 0 <= p < |e| => Mul(e[p], Pow(Steps(|e| - 1 - p, k))))
  }

  function Steps(a: nat, k: nat): nat {
    a * k
  }

  lemma StepsMore(a: nat, k: nat)
    ensures Steps(a, k + 1) == Steps(a, k) + a && Steps(a + 1, k) == Steps(a, k) + k && Steps(0, k) == 0 && Steps(a, 0) == 0
  {
  }

  lemma {:induction false} PoweredIsTerms(e: seq<Octet>, k: nat)
    ensures Powered(GF, e, Points(|e|), k) == Terms(e, k)
    decreases k
  {
    hide Mul, Pow, Steps;
    forall p | 0 <= p < |e| ensures Powered(GF, e, Points(|e|), k)[p] == Terms(e, k)[p] {
      var a := |e| - 1 - p;
      if k == 0 {
        StepsMore(a, 0);
        OneIsPow();
        MulOne(e[p]);
      } else {
        PoweredIsTerms(e, k - 1);
        StepsMore(a, k - 1);
        var b := Steps(a, k - 1);
        MulAssociates(e[p], Pow(b), Pow(a));
        MulPowers(b, a);
        GFIs(Mul(e[p], Pow(b)), Pow(a));
      }
    }
  }

  lemma OneIsPow()
    ensures Pow(0) == ONE && ONE != ZERO
  {
  }

  // The moment k of a block is its value at 2^k
  lemma {:induction false} TermsEval(e: seq<Octet>, k: nat)
    ensures Total(GF, Terms(e, k)) == Eval(GF, e, Pow(k))
  {
    if e != [] {
      hide Mul, Pow, Terms;
      var n, z := |e| - 1, Pow(k);
      TermsEval(e[..n], k);
      GFIsField();
      TermsStep(e, k);
      TotalScaled(GF, z, Terms(e[..n], k));
    }
  }

  lemma TermsStep(e: seq<Octet>, k: nat)
    requires e != []
    ensures var n := |e| - 1; Terms(e, k)[..n] == Scaled(GF, Pow(k), Terms(e[..n], k)) && Terms(e, k)[n] == e[n]
  {
    hide Mul, Pow, Steps;
    var n, z := |e| - 1, Pow(k);
    forall p | 0 <= p < n ensures Terms(e, k)[p] == Scaled(GF, z, Terms(e[..n], k))[p] {
      OneTerm(e[p], n - 1 - p, k);
    }
    StepsMore(0, k);
    OneIsPow();
    MulOne(e[n]);
  }

  lemma OneTerm(c: Octet, a: nat, k: nat)
    ensures Mul(c, Pow(Steps(a + 1, k))) == GF.mul(Pow(k), Mul(c, Pow(Steps(a, k))))
  {
    hide Mul, Pow, Steps;
    StepsMore(a, k);
    var b, z := Steps(a, k), Pow(k);
    MulPowers(b, k);
    MulAssociates(c, Pow(b), z);
    MulCommutes(Mul(c, Pow(b)), z);
    GFIs(z, Mul(c, Pow(b)));
  }

  // ── Distance ───────────────────────────────────────────────────────────────

  // How many places differ
  function Distance<T(==)>(c: seq<T>, d: seq<T>): nat
    requires |c| == |d|
  {
    if c == [] then 0
    else
      var n := |c| - 1;
      Distance(c[..n], d[..n]) + if c[n] == d[n] then 0 else 1
  }

  // The places that are not zero, but for one, as roots
  function Others(e: seq<Octet>, i: nat, n: nat): (zs: seq<Octet>)
    requires n <= |e|
  {
    if n == 0 then []
    else Others(e, i, n - 1) + if n - 1 != i && e[n - 1] != ZERO then [Pow(|e| - n)] else []
  }

  lemma {:induction false} OthersAre(e: seq<Octet>, i: nat, n: nat)
    requires n <= |e|
    ensures forall p | 0 <= p < n && p != i && e[p] != ZERO :: Points(|e|)[p] in Others(e, i, n)
    ensures forall z | z in Others(e, i, n) :: exists p | 0 <= p < n && p != i :: z == Points(|e|)[p]
  {
    hide Pow;
    if n > 0 {
      OthersAre(e, i, n - 1);
      assert Points(|e|)[n - 1] == Pow(|e| - n);
    }
  }

  lemma {:induction false} OthersCount(c: seq<Octet>, d: seq<Octet>, e: seq<Octet>, i: nat, n: nat)
    requires |c| == |d| == |e| && n <= |e| && forall p | 0 <= p < |e| :: e[p] == ZERO <==> c[p] == d[p]
    requires i < |e| && e[i] != ZERO
    ensures |Others(e, i, n)| + (if i < n then 1 else 0) == Distance(c[..n], d[..n])
  {
    if n > 0 {
      OthersCount(c, d, e, i, n - 1);
      assert c[..n][..n - 1] == c[..n - 1] && d[..n][..n - 1] == d[..n - 1];
    }
  }

  // No block but the null one is sound with fewer than 27 places not zero
  lemma LightIsNull(e: seq<Octet>, i: nat)
    requires |e| <= 255 && Sound(e) && i < |e| && |Others(e, i, |e|)| < CORRECTION
    ensures e[i] == ZERO
  {
    hide Eval, Factors, Pow, Mul;
    GFIsField();
    OneIsPow();
    var xs, zs := Points(|e|), Others(e, i, |e|);
    var l := Factors(GF, zs);
    OthersAre(e, i, |e|);
    forall k | 0 <= k < |l| ensures Total(GF, Powered(GF, e, xs, k)) == GF.zero {
      PoweredIsTerms(e, k);
      TermsEval(e, k);
    }
    WeightedVanishes(GF, e, xs, l);
    var w := Weighted(GF, e, xs, l);
    forall p | 0 <= p < |e| && p != i ensures w[p] == GF.zero {
      OtherVanishes(e, i, zs, p);
    }
    TotalOne(GF, w, i);
    PlaceNotOther(e, i, zs);
    FactorsNonZero(GF, zs, xs[i]);
    Use(GF, e[i], Eval(GF, l, xs[i]), GF.zero);
  }

  lemma OtherVanishes(e: seq<Octet>, i: nat, zs: seq<Octet>, p: nat)
    requires p < |e| && p != i && zs == Others(e, i, |e|)
    ensures GF.mul(e[p], Eval(GF, Factors(GF, zs), Points(|e|)[p])) == GF.zero
  {
    hide Eval, Factors, Pow, Mul;
    GFIsField();
    OthersAre(e, i, |e|);
    if e[p] == ZERO {
      Use(GF, Eval(GF, Factors(GF, zs), Points(|e|)[p]), e[p], GF.zero);
      Use(GF, e[p], Eval(GF, Factors(GF, zs), Points(|e|)[p]), GF.zero);
    } else {
      var k :| 0 <= k < |zs| && zs[k] == Points(|e|)[p];
      FactorsRoots(GF, zs, k);
      Use(GF, e[p], GF.zero, GF.zero);
    }
  }

  lemma PlaceNotOther(e: seq<Octet>, i: nat, zs: seq<Octet>)
    requires |e| <= 255 && i < |e| && zs == Others(e, i, |e|)
    ensures Points(|e|)[i] !in zs
  {
    hide Pow, Others, Points;
    OthersAre(e, i, |e|);
    if Points(|e|)[i] in zs {
      var p :| 0 <= p < |e| && p != i && Points(|e|)[i] == Points(|e|)[p];
      if p < i {
        PointsDiffer(|e|, p, i);
      } else {
        PointsDiffer(|e|, i, p);
      }
    }
  }

  lemma PointsDiffer(n: nat, p: nat, q: nat)
    requires p < q < n <= 255
    ensures Points(n)[p] != Points(n)[q]
  {
    hide Pow;
    PowInjective(n - 1 - q, n - 1 - p);
  }

  // Two different blocks that a reader accepts differ in 27 places at least
  lemma FarApart(c: seq<Octet>, d: seq<Octet>)
    requires |c| == |d| <= 255 && Sound(c) && Sound(d) && c != d
    ensures Distance(c, d) > CORRECTION
  {
    hide Eval, Pow, Mul, Plus;
    GFIsField();
    var e := Sum(GF, c, d);
    forall p | 0 <= p < |e| ensures e[p] == ZERO <==> c[p] == d[p] {
      Use(GF, c[p], d[p], ZERO);
      if e[p] == ZERO {
        SumZero(GF, c[p], d[p]);
      }
    }
    forall k | 0 <= k < CORRECTION ensures Eval(GF, e, Pow(k)) == ZERO {
      EvalSum(GF, c, d, Pow(k));
      Use(GF, ZERO, ZERO, ZERO);
    }
    var i :| 0 <= i < |c| && c[i] != d[i];
    OthersCount(c, d, e, i, |e|);
    assert c[..|e|] == c && d[..|e|] == d;
    if Distance(c, d) <= CORRECTION {
      LightIsNull(e, i);
    }
  }

  lemma {:induction false} Triangle<T>(c: seq<T>, w: seq<T>, d: seq<T>)
    requires |c| == |w| == |d|
    ensures Distance(c, d) <= Distance(c, w) + Distance(w, d)
  {
    if c != [] {
      var n := |c| - 1;
      Triangle(c[..n], w[..n], d[..n]);
    }
  }

  // Of whatever is read, one sound block at most is 13 wrong bytes away
  lemma ThirteenErrors(w: seq<Octet>, c: seq<Octet>, d: seq<Octet>)
    requires |w| == |c| == |d| <= 255 && Sound(c) && Sound(d)
    requires Distance(c, w) <= CORRECTION / 2 && Distance(w, d) <= CORRECTION / 2
    ensures c == d
  {
    Triangle(c, w, d);
    if c != d {
      FarApart(c, d);
    }
  }
}
