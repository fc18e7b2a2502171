/** Polynomials over a field where every element is its own opposite (as
    exclusive or makes it), written as coefficients, the highest first: the
    algebra behind the QR code's correction bytes. */
module Polynomials {

  datatype Field<!T> = Field(zero: T, one: T, plus: (T, T) -> T, mul: (T, T) -> T)

  ghost predicate Laws<T>(f: Field<T>, a: T, b: T, c: T) {
    && f.plus(a, b) == f.plus(b, a)
    && f.plus(f.plus(a, b), c) == f.plus(a, f.plus(b, c))
    && f.plus(a, f.zero) == a
    && f.plus(a, a) == f.zero
    && f.mul(a, b) == f.mul(b, a)
    && f.mul(f.mul(a, b), c) == f.mul(a, f.mul(b, c))
    && f.mul(a, f.zero) == f.zero
    && f.mul(a, f.one) == a
    && f.mul(a, f.plus(b, c)) == f.plus(f.mul(a, b), f.mul(a, c))
    && (a != f.zero && b != f.zero ==> f.mul(a, b) != f.zero)
  }

  ghost predicate IsField<T(!new)>(f: Field<T>) {
    forall a: T, b: T, c: T {:trigger Laws(f, a, b, c)} :: Laws(f, a, b, c)
  }

  lemma Use<T(!new)>(f: Field<T>, a: T, b: T, c: T)
    requires IsField(f)
    ensures Laws(f, a, b, c)
  {
  }

  // (a + b) + (c + d) in another order
  lemma Pairs<T(!new)>(f: Field<T>, a: T, b: T, c: T, d: T)
    requires IsField(f)
    ensures f.plus(f.plus(a, b), f.plus(c, d)) == f.plus(f.plus(a, c), f.plus(b, d))
  {
    Use(f, a, b, f.plus(c, d));
    Use(f, b, c, d);
    Use(f, c, b, d);
    Use(f, a, c, f.plus(b, d));
  }

  // a is b when their sum is zero
  lemma SumZero<T(!new)>(f: Field<T>, a: T, b: T)
    requires IsField(f) && f.plus(a, b) == f.zero
    ensures a == b
  {
    Use(f, a, b, b);
    Use(f, b, b, b);
    Use(f, f.zero, b, b);
    Use(f, b, f.zero, b);
  }

  // ── Values ─────────────────────────────────────────────────────────────────

  // p at z, by Horner's rule
  function Eval<T>(f: Field<T>, p: seq<T>, z: T): T {
    if p == [] then f.zero
    else f.plus(f.mul(z, Eval(f, p[..|p| - 1], z)), p[|p| - 1])
  }

  lemma EvalStep<T(!new)>(f: Field<T>, p: seq<T>, c: T, z: T)
    ensures Eval(f, p + [c], z) == f.plus(f.mul(z, Eval(f, p, z)), c)
  {
    assert (p + [c])[..|p|] == p;
  }

  // Every coefficient zero
  ghost predicate Null<T>(f: Field<T>, p: seq<T>) {
    forall k :: 0 <= k < |p| ==> p[k] == f.zero
  }

  lemma {:induction false} EvalNull<T(!new)>(f: Field<T>, p: seq<T>, z: T)
    requires IsField(f) && Null(f, p)
    ensures Eval(f, p, z) == f.zero
  {
    if p != [] {
      EvalNull(f, p[..|p| - 1], z);
      Use(f, z, f.zero, f.zero);
      Use(f, f.zero, f.zero, f.zero);
    }
  }

  // Leading zeros do not count
  lemma {:induction false} EvalSuffix<T(!new)>(f: Field<T>, p: seq<T>, n: nat, z: T)
    requires IsField(f) && n <= |p| && Null(f, p[..n])
    ensures Eval(f, p, z) == Eval(f, p[n..], z)
  {
    if n == |p| {
      assert p[..n] == p;
      EvalNull(f, p, z);
    } else {
      var q := p[..|p| - 1];
      assert q[..n] == p[..n];
      EvalSuffix(f, q, n, z);
      assert p[n..][..|p| - n - 1] == q[n..];
    }
  }

  function Sum<T>(f: Field<T>, p: seq<T>, q: seq<T>): (s: seq<T>)
    requires |p| == |q|
    ensures |s| == |p|
  {
    seq(|p|, k requires 0 <= k < |p| => f.plus(p[k], q[k]))
  }

  lemma {:induction false} EvalSum<T(!new)>(f: Field<T>, p: seq<T>, q: seq<T>, z: T)
    requires IsField(f) && |p| == |q|
    ensures Eval(f, Sum(f, p, q), z) == f.plus(Eval(f, p, z), Eval(f, q, z))
  {
    if p == [] {
      Use(f, f.zero, f.zero, f.zero);
    } else {
      var n := |p| - 1;
      assert Sum(f, p, q)[..n] == Sum(f, p[..n], q[..n]);
      EvalSum(f, p[..n], q[..n], z);
      var a, b := Eval(f, p[..n], z), Eval(f, q[..n], z);
      Use(f, z, a, b);
      Pairs(f, f.mul(z, a), f.mul(z, b), p[n], q[n]);
    }
  }

  // ── Sums of shifted multiples ──────────────────────────────────────────────

  // x plus r times g, with g's first coefficient at position i
  function Into<T>(f: Field<T>, x: seq<T>, i: nat, r: T, g: seq<T>): (y: seq<T>)
    requires i + |g| <= |x|
    ensures |y| == |x|
  {
    seq(|x|, k requires 0 <= k < |x| => if i <= k < i + |g| then f.plus(x[k], f.mul(g[k - i], r)) else x[k])
  }

  // Into for each coefficient of q in turn
  function Accumulated<T>(f: Field<T>, x: seq<T>, q: seq<T>, g: seq<T>): (y: seq<T>)
    requires |g| > 0 && |q| + |g| - 1 <= |x|
    ensures |y| == |x|
    decreases |q|
  {
    if q == [] then x
    else Into(f, Accumulated(f, x, q[..|q| - 1], g), |q| - 1, q[|q| - 1], g)
  }

  // q times g, the way it is done on paper
  function Product<T>(f: Field<T>, q: seq<T>, g: seq<T>): (p: seq<T>)
    requires |g| > 0
    ensures |p| == |q| + |g| - 1
  {
    Accumulated(f, Zeros(f, |q| + |g| - 1), q, g)
  }

  // Where g is zero, adding a multiple of it changes nothing
  lemma EvalInto<T(!new)>(f: Field<T>, x: seq<T>, i: nat, r: T, g: seq<T>, z: T)
    requires IsField(f) && i + |g| <= |x| && Eval(f, g, z) == f.zero
    ensures Eval(f, Into(f, x, i, r, g), z) == Eval(f, x, z)
  {
    EvalIntoPrefix(f, x, i, r, g, z, |g|);
    Use(f, r, f.zero, f.zero);
    Use(f, Eval(f, x[..i + |g|], z), f.zero, f.zero);
    assert g[..|g|] == g;
    SameTail(f, Into(f, x, i, r, g), x, i + |g|, z);
  }

  lemma {:induction false} EvalIntoPrefix<T(!new)>(f: Field<T>, x: seq<T>, i: nat, r: T, g: seq<T>, z: T, k: nat)
    requires IsField(f) && i + |g| <= |x| && k <= |g|
    ensures Eval(f, Into(f, x, i, r, g)[..i + k], z) == f.plus(Eval(f, x[..i + k], z), f.mul(r, Eval(f, g[..k], z)))
    decreases k
  {
    var y := Into(f, x, i, r, g);
    if k == 0 {
      assert y[..i] == x[..i];
      Use(f, r, f.zero, f.zero);
      Use(f, Eval(f, x[..i], z), f.zero, f.zero);
    } else {
      EvalIntoPrefix(f, x, i, r, g, z, k - 1);
      var a, b := Eval(f, x[..i + k - 1], z), Eval(f, g[..k - 1], z);
      var c, d := x[i + k - 1], g[k - 1];
      assert y[..i + k] == y[..i + k - 1] + [f.plus(c, f.mul(d, r))];
      assert x[..i + k] == x[..i + k - 1] + [c];
      assert g[..k] == g[..k - 1] + [d];
      EvalStep(f, y[..i + k - 1], f.plus(c, f.mul(d, r)), z);
      EvalStep(f, x[..i + k - 1], c, z);
      EvalStep(f, g[..k - 1], d, z);
      Horner(f, z, r, a, b, c, d);
    }
  }

  // z (a + r b) + (c + d r) = (z a + c) + r (z b + d)
  lemma Horner<T(!new)>(f: Field<T>, z: T, r: T, a: T, b: T, c: T, d: T)
    requires IsField(f)
    ensures f.plus(f.mul(z, f.plus(a, f.mul(r, b))), f.plus(c, f.mul(d, r))) ==
            f.plus(f.plus(f.mul(z, a), c), f.mul(r, f.plus(f.mul(z, b), d)))
  {
    Use(f, z, a, f.mul(r, b));
    Use(f, z, r, b);
    Use(f, r, z, b);
    Use(f, r, f.mul(z, b), d);
    Use(f, r, d, d);
    Pairs(f, f.mul(z, a), f.mul(r, f.mul(z, b)), c, f.mul(r, d));
  }

  lemma {:induction false} SameTail<T(!new)>(f: Field<T>, x: seq<T>, y: seq<T>, n: nat, z: T)
    requires |x| == |y| && n <= |x| && x[n..] == y[n..]
    requires Eval(f, x[..n], z) == Eval(f, y[..n], z)
    ensures Eval(f, x, z) == Eval(f, y, z)
    decreases |x|
  {
    if n == |x| {
      assert x[..n] == x && y[..n] == y;
    } else {
      var l := |x| - 1;
      assert x[l] == x[n..][l - n] == y[n..][l - n] == y[l];
      assert x[..l][n..] == x[n..][..l - n] == y[n..][..l - n] == y[..l][n..];
      assert x[..l][..n] == x[..n] && y[..l][..n] == y[..n];
      SameTail(f, x[..l], y[..l], n, z);
    }
  }

  lemma {:induction false} EvalAccumulated<T(!new)>(f: Field<T>, x: seq<T>, q: seq<T>, g: seq<T>, z: T)
    requires IsField(f) && |g| > 0 && |q| + |g| - 1 <= |x| && Eval(f, g, z) == f.zero
    ensures Eval(f, Accumulated(f, x, q, g), z) == Eval(f, x, z)
    decreases |q|
  {
    if q != [] {
      EvalAccumulated(f, x, q[..|q| - 1], g, z);
      EvalInto(f, Accumulated(f, x, q[..|q| - 1], g), |q| - 1, q[|q| - 1], g, z);
    }
  }

  // A multiple of g is zero where g is
  lemma EvalProduct<T(!new)>(f: Field<T>, q: seq<T>, g: seq<T>, z: T)
    requires IsField(f) && |g| > 0 && Eval(f, g, z) == f.zero
    ensures Eval(f, Product(f, q, g), z) == f.zero
  {
    var zeros := Zeros(f, |q| + |g| - 1);
    EvalAccumulated(f, zeros, q, g, z);
    EvalNull(f, zeros, z);
  }

  lemma {:induction false} AccumulatedSum<T(!new)>(f: Field<T>, x: seq<T>, y: seq<T>, q: seq<T>, g: seq<T>)
    requires IsField(f) && |g| > 0 && |x| == |y| && |q| + |g| - 1 <= |x|
    ensures Accumulated(f, Sum(f, x, y), q, g) == Sum(f, x, Accumulated(f, y, q, g))
    decreases |q|
  {
    if q != [] {
      var n := |q| - 1;
      AccumulatedSum(f, x, y, q[..n], g);
      var v := Accumulated(f, y, q[..n], g);
      forall k | n <= k < n + |g|
        ensures Into(f, Sum(f, x, v), n, q[n], g)[k] == Sum(f, x, Into(f, v, n, q[n], g))[k]
      {
        Use(f, x[k], v[k], f.mul(g[k - n], q[n]));
      }
      assert Into(f, Sum(f, x, v), n, q[n], g) == Sum(f, x, Into(f, v, n, q[n], g));
    }
  }

  // ── Products of linear factors ─────────────────────────────────────────────

  // p times (x + a)
  function TimesLinear<T>(f: Field<T>, p: seq<T>, a: T): (y: seq<T>)
    ensures |y| == |p| + 1
  {
    seq(|p| + 1, k requires 0 <= k <= |p| =>
      f.plus(if k < |p| then p[k] else f.zero, f.mul(if k > 0 then p[k - 1] else f.zero, a)))
  }

  // One coefficient of it
  function Coefficient<T>(f: Field<T>, p: seq<T>, a: T, k: nat): T
    requires k <= |p|
  {
    f.plus(if k < |p| then p[k] else f.zero, f.mul(if k > 0 then p[k - 1] else f.zero, a))
  }

  lemma CoefficientsOf<T(!new)>(f: Field<T>, p: seq<T>, a: T, g: seq<T>)
    requires IsField(f) && |g| == |p| + 1 && |p| > 0 && g[0] == p[0]
    requires forall k :: 0 < k <= |p| ==> g[k] == Coefficient(f, p, a, k)
    ensures g == TimesLinear(f, p, a)
  {
    Use(f, a, f.zero, f.zero);
    Use(f, f.zero, a, f.zero);
    Use(f, p[0], f.zero, f.zero);
    assert g[0] == Coefficient(f, p, a, 0);
  }

  lemma {:induction false} EvalTimesLinearPrefix<T(!new)>(f: Field<T>, p: seq<T>, a: T, z: T, k: nat)
    requires IsField(f) && k <= |p|
    ensures Eval(f, TimesLinear(f, p, a)[..k], z) ==
            f.plus(Eval(f, p[..k], z), if k > 0 then f.mul(a, Eval(f, p[..k - 1], z)) else f.zero)
  {
    var y := TimesLinear(f, p, a);
    if k == 0 {
      Use(f, f.zero, f.zero, f.zero);
    } else {
      EvalTimesLinearPrefix(f, p, a, z, k - 1);
      var d := if k > 1 then p[k - 2] else f.zero;
      var e := if k > 1 then Eval(f, p[..k - 2], z) else f.zero;
      Use(f, a, f.zero, f.zero);
      Use(f, z, f.zero, f.zero);
      Use(f, f.zero, f.zero, f.zero);
      assert y[..k] == y[..k - 1] + [f.plus(p[k - 1], f.mul(d, a))];
      assert p[..k] == p[..k - 1] + [p[k - 1]];
      EvalStep(f, y[..k - 1], f.plus(p[k - 1], f.mul(d, a)), z);
      EvalStep(f, p[..k - 1], p[k - 1], z);
      if k > 1 {
        assert p[..k - 1] == p[..k - 2] + [d];
        EvalStep(f, p[..k - 2], d, z);
      }
      assert Eval(f, p[..k - 1], z) == f.plus(f.mul(z, e), d);
      Horner(f, z, a, Eval(f, p[..k - 1], z), e, p[k - 1], d);
    }
  }

  lemma EvalTimesLinear<T(!new)>(f: Field<T>, p: seq<T>, a: T, z: T)
    requires IsField(f) && p != []
    ensures Eval(f, TimesLinear(f, p, a), z) == f.mul(Eval(f, p, z), f.plus(z, a))
  {
    var y, n := TimesLinear(f, p, a), |p|;
    EvalTimesLinearPrefix(f, p, a, z, n);
    var e, d := Eval(f, p[..n - 1], z), p[n - 1];
    assert p[..n] == p && p[..n - 1] + [d] == p;
    EvalStep(f, p[..n - 1], d, z);
    Use(f, f.zero, f.mul(d, a), f.zero);
    Use(f, f.mul(d, a), f.zero, f.zero);
    assert y == y[..n] + [f.mul(d, a)];
    EvalStep(f, y[..n], f.mul(d, a), z);
    var v := Eval(f, p, z);
    // z (v + a e) + d a = z v + a (z e + d) = v (z + a)
    Horner(f, z, a, v, e, f.zero, d);
    Use(f, f.mul(z, v), f.zero, f.zero);
    Use(f, v, z, a);
    Use(f, z, v, v);
    Use(f, a, v, v);
  }

  // (x + zs[0]) (x + zs[1]) ...
  function Factors<T>(f: Field<T>, zs: seq<T>): (g: seq<T>)
    ensures |g| == |zs| + 1
  {
    if zs == [] then [f.one] else TimesLinear(f, Factors(f, zs[..|zs| - 1]), zs[|zs| - 1])
  }

  lemma {:induction false} FactorsLead<T(!new)>(f: Field<T>, zs: seq<T>)
    requires IsField(f)
    ensures Factors(f, zs)[0] == f.one
  {
    if zs != [] {
      FactorsLead(f, zs[..|zs| - 1]);
      Use(f, zs[|zs| - 1], f.one, f.one);
      Use(f, f.zero, zs[|zs| - 1], f.one);
      Use(f, f.one, f.one, f.one);
    }
  }

  lemma {:induction false} FactorsRoots<T(!new)>(f: Field<T>, zs: seq<T>, k: nat)
    requires IsField(f) && k < |zs|
    ensures Eval(f, Factors(f, zs), zs[k]) == f.zero
  {
    hide IsField, Eval, TimesLinear;
    var n, z := |zs| - 1, zs[k];
    EvalTimesLinear(f, Factors(f, zs[..n]), zs[n], z);
    if k < n {
      FactorsRoots(f, zs[..n], k);
      Use(f, f.plus(z, zs[n]), f.zero, f.zero);
      Use(f, f.zero, f.plus(z, zs[n]), f.zero);
    } else {
      Use(f, z, z, z);
      Use(f, Eval(f, Factors(f, zs[..n]), z), f.zero, f.zero);
    }
  }

  // The partial values of Horner's rule: p divided by (x + a)
  function Quotient<T>(f: Field<T>, p: seq<T>, a: T): (q: seq<T>)
    requires p != []
    ensures |q| == |p| - 1
  {
    seq(|p| - 1, k requires 0 <= k < |p| - 1 => Eval(f, p[..k + 1], a))
  }

  lemma Factor<T(!new)>(f: Field<T>, p: seq<T>, a: T)
    requires IsField(f) && p != [] && Eval(f, p, a) == f.zero
    ensures p == TimesLinear(f, Quotient(f, p, a), a)
  {
    var q, n := Quotient(f, p, a), |p| - 1;
    var y := TimesLinear(f, q, a);
    forall k | 0 <= k <= n
      ensures y[k] == p[k]
    {
      var e := Eval(f, p[..k], a);
      assert p[..k + 1] == p[..k] + [p[k]];
      EvalStep(f, p[..k], p[k], a);
      var v := Eval(f, p[..k + 1], a);
      assert k == n ==> p[..k + 1] == p;
      assert v == f.plus(f.mul(a, e), p[k]);
      assert y[k] == f.plus(v, f.mul(e, a));
      // v + a e = (a e + p) + a e = p
      Use(f, a, e, e);
      Use(f, f.mul(a, e), p[k], p[k]);
      Use(f, p[k], f.mul(a, e), f.mul(a, e));
    }
  }

  ghost predicate Distinct<T>(s: seq<T>) {
    forall i, j :: 0 <= i < j < |s| ==> s[i] != s[j]
  }

  // A polynomial with as many coefficients as different zeros is null
  lemma {:induction false} TooManyRoots<T(!new)>(f: Field<T>, p: seq<T>, zs: seq<T>)
    requires IsField(f) && |p| == |zs| && Distinct(zs)
    requires forall i :: 0 <= i < |zs| ==> Eval(f, p, zs[i]) == f.zero
    ensures Null(f, p)
    decreases |p|
  {
    if |p| == 1 {
      Use(f, zs[0], f.zero, f.zero);
      assert p[..0] == [];
      assert Eval(f, p, zs[0]) == f.plus(f.mul(zs[0], f.zero), p[0]);
      Use(f, p[0], f.zero, f.zero);
    } else if |p| > 1 {
      hide Eval, Quotient, Laws;
      var n := |p| - 1;
      var a, q := zs[n], Quotient(f, p, zs[n]);
      Factor(f, p, a);
      forall i | 0 <= i < n
        ensures Eval(f, q, zs[i]) == f.zero
      {
        EvalTimesLinear(f, q, a, zs[i]);
        Use(f, Eval(f, q, zs[i]), f.plus(zs[i], a), f.zero);
        if f.plus(zs[i], a) == f.zero {
          SumZero(f, zs[i], a);
        }
      }
      TooManyRoots(f, q, zs[..n]);
      forall k | 0 <= k < |p|
        ensures p[k] == f.zero
      {
        Use(f, a, f.zero, f.zero);
        Use(f, f.zero, a, f.zero);
      }
    }
  }

  // ── Remainders ─────────────────────────────────────────────────────────────

  // The block c is data followed by a remainder: a multiple of g
  ghost predicate IsMultiple<T(!new)>(f: Field<T>, c: seq<T>, g: seq<T>)
    requires |g| > 0
  {
    exists q: seq<T> :: |q| + |g| - 1 == |c| && c == Product(f, q, g)
  }

  // y is x after the first j steps of a round at i
  ghost predicate Round<T>(f: Field<T>, x: seq<T>, y: seq<T>, i: nat, r: T, g: seq<T>, j: nat)
    requires j <= |g| && i + |g| <= |x|
  {
    && |x| == |y|
    && forall k :: 0 <= k < |x| ==> y[k] == if i <= k < i + j then f.plus(x[k], f.mul(g[k - i], r)) else x[k]
  }

  lemma RoundIsInto<T>(f: Field<T>, x: seq<T>, y: seq<T>, i: nat, r: T, g: seq<T>)
    requires i + |g| <= |x| && Round(f, x, y, i, r, g, |g|)
    ensures y == Into(f, x, i, r, g)
  {
  }

  // With a first coefficient of 1, the round clears its own place
  lemma RoundClears<T(!new)>(f: Field<T>, x: seq<T>, y: seq<T>, i: nat, g: seq<T>)
    requires IsField(f) && |g| > 0 && i + |g| <= |x| && g[0] == f.one
    requires Round(f, x, y, i, x[i], g, |g|) && Null(f, x[..i])
    ensures Null(f, y[..i + 1])
  {
    Use(f, f.one, x[i], x[i]);
    Use(f, x[i], f.one, x[i]);
    forall k | 0 <= k < i
      ensures y[k] == f.zero
    {
      assert x[k] == x[..i][k];
    }
  }

  function Zeros<T>(f: Field<T>, n: nat): (z: seq<T>)
    ensures |z| == n
  {
    seq(n, k => f.zero)
  }

  lemma SumZeros<T(!new)>(f: Field<T>, p: seq<T>)
    requires IsField(f)
    ensures Sum(f, p, Zeros(f, |p|)) == p
  {
    forall k | 0 <= k < |p|
      ensures f.plus(p[k], f.zero) == p[k]
    {
      Use(f, p[k], f.zero, f.zero);
    }
  }

  // Where x = a + p is null, a is p; where a is null, x is p
  lemma Complement<T(!new)>(f: Field<T>, a: seq<T>, p: seq<T>, x: seq<T>, n: nat)
    requires IsField(f) && |a| == |p| && n <= |a| && x == Sum(f, a, p)
    requires Null(f, x[..n]) && Null(f, a[n..])
    ensures a[..n] + x[n..] == p
  {
    forall k | 0 <= k < |p|
      ensures (a[..n] + x[n..])[k] == p[k]
    {
      if k < n {
        assert x[k] == x[..n][k];
        SumZero(f, a[k], p[k]);
      } else {
        assert a[k] == a[n..][k - n];
        Use(f, f.zero, p[k], p[k]);
        Use(f, p[k], f.zero, f.zero);
      }
    }
  }

  // Rounds that clear the data's place leave its remainder: the two together
  // are a multiple of g
  lemma Cleared<T(!new)>(f: Field<T>, init: seq<T>, x: seq<T>, q: seq<T>, g: seq<T>)
    requires IsField(f) && |g| > 0 && |init| == |q| + |g| - 1
    requires x == Accumulated(f, init, q, g)
    requires Null(f, x[..|q|]) && Null(f, init[|q|..])
    ensures init[..|q|] + x[|q|..] == Product(f, q, g)
  {
    SumZeros(f, init);
    AccumulatedSum(f, init, Zeros(f, |init|), q, g);
    Complement(f, init, Product(f, q, g), x, |q|);
  }

  // The remainder is the only ending with which the block is zero at every root
  lemma OnlyRemainder<T(!new)>(f: Field<T>, d: seq<T>, r: seq<T>, s: seq<T>, zs: seq<T>)
    requires IsField(f) && |r| == |s| == |zs| && Distinct(zs)
    requires forall i :: 0 <= i < |zs| ==> Eval(f, d + r, zs[i]) == f.zero
    requires forall i :: 0 <= i < |zs| ==> Eval(f, d + s, zs[i]) == f.zero
    ensures r == s
  {
    var v := Sum(f, d + r, d + s);
    forall k | 0 <= k < |d|
      ensures v[..|d|][k] == f.zero
    {
      Use(f, d[k], d[k], d[k]);
    }
    forall i | 0 <= i < |zs|
      ensures Eval(f, v[|d|..], zs[i]) == f.zero
    {
      EvalSum(f, d + r, d + s, zs[i]);
      Use(f, f.zero, f.zero, f.zero);
      EvalSuffix(f, v, |d|, zs[i]);
    }
    TooManyRoots(f, v[|d|..], zs);
    forall k | 0 <= k < |r|
      ensures r[k] == s[k]
    {
      assert v[|d|..][k] == f.plus(r[k], s[k]);
      SumZero(f, r[k], s[k]);
    }
  }
}
