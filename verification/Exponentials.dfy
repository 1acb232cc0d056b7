/** Integer powers of a real base, and sums of sequences of reals. */
module Exponentials {

  /** A product with a name, so that proofs can pass it around unexpanded. */
  function Times(x: real, y: real): real {
    x * y
  }

  function Pow(g: real, n: nat): (r: real)
    ensures g > 0.0 ==> r > 0.0
  {
    if n == 0 then 1.0 else Times(g, Pow(g, n - 1))
  }

  function IntPower(x: nat, n: nat): (r: nat)
    ensures x > 0 ==> r > 0
  {
    if n == 0 then 1 else x * IntPower(x, n - 1)
  }

  /** g to the n for any integer n: the growth over n ticks, forward or back. */
  function Exp(g: real, n: int): (r: real)
    requires g > 0.0
    ensures r > 0.0
  {
    if n >= 0 then Pow(g, n) else 1.0 / Pow(g, -n)
  }

  lemma InverseStep(g: real, p: real)
    requires g > 0.0 && p > 0.0
    ensures Times(g, p) > 0.0 && 1.0 / p == Times(g, 1.0 / Times(g, p))
  {
    var q := 1.0 / (g * p);
    assert q * (g * p) == 1.0;
    assert (g * q) * p == 1.0;
    assert (1.0 / p) * p == 1.0;
  }

  lemma ExpSucc(g: real, n: int)
    requires g > 0.0
    ensures Exp(g, n + 1) == Times(g, Exp(g, n))
  {
    if n < 0 {
      InverseStep(g, Pow(g, -n - 1));
    }
  }

  lemma StepBoth(g: real, x: real, y: real, z: real)
    requires g > 0.0
    ensures x == Times(y, z) <==> Times(g, x) == Times(y, Times(g, z))
  {
    var d := x - y * z;
    assert y * (g * z) == g * (y * z);
    assert g * x - g * (y * z) == g * d;
  }

  lemma {:induction false} ExpAdd(g: real, a: int, b: int)
    requires g > 0.0
    ensures Exp(g, a + b) == Times(Exp(g, a), Exp(g, b))
    decreases if b < 0 then -b else b
  {
    if b > 0 {
      ExpAdd(g, a, b - 1);
      ExpSucc(g, a + b - 1);
      ExpSucc(g, b - 1);
      StepBoth(g, Exp(g, a + b - 1), Exp(g, a), Exp(g, b - 1));
    } else if b < 0 {
      ExpAdd(g, a, b + 1);
      ExpSucc(g, a + b);
      ExpSucc(g, b);
      StepBoth(g, Exp(g, a + b), Exp(g, a), Exp(g, b));
    }
  }

  predicate Additive(f: int -> real, a: int, b: int) {
    f(a + b) == Times(f(a), f(b))
  }

  /** A weight over time that grows by the same factor every tick. */
  ghost predicate Exponential(f: int -> real) {
    && f(0) == 1.0 && f(1) > 1.0
    && (forall n :: f(n) > 0.0)
    && (forall a, b :: Additive(f, a, b))
  }

  /** Growth by the factor g per tick. */
  function Growth(g: real): int -> real
    requires g > 0.0
  {
    (n: int) => Exp(g, n)
  }

  lemma GrowthIsExponential(g: real)
    requires g > 1.0
    ensures Exponential(Growth(g))
  {
    forall a: int, b: int ensures Additive(Growth(g), a, b) {
      ExpAdd(g, a, b);
    }
    assert Exp(g, 0) == Pow(g, 0) == 1.0;
    assert Exp(g, 1) == Pow(g, 1) == Times(g, Pow(g, 0)) == g;
  }

  lemma GrowsByFactor(g: real, p: real)
    requires g > 1.0 && p > 0.0
    ensures p < Times(g, p)
  {
    var e := g - 1.0;
    assert e * p > 0.0;
    assert g * p - p == e * p;
  }

  lemma {:induction false} PowIncreases(g: real, m: nat, n: nat)
    requires g > 1.0 && m < n
    ensures Pow(g, m) < Pow(g, n)
  {
    GrowsByFactor(g, Pow(g, n - 1));
    if m < n - 1 {
      PowIncreases(g, m, n - 1);
    }
  }

  lemma {:induction false} PowOfAtMostOne(g: real, n: nat)
    requires 0.0 < g <= 1.0
    ensures Pow(g, n) <= 1.0
  {
    if n > 0 {
      PowOfAtMostOne(g, n - 1);
      var d := 1.0 - g;
      assert d * Pow(g, n - 1) >= 0.0;
      assert g * Pow(g, n - 1) == Pow(g, n - 1) - d * Pow(g, n - 1);
    }
  }

  /** Only a factor above one can double anything. */
  lemma OnlyGrowthDoubles(g: real, n: nat)
    requires g > 0.0 && Exp(g, n) == 2.0
    ensures g > 1.0
  {
    if g <= 1.0 {
      PowOfAtMostOne(g, n);
    }
  }

  lemma FractionExactly(x: real, y: real, k: real)
    requires y > 0.0
    ensures x / y <= k <==> x <= k * y
  {
    var q := x / y;
    assert q * y == x;
    if q <= k {
      assert (k - q) * y >= 0.0;
    } else {
      assert (q - k) * y > 0.0;
    }
  }

  /** The sum of the first n elements. */
  function Prefix(w: seq<real>, n: nat): real
    requires n <= |w|
  {
    if n == 0 then 0.0 else Prefix(w, n - 1) + w[n - 1]
  }
}
