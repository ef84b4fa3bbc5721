/** Exponentiation as the interest and loan screens use it. */
module Powers {
  import opened Outcomes

  /** b to the natural power n, by repeated multiplication. */
  function Power(b: real, n: nat): real
  {
    if n == 0 then 1.0 else b * Power(b, n - 1)
  }

  /** Python's `**` on two floats, kept abstract: None when it raises
      (zero to a negative power, overflow). */
  type PowFn = (real, real) -> Option<real>

  /** On a natural-number exponent `**` is repeated multiplication. */
  ghost predicate ExactOnWholeExponents(pow: PowFn)
  {
    forall b: real, n: nat :: pow(b, n as real) == Some(Power(b, n))
  }

  /** One `**` that behaves so: whole exponents exactly, all others raise. */
  function WholePow(b: real, e: real): Option<real>
  {
    if e >= 0.0 && e == e.Floor as real then Some(Power(b, e.Floor)) else None
  }

  lemma WholePowIsExact()
    ensures ExactOnWholeExponents(WholePow)
  {
  }

  lemma {:induction false} PowerOfOne(n: nat)
    ensures Power(1.0, n) == 1.0
  {
    if n > 0 {
      PowerOfOne(n - 1);
    }
  }

  /** Multiplying by a non-negative factor keeps an inequality. */
  lemma ScaleInequality(a: real, u: real, v: real)
    requires a >= 0.0 && u >= v
    ensures a * u >= a * v
  {
    assert a * u - a * v == a * (u - v);
  }

  /** Bernoulli's inequality: (1 + x)^n >= 1 + n*x for x >= -1. */
  lemma {:induction false} Bernoulli(x: real, n: nat)
    requires x >= -1.0
    ensures Power(1.0 + x, n) >= 1.0 + (n as real) * x
  {
    if n > 0 {
      Bernoulli(x, n - 1);
      var q := Power(1.0 + x, n - 1);
      var m := (n - 1) as real;
      ScaleInequality(1.0 + x, q, 1.0 + m * x);
      assert (1.0 + x) * (1.0 + m * x) == 1.0 + (m + 1.0) * x + m * (x * x);
      assert m * (x * x) >= 0.0;
    }
  }

  /** A base above one raised to a positive power stays above one. */
  lemma PowerAboveOne(b: real, n: nat)
    requires b > 1.0 && n > 0
    ensures Power(b, n) > 1.0
  {
    Bernoulli(b - 1.0, n);
    assert (n as real) * (b - 1.0) > 0.0;
  }
}
