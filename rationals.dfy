/** Exact rationals standing in for Python's `fractions.Fraction`.

    Python normalises every Fraction by the gcd of numerator and denominator
    (denominator positive); `limit_denominator(1000)` of a Fraction whose
    normalised denominator is already at most 1000 returns it unchanged.
    This module gives that normalisation and proves what callers rely on:
    it keeps the value, yields lowest terms and a positive denominator. */
module Rationals {

  /** `num / den`; a value is well formed when `den >= 1`. */
  datatype Rational = Rational(num: int, den: int)

  predicate WellFormed(q: Rational) { q.den >= 1 }

  /** Two well-formed rationals denote the same number. */
  predicate SameValue(p: Rational, q: Rational) { p.num * q.den == q.num * p.den }

  function Abs(x: int): nat { if x < 0 then -x else x }

  /** Euclid's algorithm, as `math.gcd` computes it for non-negative arguments. */
  function Gcd(a: nat, b: nat): nat
    decreases b
  {
    if b == 0 then a else Gcd(b, a % b)
  }

  // ---------------------------------------------------------------------------
  // Divisibility facts (Dafny's `%` is Euclidean; divisors here are positive)

  lemma MulSign(g: nat, t: int)
    requires g > 0
    ensures t >= 1 ==> g * t >= g
    ensures t <= -1 ==> g * t + g <= 0
  {
    if t >= 1 {
      assert g * t == g * (t - 1) + g;
    } else if t <= -1 {
      assert g * t == g * (t + 1) - g;
    }
  }

  lemma MultipleMod(g: nat, m: int)
    requires g > 0
    ensures (g * m) % g == 0 && (g * m) / g == m
  {
    var q, r := (g * m) / g, (g * m) % g;
    assert g * m == g * q + r;
    assert r == g * (m - q);
    MulSign(g, m - q);
  }

  lemma ModZeroMultiple(g: nat, x: int)
    requires g > 0 && x % g == 0
    ensures x == g * (x / g)
  {
  }

  /** A common divisor of `x` and `y` divides `k * x + y`. */
  lemma DividesLinear(g: nat, x: int, y: int, k: int)
    requires g > 0 && x % g == 0 && y % g == 0
    ensures (k * x + y) % g == 0
  {
    ModZeroMultiple(g, x);
    ModZeroMultiple(g, y);
    var a, b := x / g, y / g;
    calc {
      k * x + y;
      k * (g * a) + g * b;
      g * (k * a + b);
    }
    MultipleMod(g, k * a + b);
  }

  lemma DividesNeg(g: nat, x: int)
    requires g > 0 && x % g == 0
    ensures (-x) % g == 0
  {
    DividesLinear(g, x, 0, -1);
  }

  lemma DividesAbs(g: nat, x: int)
    requires g > 0
    ensures x % g == 0 <==> Abs(x) % g == 0
  {
    if x < 0 {
      if x % g == 0 { DividesNeg(g, x); }
      if Abs(x) % g == 0 { DividesNeg(g, Abs(x)); }
    }
  }

  /** A divisor of a positive number is no larger than it. */
  lemma DivisorBound(d: nat, x: nat)
    requires d > 0 && x > 0 && x % d == 0
    ensures d <= x
  {
    ModZeroMultiple(d, x);
    var k := x / d;
    assert k >= 1 ==> d * k >= d * 1;
  }

  // ---------------------------------------------------------------------------
  // Gcd

  lemma {:induction false} GcdDivides(a: nat, b: nat)
    requires a > 0 || b > 0
    ensures Gcd(a, b) > 0 && a % Gcd(a, b) == 0 && b % Gcd(a, b) == 0
    decreases b
  {
    if b == 0 {
      MultipleMod(a, 1);
    } else {
      GcdDivides(b, a % b);
      var g := Gcd(b, a % b);
      assert a == (a / b) * b + a % b;
      DividesLinear(g, b, a % b, a / b);
    }
  }

  /** Every common divisor of `a` and `b` divides their gcd. */
  lemma {:induction false} CommonDivisorDividesGcd(a: nat, b: nat, d: nat)
    requires d > 0 && a % d == 0 && b % d == 0
    ensures Gcd(a, b) % d == 0
    decreases b
  {
    if b > 0 {
      assert a % b == -(a / b) * b + a;
      DividesLinear(d, b, a, -(a / b));
      CommonDivisorDividesGcd(b, a % b, d);
    }
  }

  // ---------------------------------------------------------------------------
  // Normalisation

  /** Lowest terms with a positive denominator, as Python keeps a Fraction. */
  predicate LowestTerms(q: Rational) { q.den >= 1 && Gcd(Abs(q.num), q.den) == 1 }

  /** The normal form of `q`: divide numerator and denominator by their gcd. */
  function Reduce(q: Rational): (r: Rational)
    requires WellFormed(q)
    ensures LowestTerms(r) && SameValue(r, q)
    ensures r.den <= q.den
  {
    var g := Gcd(Abs(q.num), q.den);
    GcdDivides(Abs(q.num), q.den);
    DividesAbs(g, q.num);
    ReduceFacts(q.num, q.den, g);
    Rational(q.num / g, q.den / g)
  }

  lemma ReduceFacts(n: int, d: nat, g: nat)
    requires d >= 1 && g == Gcd(Abs(n), d) && g > 0
    requires n % g == 0 && d % g == 0
    ensures d / g >= 1 && d / g <= d
    ensures (n / g) * d == n * (d / g)
    ensures Gcd(Abs(n / g), d / g) == 1
  {
    ModZeroMultiple(g, n);
    ModZeroMultiple(g, d);
    var a, b := n / g, d / g;
    MulSign(g, b);
    assert b >= 1;
    MulSign(b, g);
    assert b * g == g * b;
    assert a * d == n * b by {
      assert a * (g * b) == (g * a) * b;
    }
    ReducedCoprime(n, d, g, a, b);
  }

  /** Dividing out the gcd leaves a coprime pair. */
  lemma ReducedCoprime(n: int, d: nat, g: nat, a: int, b: nat)
    requires d >= 1 && g == Gcd(Abs(n), d) && g > 0
    requires n == g * a && d == g * b && b >= 1
    ensures Gcd(Abs(a), b) == 1
  {
    // The gcd h of the reduced pair makes g * h a common divisor of n and d.
    var h := Gcd(Abs(a), b);
    GcdDivides(Abs(a), b);
    DividesAbs(h, a);
    ScaledDivisor(g, h, a);
    ScaledDivisor(g, h, b);
    DividesAbs(g * h, n);
    CommonDivisorDividesGcd(Abs(n), d, g * h);
    MulSign(g, h);
    DivisorBound(g * h, g);
    MulSign(g, h - 1);
  }

  /** If `h` divides `a` then `g * h` divides `g * a`. */
  lemma ScaledDivisor(g: nat, h: nat, a: int)
    requires g > 0 && h > 0 && a % h == 0
    ensures (g * a) % (g * h) == 0
  {
    ModZeroMultiple(h, a);
    var k := a / h;
    assert g * a == (g * h) * k;
    MulSign(g, h);
    MultipleMod(g * h, k);
  }

  /** Scaling a rational by a positive integer never grows the denominator
      of its normal form. */
  lemma ReduceScaledDen(q: Rational, k: nat)
    requires WellFormed(q) && k >= 1
    ensures Reduce(Rational(q.num * k, q.den)).den <= Reduce(q).den
  {
    var g1 := Gcd(Abs(q.num), q.den);
    var g2 := Gcd(Abs(q.num * k), q.den);
    GcdDivides(Abs(q.num), q.den);
    GcdDivides(Abs(q.num * k), q.den);
    DividesAbs(g1, q.num);
    DividesLinear(g1, q.num, 0, k);
    assert q.num * k == k * q.num + 0;
    DividesAbs(g1, q.num * k);
    CommonDivisorDividesGcd(Abs(q.num * k), q.den, g1);
    DivisorBound(g1, g2);
    DivisorAntitone(q.den, g1, g2);
  }

  lemma DivisorAntitone(x: nat, g1: nat, g2: nat)
    requires 0 < g1 <= g2 && x % g1 == 0 && x % g2 == 0
    ensures x / g2 <= x / g1
  {
    ModZeroMultiple(g1, x);
    ModZeroMultiple(g2, x);
    var a, b := x / g1, x / g2;
    assert b > a ==> g2 * b >= g1 * b > g1 * a;
  }

  /** `Fraction(q).limit_denominator(1000)`, modelled where it is exact: on a
      value whose normal form already has a denominator of at most 1000 it is
      that normal form. */
  function LimitDenominator(q: Rational): (r: Rational)
    requires WellFormed(q) && Reduce(q).den <= MaxDenominator
    ensures LowestTerms(r) && SameValue(r, q) && r.den <= MaxDenominator
  {
    Reduce(q)
  }

  const MaxDenominator: nat := 1000

  /** The rationals whose limit_denominator(1000) this model covers. */
  predicate Representable(q: Rational) { WellFormed(q) && Reduce(q).den <= MaxDenominator }

  /** A value already in lowest terms is its own normal form. */
  lemma ReduceLowest(q: Rational)
    requires LowestTerms(q)
    ensures Reduce(q) == q
  {
  }

  function Mul(p: Rational, q: Rational): (r: Rational)
    requires WellFormed(p) && WellFormed(q)
    ensures WellFormed(r)
  {
    assert p.den * q.den >= 1 * 1 by { assert p.den * q.den >= p.den * 1; }
    Rational(p.num * q.num, p.den * q.den)
  }

  function FromInt(n: int): Rational { Rational(n, 1) }
}
