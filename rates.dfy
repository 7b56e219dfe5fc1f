/** Conversion of a possibly fractional "requests per interval" into the whole
    numbers a pyrate_limiter `Rate` holds (requests_ratelimiter.py,
    `_convert_rate`). Intervals are milliseconds. */
module Rates {
  import opened Rationals

  /** `limit` requests per `interval` milliseconds. */
  datatype Rate = Rate(limit: int, interval: int)

  function Max(a: int, b: int): int { if a >= b then a else b }

  /** Python's `int(x)` on a rational: truncation toward zero. */
  function TruncateToInt(q: Rational): (r: int)
    requires WellFormed(q)
    ensures Abs(r) * q.den <= Abs(q.num) < Abs(r) * q.den + q.den
    ensures q.num >= 0 ==> r >= 0
    ensures q.num <= 0 ==> r <= 0
  {
    DivBounds(Abs(q.num), q.den);
    if q.num >= 0 then q.num / q.den else -((-q.num) / q.den)
  }

  lemma DivBounds(n: nat, d: nat)
    requires d >= 1
    ensures n / d >= 0
    ensures (n / d) * d <= n < (n / d) * d + d
  {
    assert n == d * (n / d) + n % d;
  }

  /** `int(x)` of a rational that is a whole number is that number. */
  lemma TruncateExact(q: Rational, k: int)
    requires WellFormed(q) && q.num == k * q.den
    ensures TruncateToInt(q) == k
  {
    if q.num >= 0 {
      assert q.num == q.den * k;
      MultipleMod(q.den, k);
    } else {
      assert -q.num == q.den * -k;
      MultipleMod(q.den, -k);
    }
  }

  /** `interval * limit_fraction.denominator`, the interval the limit's
      denominator is folded into. */
  function ConvertedInterval(limit: Rational, interval: Rational): (c: Rational)
    requires Representable(limit) && WellFormed(interval)
    ensures WellFormed(c) && c.den == interval.den
    ensures SameValue(c, Mul(interval, FromInt(LimitDenominator(limit).den)))
  {
    Rational(interval.num * LimitDenominator(limit).den, interval.den)
  }

  /** `_convert_rate(limit, interval)`.

      The limit is put in lowest terms and its denominator moved into the
      interval; an interval that then falls below one millisecond is scaled up
      by its own denominator (and the limit with it); finally the interval is
      truncated and raised to at least 1. */
  function ConvertRate(limit: Rational, interval: Rational): (r: Rate)
    requires Representable(limit) && Representable(interval)
    ensures r.interval >= 1
  {
    var limitFraction := LimitDenominator(limit);
    var converted := ConvertedInterval(limit, interval);
    if converted.num < converted.den then
      ReduceScaledDen(interval, limitFraction.den);
      var intervalFraction := LimitDenominator(converted);
      var scaled := Mul(converted, FromInt(intervalFraction.den));
      Rate(limitFraction.num * intervalFraction.den, Max(1, TruncateToInt(scaled)))
    else
      Rate(limitFraction.num, Max(1, TruncateToInt(converted)))
  }

  /** A limit `p/q` in lowest terms over a whole number of milliseconds
      `I >= 1` becomes `p` requests per `I * q` milliseconds. */
  lemma ConvertWholeInterval(limit: Rational, interval: int)
    requires LowestTerms(limit) && limit.den <= MaxDenominator && interval >= 1
    ensures ConvertRate(limit, FromInt(interval)) == Rate(limit.num, interval * limit.den)
  {
    ReduceLowest(limit);
    var c := ConvertedInterval(limit, FromInt(interval));
    assert c.num == interval * limit.den;
    MulSign(limit.den, interval);
    TruncateExact(c, interval * limit.den);
  }

  /** When the folded interval lies strictly between 0 and 1 ms, both numbers
      are multiplied by its denominator: `n/d` ms becomes `n` ms. */
  lemma ConvertSubMillisecond(limit: Rational, interval: Rational)
    requires Representable(limit) && Representable(interval)
    requires 0 < ConvertedInterval(limit, interval).num < interval.den
    ensures var f := Reduce(ConvertedInterval(limit, interval));
            ConvertRate(limit, interval) == Rate(Reduce(limit).num * f.den, f.num)
  {
    var c := ConvertedInterval(limit, interval);
    ReduceScaledDen(interval, Reduce(limit).den);
    var f := Reduce(c);
    var scaled := Mul(c, FromInt(f.den));
    assert scaled.num == c.num * f.den && scaled.den == c.den;
    assert f.num * c.den == c.num * f.den;
    TruncateExact(scaled, f.num);
    assert f.num >= 1 by {
      MulSign(f.den, c.num);
      MulSign(c.den, f.num);
    }
  }

  /** Whenever the folded interval is a whole number of milliseconds or lies
      below one millisecond, the converted rate allows exactly as many
      requests per millisecond as `limit / interval`. */
  lemma ConvertPreservesRate(limit: Rational, interval: Rational)
    requires Representable(limit) && Representable(interval) && interval.num > 0
    requires var c := ConvertedInterval(limit, interval);
             c.num < c.den || c.num % c.den == 0
    ensures var r := ConvertRate(limit, interval);
            r.limit * limit.den * interval.num == limit.num * interval.den * r.interval
  {
    var c := ConvertedInterval(limit, interval);
    MulSign(Reduce(limit).den, interval.num);
    if c.num < c.den {
      PreservesRateSub(limit, interval);
    } else {
      PreservesRateWhole(limit, interval);
    }
  }

  lemma PreservesRateSub(limit: Rational, interval: Rational)
    requires Representable(limit) && Representable(interval)
    requires 0 < ConvertedInterval(limit, interval).num < interval.den
    ensures var r := ConvertRate(limit, interval);
            r.limit * limit.den * interval.num == limit.num * interval.den * r.interval
  {
    var p := Reduce(limit);
    var c := ConvertedInterval(limit, interval);
    ConvertSubMillisecond(limit, interval);
    var f := Reduce(c);
    CrossMultiply(p.num, p.den, limit.num, limit.den, interval.num, f.den, f.num, c.den);
  }

  lemma PreservesRateWhole(limit: Rational, interval: Rational)
    requires Representable(limit) && Representable(interval)
    requires var c := ConvertedInterval(limit, interval);
             c.den <= c.num && c.num % c.den == 0
    ensures var r := ConvertRate(limit, interval);
            r.limit * limit.den * interval.num == limit.num * interval.den * r.interval
  {
    var p := Reduce(limit);
    var c := ConvertedInterval(limit, interval);
    var t := c.num / c.den;
    ModZeroMultiple(c.den, c.num);
    TruncateExact(c, t);
    MulSign(c.den, t);
    assert ConvertRate(limit, interval) == Rate(p.num, t);
    CrossMultiply(p.num, p.den, limit.num, limit.den, interval.num, 1, t, c.den);
  }

  /** The arithmetic behind both cases: from `pn/pd == ln/ld` and
      `fn/fd == (i * pd)/cd`, the rate `(pn * fd)/fn` equals `(ln/ld)/(i/cd)`. */
  lemma CrossMultiply(pn: int, pd: int, ln: int, ld: int, i: int, fd: int, fn: int, cd: int)
    requires pn * ld == ln * pd
    requires fn * cd == (i * pd) * fd
    ensures (pn * fd) * ld * i == ln * cd * fn
  {
    calc {
      (pn * fd) * ld * i;
      (pn * ld) * (fd * i);
      (ln * pd) * (fd * i);
      ln * ((i * pd) * fd);
      ln * (fn * cd);
      ln * cd * fn;
    }
  }

  /** A zero interval (a burst below one millisecond truncates to 0) keeps the
      normalised limit and is raised to 1 ms. */
  lemma ConvertZeroInterval(limit: Rational)
    requires Representable(limit)
    ensures ConvertRate(limit, FromInt(0)) == Rate(Reduce(limit).num, 1)
  {
    var c := ConvertedInterval(limit, FromInt(0));
    assert c == Rational(0, 1);
    assert Reduce(c) == Rational(0, 1);
    TruncateExact(Mul(c, FromInt(1)), 0);
  }

  /** The worked conversions of the function's documentation and tests:
      5 per 1 ms, 0.5 per 1 ms, 1 per 0.5 ms and 0.001 per 1 ms. */
  lemma ConvertRateExamples()
    ensures ConvertRate(Rational(5, 1), FromInt(1)) == Rate(5, 1)
    ensures ConvertRate(Rational(1, 2), FromInt(1)) == Rate(1, 2)
    ensures ConvertRate(Rational(1, 1), Rational(1, 2)) == Rate(2, 1)
    ensures ConvertRate(Rational(1, 1000), FromInt(1)) == Rate(1, 1000)
  {
    ConvertWholeInterval(Rational(5, 1), 1);
    ConvertWholeInterval(Rational(1, 2), 1);
    ConvertWholeInterval(Rational(1, 1000), 1);
    assert Gcd(1, 2) == 1;
    ConvertSubMillisecond(Rational(1, 1), Rational(1, 2));
  }
}
