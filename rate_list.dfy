/** The list of Rates a session builds from its `per_*` and `burst` arguments
    (requests_ratelimiter.py, `LimiterMixin.__init__`, the comprehension over
    a dict literal keyed by interval). Durations are milliseconds, as
    pyrate_limiter's `Duration` values are. */
module RateList {
  import opened Rationals
  import opened Rates
  import opened OrderedDict

  const Second: int := 1000
  const Minute: int := 60 * Second
  const Hour: int := 60 * Minute
  const Day: int := 24 * Hour
  /** `Duration.DAY * 30`, the interval of `per_month`. */
  const Month: int := 30 * Day

  /** The rate arguments of a session, as exact rationals. */
  datatype RateArgs = RateArgs(
    perSecond: Rational,
    perMinute: Rational,
    perHour: Rational,
    perDay: Rational,
    perMonth: Rational,
    burst: Rational)

  /** The session's defaults: every limit 0, burst 1. */
  function DefaultRateArgs(): (a: RateArgs)
    ensures WellFormed(a.perSecond) && WellFormed(a.burst)
    ensures !NonZero(a.perSecond) && !NonZero(a.perMinute) && !NonZero(a.perHour)
    ensures !NonZero(a.perDay) && !NonZero(a.perMonth)
    ensures SameValue(a.burst, FromInt(1))
  {
    RateArgs(FromInt(0), FromInt(0), FromInt(0), FromInt(0), FromInt(0), FromInt(1))
  }

  /** `int(Duration.SECOND * burst)`: `1000 * burst` milliseconds truncated
      toward zero. */
  function SecondKey(burst: Rational): (k: int)
    requires WellFormed(burst)
    ensures Abs(k) * burst.den <= Abs(Second * burst.num) < Abs(k) * burst.den + burst.den
    ensures burst.num >= 0 ==> k >= 0
    ensures burst.num <= 0 ==> k <= 0
  {
    TruncateToInt(Mul(FromInt(Second), burst))
  }

  /** The dict literal's entries, in source order. */
  function RateEntries(a: RateArgs): (r: seq<(int, Rational)>)
    requires WellFormed(a.perSecond) && WellFormed(a.burst)
    ensures |r| == 5 && r[0].0 == SecondKey(a.burst)
    ensures SameValue(r[0].1, Mul(a.perSecond, a.burst))
    ensures DistinctKeys(r[1..])
    ensures r[0].0 in KeySet(r[1..]) <==> SecondKey(a.burst) in {Minute, Hour, Day, Month}
  {
    var r := [ (SecondKey(a.burst), Mul(a.perSecond, a.burst)),
               (Minute, a.perMinute),
               (Hour, a.perHour),
               (Day, a.perDay),
               (Month, a.perMonth) ];
    assert KeySet(r[1..]) == {Minute, Hour, Day, Month} by {
      assert r[1..][0].0 == Minute && r[1..][1].0 == Hour;
      assert r[1..][2].0 == Day && r[1..][3].0 == Month;
    }
    r
  }

  /** The arguments whose limits this model converts exactly: every limit
      (the per-second one after multiplying by burst) has a normal form with a
      denominator of at most 1000. */
  predicate ArgsRepresentable(a: RateArgs)
  {
    && WellFormed(a.perSecond) && WellFormed(a.burst)
    && Representable(Mul(a.perSecond, a.burst))
    && Representable(a.perMinute) && Representable(a.perHour)
    && Representable(a.perDay) && Representable(a.perMonth)
  }

  predicate AllRepresentable(d: seq<(int, Rational)>)
  {
    forall i :: 0 <= i < |d| ==> Representable(d[i].1)
  }

  /** Python's truthiness of a number: `if limit`. */
  predicate NonZero(q: Rational): (b: bool)
    ensures WellFormed(q) ==> (b <==> !SameValue(q, FromInt(0)))
  {
    q.num != 0
  }

  /** The `if limit` filter of the comprehension. */
  function NonZeroEntries(d: seq<(int, Rational)>): (r: seq<(int, Rational)>)
    ensures forall e :: e in r <==> e in d && NonZero(e.1)
    ensures |r| <= |d|
  {
    if d == [] then []
    else
      var rest := NonZeroEntries(d[1..]);
      assert forall e :: e in d <==> e == d[0] || e in d[1..];
      if NonZero(d[0].1) then [d[0]] + rest else rest
  }

  /** The filter keeps the order of the entries: filtering a longer list
      filters its prefix, then keeps the new entry only when non-zero. */
  lemma {:induction false} NonZeroEntriesAppend(d: seq<(int, Rational)>, e: (int, Rational))
    ensures NonZeroEntries(d + [e]) == NonZeroEntries(d) + (if NonZero(e.1) then [e] else [])
  {
    if d != [] {
      assert (d + [e])[1..] == d[1..] + [e];
      NonZeroEntriesAppend(d[1..], e);
    }
  }

  /** `_convert_rate(limit, interval)` over each remaining item. */
  function ConvertEach(d: seq<(int, Rational)>): (rates: seq<Rate>)
    requires AllRepresentable(d)
    ensures |rates| == |d|
    ensures forall i :: 0 <= i < |d| ==> rates[i] == ConvertRate(d[i].1, FromInt(d[i].0))
  {
    seq(|d|, i requires 0 <= i < |d| => ConvertRate(d[i].1, FromInt(d[i].0)))
  }

  lemma ConvertEachMembers(d: seq<(int, Rational)>)
    requires AllRepresentable(d)
    ensures forall e :: e in d ==> ConvertRate(e.1, FromInt(e.0)) in ConvertEach(d)
    ensures forall r :: r in ConvertEach(d) ==>
              exists e :: e in d && r == ConvertRate(e.1, FromInt(e.0))
  {
    var rates := ConvertEach(d);
    forall e | e in d ensures ConvertRate(e.1, FromInt(e.0)) in rates {
      var i :| 0 <= i < |d| && d[i] == e;
      assert rates[i] == ConvertRate(e.1, FromInt(e.0));
    }
    forall r | r in rates ensures exists e :: e in d && r == ConvertRate(e.1, FromInt(e.0)) {
      var i :| 0 <= i < |rates| && rates[i] == r;
      assert d[i] in d;
    }
  }

  /** Every value the dict literal keeps is representable. */
  lemma DictRepresentable(a: RateArgs)
    requires ArgsRepresentable(a)
    ensures AllRepresentable(DictLiteral(RateEntries(a)))
    ensures AllRepresentable(NonZeroEntries(DictLiteral(RateEntries(a))))
  {
    var entries := RateEntries(a);
    var dict := DictLiteral(entries);
    forall i | 0 <= i < |dict| ensures Representable(dict[i].1) {
      var k := dict[i].0;
      assert k in KeySet(entries);
      LastValueRepresentable(entries, k);
    }
    var kept := NonZeroEntries(dict);
    forall i | 0 <= i < |kept| ensures Representable(kept[i].1) {
      assert kept[i] in dict;
    }
  }

  /** The dict literal of `LimiterMixin.__init__`, keyed by interval. */
  function SessionDict(a: RateArgs): (d: seq<(int, Rational)>)
    requires ArgsRepresentable(a)
    ensures AllRepresentable(d) && DistinctKeys(d) && |d| <= 5
  {
    DictRepresentable(a);
    DictLiteral(RateEntries(a))
  }

  /** The `rates` list of `LimiterMixin.__init__`: one Rate per kept non-zero
      limit, each with an interval of at least 1 ms. */
  function SessionRates(a: RateArgs): (rates: seq<Rate>)
    requires ArgsRepresentable(a)
    ensures |rates| <= 5
    ensures forall r :: r in rates ==> r.interval >= 1
  {
    DictRepresentable(a);
    ConvertEach(NonZeroEntries(SessionDict(a)))
  }

  /** A non-zero limit the dict keeps yields the Rate of its interval key, and
      every Rate comes from such a limit. */
  lemma SessionRatesMembers(a: RateArgs)
    requires ArgsRepresentable(a)
    ensures forall e :: e in SessionDict(a) && NonZero(e.1) ==>
              ConvertRate(e.1, FromInt(e.0)) in SessionRates(a)
    ensures forall r :: r in SessionRates(a) ==>
              exists e :: e in SessionDict(a) && NonZero(e.1) && r == ConvertRate(e.1, FromInt(e.0))
  {
    DictRepresentable(a);
    var kept := NonZeroEntries(SessionDict(a));
    ConvertEachMembers(kept);
  }

  lemma {:induction false} LastValueRepresentable(entries: seq<(int, Rational)>, k: int)
    requires AllRepresentable(entries) && k in KeySet(entries)
    ensures Representable(LastValue(entries, k))
  {
    var n := |entries| - 1;
    if entries[n].0 != k {
      var i :| 0 <= i < |entries| && entries[i].0 == k;
      assert entries[..n][i].0 == k;
      LastValueRepresentable(entries[..n], k);
    }
  }

  /** Unless `burst` makes the per-second key collide with another interval,
      the list is the comprehension over the five entries in source order,
      zero limits dropped. */
  lemma SessionRatesInOrder(a: RateArgs)
    requires ArgsRepresentable(a)
    requires SecondKey(a.burst) !in {Minute, Hour, Day, Month}
    ensures SessionDict(a) == RateEntries(a)
    ensures SessionRates(a) == ConvertEach(NonZeroEntries(RateEntries(a)))
  {
    DictLiteralDistinct(RateEntries(a));
  }

  /** With `burst = 60` the per-second key is one minute: the dict keeps that
      key in first position with `per_minute`'s value, so `per_second` is lost
      and the per-minute Rate comes first. */
  lemma BurstSixtyOverwritesPerSecond(a: RateArgs)
    requires ArgsRepresentable(a) && a.burst == FromInt(60)
    ensures SessionRates(a) == ConvertEach(NonZeroEntries(
              [(Minute, a.perMinute), (Hour, a.perHour), (Day, a.perDay), (Month, a.perMonth)]))
  {
    var e := RateEntries(a);
    assert SecondKey(a.burst) == Minute by {
      TruncateExact(Mul(FromInt(Second), a.burst), Minute);
    }
    DictLiteralLeadingDuplicate(e);
  }

  /** The session defaults configure no Rate at all. */
  lemma DefaultRatesEmpty()
    ensures ArgsRepresentable(DefaultRateArgs())
    ensures SessionRates(DefaultRateArgs()) == []
  {
    var a := DefaultRateArgs();
    assert Reduce(Mul(a.perSecond, a.burst)).den <= 1;
    SessionRatesInOrder(a);
  }

  /** `per_second=5`, the configuration of the session tests: one Rate of
      5 requests per 1000 ms. */
  lemma FivePerSecond()
    ensures ArgsRepresentable(DefaultRateArgs().(perSecond := FromInt(5)))
    ensures SessionRates(DefaultRateArgs().(perSecond := FromInt(5))) == [Rate(5, 1000)]
  {
    var a := DefaultRateArgs().(perSecond := FromInt(5));
    assert Reduce(Mul(a.perSecond, a.burst)).den <= 1;
    assert SecondKey(a.burst) == Second by { TruncateExact(Mul(FromInt(Second), a.burst), Second); }
    SessionRatesInOrder(a);
    var kept := NonZeroEntries(RateEntries(a));
    assert kept == [(Second, Rational(5, 1))];
    assert Gcd(5, 1) == 1;
    ConvertWholeInterval(Rational(5, 1), Second);
  }
}
