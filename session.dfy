/** `LimiterMixin` (requests_ratelimiter.py), the rate-limiting layer that
    `LimiterSession` and `LimiterAdapter` put in front of `send`. The HTTP
    exchange itself is reduced to the host a request goes to and the status
    code of its response; the limiter's acquire and the wall clock are
    oracles. */
module Session {
  import opened Values
  import opened Rates
  import opened RateList
  import opened SqliteArgs
  import opened Buckets
  import opened Decisions
  import opened FillRate
  import opened MaxDelay

  /** The limiter a session acquires through, as far as `_fill_bucket` sees
      it: one whose bucket factory supports `factory[name]` (the per-host
      factory), or one whose factory does not, known by its `buckets()`. */
  datatype Limiter = ByKey(factory: HostBucketFactory) | Listed(buckets: seq<Bucket>)

  /** The constructor arguments of `LimiterMixin` this model uses. */
  datatype Config = Config(
    rates: RateArgs,
    bucketClass: BucketClass,
    bucketKwargs: Option<Kwargs>,
    maxDelay: Option<int>,
    perHost: bool,
    limitStatuses: seq<int>,
    bucketName: Option<string>)

  /** The defaults of `LimiterMixin.__init__`. */
  function DefaultConfig(): Config
  {
    Config(DefaultRateArgs(), InMemoryBucket, None, None, true, [429], None)
  }

  /** A session built with the defaults and no limiter of its own gets a
      per-host factory of in-memory buckets with no Rate at all, and treats
      only status 429 as a rate-limit response. */
  lemma DefaultsSelectPerHost()
    ensures var c := DefaultConfig();
            && SelectMode(false, c.perHost, c.bucketName) == PerHostFactory
            && ArgsRepresentable(c.rates) && SessionRates(c.rates) == []
            && V2Compatible(c.bucketClass) == InMemoryBucket && InitKwargs(c.bucketKwargs) == map[]
            && c.limitStatuses == [429] && c.maxDelay.None?
  {
    DefaultRatesEmpty();
  }

  /** `bucket_kwargs or {}`. */
  function InitKwargs(bucketKwargs: Option<Kwargs>): (k: Kwargs)
    ensures bucketKwargs.None? ==> k == map[]
    ensures bucketKwargs.Some? ==> k == bucketKwargs.value
  {
    if bucketKwargs.Some? then bucketKwargs.value else map[]
  }

  /** What `_fill_bucket` did: put `count` filler items stamped `now` to
      saturate `rate`, returned early for want of a bucket, or raised
      `IndexError` on a bucket without rates. */
  datatype FillOutcome = Filled(rate: Rate, count: nat, now: int) | NoBucket | NoRates

  /** What `send` ends in: the response, the `RuntimeError` of the
      `max_delay` loop, or the `IndexError` of a fill. */
  datatype SendResult = Response(status: int) | RuntimeError(attempts: nat) | IndexError

  class LimiterMixin {
    const limiter: Limiter
    const customLimiter: bool
    const mode: Mode
    const limitStatuses: seq<int>
    const maxDelay: Option<int>
    const perHost: bool
    const bucketName: Option<string>
    /** `_default_bucket`, a random UUID string in the source. */
    const defaultBucket: string

    function Factories(): set<HostBucketFactory>
    {
      if limiter.ByKey? then {limiter.factory} else {}
    }

    /** The buckets `_fill_bucket` may put into. */
    function Buckets(): set<Bucket>
      reads Factories()
    {
      if limiter.ByKey? then limiter.factory.buckets.Values
      else set i | 0 <= i < |limiter.buckets| :: limiter.buckets[i]
    }

    /** The mode follows from the configuration, the limiter matches it, and a per-host
        factory keeps its own invariant. */
    ghost predicate Valid()
      reads Factories()
    {
      && mode == SelectMode(customLimiter, perHost, bucketName)
      && (mode == PerHostFactory ==> limiter.ByKey?)
      && (mode == SingleBucket ==> limiter.Listed? && |limiter.buckets| == 1)
      && (limiter.ByKey? ==> limiter.factory.Valid())
    }

    /** `_bucket_name(request)` for a request to `host`. */
    function Key(host: string): (k: string)
      ensures Truthy(bucketName) ==> k == bucketName.value
      ensures !Truthy(bucketName) && perHost ==> k == host
      ensures !Truthy(bucketName) && !perHost ==> k == defaultBucket
    {
      BucketKey(bucketName, perHost, defaultBucket, host)
    }

    /** `LimiterMixin.__init__`: the rate list from the `per_*` arguments,
        then a given limiter, a fresh per-host factory or one fresh shared
        bucket, all on `clock`. `defaultBucket` stands for `str(uuid4())`. */
    constructor (config: Config, given: Option<Limiter>, clock: Clock, defaultBucket: string)
      requires ArgsRepresentable(config.rates)
      requires given.Some? && given.value.ByKey? ==> given.value.factory.Valid()
      ensures Valid()
      ensures mode == SelectMode(given.Some?, config.perHost, config.bucketName)
      ensures given.Some? ==> limiter == given.value
      ensures mode == PerHostFactory ==>
                && fresh(limiter.factory) && limiter.factory.buckets == map[] && limiter.factory.scheduled == []
                && limiter.factory.rates == SessionRates(config.rates)
                && limiter.factory.bucketClass == V2Compatible(config.bucketClass)
                && limiter.factory.bucketInitKwargs == InitKwargs(config.bucketKwargs)
                && limiter.factory.bucketName == None && limiter.factory.clock == clock
      ensures mode == SingleBucket ==>
                && fresh(limiter.buckets[0]) && limiter.buckets[0].offered == [] && limiter.buckets[0].clock == clock
                && limiter.buckets[0].spec == NewBucketSpec(V2Compatible(config.bucketClass), SessionRates(config.rates),
                                                            InitKwargs(config.bucketKwargs), config.bucketName)
      ensures limitStatuses == config.limitStatuses && maxDelay == config.maxDelay
      ensures perHost == config.perHost && bucketName == config.bucketName && this.defaultBucket == defaultBucket
    {
      var rates := SessionRates(config.rates);
      var cls := V2Compatible(config.bucketClass);
      var initKwargs := InitKwargs(config.bucketKwargs);
      var m := SelectMode(given.Some?, config.perHost, config.bucketName);
      if m == CustomLimiter {
        limiter := given.value;
      } else if m == PerHostFactory {
        var factory := new HostBucketFactory(rates, cls, Some(initKwargs), None, clock);
        limiter := ByKey(factory);
      } else {
        var bucket := new Bucket(NewBucketSpec(cls, rates, initKwargs, config.bucketName), clock);
        limiter := Listed([bucket]);
      }
      customLimiter := m == CustomLimiter;
      mode := m;
      limitStatuses := config.limitStatuses;
      maxDelay := config.maxDelay;
      perHost := config.perHost;
      bucketName := config.bucketName;
      this.defaultBucket := defaultBucket;
    }

    /** The bucket `_fill_bucket` uses for `key`: the factory's bucket for
        the key, created and scheduled on first use, or the first of the
        limiter's buckets if it has any. */
    twostate predicate LookupEffect(key: string, new target: Option<Bucket>)
      reads Factories()
    {
      && (limiter.ByKey? ==>
            && key in limiter.factory.buckets && target == Some(limiter.factory.buckets[key])
            && (key in old(limiter.factory.buckets) ==>
                  limiter.factory.buckets == old(limiter.factory.buckets) &&
                  limiter.factory.scheduled == old(limiter.factory.scheduled))
            && (key !in old(limiter.factory.buckets) ==>
                  && fresh(target.value)
                  && limiter.factory.buckets == old(limiter.factory.buckets)[key := target.value]
                  && limiter.factory.scheduled == old(limiter.factory.scheduled) + [target.value]))
      && (limiter.Listed? ==> target == (if limiter.buckets == [] then None else Some(limiter.buckets[0])))
    }

    /** What one `_fill_bucket` for a request to `host` does: it looks the
        bucket up, then puts the fillers of the smallest-interval rate into
        that bucket and touches no other. */
    twostate predicate FillEffect(host: string, outcome: FillOutcome, new target: Option<Bucket>)
      reads Factories(), Buckets()
    {
      && LookupEffect(Key(host), target)
      && (outcome.NoBucket? <==> target.None?)
      && (target.Some? ==>
            && (outcome.NoRates? <==> target.value.Rates() == [])
            && (outcome.Filled? ==>
                  outcome.rate == Tightest(target.value.Rates()) && outcome.count == FillCount(outcome.rate.limit))
            && target.value.offered ==
                 (if fresh(target.value) then [] else old(target.value.offered)) +
                 (if outcome.Filled? then Fillers(Key(host), outcome.now, outcome.count) else []))
      && (forall b :: b in Buckets() && !fresh(b) && Some(b) != target ==> b.offered == old(b.offered))
    }

    /** The look-up half of `_fill_bucket`: `factory[name]` or
        `buckets()[0]`. */
    method LookUp(key: string) returns (target: Option<Bucket>)
      requires Valid()
      modifies Factories()
      ensures Valid()
      ensures LookupEffect(key, target)
      ensures target.Some? && fresh(target.value) ==> target.value.offered == []
      ensures target.Some? ==> target.value in Buckets()
      ensures old(Buckets()) <= Buckets()
    {
      match limiter {
        case ByKey(f) =>
          var b := f.GetItem(key);
          target := Some(b);
          forall v | v in old(f.buckets.Values) ensures v in f.buckets.Values {
            var k :| k in old(f.buckets) && old(f.buckets)[k] == v;
            assert f.buckets[k] == v;
          }
        case Listed(bs) =>
          target := if |bs| > 0 then Some(bs[0]) else None;
      }
    }

    /** `_fill_bucket(request)` for a request to `host`. */
    method FillBucket(host: string) returns (outcome: FillOutcome, target: Option<Bucket>)
      requires Valid()
      modifies Factories(), Buckets()
      ensures Valid()
      ensures FillEffect(host, outcome, target)
      ensures outcome.Filled? ==> outcome.now == target.value.Now()
      ensures mode == PerHostFactory ==>
                forall k :: k in old(limiter.factory.buckets) && k != host ==>
                  k in limiter.factory.buckets && limiter.factory.buckets[k].offered == old(limiter.factory.buckets[k].offered)
    {
      var key := Key(host);
      target := LookUp(key);
      if target.None? {
        outcome := NoBucket;
        return;
      }
      outcome := PutFillers(target.value, key);
      if mode == PerHostFactory {
        assert key == host;
      }
    }

    /** `send(request)` for a request to `host` whose response has status
        `status`. With `max_delay` set the request goes out only after a
        successful non-blocking acquire, and `RuntimeError` is raised once
        the elapsed time reaches `max_delay`; otherwise the blocking acquire
        is taken to return. The bucket is filled iff the status is one of
        `limit_statuses`. */
    method Send(host: string, status: int, acquire: nat -> bool, clock: nat -> int)
      returns (result: SendResult, fill: Option<FillOutcome>, target: Option<Bucket>)
      requires Valid()
      requires maxDelay.Some? ==> ClockAdvances(clock)
      modifies Factories(), Buckets()
      ensures Valid()
      ensures result.RuntimeError? ==> maxDelay.Some? && TimedOutAt(maxDelay.value, acquire, clock, result.attempts)
      ensures maxDelay.Some? && !result.RuntimeError? ==> exists n :: AcquiredAt(maxDelay.value, acquire, clock, n)
      ensures fill.Some? <==> !result.RuntimeError? && status in limitStatuses
      ensures result.Response? ==> result.status == status
      ensures result.IndexError? <==> fill == Some(NoRates)
      ensures fill.Some? ==> FillEffect(host, fill.value, target)
      ensures fill.None? ==>
                unchanged(Factories()) && forall b :: b in old(Buckets()) ==> b.offered == old(b.offered)
    {
      fill, target := None, None;
      if maxDelay.Some? {
        var acquired := AcquireWithin(maxDelay.value, acquire, clock);
        if acquired.TimedOut? {
          result := RuntimeError(acquired.attempts);
          return;
        }
      }
      if status in limitStatuses {
        var outcome;
        outcome, target := FillBucket(host);
        fill := Some(outcome);
        if outcome.NoRates? {
          result := IndexError;
          return;
        }
      }
      result := Response(status);
    }
  }

  /** The put half of `_fill_bucket`: read the bucket's clock once, pick the
      smallest-interval rate (raising `IndexError` when there is none) and
      put that rate's limit many items stamped with that time. */
  method PutFillers(b: Bucket, key: string) returns (outcome: FillOutcome)
    modifies b
    ensures outcome != NoBucket
    ensures outcome.NoRates? <==> b.Rates() == []
    ensures outcome.Filled? ==>
              && outcome.rate == Tightest(b.Rates()) && outcome.count == FillCount(outcome.rate.limit)
              && outcome.now == b.Now()
    ensures b.offered == old(b.offered) + (if outcome.Filled? then Fillers(key, outcome.now, outcome.count) else [])
  {
    var now := b.Now();
    var rates := b.Rates();
    if rates == [] {
      outcome := NoRates;
      return;
    }
    var rate := SortByInterval(rates)[0];
    SortedHeadIsTightest(rates);
    var count := FillCount(rate.limit);
    var n := 0;
    while n < count
      invariant 0 <= n <= count
      invariant b.offered == old(b.offered) + Fillers(key, now, n)
    {
      b.Put(RateItem(key, now, 1));
      n := n + 1;
    }
    outcome := Filled(rate, count, now);
  }
}
