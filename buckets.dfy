/** Buckets and the keyed get-or-create bucket factory (`HostBucketFactory` in
    buckets.py; requests_ratelimiter.py holds an older copy without a bucket
    name, which is this class with `bucketName == None`).

    A bucket is modelled as an object that knows how it was built, reads a
    shared clock, and records every item offered to its `put`; whether the
    rate-limiting library accepts an item is not modelled. */
module Buckets {
  import opened Values
  import opened Rates
  import opened SqliteArgs

  /** `RateItem(name, timestamp, weight)`. */
  datatype RateItem = RateItem(name: string, timestamp: int, weight: int)

  /** The bucket class a session or factory is configured with. */
  datatype BucketClass = InMemoryBucket | SQLiteBucket | CustomBucket(className: string)

  /** How a bucket was constructed: `InMemoryBucket(rates)`,
      `SQLiteBucket.init_from_file(rates=rates, **kwargs)` or
      `bucket_class(rates, **kwargs)`. */
  datatype BucketSpec =
    | InMemory(rates: seq<Rate>)
    | SQLite(rates: seq<Rate>, kwargs: Kwargs)
    | Custom(className: string, rates: seq<Rate>, kwargs: Kwargs)

  /** The bucket a factory or a single-bucket session creates
      (`_create_bucket`, and the same dispatch in `LimiterMixin.__init__`).
      Every bucket gets the configured rates; an SQLite bucket gets only the
      supported arguments, and a named one its own table unless a table was
      given. */
  function NewBucketSpec(cls: BucketClass, rates: seq<Rate>, kwargs: Kwargs, name: Option<string>): (s: BucketSpec)
    ensures s.rates == rates
    ensures s.InMemory? <==> cls.InMemoryBucket?
    ensures s.SQLite? <==> cls.SQLiteBucket?
    ensures s.SQLite? ==> s.kwargs == SqliteKwargs(kwargs, name) && s.kwargs.Keys <= SupportedParams
    ensures s.SQLite? && Truthy(name) && "table" !in kwargs ==>
              "table" in s.kwargs && s.kwargs["table"] == Text(TableName(name.value))
    ensures s.Custom? ==> s.className == cls.className && s.kwargs == kwargs
  {
    match cls
    case InMemoryBucket => InMemory(rates)
    case SQLiteBucket =>
      TableRule(kwargs, name);
      SQLite(rates, SqliteKwargs(kwargs, name))
    case CustomBucket(c) => Custom(c, rates, kwargs)
  }

  /** A `path` given for an SQLite bucket reaches the bucket as
      `db_path = str(path)`, and a given table or flag is kept as given. */
  lemma SQLitePathReachesBucket(rates: seq<Rate>, kwargs: Kwargs, name: Option<string>)
    ensures var s := NewBucketSpec(SQLiteBucket, rates, kwargs, name);
            && ("path" in kwargs ==> "db_path" in s.kwargs && s.kwargs["db_path"] == Text(Str(kwargs["path"])))
            && ("table" in kwargs ==> "table" in s.kwargs && s.kwargs["table"] == kwargs["table"])
            && ("use_file_lock" in kwargs ==> "use_file_lock" in s.kwargs && s.kwargs["use_file_lock"] == kwargs["use_file_lock"])
  {
    if "path" in kwargs {
      PathBecomesDbPath(kwargs, name);
    }
    TableRule(kwargs, name);
    assert SpecHas(kwargs, name, "use_file_lock") <==> "use_file_lock" in kwargs;
  }

  /** The injected time source that `bucket.now()` reads, in milliseconds. */
  class Clock {
    var ms: int

    constructor (ms: int)
      ensures this.ms == ms
    {
      this.ms := ms;
    }
  }

  class Bucket {
    const spec: BucketSpec
    const clock: Clock
    /** Every item offered to `put`, oldest first. */
    var offered: seq<RateItem>

    constructor (spec: BucketSpec, clock: Clock)
      ensures this.spec == spec && this.clock == clock && offered == []
    {
      this.spec := spec;
      this.clock := clock;
      offered := [];
    }

    /** `bucket.rates`. */
    function Rates(): seq<Rate>
    {
      spec.rates
    }

    /** `bucket.now()`: the time of the clock the bucket was built with. */
    function Now(): (t: int)
      reads clock
      ensures t == clock.ms
    {
      clock.ms
    }

    /** `bucket.put(item)`: the item is offered to the bucket. */
    method Put(item: RateItem)
      modifies this
      ensures offered == old(offered) + [item]
    {
      offered := offered + [item];
    }
  }

  /** Leak interval of the factory, in milliseconds. */
  const LeakIntervalMs: int := 300

  class HostBucketFactory {
    const rates: seq<Rate>
    const bucketClass: BucketClass
    const bucketInitKwargs: Kwargs
    const bucketName: Option<string>
    const clock: Clock
    const leakInterval: int
    /** `self.buckets`: one bucket per name. */
    var buckets: map<string, Bucket>
    /** Every bucket passed to `schedule_leak`, in order. */
    ghost var scheduled: seq<Bucket>

    /** The bucket every name gets. */
    function Template(): BucketSpec
    {
      NewBucketSpec(bucketClass, rates, bucketInitKwargs, bucketName)
    }

    /** At most one bucket per name and no bucket under two names; every
        stored bucket was built from the template on the factory's clock and
        has been scheduled for leaking exactly once; nothing else was. */
    ghost predicate Valid()
      reads this
    {
      && (forall k :: k in buckets ==> buckets[k].spec == Template() && buckets[k].clock == clock)
      && (forall k1, k2 :: k1 in buckets && k2 in buckets && k1 != k2 ==> buckets[k1] != buckets[k2])
      && (forall k :: k in buckets ==> buckets[k] in scheduled)
      && (forall i :: 0 <= i < |scheduled| ==> scheduled[i] in buckets.Values)
      && (forall i, j :: 0 <= i < j < |scheduled| ==> scheduled[i] != scheduled[j])
    }

    /** `HostBucketFactory(rates, bucket_class, bucket_init_kwargs, bucket_name)`. */
    constructor (rates: seq<Rate>, bucketClass: BucketClass, bucketInitKwargs: Option<Kwargs>,
                 bucketName: Option<string>, clock: Clock)
      ensures Valid()
      ensures this.rates == rates && this.bucketClass == bucketClass && this.bucketName == bucketName
      ensures this.bucketInitKwargs == (if bucketInitKwargs.Some? then bucketInitKwargs.value else map[])
      ensures this.clock == clock && leakInterval == LeakIntervalMs
      ensures buckets == map[] && scheduled == []
    {
      this.rates := rates;
      this.bucketClass := bucketClass;
      this.bucketInitKwargs := if bucketInitKwargs.Some? then bucketInitKwargs.value else map[];
      this.bucketName := bucketName;
      this.clock := clock;
      leakInterval := LeakIntervalMs;
      buckets := map[];
      scheduled := [];
    }

    /** `_create_bucket()`. */
    method CreateBucket() returns (b: Bucket)
      ensures fresh(b) && b.spec == Template() && b.clock == clock && b.offered == []
    {
      b := new Bucket(NewBucketSpec(bucketClass, rates, bucketInitKwargs, bucketName), clock);
    }

    /** `schedule_leak(bucket)`: registers the bucket with the leak process. */
    method ScheduleLeak(b: Bucket)
      modifies this
      ensures scheduled == old(scheduled) + [b] && buckets == old(buckets)
    {
      scheduled := scheduled + [b];
    }

    /** `get(item)`: the stored bucket for `item.name`, created, scheduled
        once and stored on first use. An existing name changes nothing. */
    method Get(item: RateItem) returns (b: Bucket)
      requires Valid()
      modifies this
      ensures Valid()
      ensures item.name in buckets && b == buckets[item.name]
      ensures item.name in old(buckets) ==>
                b == old(buckets)[item.name] && buckets == old(buckets) && scheduled == old(scheduled)
      ensures item.name !in old(buckets) ==>
                && fresh(b) && b.offered == []
                && buckets == old(buckets)[item.name := b]
                && scheduled == old(scheduled) + [b]
    {
      if item.name !in buckets {
        var bucket := CreateBucket();
        ScheduleLeak(bucket);
        buckets := buckets[item.name := bucket];
        assert bucket !in old(buckets).Values;
        forall i | 0 <= i < |scheduled| ensures scheduled[i] in buckets.Values {
          if i < |old(scheduled)| {
            assert scheduled[i] == old(scheduled)[i];
            assert scheduled[i] in old(buckets).Values;
            var k :| k in old(buckets) && old(buckets)[k] == scheduled[i];
            assert buckets[k] == scheduled[i];
          } else {
            assert buckets[item.name] == scheduled[i];
          }
        }
      }
      b := buckets[item.name];
    }

    /** `factory[name]`: the same as `get` on an item with that name. */
    method GetItem(name: string) returns (b: Bucket)
      requires Valid()
      modifies this
      ensures Valid()
      ensures name in buckets && b == buckets[name]
      ensures name in old(buckets) ==>
                b == old(buckets)[name] && buckets == old(buckets) && scheduled == old(scheduled)
      ensures name !in old(buckets) ==>
                && fresh(b) && b.offered == []
                && buckets == old(buckets)[name := b]
                && scheduled == old(scheduled) + [b]
    {
      if name !in buckets {
        b := Get(RateItem(name, 0, 1));
        return;
      }
      b := buckets[name];
    }

    /** `wrap_item(name, weight)`: an item stamped with the clock of the
        name's bucket, which is created if absent. */
    method WrapItem(name: string, weight: int) returns (item: RateItem)
      requires Valid()
      modifies this
      ensures Valid()
      ensures item == RateItem(name, clock.ms, weight)
      ensures name in buckets && buckets[name].Now() == item.timestamp
      ensures name in old(buckets) ==> buckets == old(buckets) && scheduled == old(scheduled)
      ensures name !in old(buckets) ==>
                exists b: Bucket :: fresh(b) && buckets == old(buckets)[name := b] && scheduled == old(scheduled) + [b]
    {
      var temp := RateItem(name, 0, weight);
      var bucket := Get(temp);
      var now := bucket.Now();
      item := RateItem(name, now, weight);
    }
  }

  /** A caller that asks the factory for the same name twice gets the
      identical bucket, and only the first call creates and schedules one. */
  method GetTwice(f: HostBucketFactory, name: string) returns (b1: Bucket, b2: Bucket)
    requires f.Valid()
    modifies f
    ensures f.Valid() && b1 == b2 && name in f.buckets && f.buckets[name] == b1
    ensures |f.scheduled| <= |old(f.scheduled)| + 1
    ensures old(f.buckets).Keys <= f.buckets.Keys
  {
    b1 := f.Get(RateItem(name, 0, 1));
    b2 := f.GetItem(name);
  }
}
