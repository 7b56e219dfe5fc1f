# requests-ratelimiter in Dafny

A model of the rules that requests-ratelimiter wraps around the
`pyrate_limiter` leaky-bucket engine when it rate-limits `requests`
sessions and transport adapters:

- turning `per_second`, `per_minute`, `per_hour`, `per_day`, `per_month`
  and `burst` into a list of whole-number Rates (`_convert_rate` and the
  dict-literal comprehension of `LimiterMixin.__init__`);
- choosing between a given limiter, one bucket per host and one shared
  bucket, and choosing the bucket key of a request (`_bucket_name`);
- the keyed get-or-create bucket factory `HostBucketFactory` (`get`,
  `__getitem__`, `wrap_item`, `_create_bucket`), with `schedule_leak`
  recorded in a ghost log;
- the normalisation of SQLite bucket arguments (`prepare_sqlite_kwargs`)
  and the filtering of base-class keyword arguments (`_get_valid_kwargs`);
- `send`: the `max_delay` retry loop, and the catch-up fill of the bucket
  (`_fill_bucket`) when a response status is a rate-limit status.

Modules, one per file:

| file | module | what it holds |
|---|---|---|
| values.dfy | `Values` | `Option`, keyword-argument values, Python truthiness of a name |
| rationals.dfy | `Rationals` | exact rationals for `Fraction`, gcd reduction, `limit_denominator(1000)` where exact |
| rates.dfy | `Rates` | `Rate`, `int()` truncation, `_convert_rate` and its properties |
| ordered_dict.dfy | `OrderedDict` | evaluation of a Python dict literal with repeated keys |
| rate_list.dfy | `RateList` | `Duration` constants in milliseconds, the session's rate list |
| sqlite_kwargs.dfy | `SqliteArgs` | `prepare_sqlite_kwargs` |
| valid_kwargs.dfy | `ValidKwargs` | `_get_valid_kwargs` with explicit parameter lists |
| buckets.dfy | `Buckets` | `RateItem`, bucket construction, `Bucket`, `Clock`, `HostBucketFactory` |
| decisions.dfy | `Decisions` | mode selection, v2 class-name compatibility, bucket keys |
| fill_rate.dfy | `FillRate` | the stable sort by interval, the rate a fill saturates, filler items |
| max_delay.dfy | `MaxDelay` | the `max_delay` retry loop over acquire and clock oracles |
| session.dfy | `Session` | `LimiterMixin`: construction, `_fill_bucket`, `send` |

Limits are exact rationals. A Python `Fraction` is always normalised by
the gcd, and `limit_denominator(1000)` returns a fraction unchanged when
its normalised denominator is at most 1000. The model covers exactly those
limits, so there `limit_denominator` is gcd reduction. Durations are
integers in milliseconds, as pyrate_limiter v4's `Duration` values are.

Both copies of `HostBucketFactory` are one class with an optional bucket
name. The copy in requests_ratelimiter/requests_ratelimiter.py has no name
and calls `_prepare_sqlite_kwargs` without one; it is the class with
`bucketName == None`, and `LimiterMixin` builds it that way.

A bucket is an object that knows how it was built, reads a shared
injected clock for `now()`, and records every item offered to `put`.

Where the code and its tests disagree, the model follows the code. The
test case `(1, 0.5)` at test/test_requests_ratelimiter.py:153 expects
`Rate(1, 0.5)`. The sub-millisecond branch of `_convert_rate` turns one
request per 0.5 ms into two requests per 1 ms, and
`Rates.ConvertRateExamples` proves that result.

`_fill_bucket` on a bucket with no rates indexes an empty sorted list and
raises `IndexError`; it is not a no-op. The model keeps that error path
(`Session.FillOutcome.NoRates`, `Session.SendResult.IndexError`). With all
`per_*` arguments left at 0 the rate list is empty
(`RateList.DefaultRatesEmpty`).

A bucket name of `""` is not `None`, so it rules out the per-host factory.
It is also falsy, so `_bucket_name` still keys requests by host. The shared
bucket then receives items named after each host
(`Decisions.SharedBucketKey`).

## Model

| member | source | states |
|---|---|---|
| Rationals.Reduce | requests_ratelimiter/requests_ratelimiter.py:303 | the normal form of a `Fraction`: lowest terms, positive denominator, same value, denominator not larger |
| Rationals.LimitDenominator | requests_ratelimiter/requests_ratelimiter.py:303 | `limit_denominator(1000)` on a value whose normal form has a denominator of at most 1000 is that normal form: same value, lowest terms, denominator at most 1000 |
| Rationals.ReduceLowest | requests_ratelimiter/requests_ratelimiter.py:303 | a fraction already in lowest terms is left as it is |
| Rationals.ReduceScaledDen | requests_ratelimiter/requests_ratelimiter.py:305-308 | scaling the numerator of an interval by the limit's denominator never raises the denominator of its normal form, so the sub-millisecond `limit_denominator` call stays exact |
| Rationals.GcdDivides | requests_ratelimiter/requests_ratelimiter.py:303 | the gcd used for normalisation divides both numbers |
| Rationals.CommonDivisorDividesGcd | requests_ratelimiter/requests_ratelimiter.py:303 | every common divisor divides the gcd, so the reduced fraction is in lowest terms |
| Rates.TruncateToInt | requests_ratelimiter/requests_ratelimiter.py:314 | `int(x)` truncates toward zero: the result has the sign of `x` and differs from it by less than 1 |
| Rates.TruncateExact | requests_ratelimiter/requests_ratelimiter.py:314 | `int(x)` of a whole number is that number |
| Rates.ConvertedInterval | requests_ratelimiter/requests_ratelimiter.py:305 | the folded interval has the same value as `interval * limit_fraction.denominator`, kept over the interval's own denominator |
| Rates.ConvertRate | requests_ratelimiter/requests_ratelimiter.py:296-314 | every converted Rate has an interval of at least 1 ms |
| Rates.ConvertWholeInterval | requests_ratelimiter/requests_ratelimiter.py:303-305 | a limit `p/q` in lowest terms with `q <= 1000` over a whole interval `I >= 1` becomes `Rate(p, I*q)` |
| Rates.ConvertSubMillisecond | requests_ratelimiter/requests_ratelimiter.py:307-311 | when the folded interval `n/d` lies strictly between 0 and 1 ms, the limit is multiplied by `d` and the interval becomes `n` |
| Rates.ConvertPreservesRate | requests_ratelimiter/requests_ratelimiter.py:302-314 | when the folded interval is whole or below 1 ms, the Rate allows exactly `limit / interval` requests per millisecond |
| Rates.PreservesRateSub | requests_ratelimiter/requests_ratelimiter.py:307-314 | the rate is preserved through the sub-millisecond branch |
| Rates.PreservesRateWhole | requests_ratelimiter/requests_ratelimiter.py:303-314 | the rate is preserved when the folded interval is a whole number |
| Rates.ConvertZeroInterval | requests_ratelimiter/requests_ratelimiter.py:313-314 | a zero interval (a burst under 1 ms truncates to 0) is raised to 1 ms and keeps the reduced limit |
| Rates.ConvertRateExamples | requests_ratelimiter/requests_ratelimiter.py:296-314 | `(5,1)` gives `(5,1)`, `(1/2,1)` gives `(1,2)`, `(1/1000,1)` gives `(1,1000)`, and `(1,1/2)` gives `(2,1)` |
| OrderedDict.Assign | requests_ratelimiter/requests_ratelimiter.py:102-108 | `d[k] = v` overwrites a present key in place and appends a new key; the key set gains `k` |
| OrderedDict.FirstIndex | requests_ratelimiter/requests_ratelimiter.py:102-108 | the position of a key's first entry in a literal |
| OrderedDict.DictLiteral | requests_ratelimiter/requests_ratelimiter.py:102-108 | a dict literal yields each key once, exactly the literal's keys, each with the value of its last entry |
| OrderedDict.DictLiteralOrder | requests_ratelimiter/requests_ratelimiter.py:102-109 | the dict iterates its keys in the order of their first appearance in the literal |
| OrderedDict.DictLiteralDistinct | requests_ratelimiter/requests_ratelimiter.py:102-108 | a literal with distinct keys evaluates to its entries in order |
| OrderedDict.DictLiteralLeadingDuplicate | requests_ratelimiter/requests_ratelimiter.py:102-103 | when the second entry repeats the first key, it overwrites the first entry in first position |
| RateList.NonZeroEntries | requests_ratelimiter/requests_ratelimiter.py:110 | the `if limit` filter keeps exactly the entries with a non-zero limit |
| RateList.NonZeroEntriesAppend | requests_ratelimiter/requests_ratelimiter.py:101-110 | the filter keeps the entries' order: filtering a list with one more entry filters the prefix and appends that entry exactly when its limit is non-zero |
| RateList.NonZero | requests_ratelimiter/requests_ratelimiter.py:109 | `if limit` holds exactly when the limit's value differs from zero |
| RateList.SecondKey | requests_ratelimiter/requests_ratelimiter.py:103 | the per-second key is `1000 * burst` milliseconds truncated toward zero: its magnitude is the whole part of `1000 * burst` and its sign follows `burst` |
| RateList.RateEntries | requests_ratelimiter/requests_ratelimiter.py:102-108 | the dict literal has five entries, the first keyed by the burst interval with value `per_second * burst`; the other four keys are distinct, and the first key repeats one of them exactly when the burst interval is one minute, hour, day or month |
| RateList.DefaultRateArgs | requests_ratelimiter/requests_ratelimiter.py:82-87 | by default every `per_*` limit is zero and `burst` is 1 |
| RateList.ConvertEach | requests_ratelimiter/requests_ratelimiter.py:100-101 | one converted Rate per kept entry, in order |
| RateList.ConvertEachMembers | requests_ratelimiter/requests_ratelimiter.py:100-101 | every kept entry yields a Rate in the list and every Rate comes from a kept entry |
| RateList.SessionDict | requests_ratelimiter/requests_ratelimiter.py:102-108 | the interval-keyed dict has distinct keys, at most five entries, all convertible |
| RateList.SessionRates | requests_ratelimiter/requests_ratelimiter.py:100-110 | the rate list has at most five Rates, each with an interval of at least 1 ms |
| RateList.SessionRatesMembers | requests_ratelimiter/requests_ratelimiter.py:100-110 | one Rate per non-zero limit the dict keeps, and no other |
| RateList.SessionRatesInOrder | requests_ratelimiter/requests_ratelimiter.py:100-110 | when `burst` does not make the per-second key collide, the list follows second, minute, hour, day, 30 days with zero limits dropped |
| RateList.BurstSixtyOverwritesPerSecond | requests_ratelimiter/requests_ratelimiter.py:102-103 | with `burst=60` the per-second key equals the minute key, so `per_minute` overwrites the per-second limit |
| RateList.DefaultRatesEmpty | requests_ratelimiter/requests_ratelimiter.py:82-110 | the default arguments produce no Rate |
| RateList.FivePerSecond | requests_ratelimiter/requests_ratelimiter.py:100-110 | `per_second=5` produces exactly `[Rate(5, 1000)]` |
| SqliteArgs.SqliteKwargs | requests_ratelimiter/buckets.py:62-75 | the prepared arguments hold only the four supported keys, each present exactly when its source key or a non-empty name provides it |
| SqliteArgs.PrepareSqliteKwargs | requests_ratelimiter/buckets.py:62-75 | the copy-pop-assign-filter steps compute exactly the declarative result; the caller's map is a value and is not changed |
| SqliteArgs.PathBecomesDbPath | requests_ratelimiter/buckets.py:65-66 | a given `path` ends up as `db_path = str(path)`, overriding a given `db_path`, and no `path` key survives |
| SqliteArgs.TableRule | requests_ratelimiter/buckets.py:70-71 | a given `table` is kept; otherwise `table` is present iff the name is non-empty, and then it is `bucket_<name>` |
| SqliteArgs.SqliteKwargsIdempotent | requests_ratelimiter/buckets.py:64-75 | preparing prepared arguments again with the same name changes nothing |
| ValidKwargs.ValidKwargs | requests_ratelimiter/requests_ratelimiter.py:317-320 | a keyword argument is passed on iff the base constructor has a parameter of that name and its value is not `None`, with its value |
| ValidKwargs.ValidKwargsIdempotent | requests_ratelimiter/requests_ratelimiter.py:317-320 | filtering filtered arguments again keeps all of them |
| ValidKwargs.SessionGetsNoKwargs | requests_ratelimiter/requests_ratelimiter.py:157-158 | a session passes no extra argument on to `requests.Session` |
| ValidKwargs.AdapterKeepsItsParams | requests_ratelimiter/requests_ratelimiter.py:157-158 | an adapter passes a non-`None` `max_retries` on and drops the rate arguments |
| Buckets.NewBucketSpec | requests_ratelimiter/buckets.py:42-51 | every bucket gets the configured rates; the class picks in-memory, SQLite (with exactly the arguments `_prepare_sqlite_kwargs` returns, so only supported keys and a named one getting `bucket_<name>` unless a table was given) or the custom class with the raw arguments |
| Buckets.SQLitePathReachesBucket | requests_ratelimiter/buckets.py:64-71 | an SQLite bucket built by the factory receives a given `path` as `db_path = str(path)`, and a given table or file-lock flag unchanged |
| Buckets.Bucket.Put | requests_ratelimiter/requests_ratelimiter.py:243 | `put` offers the item to the bucket, after all earlier ones |
| Buckets.HostBucketFactory.constructor | requests_ratelimiter/buckets.py:10-22 | a new factory keeps its configuration, uses `{}` for absent arguments, has a 300 ms leak interval, no bucket and nothing scheduled |
| Buckets.HostBucketFactory.CreateBucket | requests_ratelimiter/buckets.py:42-51 | a fresh, empty bucket built from the factory's template on its clock |
| Buckets.HostBucketFactory.ScheduleLeak | requests_ratelimiter/buckets.py:37 | the bucket is appended to the leak log and the map is untouched |
| Buckets.HostBucketFactory.Get | requests_ratelimiter/buckets.py:32-40 | an existing key returns its bucket and changes nothing; a new key gets one fresh bucket, stored under the key and scheduled once, other entries unchanged; at most one bucket per key and each bucket scheduled exactly once |
| Buckets.HostBucketFactory.GetItem | requests_ratelimiter/buckets.py:53-59 | `factory[name]` behaves as `get` on an item with that name |
| Buckets.HostBucketFactory.WrapItem | requests_ratelimiter/buckets.py:24-30 | the item has the given name and weight and the timestamp of its key's bucket `now()`, the bucket being created if absent |
| Buckets.GetTwice | requests_ratelimiter/buckets.py:32-59 | two look-ups of one name return the identical bucket, schedule at most one bucket and only grow the map |
| Decisions.SelectMode | requests_ratelimiter/requests_ratelimiter.py:125-148 | a given limiter always wins; otherwise per-host with no bucket name gives the per-host factory; otherwise one shared bucket |
| Decisions.V2Compatible | requests_ratelimiter/requests_ratelimiter.py:119-121 | `MemoryQueueBucket` and `MemoryListBucket` become `InMemoryBucket`; every other class is kept |
| Decisions.BucketKey | requests_ratelimiter/requests_ratelimiter.py:196-203 | a non-empty bucket name wins, else the host when per-host, else the session's default key |
| Decisions.PerHostKeysSeparate | requests_ratelimiter/requests_ratelimiter.py:196-203 | with the per-host factory the key is the host, so different hosts never share a key |
| Decisions.SharedBucketKey | requests_ratelimiter/requests_ratelimiter.py:196-203 | with the shared bucket every host gets the same key, except with an empty bucket name and `per_host`, where the key is the host |
| FillRate.Insert | requests_ratelimiter/requests_ratelimiter.py:237 | one insertion step of the stable sort; its head is `x` unless the first element has a smaller interval |
| FillRate.InsertMultiset | requests_ratelimiter/requests_ratelimiter.py:237 | insertion adds exactly the inserted rate |
| FillRate.InsertSorted | requests_ratelimiter/requests_ratelimiter.py:237 | insertion into a sorted list keeps it sorted by interval |
| FillRate.SortByInterval | requests_ratelimiter/requests_ratelimiter.py:237 | `sorted(rates, key=interval)` keeps the length |
| FillRate.SortByIntervalSorts | requests_ratelimiter/requests_ratelimiter.py:237 | the sort orders by interval and is a permutation of its input |
| FillRate.Tightest | requests_ratelimiter/requests_ratelimiter.py:237 | the chosen rate is one of the bucket's rates with no larger interval than any other |
| FillRate.TightestFirst | requests_ratelimiter/requests_ratelimiter.py:237 | among rates of equal smallest interval the chosen one comes first |
| FillRate.SortedHeadIsTightest | requests_ratelimiter/requests_ratelimiter.py:237 | the head of the stable sort is that earliest smallest-interval rate |
| FillRate.Fillers | requests_ratelimiter/requests_ratelimiter.py:241-243 | `count` items, each with the bucket key, the one timestamp and weight 1 |
| MaxDelay.AcquireWithin | requests_ratelimiter/requests_ratelimiter.py:170-185 | the loop ends with a success only on a successful acquire after failed ones whose deadline checks passed, and raises only after a failed acquire once the elapsed time reached `max_delay` |
| MaxDelay.OutcomeUnique | requests_ratelimiter/requests_ratelimiter.py:173-185 | a run cannot both proceed and raise, and each happens at one attempt count only |
| MaxDelay.NoDelayAllowed | requests_ratelimiter/requests_ratelimiter.py:179-184 | with `max_delay <= 0` a failed first attempt raises at once |
| MaxDelay.FirstAttemptProceeds | requests_ratelimiter/requests_ratelimiter.py:174-176 | a successful first attempt proceeds and never raises |
| Session.LimiterMixin.constructor | requests_ratelimiter/requests_ratelimiter.py:80-158 | the mode follows the selection rule; a given limiter is kept; per-host builds a fresh empty factory with the session's rates, compatible class, `{}` default arguments and no name; otherwise one fresh shared bucket built with the bucket name |
| Session.LimiterMixin.LookUp | requests_ratelimiter/requests_ratelimiter.py:224-228 | the bucket is the factory's bucket for the key (created and scheduled on first use) or the first of the limiter's buckets, if any |
| Session.LimiterMixin.FillBucket | requests_ratelimiter/requests_ratelimiter.py:205-243 | no bucket gives an early return; a bucket without rates gives `IndexError`; otherwise exactly `limit` fillers of the earliest smallest-interval rate, stamped with the bucket's `now()`, go into that bucket and every other bucket is unchanged; per host, no other host's bucket is touched |
| Session.PutFillers | requests_ratelimiter/requests_ratelimiter.py:234-243 | the bucket's items grow by exactly the filler items of the tightest rate, or not at all when it has no rates |
| Session.LimiterMixin.Send | requests_ratelimiter/requests_ratelimiter.py:161-194 | with `max_delay` a request proceeds only after a successful acquire and `RuntimeError` comes exactly from a timed-out loop; the bucket is filled iff the request proceeded and its status is in `limit_statuses`, so an empty list never fills; without a fill no filler item is put |
| Session.DefaultsSelectPerHost | requests_ratelimiter/requests_ratelimiter.py:82-136 | with the default arguments and no limiter of its own, a session gets a per-host factory of in-memory buckets with no Rate, no extra bucket arguments, no `max_delay` and `limit_statuses == [429]` |
| Session.InitKwargs | requests_ratelimiter/requests_ratelimiter.py:123 | `bucket_kwargs or {}`: no bucket arguments become an empty dict, given ones are kept |
| Session.LimiterMixin.Key | requests_ratelimiter/requests_ratelimiter.py:221 | the key a request is filled under is a non-empty bucket name if set, else the host when per-host, else the session's default bucket |
| FillRate.FillCount | requests_ratelimiter/requests_ratelimiter.py:241 | `range(rate.limit)` runs `limit` iterations for a positive limit and none otherwise |
| Values.Truthy | requests_ratelimiter/buckets.py:70 | `if bucket_name` holds exactly when a name is given and it is not the empty string |
| Values.Str | requests_ratelimiter/buckets.py:66 | `str` of a string is the string itself and of a path its path string |
| Buckets.Bucket.Now | requests_ratelimiter/buckets.py:29 | `bucket.now()` reads the time of the clock the bucket was built with |

## Left out

- The `pyrate_limiter` engine: `Limiter.try_acquire`, the buckets' acceptance of items in `put`, counting, leaking, the background leak thread and locking. `put` only records what was offered, and the acquire is an oracle.
- Buckets.HostBucketFactory.Get: sequential only, since the source does not synchronise `get`.
- Session.LimiterMixin.Send: the blocking acquire without `max_delay` is taken to return. The acquire does not create the factory's bucket for the key in this model; only a fill does.
- Session.LimiterMixin.Send: the HTTP exchange is left out. The request is reduced to its host, which stands for `urlparse(url).netloc`, and the response to its status code.
- MaxDelay.AcquireWithin: wall-clock `time()` and `sleep(0.05)` are replaced by a clock oracle read in one integer unit shared with `max_delay`. It is assumed to move strictly forward across each sleep. Fractional seconds are not modelled.
- Rates.ConvertRate: covers limits and intervals whose normal form has a denominator of at most 1000. Floats and `limit_denominator` approximating larger denominators are not modelled.
- RateList.SessionRates: covers argument values in that exact range only, and `int(Duration.SECOND * burst)` is taken on the exact product.
- ValidKwargs.ValidKwargs: `inspect.signature` is replaced by an explicit list of parameter names.
- `uuid4()` for the default bucket key is a constructor parameter.
- Pickling (`__attrs__`), logging and the warning of `_fill_bucket` are left out.
- Session.Limiter: a custom limiter is seen only as a factory with `factory[name]` access or as a list of buckets.
- The legacy `requests_ratelimit` package (thin wrappers around the v2 API), the re-exports and the documentation configuration are not part of this model.
