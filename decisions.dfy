/** The configuration rules of `LimiterMixin` (requests_ratelimiter.py):
    which limiter a session builds, and which bucket key a request uses. */
module Decisions {
  import opened Values
  import opened Buckets

  /** How a session limits: with a limiter it was given, with one bucket per
      host from a `HostBucketFactory`, or with one shared bucket. */
  datatype Mode = CustomLimiter | PerHostFactory | SingleBucket

  /** The `if limiter / elif per_host and bucket_name is None / else` choice
      of `LimiterMixin.__init__`. A given limiter always wins; a bucket name,
      even an empty one, rules out the per-host factory. */
  function SelectMode(hasLimiter: bool, perHost: bool, bucketName: Option<string>): (m: Mode)
    ensures m == CustomLimiter <==> hasLimiter
    ensures m == PerHostFactory <==> !hasLimiter && perHost && bucketName.None?
    ensures m == SingleBucket <==> !hasLimiter && (!perHost || bucketName.Some?)
  {
    if hasLimiter then CustomLimiter
    else if perHost && bucketName.None? then PerHostFactory
    else SingleBucket
  }

  /** The bucket class after the compatibility rule for pyrate_limiter v2
      names: `MemoryQueueBucket` and `MemoryListBucket` become
      `InMemoryBucket`, every other class is kept. */
  function V2Compatible(cls: BucketClass): (r: BucketClass)
    ensures r.InMemoryBucket? <==>
              cls.InMemoryBucket? || cls == CustomBucket("MemoryQueueBucket") || cls == CustomBucket("MemoryListBucket")
    ensures !r.InMemoryBucket? ==> r == cls
    ensures r != CustomBucket("MemoryQueueBucket") && r != CustomBucket("MemoryListBucket")
  {
    if cls.CustomBucket? && cls.className in {"MemoryQueueBucket", "MemoryListBucket"} then InMemoryBucket
    else cls
  }

  /** `_bucket_name(request)`, with the request's host given: a non-empty
      bucket name, else the host when per-host, else the session's fixed
      default key. */
  function BucketKey(bucketName: Option<string>, perHost: bool, defaultBucket: string, host: string): (key: string)
    ensures Truthy(bucketName) ==> key == bucketName.value
    ensures !Truthy(bucketName) ==> key == (if perHost then host else defaultBucket)
  {
    if Truthy(bucketName) then bucketName.value
    else if perHost then host
    else defaultBucket
  }

  /** With a per-host factory each host has its own key, so requests to two
      different hosts never share a bucket. */
  lemma PerHostKeysSeparate(perHost: bool, bucketName: Option<string>, defaultBucket: string, h1: string, h2: string)
    requires SelectMode(false, perHost, bucketName) == PerHostFactory
    ensures BucketKey(bucketName, perHost, defaultBucket, h1) == h1
    ensures h1 != h2 ==> BucketKey(bucketName, perHost, defaultBucket, h1) != BucketKey(bucketName, perHost, defaultBucket, h2)
  {
  }

  /** With the shared bucket a session uses one key for every host, except
      that an empty bucket name with `per_host` set selects the shared bucket
      yet keys requests by host. */
  lemma SharedBucketKey(perHost: bool, bucketName: Option<string>, defaultBucket: string, h1: string, h2: string)
    requires SelectMode(false, perHost, bucketName) == SingleBucket
    ensures bucketName != Some("") || !perHost ==>
              BucketKey(bucketName, perHost, defaultBucket, h1) == BucketKey(bucketName, perHost, defaultBucket, h2)
    ensures perHost && bucketName == Some("") ==> BucketKey(bucketName, perHost, defaultBucket, h1) == h1
  {
  }
}
