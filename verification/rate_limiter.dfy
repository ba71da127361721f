/** The rate limiter of public endpoints: fixed windows a key, with growing blocks. */
module RateLimiter {
  import opened Text

  const MAX_BLOCK_MS := 15 * 60_000

  type Timestamp = nat

  datatype Bucket = Bucket(count: nat, resetAt: Timestamp, blockedUntil: Timestamp, blocks: nat)

  datatype Result = Result(allowed: bool, remaining: nat, retryAfterSeconds: nat)

  function Pow2(n: nat): (p: nat)
    ensures p >= 1
  {
    if n == 0 then 1 else 2 * Pow2(n - 1)
  }

  function Min(a: nat, b: nat): nat { if a < b then a else b }

  /** Length of the `n`-th block. */
  function BlockMs(windowMs: nat, n: nat): nat
    requires n >= 1
  {
    Min(windowMs * Pow2(n - 1), MAX_BLOCK_MS)
  }

  /** `Math.max(1, Math.ceil(ms / 1000))`. */
  function RetrySeconds(ms: nat): nat {
    var s := (ms + 999) / 1000;
    if s < 1 then 1 else s
  }

  /** The bucket a call counts in: a new window keeps the block and its level. */
  function Current(b: Option<Bucket>, windowMs: nat, now: Timestamp): Bucket {
    match b
    case None => Bucket(0, now + windowMs, 0, 0)
    case Some(b) => if now >= b.resetAt then Bucket(0, now + windowMs, b.blockedUntil, b.blocks) else b
  }

  /** One call: the bucket it leaves and its answer. */
  function Consumed(b: Option<Bucket>, limit: nat, windowMs: nat, now: Timestamp): (Bucket, Result)
    requires limit >= 1
  {
    var c := Current(b, windowMs, now);
    if now < c.blockedUntil then (c, Result(false, 0, RetrySeconds(c.blockedUntil - now)))
    else if c.count >= limit then
      var until := now + BlockMs(windowMs, c.blocks + 1);
      (c.(blocks := c.blocks + 1, blockedUntil := until), Result(false, 0, RetrySeconds(until - now)))
    else (c.(count := c.count + 1), Result(true, limit - c.count - 1, 0))
  }

  class InMemoryRateLimiter {
    const limit: nat
    const windowMs: nat
    var buckets: map<string, Bucket>

    ghost predicate Valid()
      reads this
    {
      limit >= 1 && windowMs >= 1
    }

    constructor (limit: nat, windowMs: nat)
      requires limit >= 1 && windowMs >= 1
      ensures Valid() && this.limit == limit && this.windowMs == windowMs && buckets == map[]
    {
      this.limit, this.windowMs, buckets := limit, windowMs, map[];
    }

    function Lookup(key: string): Option<Bucket>
      reads this
    {
      if key in buckets then Some(buckets[key]) else None
    }

    /** Only the bucket of `key` changes, to what `Consumed` says. */
    method Consume(key: string, timestamp: Timestamp) returns (result: Result)
      requires Valid()
      modifies this
      ensures Valid()
      ensures result == Consumed(old(Lookup(key)), limit, windowMs, timestamp).1
      ensures buckets == old(buckets)[key := Consumed(old(Lookup(key)), limit, windowMs, timestamp).0]
    {
      var bucket: Bucket;
      if key !in buckets {
        bucket := Bucket(0, timestamp + windowMs, 0, 0);
      } else if timestamp >= buckets[key].resetAt {
        bucket := Bucket(0, timestamp + windowMs, buckets[key].blockedUntil, buckets[key].blocks);
      } else {
        bucket := buckets[key];
      }
      if timestamp < bucket.blockedUntil {
        buckets := buckets[key := bucket];
        return Result(false, 0, RetrySeconds(bucket.blockedUntil - timestamp));
      }
      if bucket.count >= limit {
        bucket := bucket.(blocks := bucket.blocks + 1);
        bucket := bucket.(blockedUntil := timestamp + BlockMs(windowMs, bucket.blocks));
        buckets := buckets[key := bucket];
        return Result(false, 0, RetrySeconds(bucket.blockedUntil - timestamp));
      }
      bucket := bucket.(count := bucket.count + 1);
      buckets := buckets[key := bucket];
      return Result(true, limit - bucket.count, 0);
    }

    method Reset(key: string)
      modifies this
      ensures buckets == old(buckets) - {key}
    {
      buckets := buckets - {key};
    }
  }
}
