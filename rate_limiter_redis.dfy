/** The in-memory fallback of `useRateLimit` (middleware/rateLimiterRedis.js),
    used when no Redis client is configured: a fixed window per client
    address, counted in one bucket table that every limiter of the process
    shares. A rejection carries a Retry-After value in seconds (section 10.2.3
    of RFC 9110). Times are in milliseconds, durations in seconds. */
module FallbackRateLimit {
  import opened Common

  /** A counter and the start of its window. */
  datatype Bucket = Bucket(count: int, ts: int)

  /** `next()`, or 429 with the Retry-After seconds. */
  datatype Verdict = Pass | TooMany(retryAfter: int)

  /** `Math.ceil(n / d)` for a positive divisor. */
  function CeilDiv(n: int, d: int): (q: int)
    requires d > 0
    ensures (q - 1) * d < n <= q * d
  {
    -((-n) / d)
  }

  /** `req.ip || req.connection?.remoteAddress || 'unknown'`. */
  function ClientKey(ip: Option<string>, remote: Option<string>): (key: string)
    ensures Truthy(ip) ==> key == ip.value
    ensures !Truthy(ip) && Truthy(remote) ==> key == remote.value
    ensures !Truthy(ip) && !Truthy(remote) ==> key == "unknown"
  {
    if Truthy(ip) then ip.value else OrElse(remote, "unknown")
  }

  /** A bucket older than the window. */
  predicate Stale(b: Bucket, now: int, duration: int) {
    now - b.ts > duration * 1000
  }

  /** The table after `cleanOld(now, duration)`. */
  function Cleaned(buckets: map<string, Bucket>, now: int, duration: int): map<string, Bucket> {
    map k | k in buckets && !Stale(buckets[k], now, duration) :: buckets[k]
  }

  /** `cleanOld` removes exactly the stale buckets and leaves the others as
      they were. */
  lemma CleanedExactly(buckets: map<string, Bucket>, now: int, duration: int)
    ensures forall k :: k in Cleaned(buckets, now, duration) <==> k in buckets && !Stale(buckets[k], now, duration)
    ensures forall k :: k in Cleaned(buckets, now, duration) ==> Cleaned(buckets, now, duration)[k] == buckets[k]
    ensures forall k :: k in Cleaned(buckets, now, duration) ==> now - Cleaned(buckets, now, duration)[k].ts <= duration * 1000
  {
  }

  /** The outcome of one request under the limiter `(points, duration)` and
      the table after it. */
  function Step(buckets: map<string, Bucket>, points: int, duration: int, key: string, now: int)
    : (Verdict, map<string, Bucket>)
  {
    var cleaned := Cleaned(buckets, now, duration);
    var current := if key in cleaned then cleaned[key] else Bucket(0, now);
    var windowed := if Stale(current, now, duration) then Bucket(0, now) else current;
    var counted := windowed.(count := windowed.count + 1);
    var after := cleaned[key := counted];
    if counted.count > points then (TooMany(CeilDiv(duration * 1000 - (now - counted.ts), 1000)), after)
    else (Pass, after)
  }

  /** One request: the table is cleaned, the client's count goes up by exactly
      one whether or not the request passes, the window start is kept, and the
      request is refused iff the new count exceeds `points`, with a Retry-After
      that rounds the rest of the window up to whole seconds. The reset of a
      stale bucket can never fire, since `cleanOld` has just removed it. */
  lemma StepOutcome(buckets: map<string, Bucket>, points: int, duration: int, key: string, now: int)
    ensures var (v, after) := Step(buckets, points, duration, key, now);
            var cleaned := Cleaned(buckets, now, duration);
            && after.Keys == cleaned.Keys + {key}
            && (forall k :: k in cleaned && k != key ==> after[k] == cleaned[k])
            && after[key].count == (if key in cleaned then cleaned[key].count else 0) + 1
            && after[key].ts == (if key in cleaned then cleaned[key].ts else now)
            && (v.TooMany? <==> after[key].count > points)
            && (v.TooMany? ==> v.retryAfter == CeilDiv(duration * 1000 - (now - after[key].ts), 1000))
  {
    CleanedExactly(buckets, now, duration);
  }

  /** Retry-After lies between 0 and the window length: the bucket that
      refused the request started at most `duration` seconds ago. */
  lemma RetryAfterInWindow(buckets: map<string, Bucket>, points: int, duration: int, key: string, now: int)
    requires duration >= 0
    requires forall k :: k in buckets ==> buckets[k].ts <= now
    ensures var (v, _) := Step(buckets, points, duration, key, now);
            v.TooMany? ==> 0 <= v.retryAfter <= duration
  {
    CleanedExactly(buckets, now, duration);
  }

  /** With `points = 3`, a fourth request from one address inside the window
      is refused, whatever the table held before (the address's bucket is
      either absent or older than the window). */
  lemma FourthRequestRefused(buckets: map<string, Bucket>, duration: int, key: string, t1: int, t2: int, t3: int, t4: int)
    requires key !in buckets || Stale(buckets[key], t1, duration)
    requires t1 <= t2 <= t3 <= t4 && t4 - t1 <= duration * 1000
    ensures var (v1, b1) := Step(buckets, 3, duration, key, t1);
            var (v2, b2) := Step(b1, 3, duration, key, t2);
            var (v3, b3) := Step(b2, 3, duration, key, t3);
            var (v4, b4) := Step(b3, 3, duration, key, t4);
            v1 == Pass && v2 == Pass && v3 == Pass && v4.TooMany?
  {
    var (v1, b1) := Step(buckets, 3, duration, key, t1);
    StepOutcome(buckets, 3, duration, key, t1);
    assert b1[key] == Bucket(1, t1);
    var (v2, b2) := Step(b1, 3, duration, key, t2);
    StepOutcome(b1, 3, duration, key, t2);
    assert b2[key] == Bucket(2, t1);
    var (v3, b3) := Step(b2, 3, duration, key, t3);
    StepOutcome(b2, 3, duration, key, t3);
    assert b3[key] == Bucket(3, t1);
    StepOutcome(b3, 3, duration, key, t4);
  }

  /** Limiters share the table and key it by address only: a request that
      passed a generous limiter counts against a strict one, so the strict
      limiter refuses its own first request from that address. */
  lemma LimitersShareCounts(buckets: map<string, Bucket>, duration: int, key: string, now: int)
    requires duration >= 0
    requires key !in buckets
    ensures var (v1, b1) := Step(buckets, 100, 60, key, now);
            var (v2, _) := Step(b1, 1, duration, key, now);
            v1 == Pass && v2.TooMany?
  {
    var (v1, b1) := Step(buckets, 100, 60, key, now);
    StepOutcome(buckets, 100, 60, key, now);
    StepOutcome(b1, 1, duration, key, now);
  }

  /** `inmemoryBuckets`: the one table of the process. */
  class BucketTable {
    var buckets: map<string, Bucket>

    constructor ()
      ensures buckets == map[]
    {
      buckets := map[];
    }

    /** `cleanOld` (middleware/rateLimiterRedis.js:6-10): visits every entry
        and deletes the stale ones. */
    method CleanOld(now: int, duration: int)
      modifies this
      ensures buckets == Cleaned(old(buckets), now, duration)
    {
      var pending := buckets.Keys;
      ghost var original := buckets;
      while pending != {}
        invariant pending <= original.Keys
        invariant buckets == map k | k in original && (k in pending || !Stale(original[k], now, duration)) :: original[k]
        decreases pending
      {
        var k :| k in pending;
        if Stale(buckets[k], now, duration) {
          buckets := buckets - {k};
        }
        pending := pending - {k};
      }
    }
  }

  /** The handler `useRateLimit(points, duration)` returns when there is no
      Redis client (middleware/rateLimiterRedis.js:27-44). */
  class FallbackLimiter {
    const points: int
    const duration: int
    const table: BucketTable

    constructor (points: int, duration: int, table: BucketTable)
      ensures this.points == points && this.duration == duration && this.table == table
    {
      this.points := points;
      this.duration := duration;
      this.table := table;
    }

    /** One request from the client with these addresses at time `now`. */
    method Handle(ip: Option<string>, remote: Option<string>, now: int) returns (v: Verdict)
      modifies table
      ensures (v, table.buckets) == Step(old(table.buckets), points, duration, ClientKey(ip, remote), now)
    {
      var key := ClientKey(ip, remote);
      table.CleanOld(now, duration);
      var b := if key in table.buckets then table.buckets[key] else Bucket(0, now);
      if now - b.ts > duration * 1000 {
        b := Bucket(0, now);
      }
      b := b.(count := b.count + 1);
      table.buckets := table.buckets[key := b];
      if b.count > points {
        v := TooMany(CeilDiv(duration * 1000 - (now - b.ts), 1000));
      } else {
        v := Pass;
      }
    }
  }
}
