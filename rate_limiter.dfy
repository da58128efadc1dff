/** The sliding-window limiter of middleware/rateLimiter.js: each limiter owns
    a log of request times per client address, drops the times that have left
    the window from the front of the log, appends the current time, and
    refuses the request when the log is longer than the limit. Times in ms. */
module SlidingWindow {
  import opened Common
  import FallbackRateLimit

  /** The log without its leading times older than the window, as the
      `while`/`shift` loop leaves it. */
  function Prune(buf: seq<int>, now: int, windowMs: int): (r: seq<int>)
    ensures |r| <= |buf| && r == buf[|buf| - |r|..]
    ensures |r| > 0 ==> now - r[0] <= windowMs
    decreases |buf|
  {
    if |buf| > 0 && now - buf[0] > windowMs then Prune(buf[1..], now, windowMs) else buf
  }

  predicate Ascending(buf: seq<int>) {
    forall i, j :: 0 <= i < j < |buf| ==> buf[i] <= buf[j]
  }

  /** The log after a request at `now`. */
  function Recorded(buf: seq<int>, now: int, windowMs: int): seq<int> {
    Prune(buf, now, windowMs) + [now]
  }

  /** In an ascending log every time left after pruning is inside the window,
      and only times outside it were dropped. */
  lemma {:induction false} PruneKeepsWindow(buf: seq<int>, now: int, windowMs: int)
    requires Ascending(buf)
    ensures forall t :: t in Prune(buf, now, windowMs) ==> now - t <= windowMs
    ensures forall i :: 0 <= i < |buf| - |Prune(buf, now, windowMs)| ==> now - buf[i] > windowMs
    decreases |buf|
  {
    if |buf| > 0 && now - buf[0] > windowMs {
      PruneKeepsWindow(buf[1..], now, windowMs);
      var r := Prune(buf, now, windowMs);
      forall i | 0 <= i < |buf| - |r| ensures now - buf[i] > windowMs {
        if i > 0 {
          assert buf[i] == buf[1..][i - 1];
        }
      }
    } else if |buf| > 0 {
      forall t | t in buf ensures now - t <= windowMs {
        var i :| 0 <= i < |buf| && buf[i] == t;
        assert buf[0] <= buf[i];
      }
    }
  }

  /** With a clock that does not go back, a request keeps the log ascending,
      always ends with the current time, and leaves in it only times within
      `windowMs` of it. */
  lemma RecordedInvariant(buf: seq<int>, now: int, windowMs: int)
    requires Ascending(buf) && (forall t :: t in buf ==> t <= now)
    requires windowMs >= 0
    ensures var r := Recorded(buf, now, windowMs);
            && Ascending(r) && r[|r| - 1] == now
            && (forall t :: t in r ==> t <= now && now - t <= windowMs)
  {
    var p := Prune(buf, now, windowMs);
    PruneKeepsWindow(buf, now, windowMs);
    AscendingSuffix(buf, |buf| - |p|);
    SuffixBelow(buf, |buf| - |p|, now);
    AscendingAppend(p, now);
    AppendWithin(p, now, windowMs);
  }

  lemma SuffixBelow(buf: seq<int>, k: int, now: int)
    requires 0 <= k <= |buf| && forall t :: t in buf ==> t <= now
    ensures forall t :: t in buf[k..] ==> t <= now
  {
    forall t | t in buf[k..] ensures t <= now {
      var i :| 0 <= i < |buf| - k && buf[k..][i] == t;
      assert buf[k + i] == t;
      assert t in buf;
    }
  }

  lemma AppendWithin(p: seq<int>, now: int, windowMs: int)
    requires windowMs >= 0 && forall t :: t in p ==> t <= now && now - t <= windowMs
    ensures forall t :: t in p + [now] ==> t <= now && now - t <= windowMs
  {
  }

  lemma AscendingSuffix(buf: seq<int>, k: int)
    requires Ascending(buf) && 0 <= k <= |buf|
    ensures Ascending(buf[k..])
  {
    forall i, j | 0 <= i < j < |buf| - k ensures buf[k..][i] <= buf[k..][j] {
      assert buf[k..][i] == buf[k + i] && buf[k..][j] == buf[k + j];
    }
  }

  lemma AscendingAppend(p: seq<int>, now: int)
    requires Ascending(p) && forall t :: t in p ==> t <= now
    ensures Ascending(p + [now])
  {
    var r := p + [now];
    forall i, j | 0 <= i < j < |r| ensures r[i] <= r[j] {
      if j < |p| {
        assert r[i] == p[i] && r[j] == p[j];
      } else {
        assert r[i] in p;
      }
    }
  }

  /** Every log is ascending and holds no time later than `now`. */
  predicate ValidLogs(hits: map<string, seq<int>>, now: int) {
    forall ip :: ip in hits ==> Ascending(hits[ip]) && forall t :: t in hits[ip] ==> t <= now
  }

  lemma ValidLogsUpdate(hits: map<string, seq<int>>, key: string, r: seq<int>, now: int)
    requires ValidLogs(hits, now) && Ascending(r) && forall t :: t in r ==> t <= now
    ensures ValidLogs(hits[key := r], now)
  {
  }

  /** The handler `rateLimit(maxRequests, windowMs)` returns; each call of
      `rateLimit` makes a new object with its own map. */
  class SlidingWindowLimiter {
    const maxRequests: int
    const windowMs: int
    var hits: map<string, seq<int>>

    constructor (maxRequests: int, windowMs: int)
      ensures this.maxRequests == maxRequests && this.windowMs == windowMs && hits == map[]
    {
      this.maxRequests := maxRequests;
      this.windowMs := windowMs;
      hits := map[];
    }

    predicate Valid(now: int)
      reads this
    {
      ValidLogs(hits, now)
    }

    /** One request (middleware/rateLimiter.js:3-14): the current time is
        recorded even when the request is refused; it is refused iff the log
        now holds more than `maxRequests` times. Other addresses' logs are
        untouched. */
    method Handle(ip: Option<string>, remote: Option<string>, now: int) returns (allowed: bool)
      modifies this
      ensures var key := FallbackRateLimit.ClientKey(ip, remote);
              var before := if key in old(hits) then old(hits)[key] else [];
              hits == old(hits)[key := Recorded(before, now, windowMs)]
      ensures var key := FallbackRateLimit.ClientKey(ip, remote);
              allowed <==> |hits[key]| <= maxRequests
    ensures old(Valid(now)) && windowMs >= 0 ==> Valid(now)
    {
      var key := FallbackRateLimit.ClientKey(ip, remote);
      if key !in hits {
        hits := hits[key := []];
      }
      var buf := hits[key];
      ghost var start := buf;
      while |buf| > 0 && now - buf[0] > windowMs
        invariant Prune(buf, now, windowMs) == Prune(start, now, windowMs)
        decreases |buf|
      {
        buf := buf[1..];
      }
      buf := buf + [now];
      if ValidLogs(old(hits), now) && windowMs >= 0 {
        RecordedInvariant(start, now, windowMs);
        ValidLogsUpdate(old(hits), key, buf, now);
      }
      hits := hits[key := buf];
      allowed := |buf| <= maxRequests;
    }
  }
}
