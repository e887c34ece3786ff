/**
 The rate-limit service: the two algorithms over the Redis keys of all
 identifiers.  Each method follows the source's own reads and writes and is
 proved to take the step that `TokenBucket` or `SlidingWindow` reasons about,
 for its identifier alone.
 */
module RateLimitService {
  import opened Wrappers
  import TB = TokenBucket
  import SW = SlidingWindow

  function Lookup<V>(store: map<string, V>, key: string): Option<V> {
    if key in store then Some(store[key]) else None
  }

  class RateLimiter {
    /** Hashes under `ratelimit:tb:*`, by identifier. */
    var buckets: map<string, TB.Bucket>
    /** Sorted sets under `ratelimit:sw:*`, by identifier. */
    var windows: map<string, SW.Window>

    constructor ()
      ensures buckets == map[] && windows == map[]
    {
      buckets, windows := map[], map[];
    }

    method TokenBucket(identifier: string, now: nat, capacity: real, refillRatePerSec: real)
      returns (verdict: TB.Verdict)
      modifies this`buckets
      ensures var step := TB.Step(old(Lookup(buckets, identifier)), now, capacity, refillRatePerSec);
              buckets == old(buckets)[identifier := step.0] && verdict == step.1
    {
      var tokens := capacity;
      if identifier in buckets {
        var stored := buckets[identifier];
        var deltaSec := (now - stored.lastRefill) as real / 1000.0;
        tokens := TB.Min(capacity, stored.tokens + deltaSec * refillRatePerSec);
      }
      var allowed := false;
      if tokens >= 1.0 {
        tokens := tokens - 1.0;
        allowed := true;
      }
      buckets := buckets[identifier := TB.Bucket(tokens, now, now + TB.KEY_TTL_MS)];
      verdict := TB.Verdict(allowed, tokens.Floor, TB.ResetAt(now, tokens, refillRatePerSec));
    }

    /** `reply` is false where the pipeline gave no usable count; nothing was stored then. */
    method SlidingWindow(identifier: string, now: nat, requestId: string, limit: int, windowMs: nat, reply: bool)
      returns (verdict: SW.Verdict)
      modifies this`windows
      ensures reply ==>
                var step := SW.Step(old(Lookup(windows, identifier)), now, requestId, limit, windowMs);
                windows == old(windows)[identifier := step.0] && verdict == step.1
      ensures !reply ==> windows == old(windows) && verdict == SW.FailOpen(now, limit, windowMs)
      ensures !reply ==> verdict == SW.Verdict(true, if limit > 0 then limit else 0, now + windowMs)
    {
      var allowed, count := true, 0;
      if reply {
        var members: SW.Members := if identifier in windows then windows[identifier].members else map[];
        members := members[requestId := now];
        members := SW.Trim(members, now - windowMs);
        windows := windows[identifier := SW.Window(members, now + 1000 * SW.CeilSeconds(windowMs))];
        count := |members|;
        if count > limit {
          allowed := false;
        }
      }
      verdict := SW.Verdict(allowed, SW.Max(0, limit - count), now + windowMs);
    }

    /** Redis drops the keys of one identifier whose time-to-live is over. */
    method ExpireKeys(identifier: string, now: nat)
      modifies this
      ensures Lookup(buckets, identifier) == TB.Unexpired(old(Lookup(buckets, identifier)), now)
      ensures Lookup(windows, identifier) == SW.Unexpired(old(Lookup(windows, identifier)), now)
      ensures buckets - {identifier} == old(buckets) - {identifier}
      ensures windows - {identifier} == old(windows) - {identifier}
    {
      if identifier in buckets && now >= buckets[identifier].expiresAt {
        buckets := buckets - {identifier};
      }
      if identifier in windows && now >= windows[identifier].expiresAt {
        windows := windows - {identifier};
      }
    }
  }
}
