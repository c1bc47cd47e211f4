/** The per-address limiter that guards the HTTP routes. */
module RateLimiter {
  import opened TokenBucket

  class IpBucket {
    var tokens: real
    var lastRefill: real

    constructor (tokens: real, lastRefill: real)
      ensures this.tokens == tokens && this.lastRefill == lastRefill
    {
      this.tokens := tokens;
      this.lastRefill := lastRefill;
    }

    /** Credits the time since the last refill, up to the cap. */
    method Refill(now: real, rpm: Rate, burst: int)
      modifies this
      ensures tokens == Refilled(Bucket(old(tokens), old(lastRefill)), now, rpm, burst)
      ensures lastRefill == now
    {
      var elapsed := now - lastRefill;
      tokens := tokens + elapsed * FillRate(rpm);
      if tokens > burst as real {
        tokens := burst as real;
      }
      lastRefill := now;
    }
  }

  predicate IsPrefix(prefix: string, s: string) {
    prefix <= s
  }

  /** The path is one of the public paths or lies below one. */
  predicate Exempt(path: string, publicPaths: seq<string>) {
    exists p :: p in publicPaths && (path == p || IsPrefix(p + "/", path))
  }

  function ChosenRate(isPut: bool, path: string, rpm: Rate, heartbeatRpm: Rate): Rate {
    if isPut && IsPrefix("/relays/", path) then heartbeatRpm else rpm
  }

  class IPRateLimiter {
    var buckets: map<string, IpBucket>

    /** No two addresses share a bucket. */
    ghost predicate Valid()
      reads this
    {
      forall i, j :: i in buckets && j in buckets && i != j ==> buckets[i] != buckets[j]
    }

    /** The limiter as a value. */
    ghost function View(): Buckets
      reads this, buckets.Values
    {
      map ip | ip in buckets :: Bucket(buckets[ip].tokens, buckets[ip].lastRefill)
    }

    constructor ()
      ensures Valid() && View() == map[]
    {
      buckets := map[];
    }

    method CleanupStaleBuckets(now: real)
      requires Valid()
      modifies this
      ensures Valid() && buckets.Values <= old(buckets.Values)
      ensures View() == Next(old(View()), 0, Sweep(now))
    {
      var cutoff := now - IDLE_SECONDS;
      var todo := buckets.Keys;
      while todo != {}
        invariant todo <= old(buckets).Keys
        invariant forall ip :: ip in buckets ==> ip in old(buckets) && buckets[ip] == old(buckets)[ip]
        invariant forall ip :: ip in old(buckets) ==>
          (ip in buckets <==> ip in todo || old(buckets)[ip].lastRefill >= cutoff)
        decreases |todo|
      {
        var ip :| ip in todo;
        if buckets[ip].lastRefill < cutoff {
          buckets := buckets - {ip};
        }
        todo := todo - {ip};
      }
    }

    method Allow(now: real, ip: string, rpm: Rate, burst: int) returns (allowed: bool, retryAfter: int)
      requires Valid()
      modifies this, buckets.Values
      ensures Valid() && fresh(buckets.Values - old(buckets.Values))
      ensures View() == Next(old(View()), burst, Call(now, ip, rpm))
      ensures Answer(allowed, retryAfter) == AnswerTo(old(View()), now, ip, rpm, burst)
    {
      ghost var before := View();
      if ip !in buckets {
        var bucket := new IpBucket(burst as real - 1.0, now);
        buckets := buckets[ip := bucket];
        assert View() == before[ip := Bucket(burst as real - 1.0, now)];
        return true, 0;
      }
      var b := buckets[ip];
      b.Refill(now, rpm, burst);
      assert b.tokens == Refilled(before[ip], now, rpm, burst);
      if b.tokens >= 1.0 {
        b.tokens := b.tokens - 1.0;
        allowed, retryAfter := true, 0;
      } else {
        var missing := 1.0 - b.tokens;
        allowed, retryAfter := false, Ceil(missing / FillRate(rpm));
        if retryAfter <= 0 {
          retryAfter := 1;
        }
      }
      assert View() == before[ip := Bucket(b.tokens, now)];
    }

    /** The middleware's decision about one request. */
    method Guard(now: real, isPut: bool, path: string, ip: string, publicPaths: seq<string>,
                 rpm: Rate, heartbeatRpm: Rate, burst: int)
      returns (served: bool, retryAfter: int)
      requires Valid()
      modifies this, buckets.Values
      ensures Valid() && fresh(buckets.Values - old(buckets.Values))
      ensures Exempt(path, publicPaths) ==> served && View() == old(View())
      ensures !Exempt(path, publicPaths) ==>
        var rate := ChosenRate(isPut, path, rpm, heartbeatRpm);
        && View() == Next(old(View()), burst, Call(now, ip, rate))
        && Answer(served, retryAfter) == AnswerTo(old(View()), now, ip, rate, burst)
    {
      for i := 0 to |publicPaths|
        invariant forall j :: 0 <= j < i ==> path != publicPaths[j] && !IsPrefix(publicPaths[j] + "/", path)
      {
        if path == publicPaths[i] || IsPrefix(publicPaths[i] + "/", path) {
          return true, 0;
        }
      }
      served, retryAfter := Allow(now, ip, ChosenRate(isPut, path, rpm, heartbeatRpm), burst);
    }
  }
}
