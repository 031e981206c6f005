/** The rate limiter object: its methods carry out the steps of module RateLimit. */
module Limiter {
  import opened RateLimit
  import opened Time
  import opened Windows

  class RateLimiter {
    const algorithm: Algorithm
    const defaultRate: int
    const defaultBurst: int
    var fixedWindows: map<(Key, int), Window>
    var slidingWindows: map<Key, seq<int>>
    var tokenBuckets: map<Key, Tokens>
    var leakyBuckets: map<Key, Leaky>
    var perIPLimits: map<Key, int>
    var perUserLimits: map<Key, int>
    var perEndpointLimits: map<Key, int>
    var perGeoLimits: map<Key, int>
    var perAPIKeyLimits: map<Key, int>
    var priorityQueues: map<Key, bool>

    constructor (algorithm: Algorithm, defaultRate: int, defaultBurst: int)
      ensures View() == EMPTY
      ensures this.algorithm == algorithm && this.defaultRate == defaultRate && this.defaultBurst == defaultBurst
      ensures forall g, key :: LimitsOf(key, g) == Limits(defaultRate, defaultBurst)
    {
      this.algorithm, this.defaultRate, this.defaultBurst := algorithm, defaultRate, defaultBurst;
      fixedWindows, slidingWindows, tokenBuckets, leakyBuckets := map[], map[], map[], map[];
      perIPLimits, perUserLimits, perEndpointLimits := map[], map[], map[];
      perGeoLimits, perAPIKeyLimits, priorityQueues := map[], map[], map[];
    }

    function View(): State
      reads this
    {
      State(fixedWindows, slidingWindows, tokenBuckets, leakyBuckets)
    }

    /** A granularity's table of configured rates; sessions have none. */
    function Table(granularity: Granularity): map<Key, int>
      reads this
    {
      match granularity
      case PerIP => perIPLimits
      case PerUser => perUserLimits
      case PerEndpoint => perEndpointLimits
      case PerGeo => perGeoLimits
      case PerAPIKey => perAPIKeyLimits
      case PerSession => map[]
    }

    function LimitsOf(key: Key, granularity: Granularity): Limits
      reads this
    {
      Limits(
        if key in Table(granularity) then Table(granularity)[key] else defaultRate,
        if key in priorityQueues && priorityQueues[key] then defaultBurst * 2 else defaultBurst)
    }

    method Inspect(key: Key, granularity: Granularity, now: int) returns (d: Decision)
      requires Callable(algorithm, LimitsOf(key, granularity))
      modifies this`fixedWindows, this`slidingWindows, this`tokenBuckets, this`leakyBuckets
      ensures (View(), d) == Check(algorithm, old(View()), key, old(LimitsOf(key, granularity)), now)
    {
      var limits := LimitsOf(key, granularity);
      match algorithm
      case FixedWindow => d := CheckFixedWindow(key, limits, now);
      case SlidingWindow => var ok; ok, d := CheckSlidingWindow(key, limits, now);
      case TokenBucket => d := CheckTokenBucket(key, limits, now);
      case LeakyBucket => d := CheckLeakyBucket(key, limits, now);
      case Unknown => d := CheckFixedWindow(key, limits, now);
    }

    method CheckFixedWindow(key: Key, limits: Limits, now: int) returns (d: Decision)
      modifies this`fixedWindows
      ensures (fixedWindows, d) == CheckFixed(old(fixedWindows), key, limits, now)
    {
      var slot, limit := (key, now / SECOND), limits.rate + limits.burst;
      if slot !in fixedWindows {
        fixedWindows := fixedWindows[slot := Window(now, 1)];
        return Decision(true, limit - 1, limit);
      }
      var entry := fixedWindows[slot];
      if now - entry.start > SECOND {
        entry := Window(now, 1);
        fixedWindows := fixedWindows[slot := entry];
        return Decision(true, limit - 1, limit);
      }
      entry := entry.(count := entry.count + 1);
      fixedWindows := fixedWindows[slot := entry];
      if entry.count > limit {
        return Decision(false, 0, limit);
      }
      return Decision(true, limit - entry.count, limit);
    }

    /** Fails, reading the first of no entries, when the limit is below one and nothing is live. */
    method CheckSlidingWindow(key: Key, limits: Limits, now: int) returns (ok: bool, d: Decision)
      modifies this`slidingWindows
      ensures slidingWindows == CheckSliding(old(slidingWindows), key, limits, now).0
      ensures ok <==> limits.rate + limits.burst >= 1 || Live(Entries(old(slidingWindows), key), now - WINDOW) != []
      ensures ok ==> d == CheckSliding(old(slidingWindows), key, limits, now).1
    {
      var valid := Prune(Entries(slidingWindows, key), now - WINDOW);
      var limit := limits.rate + limits.burst;
      var count := |valid|;
      if count >= limit {
        slidingWindows := slidingWindows[key := valid];
        return valid != [], Decision(false, 0, limit);
      }
      valid := valid + [now];
      slidingWindows := slidingWindows[key := valid];
      return true, Decision(true, limit - count - 1, limit);
    }

    method CheckTokenBucket(key: Key, limits: Limits, now: int) returns (d: Decision)
      modifies this`tokenBuckets
      ensures (tokenBuckets, d) == CheckTokens(old(tokenBuckets), key, limits, now)
    {
      var rate := if limits.rate <= 0 then 1 else limits.rate;
      if key !in tokenBuckets {
        tokenBuckets := tokenBuckets[key := Tokens(limits.burst as real, limits.burst as real, rate, now)];
      }
      var bucket := tokenBuckets[key];
      var earned := ((now - bucket.lastRefill) * bucket.refillRate) as real / SECOND as real;
      bucket := bucket.(tokens := Min(bucket.capacity, bucket.tokens + earned), lastRefill := now);
      if bucket.tokens < 1.0 {
        tokenBuckets := tokenBuckets[key := bucket];
        assert tokenBuckets == old(tokenBuckets)[key := bucket];
        return Decision(false, 0, rate + limits.burst);
      }
      bucket := bucket.(tokens := bucket.tokens - 1.0);
      tokenBuckets := tokenBuckets[key := bucket];
      assert tokenBuckets == old(tokenBuckets)[key := bucket];
      return Decision(true, bucket.tokens.Floor, rate + limits.burst);
    }

    method CheckLeakyBucket(key: Key, limits: Limits, now: int) returns (d: Decision)
      requires key in leakyBuckets || Callable(LeakyBucket, limits)
      modifies this`leakyBuckets
      ensures (leakyBuckets, d) == CheckLeaky(old(leakyBuckets), key, limits, now)
    {
      if key !in leakyBuckets {
        var rate := if limits.rate <= 0 then 1 else limits.rate;
        leakyBuckets := leakyBuckets[key := Leaky([], limits.burst, SECOND / rate, now)];
      }
      var bucket := leakyBuckets[key];
      var leakCount := (now - bucket.lastLeak) / bucket.leakRate;
      if leakCount > 0 {
        if leakCount >= |bucket.queue| {
          bucket := bucket.(queue := []);
        } else {
          bucket := bucket.(queue := bucket.queue[leakCount..]);
        }
        bucket := bucket.(lastLeak := now);
      }
      if |bucket.queue| >= bucket.capacity {
        leakyBuckets := leakyBuckets[key := bucket];
        assert leakyBuckets == old(leakyBuckets)[key := bucket];
        return Decision(false, 0, limits.burst);
      }
      bucket := bucket.(queue := bucket.queue + [now]);
      leakyBuckets := leakyBuckets[key := bucket];
      assert leakyBuckets == old(leakyBuckets)[key := bucket];
      return Decision(true, bucket.capacity - |bucket.queue|, limits.burst);
    }

    /** One configured rate changes and nothing else does. Sessions cannot be configured. */
    method SetRateLimit(granularity: Granularity, key: Key, rate: int)
      modifies this`perIPLimits, this`perUserLimits, this`perEndpointLimits, this`perGeoLimits, this`perAPIKeyLimits
      ensures forall g, k :: LimitsOf(k, g) ==
                if g == granularity && k == key && !g.PerSession? then old(LimitsOf(k, g)).(rate := rate)
                else old(LimitsOf(k, g))
    {
      match granularity
      case PerIP => perIPLimits := perIPLimits[key := rate];
      case PerUser => perUserLimits := perUserLimits[key := rate];
      case PerEndpoint => perEndpointLimits := perEndpointLimits[key := rate];
      case PerGeo => perGeoLimits := perGeoLimits[key := rate];
      case PerAPIKey => perAPIKeyLimits := perAPIKeyLimits[key := rate];
      case PerSession =>
    }

    method SetPriority(key: Key, premium: bool)
      modifies this`priorityQueues
      ensures forall g, k :: LimitsOf(k, g) ==
                if k == key then old(LimitsOf(k, g)).(burst := if premium then defaultBurst * 2 else defaultBurst)
                else old(LimitsOf(k, g))
    {
      priorityQueues := priorityQueues[key := premium];
    }

    /** One tick of the cleanup loop: four passes, each deleting entries while it iterates. */
    method Cleanup(now: int)
      modifies this`fixedWindows, this`slidingWindows, this`tokenBuckets, this`leakyBuckets
      ensures View() == Sweep(old(View()), now)
    {
      CleanupFixed(now);
      CleanupSliding(now);
      CleanupTokens(now);
      CleanupLeaky(now);
    }

    method CleanupFixed(now: int)
      modifies this`fixedWindows
      ensures fixedWindows == SweepFixed(old(fixedWindows), now)
    {
      var todo := fixedWindows.Keys;
      while todo != {}
        invariant todo <= fixedWindows.Keys <= old(fixedWindows).Keys
        invariant forall k :: k in fixedWindows ==> fixedWindows[k] == old(fixedWindows)[k]
        invariant forall k :: k in old(fixedWindows) && k !in todo ==>
                    (k in fixedWindows <==> !(now - old(fixedWindows)[k].start > WINDOW * 2))
        decreases |todo|
      {
        var key :| key in todo;
        todo := todo - {key};
        if now - fixedWindows[key].start > WINDOW * 2 {
          fixedWindows := fixedWindows - {key};
        }
      }
    }

    method CleanupSliding(now: int)
      modifies this`slidingWindows
      ensures slidingWindows == SweepSliding(old(slidingWindows), now)
    {
      var todo := slidingWindows.Keys;
      var cutoff := now - WINDOW * 2;
      while todo != {}
        invariant todo <= slidingWindows.Keys <= old(slidingWindows).Keys
        invariant forall k :: k in todo ==> slidingWindows[k] == old(slidingWindows)[k]
        invariant forall k :: k in old(slidingWindows) && k !in todo ==>
                    (k in slidingWindows <==> Live(old(slidingWindows)[k], cutoff) != [])
        invariant forall k :: k in slidingWindows && k !in todo ==>
                    slidingWindows[k] == Live(old(slidingWindows)[k], cutoff)
        decreases |todo|
      {
        var key :| key in todo;
        todo := todo - {key};
        var valid := Prune(slidingWindows[key], cutoff);
        if |valid| == 0 {
          slidingWindows := slidingWindows - {key};
        } else {
          slidingWindows := slidingWindows[key := valid];
        }
      }
    }

    method CleanupTokens(now: int)
      modifies this`tokenBuckets
      ensures tokenBuckets == SweepTokens(old(tokenBuckets), now)
    {
      var todo := tokenBuckets.Keys;
      while todo != {}
        invariant todo <= tokenBuckets.Keys <= old(tokenBuckets).Keys
        invariant forall k :: k in tokenBuckets ==> tokenBuckets[k] == old(tokenBuckets)[k]
        invariant forall k :: k in old(tokenBuckets) && k !in todo ==>
                    (k in tokenBuckets <==> !(now - old(tokenBuckets)[k].lastRefill > CLEANUP_TICK * 2))
        decreases |todo|
      {
        var key :| key in todo;
        todo := todo - {key};
        if now - tokenBuckets[key].lastRefill > CLEANUP_TICK * 2 {
          tokenBuckets := tokenBuckets - {key};
        }
      }
    }

    method CleanupLeaky(now: int)
      modifies this`leakyBuckets
      ensures leakyBuckets == SweepLeaky(old(leakyBuckets), now)
    {
      var todo := leakyBuckets.Keys;
      while todo != {}
        invariant todo <= leakyBuckets.Keys <= old(leakyBuckets).Keys
        invariant forall k :: k in leakyBuckets ==> leakyBuckets[k] == old(leakyBuckets)[k]
        invariant forall k :: k in old(leakyBuckets) && k !in todo ==>
                    (k in leakyBuckets <==> !(now - old(leakyBuckets)[k].lastLeak > CLEANUP_TICK * 2
                                              && old(leakyBuckets)[k].queue == []))
        decreases |todo|
      {
        var key :| key in todo;
        todo := todo - {key};
        if now - leakyBuckets[key].lastLeak > CLEANUP_TICK * 2 && |leakyBuckets[key].queue| == 0 {
          leakyBuckets := leakyBuckets - {key};
        }
      }
    }
  }
}
