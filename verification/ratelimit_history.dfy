/** Every algorithm refines its full-history reference, so the background sweep is invisible. */
module RateLimitHistory {
  import opened RateLimit
  import opened Time
  import opened Windows

  // ---- fixed windows ----

  predicate FixedAgrees(m: map<(Key, int), Window>, past: Past, key: Key, second: int) {
    var n := CallsIn(past, key, second);
    if n == 0 then (key, second) !in m
    else (key, second) in m && m[(key, second)].count == n && m[(key, second)].start / SECOND == second
  }

  ghost predicate FixedInv(m: map<(Key, int), Window>, past: Past, now: int) {
    forall key, second :: second >= now / SECOND ==> FixedAgrees(m, past, key, second)
  }

  lemma FixedCall(m: map<(Key, int), Window>, past: Past, now: int, o: Outcome)
    requires FixedInv(m, past, now) && now <= o.at
    requires o.decision == CheckFixed(m, o.key, o.limits, o.at).1
    ensures o.decision == Expected(FixedWindow, past, o.key, o.limits, o.at)
    ensures FixedInv(CheckFixed(m, o.key, o.limits, o.at).0, Decided(past, o), o.at)
  {
    var second := o.at / SECOND;
    assert now / SECOND <= second;
    assert FixedAgrees(m, past, o.key, second);
    var m' := CheckFixed(m, o.key, o.limits, o.at).0;
    forall key, s | s >= second ensures FixedAgrees(m', Decided(past, o), key, s) {
      assert FixedAgrees(m, past, key, s);
    }
  }

  lemma FixedTick(m: map<(Key, int), Window>, past: Past, now: int, tick: int)
    requires FixedInv(m, past, now) && now <= tick
    ensures FixedInv(SweepFixed(m, tick), past, tick)
  {
    forall key, second | second >= tick / SECOND
      ensures FixedAgrees(SweepFixed(m, tick), past, key, second)
    {
      assert FixedAgrees(m, past, key, second);
    }
  }

  // ---- sliding windows ----

  predicate SlidingAgrees(m: map<Key, seq<int>>, past: Past, key: Key, now: int) {
    Live(Entries(m, key), now - WINDOW) == Live(Admitted(past, key), now - WINDOW)
  }

  ghost predicate SlidingInv(m: map<Key, seq<int>>, past: Past, now: int) {
    forall key :: SlidingAgrees(m, past, key, now)
  }

  lemma SlidingLater(m: map<Key, seq<int>>, past: Past, now: int, later: int)
    requires SlidingInv(m, past, now) && now <= later
    ensures SlidingInv(m, past, later)
  {
    forall key ensures SlidingAgrees(m, past, key, later) {
      assert SlidingAgrees(m, past, key, now);
      LiveAgree(Entries(m, key), Admitted(past, key), now - WINDOW, later - WINDOW);
    }
  }

  /** Pruning at the cutoff, then recording the call. */
  lemma RecordAgrees(entries: seq<int>, log: seq<int>, now: int)
    requires Live(entries, now - WINDOW) == Live(log, now - WINDOW)
    ensures Live(Live(entries, now - WINDOW) + [now], now - WINDOW) == Live(log + [now], now - WINDOW)
  {
    var cutoff := now - WINDOW;
    LiveTwice(entries, cutoff, cutoff);
    LiveAppend(Live(entries, cutoff), now, cutoff);
    LiveAppend(log, now, cutoff);
  }

  /** The decision on the key that is called, and what is left of its entries. */
  lemma SlidingDecision(m: map<Key, seq<int>>, log: seq<int>, key: Key, limits: Limits, now: int)
    requires Live(Entries(m, key), now - WINDOW) == Live(log, now - WINDOW)
    ensures var (m', d) := CheckSliding(m, key, limits, now);
            var used, limit := |Live(log, now - WINDOW)|, limits.rate + limits.burst;
            && d == (if used < limit then Decision(true, limit - used - 1, limit) else Decision(false, 0, limit))
            && Entries(m', key) == Live(log, now - WINDOW) + if d.allowed then [now] else []
  {
    var valid := Live(Entries(m, key), now - WINDOW);
    assert valid + [] == valid;
  }

  lemma EntriesAgree(log: seq<int>, now: int)
    ensures Live(Live(log, now - WINDOW) + [], now - WINDOW) == Live(log, now - WINDOW)
    ensures Live(Live(log, now - WINDOW) + [now], now - WINDOW) == Live(log + [now], now - WINDOW)
  {
    LiveTwice(log, now - WINDOW, now - WINDOW);
    assert Live(log, now - WINDOW) + [] == Live(log, now - WINDOW);
    RecordAgrees(log, log, now);
  }

  lemma SlidingCallOn(m: map<Key, seq<int>>, past: Past, o: Outcome, key: Key)
    requires SlidingAgrees(m, past, o.key, o.at) && SlidingAgrees(m, past, key, o.at)
    requires o.decision == CheckSliding(m, o.key, o.limits, o.at).1
    ensures SlidingAgrees(CheckSliding(m, o.key, o.limits, o.at).0, Decided(past, o), key, o.at)
  {
    hide Live;
    if key == o.key {
      SlidingDecision(m, Admitted(past, key), key, o.limits, o.at);
      EntriesAgree(Admitted(past, key), o.at);
    } else {
      var m' := CheckSliding(m, o.key, o.limits, o.at).0;
      assert Entries(m', key) == Entries(m, key);
    }
  }

  lemma SlidingCall(m: map<Key, seq<int>>, past: Past, now: int, o: Outcome)
    requires SlidingInv(m, past, now) && now <= o.at
    requires o.decision == CheckSliding(m, o.key, o.limits, o.at).1
    ensures o.decision == Expected(SlidingWindow, past, o.key, o.limits, o.at)
    ensures SlidingInv(CheckSliding(m, o.key, o.limits, o.at).0, Decided(past, o), o.at)
  {
    hide Live;
    SlidingLater(m, past, now, o.at);
    assert SlidingAgrees(m, past, o.key, o.at);
    SlidingDecision(m, Admitted(past, o.key), o.key, o.limits, o.at);
    forall key ensures SlidingAgrees(CheckSliding(m, o.key, o.limits, o.at).0, Decided(past, o), key, o.at) {
      assert SlidingAgrees(m, past, key, o.at);
      SlidingCallOn(m, past, o, key);
    }
  }

  lemma SlidingTick(m: map<Key, seq<int>>, past: Past, now: int, tick: int)
    requires SlidingInv(m, past, now) && now <= tick
    ensures SlidingInv(SweepSliding(m, tick), past, tick)
  {
    SlidingLater(m, past, now, tick);
    forall key ensures SlidingAgrees(SweepSliding(m, tick), past, key, tick) {
      assert SlidingAgrees(m, past, key, tick);
      LiveTwice(Entries(m, key), tick - WINDOW * 2, tick - WINDOW);
    }
  }

  // ---- token buckets ----

  lemma GainAdds(a: int, b: int, rate: int)
    ensures Gain(a, rate) + Gain(b, rate) == Gain(a + b, rate)
  {
    assert (a + b) * rate == a * rate + b * rate;
  }

  lemma GainGrows(a: int, b: int, rate: nat)
    requires a <= b
    ensures Gain(a, rate) <= Gain(b, rate)
    ensures Gain(0, rate) == 0.0
  {
    assert (b - a) * rate >= 0;
    GainAdds(a, b - a, rate);
  }

  /** Refilling in two steps is refilling once. */
  lemma LevelRefills(log: seq<int>, burst: int, rate: nat, now: int, later: int)
    requires now <= later
    ensures Min(burst as real, Level(log, burst, rate, now) + Gain(later - now, rate))
         == Level(log, burst, rate, later)
  {
    GainGrows(0, later - now, rate);
    if log != [] {
      GainAdds(now - log[|log| - 1], later - now, rate);
    }
  }

  /** Spending one token at `now`. */
  lemma LevelSpends(log: seq<int>, burst: int, rate: nat, now: int)
    ensures Level(log + [now], burst, rate, now) == Level(log, burst, rate, now) - 1.0
  {
    assert (log + [now])[..|log|] == log;
    GainGrows(0, 0, rate);
  }

  /** Level is the tightest of the interval budgets: it reaches x exactly when, for each earlier
      admission, what the interval from it to now may carry exceeds what it did carry by x. */
  lemma {:induction false} LevelIsTightestBudget(log: seq<int>, burst: int, rate: nat, now: int, x: real)
    ensures Level(log, burst, rate, now) >= x <==>
      && burst as real >= x
      && forall j :: 0 <= j < |log| ==>
           burst as real + Gain(now - log[j], rate) - (|log| - j) as real >= x
  {
    if log != [] {
      var n := |log| - 1;
      var init, last := log[..n], log[n];
      var x' := x + 1.0 - Gain(now - last, rate);
      LevelIsTightestBudget(init, burst, rate, last, x');
      forall j | 0 <= j < n
        ensures burst as real + Gain(last - init[j], rate) - (n - j) as real >= x'
           <==> burst as real + Gain(now - log[j], rate) - (|log| - j) as real >= x
      {
        GainAdds(last - log[j], now - last, rate);
      }
    }
  }

  predicate TokensAgree(m: map<Key, Tokens>, log: seq<int>, key: Key, limits: Limits, now: int) {
    var rate, burst := EffectiveRate(limits.rate), limits.burst;
    && (log == [] || burst >= 1)
    && if key in m then
      var b := m[key];
      && b.capacity == burst as real && b.refillRate == rate && b.lastRefill <= now
      && b.tokens == Level(log, burst, rate, b.lastRefill)
      && (b.tokens >= 0.0 || log == [])
    else
      Level(log, burst, rate, now) == burst as real
  }

  /** The keys that the run has not called yet may carry any limits. */
  ghost predicate TokensInv(m: map<Key, Tokens>, past: Past, now: int, limits: Key -> Limits) {
    forall key :: TokensAgree(m, Admitted(past, key), key, limits(key), now)
                  && (key in m ==> RefillsInTime(limits(key)))
  }

  lemma TokensLater(m: map<Key, Tokens>, past: Past, now: int, later: int, limits: Key -> Limits)
    requires TokensInv(m, past, now, limits) && now <= later
    ensures TokensInv(m, past, later, limits)
  {
    forall key ensures TokensAgree(m, Admitted(past, key), key, limits(key), later) {
      assert TokensAgree(m, Admitted(past, key), key, limits(key), now);
      var rate := EffectiveRate(limits(key).rate);
      LevelRefills(Admitted(past, key), limits(key).burst, rate, now, later);
      GainGrows(0, later - now, rate);
    }
  }

  lemma TokensCallOnKey(m: map<Key, Tokens>, log: seq<int>, key: Key, limits: Limits, now: int)
    requires TokensAgree(m, log, key, limits, now)
    ensures var (m', d) := CheckTokens(m, key, limits, now);
            var rate := EffectiveRate(limits.rate);
            && d.allowed == (Level(log, limits.burst, rate, now) >= 1.0)
            && (d.allowed ==> d.remaining == (Level(log, limits.burst, rate, now) - 1.0).Floor)
            && TokensAgree(m', if d.allowed then log + [now] else log, key, limits, now)
  {
    var rate, burst := EffectiveRate(limits.rate), limits.burst;
    GainGrows(0, 0, rate);
    if key in m {
      LevelRefills(log, burst, rate, m[key].lastRefill, now);
      GainGrows(0, now - m[key].lastRefill, rate);
    }
    LevelSpends(log, burst, rate, now);
    assert Level(log, burst, rate, now) <= burst as real;
  }

  lemma TokensCall(m: map<Key, Tokens>, past: Past, now: int, o: Outcome, limits: Key -> Limits)
    requires TokensInv(m, past, now, limits) && now <= o.at
    requires o.limits == limits(o.key) && RefillsInTime(o.limits)
    requires o.decision == CheckTokens(m, o.key, o.limits, o.at).1
    ensures o.decision == Expected(TokenBucket, past, o.key, o.limits, o.at)
    ensures TokensInv(CheckTokens(m, o.key, o.limits, o.at).0, Decided(past, o), o.at, limits)
  {
    TokensLater(m, past, now, o.at, limits);
    TokensCallOnKey(m, Admitted(past, o.key), o.key, o.limits, o.at);
    var m' := CheckTokens(m, o.key, o.limits, o.at).0;
    forall key
      ensures TokensAgree(m', Admitted(Decided(past, o), key), key, limits(key), o.at)
      ensures key in m' ==> RefillsInTime(limits(key))
    {
      if key != o.key {
        assert TokensAgree(m, Admitted(past, key), key, limits(key), o.at);
        assert key in m' <==> key in m;
      }
    }
  }

  /** A bucket idle for ten minutes is full, so a new one is no different. */
  lemma TokensTick(m: map<Key, Tokens>, past: Past, now: int, tick: int, limits: Key -> Limits)
    requires TokensInv(m, past, now, limits) && now <= tick
    ensures TokensInv(SweepTokens(m, tick), past, tick, limits)
  {
    TokensLater(m, past, now, tick, limits);
    forall key ensures TokensAgree(SweepTokens(m, tick), Admitted(past, key), key, limits(key), tick) {
      var l := limits(key);
      assert TokensAgree(m, Admitted(past, key), key, l, tick);
      if key in m && tick - m[key].lastRefill > CLEANUP_TICK * 2 {
        var rate := EffectiveRate(l.rate);
        LevelRefills(Admitted(past, key), l.burst, rate, m[key].lastRefill, tick);
        GainGrows(CLEANUP_TICK * 2 + 1, tick - m[key].lastRefill, rate);
      }
    }
  }

  // ---- the refinement ----

  ghost predicate Agrees(alg: Algorithm, run: Run, now: int, limits: Key -> Limits)
    requires !alg.LeakyBucket?
  {
    match alg
    case SlidingWindow => SlidingInv(run.state.sliding, run.past, now)
    case TokenBucket => TokensInv(run.state.tokens, run.past, now, limits)
    case _ => FixedInv(run.state.fixed, run.past, now)
  }

  /** With the sweep running at any times whatsoever, each decision, allowed or denied and what it
      reports as remaining, is the one the whole history calls for. */
  lemma {:induction false} DecisionsFollowHistory(alg: Algorithm, events: Events, limits: Key -> Limits)
    requires !alg.LeakyBucket? && Legal(alg, events) && EvictionSafe(alg, events, limits)
    ensures Honours(alg, Execute(alg, events).past)
    ensures events.Then? ==> Agrees(alg, Execute(alg, events), events.last.at, limits)
  {
    match events
    case NoEvents =>
    case Then(before, e) =>
      DecisionsFollowHistory(alg, before, limits);
      var now := if before.Then? then before.last.at else e.at;
      StepFollowsHistory(alg, Execute(alg, before), now, e, limits);
  }

  lemma StepFollowsHistory(alg: Algorithm, before: Run, now: int, e: Event, limits: Key -> Limits)
    requires !alg.LeakyBucket? && LegalEvent(alg, e) && now <= e.at
    requires alg.TokenBucket? && e.Call? ==> e.limits == limits(e.key) && RefillsInTime(e.limits)
    requires Honours(alg, before.past) && Agrees(alg, before, now, limits)
    ensures var after := Apply(alg, before, e);
            Honours(alg, after.past) && Agrees(alg, after, e.at, limits)
  {
    match e
    case Tick(tick) =>
      TickStep(alg, before, now, tick, limits);
    case Call(key, l, at) =>
      var o := Outcome(key, l, at, Check(alg, before.state, key, l, at).1);
      CallStep(alg, before, now, o, limits);
  }

  lemma TickStep(alg: Algorithm, before: Run, now: int, tick: int, limits: Key -> Limits)
    requires !alg.LeakyBucket? && Agrees(alg, before, now, limits) && now <= tick
    ensures Agrees(alg, before.(state := Sweep(before.state, tick)), tick, limits)
  {
    match alg
    case SlidingWindow => SlidingTick(before.state.sliding, before.past, now, tick);
    case TokenBucket => TokensTick(before.state.tokens, before.past, now, tick, limits);
    case _ => FixedTick(before.state.fixed, before.past, now, tick);
  }

  lemma CallStep(alg: Algorithm, before: Run, now: int, o: Outcome, limits: Key -> Limits)
    requires !alg.LeakyBucket? && Agrees(alg, before, now, limits) && now <= o.at
    requires Callable(alg, o.limits)
    requires alg.TokenBucket? ==> o.limits == limits(o.key) && RefillsInTime(o.limits)
    requires o.decision == Check(alg, before.state, o.key, o.limits, o.at).1
    ensures o.decision == Expected(alg, before.past, o.key, o.limits, o.at)
    ensures Agrees(alg, Run(Check(alg, before.state, o.key, o.limits, o.at).0, Decided(before.past, o)), o.at, limits)
  {
    match alg
    case SlidingWindow => SlidingCall(before.state.sliding, before.past, now, o);
    case TokenBucket => TokensCall(before.state.tokens, before.past, now, o, limits);
    case _ => FixedCall(before.state.fixed, before.past, now, o);
  }
}
