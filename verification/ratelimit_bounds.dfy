/** What the rate limiters let through, and when the sweep may be noticed. */
module RateLimitBounds {
  import opened Arithmetic
  import opened RateLimit
  import opened RateLimitHistory
  import opened Time
  import opened Windows

  // ---- what every run's decisions look like ----

  predicate Ordered(past: Past) {
    match past
    case NoPast => true
    case Decided(before, o) => Ordered(before) && (before.Decided? ==> before.last.at <= o.at)
  }

  predicate Constant(past: Past, limits: Key -> Limits) {
    match past
    case NoPast => true
    case Decided(before, o) => Constant(before, limits) && o.limits == limits(o.key)
  }

  lemma {:induction false} RunOrdered(alg: Algorithm, events: Events)
    requires Legal(alg, events)
    ensures var past := Execute(alg, events).past;
            Ordered(past) && (past.Decided? ==> events.Then? && past.last.at <= events.last.at)
  {
    if events.Then? {
      RunOrdered(alg, events.before);
    }
  }

  lemma {:induction false} RunConstant(alg: Algorithm, events: Events, limits: Key -> Limits)
    requires Legal(alg, events) && Steady(events, limits)
    ensures Constant(Execute(alg, events).past, limits)
  {
    if events.Then? {
      RunConstant(alg, events.before, limits);
    }
  }

  lemma {:induction false} AdmittedSorted(past: Past, key: Key)
    requires Ordered(past)
    ensures Sorted(Admitted(past, key))
    ensures past.Decided? ==> Until(Admitted(past, key), past.last.at)
  {
    if past.Decided? {
      AdmittedSorted(past.before, key);
      SortedAppend(Admitted(past.before, key), past.last.at);
    }
  }

  // ---- eviction is invisible ----

  /** Any interleaving of sweep ticks leaves every decision of every algorithm as it would be with no
      sweep at all. */
  lemma EvictionInvisible(alg: Algorithm, events: Events, limits: Key -> Limits)
    requires Legal(alg, events) && EvictionSafe(alg, events, limits)
    ensures Legal(alg, WithoutTicks(events))
    ensures Execute(alg, events).past == Execute(alg, WithoutTicks(events)).past
  {
    if alg.LeakyBucket? {
      LeakyEvictionInvisible(events);
    } else {
      HistoryEvictionInvisible(alg, events, limits);
    }
  }

  lemma {:induction false} WithoutTicksLegal(alg: Algorithm, events: Events)
    requires Legal(alg, events)
    ensures var calls := WithoutTicks(events);
            Legal(alg, calls) && (calls.Then? ==> events.Then? && calls.last.at <= events.last.at)
  {
    if events.Then? {
      WithoutTicksLegal(alg, events.before);
    }
  }

  lemma {:induction false} WithoutTicksSafe(alg: Algorithm, events: Events, limits: Key -> Limits)
    requires EvictionSafe(alg, events, limits)
    ensures EvictionSafe(alg, WithoutTicks(events), limits)
  {
    if events.Then? {
      WithoutTicksSafe(alg, events.before, limits);
    }
  }

  /** Two runs that have seen the same calls and go by history decide the next call alike. */
  lemma {:induction false} HistoryEvictionInvisible(alg: Algorithm, events: Events, limits: Key -> Limits)
    requires !alg.LeakyBucket? && Legal(alg, events) && EvictionSafe(alg, events, limits)
    ensures Legal(alg, WithoutTicks(events))
    ensures Execute(alg, events).past == Execute(alg, WithoutTicks(events)).past
  {
    if events.Then? {
      WithoutTicksLegal(alg, events);
      WithoutTicksSafe(alg, events, limits);
      HistoryEvictionInvisible(alg, events.before, limits);
      if events.last.Call? {
        NextDecision(alg, events, limits);
        NextDecision(alg, WithoutTicks(events), limits);
      }
    }
  }

  lemma NextDecision(alg: Algorithm, events: Events, limits: Key -> Limits)
    requires !alg.LeakyBucket? && Legal(alg, events) && EvictionSafe(alg, events, limits)
    requires events.Then? && events.last.Call?
    ensures var Call(key, l, at) := events.last;
            var before := Execute(alg, events.before).past;
            Execute(alg, events).past == Decided(before, Outcome(key, l, at, Expected(alg, before, key, l, at)))
  {
    DecisionsFollowHistory(alg, events, limits);
  }

  lemma {:induction false} LeakyEvictionInvisible(events: Events)
    requires Legal(LeakyBucket, events)
    ensures Legal(LeakyBucket, WithoutTicks(events))
    ensures Execute(LeakyBucket, events).past == Execute(LeakyBucket, WithoutTicks(events)).past
    ensures Execute(LeakyBucket, events).state.leaky == Execute(LeakyBucket, WithoutTicks(events)).state.leaky
  {
    if events.Then? {
      WithoutTicksLegal(LeakyBucket, events);
      LeakyEvictionInvisible(events.before);
      if events.last.Tick? {
        LeakyNeverEvicted(events.before, events.last.at);
      }
    }
  }

  /** Between calls every leaky bucket holds something. */
  predicate Busy(m: map<Key, Leaky>) {
    forall key :: key in m ==> m[key].capacity >= 1 && m[key].queue != []
  }

  lemma {:induction false} LeakyStaysBusy(events: Events)
    requires Legal(LeakyBucket, events)
    ensures Busy(Execute(LeakyBucket, events).state.leaky)
  {
    if events.Then? {
      LeakyStaysBusy(events.before);
    }
  }

  /** A leaky bucket's queue is never empty between calls, whatever limits the calls carry, so the sweep
      never deletes one. */
  lemma LeakyNeverEvicted(events: Events, now: int)
    requires Legal(LeakyBucket, events)
    ensures SweepLeaky(Execute(LeakyBucket, events).state.leaky, now) == Execute(LeakyBucket, events).state.leaky
  {
    LeakyStaysBusy(events);
  }

  // ---- fixed window ----

  function AdmittedIn(past: Past, key: Key, second: int): nat {
    match past
    case NoPast => 0
    case Decided(before, o) =>
      AdmittedIn(before, key, second)
      + if o.key == key && o.at / SECOND == second && o.decision.allowed then 1 else 0
  }

  /** Every call of the key carries this rate plus burst. */
  predicate KeyLimit(past: Past, key: Key, limit: int) {
    match past
    case NoPast => true
    case Decided(before, o) =>
      KeyLimit(before, key, limit) && (o.key == key ==> o.limits.rate + o.limits.burst == limit)
  }

  /** In each unix second the first max(1, rate + burst) calls of a key are admitted, and no other. */
  lemma {:induction false} FixedWindowAdmits(past: Past, key: Key, second: int, limit: int)
    requires Honours(FixedWindow, past) && KeyLimit(past, key, limit)
    ensures var calls, most := CallsIn(past, key, second), if limit < 1 then 1 else limit;
            AdmittedIn(past, key, second) == if calls <= most then calls else most
  {
    if past.Decided? {
      FixedWindowAdmits(past.before, key, second, limit);
    }
  }

  // ---- sliding window ----

  /** No call of the key carries a rate plus burst above `most`. */
  predicate KeyLimitAtMost(past: Past, key: Key, most: nat) {
    match past
    case NoPast => true
    case Decided(before, o) =>
      KeyLimitAtMost(before, key, most) && (o.key == key ==> o.limits.rate + o.limits.burst <= most)
  }

  /** No window of one second, wherever it ends, holds more admitted calls of a key than the greatest
      rate + burst that its calls carry. */
  lemma {:induction false} SlidingWindowBound(past: Past, key: Key, most: nat)
    requires Honours(SlidingWindow, past) && KeyLimitAtMost(past, key, most)
    ensures forall end :: InWindow(Admitted(past, key), end, WINDOW) <= most
  {
    if past.Decided? {
      var o := past.last;
      SlidingWindowBound(past.before, key, most);
      if o.key == key && o.decision.allowed {
        WindowStep(Admitted(past.before, key), o.at, WINDOW, most);
      }
    }
  }

  // ---- token bucket ----

  predicate WithinBudget(n: nat, elapsed: int, limits: Limits) {
    n as real <= limits.burst as real + Gain(elapsed, EffectiveRate(limits.rate))
  }

  /** Every interval from an earlier admission to `now` would still carry at most burst plus
      rate times its length if the call at `now` were admitted. */
  predicate Fits(log: seq<int>, limits: Limits, now: int) {
    && limits.burst >= 1
    && forall j :: 0 <= j < |log| ==> WithinBudget(|log| - j + 1, now - log[j], limits)
  }

  lemma {:induction false} LevelFits(log: seq<int>, limits: Limits, now: int)
    ensures Level(log, limits.burst, EffectiveRate(limits.rate), now) >= 1.0 <==> Fits(log, limits, now)
  {
    var burst, rate := limits.burst, EffectiveRate(limits.rate);
    LevelIsTightestBudget(log, burst, rate, now, 1.0);
    forall j | 0 <= j < |log|
      ensures WithinBudget(|log| - j + 1, now - log[j], limits)
         <==> burst as real + Gain(now - log[j], rate) - (|log| - j) as real >= 1.0
    {
    }
  }

  /** The bucket admits a call exactly when the interval bound allows it: it neither exceeds the bound
      nor turns away a call the bound has room for. */
  lemma {:induction false} TokenBucketIsGreedy(before: Past, o: Outcome)
    requires Honours(TokenBucket, Decided(before, o))
    ensures o.decision.allowed <==> Fits(Admitted(before, o.key), o.limits, o.at)
  {
    LevelFits(Admitted(before, o.key), o.limits, o.at);
  }

  predicate TokensSpaced(log: seq<int>, limits: Limits) {
    forall i, j :: 0 <= i <= j < |log| ==> WithinBudget(j - i + 1, log[j] - log[i], limits)
  }

  lemma {:induction false} AdmittedTokensSpaced(past: Past, limits: Key -> Limits, key: Key)
    requires Honours(TokenBucket, past) && Constant(past, limits)
    ensures TokensSpaced(Admitted(past, key), limits(key))
  {
    if past.Decided? {
      AdmittedTokensSpaced(past.before, limits, key);
      if past.last.key == key && past.last.decision.allowed {
        TokenBucketIsGreedy(past.before, past.last);
        SpacedAppend(Admitted(past.before, key), past.last.limits, past.last.at);
      }
    }
  }

  lemma SpacedAppend(log: seq<int>, limits: Limits, now: int)
    requires TokensSpaced(log, limits) && Fits(log, limits, now)
    ensures TokensSpaced(log + [now], limits)
  {
    var all := log + [now];
    forall i, j | 0 <= i <= j < |all| ensures WithinBudget(j - i + 1, all[j] - all[i], limits) {
      if j < |log| {
        assert WithinBudget(j - i + 1, log[j] - log[i], limits);
      } else if i < |log| {
        assert WithinBudget(|log| - i + 1, now - log[i], limits);
      } else {
        GainGrows(0, 0, EffectiveRate(limits.rate));
      }
    }
  }

  /** Over any closed interval, at most burst + rate * length calls of a key are admitted. */
  lemma TokenBucketWithinInterval(past: Past, limits: Key -> Limits, key: Key, from: int, to: int)
    requires Honours(TokenBucket, past) && Ordered(past) && Constant(past, limits)
    requires from <= to && limits(key).burst >= 0
    ensures Count(Admitted(past, key), from - 1, to) as real
         <= limits(key).burst as real + Gain(to - from, EffectiveRate(limits(key).rate))
  {
    AdmittedSorted(past, key);
    AdmittedTokensSpaced(past, limits, key);
    IntervalWithinBudget(Admitted(past, key), limits(key), from, to);
  }

  lemma IntervalWithinBudget(log: seq<int>, limits: Limits, from: int, to: int)
    requires Sorted(log) && TokensSpaced(log, limits) && from <= to && limits.burst >= 0
    ensures WithinBudget(Count(log, from - 1, to), to - from, limits)
  {
    var rate := EffectiveRate(limits.rate);
    GainGrows(0, to - from, rate);
    if Count(log, from - 1, to) > 0 {
      var i, j := CountedRange(log, from - 1, to);
      assert WithinBudget(j - i + 1, log[j] - log[i], limits);
      GainGrows(log[j] - log[i], to - from, rate);
    }
  }
}
