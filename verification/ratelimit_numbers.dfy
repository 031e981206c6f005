/** What the rate limiters decide, in whole numbers: nanoseconds, calls and configured limits. */
module RateLimitNumbers {
  import opened Options
  import opened RateLimit
  import opened RateLimitBounds
  import opened RateLimitHistory
  import opened RateLimitLeaky
  import opened RateLimitVisible
  import opened Windows

  // ---- token buckets ----

  /** n admissions within `elapsed` nanoseconds keep to the burst and the rate, which counts as one at least. */
  predicate Keeps(n: int, elapsed: int, l: Limits) {
    n * 1_000_000_000 <= l.burst * 1_000_000_000 + (if l.rate <= 0 then 1 else l.rate) * elapsed
  }

  lemma BudgetIs(n: nat, elapsed: int, l: Limits)
    ensures WithinBudget(n, elapsed, l) <==> Keeps(n, elapsed, l)
  {
    var earned := elapsed * EffectiveRate(l.rate);
    assert Gain(elapsed, EffectiveRate(l.rate)) == earned as real / 1000000000.0;
    assert n as real * 1000000000.0 == (n * 1_000_000_000) as real;
    assert l.burst as real * 1000000000.0 == (l.burst * 1_000_000_000) as real;
  }

  /** An empty bucket is full again ten minutes and a nanosecond later. */
  predicate RefillsInTenMinutes(l: Limits) {
    l.burst * 1_000_000_000 <= (if l.rate <= 0 then 1 else l.rate) * 600_000_000_001
  }

  lemma RefillIs(l: Limits)
    ensures RefillsInTime(l) <==> RefillsInTenMinutes(l)
  {
    var earned := 600_000_000_001 * EffectiveRate(l.rate);
    assert Gain(600_000_000_001, EffectiveRate(l.rate)) == earned as real / 1000000000.0;
    assert l.burst as real * 1000000000.0 == (l.burst * 1_000_000_000) as real;
  }

  /** In a run with the sweep, a token bucket admits a call if and only if the burst is positive and every
      interval from an earlier admission to now has room for one more. */
  lemma TokenBucketAdmitsExactlyWhen(events: Events, key: Key, l: Limits, now: int)
    requires Legal(TokenBucket, events) && (events.Then? ==> events.last.at <= now)
    requires Carries(events, key, l) && RefillsInTenMinutes(l)
    ensures var run := Execute(TokenBucket, events);
            var log := Admitted(run.past, key);
            CheckTokens(run.state.tokens, key, l, now).1.allowed <==>
              l.burst >= 1 && forall j :: 0 <= j < |log| ==> Keeps(|log| - j + 1, now - log[j], l)
  {
    hide CheckTokens, Execute, Fits;
    var only := OnlyKey(events, key);
    RefillIs(l);
    OnlyKeyAgrees(events, key);
    OnlyKeySafe(events, key, l);
    NextIsGreedy(only, key, l, now);
    var run, run' := Execute(TokenBucket, events), Execute(TokenBucket, only);
    CallTouchesOne(run.state.tokens, run'.state.tokens, key, key, l, now);
    FitsIs(Admitted(run'.past, key), l, now);
  }

  lemma NextIsGreedy(events: Events, key: Key, l: Limits, now: int)
    requires Legal(TokenBucket, events) && (events.Then? ==> events.last.at <= now)
    requires EvictionSafe(TokenBucket, events, Always(l)) && RefillsInTime(l)
    ensures var run := Execute(TokenBucket, events);
            CheckTokens(run.state.tokens, key, l, now).1.allowed <==> Fits(Admitted(run.past, key), l, now)
  {
    hide CheckTokens, RefillsInTime, Fits;
    var run := Execute(TokenBucket, events);
    DecisionsFollowHistory(TokenBucket, Then(events, Call(key, l, now)), Always(l));
    TokenBucketIsGreedy(run.past, Outcome(key, l, now, CheckTokens(run.state.tokens, key, l, now).1));
  }

  lemma FitsIs(log: seq<int>, l: Limits, now: int)
    ensures Fits(log, l, now) <==>
            l.burst >= 1 && forall j :: 0 <= j < |log| ==> Keeps(|log| - j + 1, now - log[j], l)
  {
    forall j | 0 <= j < |log|
      ensures WithinBudget(|log| - j + 1, now - log[j], l) <==> Keeps(|log| - j + 1, now - log[j], l)
    {
      BudgetIs(|log| - j + 1, now - log[j], l);
    }
  }

  predicate IntervalKept(events: Events, key: Key, l: Limits, from: int, to: int)
    requires Legal(TokenBucket, events)
  {
    Keeps(Count(Admitted(Execute(TokenBucket, events).past, key), from - 1, to), to - from, l)
  }

  /** In all runs in which a key keeps its limits, the calls admitted over any closed interval keep to the
      burst and the rate, if and only if an empty bucket is full again ten minutes and a nanosecond later. */
  lemma TokenBucketKeepsExactlyWhen(key: Key, l: Limits)
    requires l.burst >= 0
    ensures RefillsInTenMinutes(l) <==>
            forall events, from, to :: Legal(TokenBucket, events) && Carries(events, key, l) && from <= to ==>
              IntervalKept(events, key, l, from, to)
  {
    RefillIs(l);
    TokenBucketBoundExactlyWhen(key, l);
    forall events, from, to | Legal(TokenBucket, events)
      ensures IntervalKept(events, key, l, from, to) <==> IntervalHolds(events, key, l, from, to)
    {
      BudgetIs(Count(Admitted(Execute(TokenBucket, events).past, key), from - 1, to), to - from, l);
    }
  }

  // ---- windows ----

  /** The times of a key's calls, admitted or not. */
  function CallTimes(past: Past, key: Key): seq<int> {
    match past
    case NoPast => []
    case Decided(before, o) => if o.key == key then CallTimes(before, key) + [o.at] else CallTimes(before, key)
  }

  lemma {:induction false} CallsInIs(past: Past, key: Key, second: int)
    ensures CallsIn(past, key, second)
         == Count(CallTimes(past, key), second * 1_000_000_000 - 1, second * 1_000_000_000 + 999_999_999)
  {
    if past.Decided? {
      CallsInIs(past.before, key, second);
      CountAppend(CallTimes(past.before, key), past.last.at, second * 1_000_000_000 - 1,
                  second * 1_000_000_000 + 999_999_999);
    }
  }

  /** In a run with the sweep, the fixed window admits the first call of a key in a second of the clock, and
      a further one if and only if it is no more than the rate + burst-th. */
  lemma FixedWindowAdmitsExactlyWhen(events: Events, key: Key, l: Limits, now: int)
    requires Legal(FixedWindow, events) && (events.Then? ==> events.last.at <= now)
    ensures var run, second := Execute(FixedWindow, events), now / 1_000_000_000;
            var calls := Count(CallTimes(run.past, key), second * 1_000_000_000 - 1,
                               second * 1_000_000_000 + 999_999_999);
            CheckFixed(run.state.fixed, key, l, now).1.allowed <==> calls == 0 || calls + 1 <= l.rate + l.burst
  {
    var run := Execute(FixedWindow, events);
    DecisionsFollowHistory(FixedWindow, Then(events, Call(key, l, now)), Always(l));
    CallsInIs(run.past, key, now / 1_000_000_000);
  }

  /** In a run with the sweep, the sliding window admits a call if and only if fewer than rate + burst
      admissions lie less than a second back. */
  lemma SlidingWindowAdmitsExactlyWhen(events: Events, key: Key, l: Limits, now: int)
    requires Legal(SlidingWindow, events) && (events.Then? ==> events.last.at <= now) && l.rate + l.burst >= 1
    ensures var run := Execute(SlidingWindow, events);
            CheckSliding(run.state.sliding, key, l, now).1.allowed <==>
              Count(Admitted(run.past, key), now - 1_000_000_000, now) < l.rate + l.burst
  {
    hide CheckSliding;
    var run := Execute(SlidingWindow, events);
    DecisionsFollowHistory(SlidingWindow, Then(events, Call(key, l, now)), Always(l));
    RunOrdered(SlidingWindow, events);
    AdmittedSorted(run.past, key);
    AdmittedUntil(run.past, key, now);
    LiveIsCount(Admitted(run.past, key), now - 1_000_000_000, now);
  }

  lemma {:induction false} AdmittedUntil(past: Past, key: Key, now: int)
    requires Ordered(past) && (past.Decided? ==> past.last.at <= now)
    ensures Until(Admitted(past, key), now)
  {
    if past.Decided? {
      AdmittedUntil(past.before, key, now);
    }
  }

  // ---- leaky buckets ----

  /** The interval bound by the limits of the key's first call. */
  lemma LeakyBucketKeeps(events: Events, key: Key, from: int, to: int)
    requires Legal(LeakyBucket, events) && from <= to
    ensures var past := Execute(LeakyBucket, events).past;
            match FirstLimits(past, key)
            case None => Admitted(past, key) == []
            case Some(l) =>
              && l.burst >= 1 && l.rate <= 1_000_000_000
              && Count(Admitted(past, key), from - 1, to)
                 <= l.burst + (to - from) / (1_000_000_000 / if l.rate <= 0 then 1 else l.rate)
  {
    LeakyBucketWithinInterval(events, key, from, to);
  }

  /** A bucket that holds one call: it has just been leaked when that call was admitted. */
  predicate LastLeakIsLast(m: map<Key, Leaky>, past: Past, key: Key) {
    match FirstLimits(past, key)
    case None => key !in m && Admitted(past, key) == []
    case Some(l) =>
      l.burst == 1 && l.rate <= 1_000_000_000 ==>
        var log := Admitted(past, key);
        && key in m && m[key].capacity == 1
        && m[key].leakRate == 1_000_000_000 / (if l.rate <= 0 then 1 else l.rate)
        && |m[key].queue| == 1 && log != [] && m[key].lastLeak == log[|log| - 1]
  }

  lemma CallKeepsLastLeak(m: map<Key, Leaky>, past: Past, o: Outcome, key: Key)
    requires Callable(LeakyBucket, o.limits) && LastLeakIsLast(m, past, key)
    requires o.decision == CheckLeaky(m, o.key, o.limits, o.at).1
    ensures LastLeakIsLast(CheckLeaky(m, o.key, o.limits, o.at).0, Decided(past, o), key)
  {
  }

  lemma {:induction false} SinglesLeak(events: Events, key: Key)
    requires Legal(LeakyBucket, events)
    ensures var run := Execute(LeakyBucket, events); LastLeakIsLast(run.state.leaky, run.past, key)
  {
    hide LastLeakIsLast;
    if events.NoEvents? {
      NoneLeaked(key);
    } else {
      var run := Execute(LeakyBucket, events.before);
      SinglesLeak(events.before, key);
      match events.last
      case Tick(now) => {
        LeakyNeverEvicted(events.before, now);
      }
      case Call(called, l, now) => {
        CallKeepsLastLeak(run.state.leaky, run.past,
                          Outcome(called, l, now, CheckLeaky(run.state.leaky, called, l, now).1), key);
      }
    }
  }

  lemma NoneLeaked(key: Key)
    ensures LastLeakIsLast(map[], NoPast, key)
  {
  }

  /** With a burst of one, in any run, a call is admitted if and only if the leak interval has passed since
      the last admission. */
  lemma SingleLeakAdmitsExactlyWhen(events: Events, key: Key, l: Limits, now: int)
    requires Legal(LeakyBucket, events) && Callable(LeakyBucket, l)
    requires var first := FirstLimits(Execute(LeakyBucket, events).past, key); first.Some? && first.value.burst == 1
    ensures var run := Execute(LeakyBucket, events);
            var log, rate := Admitted(run.past, key), FirstLimits(run.past, key).value.rate;
            && log != [] && rate <= 1_000_000_000
            && (CheckLeaky(run.state.leaky, key, l, now).1.allowed <==>
                  now - log[|log| - 1] >= 1_000_000_000 / if rate <= 0 then 1 else rate)
  {
    SinglesLeak(events, key);
    LeakyBucketKeeps(events, key, 0, 0);
    var b := Execute(LeakyBucket, events).state.leaky[key];
    QuotientPositive(now - b.lastLeak, b.leakRate);
  }

  lemma QuotientPositive(a: int, b: int)
    requires b > 0
    ensures a / b > 0 <==> a >= b
  {
  }

  // ---- what a decision reports ----

  /** The state after n further calls at the same instant. */
  function Again(alg: Algorithm, s: State, key: Key, l: Limits, now: int, n: nat): State
    requires Callable(alg, l)
  {
    if n == 0 then s else Check(alg, Again(alg, s, key, l, now, n - 1), key, l, now).0
  }

  predicate NextReports(first: Decision, second: Decision) {
    && (second.allowed <==> first.allowed && first.remaining >= 1)
    && (second.allowed ==> second.remaining == first.remaining - 1)
  }

  lemma NextFixed(m: map<(Key, int), Window>, key: Key, l: Limits, now: int)
    ensures var (m', d) := CheckFixed(m, key, l, now); NextReports(d, CheckFixed(m', key, l, now).1)
  {
  }

  lemma NextSliding(m: map<Key, seq<int>>, key: Key, l: Limits, now: int)
    ensures var (m', d) := CheckSliding(m, key, l, now); NextReports(d, CheckSliding(m', key, l, now).1)
  {
    var valid := Live(Entries(m, key), now - WINDOW);
    LiveTwice(Entries(m, key), now - WINDOW, now - WINDOW);
    LiveAppend(valid, now, now - WINDOW);
  }

  lemma NextTokens(m: map<Key, Tokens>, key: Key, l: Limits, now: int)
    ensures var (m', d) := CheckTokens(m, key, l, now); NextReports(d, CheckTokens(m', key, l, now).1)
  {
    var (m', d) := CheckTokens(m, key, l, now);
    assert Gain(0, m'[key].refillRate) == 0.0;
    assert (m'[key].tokens - 1.0).Floor == m'[key].tokens.Floor - 1;
  }

  lemma NextLeaky(m: map<Key, Leaky>, key: Key, l: Limits, now: int)
    requires Callable(LeakyBucket, l)
    ensures var (m', d) := CheckLeaky(m, key, l, now); NextReports(d, CheckLeaky(m', key, l, now).1)
  {
  }

  lemma NextCall(alg: Algorithm, s: State, key: Key, l: Limits, now: int)
    requires Callable(alg, l)
    ensures var (s', d) := Check(alg, s, key, l, now); NextReports(d, Check(alg, s', key, l, now).1)
  {
    hide NextReports, CheckFixed, CheckSliding, CheckTokens, CheckLeaky;
    match alg
    case SlidingWindow => NextSliding(s.sliding, key, l, now);
    case TokenBucket => NextTokens(s.tokens, key, l, now);
    case LeakyBucket => NextLeaky(s.leaky, key, l, now);
    case _ => NextFixed(s.fixed, key, l, now);
  }

  /** Whatever the algorithm and the state, what an admission reports as remaining is how many further calls
      at the same instant are admitted; after a denial none is. */
  lemma {:induction false} RemainingMeans(alg: Algorithm, s: State, key: Key, l: Limits, now: int, n: nat)
    requires Callable(alg, l)
    ensures var (s', d) := Check(alg, s, key, l, now);
            var nth := Check(alg, Again(alg, s', key, l, now, n), key, l, now).1;
            && (nth.allowed <==> d.allowed && n + 1 <= d.remaining)
            && (nth.allowed ==> nth.remaining == d.remaining - (n + 1))
  {
    hide Check;
    var s' := Check(alg, s, key, l, now).0;
    if n == 0 {
      NextCall(alg, s, key, l, now);
    } else {
      RemainingMeans(alg, s, key, l, now, n - 1);
      NextCall(alg, Again(alg, s', key, l, now, n - 1), key, l, now);
    }
  }
}
