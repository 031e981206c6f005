/** When sweeping token buckets matters: the conditions under which it is invisible, and under which the
    interval bound survives it, are exact. */
module RateLimitVisible {
  import opened RateLimit
  import opened RateLimitBounds
  import opened RateLimitHistory
  import opened Windows

  function Always(l: Limits): Key -> Limits { _ => l }

  function Repeat(before: Events, e: Event, n: nat): Events {
    if n == 0 then before else Then(Repeat(before, e, n - 1), e)
  }

  /** The tokens a call of `key` at `now` would find. */
  predicate Finds(m: map<Key, Tokens>, key: Key, l: Limits, now: int, level: real) {
    if key in m then
      var b := m[key];
      && b.capacity == l.burst as real && b.refillRate == EffectiveRate(l.rate)
      && Min(b.capacity, b.tokens + Gain(now - b.lastRefill, b.refillRate)) == level
    else level == l.burst as real
  }

  function Left(level: real, calls: nat): real
    requires level >= 0.0
  {
    if calls as real <= level then level - calls as real else level - level.Floor as real
  }

  function Length(past: Past): nat {
    match past
    case NoPast => 0
    case Decided(before, _) => Length(before) + 1
  }

  predicate Drained(run: Run, past: nat, call: Event, n: nat, level: real)
    requires call.Call? && level >= 0.0
  {
    && Length(run.past) == past + n
    && Finds(run.state.tokens, call.key, call.limits, call.at, Left(level, n))
    && (n > 0 ==>
          && run.past.Decided? && (run.past.last.decision.allowed <==> n as real <= level)
          && call.key in run.state.tokens
          && run.state.tokens[call.key].lastRefill == call.at
          && run.state.tokens[call.key].tokens == Left(level, n))
  }

  /** n simultaneous calls: the n-th is admitted iff n tokens were there. */
  lemma {:induction false} SimultaneousCalls(before: Events, call: Event, n: nat, level: real)
    requires call.Call? && Legal(TokenBucket, before) && (before.Then? ==> before.last.at <= call.at)
    requires 0.0 <= level <= call.limits.burst as real
    requires Finds(Execute(TokenBucket, before).state.tokens, call.key, call.limits, call.at, level)
    ensures Legal(TokenBucket, Repeat(before, call, n))
    ensures Drained(Execute(TokenBucket, Repeat(before, call, n)), Length(Execute(TokenBucket, before).past), call, n,
                    level)
  {
    if n > 0 {
      SimultaneousCalls(before, call, n - 1, level);
      var run := Execute(TokenBucket, Repeat(before, call, n - 1));
      OneCall(run.state.tokens, call.key, call.limits, call.at, level, n);
    }
  }

  lemma OneCall(m: map<Key, Tokens>, key: Key, l: Limits, now: int, level: real, n: nat)
    requires n > 0 && 0.0 <= level <= l.burst as real && Finds(m, key, l, now, Left(level, n - 1))
    ensures var (m', d) := CheckTokens(m, key, l, now);
            && (d.allowed <==> n as real <= level)
            && key in m' && m'[key].lastRefill == now && m'[key].tokens == Left(level, n)
            && Finds(m', key, l, now, Left(level, n))
  {
    GainGrows(0, 0, EffectiveRate(l.rate));
    var floor := level.Floor;
    if (n - 1) as real <= level < n as real {
      assert floor == n - 1;
    }
  }

  lemma {:induction false} RepeatWithoutTicks(before: Events, call: Event, n: nat)
    requires call.Call?
    ensures WithoutTicks(Repeat(before, call, n)) == Repeat(WithoutTicks(before), call, n)
  {
    if n > 0 {
      RepeatWithoutTicks(before, call, n - 1);
    }
  }

  lemma {:induction false} RepeatSteady(before: Events, call: Event, n: nat, limits: Key -> Limits)
    requires call.Call? && call.limits == limits(call.key) && Steady(before, limits)
    ensures Steady(Repeat(before, call, n), limits)
  {
    if n > 0 {
      RepeatSteady(before, call, n - 1, limits);
    }
  }

  const IDLE: int := CLEANUP_TICK * 2 + 1

  function Drain(key: Key, l: Limits): Events
    requires l.burst >= 1
  {
    Repeat(NoEvents, Call(key, l, 0), l.burst)
  }

  /** Drain a bucket, let the sweep take it, and drain it again. */
  function DrainTwice(key: Key, l: Limits): Events
    requires l.burst >= 1
  {
    Repeat(Then(Drain(key, l), Tick(IDLE)), Call(key, l, IDLE), l.burst)
  }

  lemma DrainAlone(key: Key, limits: Key -> Limits)
    requires limits(key).burst >= 1
    ensures var drain := Drain(key, limits(key));
            && Legal(TokenBucket, drain) && Steady(drain, limits) && drain.Then? && drain.last.at == 0
            && Drained(Execute(TokenBucket, drain), 0, Call(key, limits(key), 0), limits(key).burst,
                       limits(key).burst as real)
  {
    var l := limits(key);
    SimultaneousCalls(NoEvents, Call(key, l, 0), l.burst, l.burst as real);
    RepeatSteady(NoEvents, Call(key, l, 0), l.burst, limits);
  }

  lemma SweptRun(key: Key, limits: Key -> Limits)
    requires limits(key).burst >= 1
    ensures var run := DrainTwice(key, limits(key));
            && Legal(TokenBucket, run) && Steady(run, limits)
            && var past := Execute(TokenBucket, run).past; past.Decided? && past.last.decision.allowed
    ensures var swept := Then(Drain(key, limits(key)), Tick(IDLE));
            && Legal(TokenBucket, swept)
            && Finds(Execute(TokenBucket, swept).state.tokens, key, limits(key), IDLE, limits(key).burst as real)
  {
    var l := limits(key);
    DrainAlone(key, limits);
    var swept := Then(Drain(key, l), Tick(IDLE));
    assert key !in Execute(TokenBucket, swept).state.tokens;
    SimultaneousCalls(swept, Call(key, l, IDLE), l.burst, l.burst as real);
    RepeatSteady(swept, Call(key, l, IDLE), l.burst, limits);
  }

  lemma UnsweptRun(key: Key, limits: Key -> Limits)
    requires limits(key).burst >= 1 && !RefillsInTime(limits(key))
    ensures var calls := WithoutTicks(DrainTwice(key, limits(key)));
            && Legal(TokenBucket, calls)
            && var past := Execute(TokenBucket, calls).past;
               past.Decided? && !past.last.decision.allowed
  {
    var l := limits(key);
    RepeatWithoutTicks(Then(Drain(key, l), Tick(IDLE)), Call(key, l, IDLE), l.burst);
    RepeatWithoutTicks(NoEvents, Call(key, l, 0), l.burst);
    DrainAlone(key, limits);
    var level := Gain(IDLE, EffectiveRate(l.rate));
    GainGrows(0, IDLE, EffectiveRate(l.rate));
    GainGrows(0, 0, EffectiveRate(l.rate));
    SimultaneousCalls(Drain(key, l), Call(key, l, IDLE), l.burst, level);
  }

  ghost predicate Invisible(events: Events)
    requires Legal(TokenBucket, events)
  {
    WithoutTicksLegal(TokenBucket, events);
    Execute(TokenBucket, events).past == Execute(TokenBucket, WithoutTicks(events)).past
  }

  lemma {:induction false} SteadyRefills(events: Events, limits: Key -> Limits)
    requires Steady(events, limits) && forall key :: RefillsInTime(limits(key))
    ensures AllRefillInTime(events)
  {
    if events.Then? {
      SteadyRefills(events.before, limits);
    }
  }

  /** With limits that each key keeps, the sweep of token buckets is invisible in all runs if and only if
      every key's bucket, once empty, refills before the sweep may take it. */
  lemma TokenEvictionInvisibleExactlyWhen(limits: Key -> Limits)
    ensures (forall key :: RefillsInTime(limits(key))) <==>
            forall events :: Legal(TokenBucket, events) && Steady(events, limits) ==> Invisible(events)
  {
    if forall key :: RefillsInTime(limits(key)) {
      forall events | Legal(TokenBucket, events) && Steady(events, limits) ensures Invisible(events) {
        SteadyRefills(events, limits);
        EvictionInvisible(TokenBucket, events, limits);
      }
    } else {
      var key :| !RefillsInTime(limits(key));
      GainGrows(0, IDLE, EffectiveRate(limits(key).rate));
      SweptRun(key, limits);
      UnsweptRun(key, limits);
      assert !Invisible(DrainTwice(key, limits(key)));
    }
  }

  // ---- the interval bound ----

  /** The run as one key sees it. */
  function OnlyKey(events: Events, key: Key): Events {
    match events
    case NoEvents => NoEvents
    case Then(before, e) =>
      if e.Call? && e.key != key then OnlyKey(before, key) else Then(OnlyKey(before, key), e)
  }

  predicate SameBucket(m: map<Key, Tokens>, n: map<Key, Tokens>, key: Key) {
    (key in m <==> key in n) && (key in m ==> m[key] == n[key])
  }

  /** Other keys do not touch a key's bucket. */
  lemma CallTouchesOne(m: map<Key, Tokens>, n: map<Key, Tokens>, key: Key, called: Key, l: Limits, now: int)
    requires SameBucket(m, n, key)
    ensures called != key ==> SameBucket(CheckTokens(m, called, l, now).0, n, key)
    ensures called == key ==> SameBucket(CheckTokens(m, key, l, now).0, CheckTokens(n, key, l, now).0, key)
                              && CheckTokens(m, key, l, now).1 == CheckTokens(n, key, l, now).1
  {
  }

  lemma {:induction false} OnlyKeyAgrees(events: Events, key: Key)
    requires Legal(TokenBucket, events)
    ensures var only := OnlyKey(events, key);
            && Legal(TokenBucket, only) && (only.Then? ==> events.Then? && only.last.at <= events.last.at)
            && SameBucket(Execute(TokenBucket, events).state.tokens, Execute(TokenBucket, only).state.tokens, key)
            && Admitted(Execute(TokenBucket, events).past, key) == Admitted(Execute(TokenBucket, only).past, key)
  {
    hide CheckTokens;
    if events.Then? {
      OnlyKeyAgrees(events.before, key);
      if events.last.Call? {
        var Call(called, l, now) := events.last;
        CallTouchesOne(Execute(TokenBucket, events.before).state.tokens,
                       Execute(TokenBucket, OnlyKey(events.before, key)).state.tokens, key, called, l, now);
      }
    }
  }

  /** Every call of the key carries these limits. */
  predicate Carries(events: Events, key: Key, l: Limits) {
    match events
    case NoEvents => true
    case Then(before, e) => Carries(before, key, l) && (e.Call? && e.key == key ==> e.limits == l)
  }

  lemma {:induction false} OnlyKeySafe(events: Events, key: Key, l: Limits)
    requires Carries(events, key, l) && RefillsInTime(l)
    ensures EvictionSafe(TokenBucket, OnlyKey(events, key), Always(l))
  {
    if events.Then? {
      OnlyKeySafe(events.before, key, l);
    }
  }

  predicate IntervalHolds(events: Events, key: Key, l: Limits, from: int, to: int)
    requires Legal(TokenBucket, events)
  {
    WithinBudget(Count(Admitted(Execute(TokenBucket, events).past, key), from - 1, to), to - from, l)
  }

  /** In a run with the sweep, at most burst + rate * length calls of a key are admitted over any closed
      interval, provided that its own limits stay and refill in time; other keys may do as they like. */
  lemma TokenBucketRunWithinInterval(events: Events, key: Key, l: Limits, from: int, to: int)
    requires Legal(TokenBucket, events) && Carries(events, key, l) && RefillsInTime(l)
    requires from <= to && l.burst >= 0
    ensures IntervalHolds(events, key, l, from, to)
  {
    var only := OnlyKey(events, key);
    OnlyKeyAgrees(events, key);
    OnlyKeySafe(events, key, l);
    DecisionsFollowHistory(TokenBucket, only, Always(l));
    RunOrdered(TokenBucket, only);
    RunConstant(TokenBucket, only, Always(l));
    TokenBucketWithinInterval(Execute(TokenBucket, only).past, Always(l), key, from, to);
  }

  lemma {:induction false} RepeatAdmits(before: Events, call: Event, n: nat, level: real, lo: int, hi: int)
    requires call.Call? && Legal(TokenBucket, before) && (before.Then? ==> before.last.at <= call.at)
    requires 0.0 <= level <= call.limits.burst as real && n as real <= level && lo < call.at <= hi
    requires Finds(Execute(TokenBucket, before).state.tokens, call.key, call.limits, call.at, level)
    ensures Legal(TokenBucket, Repeat(before, call, n))
    ensures Count(Admitted(Execute(TokenBucket, Repeat(before, call, n)).past, call.key), lo, hi)
         == Count(Admitted(Execute(TokenBucket, before).past, call.key), lo, hi) + n
  {
    hide CheckTokens, Finds, Drained, Execute, Admitted, Count, Min;
    LastAdmitted(before, call, n, level);
    if n > 0 {
      RepeatAdmits(before, call, n - 1, level, lo, hi);
      OneAdmission(Repeat(before, call, n), lo, hi);
    }
  }

  lemma LastAdmitted(before: Events, call: Event, n: nat, level: real)
    requires call.Call? && Legal(TokenBucket, before) && (before.Then? ==> before.last.at <= call.at)
    requires 0.0 <= level <= call.limits.burst as real && n as real <= level
    requires Finds(Execute(TokenBucket, before).state.tokens, call.key, call.limits, call.at, level)
    ensures Legal(TokenBucket, Repeat(before, call, n))
    ensures n > 0 ==> var past := Execute(TokenBucket, Repeat(before, call, n)).past;
                      past.Decided? && past.last.decision.allowed
  {
    hide Finds, Execute;
    SimultaneousCalls(before, call, n, level);
  }

  lemma OneAdmission(events: Events, lo: int, hi: int)
    requires Legal(TokenBucket, events) && events.Then? && events.last.Call? && lo < events.last.at <= hi
    requires var past := Execute(TokenBucket, events).past; past.Decided? && past.last.decision.allowed
    ensures Count(Admitted(Execute(TokenBucket, events).past, events.last.key), lo, hi)
         == Count(Admitted(Execute(TokenBucket, events.before).past, events.last.key), lo, hi) + 1
  {
    hide CheckTokens;
    CountAppend(Admitted(Execute(TokenBucket, events.before).past, events.last.key), events.last.at, lo, hi);
  }

  /** Draining, sweeping and draining again admits twice the burst within ten minutes and a nanosecond. */
  lemma DrainTwiceAdmits(key: Key, l: Limits)
    requires l.burst >= 1
    ensures Legal(TokenBucket, DrainTwice(key, l)) && Carries(DrainTwice(key, l), key, l)
    ensures Count(Admitted(Execute(TokenBucket, DrainTwice(key, l)).past, key), -1, IDLE) == 2 * l.burst
  {
    var swept := Then(Drain(key, l), Tick(IDLE));
    SweptRun(key, Always(l));
    RepeatAdmits(NoEvents, Call(key, l, 0), l.burst, l.burst as real, -1, IDLE);
    RepeatAdmits(swept, Call(key, l, IDLE), l.burst, l.burst as real, -1, IDLE);
    SteadyCarries(DrainTwice(key, l), key, l);
  }

  lemma {:induction false} SteadyCarries(events: Events, key: Key, l: Limits)
    requires Steady(events, Always(l))
    ensures Carries(events, key, l)
  {
    if events.Then? {
      SteadyCarries(events.before, key, l);
    }
  }

  /** The interval bound holds of a key in every run in which its limits stay, sweep included, if and only
      if its bucket, once empty, refills before the sweep may take it. */
  lemma TokenBucketBoundExactlyWhen(key: Key, l: Limits)
    requires l.burst >= 0
    ensures RefillsInTime(l) <==>
            forall events, from, to :: Legal(TokenBucket, events) && Carries(events, key, l) && from <= to ==>
              IntervalHolds(events, key, l, from, to)
  {
    if RefillsInTime(l) {
      forall events, from, to | Legal(TokenBucket, events) && Carries(events, key, l) && from <= to
        ensures IntervalHolds(events, key, l, from, to)
      {
        TokenBucketRunWithinInterval(events, key, l, from, to);
      }
    } else {
      GainGrows(0, IDLE, EffectiveRate(l.rate));
      DrainTwiceAdmits(key, l);
      assert !IntervalHolds(DrainTwice(key, l), key, l, 0, IDLE);
    }
  }
}
