/** Runs that make as many attempts as the breaker ever lets through. */
module MlRelentless {
  import opened Arithmetic
  import opened MlBreaker

  /** So many callers, so many retries, from a start on. */
  datatype Setting = Setting(callers: nat, maxRetries: nat, start: int)

  /** A run against a failing service has led to this state by now, with so many attempts. */
  predicate Led(g: Setting, events: Events, s: State, now: int, attempts: nat) {
    && Run(events, g.callers, g.maxRetries, g.start) && After(events, g.callers, g.maxRetries, g.start) == s
    && AlwaysFails(events) && Attempts(events) == attempts
    && g.start <= now && (events.Then? ==> events.last.at <= now)
  }

  lemma OneMore(g: Setting, events: Events, s: State, now: int, attempts: nat, e: Event)
    requires Led(g, events, s, now, attempts) && Enabled(s, e) && e.at == now && !(e.Attempt? && e.ok)
    ensures Led(g, Then(events, e), Apply(s, e, g.maxRetries), now, attempts + if e.Attempt? then 1 else 0)
  {
  }

  // ---- one caller's attempts ----

  function Burst(events: Events, caller: nat, n: nat, now: int): Events {
    if n == 0 then events else Then(Burst(events, caller, n - 1, now), Attempt(caller, false, now))
  }

  function Failed(b: Breaker, n: nat, now: int): Breaker {
    if n > 0 && b.failures + n >= THRESHOLD then b.(failures := b.failures + n, open := true, lastError := now)
    else b.(failures := b.failures + n)
  }

  lemma {:induction false} BurstRuns(g: Setting, events: Events, s: State, now: int, attempts: nat, caller: nat, n: nat)
    requires Led(g, events, s, now, attempts) && caller < |s.left| && n <= s.left[caller]
    ensures Led(g, Burst(events, caller, n, now),
                State(Failed(s.b, n, now), s.left[caller := s.left[caller] - n]), now, attempts + n)
  {
    hide Led;
    if n == 0 {
      assert s.left[caller := s.left[caller]] == s.left;
    } else {
      BurstRuns(g, events, s, now, attempts, caller, n - 1);
      var before := State(Failed(s.b, n - 1, now), s.left[caller := s.left[caller] - (n - 1)]);
      var after := State(Failed(s.b, n, now), s.left[caller := s.left[caller] - n]);
      OneMore(g, Burst(events, caller, n - 1, now), before, now, attempts + (n - 1), Attempt(caller, false, now));
      assert Apply(before, Attempt(caller, false, now), g.maxRetries) == after;
    }
  }

  // ---- the callers' budgets ----

  /** The first n callers have `first` left, the others `rest`. */
  function Left(callers: nat, n: nat, first: nat, rest: nat): (left: seq<nat>)
    ensures |left| == callers
  {
    seq(callers, i => if i < n then first else rest)
  }

  /** The breaker lets a call in at this time, which leaves it shut at so many failures. */
  predicate Lets(b: Breaker, now: int, failures: nat) {
    Check(b, now).1 && !Check(b, now).0.open && Check(b, now).0.available && Check(b, now).0.failures == failures
  }

  /** Calls of the first caller that fail in full, one after the other. */
  function Warm(events: Events, calls: nat, each: nat, now: int): Events {
    if calls == 0 then events
    else Burst(Then(Warm(events, calls - 1, each, now), Enter(0, now)), 0, each, now)
  }

  lemma {:induction false} WarmRuns(g: Setting, events: Events, b: Breaker, now: int, attempts: nat, calls: nat)
    returns (b': Breaker)
    requires g.callers > 0 && Led(g, events, State(b, Left(g.callers, 0, 0, 0)), now, attempts) && Lets(b, now, 0)
    requires Product(calls, Budget(g.maxRetries)) < THRESHOLD
    ensures var made := Product(calls, Budget(g.maxRetries));
            && Lets(b', now, made)
            && Led(g, Warm(events, calls, Budget(g.maxRetries), now), State(b', Left(g.callers, 0, 0, 0)), now,
                   attempts + made)
  {
    hide Led, Product;
    var each, idle := Budget(g.maxRetries), Left(g.callers, 0, 0, 0);
    if calls == 0 {
      ProductStep(0, each);
      b' := b;
    } else {
      ProductStep(calls - 1, each);
      var before := Warm(events, calls - 1, each, now);
      var made := Product(calls - 1, each);
      var b1 := WarmRuns(g, events, b, now, attempts, calls - 1);
      OneMore(g, before, State(b1, idle), now, attempts + made, Enter(0, now));
      var entered := State(Check(b1, now).0, idle[0 := each]);
      BurstRuns(g, Then(before, Enter(0, now)), entered, now, attempts + made, 0, each);
      assert idle[0 := each][0 := 0] == idle;
      b' := Failed(entered.b, each, now);
    }
  }

  /** The first n callers are let in. */
  function EnterEach(events: Events, n: nat, now: int): Events {
    if n == 0 then events else Then(EnterEach(events, n - 1, now), Enter(n - 1, now))
  }

  lemma {:induction false} EnterEachRuns(g: Setting, events: Events, b: Breaker, now: int, attempts: nat, failures: nat,
                                         n: nat)
    requires Led(g, events, State(b, Left(g.callers, 0, 0, 0)), now, attempts) && Lets(b, now, failures)
    requires n <= g.callers
    ensures Led(g, EnterEach(events, n, now),
                State(if n == 0 then b else Check(b, now).0, Left(g.callers, n, Budget(g.maxRetries), 0)), now, attempts)
  {
    hide Led;
    var each := Budget(g.maxRetries);
    if n == 0 {
      assert Left(g.callers, 0, each, 0) == Left(g.callers, 0, 0, 0);
    } else {
      EnterEachRuns(g, events, b, now, attempts, failures, n - 1);
      var before := State(if n == 1 then b else Check(b, now).0, Left(g.callers, n - 1, each, 0));
      OneMore(g, EnterEach(events, n - 1, now), before, now, attempts, Enter(n - 1, now));
      assert before.left[n - 1 := each] == Left(g.callers, n, each, 0);
    }
  }

  /** The first n callers make all their attempts. */
  function TryEach(events: Events, n: nat, each: nat, now: int): Events {
    if n == 0 then events else Burst(TryEach(events, n - 1, each, now), n - 1, each, now)
  }

  lemma {:induction false} TryEachRuns(g: Setting, events: Events, b: Breaker, now: int, attempts: nat, n: nat)
    requires n <= g.callers
    requires Led(g, events, State(b, Left(g.callers, g.callers, Budget(g.maxRetries), 0)), now, attempts)
    ensures var each := Budget(g.maxRetries);
            Led(g, TryEach(events, n, each, now),
                State(Failed(b, Product(n, each), now), Left(g.callers, n, 0, each)), now, attempts + Product(n, each))
  {
    hide Led, Product;
    var each := Budget(g.maxRetries);
    if n == 0 {
      ProductStep(0, each);
      assert Left(g.callers, 0, 0, each) == Left(g.callers, g.callers, each, 0);
    } else {
      ProductStep(n - 1, each);
      TryEachRuns(g, events, b, now, attempts, n - 1);
      var made := Product(n - 1, each);
      var before := State(Failed(b, made, now), Left(g.callers, n - 1, 0, each));
      BurstRuns(g, TryEach(events, n - 1, each, now), before, now, attempts + made, n - 1, each);
      assert before.left[n - 1 := 0] == Left(g.callers, n, 0, each);
    }
  }

  // ---- cycles ----

  /** As many full calls as do not reach the threshold, and then one of every caller. */
  function Cycle(g: Setting, events: Events, now: int): Events {
    var each := Budget(g.maxRetries);
    TryEach(EnterEach(Warm(events, (THRESHOLD - 1) / each, each, now), g.callers, now), g.callers, each, now)
  }

  lemma CycleCounts(callers: nat, maxRetries: nat)
    requires callers > 0
    ensures var each := Budget(maxRetries);
            var warm := (THRESHOLD - 1) / each;
            && Product(warm, each) < THRESHOLD <= PerCycle(callers, maxRetries)
            && PerCycle(callers, maxRetries) == Product(warm, each) + Product(callers, each)
            && Product(callers, each) > 0
  {
    var each := Budget(maxRetries);
    var q, r := (THRESHOLD - 1) / each, (THRESHOLD - 1) % each;
    assert THRESHOLD - 1 == q * each + r;
    MulAtLeast(callers, each);
    assert (callers + q) * each == callers * each + q * each;
  }

  lemma CycleRuns(g: Setting, events: Events, b: Breaker, now: int, attempts: nat) returns (b': Breaker)
    requires g.callers > 0 && Led(g, events, State(b, Left(g.callers, 0, 0, 0)), now, attempts) && Lets(b, now, 0)
    ensures Led(g, Cycle(g, events, now), State(b', Left(g.callers, 0, 0, 0)), now,
                attempts + PerCycle(g.callers, g.maxRetries))
    ensures b'.available && b'.open && b'.lastError == now
  {
    hide Led, Product, PerCycle;
    var each := Budget(g.maxRetries);
    var warm := (THRESHOLD - 1) / each;
    CycleCounts(g.callers, g.maxRetries);
    DivAtLeast(0, THRESHOLD - 1, each);
    var b1 := WarmRuns(g, events, b, now, attempts, warm);
    var warmed := Warm(events, warm, each, now);
    var made := attempts + Product(warm, each);
    EnterEachRuns(g, warmed, b1, now, made, Product(warm, each), g.callers);
    TryEachRuns(g, EnterEach(warmed, g.callers, now), Check(b1, now).0, now, made, g.callers);
    assert Left(g.callers, g.callers, 0, each) == Left(g.callers, 0, 0, 0);
    b' := Failed(Check(b1, now).0, Product(g.callers, each), now);
  }

  function Relentless(g: Setting, cycles: nat): Events {
    if cycles == 0 then Cycle(g, NoEvents, g.start)
    else Cycle(g, Relentless(g, cycles - 1), CyclesEnd(g.start, cycles))
  }

  lemma {:induction false} RelentlessRuns(g: Setting, cycles: nat) returns (b: Breaker)
    requires g.callers > 0
    ensures Led(g, Relentless(g, cycles), State(b, Left(g.callers, 0, 0, 0)), CyclesEnd(g.start, cycles),
                Product(cycles + 1, PerCycle(g.callers, g.maxRetries)))
    ensures b.available && b.open && b.lastError == CyclesEnd(g.start, cycles)
  {
    hide Product, PerCycle, Cycle, CyclesEnd;
    var perCycle := PerCycle(g.callers, g.maxRetries);
    ProductStep(cycles, perCycle);
    CyclesEndStep(g.start, cycles - 1);
    if cycles == 0 {
      ProductStep(0, perCycle);
      assert Initial(g.callers).left == Left(g.callers, 0, 0, 0);
      b := CycleRuns(g, NoEvents, NewBreaker(), g.start, 0);
    } else {
      var now := CyclesEnd(g.start, cycles);
      var b1 := RelentlessRuns(g, cycles - 1);
      b := CycleRuns(g, Relentless(g, cycles - 1), b1, now, Product(cycles, perCycle));
    }
  }

  /** The bound on attempts is reached, for any number of callers, retries and cycles. */
  lemma AttemptsBoundIsReached(callers: nat, maxRetries: nat, start: int, cycles: nat)
    requires callers > 0
    ensures var events, now := Relentless(Setting(callers, maxRetries, start), cycles), CyclesEnd(start, cycles);
            && Run(events, callers, maxRetries, start) && AlwaysFails(events)
            && start <= now && (events.Then? ==> events.last.at <= now)
            && (now - start) / PERIOD == cycles
            && Attempts(events) == Product(1 + (now - start) / PERIOD, PerCycle(callers, maxRetries))
  {
    hide Product, PerCycle, Relentless;
    var b := RelentlessRuns(Setting(callers, maxRetries, start), cycles);
    DivExact(cycles, PERIOD);
  }
}
