/** The client's breaker around a remote service: callers retry, and their attempts open it. */
module MlBreaker {
  import opened Arithmetic
  import opened Time

  const THRESHOLD: int := 5
  const COOLDOWN: Positive := 30 * SECOND

  datatype Breaker = Breaker(available: bool, failures: nat, open: bool, lastError: int)

  function NewBreaker(): Breaker {
    Breaker(true, 0, false, 0)
  }

  /** Whether a call may go ahead; asking may close the breaker. */
  function Check(b: Breaker, now: int): (Breaker, bool) {
    if !b.available then (b, false)
    else if b.open then
      if now - b.lastError > COOLDOWN then (b.(open := false, failures := 0), true) else (b, false)
    else (b, true)
  }

  function Succeed(b: Breaker): Breaker {
    b.(failures := 0)
  }

  function Fail(b: Breaker, now: int): Breaker {
    var failures := b.failures + 1;
    if failures >= THRESHOLD then b.(failures := failures, open := true, lastError := now)
    else b.(failures := failures)
  }

  // ---- any number of callers, each with some attempts left ----

  /** left[i]: how many attempts caller i may still make in its present call. */
  datatype State = State(b: Breaker, left: seq<nat>)

  datatype Event =
    | Enter(caller: nat, at: int)                // asks, and if let in may make 1 + maxRetries attempts
    | Attempt(caller: nat, ok: bool, at: int)
    | SetAvailable(value: bool, at: int)

  datatype Events = NoEvents | Then(before: Events, last: Event)

  /** How many attempts a call that is let in may make. */
  function Budget(maxRetries: int): nat {
    if maxRetries < 0 then 0 else maxRetries + 1
  }

  predicate Enabled(s: State, e: Event) {
    match e
    case Enter(caller, _) => caller < |s.left| && s.left[caller] == 0
    case Attempt(caller, _, _) => caller < |s.left| && s.left[caller] > 0
    case SetAvailable(_, _) => true
  }

  function Apply(s: State, e: Event, maxRetries: int): State
    requires Enabled(s, e)
  {
    match e
    case Enter(caller, now) =>
      var (b, ok) := Check(s.b, now);
      State(b, if ok then s.left[caller := Budget(maxRetries)] else s.left)
    case Attempt(caller, ok, now) =>
      if ok then State(Succeed(s.b), s.left[caller := 0])
      else State(Fail(s.b, now), s.left[caller := s.left[caller] - 1])
    case SetAvailable(value, _) => s.(b := s.b.(available := value))
  }

  function Initial(callers: nat): State {
    State(NewBreaker(), seq(callers, _ => 0))
  }

  /** A run of `callers` callers: steps they can take, at times that never decrease. */
  predicate Run(events: Events, callers: nat, maxRetries: int, start: int)
    decreases events, 0
  {
    match events
    case NoEvents => true
    case Then(before, e) =>
      && Run(before, callers, maxRetries, start)
      && start <= e.at && (before.Then? ==> before.last.at <= e.at)
      && Enabled(After(before, callers, maxRetries, start), e)
  }

  function After(events: Events, callers: nat, maxRetries: int, start: int): State
    requires Run(events, callers, maxRetries, start)
    decreases events, 1
  {
    match events
    case NoEvents => Initial(callers)
    case Then(before, e) => Apply(After(before, callers, maxRetries, start), e, maxRetries)
  }

  /** The service answers no attempt. */
  predicate AlwaysFails(events: Events) {
    match events
    case NoEvents => true
    case Then(before, e) => AlwaysFails(before) && !(e.Attempt? && e.ok)
  }

  function Attempts(events: Events): nat {
    match events
    case NoEvents => 0
    case Then(before, e) => Attempts(before) + if e.Attempt? then 1 else 0
  }

  // ---- accounting for a run against a service that always fails ----

  /** How often the breaker closed again. */
  function Closings(events: Events, callers: nat, maxRetries: int, start: int): nat
    requires Run(events, callers, maxRetries, start)
  {
    match events
    case NoEvents => 0
    case Then(before, e) =>
      var s := After(before, callers, maxRetries, start);
      Closings(before, callers, maxRetries, start) + if s.b.open && !Apply(s, e, maxRetries).b.open then 1 else 0
  }

  function Sum(left: seq<nat>): nat {
    if left == [] then 0 else left[0] + Sum(left[1..])
  }

  lemma {:induction false} SumUpdate(left: seq<nat>, i: nat, v: nat)
    requires i < |left|
    ensures Sum(left[i := v]) == Sum(left) - left[i] + v
  {
    if i == 0 {
      assert left[i := v][1..] == left[1..];
    } else {
      assert left[i := v][1..] == left[1..][i - 1 := v];
      SumUpdate(left[1..], i - 1, v);
    }
  }

  predicate LetIn(s: State, e: Event) {
    e.Enter? && Check(s.b, e.at).1
  }

  predicate CloseAgain(s: State, e: Event, maxRetries: int)
    requires Enabled(s, e)
  {
    s.b.open && !Apply(s, e, maxRetries).b.open
  }

  /** How many calls were let in. */
  function Calls(events: Events, callers: nat, maxRetries: int, start: int): nat
    requires Run(events, callers, maxRetries, start)
  {
    match events
    case NoEvents => 0
    case Then(before, e) =>
      Calls(before, callers, maxRetries, start) + if LetIn(After(before, callers, maxRetries, start), e) then 1 else 0
  }

  /** How many of them since the breaker last closed, the one that closed it included. */
  function CallsThisCycle(events: Events, callers: nat, maxRetries: int, start: int): nat
    requires Run(events, callers, maxRetries, start)
  {
    match events
    case NoEvents => 0
    case Then(before, e) =>
      var s := After(before, callers, maxRetries, start);
      if CloseAgain(s, e, maxRetries) then 1
      else CallsThisCycle(before, callers, maxRetries, start) + if LetIn(s, e) then 1 else 0
  }

  /** The most calls that can be let in from one closing to the next: one of each caller, and those that
      failed in full before the threshold was reached. */
  function CallsPerCycle(callers: nat, maxRetries: int): nat {
    if maxRetries < 0 then callers else callers + (THRESHOLD - 1) / Budget(maxRetries)
  }

  /** And the most attempts. */
  function PerCycle(callers: nat, maxRetries: int): nat {
    Product(CallsPerCycle(callers, maxRetries), Budget(maxRetries))
  }

  function Product(m: nat, n: nat): nat { m * n }

  lemma ProductStep(m: nat, n: nat)
    ensures Product(m + 1, n) == Product(m, n) + n && Product(0, n) == 0
  {
  }

  lemma {:induction false} SumAtMost(left: seq<nat>, each: nat)
    requires forall i :: 0 <= i < |left| ==> left[i] <= each
    ensures Sum(left) <= Product(|left|, each)
  {
    if left != [] {
      SumAtMost(left[1..], each);
      ProductStep(|left| - 1, each);
    }
  }

  /** With a caller that has nothing left, the others have no more than their budgets. */
  lemma SumWithout(left: seq<nat>, i: nat, each: nat)
    requires i < |left| && left[i] == 0 && forall k :: 0 <= k < |left| ==> left[k] <= each
    ensures Sum(left) <= Product(|left| - 1, each)
  {
    SumUpdate(left, i, each);
    SumAtMost(left[i := each], each);
    ProductStep(|left| - 1, each);
  }

  predicate Inv(s: State, callers: nat, maxRetries: int) {
    && |s.left| == callers
    && (forall i :: 0 <= i < callers ==> s.left[i] <= Budget(maxRetries))
    && (!s.b.open ==> s.b.failures < THRESHOLD)
  }

  lemma {:induction false} InvHolds(events: Events, callers: nat, maxRetries: int, start: int)
    requires Run(events, callers, maxRetries, start)
    ensures Inv(After(events, callers, maxRetries, start), callers, maxRetries)
  {
    if events.Then? {
      InvHolds(events.before, callers, maxRetries, start);
    }
  }

  /** Of the attempts that the calls of this cycle may make, those made are failures of this cycle, and the
      others are left; so a caller is let in only while there are few of them. */
  predicate Accounts(s: State, thisCycle: nat, callers: nat, maxRetries: int) {
    && Product(thisCycle, Budget(maxRetries)) <= Sum(s.left) + s.b.failures
    && thisCycle <= CallsPerCycle(callers, maxRetries)
  }

  lemma EnterAccounts(s: State, thisCycle: nat, caller: nat, callers: nat, maxRetries: int)
    requires Inv(s, callers, maxRetries) && Accounts(s, thisCycle, callers, maxRetries)
    requires !s.b.open && caller < callers && s.left[caller] == 0 && maxRetries >= 0
    ensures Accounts(s.(left := s.left[caller := Budget(maxRetries)]), thisCycle + 1, callers, maxRetries)
  {
    hide Product;
    var b := Budget(maxRetries);
    SumUpdate(s.left, caller, b);
    ProductStep(thisCycle, b);
    SumWithout(s.left, caller, b);
    FewCalls(thisCycle, callers - 1, b, s.b.failures);
  }

  lemma FewCalls(calls: nat, others: nat, b: nat, failures: nat)
    requires b >= 1 && failures < THRESHOLD && Product(calls, b) <= Product(others, b) + failures
    ensures calls <= others + (THRESHOLD - 1) / b
  {
    if calls > others {
      assert Product(calls, b) == Product(others, b) + (calls - others) * b;
      DivAtLeast(calls - others, THRESHOLD - 1, b);
    } else {
      DivAtLeast(0, THRESHOLD - 1, b);
    }
  }

  /** The call that closes the breaker begins a cycle. */
  lemma CloseAccounts(s: State, caller: nat, callers: nat, maxRetries: int)
    requires Inv(s, callers, maxRetries) && caller < callers && s.left[caller] == 0 && maxRetries >= 0
    requires s.b.failures == 0
    ensures Accounts(s.(left := s.left[caller := Budget(maxRetries)]), 1, callers, maxRetries)
  {
    hide Product;
    SumUpdate(s.left, caller, Budget(maxRetries));
    ProductStep(0, Budget(maxRetries));
    DivAtLeast(0, THRESHOLD - 1, Budget(maxRetries));
  }

  lemma StepAccounts(s: State, e: Event, thisCycle: nat, callers: nat, maxRetries: int)
    requires Inv(s, callers, maxRetries) && Accounts(s, thisCycle, callers, maxRetries)
    requires Enabled(s, e) && maxRetries >= 0 && !(e.Attempt? && e.ok)
    ensures var s' := Apply(s, e, maxRetries);
            && Accounts(s', if CloseAgain(s, e, maxRetries) then 1 else thisCycle + if LetIn(s, e) then 1 else 0,
                        callers, maxRetries)
            && Sum(s'.left) + (if e.Attempt? then 1 else 0)
               == Sum(s.left) + if LetIn(s, e) then Budget(maxRetries) else 0
  {
    hide Product, Sum, CallsPerCycle;
    match e
    case SetAvailable(_, _) => {}
    case Attempt(caller, _, _) => {
      SumUpdate(s.left, caller, s.left[caller] - 1);
    }
    case Enter(caller, now) => {
      if LetIn(s, e) {
        SumUpdate(s.left, caller, Budget(maxRetries));
        if s.b.open {
          CloseAccounts(State(Check(s.b, now).0, s.left), caller, callers, maxRetries);
        } else {
          EnterAccounts(s, thisCycle, caller, callers, maxRetries);
        }
      }
    }
  }

  lemma {:induction false} RunAccounts(events: Events, callers: nat, maxRetries: int, start: int)
    requires Run(events, callers, maxRetries, start) && AlwaysFails(events) && maxRetries >= 0
    ensures var s := After(events, callers, maxRetries, start);
            var calls := Calls(events, callers, maxRetries, start);
            && Accounts(s, CallsThisCycle(events, callers, maxRetries, start), callers, maxRetries)
            && Attempts(events) + Sum(s.left) == Product(calls, Budget(maxRetries))
            && calls <= Product(Closings(events, callers, maxRetries, start), CallsPerCycle(callers, maxRetries))
                        + CallsThisCycle(events, callers, maxRetries, start)
  {
    hide Product, Sum, CallsPerCycle, Accounts;
    if events.NoEvents? {
      NothingYet(callers, maxRetries);
    } else {
      var before := events.before;
      var s := After(before, callers, maxRetries, start);
      RunAccounts(before, callers, maxRetries, start);
      InvHolds(before, callers, maxRetries, start);
      StepAccounts(s, events.last, CallsThisCycle(before, callers, maxRetries, start), callers, maxRetries);
      ProductStep(Calls(before, callers, maxRetries, start), Budget(maxRetries));
      ProductStep(Closings(before, callers, maxRetries, start), CallsPerCycle(callers, maxRetries));
      AccountsMeans(s, CallsThisCycle(before, callers, maxRetries, start), callers, maxRetries);
      OnlyCallsClose(s, events.last, maxRetries);
    }
  }

  lemma NothingYet(callers: nat, maxRetries: int)
    requires maxRetries >= 0
    ensures Sum(Initial(callers).left) == 0 && Accounts(Initial(callers), 0, callers, maxRetries)
    ensures Product(0, Budget(maxRetries)) == 0 && Product(0, CallsPerCycle(callers, maxRetries)) == 0
  {
    SumAtMost(Initial(callers).left, 0);
    DivAtLeast(0, THRESHOLD - 1, Budget(maxRetries));
  }

  lemma AccountsMeans(s: State, thisCycle: nat, callers: nat, maxRetries: int)
    requires Accounts(s, thisCycle, callers, maxRetries)
    ensures thisCycle <= CallsPerCycle(callers, maxRetries)
  {
  }

  lemma OnlyCallsClose(s: State, e: Event, maxRetries: int)
    requires Enabled(s, e)
    ensures CloseAgain(s, e, maxRetries) ==> LetIn(s, e)
  {
  }

  // ---- the bound ----

  /** The breaker closes no sooner than a nanosecond after the cooldown. */
  const PERIOD: Positive := COOLDOWN + 1

  /** When n cycles are over. */
  function CyclesEnd(start: int, n: int): int { start + n * PERIOD }

  lemma CyclesEndStep(start: int, n: int)
    ensures CyclesEnd(start, n + 1) == CyclesEnd(start, n) + PERIOD && CyclesEnd(start, 0) == start
  {
  }

  lemma CyclesFit(start: int, n: int, now: int)
    requires CyclesEnd(start, n) <= now
    ensures n <= (now - start) / PERIOD
  {
    DivAtLeast(n, now - start, PERIOD);
  }

  lemma {:induction false} CyclesTakeTime(events: Events, callers: nat, maxRetries: int, start: int)
    requires Run(events, callers, maxRetries, start)
    ensures var s, closings := After(events, callers, maxRetries, start), Closings(events, callers, maxRetries, start);
            && (s.b.open ==> events.Then? && CyclesEnd(start, closings) <= s.b.lastError <= events.last.at)
            && CyclesEnd(start, closings) <= (if events.Then? then events.last.at else start)
  {
    hide CyclesEnd;
    CyclesEndStep(start, 0);
    if events.Then? {
      CyclesTakeTime(events.before, callers, maxRetries, start);
      CyclesEndStep(start, Closings(events.before, callers, maxRetries, start));
    }
  }

  /** With nobody to make them, or a negative number of retries, there are no attempts. */
  lemma {:induction false} NoBudgetNoAttempts(events: Events, callers: nat, maxRetries: int, start: int)
    requires Run(events, callers, maxRetries, start) && (callers == 0 || maxRetries < 0)
    ensures Attempts(events) == 0
  {
    if events.Then? {
      NoBudgetNoAttempts(events.before, callers, maxRetries, start);
      InvHolds(events.before, callers, maxRetries, start);
    }
  }

  lemma ProductGrows(m: nat, n: nat, k: nat)
    requires m <= n
    ensures Product(m, k) <= Product(n, k) && Product(k, m) <= Product(k, n)
  {
    MulGrows(k, m, n);
  }

  lemma ProductAssociates(m: nat, n: nat, k: nat)
    ensures Product(Product(m, n), k) == Product(m, Product(n, k))
  {
  }

  /** Against a service that always fails, any number of retrying callers together make at most PerCycle
      attempts, and as many again for each whole period since the start. */
  lemma AttemptsBound(events: Events, callers: nat, maxRetries: int, start: int, now: int)
    requires Run(events, callers, maxRetries, start) && AlwaysFails(events)
    requires start <= now && (events.Then? ==> events.last.at <= now)
    ensures (now - start) / PERIOD >= 0
    ensures Attempts(events) <= Product(1 + (now - start) / PERIOD, PerCycle(callers, maxRetries))
  {
    hide Product, CyclesEnd, CallsPerCycle, Accounts;
    CyclesEndStep(start, 0);
    CyclesFit(start, 0, now);
    if maxRetries < 0 {
      NoBudgetNoAttempts(events, callers, maxRetries, start);
    } else {
      var closings, perCycle := Closings(events, callers, maxRetries, start), CallsPerCycle(callers, maxRetries);
      var s, thisCycle := After(events, callers, maxRetries, start), CallsThisCycle(events, callers, maxRetries, start);
      RunAccounts(events, callers, maxRetries, start);
      AccountsMeans(s, thisCycle, callers, maxRetries);
      CyclesTakeTime(events, callers, maxRetries, start);
      CyclesFit(start, closings, now);
      ProductStep(closings, perCycle);
      ProductGrows(Calls(events, callers, maxRetries, start), Product(closings + 1, perCycle), Budget(maxRetries));
      ProductAssociates(closings + 1, perCycle, Budget(maxRetries));
      ProductGrows(closings + 1, 1 + (now - start) / PERIOD, PerCycle(callers, maxRetries));
    }
  }

  /** In numbers: per cycle no more than threshold - 1 + callers * (1 + maxRetries); for one caller, the
      least multiple of 1 + maxRetries that reaches the threshold. */
  lemma PerCycleIs(callers: nat, maxRetries: int)
    requires maxRetries >= 0
    ensures PerCycle(callers, maxRetries) <= THRESHOLD - 1 + Product(callers, Budget(maxRetries))
    ensures THRESHOLD <= PerCycle(1, maxRetries) <= THRESHOLD + maxRetries
    ensures PerCycle(1, maxRetries) == Product(CallsPerCycle(1, maxRetries), 1 + maxRetries)
  {
    var b := Budget(maxRetries);
    var q, r := (THRESHOLD - 1) / b, (THRESHOLD - 1) % b;
    assert THRESHOLD - 1 == q * b + r;
    assert Product(callers + q, b) == Product(callers, b) + q * b;
    assert Product(1 + q, b) == b + q * b;
  }

  // ---- one call, from the question to its last attempt ----

  /** What the service makes of one attempt, and when it is recorded. */
  datatype Try = Try(ok: bool, at: int)

  function Record(b: Breaker, t: Try): Breaker {
    if t.ok then Succeed(b) else Fail(b, t.at)
  }

  function Tried(b: Breaker, tries: seq<Try>): Breaker {
    if tries == [] then b else Record(Tried(b, tries[..|tries| - 1]), tries[|tries| - 1])
  }

  /** The steps of a call that was let in. */
  function CallEvents(events: Events, asked: int, tries: seq<Try>): Events {
    if tries == [] then Then(events, Enter(0, asked))
    else
      var t := tries[|tries| - 1];
      Then(CallEvents(events, asked, tries[..|tries| - 1]), Attempt(0, t.ok, t.at))
  }

  /** Never earlier than `asked` nor than one another. */
  predicate InTime(asked: int, tries: seq<Try>) {
    tries != [] ==>
      && InTime(asked, tries[..|tries| - 1])
      && (if |tries| == 1 then asked else tries[|tries| - 2].at) <= tries[|tries| - 1].at
  }

  /** A call of a sole caller, made in one go, is a run of the machine above. */
  lemma {:induction false} CallIsRun(events: Events, maxRetries: int, start: int, asked: int, tries: seq<Try>)
    requires Run(events, 1, maxRetries, start) && start <= asked && (events.Then? ==> events.last.at <= asked)
    requires var s := After(events, 1, maxRetries, start); s.left == [0] && Check(s.b, asked).1
    requires |tries| <= Budget(maxRetries) && InTime(asked, tries)
    requires forall i :: 0 <= i < |tries| - 1 ==> !tries[i].ok
    ensures var called := CallEvents(events, asked, tries);
            && Run(called, 1, maxRetries, start)
            && called.last.at == (if tries == [] then asked else tries[|tries| - 1].at)
            && var s := After(called, 1, maxRetries, start);
               && s.b == Tried(Check(After(events, 1, maxRetries, start).b, asked).0, tries)
               && s.left == [if tries != [] && tries[|tries| - 1].ok then 0 else Budget(maxRetries) - |tries|]
  {
    if tries != [] {
      CallIsRun(events, maxRetries, start, asked, tries[..|tries| - 1]);
    }
  }
}
