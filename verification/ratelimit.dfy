/** The four rate-limiting algorithms, their state, and the background sweep. */
module RateLimit {
  import opened Arithmetic
  import opened Time
  import opened Windows

  datatype Algorithm = FixedWindow | SlidingWindow | TokenBucket | LeakyBucket | Unknown
  datatype Granularity = PerIP | PerUser | PerSession | PerAPIKey | PerEndpoint | PerGeo

  datatype Key = Key(text: string)
  datatype Limits = Limits(rate: int, burst: int)
  datatype Decision = Decision(allowed: bool, remaining: int, limit: int)

  datatype Window = Window(start: int, count: int)
  datatype Tokens = Tokens(tokens: real, capacity: real, refillRate: int, lastRefill: int)
  datatype Leaky = Leaky(queue: seq<int>, capacity: int, leakRate: Positive, lastLeak: int)

  /** `fixed` is keyed by (key, unix second); the program joins the two with a colon. */
  datatype State = State(
    fixed: map<(Key, int), Window>,
    sliding: map<Key, seq<int>>,
    tokens: map<Key, Tokens>,
    leaky: map<Key, Leaky>)

  const EMPTY: State := State(map[], map[], map[], map[])
  const WINDOW: int := SECOND
  const CLEANUP_TICK: int := 5 * MINUTE

  // ---- one call ----

  function EffectiveRate(rate: int): Positive {
    if rate <= 0 then 1 else rate
  }

  /** What the program demands of the limits of a call: outside it, it divides by zero or
      reads the head of an empty list. */
  predicate Callable(alg: Algorithm, limits: Limits) {
    match alg
    case SlidingWindow => limits.rate + limits.burst >= 1
    case LeakyBucket => limits.burst >= 1 && EffectiveRate(limits.rate) <= SECOND
    case _ => true
  }

  function LeakRate(rate: int): Positive
    requires EffectiveRate(rate) <= SECOND
  {
    SECOND / EffectiveRate(rate)
  }

  /** Tokens earned in `elapsed` nanoseconds. */
  function Gain(elapsed: int, rate: int): real {
    (elapsed * rate) as real / SECOND as real
  }

  function Min(a: real, b: real): real { if a <= b then a else b }

  function CheckFixed(m: map<(Key, int), Window>, key: Key, limits: Limits, now: int)
    : (map<(Key, int), Window>, Decision)
  {
    var slot, limit := (key, now / SECOND), limits.rate + limits.burst;
    if slot !in m || now - m[slot].start > SECOND then
      (m[slot := Window(now, 1)], Decision(true, limit - 1, limit))
    else
      var count := m[slot].count + 1;
      (m[slot := Window(m[slot].start, count)],
       if count > limit then Decision(false, 0, limit) else Decision(true, limit - count, limit))
  }

  function Entries(m: map<Key, seq<int>>, key: Key): seq<int> {
    if key in m then m[key] else []
  }

  function CheckSliding(m: map<Key, seq<int>>, key: Key, limits: Limits, now: int)
    : (map<Key, seq<int>>, Decision)
  {
    var valid, limit := Live(Entries(m, key), now - WINDOW), limits.rate + limits.burst;
    if |valid| >= limit then (m[key := valid], Decision(false, 0, limit))
    else (m[key := valid + [now]], Decision(true, limit - |valid| - 1, limit))
  }

  function CheckTokens(m: map<Key, Tokens>, key: Key, limits: Limits, now: int)
    : (map<Key, Tokens>, Decision)
  {
    var rate := EffectiveRate(limits.rate);
    var b := if key in m then m[key]
             else Tokens(limits.burst as real, limits.burst as real, rate, now);
    var level := Min(b.capacity, b.tokens + Gain(now - b.lastRefill, b.refillRate));
    if level < 1.0 then
      (m[key := b.(tokens := level, lastRefill := now)], Decision(false, 0, rate + limits.burst))
    else
      (m[key := b.(tokens := level - 1.0, lastRefill := now)],
       Decision(true, (level - 1.0).Floor, rate + limits.burst))
  }

  function Leak(b: Leaky, now: int): Leaky {
    var leaked := (now - b.lastLeak) / b.leakRate;
    if leaked > 0 then
      b.(queue := if leaked >= |b.queue| then [] else b.queue[leaked..], lastLeak := now)
    else b
  }

  function CheckLeaky(m: map<Key, Leaky>, key: Key, limits: Limits, now: int)
    : (map<Key, Leaky>, Decision)
    requires key in m || Callable(LeakyBucket, limits)
  {
    var b := Leak(if key in m then m[key]
                  else Leaky([], limits.burst, LeakRate(limits.rate), now), now);
    if |b.queue| >= b.capacity then (m[key := b], Decision(false, 0, limits.burst))
    else
      (m[key := b.(queue := b.queue + [now])],
       Decision(true, b.capacity - |b.queue| - 1, limits.burst))
  }

  function Check(alg: Algorithm, s: State, key: Key, limits: Limits, now: int): (State, Decision)
    requires Callable(alg, limits)
  {
    match alg
    case SlidingWindow =>
      var (m, d) := CheckSliding(s.sliding, key, limits, now); (s.(sliding := m), d)
    case TokenBucket =>
      var (m, d) := CheckTokens(s.tokens, key, limits, now); (s.(tokens := m), d)
    case LeakyBucket =>
      var (m, d) := CheckLeaky(s.leaky, key, limits, now); (s.(leaky := m), d)
    case _ =>
      var (m, d) := CheckFixed(s.fixed, key, limits, now); (s.(fixed := m), d)
  }

  // ---- one tick of the sweep ----

  function SweepFixed(m: map<(Key, int), Window>, now: int): map<(Key, int), Window> {
    map k | k in m && !(now - m[k].start > WINDOW * 2) :: m[k]
  }

  function SweepSliding(m: map<Key, seq<int>>, now: int): map<Key, seq<int>> {
    map k | k in m && Live(m[k], now - WINDOW * 2) != [] :: Live(m[k], now - WINDOW * 2)
  }

  function SweepTokens(m: map<Key, Tokens>, now: int): map<Key, Tokens> {
    map k | k in m && !(now - m[k].lastRefill > CLEANUP_TICK * 2) :: m[k]
  }

  function SweepLeaky(m: map<Key, Leaky>, now: int): map<Key, Leaky> {
    map k | k in m && !(now - m[k].lastLeak > CLEANUP_TICK * 2 && m[k].queue == []) :: m[k]
  }

  function Sweep(s: State, now: int): State {
    State(SweepFixed(s.fixed, now), SweepSliding(s.sliding, now),
          SweepTokens(s.tokens, now), SweepLeaky(s.leaky, now))
  }

  // ---- runs ----

  datatype Event = Call(key: Key, limits: Limits, at: int) | Tick(at: int)
  datatype Events = NoEvents | Then(before: Events, last: Event)

  datatype Outcome = Outcome(key: Key, limits: Limits, at: int, decision: Decision)
  datatype Past = NoPast | Decided(before: Past, last: Outcome)
  datatype Run = Run(state: State, past: Past)

  predicate LegalEvent(alg: Algorithm, e: Event) {
    e.Call? ==> Callable(alg, e.limits)
  }

  /** Times never decrease, and each call's limits are ones the program accepts. */
  predicate Legal(alg: Algorithm, events: Events) {
    match events
    case NoEvents => true
    case Then(before, e) =>
      Legal(alg, before) && LegalEvent(alg, e) && (before.Then? ==> before.last.at <= e.at)
  }

  function Apply(alg: Algorithm, run: Run, e: Event): Run
    requires LegalEvent(alg, e)
  {
    match e
    case Tick(now) => run.(state := Sweep(run.state, now))
    case Call(key, limits, now) =>
      var (state, decision) := Check(alg, run.state, key, limits, now);
      Run(state, Decided(run.past, Outcome(key, limits, now, decision)))
  }

  /** Any interleaving of calls and sweep ticks, from an empty limiter. */
  function Execute(alg: Algorithm, events: Events): Run
    requires Legal(alg, events)
  {
    match events
    case NoEvents => Run(EMPTY, NoPast)
    case Then(before, e) => Apply(alg, Execute(alg, before), e)
  }

  function WithoutTicks(events: Events): Events {
    match events
    case NoEvents => NoEvents
    case Then(before, e) => if e.Call? then Then(WithoutTicks(before), e) else WithoutTicks(before)
  }

  // ---- the reference: decisions from the whole history, with nothing pruned or evicted ----

  /** The times at which `key` was admitted. */
  function Admitted(past: Past, key: Key): seq<int> {
    match past
    case NoPast => []
    case Decided(before, o) =>
      if o.key == key && o.decision.allowed then Admitted(before, key) + [o.at] else Admitted(before, key)
  }

  /** How many calls of `key`, admitted or not, fell in a unix second. */
  function CallsIn(past: Past, key: Key, second: int): nat {
    match past
    case NoPast => 0
    case Decided(before, o) =>
      CallsIn(before, key, second) + if o.key == key && o.at / SECOND == second then 1 else 0
  }

  /** Spendable tokens at `now` after the admissions in `log`. */
  function Level(log: seq<int>, burst: int, rate: int, now: int): real {
    if log == [] then burst as real else
      var last := log[|log| - 1];
      Min(burst as real, Level(log[..|log| - 1], burst, rate, last) - 1.0 + Gain(now - last, rate))
  }

  function Expected(alg: Algorithm, past: Past, key: Key, limits: Limits, now: int): Decision
    requires !alg.LeakyBucket?
  {
    var limit := limits.rate + limits.burst;
    match alg
    case SlidingWindow =>
      var used := |Live(Admitted(past, key), now - WINDOW)|;
      if used < limit then Decision(true, limit - used - 1, limit) else Decision(false, 0, limit)
    case TokenBucket =>
      var rate := EffectiveRate(limits.rate);
      var level := Level(Admitted(past, key), limits.burst, rate, now);
      if level >= 1.0 then Decision(true, (level - 1.0).Floor, rate + limits.burst)
      else Decision(false, 0, rate + limits.burst)
    case _ =>
      var nth := CallsIn(past, key, now / SECOND) + 1;
      if nth == 1 || nth <= limit then Decision(true, limit - nth, limit) else Decision(false, 0, limit)
  }

  /** Every decision is the one the history before it calls for. */
  predicate Honours(alg: Algorithm, past: Past)
    requires !alg.LeakyBucket?
  {
    match past
    case NoPast => true
    case Decided(before, o) =>
      Honours(alg, before) && o.decision == Expected(alg, before, o.key, o.limits, o.at)
  }

  /** Each key keeps its limits throughout. */
  predicate Steady(events: Events, limits: Key -> Limits) {
    match events
    case NoEvents => true
    case Then(before, e) => Steady(before, limits) && (e.Call? ==> e.limits == limits(e.key))
  }

  /** An empty bucket is full again by the first nanosecond at which the sweep may take it: below a
      rate of 10^9 this says burst <= 600 * rate. */
  predicate RefillsInTime(l: Limits) {
    l.burst as real <= Gain(CLEANUP_TICK * 2 + 1, EffectiveRate(l.rate))
  }

  predicate AllRefillInTime(events: Events) {
    match events
    case NoEvents => true
    case Then(before, e) => AllRefillInTime(before) && (e.Call? ==> RefillsInTime(e.limits))
  }

  /** When the sweep cannot be noticed: only token buckets need anything of the limits. */
  predicate EvictionSafe(alg: Algorithm, events: Events, limits: Key -> Limits) {
    match alg
    case TokenBucket => Steady(events, limits) && AllRefillInTime(events)
    case _ => true
  }
}
