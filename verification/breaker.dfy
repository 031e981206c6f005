/** The per-inspector circuit breaker. */
module Breaker {
  import opened Options
  import opened Time

  const THRESHOLD: int := 5
  const RECOVERY: int := 30 * SECOND

  /** A time that may never have been set: that long ago is longer than any recovery. */
  datatype Moment = Never | At(time: int)

  datatype CircuitBreaker = CircuitBreaker(failures: nat, lastTrip: Moment, halfOpen: bool, halfOpenAt: int, trips: nat)

  /** An inspector has no breaker until its first failure; then it is closed. */
  datatype CircuitState = Closed | HalfOpen | Open

  function NewBreaker(): CircuitBreaker {
    CircuitBreaker(0, Never, false, 0, 0)
  }

  predicate Recovered(m: Moment, now: int) {
    m.Never? || now - m.time > RECOVERY
  }

  /** Whether a call may proceed; asking changes the breaker. */
  function CanProceed(b: CircuitBreaker, now: int): (CircuitBreaker, bool) {
    if b.halfOpen && now - b.halfOpenAt > RECOVERY then (b.(halfOpen := false, failures := 0), true)
    else if Recovered(b.lastTrip, now) then (b.(halfOpen := true, halfOpenAt := now), true)
    else (b, false)
  }

  function Fail(b: CircuitBreaker, now: int): CircuitBreaker {
    var failures := b.failures + 1;
    if failures >= THRESHOLD then b.(failures := failures, lastTrip := At(now), trips := b.trips + 1)
    else b.(failures := failures)
  }

  function Succeed(b: CircuitBreaker): CircuitBreaker {
    if b.failures > 0 then b.(failures := b.failures - 1) else b
  }

  function StateOf(m: Option<CircuitBreaker>, now: int): CircuitState {
    match m
    case None => Closed
    case Some(b) =>
      if b.halfOpen then HalfOpen
      else if b.lastTrip.At? && now - b.lastTrip.time < RECOVERY && b.failures >= THRESHOLD then Open
      else Closed
  }

  // ---- runs: questions, and the outcomes of calls in flight, in any order ----

  datatype Event = Ask(at: int) | Failure(at: int) | Success(at: int)
  datatype Events = NoEvents | Then(before: Events, last: Event)

  predicate Ordered(events: Events) {
    match events
    case NoEvents => true
    case Then(before, e) => Ordered(before) && (before.Then? ==> before.last.at <= e.at)
  }

  function Step(m: Option<CircuitBreaker>, e: Event): Option<CircuitBreaker> {
    match e
    case Ask(now) => if m.None? then m else Some(CanProceed(m.value, now).0)
    case Failure(now) => Some(Fail(if m.None? then NewBreaker() else m.value, now))
    case Success(_) => if m.None? then m else Some(Succeed(m.value))
  }

  function Execute(events: Events): Option<CircuitBreaker> {
    match events
    case NoEvents => None
    case Then(before, e) => Step(Execute(before), e)
  }

  predicate Admits(m: Option<CircuitBreaker>, now: int) {
    m.None? || CanProceed(m.value, now).1
  }

  // ---- what happened, read off the run ----

  /** When a call was last admitted. */
  function LastAdmission(events: Events): Moment {
    match events
    case NoEvents => Never
    case Then(before, e) =>
      if e.Ask? && Admits(Execute(before), e.at) then At(e.at) else LastAdmission(before)
  }

  /** Did this failure bring the count to the threshold? */
  predicate Trips(m: Option<CircuitBreaker>, e: Event) {
    e.Failure? && (if m.None? then 0 else m.value.failures) + 1 >= THRESHOLD
  }

  function LastTrip(events: Events): Moment {
    match events
    case NoEvents => Never
    case Then(before, e) => if Trips(Execute(before), e) then At(e.at) else LastTrip(before)
  }

  /** Has the breaker tripped since the last admission? */
  predicate TrippedSinceAdmission(events: Events) {
    match events
    case NoEvents => false
    case Then(before, e) =>
      if e.Ask? && Admits(Execute(before), e.at) then false
      else Trips(Execute(before), e) || TrippedSinceAdmission(before)
  }

  predicate NotAfter(m: Moment, now: int) {
    m.At? ==> m.time <= now
  }

  predicate Inv(events: Events, now: int) {
    var m := Execute(events);
    && NotAfter(LastAdmission(events), now) && NotAfter(LastTrip(events), now)
    && (m.None? ==> LastTrip(events).Never?)
    && (m.Some? ==>
          && m.value.lastTrip == LastTrip(events)
          && (m.value.halfOpen ==> LastAdmission(events) == At(m.value.halfOpenAt)))
    && (TrippedSinceAdmission(events) ==>
          LastTrip(events).At? && NotAfter(LastAdmission(events), LastTrip(events).time))
  }

  lemma {:induction false} InvHolds(events: Events, now: int)
    requires Ordered(events) && (events.Then? ==> events.last.at <= now)
    ensures Inv(events, now)
  {
    if events.Then? {
      InvHolds(events.before, events.last.at);
    }
  }

  /** After a failure brought the count to the threshold, and until a call is admitted again, every call
      is refused unless more than the recovery time has passed since the last admission; when there
      was none, since the trip. Late failures and successes of calls in flight change nothing. */
  lemma TrippedRefuses(events: Events, now: int)
    requires Ordered(events) && (events.Then? ==> events.last.at <= now)
    requires TrippedSinceAdmission(events) && Admits(Execute(events), now)
    ensures match LastAdmission(events)
            case At(admitted) => now - admitted > RECOVERY
            case Never => LastTrip(events).At? && now - LastTrip(events).time > RECOVERY
  {
    InvHolds(events, now);
  }

  /** A trip by itself holds calls off for the recovery time if and only if the breaker is not half-open
      from an admission that long ago. */
  lemma TripHoldsExactlyWhen(events: Events, now: int)
    requires Ordered(events) && (events.Then? ==> events.last.at <= now)
    requires LastTrip(events).At? && now - LastTrip(events).time <= RECOVERY
    ensures Execute(events).Some?
    ensures !Admits(Execute(events), now) <==>
            !(Execute(events).value.halfOpen && Recovered(LastAdmission(events), now))
  {
    InvHolds(events, now);
  }

  /** A call may be admitted one second after a trip. */
  lemma {:induction false} AdmittedSoonAfterTrip() returns (events: Events, now: int)
    ensures Ordered(events) && events.Then? && events.last.at <= now
    ensures TrippedSinceAdmission(events) && LastTrip(events) == At(30 * SECOND)
    ensures now == 31 * SECOND && Admits(Execute(events), now)
  {
    var e0 := Then(Then(NoEvents, Failure(0)), Ask(0));
    assert Execute(e0) == Some(CircuitBreaker(1, Never, true, 0, 0));
    var e1 := Then(Then(e0, Failure(1)), Failure(2));
    assert Execute(e1) == Some(CircuitBreaker(3, Never, true, 0, 0));
    var e2 := Then(e1, Failure(3));
    assert Execute(e2) == Some(CircuitBreaker(4, Never, true, 0, 0));
    events, now := Then(e2, Failure(30 * SECOND)), 31 * SECOND;
    assert Execute(events) == Some(CircuitBreaker(5, At(30 * SECOND), true, 0, 1));
    assert LastTrip(e2).Never?;
  }

  /** The breaker never stays shut: once the recovery time has passed since the last trip, a call is
      admitted, whatever else happened. */
  lemma Reopens(events: Events, now: int)
    requires Ordered(events) && (events.Then? ==> events.last.at <= now)
    requires Recovered(LastTrip(events), now)
    ensures Admits(Execute(events), now)
  {
    InvHolds(events, now);
  }

  /** A breaker that reports itself open refuses. */
  lemma OpenRefuses(m: Option<CircuitBreaker>, now: int)
    ensures StateOf(m, now).Open? ==> !Admits(m, now)
  {
  }

  /** And one that refuses reports itself open if and only if it is not half-open, its failures have not
      been worked off, and the recovery time is not exactly over. */
  lemma RefusalReportsOpenExactlyWhen(m: Option<CircuitBreaker>, now: int)
    requires !Admits(m, now)
    ensures StateOf(m, now).Open? <==>
            && !m.value.halfOpen && m.value.failures >= THRESHOLD
            && now - m.value.lastTrip.time != RECOVERY
  {
  }
}
