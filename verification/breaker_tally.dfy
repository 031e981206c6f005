/** The circuit breaker read off its history: failures count up, successes count down, but never below zero. */
module BreakerTally {
  import opened Breaker
  import opened Options

  // ---- the history ----

  /** The inspector has failed at least once. */
  predicate Failed(events: Events) {
    events.Then? && (events.last.Failure? || Failed(events.before))
  }

  predicate Past(m: Moment, now: int, wait: int) {
    m.At? && now - m.time > wait
  }

  /** An admission more than thirty seconds after the one that made the breaker half-open starts afresh. */
  ghost predicate Clears(before: Events, e: Event)
    decreases before, 1
  {
    e.Ask? && Past(Probe(before), e.at, 30_000_000_000)
  }

  /** The admission that made the breaker half-open. */
  ghost function Probe(events: Events): Moment
    decreases events, 0
  {
    if events.NoEvents? || !Failed(events.before) || Clears(events.before, events.last) then Never
    else if events.last.Ask?
            && (Trip(events.before).Never? || Past(Trip(events.before), events.last.at, 30_000_000_000)) then
      At(events.last.at)
    else Probe(events.before)
  }

  /** The outcomes since the breaker last started afresh: 1 for a failure, -1 for a success. */
  ghost function Marks(events: Events): seq<int>
    decreases events, 0
  {
    if events.NoEvents? || Clears(events.before, events.last) then []
    else Marks(events.before) + match events.last case Ask(_) => [] case Failure(_) => [1] case Success(_) => [-1]
  }

  /** The last failure by which, over some time up to then, failures outnumbered successes by five. */
  ghost function Trip(events: Events): Moment
    decreases events, 1
  {
    if events.NoEvents? then Never
    else if events.last.Failure? && Reaches(Marks(events), 5) then At(events.last.at)
    else Trip(events.before)
  }

  function Sum(marks: seq<int>): int {
    if marks == [] then 0 else Sum(marks[..|marks| - 1]) + marks[|marks| - 1]
  }

  /** Over some time up to now, failures outnumbered successes by n. */
  ghost predicate Reaches(marks: seq<int>, n: int) {
    exists i: nat :: i <= |marks| && Sum(marks[i..]) >= n
  }

  lemma ReachesAfter(marks: seq<int>, x: int, n: int)
    ensures Reaches(marks + [x], n) <==> n <= 0 || Reaches(marks, n - x)
    ensures n <= 0 ==> Reaches(marks, n)
  {
    var more := marks + [x];
    assert more[|more|..] == [] && marks[|marks|..] == [];
    forall i: nat | i <= |marks|
      ensures Sum(more[i..]) == Sum(marks[i..]) + x
    {
      assert more[i..] == marks[i..] + [x] && more[i..][..|marks| - i] == marks[i..];
    }
  }

  lemma NothingReaches(n: int)
    ensures Reaches([], n) <==> n <= 0
  {
    var none: seq<int> := [];
    assert none[0..] == none;
  }

  // ---- the breaker follows it ----

  ghost predicate Counts(failures: int, marks: seq<int>) {
    forall n :: n >= 1 ==> (failures >= n <==> Reaches(marks, n))
  }

  lemma CountsAfter(failures: nat, marks: seq<int>, x: int)
    requires Counts(failures, marks) && (x == 1 || x == -1)
    ensures Counts(if failures + x < 0 then 0 else failures + x, marks + [x])
  {
    hide Reaches;
    forall n | n >= 1
      ensures (if failures + x < 0 then 0 else failures + x) >= n <==> Reaches(marks + [x], n)
    {
      ReachesAfter(marks, x, n);
      ReachesAfter(marks, x, n - x);
    }
  }

  ghost predicate Follows(m: Option<CircuitBreaker>, events: Events) {
    && (m.Some? <==> Failed(events))
    && Counts(if m.Some? then m.value.failures else 0, Marks(events))
    && (m.None? ==> Probe(events).Never? && Trip(events).Never?)
    && (m.Some? ==>
          && m.value.lastTrip == Trip(events)
          && Probe(events) == if m.value.halfOpen then At(m.value.halfOpenAt) else Never)
  }

  /** In every run the failures counted are the most by which, over any time up to now since the breaker last
      started afresh, failures outnumbered successes; and the breaker tripped when that came to five. */
  lemma {:induction false} FollowsHistory(events: Events)
    ensures Follows(Execute(events), events)
  {
    hide Reaches, Counts;
    NothingCounted();
    if events.Then? {
      FollowsHistory(events.before);
      var m, e := Execute(events.before), events.last;
      var failures := if m.Some? then m.value.failures else 0;
      assert Marks(events.before) + [] == Marks(events.before);
      if !e.Ask? {
        CountsAfter(failures, Marks(events.before), if e.Failure? then 1 else -1);
        CountsMean(failures + 1, Marks(events));
        assert Marks(events) == Marks(events.before) + [if e.Failure? then 1 else -1];
      } else if Clears(events.before, e) {
        assert Marks(events) == [];
      } else {
        assert Marks(events) == Marks(events.before);
      }
    }
  }

  lemma NothingCounted()
    ensures Counts(0, [])
  {
    forall n | n >= 1
      ensures !Reaches([], n)
    {
      NothingReaches(n);
    }
  }

  lemma CountsMean(failures: nat, marks: seq<int>)
    ensures Counts(failures, marks) ==> (failures >= 5 <==> Reaches(marks, 5))
  {
  }

  /** A call is admitted if and only if nothing ever failed, or the breaker never tripped, or more than thirty
      seconds have passed since it last tripped or since it became half-open. */
  lemma AdmitsExactlyWhen(events: Events, now: int)
    ensures Admits(Execute(events), now) <==>
            || !Failed(events) || Trip(events).Never?
            || Past(Trip(events), now, 30_000_000_000) || Past(Probe(events), now, 30_000_000_000)
  {
    FollowsHistory(events);
  }

  /** It reports itself half-open from an admission on until it starts afresh; otherwise open if and only if it
      tripped less than thirty seconds ago and the failures still outnumber the successes by five. */
  lemma ReportsExactly(events: Events, now: int)
    ensures StateOf(Execute(events), now) ==
            if Probe(events).At? then HalfOpen
            else if Trip(events).At? && now - Trip(events).time < 30_000_000_000 && Reaches(Marks(events), 5) then Open
            else Closed
  {
    FollowsHistory(events);
    if Execute(events).Some? {
      CountsMean(Execute(events).value.failures, Marks(events));
    }
  }
}
