/** The performance manager object: worker count and one breaker object per inspector. */
module Performance {
  import B = Breaker
  import G = Gate
  import O = Options

  datatype Name = Name(text: string)

  /** What an admitted inspection came to, from the caller's point of view. A panic is recorded twice:
      once where it is recovered and once by the caller. */
  datatype Inspection = Answered | Failed | Panicked | TimedOut
  datatype Result = CircuitOpen | TooManyWorkers | MemoryExceeded | Done(inspection: Inspection)

  /** The steps that a caller with this result took at the worker gate. */
  function GateSteps(c: G.Caller, r: Result): seq<G.Step> {
    match r
    case CircuitOpen => []
    case TooManyWorkers => [G.Add(c), G.Load(c), G.Sub(c)]
    case MemoryExceeded => [G.Add(c), G.Load(c), G.Memory(c, true), G.Sub(c)]
    case Done(TimedOut) => [G.Add(c), G.Load(c), G.Memory(c, false), G.Timeout(c), G.Sub(c)]
    case Done(_) => [G.Add(c), G.Load(c), G.Memory(c, false), G.Answer(c), G.Sub(c)]
  }

  /** They are possible in this state of the gate, and leave it as it was but for a timed-out inspection. */
  predicate IsGateRun(max: nat, s: G.State, c: G.Caller, r: Result) {
    && G.Possible(max, s, GateSteps(c, r))
    && G.Reached(max, s, GateSteps(c, r)) ==
       if r == Done(TimedOut) then s.(orphans := s.orphans + 1, timeouts := s.timeouts + 1) else s
  }

  lemma ResultIsGateRun(max: nat, s: G.State, c: G.Caller, r: Result)
    requires c !in s.callers && (r.TooManyWorkers? ==> s.active + 1 > max)
    requires r.MemoryExceeded? || r.Done? ==> s.active + 1 <= max
    ensures IsGateRun(max, s, c, r)
  {
    if !r.CircuitOpen? {
      var s1 := G.Apply(max, s, G.Add(c));
      var s2 := G.Apply(max, s1, G.Load(c));
      var rest := GateSteps(c, r)[1..][1..];
      AddLoad(max, s, c, GateSteps(c, r));
      match r
      case TooManyWorkers => {
        LastStep(max, s, s2, c, rest, 0);
      }
      case MemoryExceeded => {
        LastStep(max, s, G.Apply(max, s2, G.Memory(c, true)), c, rest[1..], 0);
      }
      case Done(TimedOut) => {
        var s3 := G.Apply(max, s2, G.Memory(c, false));
        LastStep(max, s, G.Apply(max, s3, G.Timeout(c)), c, rest[1..][1..], 1);
      }
      case Done(_) => {
        var s3 := G.Apply(max, s2, G.Memory(c, false));
        LastStep(max, s, G.Apply(max, s3, G.Answer(c)), c, rest[1..][1..], 0);
      }
      case CircuitOpen => {}
    }
  }

  lemma AddLoad(max: nat, s: G.State, c: G.Caller, steps: seq<G.Step>)
    requires c !in s.callers && |steps| >= 2 && steps[0] == G.Add(c) && steps[1] == G.Load(c)
    ensures var s2 := G.Apply(max, G.Apply(max, s, G.Add(c)), G.Load(c));
            && (G.Possible(max, s, steps) <==> G.Possible(max, s2, steps[1..][1..]))
            && (G.Possible(max, s, steps) ==> G.Reached(max, s, steps) == G.Reached(max, s2, steps[1..][1..]))
            && s2.active == s.active + 1 && s2.orphans == s.orphans && s2.timeouts == s.timeouts
            && s2.callers == s.callers[c := if s.active + 1 > max then G.Leaving(false) else G.Checked]
  {
    assert steps[1..][0] == G.Load(c);
    var s1 := G.Apply(max, s, G.Add(c));
    assert s1.callers == s.callers[c := G.Added];
    assert G.Possible(max, s, steps) <==> G.Possible(max, s1, steps[1..]);
  }

  /** The decrement, n of the callers having timed out meanwhile. */
  lemma LastStep(max: nat, s: G.State, leaving: G.State, c: G.Caller, steps: seq<G.Step>, n: nat)
    requires c !in s.callers && steps == [G.Sub(c)] && c in leaving.callers
    requires leaving.callers == s.callers[c := leaving.callers[c]] && leaving.callers[c].Leaving?
    requires leaving.active == s.active + 1 && leaving.orphans == s.orphans + n && leaving.timeouts == s.timeouts + n
    ensures G.Possible(max, leaving, steps)
    ensures G.Reached(max, leaving, steps) == s.(orphans := s.orphans + n, timeouts := s.timeouts + n)
  {
    assert leaving.callers - {c} == s.callers;
    assert steps[1..] == [];
    var s' := G.Apply(max, leaving, G.Sub(c));
    assert G.Possible(max, s', []) && G.Reached(max, s', []) == s';
  }

  class CircuitBreaker {
    var failures: nat
    var lastTrip: B.Moment
    var halfOpen: bool
    var halfOpenAt: int
    var trips: nat

    constructor ()
      ensures View() == B.NewBreaker()
    {
      failures, lastTrip, halfOpen, halfOpenAt, trips := 0, B.Never, false, 0, 0;
    }

    function View(): B.CircuitBreaker
      reads this
    {
      B.CircuitBreaker(failures, lastTrip, halfOpen, halfOpenAt, trips)
    }

    method CanProceed(now: int) returns (ok: bool)
      modifies this
      ensures (View(), ok) == B.CanProceed(old(View()), now)
    {
      if halfOpen && now - halfOpenAt > B.RECOVERY {
        halfOpen := false;
        failures := 0;
        return true;
      }
      if B.Recovered(lastTrip, now) {
        halfOpen := true;
        halfOpenAt := now;
        return true;
      }
      return false;
    }

    method RecordFailure(now: int)
      modifies this
      ensures View() == B.Fail(old(View()), now)
    {
      failures := failures + 1;
      if failures >= B.THRESHOLD {
        lastTrip := B.At(now);
        trips := trips + 1;
      }
    }

    method RecordSuccess()
      modifies this
      ensures View() == B.Succeed(old(View()))
    {
      if failures > 0 {
        failures := failures - 1;
      }
    }
  }

  class PerformanceManager {
    var circuitBreakers: map<Name, CircuitBreaker>
    var activeWorkers: int
    const maxWorkers: nat

    constructor (maxWorkers: nat)
      ensures Valid() && activeWorkers == 0 && this.maxWorkers == maxWorkers
      ensures forall name :: BreakerOf(name) == O.None
    {
      circuitBreakers, activeWorkers, this.maxWorkers := map[], 0, maxWorkers;
    }

    /** No two inspectors share a breaker. */
    ghost predicate Valid()
      reads this
    {
      forall a, b :: a in circuitBreakers && b in circuitBreakers && a != b ==>
        circuitBreakers[a] != circuitBreakers[b]
    }

    ghost function BreakerOf(name: Name): O.Option<B.CircuitBreaker>
      reads this, circuitBreakers.Values
    {
      if name in circuitBreakers then O.Some(circuitBreakers[name].View()) else O.None
    }

    /** Only the breaker of `name` moved, by one event. */
    twostate predicate Moved(name: Name, e: B.Event)
      reads this, circuitBreakers.Values
    {
      && BreakerOf(name) == B.Step(old(BreakerOf(name)), e)
      && forall other :: other != name ==> BreakerOf(other) == old(BreakerOf(other))
    }

    method CanProceed(name: Name, now: int) returns (ok: bool)
      requires Valid()
      modifies circuitBreakers.Values
      ensures Valid() && Moved(name, B.Ask(now))
      ensures ok == B.Admits(old(BreakerOf(name)), now)
    {
      if name !in circuitBreakers {
        return true;
      }
      ok := circuitBreakers[name].CanProceed(now);
    }

    method RecordFailure(name: Name, now: int)
      requires Valid()
      modifies this`circuitBreakers, circuitBreakers.Values
      ensures Valid() && Moved(name, B.Failure(now))
      ensures fresh(circuitBreakers.Values - old(circuitBreakers.Values))
    {
      if name !in circuitBreakers {
        var cb := new CircuitBreaker();
        circuitBreakers := circuitBreakers[name := cb];
      }
      circuitBreakers[name].RecordFailure(now);
    }

    method RecordSuccess(name: Name, now: int)
      requires Valid()
      modifies circuitBreakers.Values
      ensures Valid() && Moved(name, B.Success(now))
    {
      if name in circuitBreakers {
        circuitBreakers[name].RecordSuccess();
      }
    }

    method CircuitState(name: Name, now: int) returns (state: B.CircuitState)
      ensures state == B.StateOf(BreakerOf(name), now)
    {
      if name !in circuitBreakers {
        return B.Closed;
      }
      var cb := circuitBreakers[name];
      if cb.halfOpen {
        return B.HalfOpen;
      }
      if cb.lastTrip.At? && now - cb.lastTrip.time < B.RECOVERY && cb.failures >= B.THRESHOLD {
        return B.Open;
      }
      return B.Closed;
    }

    /** One caller's inspection from question to record, with nobody in between: it takes the gate's steps
        and gives its place back on every path, and only an inspection that ran touches the breaker again. */
    method Inspect(name: Name, asked: int, memoryExceeded: bool, inspection: Inspection, recorded: int)
      returns (r: Result)
      requires Valid()
      modifies this, circuitBreakers.Values
      ensures Valid() && activeWorkers == old(activeWorkers)
      ensures r == if !B.Admits(old(BreakerOf(name)), asked) then CircuitOpen
                   else if activeWorkers + 1 > maxWorkers then TooManyWorkers
                   else if memoryExceeded then MemoryExceeded
                   else Done(inspection)
      ensures var asked' := B.Step(old(BreakerOf(name)), B.Ask(asked));
              BreakerOf(name) == if !r.Done? then asked'
                                 else if inspection.Answered? then B.Step(asked', B.Success(recorded))
                                 else if inspection.Panicked? then
                                   B.Step(B.Step(asked', B.Failure(recorded)), B.Failure(recorded))
                                 else B.Step(asked', B.Failure(recorded))
      ensures forall other :: other != name ==> BreakerOf(other) == old(BreakerOf(other))
      ensures forall s: G.State, c :: s.active == old(activeWorkers) && c !in s.callers ==> IsGateRun(maxWorkers, s, c, r)
    {
      var ok := CanProceed(name, asked);
      if !ok {
        GateRun(CircuitOpen);
        return CircuitOpen;
      }
      activeWorkers := activeWorkers + 1;
      if activeWorkers > maxWorkers {
        activeWorkers := activeWorkers - 1;
        GateRun(TooManyWorkers);
        return TooManyWorkers;
      }
      if memoryExceeded {
        activeWorkers := activeWorkers - 1;
        GateRun(MemoryExceeded);
        return MemoryExceeded;
      }
      activeWorkers := activeWorkers - 1;
      if inspection.Answered? {
        RecordSuccess(name, recorded);
      } else {
        if inspection.Panicked? {
          RecordFailure(name, recorded);
        }
        RecordFailure(name, recorded);
      }
      GateRun(Done(inspection));
      return Done(inspection);
    }

    lemma GateRun(r: Result)
      requires r.TooManyWorkers? ==> activeWorkers + 1 > maxWorkers
      requires r.MemoryExceeded? || r.Done? ==> activeWorkers + 1 <= maxWorkers
      ensures forall s: G.State, c :: s.active == activeWorkers && c !in s.callers ==> IsGateRun(maxWorkers, s, c, r)
    {
      forall s: G.State, c | s.active == activeWorkers && c !in s.callers
        ensures IsGateRun(maxWorkers, s, c, r)
      {
        ResultIsGateRun(maxWorkers, s, c, r);
      }
    }
  }
}
