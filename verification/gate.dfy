/** The worker gate: callers add themselves to a shared counter, then read it, and leave if it is too
    high. Every atomic operation is a step, and any number of callers interleave. */
module Gate {

  datatype Caller = Caller(id: nat)

  /** Where a caller stands between its increment and its decrement. */
  datatype Pc = Added | Checked | Running | Leaving(admitted: bool)

  datatype State = State(
    active: int,
    callers: map<Caller, Pc>,
    orphans: nat,   // inspections still running after their caller timed out
    timeouts: nat)  // how many callers ever timed out

  datatype Step =
    | Add(caller: Caller)
    | Load(caller: Caller)
    | Memory(caller: Caller, exceeded: bool)
    | Answer(caller: Caller)
    | Timeout(caller: Caller)
    | OrphanEnds
    | Sub(caller: Caller)

  const INITIAL: State := State(0, map[], 0, 0)

  predicate At(s: State, c: Caller, pc: Pc) {
    c in s.callers && s.callers[c] == pc
  }

  predicate Enabled(s: State, step: Step) {
    match step
    case Add(c) => c !in s.callers
    case Load(c) => At(s, c, Added)
    case Memory(c, _) => At(s, c, Checked)
    case Answer(c) => At(s, c, Running)
    case Timeout(c) => At(s, c, Running)
    case OrphanEnds => s.orphans > 0
    case Sub(c) => At(s, c, Leaving(true)) || At(s, c, Leaving(false))
  }

  function Move(s: State, c: Caller, pc: Pc): State {
    s.(callers := s.callers[c := pc])
  }

  function Apply(max: nat, s: State, step: Step): State
    requires Enabled(s, step)
  {
    match step
    case Add(c) => Move(s.(active := s.active + 1), c, Added)
    case Load(c) => Move(s, c, if s.active > max then Leaving(false) else Checked)
    case Memory(c, exceeded) => Move(s, c, if exceeded then Leaving(true) else Running)
    case Answer(c) => Move(s, c, Leaving(true))
    case Timeout(c) => Move(s.(orphans := s.orphans + 1, timeouts := s.timeouts + 1), c, Leaving(true))
    case OrphanEnds => s.(orphans := s.orphans - 1)
    case Sub(c) => s.(active := s.active - 1, callers := s.callers - {c})
  }

  datatype Steps = Start | Then(before: Steps, last: Step)

  predicate Valid(max: nat, steps: Steps)
    decreases steps, 0
  {
    match steps
    case Start => true
    case Then(before, step) => Valid(max, before) && Enabled(Execute(max, before), step)
  }

  function Execute(max: nat, steps: Steps): State
    requires Valid(max, steps)
    decreases steps, 1
  {
    match steps
    case Start => INITIAL
    case Then(before, step) => Apply(max, Execute(max, before), step)
  }

  predicate PastCheck(pc: Pc) {
    pc.Checked? || pc.Running? || pc == Leaving(true)
  }

  /** Callers that passed the check and have not yet given their place back. */
  function Admitted(s: State): set<Caller> {
    set c | c in s.callers && PastCheck(s.callers[c])
  }

  function Inspecting(s: State): set<Caller> {
    set c | c in s.callers && s.callers[c].Running?
  }

  /** Inspections running right now, whether or not their caller still waits. */
  function LiveInspections(s: State): nat {
    |Inspecting(s)| + s.orphans
  }

  predicate Inv(max: nat, s: State) {
    && s.active == |s.callers|
    && |Admitted(s)| <= max
    && s.orphans <= s.timeouts
  }

  lemma SubsetSize(small: set<Caller>, large: set<Caller>)
    requires small <= large
    ensures |small| <= |large|
  {
    assert large == small + (large - small);
  }

  /** A caller that moves on without crossing the check changes neither count. */
  lemma MoveKeeps(s: State, c: Caller, pc: Pc)
    requires c in s.callers && (PastCheck(pc) <==> PastCheck(s.callers[c]))
    ensures Move(s, c, pc).callers.Keys == s.callers.Keys && Admitted(Move(s, c, pc)) == Admitted(s)
  {
  }

  lemma LoadKeepsInv(max: nat, s: State, c: Caller)
    requires Inv(max, s) && At(s, c, Added)
    ensures Inv(max, Apply(max, s, Load(c)))
  {
    if s.active <= max {
      var s' := Move(s, c, Checked);
      assert s'.callers.Keys == s.callers.Keys;
      SubsetSize(Admitted(s'), s.callers.Keys);
    } else {
      MoveKeeps(s, c, Leaving(false));
    }
  }

  lemma AddKeepsInv(max: nat, s: State, c: Caller)
    requires Inv(max, s) && c !in s.callers
    ensures Inv(max, Apply(max, s, Add(c)))
  {
    var s' := Apply(max, s, Add(c));
    assert s'.callers.Keys == s.callers.Keys + {c} && Admitted(s') == Admitted(s);
  }

  lemma SubKeepsInv(max: nat, s: State, c: Caller)
    requires Inv(max, s) && Enabled(s, Sub(c))
    ensures Inv(max, Apply(max, s, Sub(c)))
  {
    var s' := Apply(max, s, Sub(c));
    assert s'.callers.Keys == s.callers.Keys - {c};
    SubsetSize(Admitted(s'), Admitted(s));
  }

  lemma MoveKeepsInv(max: nat, s: State, step: Step)
    requires Inv(max, s) && Enabled(s, step) && (step.Memory? || step.Answer? || step.Timeout? || step.OrphanEnds?)
    ensures Inv(max, Apply(max, s, step))
  {
    match step
    case Memory(c, exceeded) => MoveKeeps(s, c, if exceeded then Leaving(true) else Running);
    case Answer(c) => MoveKeeps(s, c, Leaving(true));
    case Timeout(c) => MoveKeeps(s.(orphans := s.orphans + 1, timeouts := s.timeouts + 1), c, Leaving(true));
    case OrphanEnds => assert Admitted(Apply(max, s, step)) == Admitted(s);
  }

  lemma StepKeepsInv(max: nat, s: State, step: Step)
    requires Inv(max, s) && Enabled(s, step)
    ensures Inv(max, Apply(max, s, step))
  {
    hide Inv, Apply;
    match step
    case Add(c) => AddKeepsInv(max, s, c);
    case Load(c) => LoadKeepsInv(max, s, c);
    case Sub(c) => SubKeepsInv(max, s, c);
    case _ => MoveKeepsInv(max, s, step);
  }

  /** In every interleaving of any number of callers: the counter is the number of callers between their
      increment and their decrement, so it is zero when nobody is in flight, and at most `max` are past
      the check at once. */
  lemma {:induction false} GateHolds(max: nat, steps: Steps)
    requires Valid(max, steps)
    ensures var s := Execute(max, steps);
            && s.active == |s.callers|
            && (s.callers == map[] <==> s.active == 0)
            && |Admitted(s)| <= max
    ensures Inv(max, Execute(max, steps))
  {
    if steps.Then? {
      GateHolds(max, steps.before);
      StepKeepsInv(max, Execute(max, steps.before), steps.last);
    }
    var s := Execute(max, steps);
    if |s.callers| == 0 {
      assert s.callers.Keys == {};
    }
  }

  /** The gate bounds callers, not work: inspections may outnumber `max` by those that timed out. */
  lemma LiveInspectionsBounded(max: nat, steps: Steps)
    requires Valid(max, steps)
    ensures var s := Execute(max, steps); LiveInspections(s) <= max + s.timeouts
  {
    GateHolds(max, steps);
    var s := Execute(max, steps);
    SubsetSize(Inspecting(s), Admitted(s));
  }

  /** n callers in turn that time out and go, while their inspections stay. */
  function Forever(n: nat): Steps {
    if n == 0 then Start else
      var c := Caller(0);
      Then(Then(Then(Then(Then(Forever(n - 1), Add(c)), Load(c)), Memory(c, false)), Timeout(c)), Sub(c))
  }

  /** One more step of a concrete run. */
  lemma Run(max: nat, steps: Steps, s: State, step: Step) returns (more: Steps, s': State)
    requires Valid(max, steps) && Execute(max, steps) == s && Enabled(s, step)
    ensures more == Then(steps, step) && s' == Apply(max, s, step)
    ensures Valid(max, more) && Execute(max, more) == s'
  {
    more, s' := Then(steps, step), Apply(max, s, step);
  }

  lemma StartRuns(max: nat)
    ensures Valid(max, Start) && Execute(max, Start) == INITIAL
  {
  }

  lemma {:induction false} ForeverRuns(max: nat, n: nat)
    requires max >= 1
    ensures Valid(max, Forever(n)) && Execute(max, Forever(n)) == State(0, map[], n, n)
  {
    hide Valid, Execute;
    if n == 0 {
      StartRuns(max);
    } else {
      ForeverRuns(max, n - 1);
      var c := Caller(0);
      var steps, s := Run(max, Forever(n - 1), State(0, map[], n - 1, n - 1), Add(c));
      steps, s := Run(max, steps, s, Load(c));
      steps, s := Run(max, steps, s, Memory(c, false));
      steps, s := Run(max, steps, s, Timeout(c));
      steps, s := Run(max, steps, s, Sub(c));
      assert s.callers == map[];
    }
  }

  /** Without timeouts that bounds the inspections by `max`; with them, any number may be live while the
      counter reads zero. */
  lemma TimeoutsEvadeTheGate(max: nat, n: nat)
    requires max >= 1
    ensures exists steps :: Valid(max, steps) && Execute(max, steps).active == 0
                            && LiveInspections(Execute(max, steps)) >= n
  {
    ForeverRuns(max, n);
    assert Valid(max, Forever(n)) && LiveInspections(Execute(max, Forever(n))) >= n;
  }

  /** k more callers, all of them running. */
  function Filled(n: nat, k: nat): Steps {
    if k == 0 then Forever(n) else
      var c := Caller(k);
      Then(Then(Then(Filled(n, k - 1), Add(c)), Load(c)), Memory(c, false))
  }

  function Runners(k: nat): map<Caller, Pc> {
    if k == 0 then map[] else Runners(k - 1)[Caller(k) := Running]
  }

  lemma {:induction false} RunnersRun(k: nat, s: State)
    requires s.callers == Runners(k)
    ensures forall c :: c in s.callers ==> c.id <= k
    ensures |Inspecting(s)| == k
  {
    if k > 0 {
      var before := s.(callers := Runners(k - 1));
      RunnersRun(k - 1, before);
      assert Inspecting(s) == Inspecting(before) + {Caller(k)};
    }
  }

  lemma {:induction false} FilledRuns(max: nat, n: nat, k: nat)
    requires k <= max && max >= 1
    ensures Valid(max, Filled(n, k)) && Execute(max, Filled(n, k)) == State(k, Runners(k), n, n)
  {
    hide Valid, Execute;
    if k == 0 {
      ForeverRuns(max, n);
    } else {
      FilledRuns(max, n, k - 1);
      var c, s := Caller(k), State(k - 1, Runners(k - 1), n, n);
      RunnersRun(k - 1, s);
      var steps;
      steps, s := Run(max, Filled(n, k - 1), s, Add(c));
      steps, s := Run(max, steps, s, Load(c));
      steps, s := Run(max, steps, s, Memory(c, false));
      assert s.callers == Runners(k);
    }
  }

  ghost predicate BoundsInspections(max: nat, timeouts: nat, bound: nat) {
    forall steps :: Valid(max, steps) && Execute(max, steps).timeouts <= timeouts ==>
      LiveInspections(Execute(max, steps)) <= bound
  }

  /** A number bounds the running inspections in every run with at most so many timeouts if and only if it
      is at least `max` plus that many: `max` itself does exactly when nobody may time out. */
  lemma InspectionsBoundedExactlyWhen(max: nat, timeouts: nat, bound: nat)
    requires max >= 1
    ensures BoundsInspections(max, timeouts, bound) <==> bound >= max + timeouts
  {
    FilledRuns(max, timeouts, max);
    RunnersRun(max, Execute(max, Filled(timeouts, max)));
    forall steps | Valid(max, steps) && Execute(max, steps).timeouts <= timeouts
      ensures LiveInspections(Execute(max, steps)) <= max + timeouts
    {
      LiveInspectionsBounded(max, steps);
    }
  }

  // ---- steps from any state ----

  predicate Possible(max: nat, s: State, steps: seq<Step>)
    decreases |steps|
  {
    steps == [] || (Enabled(s, steps[0]) && Possible(max, Apply(max, s, steps[0]), steps[1..]))
  }

  function Reached(max: nat, s: State, steps: seq<Step>): State
    requires Possible(max, s, steps)
    decreases |steps|
  {
    if steps == [] then s else Reached(max, Apply(max, s, steps[0]), steps[1..])
  }
}
