/** The SIEM event buffer: any number of senders, one flush loop, and a closing caller, interleaved
    at their critical sections and channel operations. */
module Siem {

  datatype Event = Event(payload: string)
  datatype Exporter = Exporter(kind: string)
  datatype Sender = Sender(id: nat)

  datatype Config = Config(batchSize: int, exporters: set<Exporter>)

  /** Where a flushing thread stands: waiting for a reason to flush, about to lock the buffer, handing a
      batch to the exporters still in `todo`, or gone. */
  datatype Flusher = Waiting | Woken | Exporting(batch: seq<Event>, todo: set<Exporter>) | Gone

  datatype State = State(
    buffer: seq<Event>,
    signal: bool,                          // the flush channel, of capacity one
    signalling: set<Sender>,               // senders that saw a full buffer and have not signalled yet
    loop: Flusher,
    closer: Flusher,
    done: bool,
    delivered: map<Exporter, seq<Event>>,  // what each exporter has been handed
    appended: seq<Event>,                  // every event ever sent
    late: bool)                            // was anything sent after the closing flush took the buffer?

  datatype Who = Loop | Closer

  datatype Step =
    | Append(sender: Sender, event: Event)
    | Signal(sender: Sender)
    | Receive
    | Tick
    | Exit
    | Close
    | Swap(who: Who)
    | Export(who: Who, exporter: Exporter)
    | Finish(who: Who)

  function Initial(c: Config): State {
    State([], false, {}, Waiting, Waiting, false, map x | x in c.exporters :: [], [], false)
  }

  function Pc(s: State, who: Who): Flusher {
    if who.Loop? then s.loop else s.closer
  }

  function SetPc(s: State, who: Who, pc: Flusher): State {
    if who.Loop? then s.(loop := pc) else s.(closer := pc)
  }

  predicate Enabled(c: Config, s: State, step: Step) {
    match step
    case Append(sender, _) => sender !in s.signalling
    case Signal(sender) => sender in s.signalling
    case Receive => s.loop.Waiting? && s.signal
    case Tick => s.loop.Waiting?
    case Exit => s.loop.Waiting? && s.done
    case Close => !s.done
    case Swap(who) => Pc(s, who).Woken?
    case Export(who, x) => Pc(s, who).Exporting? && x in Pc(s, who).todo && x in s.delivered
    case Finish(who) => Pc(s, who).Exporting? && Pc(s, who).todo == {}
  }

  function Apply(c: Config, s: State, step: Step): State
    requires Enabled(c, s, step)
  {
    match step
    case Append(sender, e) =>
      var buffer := s.buffer + [e];
      s.(buffer := buffer, appended := s.appended + [e],
         signalling := if |buffer| >= c.batchSize then s.signalling + {sender} else s.signalling,
         late := s.late || s.closer.Exporting? || s.closer.Gone?)
    case Signal(sender) => s.(signalling := s.signalling - {sender}, signal := true)
    case Receive => s.(signal := false, loop := Woken)
    case Tick => s.(loop := Woken)
    case Exit => s.(loop := Gone)
    case Close => s.(done := true, closer := Woken)
    case Swap(who) =>
      if s.buffer == [] then SetPc(s, who, Rest(who))
      else SetPc(s.(buffer := []), who, Exporting(s.buffer, c.exporters))
    case Export(who, x) =>
      var pc := Pc(s, who);
      SetPc(s.(delivered := s.delivered[x := s.delivered[x] + pc.batch]), who, pc.(todo := pc.todo - {x}))
    case Finish(who) => SetPc(s, who, Rest(who))
  }

  /** The loop goes back to its select; the closing caller is done. */
  function Rest(who: Who): Flusher {
    if who.Loop? then Waiting else Gone
  }

  datatype Steps = Start | Then(before: Steps, last: Step)

  predicate Valid(c: Config, steps: Steps)
    decreases steps, 0
  {
    match steps
    case Start => true
    case Then(before, step) => Valid(c, before) && Enabled(c, Execute(c, before), step)
  }

  function Execute(c: Config, steps: Steps): State
    requires Valid(c, steps)
    decreases steps, 1
  {
    match steps
    case Start => Initial(c)
    case Then(before, step) => Apply(c, Execute(c, before), step)
  }

  // ---- no lost event ----

  /** The part of a flusher's batch that an exporter has still to be handed. */
  function InFlight(pc: Flusher, x: Exporter): seq<Event> {
    if pc.Exporting? && x in pc.todo then pc.batch else []
  }

  /** Before Close, what an exporter got, then its in-flight batch, then the buffer, is exactly what was
      sent, in order. */
  predicate Conserved(s: State, x: Exporter) {
    x in s.delivered && s.delivered[x] + InFlight(s.loop, x) + s.buffer == s.appended
  }

  /** After Close two threads may be exporting, so order may be lost, but no event is, and none is doubled. */
  predicate Accounted(s: State, x: Exporter) {
    x in s.delivered &&
    multiset(s.delivered[x]) + multiset(InFlight(s.loop, x)) + multiset(InFlight(s.closer, x))
      + multiset(s.buffer) == multiset(s.appended)
  }

  // ---- no lost wake-up ----

  predicate FlushIsComing(s: State) {
    s.signal || s.signalling != {} || s.loop.Woken?
  }

  predicate WakeUpHolds(c: Config, s: State) {
    !s.done && |s.buffer| >= c.batchSize ==> FlushIsComing(s)
  }

  // ---- the invariant ----

  predicate Shape(c: Config, s: State) {
    && s.delivered.Keys == c.exporters
    && (s.loop.Exporting? ==> s.loop.todo <= c.exporters)
    && (s.closer.Exporting? ==> s.closer.todo <= c.exporters)
    && (!s.done ==> s.closer.Waiting? && !s.loop.Gone? && !s.late)
    && (s.done ==> !s.closer.Waiting?)
    && (s.closer.Exporting? || s.closer.Gone? ==> !s.late ==> s.buffer == [])
  }

  predicate Laws(s: State, x: Exporter) {
    Accounted(s, x) && (!s.done ==> Conserved(s, x))
  }

  ghost predicate Inv(c: Config, s: State) {
    Shape(c, s) && forall x :: x in c.exporters ==> Laws(s, x)
  }

  // The two laws step by step, on the values they speak of.

  lemma AppendKeeps(c: Config, s: State, step: Step, x: Exporter)
    requires step.Append? && Enabled(c, s, step) && x in s.delivered
    ensures Accounted(s, x) ==> Accounted(Apply(c, s, step), x)
    ensures Conserved(s, x) ==> Conserved(Apply(c, s, step), x)
  {
    var d, l, b, e := s.delivered[x], InFlight(s.loop, x), s.buffer, step.event;
    assert d + l + (b + [e]) == d + l + b + [e];
  }

  lemma LoopSwapKeeps(c: Config, s: State, x: Exporter)
    requires s.loop.Woken? && x in s.delivered && x in c.exporters
    ensures Accounted(s, x) ==> Accounted(Apply(c, s, Swap(Loop)), x)
    ensures Conserved(s, x) ==> Conserved(Apply(c, s, Swap(Loop)), x)
  {
    var s' := Apply(c, s, Swap(Loop));
    if s.buffer != [] {
      SwapTaken(s, s', x);
    }
  }

  lemma SwapTaken(s: State, s': State, x: Exporter)
    requires x in s.delivered && s'.delivered == s.delivered && s'.appended == s.appended
    requires InFlight(s.loop, x) == [] && InFlight(s'.loop, x) == s.buffer && s'.buffer == []
    requires s'.closer == s.closer
    ensures Accounted(s, x) ==> Accounted(s', x)
    ensures Conserved(s, x) ==> Conserved(s', x)
  {
    var d, b := s.delivered[x], s.buffer;
    assert d + [] + b == d + b && d + b + [] == d + b;
  }

  lemma CloserSwapKeeps(c: Config, s: State, x: Exporter)
    requires s.closer.Woken? && x in s.delivered && x in c.exporters
    ensures Accounted(s, x) ==> Accounted(Apply(c, s, Swap(Closer)), x)
  {
    if s.buffer != [] {
      CloserTaken(s, Apply(c, s, Swap(Closer)), x);
    }
  }

  lemma CloserTaken(s: State, s': State, x: Exporter)
    requires x in s.delivered && s'.delivered == s.delivered && s'.appended == s.appended
    requires InFlight(s.closer, x) == [] && InFlight(s'.closer, x) == s.buffer && s'.buffer == []
    requires s'.loop == s.loop
    ensures Accounted(s, x) ==> Accounted(s', x)
  {
    hide InFlight;
    var d, l, b := multiset(s.delivered[x]), multiset(InFlight(s.loop, x)), multiset(s.buffer);
    assert d + l + multiset{} + b == d + l + b + multiset{};
  }

  lemma LoopExportKeeps(c: Config, s: State, y: Exporter, x: Exporter)
    requires Enabled(c, s, Export(Loop, y)) && x in s.delivered
    ensures Accounted(s, x) ==> Accounted(Apply(c, s, Export(Loop, y)), x)
    ensures Conserved(s, x) ==> Conserved(Apply(c, s, Export(Loop, y)), x)
  {
    if x == y {
      var d, batch, b := s.delivered[x], s.loop.batch, s.buffer;
      assert d + batch + [] + b == d + batch + b;
    }
  }

  lemma CloserExportKeeps(c: Config, s: State, y: Exporter, x: Exporter)
    requires Enabled(c, s, Export(Closer, y)) && x in s.delivered
    ensures Accounted(s, x) ==> Accounted(Apply(c, s, Export(Closer, y)), x)
  {
  }

  lemma FinishKeeps(c: Config, s: State, who: Who, x: Exporter)
    requires Enabled(c, s, Finish(who)) && x in s.delivered
    ensures Accounted(s, x) ==> Accounted(Apply(c, s, Finish(who)), x)
    ensures Conserved(s, x) ==> Conserved(Apply(c, s, Finish(who)), x)
  {
  }

  lemma {:induction false} StepKeepsLaws(c: Config, s: State, step: Step, x: Exporter)
    requires Shape(c, s) && Laws(s, x) && Enabled(c, s, step) && x in c.exporters
    ensures Laws(Apply(c, s, step), x)
  {
    match step
    case Append(_, _) => AppendKeeps(c, s, step, x);
    case Swap(Loop) => LoopSwapKeeps(c, s, x);
    case Swap(Closer) => CloserSwapKeeps(c, s, x);
    case Export(Loop, y) => LoopExportKeeps(c, s, y, x);
    case Export(Closer, y) => CloserExportKeeps(c, s, y, x);
    case Finish(who) => FinishKeeps(c, s, who, x);
    case _ =>
  }

  lemma SwapKeepsShape(c: Config, s: State, who: Who)
    requires Shape(c, s) && Enabled(c, s, Swap(who))
    ensures Shape(c, Apply(c, s, Swap(who)))
  {
  }

  lemma ExportKeepsShape(c: Config, s: State, step: Step)
    requires Shape(c, s) && Enabled(c, s, step) && (step.Export? || step.Finish?)
    ensures Shape(c, Apply(c, s, step))
  {
  }

  lemma SignalKeepsShape(c: Config, s: State, step: Step)
    requires Shape(c, s) && Enabled(c, s, step) && !step.Swap? && !step.Export? && !step.Finish?
    ensures Shape(c, Apply(c, s, step))
  {
  }

  lemma StepKeepsShape(c: Config, s: State, step: Step)
    requires Shape(c, s) && Enabled(c, s, step)
    ensures Shape(c, Apply(c, s, step))
  {
    hide Shape, Apply, Enabled;
    match step
    case Swap(who) => SwapKeepsShape(c, s, who);
    case Export(_, _) => ExportKeepsShape(c, s, step);
    case Finish(_) => ExportKeepsShape(c, s, step);
    case _ => SignalKeepsShape(c, s, step);
  }

  lemma {:induction false} StepKeepsInv(c: Config, s: State, step: Step)
    requires Inv(c, s) && Enabled(c, s, step)
    ensures Inv(c, Apply(c, s, step))
  {
    hide Apply;
    StepKeepsShape(c, s, step);
    forall x | x in c.exporters ensures Laws(Apply(c, s, step), x) {
      StepKeepsLaws(c, s, step, x);
    }
  }

  lemma {:induction false} RunKeepsInv(c: Config, steps: Steps)
    requires Valid(c, steps)
    ensures Inv(c, Execute(c, steps))
  {
    if steps.Then? {
      RunKeepsInv(c, steps.before);
      StepKeepsInv(c, Execute(c, steps.before), steps.last);
    }
  }

  /** In every interleaving, before Close, each exporter has been handed a prefix of what was sent, in
      order and without gaps, and the rest is in flight or in the buffer. */
  lemma {:induction false} NoLostEvent(c: Config, steps: Steps, x: Exporter)
    requires Valid(c, steps) && x in c.exporters
    ensures var s := Execute(c, steps);
            && Accounted(s, x)
            && (!s.done ==> Conserved(s, x) && s.delivered[x] <= s.appended)
  {
    RunKeepsInv(c, steps);
    var s := Execute(c, steps);
    assert Laws(s, x);
    if !s.done {
      PrefixOf(s.delivered[x], InFlight(s.loop, x), s.buffer);
    }
  }

  lemma PrefixOf(a: seq<Event>, b: seq<Event>, c: seq<Event>)
    ensures a <= a + b + c
  {
  }

  lemma {:induction false} WakeUpStep(c: Config, s: State, step: Step)
    requires Enabled(c, s, step) && WakeUpHolds(c, s) && c.batchSize >= 1
    ensures WakeUpHolds(c, Apply(c, s, step))
  {
    var s' := Apply(c, s, step);
    match step
    case Append(sender, _) => assert |s'.buffer| >= c.batchSize ==> sender in s'.signalling;
    case _ =>
  }

  lemma {:induction false} WakeUpRun(c: Config, steps: Steps)
    requires Valid(c, steps) && c.batchSize >= 1
    ensures WakeUpHolds(c, Execute(c, steps))
  {
    if steps.Then? {
      WakeUpRun(c, steps.before);
      WakeUpStep(c, Execute(c, steps.before), steps.last);
    }
  }

  /** Until Close, a buffer at or above the batch size means a signal is pending, a sender is about to
      signal, or the loop is about to flush: in every interleaving if and only if the batch size is at
      least one. */
  lemma NoLostWakeUpExactlyWhen(c: Config)
    ensures c.batchSize >= 1 <==> forall steps :: Valid(c, steps) ==> WakeUpHolds(c, Execute(c, steps))
  {
    if c.batchSize >= 1 {
      forall steps | Valid(c, steps) ensures WakeUpHolds(c, Execute(c, steps)) {
        WakeUpRun(c, steps);
      }
    } else {
      assert !WakeUpHolds(c, Execute(c, Start));
    }
  }

  // ---- signals ----

  /** A signal was set and not received since. */
  predicate Pending(steps: Steps) {
    steps.Then? && (steps.last.Signal? || (!steps.last.Receive? && Pending(steps.before)))
  }

  /** The sender's last event filled a batch, and it has not signalled since. */
  predicate AboutToSignal(c: Config, steps: Steps, sender: Sender)
    requires Valid(c, steps)
  {
    match steps
    case Start => false
    case Then(before, step) =>
      if step.Append? && step.sender == sender then |Execute(c, steps).buffer| >= c.batchSize
      else step != Signal(sender) && AboutToSignal(c, before, sender)
  }

  /** In every interleaving the channel holds a signal exactly from one that is set to the next that the loop
      receives, however many were set meanwhile, and a sender sets one exactly when its event filled a batch. */
  lemma {:induction false} SignalsFollow(c: Config, steps: Steps, sender: Sender)
    requires Valid(c, steps)
    ensures Execute(c, steps).signal <==> Pending(steps)
    ensures sender in Execute(c, steps).signalling <==> AboutToSignal(c, steps, sender)
  {
    hide Apply, Enabled;
    if steps.Then? {
      SignalsFollow(c, steps.before, sender);
      SignalStep(c, Execute(c, steps.before), steps.last, sender);
    }
  }

  lemma SignalStep(c: Config, s: State, step: Step, sender: Sender)
    requires Enabled(c, s, step)
    ensures Apply(c, s, step).signal <==> step.Signal? || (!step.Receive? && s.signal)
    ensures sender in Apply(c, s, step).signalling <==>
            if step.Append? && step.sender == sender then |Apply(c, s, step).buffer| >= c.batchSize
            else step != Signal(sender) && sender in s.signalling
  {
  }

  // ---- a full buffer does get flushed ----

  /** Steps that neither send, nor close, nor need the ticker. */
  predicate Internal(step: Step) {
    step.Signal? || step.Receive? || (step.Swap? && step.who.Loop?)
    || (step.Export? && step.who.Loop?) || (step.Finish? && step.who.Loop?)
  }

  /** How far the loop is from taking the buffer. */
  function Distance(s: State): nat {
    match s.loop
    case Woken => 0
    case Waiting => if s.signal then 1 else 2
    case Exporting(_, todo) => 3 + |todo|
    case Gone => 0
  }

  function Extend(steps: Steps, more: seq<Step>): Steps
    decreases |more|
  {
    if more == [] then steps else Extend(Then(steps, more[0]), more[1..])
  }

  lemma {:induction false} ExtendValid(c: Config, steps: Steps, more: seq<Step>)
    requires Valid(c, Extend(steps, more))
    ensures Valid(c, steps)
    decreases |more|
  {
    if more != [] {
      ExtendValid(c, Then(steps, more[0]), more[1..]);
    }
  }

  /** How many internal steps can come before the flush. */
  function Delay(s: State): nat {
    Distance(s) + |s.signalling|
  }

  /** Every internal step brings the flush nearer, or is the flush, or comes after it. */
  lemma InternalStep(c: Config, s: State, step: Step)
    requires Internal(step) && Enabled(c, s, step) && !s.done && !s.loop.Gone?
    ensures var s' := Apply(c, s, step);
            && !s'.done && !s'.loop.Gone?
            && (s'.buffer == [] || (s'.buffer == s.buffer && Delay(s') < Delay(s)))
  {
    match step
    case Signal(sender) => assert |s.signalling - {sender}| == |s.signalling| - 1;
    case Export(_, x) => assert |s.loop.todo - {x}| == |s.loop.todo| - 1;
    case _ =>
  }

  /** From any reachable state with a full buffer, before Close: whatever internal steps are taken, in
      whatever order and with no help from the ticker, the buffer is empty once there have been more of
      them than the delay, or once none is left to take. */
  lemma {:induction false} FullBufferIsFlushed(c: Config, steps: Steps, more: seq<Step>)
    requires Valid(c, Extend(steps, more)) && c.batchSize >= 1 && Valid(c, steps)
    requires !Execute(c, steps).done
    requires forall step :: step in more ==> Internal(step)
    requires |Execute(c, steps).buffer| >= c.batchSize || Execute(c, steps).buffer == []
    ensures var s := Execute(c, Extend(steps, more));
            && (|more| > Delay(Execute(c, steps)) ==> s.buffer == [])
            && (s.buffer != [] ==> exists step :: Internal(step) && Enabled(c, s, step))
    decreases |more|
  {
    var s := Execute(c, steps);
    RunKeepsInv(c, steps);
    WakeUpRun(c, steps);
    if more != [] {
      var next := Then(steps, more[0]);
      ExtendValid(c, next, more[1..]);
      InternalStep(c, s, more[0]);
      FullBufferIsFlushed(c, next, more[1..]);
      if Execute(c, next).buffer == [] {
        StaysEmpty(c, next, more[1..]);
      }
    } else if s.buffer != [] {
      var step := NextInternal(c, s);
    }
  }

  lemma {:induction false} StaysEmpty(c: Config, steps: Steps, more: seq<Step>)
    requires Valid(c, Extend(steps, more)) && Valid(c, steps) && Execute(c, steps).buffer == []
    requires forall step :: step in more ==> Internal(step)
    ensures Execute(c, Extend(steps, more)).buffer == []
    decreases |more|
  {
    if more != [] {
      ExtendValid(c, Then(steps, more[0]), more[1..]);
      assert Internal(more[0]);
      StaysEmpty(c, Then(steps, more[0]), more[1..]);
    }
  }

  lemma NextInternal(c: Config, s: State) returns (step: Step)
    requires Inv(c, s) && WakeUpHolds(c, s) && !s.done && |s.buffer| >= c.batchSize >= 1
    ensures Internal(step) && Enabled(c, s, step)
    ensures var s' := Apply(c, s, step);
            && !s'.done
            && (s'.buffer == [] || (s'.buffer == s.buffer && Distance(s') < Distance(s)))
  {
    match s.loop
    case Woken => step := Swap(Loop);
    case Waiting =>
      if s.signal {
        step := Receive;
      } else {
        var sender :| sender in s.signalling;
        step := Signal(sender);
      }
    case Exporting(_, todo) =>
      if todo == {} {
        step := Finish(Loop);
      } else {
        var x :| x in todo;
        step := Export(Loop, x);
        assert |todo - {x}| == |todo| - 1;
      }
    case Gone =>
  }

  // ---- runs made step by step ----

  /** One more step of a concrete run. */
  lemma Run(c: Config, steps: Steps, s: State, step: Step) returns (more: Steps, s': State)
    requires Valid(c, steps) && Execute(c, steps) == s && Enabled(c, s, step)
    ensures more == Then(steps, step) && s' == Apply(c, s, step)
    ensures Valid(c, more) && Execute(c, more) == s'
  {
    more, s' := Then(steps, step), Apply(c, s, step);
  }

  lemma ExtendByNone(steps: Steps)
    ensures Extend(steps, []) == steps
  {
  }

  lemma {:induction false} ExtendByOne(steps: Steps, more: seq<Step>, step: Step)
    ensures Extend(steps, more + [step]) == Then(Extend(steps, more), step)
    decreases |more|
  {
    var all := more + [step];
    if more == [] {
      assert all[1..] == [];
    } else {
      assert all[1..] == more[1..] + [step];
      ExtendByOne(Then(steps, more[0]), more[1..], step);
    }
  }
}
