/** The manager object, as a single thread drives it between other threads' steps. Its history is a run of
    the interleaved steps, so whatever holds of all runs holds of it. */
module SiemManager {
  import opened Siem

  /** What the flush loop does from its ticker on. */
  ghost predicate LoopStep(step: Step) {
    step.Tick? || (Internal(step) && !step.Signal? && !step.Receive?)
  }

  ghost predicate LoopSteps(steps: seq<Step>) {
    forall step :: step in steps ==> LoopStep(step)
  }

  lemma NoStepsYet()
    ensures LoopSteps([])
  {
  }

  class Manager {
    const config: Config
    var buffer: seq<Event>
    var flushCh: bool
    var delivered: map<Exporter, seq<Event>>
    ghost var appended: seq<Event>
    ghost var history: Steps

    constructor (config: Config)
      ensures Valid() && this.config == config && history == Start && View() == Initial(config)
    {
      this.config := config;
      buffer, flushCh, appended, history := [], false, [], Start;
      delivered := map x | x in config.exporters :: [];
    }

    /** The shared state while no other thread is inside a section and Close has not been called. */
    ghost function View(): State
      reads this
    {
      State(buffer, flushCh, {}, Waiting, Waiting, false, delivered, appended, false)
    }

    /** The history has led to this state of the flush loop and, for the rest, to the fields. */
    ghost predicate At(loop: Flusher)
      reads this
    {
      Siem.Valid(config, history) && Execute(config, history) == View().(loop := loop)
    }

    ghost predicate Valid()
      reads this
    {
      At(Waiting)
    }

    /** The locked part of Send, then the non-blocking send on the flush channel: the Append step and,
        when it asks for one, the Signal step. */
    method Send(event: Event)
      requires Valid()
      modifies this`buffer, this`flushCh, this`appended, this`history
      ensures Valid()
      ensures var sent := Then(old(history), Append(Sender(0), event));
              history == if |buffer| >= config.batchSize then Then(sent, Signal(Sender(0))) else sent
      ensures buffer == old(buffer) + [event]
      ensures flushCh == (old(flushCh) || |buffer| >= config.batchSize)
      ensures appended == old(appended) + [event]
    {
      buffer := buffer + [event];
      appended := appended + [event];
      history := Then(history, Append(Sender(0), event));
      var shouldFlush := |buffer| >= config.batchSize;
      if shouldFlush {
        history := Then(history, Signal(Sender(0)));
        if !flushCh {
          flushCh := true;
        }
      }
    }

    method SendBatch(events: seq<Event>)
      requires Valid()
      modifies this`buffer, this`flushCh, this`appended, this`history
      ensures Valid()
      ensures buffer == old(buffer) + events && appended == old(appended) + events
      ensures flushCh == (old(flushCh) || (events != [] && |buffer| >= config.batchSize))
    {
      for i := 0 to |events|
        invariant Valid()
        invariant buffer == old(buffer) + events[..i] && appended == old(appended) + events[..i]
        invariant flushCh == (old(flushCh) || (i > 0 && |buffer| >= config.batchSize))
      {
        assert events[..i + 1] == events[..i] + [events[i]];
        Send(events[i]);
      }
      assert events[..|events|] == events;
    }

    /** Takes the buffer and hands it to every exporter, in whatever order the map yields them: the steps
        of the flush loop from its ticker on. */
    method Flush() returns (ghost trace: seq<Step>)
      requires Valid()
      modifies this`buffer, this`delivered, this`history
      ensures Valid() && LoopSteps(trace) && history == Extend(old(history), trace)
      ensures buffer == [] && delivered.Keys == config.exporters
      ensures forall x :: x in old(delivered) && x in delivered ==> delivered[x] == old(delivered[x]) + old(buffer)
    {
      hide Execute, Siem.Valid, LoopSteps, Extend;
      RunKeepsInv(config, history);
      ExtendByNone(history);
      NoStepsYet();
      trace := Take(Tick, [], history);
      trace := Take(Swap(Loop), trace, old(history));
      if |buffer| == 0 {
        assert forall x :: x in delivered ==> delivered[x] + [] == delivered[x];
        return;
      }
      var events := buffer;
      buffer := [];
      trace := ExportAll(events, trace, old(history));
      trace := Take(Finish(Loop), trace, old(history));
    }

    /** The loop over the exporters. */
    method ExportAll(events: seq<Event>, ghost before: seq<Step>, ghost start: Steps)
      returns (ghost trace: seq<Step>)
      requires delivered.Keys == config.exporters && At(Exporting(events, config.exporters))
      requires LoopSteps(before) && history == Extend(start, before)
      modifies this`delivered, this`history
      ensures delivered.Keys == config.exporters && At(Exporting(events, {}))
      ensures LoopSteps(trace) && history == Extend(start, trace)
      ensures forall x :: x in delivered ==> delivered[x] == old(delivered[x]) + events
    {
      hide Execute, Siem.Valid, LoopSteps, Extend;
      trace := before;
      var todo := config.exporters;
      while todo != {}
        invariant todo <= config.exporters == delivered.Keys
        invariant At(Exporting(events, todo))
        invariant LoopSteps(trace) && history == Extend(start, trace)
        invariant forall x :: x in delivered ==>
                    delivered[x] == if x in todo then old(delivered[x]) else old(delivered[x]) + events
        decreases |todo|
      {
        var x :| x in todo;
        trace := Take(Export(Loop, x), trace, start);
        delivered := delivered[x := delivered[x] + events];
        todo := todo - {x};
      }
    }

    /** One more step of the history, which goes on from `start` by the steps so far. */
    ghost method Take(step: Step, trace: seq<Step>, start: Steps) returns (more: seq<Step>)
      requires Siem.Valid(config, history) && Enabled(config, Execute(config, history), step)
      requires LoopStep(step) && LoopSteps(trace) && history == Extend(start, trace)
      modifies this`history
      ensures Siem.Valid(config, history) && Execute(config, history) == Apply(config, old(Execute(config, history)), step)
      ensures more == trace + [step] && LoopSteps(more) && history == Extend(start, more)
    {
      ExtendByOne(start, trace, step);
      history := Then(history, step);
      more := trace + [step];
    }
  }
}
