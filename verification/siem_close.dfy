/** What closing the SIEM manager delivers, loses and reorders. */
module SiemClose {
  import opened Siem

  predicate Quiescent(s: State) {
    s.done && s.closer.Gone? && !s.loop.Exporting?
  }

  predicate NoSends(steps: seq<Step>) {
    forall step :: step in steps ==> !step.Append?
  }

  ghost predicate AllDelivered(c: Config, s: State) {
    forall x :: x in c.exporters ==> x in s.delivered && multiset(s.delivered[x]) == multiset(s.appended)
  }

  // ---- what is delivered ----

  /** The events sent since a thread last took the buffer. */
  function SentSinceSwap(steps: Steps): seq<Event> {
    match steps
    case Start => []
    case Then(before, Append(_, e)) => SentSinceSwap(before) + [e]
    case Then(_, Swap(_)) => []
    case Then(before, _) => SentSinceSwap(before)
  }

  lemma {:induction false} BufferIsSinceSwap(c: Config, steps: Steps)
    requires Valid(c, steps)
    ensures Execute(c, steps).buffer == SentSinceSwap(steps)
  {
    if steps.Then? {
      BufferIsSinceSwap(c, steps.before);
    }
  }

  /** Once closing is over and nothing is in flight, every exporter has been handed every event exactly
      once if and only if nothing was sent since a thread last took the buffer; in particular if nothing
      was sent after the closing flush took it. */
  lemma CloseDeliversAllExactlyWhen(c: Config, steps: Steps)
    requires Valid(c, steps) && c.exporters != {} && Quiescent(Execute(c, steps))
    ensures AllDelivered(c, Execute(c, steps)) <==> SentSinceSwap(steps) == []
    ensures !Execute(c, steps).late ==> SentSinceSwap(steps) == []
  {
    RunKeepsInv(c, steps);
    BufferIsSinceSwap(c, steps);
    forall x | x in c.exporters
      ensures x in Execute(c, steps).delivered
      ensures multiset(Execute(c, steps).delivered[x]) == multiset(Execute(c, steps).appended)
              <==> Execute(c, steps).buffer == []
    {
      DeliveredWhenEmpty(c, Execute(c, steps), x);
    }
  }

  lemma DeliveredWhenEmpty(c: Config, s: State, x: Exporter)
    requires Inv(c, s) && x in c.exporters && InFlight(s.loop, x) == [] && InFlight(s.closer, x) == []
    ensures x in s.delivered && (multiset(s.delivered[x]) == multiset(s.appended) <==> s.buffer == [])
  {
    assert Laws(s, x);
    if s.buffer != [] {
      assert |multiset(s.appended)| == |multiset(s.delivered[x])| + |s.buffer|;
    }
  }

  // ---- what is lost for good ----

  /** With both threads gone nothing is delivered any more, whatever happens. */
  lemma {:induction false} NothingMoves(c: Config, steps: Steps, more: seq<Step>)
    requires Valid(c, steps) && Valid(c, Extend(steps, more))
    requires var s := Execute(c, steps); s.done && s.loop.Gone? && s.closer.Gone?
    ensures Execute(c, Extend(steps, more)).delivered == Execute(c, steps).delivered
    ensures var s := Execute(c, Extend(steps, more)); s.done && s.loop.Gone? && s.closer.Gone?
    ensures NoSends(more) ==> Execute(c, Extend(steps, more)).appended == Execute(c, steps).appended
    decreases |more|
  {
    if more != [] {
      ExtendValid(c, Then(steps, more[0]), more[1..]);
      NothingMoves(c, Then(steps, more[0]), more[1..]);
    }
  }

  /** The loop, holding the last batch, hands it to the exporters that wait for it. */
  lemma {:induction false} ExportRest(c: Config, steps: Steps) returns (more: seq<Step>)
    requires Valid(c, steps)
    requires var s := Execute(c, steps); s.loop.Exporting? && s.closer.Gone? && s.buffer == []
    ensures NoSends(more) && Valid(c, Extend(steps, more)) && AllDelivered(c, Execute(c, Extend(steps, more)))
    decreases |Execute(c, steps).loop.todo|
  {
    hide Inv, Apply, Enabled, AllDelivered;
    RunKeepsInv(c, steps);
    var s := Execute(c, steps);
    if s.loop.todo == {} {
      more := [];
      NothingInFlight(c, s);
    } else {
      var x :| x in s.loop.todo;
      ExportOne(c, s, x);
      var rest := ExportRest(c, Then(steps, Export(Loop, x)));
      more := [Export(Loop, x)] + rest;
      assert more[1..] == rest;
    }
  }

  lemma NothingInFlight(c: Config, s: State)
    requires Inv(c, s) && s.loop.Exporting? && s.loop.todo == {} && s.closer.Gone? && s.buffer == []
    ensures AllDelivered(c, s)
  {
    forall x | x in c.exporters
      ensures x in s.delivered && multiset(s.delivered[x]) == multiset(s.appended)
    {
      DeliveredWhenEmpty(c, s, x);
    }
  }

  lemma ExportOne(c: Config, s: State, x: Exporter)
    requires Inv(c, s) && s.loop.Exporting? && x in s.loop.todo && s.closer.Gone? && s.buffer == []
    ensures Enabled(c, s, Export(Loop, x))
    ensures var s' := Apply(c, s, Export(Loop, x));
            s'.loop.Exporting? && s'.closer.Gone? && s'.buffer == [] && |s'.loop.todo| < |s.loop.todo|
  {
    assert |s.loop.todo - {x}| == |s.loop.todo| - 1;
  }

  /** The loop, still there, takes the buffer and hands it out. */
  lemma DrainAfterClose(c: Config, steps: Steps) returns (more: seq<Step>)
    requires Valid(c, steps) && Quiescent(Execute(c, steps)) && Execute(c, steps).buffer != []
    requires !Execute(c, steps).loop.Gone?
    ensures NoSends(more) && Valid(c, Extend(steps, more)) && AllDelivered(c, Execute(c, Extend(steps, more)))
  {
    var s := Execute(c, steps);
    if s.loop.Waiting? {
      var woken := Then(steps, Tick);
      var rest := ExportRest(c, Then(woken, Swap(Loop)));
      more := [Tick, Swap(Loop)] + rest;
      assert more[1..][1..] == rest;
    } else {
      var rest := ExportRest(c, Then(steps, Swap(Loop)));
      more := [Swap(Loop)] + rest;
      assert more[1..] == rest;
    }
  }

  /** Events left in the buffer after closing can still be delivered if and only if the flush loop has
      not left yet: it may serve its ticker or a pending signal before it sees that it is to stop. */
  lemma LeftoverDeliverableExactlyWhen(c: Config, steps: Steps)
    requires Valid(c, steps) && c.exporters != {}
    requires Quiescent(Execute(c, steps)) && Execute(c, steps).buffer != []
    ensures !Execute(c, steps).loop.Gone? <==>
            exists more :: NoSends(more) && Valid(c, Extend(steps, more))
                           && AllDelivered(c, Execute(c, Extend(steps, more)))
  {
    var s := Execute(c, steps);
    if s.loop.Gone? {
      RunKeepsInv(c, steps);
      var x :| x in c.exporters;
      DeliveredWhenEmpty(c, s, x);
      forall more | NoSends(more) && Valid(c, Extend(steps, more))
        ensures !AllDelivered(c, Execute(c, Extend(steps, more)))
      {
        NothingMoves(c, steps, more);
      }
    } else {
      var more := DrainAfterClose(c, steps);
    }
  }

  /** A run after which an event that was sent is never delivered: the loop left before it was sent. */
  lemma SentTooLate(x: Exporter) returns (c: Config, steps: Steps)
    ensures x in c.exporters && c.batchSize >= 1 && Valid(c, steps) && Execute(c, steps).appended != []
    ensures forall more :: Valid(c, Extend(steps, more)) ==>
              var s := Execute(c, Extend(steps, more)); x in s.delivered && s.delivered[x] == []
  {
    c := Config(10, {x});
    var s;
    steps, s := Run(c, Start, Initial(c), Close);
    steps, s := Run(c, steps, s, Swap(Closer));
    steps, s := Run(c, steps, s, Exit);
    steps, s := Run(c, steps, s, Append(Sender(0), Event("late")));
    forall more | Valid(c, Extend(steps, more))
      ensures Execute(c, Extend(steps, more)).delivered == s.delivered
    {
      NothingMoves(c, steps, more);
    }
  }

  // ---- order ----

  /** What an exporter has, what the loop and the closing caller hold for it, and the buffer. */
  datatype Pieces = Pieces(delivered: seq<Event>, loop: seq<Event>, closer: seq<Event>, buffer: seq<Event>)

  function PiecesOf(s: State, x: Exporter): Pieces
    requires x in s.delivered
  {
    Pieces(s.delivered[x], InFlight(s.loop, x), InFlight(s.closer, x), s.buffer)
  }

  /** How one step that sends nothing can move the pieces. */
  predicate Moves(p: Pieces, q: Pieces) {
    || q == p
    || q == Pieces(p.delivered + p.loop, [], p.closer, p.buffer)
    || q == Pieces(p.delivered + p.closer, p.loop, [], p.buffer)
    || (p.loop == [] && q == Pieces(p.delivered, p.buffer, p.closer, []))
    || (p.closer == [] && q == Pieces(p.delivered, p.loop, p.buffer, []))
  }

  lemma StepMoves(c: Config, s: State, step: Step, x: Exporter)
    requires Shape(c, s) && x in c.exporters && Enabled(c, s, step) && !step.Append?
    ensures x in Apply(c, s, step).delivered && Moves(PiecesOf(s, x), PiecesOf(Apply(c, s, step), x))
    ensures Apply(c, s, step).appended == s.appended
  {
    var s' := Apply(c, s, step);
    match step
    case Export(Loop, y) => {
      if y != x {
        assert PiecesOf(s', x) == PiecesOf(s, x);
      }
    }
    case Export(Closer, y) => {
      if y != x {
        assert PiecesOf(s', x) == PiecesOf(s, x);
      }
    }
    case Swap(Loop) => {
      assert s.buffer == [] ==> PiecesOf(s', x) == PiecesOf(s, x);
    }
    case Swap(Closer) => {
      assert s.buffer == [] ==> PiecesOf(s', x) == PiecesOf(s, x);
    }
    case _ => {}
  }

  /** Where the batch l that the loop held, and the buffer b, can have got to when Close began with d
      delivered. */
  predicate Within(p: Pieces, d: seq<Event>, l: seq<Event>, b: seq<Event>) {
    || p == Pieces(d, l, [], b)
    || p == Pieces(d, l, b, [])
    || p == Pieces(d + l, [], [], b)
    || p == Pieces(d + l, [], b, [])
    || p == Pieces(d + l, b, [], [])
    || p == Pieces(d + b, l, [], [])
    || p == Pieces(d + l + b, [], [], [])
    || p == Pieces(d + b + l, [], [], [])
  }

  lemma MoveStaysWithin(p: Pieces, q: Pieces, d: seq<Event>, l: seq<Event>, b: seq<Event>)
    requires Within(p, d, l, b) && Moves(p, q)
    ensures Within(q, d, l, b)
  {
    assert d + [] == d && d + l + [] == d + l && d + b + [] == d + b;
    assert d + l + b + [] == d + l + b && d + b + l + [] == d + b + l;
  }

  lemma {:induction false} RunStaysWithin(c: Config, steps: Steps, more: seq<Step>, x: Exporter,
                                          d: seq<Event>, l: seq<Event>, b: seq<Event>)
    requires Valid(c, steps) && Valid(c, Extend(steps, more)) && NoSends(more)
    requires x in c.exporters && x in Execute(c, steps).delivered && Within(PiecesOf(Execute(c, steps), x), d, l, b)
    ensures var s := Execute(c, Extend(steps, more));
            x in s.delivered && Within(PiecesOf(s, x), d, l, b) && s.appended == Execute(c, steps).appended
    decreases |more|
  {
    hide Within, Moves, PiecesOf;
    if more != [] {
      var s := Execute(c, steps);
      RunKeepsInv(c, steps);
      ExtendValid(c, Then(steps, more[0]), more[1..]);
      StepMoves(c, s, more[0], x);
      MoveStaysWithin(PiecesOf(s, x), PiecesOf(Apply(c, s, more[0]), x), d, l, b);
      RunStaysWithin(c, Then(steps, more[0]), more[1..], x, d, l, b);
    }
  }

  lemma WithinIsPrefix(p: Pieces, d: seq<Event>, l: seq<Event>, b: seq<Event>)
    requires Within(p, d, l, b) && l + b == b + l
    ensures p.delivered <= d + l + b
  {
    assert d + l + b == d + (l + b) == d + (b + l) == d + b + l;
  }

  ghost predicate InOrder(s: State, x: Exporter) {
    x in s.delivered && s.delivered[x] <= s.appended
  }

  /** Closing keeps the order of what an exporter is handed, in every continuation without new sends, if
      and only if the batch that the loop holds for it and the buffer read the same in either order: when
      one of them is empty, above all. */
  lemma OrderKeptExactlyWhen(c: Config, steps: Steps, x: Exporter)
    requires Valid(c, steps) && x in c.exporters && !Execute(c, steps).done
    ensures var s := Execute(c, steps);
            InFlight(s.loop, x) + s.buffer == s.buffer + InFlight(s.loop, x) <==>
            forall more :: NoSends(more) && Valid(c, Extend(Then(steps, Close), more)) ==>
              InOrder(Execute(c, Extend(Then(steps, Close), more)), x)
  {
    RunKeepsInv(c, steps);
    var s := Execute(c, steps);
    assert Laws(s, x);
    var d, l, b := s.delivered[x], InFlight(s.loop, x), s.buffer;
    var closing := Then(steps, Close);
    if l + b == b + l {
      forall more | NoSends(more) && Valid(c, Extend(closing, more))
        ensures InOrder(Execute(c, Extend(closing, more)), x)
      {
        RunStaysWithin(c, closing, more, x, d, l, b);
        WithinIsPrefix(PiecesOf(Execute(c, Extend(closing, more)), x), d, l, b);
      }
    } else {
      var more := Reorder(c, steps, x);
    }
  }

  /** The closing caller overtakes the loop. */
  lemma Reorder(c: Config, steps: Steps, x: Exporter) returns (more: seq<Step>)
    requires Valid(c, steps) && x in c.exporters && !Execute(c, steps).done
    requires var s := Execute(c, steps); InFlight(s.loop, x) + s.buffer != s.buffer + InFlight(s.loop, x)
    ensures NoSends(more) && Valid(c, Extend(Then(steps, Close), more))
    ensures !InOrder(Execute(c, Extend(Then(steps, Close), more)), x)
  {
    RunKeepsInv(c, steps);
    var s := Execute(c, steps);
    assert Laws(s, x);
    var d, l, b := s.delivered[x], InFlight(s.loop, x), s.buffer;
    NotCommuting(l, b);
    var s' := Overtaken(c, s, x);
    var end;
    end, s := Run(c, steps, s, Close);
    end, s := Run(c, end, s, Swap(Closer));
    end, s := Run(c, end, s, Export(Closer, x));
    end, s := Run(c, end, s, Export(Loop, x));
    more := [Swap(Closer), Export(Closer, x), Export(Loop, x)];
    ExtendByThree(Then(steps, Close), Swap(Closer), Export(Closer, x), Export(Loop, x));
    NotPrefix(d, l, b);
  }

  lemma Overtaken(c: Config, s: State, x: Exporter) returns (s': State)
    requires Shape(c, s) && !s.done && x in c.exporters && InFlight(s.loop, x) != [] && s.buffer != []
    ensures var s1 := Apply(c, s, Close);
            && Enabled(c, s1, Swap(Closer))
            && var s2 := Apply(c, s1, Swap(Closer));
               && Enabled(c, s2, Export(Closer, x))
               && var s3 := Apply(c, s2, Export(Closer, x));
                  Enabled(c, s3, Export(Loop, x)) && s' == Apply(c, s3, Export(Loop, x))
    ensures x in s'.delivered && s'.delivered[x] == s.delivered[x] + s.buffer + InFlight(s.loop, x)
    ensures s'.appended == s.appended
  {
    var s1 := Apply(c, s, Close);
    var s2 := Apply(c, s1, Swap(Closer));
    var s3 := Apply(c, s2, Export(Closer, x));
    s' := Apply(c, s3, Export(Loop, x));
  }

  lemma NotCommuting(l: seq<Event>, b: seq<Event>)
    requires l + b != b + l
    ensures l != [] && b != []
  {
    assert [] + b == b + [] && l + [] == [] + l;
  }

  lemma NotPrefix(d: seq<Event>, l: seq<Event>, b: seq<Event>)
    requires l + b != b + l
    ensures !(d + b + l <= d + l + b)
  {
    var p, q := d + b + l, d + l + b;
    assert p[|d|..] == b + l && q[|d|..] == l + b && |p| == |q|;
  }

  lemma ExtendByThree(steps: Steps, a: Step, b: Step, c: Step)
    ensures Extend(steps, [a, b, c]) == Then(Then(Then(steps, a), b), c)
  {
    assert [a, b, c][1..] == [b, c] && [b, c][1..] == [c] && [c][1..] == [];
    assert Extend(Then(steps, a), [b, c]) == Extend(Then(Then(steps, a), b), [c]);
    assert Extend(Then(Then(steps, a), b), [c]) == Extend(Then(Then(Then(steps, a), b), c), []);
  }

  /** With a batch in flight, closing may deliver a later event before an earlier one. */
  lemma CloseMayReorder(x: Exporter, first: Event, second: Event) returns (c: Config, steps: Steps)
    requires first != second
    ensures x in c.exporters && c.batchSize >= 1 && Valid(c, steps)
    ensures var s := Execute(c, steps);
            s.appended == [first, second] && x in s.delivered && s.delivered[x] == [second, first]
  {
    c := Config(10, {x});
    var s;
    steps, s := Run(c, Start, Initial(c), Append(Sender(0), first));
    steps, s := Run(c, steps, s, Tick);
    steps, s := Run(c, steps, s, Swap(Loop));
    steps, s := Run(c, steps, s, Append(Sender(0), second));
    steps, s := Run(c, steps, s, Close);
    steps, s := Run(c, steps, s, Swap(Closer));
    steps, s := Run(c, steps, s, Export(Closer, x));
    steps, s := Run(c, steps, s, Export(Loop, x));
  }
}
