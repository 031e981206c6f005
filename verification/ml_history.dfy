/** The client's breaker read off its history: it opens on five failures in a row, whoever made the attempts. */
module MlHistory {
  import opened MlBreaker
  import opened Options

  // ---- the history ----

  predicate Available(events: Events) {
    match events
    case NoEvents => true
    case Then(before, e) => if e.SetAvailable? then e.value else Available(before)
  }

  /** The last n attempts all failed. */
  predicate InARow(tries: seq<Try>, n: int) {
    n <= |tries| && forall i :: 0 <= i && |tries| - n <= i < |tries| ==> !tries[i].ok
  }

  /** When an attempt last was the fifth failure in a row, or a later one of the same row. */
  function LastFifth(tries: seq<Try>): Option<int> {
    if tries == [] then None
    else if InARow(tries, 5) then Some(tries[|tries| - 1].at)
    else LastFifth(tries[..|tries| - 1])
  }

  /** A call more than thirty seconds after that starts afresh, if the service counts as available. */
  predicate Closes(before: Events, e: Event)
    decreases before, 1
  {
    && e.Enter? && Available(before)
    && LastFifth(Tries(before)).Some? && e.at - LastFifth(Tries(before)).value > 30_000_000_000
  }

  /** The attempts since the breaker last started afresh. */
  function Tries(events: Events): seq<Try>
    decreases events, 0
  {
    match events
    case NoEvents => []
    case Then(before, e) =>
      if Closes(before, e) then []
      else if e.Attempt? then Tries(before) + [Try(e.ok, e.at)]
      else Tries(before)
  }

  // ---- the breaker follows it ----

  ghost predicate CountsRow(failures: int, tries: seq<Try>) {
    forall n :: n >= 0 ==> (failures >= n <==> InARow(tries, n))
  }

  lemma RowAfter(failures: nat, tries: seq<Try>, t: Try)
    requires CountsRow(failures, tries)
    ensures CountsRow(if t.ok then 0 else failures + 1, tries + [t])
  {
    forall n | n >= 0
      ensures (if t.ok then 0 else failures + 1) >= n <==> InARow(tries + [t], n)
    {
      var more := tries + [t];
      assert more[|tries|] == t && forall i :: 0 <= i < |tries| ==> more[i] == tries[i];
      if n >= 1 && InARow(more, n) {
        assert InARow(tries, n - 1);
      } else if n >= 1 && !t.ok {
        assert InARow(tries, n - 1) ==> InARow(more, n);
      }
    }
  }

  lemma LastFifthAfter(failures: nat, tries: seq<Try>, t: Try)
    requires CountsRow(failures, tries)
    ensures LastFifth(tries + [t]) == if !t.ok && failures + 1 >= 5 then Some(t.at) else LastFifth(tries)
  {
    RowAfter(failures, tries, t);
    assert (tries + [t])[..|tries|] == tries;
  }

  ghost predicate Follows(b: Breaker, events: Events) {
    && b.available == Available(events)
    && CountsRow(b.failures, Tries(events))
    && b.open == LastFifth(Tries(events)).Some?
    && (b.open ==> LastFifth(Tries(events)) == Some(b.lastError))
  }

  /** In every run of any callers, the failures counted are the attempts in a row that failed, the breaker is
      open since five of them did, and only a call that waited long enough closes it. */
  lemma {:induction false} FollowsHistory(events: Events, callers: nat, maxRetries: int, start: int)
    requires Run(events, callers, maxRetries, start)
    ensures Follows(After(events, callers, maxRetries, start).b, events)
  {
    hide CountsRow, LastFifth;
    if events.NoEvents? {
      NothingTried();
    } else {
      FollowsHistory(events.before, callers, maxRetries, start);
      NothingTried();
      var b, e := After(events.before, callers, maxRetries, start).b, events.last;
      if e.Attempt? {
        RowAfter(b.failures, Tries(events.before), Try(e.ok, e.at));
        LastFifthAfter(b.failures, Tries(events.before), Try(e.ok, e.at));
        assert Tries(events) == Tries(events.before) + [Try(e.ok, e.at)];
      } else if Closes(events.before, e) {
        assert Tries(events) == [];
      } else {
        assert Tries(events) == Tries(events.before);
      }
    }
  }

  lemma NothingTried()
    ensures CountsRow(0, []) && LastFifth([]) == None
  {
  }

  /** A call is let in if and only if the service counts as available and, since the breaker last started afresh,
      no five attempts in a row failed, or the last to do so did more than thirty seconds ago. */
  lemma LetInExactlyWhen(events: Events, callers: nat, maxRetries: int, start: int, now: int)
    requires Run(events, callers, maxRetries, start)
    ensures var last := LastFifth(Tries(events));
            Check(After(events, callers, maxRetries, start).b, now).1 <==>
              Available(events) && (last.Some? ==> now - last.value > 30_000_000_000)
  {
    FollowsHistory(events, callers, maxRetries, start);
  }
}
