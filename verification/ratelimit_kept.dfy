/** What the sweep leaves, in whole numbers: it forgets a key exactly when that has been idle for so long. */
module RateLimitKept {
  import opened Options
  import opened RateLimit
  import opened RateLimitBounds
  import opened RateLimitHistory
  import opened Windows

  /** When a key last called, admitted or not. */
  function LastCall(past: Past, key: Key): Option<int> {
    match past
    case NoPast => None
    case Decided(before, o) => if o.key == key then Some(o.at) else LastCall(before, key)
  }

  /** When a key first called in a second of the clock. */
  function FirstCall(past: Past, key: Key, second: int): Option<int> {
    match past
    case NoPast => None
    case Decided(before, o) =>
      if FirstCall(before, key, second).None? && o.key == key && o.at / 1_000_000_000 == second then Some(o.at)
      else FirstCall(before, key, second)
  }

  predicate Within(t: Option<int>, now: int, span: int) {
    t.Some? && now - t.value <= span
  }

  /** The state and past of a run that goes on, at `now` or later. */
  predicate Ends(alg: Algorithm, events: Events, now: int) {
    Legal(alg, events) && (events.Then? ==> events.last.at <= now)
  }

  // ---- token buckets ----

  predicate TokensKept(run: Run, key: Key, now: int) {
    var m, last := run.state.tokens, LastCall(run.past, key);
    && (key in m ==> last == Some(m[key].lastRefill))
    && (key !in m && last.Some? ==> now - last.value > 600_000_000_000)
  }

  lemma {:induction false} TokensFollow(events: Events, key: Key, now: int)
    requires Ends(TokenBucket, events, now)
    ensures TokensKept(Execute(TokenBucket, events), key, now)
  {
    if events.Then? {
      TokensFollow(events.before, key, events.last.at);
    }
  }

  /** After a tick, a token bucket is kept if and only if its key called within the last ten minutes,
      whatever ticks there were before. */
  lemma TokensKeptExactlyWhen(events: Events, key: Key, now: int)
    requires Ends(TokenBucket, events, now)
    ensures var run := Execute(TokenBucket, Then(events, Tick(now)));
            key in run.state.tokens <==> Within(LastCall(run.past, key), now, 600_000_000_000)
  {
    TokensFollow(events, key, now);
  }

  // ---- fixed windows ----

  predicate FixedKept(run: Run, key: Key, second: int, now: int) {
    var m, first := run.state.fixed, FirstCall(run.past, key, second);
    && (first.Some? ==> first.value / 1_000_000_000 == second && first.value <= now)
    && ((key, second) in m ==> first == Some(m[(key, second)].start))
    && ((key, second) !in m && first.Some? ==> now - first.value > 2_000_000_000)
  }

  lemma {:induction false} FixedFollow(events: Events, key: Key, second: int, now: int)
    requires Ends(FixedWindow, events, now)
    ensures FixedKept(Execute(FixedWindow, events), key, second, now)
  {
    if events.Then? {
      FixedFollow(events.before, key, second, events.last.at);
    }
  }

  /** After a tick, the window of a key and a second is kept if and only if its first call in that second is
      no more than two seconds old. */
  lemma FixedKeptExactlyWhen(events: Events, key: Key, second: int, now: int)
    requires Ends(FixedWindow, events, now)
    ensures var run := Execute(FixedWindow, Then(events, Tick(now)));
            (key, second) in run.state.fixed <==> Within(FirstCall(run.past, key, second), now, 2_000_000_000)
  {
    FixedFollow(events, key, second, now);
  }

  // ---- sliding windows ----

  predicate SlidingKept(run: Run, key: Key, now: int) {
    var m, log := run.state.sliding, Admitted(run.past, key);
    && Sorted(Entries(m, key)) && (key in m ==> m[key] != [] && Last(m[key]) == Last(log))
    && (key !in m && log != [] ==> now - Last(log).value >= 2_000_000_000)
    && Until(log, now)
  }

  lemma CallKeepsSliding(run: Run, key: Key, o: Outcome, now: int)
    requires SlidingKept(run, key, now) && now <= o.at && Callable(SlidingWindow, o.limits)
    requires o.decision == CheckSliding(run.state.sliding, o.key, o.limits, o.at).1
    ensures var m := CheckSliding(run.state.sliding, o.key, o.limits, o.at).0;
            SlidingKept(Run(run.state.(sliding := m), Decided(run.past, o)), key, o.at)
  {
    hide Live, Sorted;
    var m := run.state.sliding;
    if key == o.key {
      PrunedKept(Entries(m, key), Admitted(run.past, key), o.at);
    } else {
      assert Entries(CheckSliding(m, o.key, o.limits, o.at).0, key) == Entries(m, key);
    }
  }

  lemma PrunedKept(entries: seq<int>, log: seq<int>, now: int)
    requires Sorted(entries) && (entries != [] ==> Last(entries) == Last(log)) && Until(entries, now)
    ensures var valid := Live(entries, now - WINDOW);
            && Sorted(valid) && (valid != [] ==> Last(valid) == Last(log))
            && Sorted(valid + [now]) && Last(valid + [now]) == Last(log + [now])
  {
    var valid := Live(entries, now - WINDOW);
    LiveLast(entries, now - WINDOW);
    LiveSorted(entries, now - WINDOW);
    SortedAppend(valid, now);
  }

  lemma TickKeepsSliding(run: Run, key: Key, now: int, tick: int)
    requires SlidingKept(run, key, now) && now <= tick
    ensures SlidingKept(run.(state := Sweep(run.state, tick)), key, tick)
    ensures key in Sweep(run.state, tick).sliding <==> Within(Last(Admitted(run.past, key)), tick, 1_999_999_999)
  {
    LiveLast(Entries(run.state.sliding, key), tick - 2_000_000_000);
    LiveSorted(Entries(run.state.sliding, key), tick - 2_000_000_000);
  }

  lemma {:induction false} SlidingFollow(events: Events, key: Key, now: int)
    requires Ends(SlidingWindow, events, now)
    ensures SlidingKept(Execute(SlidingWindow, events), key, now)
  {
    hide SlidingKept, CheckSliding, Sweep;
    if events.NoEvents? {
      NoneKept(key, now);
    } else {
      var run, e := Execute(SlidingWindow, events.before), events.last;
      SlidingFollow(events.before, key, e.at);
      match e {
        case Tick(tick) =>
          TickKeepsSliding(run, key, tick, tick);
        case Call(called, l, at) =>
          CallKeepsSliding(run, key, Outcome(called, l, at, CheckSliding(run.state.sliding, called, l, at).1), at);
      }
      KeptLater(Execute(SlidingWindow, events), key, e.at, now);
    }
  }

  lemma NoneKept(key: Key, now: int)
    ensures SlidingKept(Run(EMPTY, NoPast), key, now)
  {
  }

  lemma KeptLater(run: Run, key: Key, now: int, later: int)
    requires SlidingKept(run, key, now) && now <= later
    ensures SlidingKept(run, key, later)
  {
  }

  /** After a tick, the timestamps of a key are kept if and only if its last admission is less than two
      seconds old. */
  lemma SlidingKeptExactlyWhen(events: Events, key: Key, now: int)
    requires Ends(SlidingWindow, events, now)
    ensures var run := Execute(SlidingWindow, Then(events, Tick(now)));
            key in run.state.sliding <==> Within(Last(Admitted(run.past, key)), now, 1_999_999_999)
  {
    SlidingFollow(events, key, now);
    TickKeepsSliding(Execute(SlidingWindow, events), key, now, now);
  }
}
