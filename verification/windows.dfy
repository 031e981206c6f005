/** Timestamp windows, shared by the rate limiters, the flood detector and the velocity check.
    Times are integers in nanoseconds. */
module Windows {
  import opened Options

  predicate Sorted(ts: seq<int>) {
    |ts| <= 1 || (Sorted(ts[..|ts| - 1]) && ts[|ts| - 2] <= ts[|ts| - 1])
  }

  lemma {:induction false} SortedAt(ts: seq<int>, i: nat, j: nat)
    requires Sorted(ts) && i <= j < |ts|
    ensures ts[i] <= ts[j]
  {
    var n := |ts| - 1;
    if j < n {
      SortedAt(ts[..n], i, j);
    } else if i < j {
      SortedAt(ts[..n], i, n - 1);
    }
  }

  /** Nothing later than `now`. */
  predicate Until(ts: seq<int>, now: int) {
    ts != [] ==> ts[|ts| - 1] <= now
  }

  /** The timestamps strictly after `cutoff`, in their order. */
  function Live(ts: seq<int>, cutoff: int): (r: seq<int>)
    ensures |r| <= |ts|
  {
    if ts == [] then [] else
      var last := ts[|ts| - 1];
      Live(ts[..|ts| - 1], cutoff) + if last > cutoff then [last] else []
  }

  /** How many timestamps t satisfy lo < t <= hi. */
  function Count(ts: seq<int>, lo: int, hi: int): nat {
    if ts == [] then 0 else
      Count(ts[..|ts| - 1], lo, hi) + if lo < ts[|ts| - 1] <= hi then 1 else 0
  }

  lemma LiveAppend(ts: seq<int>, t: int, cutoff: int)
    ensures Live(ts + [t], cutoff) == Live(ts, cutoff) + if t > cutoff then [t] else []
  {
    assert (ts + [t])[..|ts|] == ts;
  }

  /** Pruning at an early cutoff is forgotten by pruning again at a later one. */
  lemma {:induction false} LiveTwice(ts: seq<int>, early: int, late: int)
    requires early <= late
    ensures Live(Live(ts, early), late) == Live(ts, late)
  {
    if ts != [] {
      var init, last := ts[..|ts| - 1], ts[|ts| - 1];
      LiveTwice(init, early, late);
      if last > early {
        LiveAppend(Live(init, early), last, late);
      } else {
        assert Live(ts, early) == Live(init, early);
      }
    }
  }

  /** Two lists that agree after an early cutoff agree after a later one. */
  lemma LiveAgree(a: seq<int>, b: seq<int>, early: int, late: int)
    requires early <= late && Live(a, early) == Live(b, early)
    ensures Live(a, late) == Live(b, late)
  {
    LiveTwice(a, early, late);
    LiveTwice(b, early, late);
  }

  lemma {:induction false} LiveNone(ts: seq<int>, cutoff: int)
    requires Sorted(ts) && Until(ts, cutoff)
    ensures Live(ts, cutoff) == []
  {
    if ts != [] {
      LiveNone(ts[..|ts| - 1], cutoff);
    }
  }

  lemma {:induction false} LiveSorted(ts: seq<int>, cutoff: int)
    requires Sorted(ts)
    ensures Sorted(Live(ts, cutoff))
    ensures forall now :: Until(ts, now) ==> Until(Live(ts, cutoff), now)
  {
    if ts != [] {
      var init, last := ts[..|ts| - 1], ts[|ts| - 1];
      LiveSorted(init, cutoff);
      SortedAppend(Live(init, cutoff), last);
      assert Live(init, cutoff) + [] == Live(init, cutoff);
    }
  }

  function Last(ts: seq<int>): Option<int> {
    if ts == [] then None else Some(ts[|ts| - 1])
  }

  lemma {:induction false} LiveLast(ts: seq<int>, cutoff: int)
    requires Sorted(ts)
    ensures Last(Live(ts, cutoff)) == if Last(ts).Some? && Last(ts).value > cutoff then Last(ts) else None
  {
    if ts != [] {
      LiveLast(ts[..|ts| - 1], cutoff);
    }
  }

  lemma SortedAppend(ts: seq<int>, t: int)
    requires Sorted(ts) && Until(ts, t)
    ensures Sorted(ts + [t])
  {
    assert (ts + [t])[..|ts|] == ts;
  }

  /** A half-open window holds at most what is live after an earlier cutoff. */
  lemma {:induction false} CountAtMostLive(ts: seq<int>, cutoff: int, lo: int, hi: int)
    requires cutoff <= lo
    ensures Count(ts, lo, hi) <= |Live(ts, cutoff)|
  {
    if ts != [] {
      CountAtMostLive(ts[..|ts| - 1], cutoff, lo, hi);
    }
  }

  /** What is live is what the window up to now holds. */
  lemma {:induction false} LiveIsCount(ts: seq<int>, cutoff: int, now: int)
    requires Sorted(ts) && Until(ts, now)
    ensures |Live(ts, cutoff)| == Count(ts, cutoff, now)
  {
    if ts != [] {
      LiveIsCount(ts[..|ts| - 1], cutoff, now);
    }
  }

  lemma {:induction false} CountAppend(ts: seq<int>, t: int, lo: int, hi: int)
    ensures Count(ts + [t], lo, hi) == Count(ts, lo, hi) + if lo < t <= hi then 1 else 0
  {
    assert (ts + [t])[..|ts|] == ts;
  }

  /** The entries of a sorted list in (lo, hi] are consecutive. */
  lemma {:induction false} CountedRange(ts: seq<int>, lo: int, hi: int) returns (i: nat, j: nat)
    requires Sorted(ts) && Count(ts, lo, hi) > 0
    ensures i <= j < |ts| && lo < ts[i] && ts[j] <= hi
    ensures Count(ts, lo, hi) == j - i + 1
  {
    var n := |ts| - 1;
    var init := ts[..n];
    if lo < ts[n] <= hi {
      if Count(init, lo, hi) == 0 {
        i, j := n, n;
      } else {
        i, j := CountedRange(init, lo, hi);
        CountRun(init, i, lo, hi);
        j := n;
      }
    } else {
      i, j := CountedRange(init, lo, hi);
    }
  }

  lemma {:induction false} CountRun(ts: seq<int>, i: nat, lo: int, hi: int)
    requires Sorted(ts) && i < |ts| && lo < ts[i] && Until(ts, hi)
    ensures Count(ts, lo, hi) >= |ts| - i
  {
    SortedAt(ts, i, |ts| - 1);
    if i < |ts| - 1 {
      CountRun(ts[..|ts| - 1], i, lo, hi);
    }
  }

  // ---- the full-history sliding window ----

  /** A sliding window that never forgets: a call at `now` is admitted iff fewer than `limit`
      admitted calls lie in the last `window`. */
  predicate Admits(log: seq<int>, now: int, window: int, limit: int) {
    |Live(log, now - window)| < limit
  }

  /** The admitted calls among `calls`, keeping the whole history. */
  function AdmittedLog(calls: seq<int>, window: int, limit: int): (log: seq<int>) {
    if calls == [] then [] else
      var now := calls[|calls| - 1];
      var before := AdmittedLog(calls[..|calls| - 1], window, limit);
      if Admits(before, now, window, limit) then before + [now] else before
  }

  /** How many timestamps the half-open window (end - window, end] holds. */
  function InWindow(ts: seq<int>, end: int, window: int): nat {
    Count(ts, end - window, end)
  }

  /** One more admitted call keeps every window within the limit. */
  lemma {:induction false} WindowStep(log: seq<int>, now: int, window: int, limit: nat)
    requires forall end :: InWindow(log, end, window) <= limit
    requires Admits(log, now, window, limit)
    ensures forall end :: InWindow(log + [now], end, window) <= limit
  {
    forall end ensures InWindow(log + [now], end, window) <= limit {
      CountAppend(log, now, end - window, end);
      assert InWindow(log, end, window) <= limit;
      if end - window < now <= end {
        CountAtMostLive(log, now - window, end - window, end);
      }
    }
  }

  /** No window of length `window`, wherever it ends, holds more than `limit` admitted calls. */
  lemma {:induction false} NoWindowExceedsLimit(calls: seq<int>, window: int, limit: nat)
    ensures forall end :: InWindow(AdmittedLog(calls, window, limit), end, window) <= limit
  {
    if calls != [] {
      var init, now := calls[..|calls| - 1], calls[|calls| - 1];
      var before := AdmittedLog(init, window, limit);
      NoWindowExceedsLimit(init, window, limit);
      if Admits(before, now, window, limit) {
        WindowStep(before, now, window, limit);
      }
    }
  }

  /** The pruning loop: collect the live timestamps in order. */
  method Prune(ts: seq<int>, cutoff: int) returns (valid: seq<int>)
    ensures valid == Live(ts, cutoff)
  {
    valid := [];
    for i := 0 to |ts|
      invariant valid == Live(ts[..i], cutoff)
    {
      assert ts[..i + 1][..i] == ts[..i];
      if ts[i] > cutoff {
        valid := valid + [ts[i]];
      }
    }
    assert ts[..|ts|] == ts;
  }
}
