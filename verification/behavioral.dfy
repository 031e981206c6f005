/** The velocity check's sliding window, compacted in place. */
module Behavioral {
  import opened Time
  import opened Windows

  /** A slice of a fixed backing array: `times[..len]`. */
  class VelocityWindow {
    const times: array<int>
    const window: int
    var len: nat

    constructor (window: int, max: nat)
      ensures Valid() && fresh(times) && Contents() == []
      ensures this.window == window && times.Length == max
    {
      this.window := window;
      times := new int[max];
      len := 0;
    }

    predicate Valid()
      reads this
    {
      len <= times.Length
    }

    function Contents(): seq<int>
      requires Valid()
      reads this, times
    {
      times[..len]
    }

    /** The live entries do not fill the backing array yet. */
    predicate HasRoom(now: int)
      requires Valid()
      reads this, times
    {
      |Live(Contents(), now - window)| < times.Length
    }

    /** Compacts the live entries to the front, appends `now`, and counts what is left. Without room for
        one more it fails, slicing past the array, and the entries stay as they were. */
    method Add(now: int) returns (ok: bool, count: nat)
      requires Valid()
      modifies this, times
      ensures Valid() && ok == old(HasRoom(now))
      ensures ok ==> Contents() == Live(old(Contents()), now - window) + [now] && count == |Contents()|
      ensures !ok ==> Contents() == old(Contents())
    {
      var cutoff := now - window;
      ghost var was := Contents();
      var j := 0;
      for i := 0 to len
        invariant len == old(len)
        invariant 0 <= j <= i
        invariant times[..j] == Live(was[..i], cutoff)
        invariant times[i..len] == was[i..]
      {
        assert was[..i + 1][..i] == was[..i];
        assert times[i] == times[i..len][0] == was[i];
        var t := times[i];
        assert times[i + 1..len] == times[i..len][1..];
        if t > cutoff {
          times[j] := t;
          j := j + 1;
        }
      }
      assert was[..len] == was;
      if j == times.Length {
        AllLive(was, cutoff);
        return false, 0;
      }
      len := j + 1;
      times[j] := now;
      return true, len;
    }
  }

  lemma {:induction false} AllLive(ts: seq<int>, cutoff: int)
    requires |Live(ts, cutoff)| == |ts|
    ensures Live(ts, cutoff) == ts
  {
    if ts != [] {
      AllLive(ts[..|ts| - 1], cutoff);
    }
  }

  // ---- a whole run of one window ----

  /** What repeated calls of Add leave, the last of them at the last time. */
  function Pruned(calls: seq<int>, window: int): seq<int> {
    if calls == [] then [] else
      var now := calls[|calls| - 1];
      Live(Pruned(calls[..|calls| - 1], window), now - window) + [now]
  }

  /** Did every call find room in a backing array of this capacity? */
  predicate Fits(calls: seq<int>, window: int, capacity: nat) {
    calls == [] ||
    (&& Fits(calls[..|calls| - 1], window, capacity)
     && |Live(Pruned(calls[..|calls| - 1], window), calls[|calls| - 1] - window)| < capacity)
  }

  lemma PruneStep(calls: seq<int>, window: int)
    requires Sorted(calls) && |calls| > 1 && window > 0
    requires var init := calls[..|calls| - 1];
             Pruned(init, window) == Live(init, calls[|calls| - 2] - window)
    ensures Pruned(calls, window) == Live(calls, calls[|calls| - 1] - window)
  {
    var n := |calls| - 1;
    LiveTwice(calls[..n], calls[n - 1] - window, calls[n] - window);
  }

  /** Pruning on every call loses nothing: the window holds exactly the calls of the last `window`. */
  lemma {:induction false} PrunedIsRecentHistory(calls: seq<int>, window: int)
    requires Sorted(calls) && calls != [] && window > 0
    ensures Pruned(calls, window) == Live(calls, calls[|calls| - 1] - window)
  {
    if |calls| == 1 {
      assert calls[..0] == [];
    } else {
      PrunedIsRecentHistory(calls[..|calls| - 1], window);
      PruneStep(calls, window);
    }
  }

  /** So the count that Add returns is the number of calls in the window that ends now. */
  lemma CountIsWindowCount(calls: seq<int>, window: int)
    requires Sorted(calls) && calls != [] && window > 0
    ensures |Pruned(calls, window)| == InWindow(calls, calls[|calls| - 1], window)
  {
    PrunedIsRecentHistory(calls, window);
    LiveIsCount(calls, calls[|calls| - 1] - window, calls[|calls| - 1]);
  }

  lemma {:induction false} CountShift(ts: seq<int>, lo: int, lo': int, hi: int, hi': int)
    requires Sorted(ts) && lo' <= lo && (ts != [] ==> ts[|ts| - 1] <= hi')
    ensures Count(ts, lo, hi) <= Count(ts, lo', hi')
  {
    if ts != [] {
      CountShift(ts[..|ts| - 1], lo, lo', hi, hi');
    }
  }

  ghost predicate WindowsWithin(calls: seq<int>, window: int, capacity: nat) {
    forall end :: InWindow(calls, end, window) <= capacity
  }

  /** The backing array never overflows if and only if no window, wherever it ends, holds more calls
      than its capacity. */
  lemma {:induction false} FitsExactlyWhenWindowsDo(calls: seq<int>, window: int, capacity: nat)
    requires Sorted(calls) && window > 0
    ensures Fits(calls, window, capacity) <==> WindowsWithin(calls, window, capacity)
  {
    if calls != [] {
      FitsExactlyWhenWindowsDo(calls[..|calls| - 1], window, capacity);
      CountIsWindowCount(calls, window);
      OneMoreCall(calls, window, capacity);
    }
  }

  function Same(now: int, n: nat): seq<int> {
    seq(n, _ => now)
  }

  lemma {:induction false} SameCounts(now: int, n: nat, window: int)
    requires window > 0
    ensures Sorted(Same(now, n)) && Until(Same(now, n), now) && InWindow(Same(now, n), now, window) == n
  {
    if n > 0 {
      SameCounts(now, n - 1, window);
      assert Same(now, n) == Same(now, n - 1) + [now];
      SortedAppend(Same(now, n - 1), now);
      CountAppend(Same(now, n - 1), now, now - window, now);
    }
  }

  /** One call more than the capacity, all at once, overflows it. */
  lemma TooManyAtOnce(now: int, window: int, capacity: nat)
    requires window > 0
    ensures !Fits(Same(now, capacity + 1), window, capacity)
    ensures Fits(Same(now, capacity), window, capacity)
  {
    SameCounts(now, capacity + 1, window);
    SameCounts(now, capacity, window);
    FitsExactlyWhenWindowsDo(Same(now, capacity + 1), window, capacity);
    FitsExactlyWhenWindowsDo(Same(now, capacity), window, capacity);
    forall end
      ensures InWindow(Same(now, capacity), end, window) <= capacity
    {
      CountAtMostLength(Same(now, capacity), end - window, end);
    }
  }

  lemma {:induction false} CountAtMostLength(ts: seq<int>, lo: int, hi: int)
    ensures Count(ts, lo, hi) <= |ts|
  {
    if ts != [] {
      CountAtMostLength(ts[..|ts| - 1], lo, hi);
    }
  }

  lemma OneMoreCall(calls: seq<int>, window: int, capacity: nat)
    requires Sorted(calls) && calls != []
    ensures WindowsWithin(calls, window, capacity) <==>
              && WindowsWithin(calls[..|calls| - 1], window, capacity)
              && InWindow(calls, calls[|calls| - 1], window) <= capacity
  {
    var init, now := calls[..|calls| - 1], calls[|calls| - 1];
    forall end
      ensures InWindow(calls, end, window) == InWindow(init, end, window)
              || InWindow(calls, end, window) <= InWindow(calls, now, window)
      ensures InWindow(init, end, window) <= InWindow(calls, end, window)
    {
      if end - window < now <= end {
        CountShift(calls, end - window, now - window, end, now);
      }
    }
    if WindowsWithin(calls, window, capacity) {
      forall end ensures InWindow(init, end, window) <= capacity {
        assert InWindow(calls, end, window) <= capacity;
      }
    } else {
      var end :| InWindow(calls, end, window) > capacity;
    }
  }

  /** The engine keeps one window per IP, ten times as large as the requests it tolerates. */
  class BehavioralEngine {
    const windowSec: nat
    const maxRequests: nat
    var ipRequests: map<string, VelocityWindow>

    constructor (windowSec: nat, maxRequests: nat)
      ensures Valid() && ipRequests == map[]
      ensures this.windowSec == windowSec && this.maxRequests == maxRequests
    {
      this.windowSec, this.maxRequests := windowSec, maxRequests;
      ipRequests := map[];
    }

    /** No two IPs share a window or a backing array. */
    ghost predicate Valid()
      reads this, ipRequests.Values
    {
      && (forall ip :: ip in ipRequests ==>
            && ipRequests[ip].Valid() && ipRequests[ip].window == windowSec * SECOND
            && ipRequests[ip].times.Length == maxRequests * 10)
      && (forall a, b :: a in ipRequests && b in ipRequests && a != b ==>
            ipRequests[a] != ipRequests[b] && ipRequests[a].times != ipRequests[b].times)
    }

    ghost function Backing(): set<object>
      reads this
    {
      (set ip | ip in ipRequests :: ipRequests[ip] as object)
      + (set ip | ip in ipRequests :: ipRequests[ip].times as object)
    }

    /** The recent requests of an IP; none if it has not been seen. */
    ghost function RequestsOf(ip: string): seq<int>
      requires Valid()
      reads this, Backing(), ipRequests.Values
    {
      if ip in ipRequests then ipRequests[ip].Contents() else []
    }

    method GetWindow(ip: string) returns (sw: VelocityWindow)
      requires Valid()
      modifies this`ipRequests
      ensures Valid() && ip in ipRequests && ipRequests[ip] == sw
      ensures if ip in old(ipRequests) then ipRequests == old(ipRequests)
              else fresh(sw) && fresh(sw.times) && sw.Contents() == [] && ipRequests == old(ipRequests)[ip := sw]
    {
      if ip in ipRequests {
        return ipRequests[ip];
      }
      sw := new VelocityWindow(windowSec * SECOND, maxRequests * 10);
      ipRequests := ipRequests[ip := sw];
    }

    /** One request of `ip`: its window gains the request if it has room, and no other IP's window changes. */
    method CountRequest(ip: string, now: int) returns (ok: bool, count: nat)
      requires Valid()
      modifies this`ipRequests, Backing()
      ensures Valid()
      ensures var live := Live(old(RequestsOf(ip)), now - windowSec * SECOND);
              && ok == (|live| < maxRequests * 10)
              && (ok ==> RequestsOf(ip) == live + [now] && count == |RequestsOf(ip)|)
      ensures !ok ==> RequestsOf(ip) == old(RequestsOf(ip))
      ensures forall other :: other != ip ==> RequestsOf(other) == old(RequestsOf(other))
    {
      hide Live;
      var sw := GetWindow(ip);
      label found:
      assert forall other :: RequestsOf(other) == old(RequestsOf(other));
      ok, count := sw.Add(now);
      forall other | other != ip
        ensures RequestsOf(other) == old@found(RequestsOf(other))
      {
        assert other in ipRequests ==> ipRequests[other] != sw && ipRequests[other].times != sw.times;
      }
    }
  }
}
