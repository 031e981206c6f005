/** The leaky bucket: what it lets through, and the history that its decisions follow. */
module RateLimitLeaky {
  import opened Arithmetic
  import opened Options
  import opened Windows
  import opened RateLimit
  import opened RateLimitBounds

  /** Of the admissions since log[i], all but what leaked since are still queued. */
  predicate Backlog(b: Leaky, log: seq<int>, i: nat)
    requires i < |log|
  {
    if log[i] <= b.lastLeak then
      |log| - i <= |b.queue| + (b.lastLeak - log[i]) / b.leakRate
    else
      |log| - i <= |b.queue| - 1 && log[i] - b.lastLeak < b.leakRate
  }

  predicate WithinCapacity(n: nat, elapsed: int, capacity: int, leakRate: Positive) {
    n <= capacity + elapsed / leakRate
  }

  predicate LeakySpaced(log: seq<int>, capacity: int, leakRate: Positive) {
    forall i, j :: 0 <= i <= j < |log| ==> WithinCapacity(j - i + 1, log[j] - log[i], capacity, leakRate)
  }

  predicate LeakyAgrees(m: map<Key, Leaky>, log: seq<int>, key: Key, limits: Limits)
    requires key in m ==> Callable(LeakyBucket, limits)
  {
    if key !in m then log == []
    else
      var b := m[key];
      && b.capacity == limits.burst && b.leakRate == LeakRate(limits.rate)
      && 1 <= |b.queue| <= b.capacity && b.lastLeak in log && Sorted(log)
      && (forall i :: 0 <= i < |log| ==> Backlog(b, log, i))
      && LeakySpaced(log, b.capacity, b.leakRate)
  }

  /** The limits of the key's first call: its bucket keeps them for good. */
  function FirstLimits(past: Past, key: Key): Option<Limits> {
    match past
    case NoPast => None
    case Decided(before, o) =>
      if o.key == key && FirstLimits(before, key).None? then Some(o.limits) else FirstLimits(before, key)
  }

  predicate LeakyKeyInv(m: map<Key, Leaky>, past: Past, key: Key) {
    match FirstLimits(past, key)
    case None => key !in m && Admitted(past, key) == []
    case Some(l) => key in m && Callable(LeakyBucket, l) && LeakyAgrees(m, Admitted(past, key), key, l)
  }

  ghost predicate LeakyInv(m: map<Key, Leaky>, past: Past) {
    forall key :: LeakyKeyInv(m, past, key)
  }

  lemma LeakKeepsBacklog(b: Leaky, log: seq<int>, now: int, i: nat)
    requires i < |log| && log[i] <= now && b.lastLeak <= now && Backlog(b, log, i) && |b.queue| >= 1
    ensures Backlog(Leak(b, now), log, i)
  {
    var k := (now - b.lastLeak) / b.leakRate;
    if k > 0 {
      if log[i] <= b.lastLeak {
        DivAdds(b.lastLeak - log[i], now - b.lastLeak, b.leakRate);
      } else {
        DivAdds(now - log[i], log[i] - b.lastLeak, b.leakRate);
        DivUnique(log[i] - b.lastLeak, 0, log[i] - b.lastLeak, b.leakRate);
      }
    }
  }

  /** Admitting one more call into a bucket that has room. */
  lemma AdmitKeepsBacklog(b: Leaky, log: seq<int>, now: int, i: nat)
    requires i < |log| && log[i] <= now && Backlog(b, log, i)
    requires |b.queue| < b.capacity && b.lastLeak <= now
    ensures Backlog(b.(queue := b.queue + [now]), log + [now], i)
    ensures WithinCapacity(|log| + 1 - i, now - log[i], b.capacity, b.leakRate)
  {
    DivGrows(0, now - log[i], b.leakRate);
    if log[i] <= b.lastLeak { DivGrows(b.lastLeak - log[i], now - log[i], b.leakRate); }
  }

  lemma BacklogsAfterAdmit(b: Leaky, log: seq<int>, now: int)
    requires Sorted(log) && Until(log, now) && forall i :: 0 <= i < |log| ==> Backlog(b, log, i)
    requires |b.queue| < b.capacity && b.lastLeak <= now && now - b.lastLeak < b.leakRate
    requires b.lastLeak < now ==> |b.queue| >= 1
    ensures forall i :: 0 <= i <= |log| ==> Backlog(b.(queue := b.queue + [now]), log + [now], i)
    ensures forall i :: 0 <= i < |log| ==> WithinCapacity(|log| + 1 - i, now - log[i], b.capacity, b.leakRate)
  {
    forall i | 0 <= i < |log|
      ensures Backlog(b.(queue := b.queue + [now]), log + [now], i)
      ensures WithinCapacity(|log| + 1 - i, now - log[i], b.capacity, b.leakRate)
    {
      SortedAt(log, i, |log| - 1);
      AdmitKeepsBacklog(b, log, now, i);
    }
    BacklogOfLast(b, log, now);
  }

  lemma BacklogOfLast(b: Leaky, log: seq<int>, now: int)
    requires b.lastLeak <= now && now - b.lastLeak < b.leakRate
    requires b.lastLeak < now ==> |b.queue| >= 1
    ensures Backlog(b.(queue := b.queue + [now]), log + [now], |log|)
  {
    DivUnique(0, 0, 0, b.leakRate);
  }

  lemma SpacingAfterAdmit(log: seq<int>, now: int, capacity: int, leakRate: Positive)
    requires LeakySpaced(log, capacity, leakRate) && capacity >= 1
    requires forall i :: 0 <= i < |log| ==> WithinCapacity(|log| + 1 - i, now - log[i], capacity, leakRate)
    ensures LeakySpaced(log + [now], capacity, leakRate)
  {
    var log' := log + [now];
    forall i, j | 0 <= i <= j < |log'| ensures WithinCapacity(j - i + 1, log'[j] - log'[i], capacity, leakRate) {
      if j < |log| {
        assert WithinCapacity(j - i + 1, log[j] - log[i], capacity, leakRate);
      } else if i < |log| {
        assert WithinCapacity(|log| + 1 - i, now - log[i], capacity, leakRate);
      } else {
        DivUnique(0, 0, 0, leakRate);
      }
    }
  }

  lemma MemberUntil(log: seq<int>, t: int, now: int)
    requires Sorted(log) && Until(log, now)
    ensures t in log ==> t <= now
  {
    if t in log {
      var i :| 0 <= i < |log| && log[i] == t;
      SortedAt(log, i, |log| - 1);
    }
  }

  lemma LeakyCallOnKey(m: map<Key, Leaky>, log: seq<int>, key: Key, limits: Limits, now: int)
    requires Callable(LeakyBucket, limits) && LeakyAgrees(m, log, key, limits) && Until(log, now)
    ensures var (m', d) := CheckLeaky(m, key, limits, now);
            var log' := if d.allowed then log + [now] else log;
            && LeakyAgrees(m', log', key, limits)
            && now - m'[key].lastLeak < m'[key].leakRate
  {
    var rate := LeakRate(limits.rate);
    var was := if key in m then m[key] else Leaky([], limits.burst, rate, now);
    var b := Leak(was, now);
    DivUnique(0, 0, 0, rate);
    if key in m {
      forall i | 0 <= i < |log| ensures Backlog(b, log, i) && log[i] <= now {
        SortedAt(log, i, |log| - 1);
        assert was.lastLeak in log ==> was.lastLeak <= now by { MemberUntil(log, was.lastLeak, now); }
        LeakKeepsBacklog(was, log, now, i);
      }
      if (now - was.lastLeak) / rate <= 0 {
        if now - was.lastLeak >= rate { DivGrows(rate, now - was.lastLeak, rate); DivUnique(rate, 1, 0, rate); }
      }
    }
    if |b.queue| < b.capacity {
      BacklogsAfterAdmit(b, log, now);
      SpacingAfterAdmit(log, now, b.capacity, b.leakRate);
      SortedAppend(log, now);
    }
  }

  /** A call leaves the other keys' buckets as they are. */
  lemma LeakyCallElsewhere(m: map<Key, Leaky>, log: seq<int>, key: Key, limits: Limits,
                           called: Key, l: Limits, now: int)
    requires Callable(LeakyBucket, l) && key != called
    requires (key in m ==> Callable(LeakyBucket, limits)) && LeakyAgrees(m, log, key, limits)
    ensures var m' := CheckLeaky(m, called, l, now).0;
            (key in m' ==> Callable(LeakyBucket, limits)) && LeakyAgrees(m', log, key, limits)
  {
    var m' := CheckLeaky(m, called, l, now).0;
    assert key in m' <==> key in m;
    assert key in m ==> m'[key] == m[key];
  }

  /** An existing bucket goes by its own limits, not by the call's. */
  lemma LimitsOfBucket(m: map<Key, Leaky>, key: Key, limits: Limits, l: Limits, now: int)
    requires key in m
    ensures CheckLeaky(m, key, limits, now).0 == CheckLeaky(m, key, l, now).0
    ensures CheckLeaky(m, key, limits, now).1.allowed == CheckLeaky(m, key, l, now).1.allowed
  {
  }

  lemma LeakyCallOn(m: map<Key, Leaky>, past: Past, o: Outcome, key: Key)
    requires LeakyKeyInv(m, past, key) && Callable(LeakyBucket, o.limits)
    requires Until(Admitted(past, o.key), o.at)
    requires o.decision == CheckLeaky(m, o.key, o.limits, o.at).1
    ensures LeakyKeyInv(CheckLeaky(m, o.key, o.limits, o.at).0, Decided(past, o), key)
  {
    hide CheckLeaky, LeakyAgrees;
    match FirstLimits(past, key)
    case None => {
      NoBucketAgrees(m, key, o.limits);
      if key == o.key {
        LeakyCallOnKey(m, [], key, o.limits, o.at);
        BucketAfterCall(m, key, o.key, o.limits, o.at);
      } else {
        BucketAfterCall(m, key, o.key, o.limits, o.at);
      }
    }
    case Some(l) => {
      BucketAfterCall(m, key, o.key, o.limits, o.at);
      if key == o.key {
        LimitsOfBucket(m, key, o.limits, l, o.at);
        LeakyCallOnKey(m, Admitted(past, key), key, l, o.at);
      } else {
        LeakyCallElsewhere(m, Admitted(past, key), key, l, o.key, o.limits, o.at);
      }
    }
  }

  lemma NoBucketAgrees(m: map<Key, Leaky>, key: Key, l: Limits)
    requires key !in m
    ensures LeakyAgrees(m, [], key, l)
  {
  }

  lemma BucketAfterCall(m: map<Key, Leaky>, key: Key, called: Key, l: Limits, now: int)
    requires Callable(LeakyBucket, l)
    ensures key in CheckLeaky(m, called, l, now).0 <==> key in m || key == called
  {
  }

  lemma LeakyCall(m: map<Key, Leaky>, past: Past, o: Outcome)
    requires LeakyInv(m, past) && Callable(LeakyBucket, o.limits)
    requires Until(Admitted(past, o.key), o.at)
    requires o.decision == CheckLeaky(m, o.key, o.limits, o.at).1
    ensures LeakyInv(CheckLeaky(m, o.key, o.limits, o.at).0, Decided(past, o))
  {
    forall key ensures LeakyKeyInv(CheckLeaky(m, o.key, o.limits, o.at).0, Decided(past, o), key) {
      assert LeakyKeyInv(m, past, key);
      LeakyCallOn(m, past, o, key);
    }
  }

  lemma {:induction false} LeakyHolds(events: Events)
    requires Legal(LeakyBucket, events)
    ensures LeakyInv(Execute(LeakyBucket, events).state.leaky, Execute(LeakyBucket, events).past)
  {
    hide LeakyInv, CheckLeaky;
    if events.NoEvents? {
      NothingYet();
    } else {
      var run := Execute(LeakyBucket, events.before);
      LeakyHolds(events.before);
      RunOrdered(LeakyBucket, events.before);
      match events.last
      case Tick(now) => {
        LeakyNeverEvicted(events.before, now);
      }
      case Call(key, l, now) => {
        AdmittedSorted(run.past, key);
        LeakyCall(run.state.leaky, run.past, Outcome(key, l, now, CheckLeaky(run.state.leaky, key, l, now).1));
      }
    }
  }

  lemma NothingYet()
    ensures LeakyInv(map[], NoPast)
  {
  }

  lemma SpacedWithinInterval(log: seq<int>, capacity: nat, leakRate: Positive, from: int, to: int)
    requires Sorted(log) && LeakySpaced(log, capacity, leakRate) && from <= to
    ensures Count(log, from - 1, to) <= capacity + (to - from) / leakRate
  {
    DivGrows(0, to - from, leakRate);
    if Count(log, from - 1, to) > 0 {
      var i, j := CountedRange(log, from - 1, to);
      assert WithinCapacity(j - i + 1, log[j] - log[i], capacity, leakRate);
      DivGrows(log[j] - log[i], to - from, leakRate);
    }
  }

  /** Over any closed interval, at most burst + floor(length / leak interval) calls of a key are admitted,
      in every run: the limits that count are those of its first call. */
  lemma LeakyBucketWithinInterval(events: Events, key: Key, from: int, to: int)
    requires Legal(LeakyBucket, events) && from <= to
    ensures var past := Execute(LeakyBucket, events).past;
            match FirstLimits(past, key)
            case None => Admitted(past, key) == []
            case Some(l) =>
              Callable(LeakyBucket, l) &&
              Count(Admitted(past, key), from - 1, to) <= l.burst + (to - from) / LeakRate(l.rate)
  {
    LeakyHolds(events);
    var run := Execute(LeakyBucket, events);
    assert LeakyKeyInv(run.state.leaky, run.past, key);
    match FirstLimits(run.past, key)
    case None => {}
    case Some(l) => {
      SpacedWithinInterval(Admitted(run.past, key), l.burst, LeakRate(l.rate), from, to);
    }
  }

  ghost predicate AdmittedSince(log: seq<int>, earliest: int) {
    exists i :: 0 <= i < |log| && earliest < log[i]
  }

  /** A call is denied only while less than one leak interval has passed since an admission: the
      bucket never starves a key. A key's first call is never denied. */
  lemma {:induction false} LeakyBucketNeverStarves(events: Events, key: Key, limits: Limits, now: int)
    requires Legal(LeakyBucket, events) && Callable(LeakyBucket, limits)
    requires events.Then? ==> events.last.at <= now
    ensures var run := Execute(LeakyBucket, events);
            !CheckLeaky(run.state.leaky, key, limits, now).1.allowed ==>
              match FirstLimits(run.past, key)
              case None => false
              case Some(l) => Callable(LeakyBucket, l)
                              && AdmittedSince(Admitted(run.past, key), now - LeakRate(l.rate))
  {
    hide LeakyAgrees;
    LeakyHolds(events);
    RunOrdered(LeakyBucket, events);
    var run := Execute(LeakyBucket, events);
    AdmittedSorted(run.past, key);
    assert LeakyKeyInv(run.state.leaky, run.past, key);
    match FirstLimits(run.past, key)
    case None => {}
    case Some(l) => {
      LimitsOfBucket(run.state.leaky, key, limits, l, now);
      DenialIsRecent(run.state.leaky, Admitted(run.past, key), key, l, now);
    }
  }

  lemma DenialIsRecent(m: map<Key, Leaky>, log: seq<int>, key: Key, limits: Limits, now: int)
    requires Callable(LeakyBucket, limits) && LeakyAgrees(m, log, key, limits) && Until(log, now)
    ensures !CheckLeaky(m, key, limits, now).1.allowed ==> AdmittedSince(log, now - LeakRate(limits.rate))
  {
    LeakyCallOnKey(m, log, key, limits, now);
    var (m', d) := CheckLeaky(m, key, limits, now);
    if !d.allowed {
      var i :| 0 <= i < |log| && log[i] == m'[key].lastLeak;
    }
  }

  // ---- the reference: a meter fed with every call of the key, denied ones included ----

  /** A level instead of a queue of timestamps, and no sweep. */
  datatype Meter = Unused | Meter(level: nat, capacity: int, leakRate: Positive, lastLeak: int)

  function Drained(m: Meter, now: int): Meter
    requires m.Meter?
  {
    var leaked := (now - m.lastLeak) / m.leakRate;
    if leaked <= 0 then m
    else m.(level := if leaked >= m.level then 0 else m.level - leaked, lastLeak := now)
  }

  function Asked(m: Meter, limits: Limits, now: int): (d: Meter)
    requires Callable(LeakyBucket, limits)
    ensures d.Meter?
  {
    Drained(if m.Meter? then m else Meter(0, limits.burst, LeakRate(limits.rate), now), now)
  }

  predicate AllCallable(past: Past) {
    match past
    case NoPast => true
    case Decided(before, o) => AllCallable(before) && Callable(LeakyBucket, o.limits)
  }

  function Metered(past: Past, key: Key): Meter
    requires AllCallable(past)
  {
    match past
    case NoPast => Unused
    case Decided(before, o) =>
      if o.key != key then Metered(before, key)
      else
        var m := Asked(Metered(before, key), o.limits, o.at);
        if m.level < m.capacity then m.(level := m.level + 1) else m
  }

  /** What the history of calls, with nothing evicted, calls for. */
  function Metes(past: Past, key: Key, limits: Limits, now: int): Decision
    requires AllCallable(past) && Callable(LeakyBucket, limits)
  {
    var m := Asked(Metered(past, key), limits, now);
    if m.level < m.capacity then Decision(true, m.capacity - m.level - 1, limits.burst)
    else Decision(false, 0, limits.burst)
  }

  predicate Follows(past: Past) {
    match past
    case NoPast => true
    case Decided(before, o) =>
      && AllCallable(before) && Callable(LeakyBucket, o.limits)
      && Follows(before) && o.decision == Metes(before, o.key, o.limits, o.at)
  }

  predicate MeterAgrees(m: map<Key, Leaky>, past: Past, key: Key)
    requires AllCallable(past)
  {
    Metered(past, key) ==
    if key in m then Meter(|m[key].queue|, m[key].capacity, m[key].leakRate, m[key].lastLeak) else Unused
  }

  ghost predicate MetersAgree(m: map<Key, Leaky>, past: Past)
    requires AllCallable(past)
  {
    forall key :: MeterAgrees(m, past, key)
  }

  lemma MeterCall(m: map<Key, Leaky>, past: Past, o: Outcome, key: Key)
    requires AllCallable(past) && Callable(LeakyBucket, o.limits)
    requires MeterAgrees(m, past, o.key) && MeterAgrees(m, past, key)
    requires o.decision == CheckLeaky(m, o.key, o.limits, o.at).1
    ensures o.decision == Metes(past, o.key, o.limits, o.at)
    ensures MeterAgrees(CheckLeaky(m, o.key, o.limits, o.at).0, Decided(past, o), key)
  {
  }

  /** With the sweep running at any times, each leaky decision is the one that the whole history of calls
      calls for, whatever limits they carry. */
  lemma {:induction false} LeakyFollowsHistory(events: Events)
    requires Legal(LeakyBucket, events)
    ensures var run := Execute(LeakyBucket, events);
            AllCallable(run.past) && Follows(run.past) && MetersAgree(run.state.leaky, run.past)
  {
    hide CheckLeaky, Metes, MeterAgrees, Metered;
    if events.NoEvents? {
      NoMeters();
    } else {
      var run := Execute(LeakyBucket, events.before);
      LeakyFollowsHistory(events.before);
      match events.last
      case Tick(now) => {
        LeakyNeverEvicted(events.before, now);
      }
      case Call(key, l, now) => {
        var o := Outcome(key, l, now, CheckLeaky(run.state.leaky, key, l, now).1);
        forall k
          ensures o.decision == Metes(run.past, key, l, now)
          ensures MeterAgrees(CheckLeaky(run.state.leaky, key, l, now).0, Decided(run.past, o), k)
        {
          MeterCall(run.state.leaky, run.past, o, k);
        }
        assert MetersAgree(CheckLeaky(run.state.leaky, key, l, now).0, Decided(run.past, o));
        assert MeterAgrees(CheckLeaky(run.state.leaky, key, l, now).0, Decided(run.past, o), key);
      }
    }
  }

  lemma NoMeters()
    ensures MetersAgree(map[], NoPast)
  {
  }
}
