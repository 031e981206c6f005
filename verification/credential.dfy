/** Timed lockout of a user hash, and exponential-style backoff of an IP. */
module Lockout {
  import opened Arithmetic
  import opened Time

  const LONGEST: Positive := 30 * MINUTE // the longest backoff

  /** What a detector says of one attempt. */
  datatype Finding = None | RateLimited | Blocked

  /** When n waits, one after the other, are over. */
  function After(start: int, n: int, wait: int): int { start + n * wait }

  lemma AfterOneMore(start: int, n: int, wait: int)
    ensures After(start, n + 1, wait) == After(start, n, wait) + wait
    ensures After(start, 0, wait) == start
  {
    assert (n + 1) * wait == n * wait + wait;
  }

  // ---- credential stuffing, per user hash ----

  datatype Config = Config(maxAttempts: int, lockout: int)

  /** The constructor replaces anything that is not positive. */
  predicate Configured(c: Config) {
    c.maxAttempts >= 1 && c.lockout >= SECOND
  }

  datatype LoginTracker = Unseen | Tracking(attempts: int, locked: bool, lockoutAt: int)

  function Attempt(c: Config, t: LoginTracker, now: int): (LoginTracker, Finding) {
    match t
    case Unseen => (Tracking(1, false, 0), None)
    case Tracking(before, locked, lockoutAt) =>
      var attempts := before + 1;
      if locked then
        if now - lockoutAt < c.lockout then (t.(attempts := attempts), Blocked)
        else (t.(attempts := 0, locked := false), None)
      else if attempts > c.maxAttempts * 3 then (Tracking(attempts, true, now), Blocked)
      else (t.(attempts := attempts), if attempts > c.maxAttempts then RateLimited else None)
  }

  /** The times of one user's attempts, never decreasing. */
  datatype Times = NoTimes | Then(before: Times, last: int)

  predicate Ordered(times: Times, start: int) {
    match times
    case NoTimes => true
    case Then(before, now) => Ordered(before, start) && start <= now && (before.Then? ==> before.last <= now)
  }

  function Track(c: Config, times: Times): LoginTracker {
    match times
    case NoTimes => Unseen
    case Then(before, now) => Attempt(c, Track(c, before), now).0
  }

  /** How many attempts drew no finding. */
  function Unflagged(c: Config, times: Times): nat {
    match times
    case NoTimes => 0
    case Then(before, now) =>
      Unflagged(c, before) + if Attempt(c, Track(c, before), now).1 == None then 1 else 0
  }

  /** How many lockouts have run their course. */
  function Unlocks(c: Config, times: Times): nat {
    match times
    case NoTimes => 0
    case Then(before, now) =>
      var t := Track(c, before);
      Unlocks(c, before) + if t.Tracking? && t.locked && now - t.lockoutAt >= c.lockout then 1 else 0
  }

  /** What is left of the unflagged attempts of the current cycle. */
  function Allowance(c: Config, t: LoginTracker): int {
    match t
    case Unseen => c.maxAttempts
    case Tracking(attempts, locked, _) =>
      if locked || attempts >= c.maxAttempts then 0 else c.maxAttempts - attempts
  }

  lemma {:induction false} CyclesTakeTime(c: Config, times: Times, start: int)
    requires Configured(c) && Ordered(times, start)
    ensures var t, cycles := Track(c, times), Unlocks(c, times);
            && (times.Then? ==> t.Tracking? && t.attempts >= 0 && After(start, cycles, c.lockout) <= times.last)
            && (t.Tracking? && t.locked ==> After(start, cycles, c.lockout) <= t.lockoutAt <= times.last)
            && (times.NoTimes? ==> cycles == 0)
            && Unflagged(c, times) + Allowance(c, t) <= c.maxAttempts + (c.maxAttempts + 1) * cycles
  {
    hide After;
    AfterOneMore(start, 0, c.lockout);
    if times.Then? {
      CyclesTakeTime(c, times.before, start);
      var cycles := Unlocks(c, times.before);
      AfterOneMore(start, cycles, c.lockout);
      assert (c.maxAttempts + 1) * (cycles + 1) == (c.maxAttempts + 1) * cycles + c.maxAttempts + 1;
    }
  }

  /** By any time, a user hash has drawn "no finding" at most max + (max + 1) * (number of whole lockouts
      that fit since the start) times. */
  lemma UnflaggedBound(c: Config, times: Times, start: int, now: int)
    requires Configured(c) && Ordered(times, start) && start <= now && (times.Then? ==> times.last <= now)
    ensures Unflagged(c, times) <= c.maxAttempts + (c.maxAttempts + 1) * ((now - start) / c.lockout)
  {
    hide After;
    CyclesTakeTime(c, times, start);
    var cycles := Unlocks(c, times);
    AfterOneMore(start, 0, c.lockout);
    WaitsFit(start, cycles, c.lockout, now);
    MulGrows(c.maxAttempts + 1, cycles, (now - start) / c.lockout);
  }

  // The bound is reached: hammer at the start, and again whenever a lockout ends.

  function Repeat(times: Times, now: int, n: nat): Times {
    if n == 0 then times else Then(Repeat(times, now, n - 1), now)
  }

  /** The attempts of one cycle, all at one instant, that end in a lockout. */
  function Hammer(c: Config, times: Times, now: int): Times
    requires Configured(c)
  {
    Repeat(times, now, c.maxAttempts * 3 + 1)
  }

  function Relentless(c: Config, start: int, cycles: nat): Times
    requires Configured(c)
  {
    if cycles == 0 then Hammer(c, NoTimes, start)
    else
      var now := After(start, cycles, c.lockout);
      Hammer(c, Then(Relentless(c, start, cycles - 1), now), now)
  }

  lemma {:induction false} HammerCounts(c: Config, times: Times, now: int, n: nat)
    requires Configured(c) && n <= c.maxAttempts * 3 + 1
    requires var t := Track(c, times); t.Unseen? || (t.attempts == 0 && !t.locked)
    ensures var t := Track(c, Repeat(times, now, n));
            && (n == 0 ==> t == Track(c, times))
            && (0 < n <= c.maxAttempts * 3 ==> t.Tracking? && t.attempts == n && !t.locked)
            && (n == c.maxAttempts * 3 + 1 ==> t == Tracking(n, true, now))
    ensures Unflagged(c, Repeat(times, now, n))
         == Unflagged(c, times) + if n <= c.maxAttempts then n else c.maxAttempts
  {
    if n > 0 {
      HammerCounts(c, times, now, n - 1);
    }
  }

  lemma {:induction false} RepeatOrdered(times: Times, start: int, now: int, n: nat)
    requires Ordered(times, start) && start <= now && (times.Then? ==> times.last <= now)
    ensures Ordered(Repeat(times, now, n), start)
    ensures Repeat(times, now, n).Then? ==> Repeat(times, now, n).last <= now
  {
    if n > 0 {
      RepeatOrdered(times, start, now, n - 1);
    }
  }

  /** For every number of lockouts there is a run that meets the bound exactly. */
  lemma {:induction false} UnflaggedBoundIsReached(c: Config, start: int, cycles: nat)
    requires Configured(c)
    ensures var times, now := Relentless(c, start, cycles), After(start, cycles, c.lockout);
            && Ordered(times, start) && times.Then? && times.last == now
            && Track(c, times) == Tracking(c.maxAttempts * 3 + 1, true, now)
            && (now - start) / c.lockout == cycles
            && Unflagged(c, times) == After(c.maxAttempts, cycles, c.maxAttempts + 1)
  {
    hide After;
    var now := After(start, cycles, c.lockout);
    AfterOneMore(start, cycles - 1, c.lockout);
    AfterFits(start, cycles, c.lockout);
    if cycles == 0 {
      AfterOneMore(c.maxAttempts, 0, c.maxAttempts + 1);
      HammerCounts(c, NoTimes, start, c.maxAttempts * 3 + 1);
      RepeatOrdered(NoTimes, start, start, c.maxAttempts * 3 + 1);
    } else {
      var before := Relentless(c, start, cycles - 1);
      UnflaggedBoundIsReached(c, start, cycles - 1);
      HammerCounts(c, Then(before, now), now, c.maxAttempts * 3 + 1);
      RepeatOrdered(Then(before, now), start, now, c.maxAttempts * 3 + 1);
      AfterOneMore(c.maxAttempts, cycles - 1, c.maxAttempts + 1);
    }
  }

  /** n waits that are over by now fit into the time since the start. */
  lemma WaitsFit(start: int, n: int, wait: Positive, now: int)
    requires After(start, n, wait) <= now
    ensures n <= (now - start) / wait
  {
    DivAtLeast(n, now - start, wait);
  }

  lemma AfterFits(start: int, n: nat, wait: Positive)
    ensures (After(start, n, wait) - start) / wait == n && After(start, n, wait) >= start
    ensures After(start, 0, wait) == start
  {
    DivExact(n, wait);
    MulGrows(n, 0, wait);
  }

  // ---- brute force, per IP ----

  datatype BackoffTracker = Fresh | Backing(attempts: int, backoff: int, nextTry: int)

  function Backoff(attempts: int): int {
    if attempts > 20 then LONGEST
    else if attempts > 10 then 5 * MINUTE
    else if attempts > 5 then 30 * SECOND
    else 1 * SECOND
  }

  function Try(t: BackoffTracker, now: int): (BackoffTracker, Finding) {
    match t
    case Fresh => (Backing(1, 1 * SECOND, now), None)
    case Backing(before, backoff, nextTry) =>
      var attempts := before + 1;
      if now < nextTry then (Backing(attempts, backoff, nextTry), Blocked)
      else (Backing(attempts, Backoff(attempts), now + Backoff(attempts)), None)
  }

  function TrackIP(times: Times): BackoffTracker {
    match times
    case NoTimes => Fresh
    case Then(before, now) => Try(TrackIP(before), now).0
  }

  predicate PassesIP(t: BackoffTracker, now: int) {
    Try(t, now).1 == None
  }

  function Passed(times: Times): nat {
    match times
    case NoTimes => 0
    case Then(before, now) => Passed(before) + if PassesIP(TrackIP(before), now) then 1 else 0
  }

  function Length(times: Times): nat {
    match times
    case NoTimes => 0
    case Then(before, _) => Length(before) + 1
  }

  /** How many requests passed at the longest backoff. */
  function LatePasses(times: Times): nat {
    match times
    case NoTimes => 0
    case Then(before, now) =>
      LatePasses(before) + if PassesIP(TrackIP(before), now) && Length(times) > 20 then 1 else 0
  }

  lemma {:induction false} AttemptsAreCounted(times: Times)
    ensures times.NoTimes? <==> TrackIP(times).Fresh?
    ensures times.Then? ==> TrackIP(times).attempts == Length(times)
  {
    if times.Then? {
      AttemptsAreCounted(times.before);
    }
  }

  lemma {:induction false} FewEarlyPasses(times: Times)
    ensures Passed(times) <= LatePasses(times) + if Length(times) < 20 then Length(times) else 20
  {
    if times.Then? {
      FewEarlyPasses(times.before);
    }
  }

  lemma {:induction false} LatePassesTakeTime(times: Times, start: int)
    requires Ordered(times, start)
    ensures var t, late := TrackIP(times), LatePasses(times);
            late > 0 ==> times.Then? && t.Backing? && Length(times) > 20
                         && After(start, late, LONGEST) <= t.nextTry <= times.last + LONGEST
  {
    hide After;
    AttemptsAreCounted(times);
    if times.Then? {
      LatePassesTakeTime(times.before, start);
      AttemptsAreCounted(times.before);
      AfterOneMore(start, LatePasses(times.before), LONGEST);
    }
  }

  /** By any time, brute-force detection has let through at most 21 requests of an IP, and one more for
      each whole half hour since the start. */
  lemma PassedBound(times: Times, start: int, now: int)
    requires Ordered(times, start) && start <= now && (times.Then? ==> times.last <= now)
    ensures Passed(times) <= 21 + (now - start) / LONGEST
  {
    hide After, Passed, LatePasses, TrackIP, Ordered;
    FewEarlyPasses(times);
    LatePassesTakeTime(times, start);
    var late := LatePasses(times);
    AfterOneMore(start, 0, LONGEST);
    WaitsFit(start, 0, LONGEST, now);
    if late > 0 {
      AfterOneMore(start, late - 1, LONGEST);
      WaitsFit(start, late - 1, LONGEST, now);
    }
  }

  /** And the backoff lets an IP through again once it has waited as long as the longest backoff. */
  lemma {:induction false} BackoffEnds(times: Times, start: int, now: int)
    requires Ordered(times, start) && (times.Then? ==> times.last + LONGEST <= now)
    ensures PassesIP(TrackIP(times), now)
  {
    if times.Then? {
      BackoffIsShort(times, start);
    }
  }

  lemma {:induction false} BackoffIsShort(times: Times, start: int)
    requires Ordered(times, start) && times.Then?
    ensures TrackIP(times).Backing? && TrackIP(times).nextTry <= times.last + LONGEST
  {
    if times.before.Then? {
      BackoffIsShort(times.before, start);
    }
  }

  // ---- how soon requests can pass, exactly ----

  /** The least time in which n requests of an IP can pass: the first two at once, every further one when
      the backoff of the last is over. */
  function Earliest(n: nat): int {
    if n <= 2 then 0 else Earliest(n - 1) + Backoff(n - 1)
  }

  lemma BackoffGrows(m: int, n: int)
    requires m <= n
    ensures 0 <= Backoff(m) <= Backoff(n)
  {
  }

  lemma {:induction false} EarliestGrows(m: nat, n: nat)
    requires m <= n
    ensures 0 <= Earliest(m) <= Earliest(n)
  {
    if n > 2 {
      EarliestGrows(if m == n then m - 1 else m, n - 1);
      BackoffGrows(n - 1, n - 1);
      if m == n {
        EarliestGrows(0, n - 1);
      }
    }
  }

  /** The n-th pass takes that long, however many requests were blocked in between. */
  lemma {:induction false} PassesTakeTime(times: Times, start: int)
    requires Ordered(times, start)
    ensures var t, n := TrackIP(times), Passed(times);
            && n <= Length(times) && (times.Then? <==> n >= 1) && (times.NoTimes? <==> t.Fresh?)
            && (n >= 1 ==> t.attempts == Length(times) && start + Earliest(n) <= times.last)
            && (n >= 1 ==> start + (if n == 1 then 0 else Earliest(n + 1)) <= t.nextTry)
  {
    if times.Then? {
      var n := Passed(times.before);
      PassesTakeTime(times.before, start);
      BackoffGrows(n + 1, Length(times));
    }
  }

  /** A run in which n requests pass as soon as they can. */
  function Patient(start: int, n: nat): Times {
    if n == 0 then NoTimes else Then(Patient(start, n - 1), start + Earliest(n))
  }

  lemma {:induction false} PatientPasses(start: int, n: nat)
    ensures var times := Patient(start, n);
            && Ordered(times, start) && Passed(times) == n && Length(times) == n
            && (n == 0 ==> TrackIP(times) == Fresh)
            && (n >= 1 ==> times.Then? && times.last == start + Earliest(n))
            && (n == 1 ==> TrackIP(times) == Backing(1, 1 * SECOND, start))
            && (n >= 2 ==> TrackIP(times) == Backing(n, Backoff(n), start + Earliest(n + 1)))
  {
    if n > 0 {
      PatientPasses(start, n - 1);
      EarliestGrows(n - 1, n);
    }
  }

  /** By a given time n requests of an IP may have passed if and only if it has been that long. */
  lemma PassesPossibleExactlyWhen(start: int, now: int, n: nat)
    requires start <= now
    ensures (exists times :: Ordered(times, start) && (times.Then? ==> times.last <= now) && Passed(times) >= n)
            <==> start + Earliest(n) <= now
  {
    if start + Earliest(n) <= now {
      PatientPasses(start, n);
      assert Ordered(Patient(start, n), start) && Passed(Patient(start, n)) >= n;
    }
    forall times | Ordered(times, start) && (times.Then? ==> times.last <= now) && Passed(times) >= n
      ensures start + Earliest(n) <= now
    {
      PassesTakeTime(times, start);
      EarliestGrows(n, Passed(times));
    }
  }

  /** In numbers: twenty-one passes take 3154 seconds, and every further one half an hour. */
  lemma {:induction false} EarliestIs(n: nat)
    requires n >= 21
    ensures Earliest(n) == 3154 * SECOND + (n - 21) * LONGEST
  {
    if n == 21 {
      EarliestEarly();
    } else {
      EarliestIs(n - 1);
    }
  }

  lemma EarliestEarly()
    ensures Earliest(6) == 4 * SECOND && Earliest(11) == 154 * SECOND && Earliest(21) == 3154 * SECOND
  {
    assert Earliest(4) == 2 * SECOND;
    assert Earliest(8) == 64 * SECOND;
    assert Earliest(13) == 754 * SECOND;
    assert Earliest(15) == 1354 * SECOND;
    assert Earliest(17) == 1954 * SECOND;
    assert Earliest(19) == 2554 * SECOND;
  }
}
