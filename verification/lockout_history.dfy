/** What the two login detectors say of an attempt, read off the attempts before it. */
module LockoutHistory {
  import opened Lockout
  import opened Options

  // ---- credential stuffing ----

  /** The user's attempts since the last lockout was over; the attempt that finds it over is none of them. */
  function Cycle(c: Config, times: Times): seq<int>
    requires c.maxAttempts >= 1
  {
    match times
    case NoTimes => []
    case Then(before, now) =>
      var k := Cycle(c, before);
      if |k| > 3 * c.maxAttempts && now - k[3 * c.maxAttempts] >= c.lockout then [] else k + [now]
  }

  ghost predicate Tracks(c: Config, t: LoginTracker, k: seq<int>)
    requires c.maxAttempts >= 1
  {
    match t
    case Unseen => k == []
    case Tracking(attempts, locked, lockoutAt) =>
      && (locked <==> |k| > 3 * c.maxAttempts)
      && (if locked then lockoutAt == k[3 * c.maxAttempts] else attempts == |k|)
  }

  lemma {:induction false} TrackFollows(c: Config, times: Times)
    requires Configured(c)
    ensures Tracks(c, Track(c, times), Cycle(c, times))
  {
    if times.Then? {
      TrackFollows(c, times.before);
    }
  }

  /** Of the attempts since the last lockout, the first maxAttempts draw no finding, the next up to three times
      as many are rate-limited, and the one after those locks the user out: from it on every attempt is blocked
      until the lockout is over, and the first one then draws no finding. */
  lemma FindingExactly(c: Config, times: Times, now: int)
    requires Configured(c)
    ensures var k, n := Cycle(c, times), |Cycle(c, times)| + 1;
            Attempt(c, Track(c, times), now).1 ==
            if n <= c.maxAttempts then Finding.None
            else if n <= 3 * c.maxAttempts then RateLimited
            else if n > 3 * c.maxAttempts + 1 && now - k[3 * c.maxAttempts] >= c.lockout then Finding.None
            else Blocked
  {
    TrackFollows(c, times);
  }

  // ---- brute force ----

  /** A request that was let through: when, and its place among all requests of its IP. */
  datatype Pass = Pass(at: int, nth: nat)

  /** How long the nth request keeps its IP waiting. */
  function Wait(nth: nat): int {
    if nth <= 1 then 0
    else if nth <= 5 then 1_000_000_000
    else if nth <= 10 then 30_000_000_000
    else if nth <= 20 then 300_000_000_000
    else 1_800_000_000_000
  }

  function LastPass(times: Times): Option<Pass>
    decreases times, 0
  {
    match times
    case NoTimes => Option.None
    case Then(before, now) => if Lets(before, now) then Some(Pass(now, Length(times))) else LastPass(before)
  }

  /** The request waits out what the last one let through was given. */
  predicate Lets(times: Times, now: int)
    decreases times, 1
  {
    var last := LastPass(times);
    last.Some? ==> now >= last.value.at + Wait(last.value.nth)
  }

  ghost predicate Backs(t: BackoffTracker, times: Times) {
    match t
    case Fresh => times.NoTimes?
    case Backing(attempts, _, nextTry) =>
      && times.Then? && attempts == Length(times)
      && LastPass(times).Some? && nextTry == LastPass(times).value.at + Wait(LastPass(times).value.nth)
  }

  lemma {:induction false} BackoffFollows(times: Times)
    ensures Backs(TrackIP(times), times)
  {
    if times.Then? {
      BackoffFollows(times.before);
    }
  }

  /** A request is let through if and only if it comes no sooner after the last one let through than that one's
      place among all requests of the IP demands; otherwise it is blocked. */
  lemma BackoffExactly(times: Times, now: int)
    ensures Try(TrackIP(times), now).1 == if Lets(times, now) then Finding.None else Blocked
  {
    BackoffFollows(times);
  }
}
