/** HTTP-flood detection: a request meets a global, an IP, an endpoint and a session limit in turn. */
module Flood {
  import opened Options
  import opened Time
  import opened Windows

  datatype CounterId = Global | Ip(ip: string) | Endpoint(path: string) | Session(id: string)
  datatype Request = Request(ip: string, path: string, session: string)
  datatype Rates = Rates(global: int, perIP: int, perEndpoint: int, perSession: int)

  const WINDOW: int := SECOND

  /** How many counters a request is checked against. Failing at the k-th is rule DDoS00k. */
  function StageCount(r: Request): nat {
    if r.session == "" then 3 else 4
  }

  function Stage(r: Request, k: nat): CounterId
    requires k < StageCount(r)
  {
    match k
    case 0 => Global
    case 1 => Ip(r.ip)
    case 2 => Endpoint(r.path)
    case _ => Session(r.session)
  }

  const NOT_ASKED: nat := 4

  /** At which stage a request meets this counter, if it does. */
  function Position(r: Request, id: CounterId): (k: nat)
    ensures k < StageCount(r) ==> Stage(r, k) == id
    ensures forall i :: 0 <= i < StageCount(r) && Stage(r, i) == id ==> i == k
  {
    match id
    case Global => 0
    case Ip(ip) => if ip == r.ip then 1 else NOT_ASKED
    case Endpoint(path) => if path == r.path then 2 else NOT_ASKED
    case Session(session) => if session == r.session && session != "" then 3 else NOT_ASKED
  }

  function Limit(rates: Rates, id: CounterId): int {
    match id
    case Global => rates.global
    case Ip(_) => rates.perIP
    case Endpoint(_) => rates.perEndpoint
    case Session(_) => rates.perSession
  }

  /** The timestamps each counter holds; a counter not yet created holds none. */
  type Times = CounterId -> seq<int>

  /** What a counter holds after a request passed the first `passed` of its stages. */
  function Recorded(id: CounterId, held: seq<int>, r: Request, passed: nat, now: int): seq<int> {
    if Position(r, id) < passed then Live(held, now - WINDOW) + [now]
    else if Position(r, id) == passed < StageCount(r) then Live(held, now - WINDOW)
    else held
  }

  predicate HasRoom(rates: Rates, id: CounterId, held: seq<int>, now: int) {
    |Live(held, now - WINDOW)| < Limit(rates, id)
  }

  /** How many stages from the k-th on a request passes, and those before: as far as the first
      counter without room. */
  function PassesFrom(rates: Rates, times: Times, r: Request, k: nat, now: int): (passed: nat)
    requires k <= StageCount(r)
    ensures k <= passed <= StageCount(r)
    ensures forall i :: k <= i < passed ==> HasRoom(rates, Stage(r, i), times(Stage(r, i)), now)
    ensures passed < StageCount(r) ==> !HasRoom(rates, Stage(r, passed), times(Stage(r, passed)), now)
    decreases StageCount(r) - k
  {
    if k == StageCount(r) || !HasRoom(rates, Stage(r, k), times(Stage(r, k)), now) then k
    else PassesFrom(rates, times, r, k + 1, now)
  }

  function Passes(rates: Rates, times: Times, r: Request, now: int): (passed: nat)
    ensures passed <= StageCount(r)
  {
    PassesFrom(rates, times, r, 0, now)
  }

  /** The counters once a request has passed its first k stages and awaits the next. */
  ghost predicate AfterStages(rates: Rates, before: Times, after: Times, r: Request, k: nat, now: int) {
    && k <= StageCount(r)
    && (forall i :: 0 <= i < k ==> HasRoom(rates, Stage(r, i), before(Stage(r, i)), now))
    && (forall id :: after(id) ==
          if Position(r, id) < k then Live(before(id), now - WINDOW) + [now] else before(id))
  }

  /** How far a request got, and the counters it leaves. */
  ghost predicate AfterRequest(rates: Rates, before: Times, after: Times, r: Request, passed: nat, now: int) {
    && passed == Passes(rates, before, r, now)
    && (forall id :: after(id) == Recorded(id, before(id), r, passed, now))
  }

  lemma StageDone(rates: Rates, before: Times, mid: Times, after: Times, r: Request, k: nat, now: int)
    requires AfterStages(rates, before, mid, r, k, now) && k < StageCount(r)
    requires var id := Stage(r, k);
             && after(id) == Live(mid(id), now - WINDOW) + (if HasRoom(rates, id, mid(id), now) then [now] else [])
             && (forall other :: other != id ==> after(other) == mid(other))
    ensures if HasRoom(rates, Stage(r, k), mid(Stage(r, k)), now)
            then AfterStages(rates, before, after, r, k + 1, now)
            else AfterRequest(rates, before, after, r, k, now)
  {
  }

  /** The sweep drops an IP counter that is empty or untouched for ten minutes. */
  predicate Stale(held: seq<int>, now: int) {
    held == [] || now - held[|held| - 1] > 10 * MINUTE
  }

  function Swept(id: CounterId, held: seq<int>, now: int): seq<int> {
    if id.Ip? && Stale(held, now) then [] else held
  }

  // ---- runs ----

  datatype Event = Arrive(request: Request, at: int) | Sweep(at: int)
  datatype Events = NoEvents | Then(before: Events, last: Event)
  datatype Outcome = Outcome(request: Request, at: int, passed: nat)
  datatype Past = NoPast | Handled(before: Past, last: Outcome)
  datatype Run = Run(times: Times, past: Past)

  function Step(rates: Rates, run: Run, e: Event): Run {
    match e
    case Sweep(now) => run.(times := id => Swept(id, run.times(id), now))
    case Arrive(r, now) =>
      var passed := Passes(rates, run.times, r, now);
      Run(id => Recorded(id, run.times(id), r, passed, now), Handled(run.past, Outcome(r, now, passed)))
  }

  /** Any interleaving of requests and sweeps, from a new detector. */
  function Execute(rates: Rates, events: Events): Run {
    match events
    case NoEvents => Run(_ => [], NoPast)
    case Then(before, e) => Step(rates, Execute(rates, before), e)
  }

  predicate Ordered(events: Events) {
    match events
    case NoEvents => true
    case Then(before, e) => Ordered(before) && (before.Then? ==> before.last.at <= e.at)
  }

  // ---- the whole history ----

  /** Did this request get past this counter? */
  predicate Charged(o: Outcome, id: CounterId) {
    Position(o.request, id) < o.passed
  }

  /** When requests got past this counter, ever. */
  function Log(past: Past, id: CounterId): seq<int> {
    match past
    case NoPast => []
    case Handled(before, o) => if Charged(o, id) then Log(before, id) + [o.at] else Log(before, id)
  }

  ghost predicate Inv(rates: Rates, run: Run, now: int) {
    forall id :: CounterInv(rates, run.times(id), Log(run.past, id), id, now)
  }

  ghost predicate CounterInv(rates: Rates, held: seq<int>, log: seq<int>, id: CounterId, now: int) {
    && Live(held, now - WINDOW) == Live(log, now - WINDOW)
    && Sorted(held) && Until(held, now)
    && WithinLimit(log, if Limit(rates, id) < 0 then 0 else Limit(rates, id))
  }

  ghost predicate WithinLimit(log: seq<int>, limit: nat) {
    forall end :: InWindow(log, end, WINDOW) <= limit
  }

  lemma CounterLater(rates: Rates, held: seq<int>, log: seq<int>, id: CounterId, now: int, later: int)
    requires CounterInv(rates, held, log, id, now) && now <= later
    ensures CounterInv(rates, held, log, id, later)
  {
    LiveAgree(held, log, now - WINDOW, later - WINDOW);
  }

  /** A counter that is asked prunes its list. */
  lemma CounterPruned(rates: Rates, held: seq<int>, log: seq<int>, id: CounterId, now: int)
    requires CounterInv(rates, held, log, id, now)
    ensures CounterInv(rates, Live(held, now - WINDOW), log, id, now)
  {
    LiveTwice(held, now - WINDOW, now - WINDOW);
    LiveSorted(held, now - WINDOW);
  }

  /** A counter that has room records the request. */
  lemma CounterPassed(rates: Rates, held: seq<int>, log: seq<int>, id: CounterId, now: int)
    requires CounterInv(rates, held, log, id, now) && HasRoom(rates, id, held, now)
    ensures CounterInv(rates, held + [now], log + [now], id, now)
  {
    LiveAppend(held, now, now - WINDOW);
    LiveAppend(log, now, now - WINDOW);
    WindowStep(log, now, WINDOW, Limit(rates, id));
    SortedAppend(held, now);
  }

  lemma CounterSwept(rates: Rates, held: seq<int>, log: seq<int>, id: CounterId, now: int)
    requires CounterInv(rates, held, log, id, now)
    ensures CounterInv(rates, Swept(id, held, now), log, id, now)
  {
    if id.Ip? && Stale(held, now) && held != [] {
      LiveNone(held, now - WINDOW);
    }
  }

  lemma StepKeepsInv(rates: Rates, run: Run, now: int, e: Event)
    requires Inv(rates, run, now) && now <= e.at
    ensures Inv(rates, Step(rates, run, e), e.at)
  {
    var after := Step(rates, run, e);
    forall id ensures CounterInv(rates, after.times(id), Log(after.past, id), id, e.at) {
      assert CounterInv(rates, run.times(id), Log(run.past, id), id, now);
      CounterLater(rates, run.times(id), Log(run.past, id), id, now, e.at);
      match e
      case Sweep(_) => CounterSwept(rates, run.times(id), Log(run.past, id), id, e.at);
      case Arrive(r, _) => ArriveKeepsInv(rates, run, r, e.at, id);
    }
  }

  lemma CounterRecorded(rates: Rates, held: seq<int>, log: seq<int>, id: CounterId,
                        r: Request, passed: nat, now: int)
    requires CounterInv(rates, held, log, id, now)
    requires Position(r, id) < passed ==> HasRoom(rates, id, held, now)
    ensures CounterInv(rates, Recorded(id, held, r, passed, now),
                       if Position(r, id) < passed then log + [now] else log, id, now)
  {
    var pruned := Live(held, now - WINDOW);
    if Position(r, id) < passed {
      CounterPruned(rates, held, log, id, now);
      LiveTwice(held, now - WINDOW, now - WINDOW);
      CounterPassed(rates, pruned, log, id, now);
    } else if Position(r, id) == passed < StageCount(r) {
      CounterPruned(rates, held, log, id, now);
    }
  }

  lemma ArriveKeepsInv(rates: Rates, run: Run, r: Request, now: int, id: CounterId)
    requires CounterInv(rates, run.times(id), Log(run.past, id), id, now)
    ensures var after := Step(rates, run, Arrive(r, now));
            CounterInv(rates, after.times(id), Log(after.past, id), id, now)
  {
    CounterRecorded(rates, run.times(id), Log(run.past, id), id, r, Passes(rates, run.times, r, now), now);
  }

  lemma {:induction false} RunKeepsInv(rates: Rates, events: Events)
    requires Ordered(events)
    ensures Inv(rates, Execute(rates, events), if events.NoEvents? then 0 else events.last.at)
    ensures events.NoEvents? ==> forall now :: Inv(rates, Execute(rates, events), now)
  {
    match events
    case NoEvents =>
      assert forall id: CounterId, end :: InWindow(Log(NoPast, id), end, WINDOW) == 0;
    case Then(before, e) =>
      RunKeepsInv(rates, before);
      StepKeepsInv(rates, Execute(rates, before), if before.NoEvents? then e.at else before.last.at, e);
  }

  /** However the pruning and the sweep fall, a request passes exactly the stages at which fewer than
      the limit of all earlier requests got through within the last second. */
  lemma {:induction false} PassesFollowsHistory(rates: Rates, events: Events, r: Request, now: int)
    requires Ordered(events) && (events.Then? ==> events.last.at <= now)
    ensures var run := Execute(rates, events);
            Passes(rates, run.times, r, now) == Passes(rates, id => Log(run.past, id), r, now)
  {
    RunKeepsInv(rates, events);
    var run := Execute(rates, events);
    var full: Times := id => Log(run.past, id);
    var last := if events.NoEvents? then now else events.last.at;
    forall id ensures HasRoom(rates, id, run.times(id), now) <==> HasRoom(rates, id, full(id), now) {
      assert CounterInv(rates, run.times(id), Log(run.past, id), id, last);
      CounterLater(rates, run.times(id), Log(run.past, id), id, last, now);
    }
    var k, k' := Passes(rates, run.times, r, now), Passes(rates, full, r, now);
    assert k < StageCount(r) ==> !HasRoom(rates, Stage(r, k), full(Stage(r, k)), now);
    assert k' < StageCount(r) ==> !HasRoom(rates, Stage(r, k'), run.times(Stage(r, k')), now);
  }

  // ---- what gets through ----

  /** When requests that passed every stage, and were counted here, arrived. */
  function Admitted(past: Past, id: CounterId): seq<int> {
    match past
    case NoPast => []
    case Handled(before, o) =>
      if o.passed == StageCount(o.request) && Charged(o, id) then Admitted(before, id) + [o.at]
      else Admitted(before, id)
  }

  lemma {:induction false} AdmittedAreLogged(past: Past, id: CounterId, end: int)
    ensures InWindow(Admitted(past, id), end, WINDOW) <= InWindow(Log(past, id), end, WINDOW)
  {
    if past.Handled? {
      AdmittedAreLogged(past.before, id, end);
      CountAppend(Admitted(past.before, id), past.last.at, end - WINDOW, end);
      CountAppend(Log(past.before, id), past.last.at, end - WINDOW, end);
    }
  }

  /** The requests let through meet all four limits at once: in no window of one second do more than
      the limit of them share the service, an IP, a path or a session. */
  lemma FloodLimitsHold(rates: Rates, events: Events, id: CounterId, end: int)
    requires Ordered(events) && Limit(rates, id) >= 0
    ensures InWindow(Admitted(Execute(rates, events).past, id), end, WINDOW) <= Limit(rates, id)
  {
    RunKeepsInv(rates, events);
    var run := Execute(rates, events);
    var now := if events.NoEvents? then 0 else events.last.at;
    assert CounterInv(rates, run.times(id), Log(run.past, id), id, now);
    AdmittedAreLogged(run.past, id, end);
  }

  // ---- the limits by name ----

  function Every(): Request -> bool { _ => true }

  function OfIp(ip: string): Request -> bool { (r: Request) => r.ip == ip }

  function OfPath(path: string): Request -> bool { (r: Request) => r.path == path }

  function OfSession(session: string): Request -> bool { (r: Request) => r.session == session }

  /** When requests of that kind passed every stage: four of them, or three without a session. */
  function LetThrough(past: Past, kind: Request -> bool): seq<int> {
    match past
    case NoPast => []
    case Handled(before, o) =>
      if o.passed == (if o.request.session == "" then 3 else 4) && kind(o.request) then
        LetThrough(before, kind) + [o.at]
      else LetThrough(before, kind)
  }

  lemma {:induction false} LetThroughIs(past: Past, id: CounterId, kind: Request -> bool)
    requires forall r :: kind(r) <==> Position(r, id) < StageCount(r)
    ensures LetThrough(past, kind) == Admitted(past, id)
  {
    if past.Handled? {
      LetThroughIs(past.before, id, kind);
    }
  }

  /** In no window of one second, wherever it ends, are more requests let through than the global rate, of
      one IP more than the IP rate, of one path more than the endpoint rate, and of one session more than the
      session rate. */
  lemma FourLimitsHold(rates: Rates, events: Events, ip: string, path: string, session: string, end: int)
    requires Ordered(events) && session != ""
    requires rates.global >= 0 && rates.perIP >= 0 && rates.perEndpoint >= 0 && rates.perSession >= 0
    ensures var past := Execute(rates, events).past;
            && Count(LetThrough(past, Every()), end - 1_000_000_000, end) <= rates.global
            && Count(LetThrough(past, OfIp(ip)), end - 1_000_000_000, end) <= rates.perIP
            && Count(LetThrough(past, OfPath(path)), end - 1_000_000_000, end) <= rates.perEndpoint
            && Count(LetThrough(past, OfSession(session)), end - 1_000_000_000, end) <= rates.perSession
  {
    var past := Execute(rates, events).past;
    LetThroughIs(past, Global, Every());
    LetThroughIs(past, Ip(ip), OfIp(ip));
    LetThroughIs(past, Endpoint(path), OfPath(path));
    LetThroughIs(past, Session(session), OfSession(session));
    FloodLimitsHold(rates, events, Global, end);
    FloodLimitsHold(rates, events, Ip(ip), end);
    FloodLimitsHold(rates, events, Endpoint(path), end);
    FloodLimitsHold(rates, events, Session(session), end);
  }

  /** When requests of that kind got past a stage. */
  function GotPast(past: Past, stage: nat, kind: Request -> bool): seq<int> {
    match past
    case NoPast => []
    case Handled(before, o) =>
      if stage < o.passed && kind(o.request) then GotPast(before, stage, kind) + [o.at]
      else GotPast(before, stage, kind)
  }

  /** The counter that requests of that kind meet at that stage, and no others ever. */
  ghost predicate Meets(id: CounterId, stage: nat, kind: Request -> bool) {
    forall r :: Position(r, id) == if kind(r) then stage else NOT_ASKED
  }

  lemma {:induction false} GotPastIs(rates: Rates, events: Events, id: CounterId, stage: nat, kind: Request -> bool)
    requires Meets(id, stage, kind)
    ensures GotPast(Execute(rates, events).past, stage, kind) == Log(Execute(rates, events).past, id)
  {
    if events.Then? {
      GotPastIs(rates, events.before, id, stage, kind);
    }
  }

  lemma {:induction false} LogSorted(rates: Rates, events: Events, id: CounterId, now: int)
    requires Ordered(events) && (events.Then? ==> events.last.at <= now)
    ensures Sorted(Log(Execute(rates, events).past, id)) && Until(Log(Execute(rates, events).past, id), now)
  {
    hide Sorted, Passes, Recorded, Swept;
    if events.NoEvents? {
      NothingHeld();
    } else {
      LogSorted(rates, events.before, id, events.last.at);
      SortedAppend(Log(Execute(rates, events.before).past, id), events.last.at);
    }
  }

  /** A counter has room if and only if fewer requests than its limit got past it within the last second. */
  lemma RoomByHistory(rates: Rates, events: Events, id: CounterId, stage: nat, kind: Request -> bool, now: int)
    requires Ordered(events) && (events.Then? ==> events.last.at <= now) && Meets(id, stage, kind)
    ensures var past := Execute(rates, events).past;
            HasRoom(rates, id, Log(past, id), now) <==>
              Count(GotPast(past, stage, kind), now - 1_000_000_000, now) < Limit(rates, id)
  {
    LogSorted(rates, events, id, now);
    GotPastIs(rates, events, id, stage, kind);
    LiveIsCount(Log(Execute(rates, events).past, id), now - 1_000_000_000, now);
  }

  /** How many stages a request passes, from the numbers of requests within the last second that got past
      the first stage, past the second with its IP, past the third with its path, past the fourth with its
      session: each stage takes fewer than its own rate. */
  lemma PassesExactly(rates: Rates, events: Events, r: Request, now: int)
    requires Ordered(events) && (events.Then? ==> events.last.at <= now)
    ensures var run, since := Execute(rates, events), now - 1_000_000_000;
            Passes(rates, run.times, r, now) ==
            if Count(GotPast(run.past, 0, Every()), since, now) >= rates.global then 0
            else if Count(GotPast(run.past, 1, OfIp(r.ip)), since, now) >= rates.perIP then 1
            else if Count(GotPast(run.past, 2, OfPath(r.path)), since, now) >= rates.perEndpoint then 2
            else if r.session == "" then 3
            else if Count(GotPast(run.past, 3, OfSession(r.session)), since, now) >= rates.perSession then 3
            else 4
  {
    hide Count;
    PassesFollowsHistory(rates, events, r, now);
    RoomByHistory(rates, events, Global, 0, Every(), now);
    RoomByHistory(rates, events, Ip(r.ip), 1, OfIp(r.ip), now);
    RoomByHistory(rates, events, Endpoint(r.path), 2, OfPath(r.path), now);
    if r.session != "" {
      RoomByHistory(rates, events, Session(r.session), 3, OfSession(r.session), now);
    }
    PassesInTurn(rates, id => Log(Execute(rates, events).past, id), r, now);
  }

  lemma PassesInTurn(rates: Rates, times: Times, r: Request, now: int)
    ensures Passes(rates, times, r, now) ==
            if !HasRoom(rates, Global, times(Global), now) then 0
            else if !HasRoom(rates, Ip(r.ip), times(Ip(r.ip)), now) then 1
            else if !HasRoom(rates, Endpoint(r.path), times(Endpoint(r.path)), now) then 2
            else if r.session == "" then 3
            else if !HasRoom(rates, Session(r.session), times(Session(r.session)), now) then 3
            else 4
  {
    hide HasRoom;
    var k := Passes(rates, times, r, now);
    assert forall i: nat :: i < k ==> HasRoom(rates, Stage(r, i), times(Stage(r, i)), now);
    assert Stage(r, 0) == Global && Stage(r, 1) == Ip(r.ip) && Stage(r, 2) == Endpoint(r.path);
    assert r.session != "" ==> Stage(r, 3) == Session(r.session);
  }

  // ---- what the sweep leaves ----

  predicate IpKept(rates: Rates, held: seq<int>, log: seq<int>, now: int) {
    && Sorted(held) && Until(held, now) && Until(log, now)
    && (held != [] ==> Last(held) == Last(log))
    && (held == [] && log != [] ==> now - Last(log).value > 600_000_000_000)
    && (rates.perIP <= 0 ==> log == [])
  }

  lemma RequestKeepsIp(rates: Rates, held: seq<int>, log: seq<int>, id: CounterId, r: Request, passed: nat, now: int)
    requires IpKept(rates, held, log, now) && id.Ip?
    requires Position(r, id) < passed ==> HasRoom(rates, id, held, now)
    requires Position(r, id) == passed < StageCount(r) ==> !HasRoom(rates, id, held, now)
    ensures var log' := if Position(r, id) < passed then log + [now] else log;
            IpKept(rates, Recorded(id, held, r, passed, now), log', now)
  {
    hide Live, Sorted, Stage, Position;
    PrunedIp(held, now);
    var valid := Live(held, now - 1_000_000_000);
    if Position(r, id) < passed {
      assert Last(valid + [now]) == Last(log + [now]) == Some(now);
    }
  }

  lemma PrunedIp(held: seq<int>, now: int)
    requires Sorted(held) && Until(held, now)
    ensures var valid := Live(held, now - 1_000_000_000);
            && Sorted(valid) && Until(valid, now) && Sorted(valid + [now])
            && (valid != [] ==> held != [] && Last(valid) == Last(held))
  {
    var valid := Live(held, now - 1_000_000_000);
    LiveLast(held, now - 1_000_000_000);
    LiveSorted(held, now - 1_000_000_000);
    SortedAppend(valid, now);
  }

  lemma {:induction false} IpFollows(rates: Rates, events: Events, ip: string, now: int)
    requires Ordered(events) && (events.Then? ==> events.last.at <= now)
    ensures var run := Execute(rates, events); IpKept(rates, run.times(Ip(ip)), Log(run.past, Ip(ip)), now)
  {
    hide Live, Sorted, Recorded;
    NothingHeld();
    if events.Then? {
      IpFollows(rates, events.before, ip, events.last.at);
      var run := Execute(rates, events.before);
      if events.last.Arrive? {
        var r, at := events.last.request, events.last.at;
        var passed := Passes(rates, run.times, r, at);
        assert Position(r, Ip(ip)) < passed ==> Stage(r, Position(r, Ip(ip))) == Ip(ip);
        RequestKeepsIp(rates, run.times(Ip(ip)), Log(run.past, Ip(ip)), Ip(ip), r, passed, at);
      }
    }
  }

  lemma NothingHeld()
    ensures Sorted([])
  {
  }

  /** After a sweep, an IP's counter holds something if and only if a request of that IP got past it within
      the last ten minutes; the other counters stay as they were. */
  lemma IpKeptExactlyWhen(rates: Rates, events: Events, ip: string, now: int)
    requires Ordered(events) && (events.Then? ==> events.last.at <= now)
    ensures var before, after := Execute(rates, events), Execute(rates, Then(events, Sweep(now)));
            var log := GotPast(before.past, 1, OfIp(ip));
            && (after.times(Ip(ip)) != [] <==> log != [] && now - log[|log| - 1] <= 600_000_000_000)
            && forall id: CounterId :: !id.Ip? ==> after.times(id) == before.times(id)
  {
    IpFollows(rates, events, ip, now);
    GotPastIs(rates, events, Ip(ip), 1, OfIp(ip));
  }
}
