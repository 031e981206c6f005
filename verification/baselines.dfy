/** Online statistics of one path's decisions, and the automatic whitelist. Rates are real numbers; the
    standard deviation is represented by its square. */
module Baselines {
  import opened Options
  import opened Time

  const LIFETIME: int := 7 * 24 * HOUR
  const IDLE: int := 72 * HOUR

  datatype Baseline = Baseline(total: nat, allowed: nat, mean: real, sumSquares: real, variance: real, lastSeen: int)

  /** One decision for the path: whether it allowed, how many seconds the clock says have passed since the
      path was last seen, and when. */
  datatype Record = Record(allow: bool, elapsed: real, at: int)

  function NewBaseline(at: int): Baseline {
    Baseline(0, 0, 0.0, 0.0, 0.0, at)
  }

  function Rate(allowed: nat, elapsed: real): real {
    allowed as real / (if elapsed > 1.0 then elapsed else 1.0)
  }

  /** The running mean and sum of squares after one more rate. */
  function Update(b: Baseline, rate: real): Baseline
    requires b.total > 0
  {
    if b.mean > 0.0 then
      var mean := b.mean + (rate - b.mean) / b.total as real;
      var sumSquares := b.sumSquares + (rate - b.mean) * (rate - mean);
      b.(mean := mean, sumSquares := sumSquares, variance := sumSquares / b.total as real)
    else b.(mean := rate)
  }

  function Observe(b: Baseline, r: Record, evaluation: bool): Baseline {
    var counted := b.(total := b.total + 1, lastSeen := r.at);
    if !r.allow then counted
    else
      var allowed := counted.(allowed := b.allowed + 1);
      if evaluation then Update(allowed, Rate(b.allowed + 1, r.elapsed)) else allowed
  }

  // ---- the life of one baseline ----

  datatype Records = NoRecords | Then(before: Records, last: Record)

  function Learned(records: Records): Baseline {
    match records
    case NoRecords => NewBaseline(0)
    case Then(before, r) => Observe(Learned(before), r, true)
  }

  function Allowed(records: Records): nat {
    match records
    case NoRecords => 0
    case Then(before, r) => Allowed(before) + if r.allow then 1 else 0
  }

  function Length(records: Records): nat {
    match records
    case NoRecords => 0
    case Then(before, _) => Length(before) + 1
  }

  datatype Rates = NoRates | Also(before: Rates, last: real)

  /** The rate of every allowed request. */
  function RatesOf(records: Records): Rates {
    match records
    case NoRecords => NoRates
    case Then(before, r) =>
      if r.allow then Also(RatesOf(before), Rate(Allowed(records), r.elapsed)) else RatesOf(before)
  }

  function Size(rates: Rates): nat {
    match rates
    case NoRates => 0
    case Also(before, _) => Size(before) + 1
  }

  function Sum(rates: Rates): real {
    match rates
    case NoRates => 0.0
    case Also(before, x) => Sum(before) + x
  }

  function Squared(x: real): real { x * x }

  /** The sum of squared deviations from m. */
  function Deviations(rates: Rates, m: real): real {
    match rates
    case NoRates => 0.0
    case Also(before, x) => Deviations(before, m) + Squared(x - m)
  }

  predicate AllAllowed(records: Records) {
    match records
    case NoRecords => true
    case Then(before, r) => AllAllowed(before) && r.allow
  }

  lemma {:induction false} Counts(records: Records)
    ensures Learned(records).total == Length(records) && Learned(records).allowed == Allowed(records)
    ensures Size(RatesOf(records)) == Allowed(records) <= Length(records)
    ensures AllAllowed(records) ==> Allowed(records) == Length(records)
  {
    if records.Then? {
      Counts(records.before);
    }
  }

  lemma RatePositive(allowed: nat, elapsed: real)
    requires allowed > 0
    ensures Rate(allowed, elapsed) > 0.0
  {
  }

  // ---- the running sums are the real ones ----

  lemma SquareShift(x: real, m: real, d: real)
    ensures Squared(x - (m + d)) == Squared(x - m) + d * d - 2.0 * d * (x - m)
  {
  }

  /** Moving the reference point by d. */
  lemma {:induction false} DeviationsShift(rates: Rates, m: real, d: real)
    ensures Deviations(rates, m + d) ==
            Deviations(rates, m) + Size(rates) as real * (d * d) - 2.0 * d * (Sum(rates) - Size(rates) as real * m)
  {
    hide Squared;
    if rates.Also? {
      var n := Size(rates.before) as real;
      DeviationsShift(rates.before, m, d);
      SquareShift(rates.last, m, d);
      assert Size(rates) as real == n + 1.0;
      Regroup(n, m, d, Sum(rates.before), rates.last);
    }
  }

  lemma Regroup(n: real, m: real, d: real, sum: real, x: real)
    ensures (n + 1.0) * (d * d) - 2.0 * d * (sum + x - (n + 1.0) * m)
         == n * (d * d) - 2.0 * d * (sum - n * m) + (d * d - 2.0 * d * (x - m))
  {
  }

  /** With n rates of mean m, one more rate x moves the mean by d = (x - m) / (n + 1). */
  lemma MeanMoves(n: real, m: real, x: real, d: real)
    requires n >= 0.0 && d == (x - m) / (n + 1.0)
    ensures (n + 1.0) * (m + d) == n * m + x
    ensures n * (d * d) + Squared(x - (m + d)) == (x - m) * (x - (m + d))
  {
    assert x - m == (n + 1.0) * d;
    assert x - (m + d) == n * d;
    assert Squared(n * d) == n * n * (d * d);
    assert ((n + 1.0) * d) * (n * d) == (n * n + n) * (d * d);
  }

  /** When every decision recorded is to allow, the running mean times the count is the sum of the rates,
      and the running sum of squares is the sum of squared deviations from that mean. */
  lemma {:induction false} StatisticsAreExact(records: Records)
    requires AllAllowed(records)
    ensures var b, rates := Learned(records), RatesOf(records);
            && b.total == Size(rates)
            && b.total as real * b.mean == Sum(rates)
            && b.sumSquares == Deviations(rates, b.mean)
            && (records.Then? ==> b.mean > 0.0)
  {
    hide Squared, Rate, Update, Deviations, Sum;
    Counts(records);
    if records.NoRecords? {
      NothingIsExact();
    } else {
      StatisticsAreExact(records.before);
      Counts(records.before);
      var b := Learned(records.before);
      var counted := b.(total := b.total + 1, allowed := b.allowed + 1, lastSeen := records.last.at);
      var x := Rate(Allowed(records), records.last.elapsed);
      RatePositive(Allowed(records), records.last.elapsed);
      if records.before.Then? {
        StepIsExact(counted, RatesOf(records.before), x);
      } else {
        FirstIsExact(counted, x);
      }
    }
  }

  lemma NothingIsExact()
    ensures Sum(NoRates) == 0.0 && forall m :: Deviations(NoRates, m) == 0.0
  {
  }

  lemma FirstIsExact(b: Baseline, x: real)
    requires b.total == 1 && b.mean == 0.0 == b.sumSquares
    ensures var after := Update(b, x);
            && after.total == 1 && after.allowed == b.allowed
            && after.mean == x == Sum(Also(NoRates, x))
            && after.sumSquares == 0.0 == Deviations(Also(NoRates, x), x)
  {
    assert Squared(x - x) == 0.0;
  }

  /** One more rate, on a baseline that has just counted its decision. */
  lemma StepIsExact(b: Baseline, rates: Rates, x: real)
    requires b.total - 1 == Size(rates) > 0 && b.mean > 0.0 && x > 0.0
    requires (b.total - 1) as real * b.mean == Sum(rates) && b.sumSquares == Deviations(rates, b.mean)
    ensures var after := Update(b, x);
            && after.total == b.total && after.allowed == b.allowed
            && after.total as real * after.mean == Sum(Also(rates, x))
            && after.sumSquares == Deviations(Also(rates, x), after.mean)
            && after.mean > 0.0
  {
    hide Squared;
    var n, m := (b.total - 1) as real, b.mean;
    var d := (x - m) / (n + 1.0);
    assert b.total as real == n + 1.0;
    MeanMoves(n, m, x, d);
    DeviationsShift(rates, m, d);
    MeanStaysBetween(n + 1.0, m, x, if m < x then m else x, if m < x then x else m);
  }

  // ---- any mix of decisions ----

  lemma MeanStaysBetween(n: real, m: real, x: real, least: real, greatest: real)
    requires n >= 1.0 && least <= m <= greatest && least <= x <= greatest
    ensures least <= m + (x - m) / n <= greatest
  {
    var d := (x - m) / n;
    assert n * d == x - m;
    if x >= m {
      assert 0.0 <= d <= x - m;
    } else {
      assert x - m <= d <= 0.0;
    }
  }

  predicate Within(rates: Rates, least: real, greatest: real) {
    match rates
    case NoRates => true
    case Also(before, x) => Within(before, least, greatest) && least <= x <= greatest
  }

  /** One decision, of any kind, never lowers the sum of squares, so the standard deviation is defined. */
  lemma SumSquaresGrows(b: Baseline, r: Record, evaluation: bool)
    ensures Observe(b, r, evaluation).sumSquares >= b.sumSquares
  {
    hide Rate;
    var n := (b.total + 1) as real;
    var x := Rate(b.allowed + 1, r.elapsed);
    if b.mean > 0.0 {
      var d := (x - b.mean) / n;
      assert x - b.mean == n * d;
      ProductNotNegative(n, d);
      assert (x - b.mean) * (x - (b.mean + d)) == (n * d) * (n * d - d);
    }
  }

  lemma ProductNotNegative(n: real, d: real)
    requires n >= 1.0
    ensures (n * d) * (n * d - d) >= 0.0
  {
    assert (n * d) * (n * d - d) == (n * (n - 1.0)) * (d * d);
    assert n * (n - 1.0) >= 0.0 && d * d >= 0.0;
  }

  /** For any mix of decisions the mean, once set, lies between the least and the greatest rate, and the
      variance is the sum of squares over the count at the last rate: never negative. */
  lemma {:induction false} MeanIsBetween(records: Records, least: real, greatest: real)
    requires Within(RatesOf(records), least, greatest)
    ensures var b := Learned(records);
            && (RatesOf(records).Also? ==> b.mean > 0.0 && least <= b.mean <= greatest)
            && (RatesOf(records).NoRates? ==> b.mean == 0.0)
            && b.sumSquares >= 0.0 && b.variance >= 0.0
  {
    hide Rate, Update;
    Counts(records);
    if records.Then? {
      var b := Learned(records.before);
      MeanIsBetween(records.before, least, greatest);
      Counts(records.before);
      SumSquaresGrows(b, records.last, true);
      if records.last.allow {
        var counted := b.(total := b.total + 1, allowed := b.allowed + 1, lastSeen := records.last.at);
        RatePositive(Allowed(records), records.last.elapsed);
        UpdateIsBetween(counted, Rate(Allowed(records), records.last.elapsed), least, greatest);
      }
    }
  }

  lemma UpdateIsBetween(b: Baseline, x: real, least: real, greatest: real)
    requires b.total > 0 && x > 0.0 && least <= x <= greatest && b.variance >= 0.0
    requires b.mean > 0.0 ==> least <= b.mean <= greatest
    requires Update(b, x).sumSquares >= 0.0
    ensures Update(b, x).mean > 0.0 && least <= Update(b, x).mean <= greatest
    ensures Update(b, x).variance >= 0.0
  {
    if b.mean > 0.0 {
      MeanStaysBetween(b.total as real, b.mean, x, least, greatest);
      MeanStaysBetween(b.total as real, b.mean, x, if b.mean < x then b.mean else x, if b.mean < x then x else b.mean);
    }
  }

  // ---- the automatic whitelist ----

  predicate Qualifies(total: nat, allowed: nat) {
    total > 100 && allowed > total * 90 / 100
  }

  /** The integer division loses nothing: a path qualifies when more than nine in ten of more than a
      hundred decisions allowed. */
  lemma QualifiesMeans(total: nat, allowed: nat)
    ensures Qualifies(total, allowed) <==> total > 100 && 10 * allowed > 9 * total
  {
  }

  /** One path: its baseline, and when its whitelist entry expires. */
  datatype Path = Path(baseline: Option<Baseline>, expires: Option<int>)

  function RecordPath(p: Path, r: Record, evaluation: bool): Path {
    var b := Observe(if p.baseline.Some? then p.baseline.value else NewBaseline(r.at), r, evaluation);
    if evaluation && Qualifies(b.total, b.allowed) && p.expires.None? then
      Path(Some(b), Some(r.at + LIFETIME))
    else Path(Some(b), p.expires)
  }

  function SweepPath(p: Path, now: int): Path {
    Path(if p.baseline.Some? && now > p.baseline.value.lastSeen + IDLE then None else p.baseline,
         if p.expires.Some? && now > p.expires.value then None else p.expires)
  }

  predicate Whitelisted(p: Path, now: int) {
    p.expires.Some? && now <= p.expires.value
  }

  datatype Event = Recorded(r: Record) | Swept(at: int)
  datatype Events = NoEvents | Next(before: Events, last: Event)

  function Lived(events: Events, evaluation: bool): Path {
    match events
    case NoEvents => Path(None, None)
    case Next(before, Recorded(r)) => RecordPath(Lived(before, evaluation), r, evaluation)
    case Next(before, Swept(at)) => SweepPath(Lived(before, evaluation), at)
  }

  /** A prefix of the run that ends in the decision, at time `at`, by which the path qualified. */
  predicate Earned(events: Events, at: int, evaluation: bool) {
    events.Next? &&
    ((events.last.Recorded? && events.last.r.at == at
      && var b := Lived(events, evaluation).baseline; b.Some? && Qualifies(b.value.total, b.value.allowed))
     || Earned(events.before, at, evaluation))
  }

  /** A whitelist entry stems from a decision by which the path qualified, while evaluating, and is good
      for seven days from then: later decisions never extend it. */
  lemma {:induction false} EntryWasEarned(events: Events, evaluation: bool)
    ensures var p := Lived(events, evaluation);
            p.expires.Some? ==> evaluation && Earned(events, p.expires.value - 604_800_000_000_000, evaluation)
  {
    hide Observe, Qualifies;
    if events.Next? {
      EntryWasEarned(events.before, evaluation);
    }
  }

  // ---- when a path that qualifies is whitelisted: read off the run ----

  predicate Qualified(events: Events) {
    var b := Lived(events, true).baseline;
    b.Some? && Qualifies(b.value.total, b.value.allowed)
  }

  /** The last decision made an entry: the path qualifies by it, and no earlier entry is left. */
  ghost predicate Grants(events: Events)
    decreases events, 0
  {
    && events.Next? && events.last.Recorded? && Qualified(events)
    && forall t :: !Holds(events.before, {}, t)
  }

  /** A decision at time t made an entry, and no sweep since, nor one of `later`, came after its expiry. */
  ghost predicate Holds(events: Events, later: set<int>, t: int)
    decreases events, 1
  {
    match events
    case NoEvents => false
    case Next(before, Recorded(r)) =>
      (r.at == t && Grants(events) && forall at :: at in later ==> at <= t + LIFETIME) || Holds(before, later, t)
    case Next(before, Swept(at)) => Holds(before, later + {at}, t)
  }

  lemma {:induction false} HoldsMeans(events: Events, later: set<int>, t: int)
    ensures Holds(events, later, t) <==>
            Lived(events, true).expires == Some(t + LIFETIME) && forall at :: at in later ==> at <= t + LIFETIME
    decreases events, 1
  {
    hide Observe, Qualifies;
    match events
    case NoEvents => {}
    case Next(before, Recorded(r)) => {
      HoldsMeans(before, later, t);
      GrantsMeans(events);
    }
    case Next(before, Swept(at)) => {
      HoldsMeans(before, later + {at}, t);
    }
  }

  lemma {:induction false} GrantsMeans(events: Events)
    requires events.Next?
    ensures Grants(events) <==>
            events.last.Recorded? && Qualified(events) && Lived(events.before, true).expires.None?
    decreases events, 0
  {
    var held := Lived(events.before, true).expires;
    forall t
      ensures Holds(events.before, {}, t) <==> held == Some(t + LIFETIME)
    {
      HoldsMeans(events.before, {}, t);
    }
    if held.Some? {
      assert Holds(events.before, {}, held.value - LIFETIME);
    }
  }

  /** An entry expired before `now`, and no sweep came between. */
  ghost predicate Lapsed(events: Events, now: int) {
    exists t :: Holds(events, {}, t) && t + LIFETIME < now
  }

  /** After a decision by which it qualifies, a path is whitelisted if and only if no entry of it expired
      before that decision without a sweep in between. */
  lemma WhitelistedExactlyWhen(events: Events)
    requires events.Next? && events.last.Recorded? && Qualified(events)
    ensures var now := events.last.r.at;
            Whitelisted(Lived(events, true), now) <==> !Lapsed(events.before, now)
  {
    hide Observe, Qualifies;
    var held := Lived(events.before, true).expires;
    forall t
      ensures Holds(events.before, {}, t) <==> held == Some(t + LIFETIME)
    {
      HoldsMeans(events.before, {}, t);
    }
    if held.Some? {
      assert Holds(events.before, {}, held.value - LIFETIME);
    }
  }

  // ---- a run that keeps a qualifying path off the whitelist ----

  const TICK: int := 15 * MINUTE

  /** n requests at the start, all allowed. */
  function Opening(n: nat): Events {
    if n == 0 then NoEvents else Next(Opening(n - 1), Recorded(Record(true, 0.0, 0)))
  }

  /** After `first` of them, an allowed request every quarter of an hour, just before the sweep. */
  function Steadily(first: nat, n: nat): Events {
    if n == 0 then Opening(first)
    else Next(Next(Steadily(first, n - 1), Recorded(Record(true, 0.0, n * TICK))), Swept(n * TICK))
  }

  predicate Praised(p: Path, n: nat, seen: int, expires: Option<int>) {
    && p.baseline.Some? && p.baseline.value.total == n && p.baseline.value.allowed == n
    && p.baseline.value.lastSeen == seen && p.expires == expires
  }

  lemma OneMore(p: Path, n: nat, seen: int, expires: Option<int>, at: int)
    requires Praised(p, n, seen, expires)
    ensures Praised(RecordPath(p, Record(true, 0.0, at), true), n + 1, at,
                    if n + 1 > 100 && expires.None? then Some(at + LIFETIME) else expires)
  {
    QualifiesMeans(n + 1, n + 1);
  }

  lemma {:induction false} OpeningPraises(n: nat)
    requires n >= 1
    ensures Praised(Lived(Opening(n), true), n, 0, if n > 100 then Some(LIFETIME) else None)
  {
    hide RecordPath;
    if n == 1 {
      FirstRecord();
    } else {
      OpeningPraises(n - 1);
      OneMore(Lived(Opening(n - 1), true), n - 1, 0, if n - 1 > 100 then Some(LIFETIME) else None, 0);
    }
  }

  lemma FirstRecord()
    ensures Praised(Lived(Opening(1), true), 1, 0, None)
  {
    assert Lived(Opening(0), true) == Path(None, None);
  }

  lemma {:induction false} SteadilyPraises(first: nat, n: nat)
    requires first > 100 && n * TICK <= LIFETIME
    ensures Praised(Lived(Steadily(first, n), true), first + n, n * TICK, Some(LIFETIME))
  {
    hide RecordPath;
    if n == 0 {
      OpeningPraises(first);
    } else {
      SteadilyPraises(first, n - 1);
      OneMore(Lived(Steadily(first, n - 1), true), first + n - 1, (n - 1) * TICK, Some(LIFETIME), n * TICK);
    }
  }

  /** More than a hundred allowed requests, a week of nothing else with the sweep every quarter of an hour,
      and one more a nanosecond later: the path qualifies, and is not whitelisted. */
  lemma PraisedButNotWhitelisted(first: nat, week: nat) returns (events: Events)
    requires first > 100 && week * TICK == LIFETIME
    ensures events == Next(Steadily(first, week), Recorded(Record(true, 0.0, LIFETIME + 1)))
    ensures Qualified(events) && Lapsed(events.before, LIFETIME + 1)
    ensures !Whitelisted(Lived(events, true), LIFETIME + 1)
  {
    hide RecordPath, Holds;
    events := Next(Steadily(first, week), Recorded(Record(true, 0.0, LIFETIME + 1)));
    SteadilyPraises(first, week);
    OneMore(Lived(Steadily(first, week), true), first + week, LIFETIME, Some(LIFETIME), LIFETIME + 1);
    QualifiesMeans(first + week + 1, first + week + 1);
    WhitelistedExactlyWhen(events);
  }

  /** Such a week has 672 sweeps. */
  lemma WeekOfSweeps()
    ensures 672 * TICK == LIFETIME
  {
  }
}
