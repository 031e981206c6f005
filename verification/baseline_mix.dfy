/** The learned statistics for any mix of decisions, and what the sweep leaves of a baseline. */
module BaselineMix {
  import opened Baselines
  import opened Options

  // ---- the statistics of a mix ----

  function Repeated(x: real, n: nat): Rates {
    if n == 0 then NoRates else Also(Repeated(x, n - 1), x)
  }

  function Mean(rates: Rates): real
    requires rates.Also?
  {
    Sum(rates) / Size(rates) as real
  }

  /** One number for every decision: for one that allows, how many have allowed so far per second since the
      path was last seen, or per second when that is less; for one that does not, the mean of the numbers so
      far. Decisions before the first that allows take its number. */
  function Counted(records: Records): Rates {
    match records
    case NoRecords => NoRates
    case Then(before, r) =>
      if r.allow then
        var x := (Allowed(before) + 1) as real / if r.elapsed > 1.0 then r.elapsed else 1.0;
        if Counted(before).NoRates? then Repeated(x, Length(records)) else Also(Counted(before), x)
      else if Counted(before).NoRates? then NoRates
      else Also(Counted(before), Mean(Counted(before)))
  }

  lemma {:induction false} RepeatedIs(x: real, n: nat)
    ensures Size(Repeated(x, n)) == n && Sum(Repeated(x, n)) == n as real * x && Deviations(Repeated(x, n), x) == 0.0
  {
    if n > 0 {
      RepeatedIs(x, n - 1);
      assert Squared(x - x) == 0.0;
    }
  }

  predicate Exact(b: Baseline, c: Rates, n: nat) {
    && b.total == n
    && (c.NoRates? ==> b.mean == 0.0 && b.sumSquares == 0.0)
    && (c.Also? ==> Size(c) == n && b.mean > 0.0 && n as real * b.mean == Sum(c)
                    && b.sumSquares == Deviations(c, b.mean))
  }

  lemma {:induction false} MixFollows(records: Records)
    ensures Exact(Learned(records), Counted(records), Length(records))
  {
    hide Exact, Observe;
    if records.NoRecords? {
      NothingIsMixed();
    } else {
      var b, r, c, n := Learned(records.before), records.last, Counted(records.before), Length(records.before);
      MixFollows(records.before);
      Counts(records.before);
      if r.allow {
        AllowedIsRate(b, r, c, n);
      } else {
        DeniedIsMean(b, r, c, n);
      }
    }
  }

  lemma NothingIsMixed()
    ensures Exact(NewBaseline(0), NoRates, 0)
  {
  }

  lemma AllowedIsRate(b: Baseline, r: Record, c: Rates, n: nat)
    requires Exact(b, c, n) && r.allow
    ensures var x := (b.allowed + 1) as real / if r.elapsed > 1.0 then r.elapsed else 1.0;
            Exact(Observe(b, r, true), if c.NoRates? then Repeated(x, n + 1) else Also(c, x), n + 1)
  {
    hide Exact, Rate, Update, Repeated;
    var counted := b.(total := b.total + 1, allowed := b.allowed + 1, lastSeen := r.at);
    RateIs(b.allowed + 1, r.elapsed);
    ExactTotal(b, c, n);
    if c.NoRates? {
      FirstRate(b, counted, Rate(b.allowed + 1, r.elapsed), n);
    } else {
      NextRate(b, counted, Rate(b.allowed + 1, r.elapsed), c, n);
    }
  }

  lemma ExactTotal(b: Baseline, c: Rates, n: nat)
    requires Exact(b, c, n)
    ensures b.total == n
  {
  }

  lemma FirstRate(b: Baseline, counted: Baseline, x: real, n: nat)
    requires Exact(b, NoRates, n) && x > 0.0
    requires counted.total == n + 1 && counted.mean == b.mean && counted.sumSquares == b.sumSquares
    ensures Exact(Update(counted, x), Repeated(x, n + 1), n + 1)
  {
    hide Deviations, Sum;
    RepeatedIs(x, n + 1);
  }

  lemma NextRate(b: Baseline, counted: Baseline, x: real, c: Rates, n: nat)
    requires Exact(b, c, n) && c.Also? && x > 0.0
    requires counted.total == n + 1 && counted.mean == b.mean && counted.sumSquares == b.sumSquares
    ensures Exact(Update(counted, x), Also(c, x), n + 1)
  {
    hide Deviations, Sum, Update;
    StepIsExact(counted, c, x);
  }

  lemma RateIs(allowed: nat, elapsed: real)
    ensures Rate(allowed, elapsed) == allowed as real / if elapsed > 1.0 then elapsed else 1.0
    ensures allowed > 0 ==> Rate(allowed, elapsed) > 0.0
  {
  }

  lemma DeniedIsMean(b: Baseline, r: Record, c: Rates, n: nat)
    requires Exact(b, c, n) && !r.allow
    ensures Exact(Observe(b, r, true), if c.NoRates? then NoRates else Also(c, Mean(c)), n + 1)
  {
    if c.Also? {
      MeanIs(Sum(c), n as real, b.mean);
      assert Squared(b.mean - b.mean) == 0.0;
      assert (n + 1) as real * b.mean == n as real * b.mean + b.mean;
    }
  }

  /** The decisions up to the last that allows. */
  function UpToAllowed(records: Records): Records {
    if records.NoRecords? || records.last.allow then records else UpToAllowed(records.before)
  }

  predicate Varies(b: Baseline, c: Rates, n: nat) {
    && (c.NoRates? ==> b.variance == 0.0)
    && (c.Also? ==> n > 0 && b.variance == b.sumSquares / n as real)
  }

  lemma {:induction false} VarianceFollows(records: Records)
    ensures Varies(Learned(records), Counted(records), Length(UpToAllowed(records)))
  {
    hide Observe, Exact, Mean;
    if records.Then? {
      VarianceFollows(records.before);
      MixFollows(records.before);
      var b, r, c := Learned(records.before), records.last, Counted(records.before);
      if r.allow {
        AllowedVaries(b, r, c, Length(records.before));
        assert UpToAllowed(records) == records;
      } else {
        DeniedVaries(b, r);
      }
    }
  }

  lemma AllowedVaries(b: Baseline, r: Record, c: Rates, n: nat)
    requires Exact(b, c, n) && r.allow && (c.NoRates? ==> b.variance == 0.0)
    ensures Observe(b, r, true).variance == Observe(b, r, true).sumSquares / (n + 1) as real
  {
    hide Rate, Deviations, Sum;
  }

  lemma DeniedVaries(b: Baseline, r: Record)
    requires !r.allow
    ensures Observe(b, r, true).variance == b.variance && Observe(b, r, true).sumSquares == b.sumSquares
  {
  }

  /** For any mix of decisions, once one has allowed, the learned mean and sum of squares are exactly those of
      the numbers counted, one for every decision; the variance divides by how many there were up to the last
      that allowed. Before that all three are zero. */
  lemma StatisticsOfMix(records: Records)
    ensures var b, c := Learned(records), Counted(records);
            if c.NoRates? then b.mean == 0.0 && b.sumSquares == 0.0 && b.variance == 0.0
            else
              && Size(c) == Length(records) && Length(UpToAllowed(records)) > 0
              && b.mean == Mean(c) && b.sumSquares == Deviations(c, Mean(c))
              && b.variance == Deviations(c, Mean(c)) / Length(UpToAllowed(records)) as real
    ensures Counted(records).NoRates? <==> Allowed(records) == 0
  {
    hide Exact, Learned, Deviations, Sum, Counted, UpToAllowed;
    MixFollows(records);
    VarianceFollows(records);
    CountedSome(records);
    ExactMeans(Learned(records), Counted(records), Length(records));
  }

  lemma ExactMeans(b: Baseline, c: Rates, n: nat)
    requires Exact(b, c, n)
    ensures c.NoRates? ==> b.mean == 0.0 && b.sumSquares == 0.0
    ensures c.Also? ==> Size(c) == n && b.mean == Mean(c) && b.sumSquares == Deviations(c, Mean(c))
  {
    hide Deviations, Sum;
    if c.Also? {
      MeanIs(Sum(c), n as real, b.mean);
    }
  }

  lemma MeanIs(sum: real, n: real, mean: real)
    requires n > 0.0 && n * mean == sum
    ensures sum / n == mean
  {
  }

  lemma {:induction false} CountedSome(records: Records)
    ensures Counted(records).NoRates? <==> Allowed(records) == 0
  {
    if records.Then? {
      CountedSome(records.before);
    }
  }

  // ---- the sweep ----

  function At(e: Event): int {
    if e.Recorded? then e.r.at else e.at
  }

  predicate Ordered(events: Events) {
    match events
    case NoEvents => true
    case Next(before, e) => Ordered(before) && (before.Next? ==> At(before.last) <= At(e))
  }

  /** When a decision for the path was last recorded. */
  function LastRecord(events: Events): Option<int> {
    match events
    case NoEvents => None
    case Next(before, e) => if e.Recorded? then Some(e.r.at) else LastRecord(before)
  }

  predicate Keeps(b: Option<Baseline>, last: Option<int>, now: int) {
    && (b.Some? ==> last == Some(b.value.lastSeen))
    && (b.None? && last.Some? ==> now - last.value > 259_200_000_000_000)
  }

  lemma {:induction false} BaselineFollows(events: Events, evaluation: bool, now: int)
    requires Ordered(events) && (events.Next? ==> At(events.last) <= now)
    ensures Keeps(Lived(events, evaluation).baseline, LastRecord(events), now)
  {
    hide Observe, Qualifies;
    if events.Next? {
      BaselineFollows(events.before, evaluation, At(events.last));
      if events.last.Recorded? {
        var b := Lived(events.before, evaluation).baseline;
        SeenThen(if b.Some? then b.value else NewBaseline(events.last.r.at), events.last.r, evaluation);
      }
    }
  }

  lemma SeenThen(b: Baseline, r: Record, evaluation: bool)
    ensures Observe(b, r, evaluation).lastSeen == r.at
  {
  }

  /** After a sweep, a path's baseline is kept if and only if a decision was recorded for it within the last
      three days. */
  lemma BaselineKeptExactlyWhen(events: Events, evaluation: bool, now: int)
    requires Ordered(events) && (events.Next? ==> At(events.last) <= now)
    ensures Lived(Next(events, Swept(now)), evaluation).baseline.Some? <==>
            LastRecord(events).Some? && now - LastRecord(events).value <= 259_200_000_000_000
  {
    BaselineFollows(events, evaluation, now);
  }
}
