/** The learning engine object: a baseline object per path, and the whitelist. */
module Learning {
  import B = Baselines
  import O = Options

  datatype Route = Route(text: string)

  class PathBaseline {
    var total: nat
    var allowed: nat
    var mean: real
    var sumSquares: real
    var variance: real // the square of the standard deviation
    var lastSeen: int

    constructor (now: int)
      ensures View() == B.NewBaseline(now)
    {
      total, allowed, mean, sumSquares, variance, lastSeen := 0, 0, 0.0, 0.0, 0.0, now;
    }

    function View(): B.Baseline
      reads this
    {
      B.Baseline(total, allowed, mean, sumSquares, variance, lastSeen)
    }

    method Observe(r: B.Record, evaluation: bool)
      modifies this
      ensures View() == B.Observe(old(View()), r, evaluation)
    {
      total := total + 1;
      lastSeen := r.at;
      if r.allow {
        allowed := allowed + 1;
        if !evaluation {
          return;
        }
        var rate := B.Rate(allowed, r.elapsed);
        if mean > 0.0 {
          var oldMean := mean;
          mean := oldMean + (rate - oldMean) / total as real;
          sumSquares := sumSquares + (rate - oldMean) * (rate - mean);
          variance := sumSquares / total as real;
        } else {
          mean := rate;
        }
      }
    }
  }

  class LearningEngine {
    var baselines: map<Route, PathBaseline>
    var whitelist: map<Route, int> // when each entry expires
    const evaluation: bool

    constructor (evaluation: bool)
      ensures Valid() && baselines == map[] && whitelist == map[] && this.evaluation == evaluation
    {
      baselines, whitelist, this.evaluation := map[], map[], evaluation;
    }

    /** No two paths share a baseline. */
    ghost predicate Valid()
      reads this
    {
      forall a, b :: a in baselines && b in baselines && a != b ==> baselines[a] != baselines[b]
    }

    ghost function PathOf(path: Route): B.Path
      reads this, baselines.Values
    {
      B.Path(if path in baselines then O.Some(baselines[path].View()) else O.None,
             if path in whitelist then O.Some(whitelist[path]) else O.None)
    }

    method Record(path: Route, r: B.Record)
      requires Valid()
      modifies this, baselines.Values
      ensures Valid() && fresh(baselines.Values - old(baselines.Values))
      ensures PathOf(path) == B.RecordPath(old(PathOf(path)), r, evaluation)
      ensures forall other :: other != path ==> PathOf(other) == old(PathOf(other))
    {
      if path !in baselines {
        var bl := new PathBaseline(r.at);
        baselines := baselines[path := bl];
      }
      var bl := baselines[path];
      bl.Observe(r, evaluation);
      if r.allow && !evaluation {
        return;
      }
      if evaluation && bl.total > 100 && bl.allowed > bl.total * 90 / 100 {
        AutoWhitelist(path, r.at);
      }
    }

    /** An entry that is there is left as it is. */
    method AutoWhitelist(path: Route, now: int)
      modifies this`whitelist
      ensures whitelist == if path in old(whitelist) then old(whitelist)
                           else old(whitelist)[path := now + B.LIFETIME]
    {
      if path in whitelist {
        return;
      }
      whitelist := whitelist[path := now + B.LIFETIME];
    }

    method IsWhitelisted(path: Route, now: int) returns (yes: bool)
      ensures yes <==> B.Whitelisted(PathOf(path), now)
    {
      if path !in whitelist {
        return false;
      }
      return !(now > whitelist[path]);
    }

    /** One tick of the cleanup, over both maps. */
    method Cleanup(now: int)
      requires Valid()
      modifies this`whitelist, this`baselines
      ensures Valid()
      ensures forall path :: PathOf(path) == B.SweepPath(old(PathOf(path)), now)
    {
      SweepWhitelist(now);
      SweepBaselines(now);
    }

    method SweepWhitelist(now: int)
      modifies this`whitelist
      ensures whitelist == map p | p in old(whitelist) && !(now > old(whitelist)[p]) :: old(whitelist)[p]
    {
      var todo := whitelist.Keys;
      while todo != {}
        invariant todo <= whitelist.Keys <= old(whitelist).Keys
        invariant forall p :: p in whitelist ==> whitelist[p] == old(whitelist)[p]
        invariant forall p :: p in old(whitelist) && p !in todo ==>
                    (p in whitelist <==> !(now > old(whitelist)[p]))
        decreases |todo|
      {
        var path :| path in todo;
        todo := todo - {path};
        if now > whitelist[path] {
          whitelist := whitelist - {path};
        }
      }
    }

    method SweepBaselines(now: int)
      requires Valid()
      modifies this`baselines
      ensures Valid() && baselines.Keys <= old(baselines).Keys
      ensures forall p :: p in baselines ==> baselines[p] == old(baselines)[p]
      ensures forall p :: p in old(baselines) ==> (p in baselines <==> !(now > old(baselines)[p].lastSeen + B.IDLE))
    {
      var todo := baselines.Keys;
      while todo != {}
        invariant todo <= baselines.Keys <= old(baselines).Keys
        invariant forall p :: p in baselines ==> baselines[p] == old(baselines)[p]
        invariant forall p :: p in old(baselines) && p !in todo ==>
                    (p in baselines <==> !(now > old(baselines)[p].lastSeen + B.IDLE))
        decreases |todo|
      {
        var path :| path in todo;
        todo := todo - {path};
        if now > baselines[path].lastSeen + B.IDLE {
          baselines := baselines - {path};
        }
      }
    }
  }
}
