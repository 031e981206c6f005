/** The flood detector object: counters on the heap, reached through three maps. */
module FloodDetector {
  import opened Windows
  import opened Flood

  class SlidingWindowCounter {
    var timestamps: seq<int>

    constructor ()
      ensures timestamps == []
    {
      timestamps := [];
    }
  }

  class DDoSProtection {
    const rates: Rates
    const globalCounter: SlidingWindowCounter
    var ipCounters: map<string, SlidingWindowCounter>
    var endpointCounters: map<string, SlidingWindowCounter>
    var sessionCounters: map<string, SlidingWindowCounter>

    constructor (rates: Rates)
      ensures Valid() && fresh(Counters()) && this.rates == rates
      ensures forall id :: TimesOf(id) == []
    {
      this.rates := rates;
      globalCounter := new SlidingWindowCounter();
      ipCounters, endpointCounters, sessionCounters := map[], map[], map[];
    }

    predicate Has(id: CounterId)
      reads this
    {
      match id
      case Global => true
      case Ip(key) => key in ipCounters
      case Endpoint(key) => key in endpointCounters
      case Session(key) => key in sessionCounters
    }

    function At(id: CounterId): SlidingWindowCounter
      requires Has(id)
      reads this
    {
      match id
      case Global => globalCounter
      case Ip(key) => ipCounters[key]
      case Endpoint(key) => endpointCounters[key]
      case Session(key) => sessionCounters[key]
    }

    /** No two keys share a counter. */
    ghost predicate Valid()
      reads this
    {
      forall a, b :: Has(a) && Has(b) && a != b ==> At(a) != At(b)
    }

    ghost function Counters(): set<SlidingWindowCounter>
      reads this
    {
      {globalCounter} + ipCounters.Values + endpointCounters.Values + sessionCounters.Values
    }

    ghost function TimesOf(id: CounterId): seq<int>
      reads this, Counters()
    {
      if Has(id) then At(id).timestamps else []
    }

    /** All the counters' contents at once, as a value. */
    ghost function Snapshot(): (times: Times)
      reads this, Counters()
      ensures forall id :: times(id) == TimesOf(id)
    {
      var held := map c: SlidingWindowCounter | c in Counters() :: c.timestamps;
      var (g, ips, paths, sessions) := (globalCounter, ipCounters, endpointCounters, sessionCounters);
      (id: CounterId) =>
        match id
        case Global => held[g]
        case Ip(key) => if key in ips then held[ips[key]] else []
        case Endpoint(key) => if key in paths then held[paths[key]] else []
        case Session(key) => if key in sessions then held[sessions[key]] else []
    }

    method Register(id: CounterId, c: SlidingWindowCounter)
      requires !Has(id)
      modifies this`ipCounters, this`endpointCounters, this`sessionCounters
      ensures Has(id) && At(id) == c && Counters() <= old(Counters()) + {c}
      ensures forall other :: other != id ==> Has(other) == old(Has(other))
      ensures forall other :: other != id && Has(other) ==> At(other) == old(At(other))
    {
      match id
      case Ip(key) => ipCounters := ipCounters[key := c];
      case Endpoint(key) => endpointCounters := endpointCounters[key := c];
      case Session(key) => sessionCounters := sessionCounters[key := c];
    }

    lemma AtCounts(id: CounterId)
      requires Has(id)
      ensures At(id) in Counters()
    {
    }

    method GetOrCreateCounter(id: CounterId) returns (c: SlidingWindowCounter)
      requires Valid()
      modifies this`ipCounters, this`endpointCounters, this`sessionCounters
      ensures Valid() && Has(id) && At(id) == c && fresh(Counters() - old(Counters()))
      ensures forall other :: TimesOf(other) == old(TimesOf(other))
    {
      if Has(id) {
        return At(id);
      }
      forall other | Has(other) ensures At(other) in Counters() { AtCounts(other); }
      c := new SlidingWindowCounter();
      Register(id, c);
    }

    method CheckRate(counter: SlidingWindowCounter, limit: int, now: int) returns (ok: bool)
      modifies counter
      ensures var valid := Live(old(counter.timestamps), now - WINDOW);
              && ok == (|valid| < limit)
              && counter.timestamps == if ok then valid + [now] else valid
    {
      var valid := Prune(counter.timestamps, now - WINDOW);
      counter.timestamps := valid;
      if |valid| >= limit {
        return false;
      }
      counter.timestamps := counter.timestamps + [now];
      return true;
    }

    /** One stage: look the counter up, creating it if need be, and ask it. */
    method CheckStage(id: CounterId, now: int) returns (ok: bool)
      requires Valid()
      modifies this`ipCounters, this`endpointCounters, this`sessionCounters, Counters()
      ensures Valid() && fresh(Counters() - old(Counters()))
      ensures ok == HasRoom(rates, id, old(TimesOf(id)), now)
      ensures TimesOf(id) == Live(old(TimesOf(id)), now - WINDOW) + if ok then [now] else []
      ensures forall other :: other != id ==> TimesOf(other) == old(TimesOf(other))
    {
      var counter := GetOrCreateCounter(id);
      label asked:
      ok := CheckRate(counter, Limit(rates, id), now);
      forall other | other != id ensures TimesOf(other) == old(TimesOf(other)) {
        assert Has(other) ==> At(other) != counter;
        assert TimesOf(other) == old@asked(TimesOf(other));
      }
    }

    /** The k-th stage of a request. */
    method CheckNext(id: CounterId, now: int, ghost before: Times, ghost r: Request, ghost k: nat)
      returns (ok: bool)
      requires Valid() && k < StageCount(r) && Stage(r, k) == id
      requires AfterStages(rates, before, Snapshot(), r, k, now)
      modifies this`ipCounters, this`endpointCounters, this`sessionCounters, Counters()
      ensures Valid() && fresh(Counters() - old(Counters()))
      ensures if ok then AfterStages(rates, before, Snapshot(), r, k + 1, now)
              else AfterRequest(rates, before, Snapshot(), r, k, now)
    {
      ghost var mid := Snapshot();
      ok := CheckStage(id, now);
      StageDone(rates, before, mid, Snapshot(), r, k, now);
    }

    /** How many stages the request passed; all of them means no finding. */
    method DetectHTTPFlood(r: Request, now: int) returns (passed: nat)
      requires Valid()
      modifies this`ipCounters, this`endpointCounters, this`sessionCounters, Counters()
      ensures Valid() && fresh(Counters() - old(Counters()))
      ensures AfterRequest(rates, old(Snapshot()), Snapshot(), r, passed, now)
    {
      ghost var before := Snapshot();
      assert AfterStages(rates, before, before, r, 0, now);
      var ok := CheckNext(Global, now, before, r, 0);
      if !ok { return 0; }
      passed := DetectClientFlood(r, now, before);
    }

    /** The stages after the global one. */
    method DetectClientFlood(r: Request, now: int, ghost before: Times) returns (passed: nat)
      requires Valid() && AfterStages(rates, before, Snapshot(), r, 1, now)
      modifies this`ipCounters, this`endpointCounters, this`sessionCounters, Counters()
      ensures Valid() && fresh(Counters() - old(Counters()))
      ensures AfterRequest(rates, before, Snapshot(), r, passed, now)
    {
      var ok := CheckNext(Ip(r.ip), now, before, r, 1);
      if !ok { return 1; }
      passed := DetectPathFlood(r, now, before);
    }

    /** The stages after the IP. */
    method DetectPathFlood(r: Request, now: int, ghost before: Times) returns (passed: nat)
      requires Valid() && AfterStages(rates, before, Snapshot(), r, 2, now)
      modifies this`ipCounters, this`endpointCounters, this`sessionCounters, Counters()
      ensures Valid() && fresh(Counters() - old(Counters()))
      ensures AfterRequest(rates, before, Snapshot(), r, passed, now)
    {
      var ok := CheckNext(Endpoint(r.path), now, before, r, 2);
      if !ok { return 2; }
      if r.session != "" {
        ok := CheckNext(Session(r.session), now, before, r, 3);
        if !ok { return 3; }
      }
      return StageCount(r);
    }

    /** The IP pass of the cleanup. */
    method Cleanup(now: int)
      requires Valid()
      modifies this`ipCounters
      ensures Valid() && Counters() <= old(Counters())
      ensures forall id :: TimesOf(id) == Swept(id, old(TimesOf(id)), now)
    {
      SweepIps(now);
      forall a, b | Has(a) && Has(b) && a != b ensures At(a) != At(b) {
        assert old(Has(a)) && old(Has(b)) && At(a) == old(At(a)) && At(b) == old(At(b));
      }
    }

    method SweepIps(now: int)
      modifies this`ipCounters
      ensures ipCounters.Keys <= old(ipCounters).Keys
      ensures forall k :: k in ipCounters ==> ipCounters[k] == old(ipCounters)[k]
      ensures forall k :: k in old(ipCounters) ==> (k in ipCounters <==> !Stale(old(ipCounters)[k].timestamps, now))
    {
      hide Stale;
      var todo := ipCounters.Keys;
      while todo != {}
        invariant todo <= ipCounters.Keys <= old(ipCounters).Keys
        invariant forall k :: k in ipCounters ==> ipCounters[k] == old(ipCounters)[k]
        invariant forall k :: k in old(ipCounters) && k !in todo ==>
                    (k in ipCounters <==> !Stale(old(ipCounters)[k].timestamps, now))
        decreases |todo|
      {
        var ip :| ip in todo;
        todo := todo - {ip};
        if Stale(ipCounters[ip].timestamps, now) {
          ipCounters := ipCounters - {ip};
        }
      }
    }
  }
}
