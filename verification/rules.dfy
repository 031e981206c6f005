/** The rule engine object. */
module Rules {
  import opened RuleOrder

  datatype Field = Field(text: string)
  datatype Evaluation = Match | NoMatch | Error
  datatype Decision = Allow | Matched(rule: Rule, score: int)
  datatype Outcome = Done | AlreadyExists | InvalidRegex | NotFound

  function SeverityToScore(severity: string): int {
    match severity
    case "critical" => 95
    case "high" => 75
    case "medium" => 50
    case "low" => 25
    case "info" => 5
    case _ => 50
  }

  // ---- dispatch ----

  predicate Applies(evaluate: (Rule, Field) -> Evaluation, r: Rule, field: Field) {
    r.enabled && evaluate(r, field).Match?
  }

  function Dispatch(rules: seq<Rule>, evaluate: (Rule, Field) -> Evaluation, field: Field, dryRun: bool): Decision {
    if rules == [] then Allow
    else if Applies(evaluate, rules[0], field) && !dryRun then Matched(rules[0], SeverityToScore(rules[0].severity))
    else Dispatch(rules[1..], evaluate, field, dryRun)
  }

  /** Of the rules that are enabled and match without error the decision is one with the smallest priority
      number, and among those with the smallest id; without any, or in a dry run, it is to allow. */
  lemma {:induction false} DispatchIsLeast(rules: seq<Rule>, evaluate: (Rule, Field) -> Evaluation, field: Field,
                                           dryRun: bool)
    requires InOrder(rules)
    ensures match Dispatch(rules, evaluate, field, dryRun)
            case Allow => dryRun || forall r :: r in rules && r.enabled ==> evaluate(r, field) != Match
            case Matched(r, score) =>
              && !dryRun && r in rules && r.enabled && evaluate(r, field) == Match
              && score == SeverityToScore(r.severity)
              && forall s :: s in rules && s.enabled && evaluate(s, field) == Match ==>
                   s.priority > r.priority || (s.priority == r.priority && !Smaller(s.id, r.id))
  {
    hide SeverityToScore, Smaller;
    if rules != [] {
      assert rules == [rules[0]] + rules[1..];
      DispatchIsLeast(rules[1..], evaluate, field, dryRun);
      forall s | s in rules
        ensures rules[0].priority < s.priority || (rules[0].priority == s.priority && !Smaller(s.id, rules[0].id))
      {
        NotAfterMeans(rules[0], s);
        NotAfterIsTotal(s, s);
        SortedMeans(rules);
      }
    }
  }

  /** Rule sets decide the same however they were ordered before loading. */
  lemma LoadingOrderDoesNotMatter(a: seq<Rule>, b: seq<Rule>, evaluate: (Rule, Field) -> Evaluation, field: Field,
                                  dryRun: bool)
    requires InOrder(a) && InOrder(b) && multiset(a) == multiset(b) && DistinctKeys(a)
    ensures Dispatch(a, evaluate, field, dryRun) == Dispatch(b, evaluate, field, dryRun)
  {
    SortedMeans(a);
    SortedMeans(b);
    SortedIsUnique(a, b);
  }

  class Engine {
    var rules: seq<Rule>
    var known: set<string> // the keys of the index by id
    const dryRun: bool
    const evaluate: (Rule, Field) -> Evaluation
    const regexValid: string -> bool

    constructor (dryRun: bool, evaluate: (Rule, Field) -> Evaluation, regexValid: string -> bool)
      ensures Valid() && rules == [] && known == {}
      ensures this.dryRun == dryRun && this.evaluate == evaluate && this.regexValid == regexValid
    {
      rules, known := [], {};
      this.dryRun, this.evaluate, this.regexValid := dryRun, evaluate, regexValid;
    }

    ghost predicate Valid()
      reads this
    {
      InOrder(rules)
    }

    method SortRules()
      modifies this`rules
      ensures Valid() && multiset(rules) == multiset(old(rules))
    {
      rules := Sort(rules);
    }

    /** Replaces everything; rules with a broken regular expression are loaded all the same. */
    method LoadRules(loaded: seq<Rule>)
      modifies this`rules, this`known
      ensures Valid() && multiset(rules) == multiset(loaded)
      ensures known == set r | r in loaded :: r.id
    {
      rules, known := [], {};
      for i := 0 to |loaded|
        invariant rules == loaded[..i]
        invariant known == set r | r in loaded[..i] :: r.id
      {
        assert loaded[..i + 1] == loaded[..i] + [loaded[i]];
        rules := rules + [loaded[i]];
        known := known + {loaded[i].id};
      }
      assert loaded[..|loaded|] == loaded;
      SortRules();
    }

    method AtomicSwap(loaded: seq<Rule>)
      modifies this`rules, this`known
      ensures Valid() && multiset(rules) == multiset(loaded)
      ensures known == set r | r in loaded :: r.id
    {
      var other := new Engine(dryRun, evaluate, regexValid);
      other.LoadRules(loaded);
      rules, known := other.rules, other.known;
    }

    predicate IsRegex(r: Rule) {
      r.operator == "regex" || r.operator == "regex_match"
    }

    method AddRule(r: Rule) returns (o: Outcome)
      requires Valid()
      modifies this`rules, this`known
      ensures Valid()
      ensures o == if r.id in old(known) then AlreadyExists
                   else if IsRegex(r) && !regexValid(r.value) then InvalidRegex else Done
      ensures o == Done ==> multiset(rules) == multiset(old(rules)) + multiset{r} && known == old(known) + {r.id}
      ensures o != Done ==> rules == old(rules) && known == old(known)
    {
      if r.id in known {
        return AlreadyExists;
      }
      if IsRegex(r) && !regexValid(r.value) {
        return InvalidRegex;
      }
      rules := rules + [r];
      known := known + {r.id};
      SortRules();
      return Done;
    }

    /** The slot that the index points to, if it is still one of the list's, is overwritten. */
    method UpdateRule(id: string, updated: Rule, slot: nat) returns (o: Outcome)
      requires Valid()
      modifies this`rules
      ensures Valid() && o == if id in known then Done else NotFound
      ensures multiset(rules) == if o == Done && slot < |old(rules)|
                                 then multiset(old(rules)[slot := updated]) else multiset(old(rules))
      ensures o == NotFound ==> rules == old(rules)
    {
      if id !in known {
        return NotFound;
      }
      if slot < |rules| {
        rules := rules[slot := updated];
      }
      SortRules();
      return Done;
    }

    method ReorderRule(id: string, priority: int, slot: nat) returns (o: Outcome)
      requires Valid()
      modifies this`rules
      ensures Valid() && o == if id in known then Done else NotFound
      ensures multiset(rules) == if o == Done && slot < |old(rules)|
                                 then multiset(old(rules)[slot := old(rules)[slot].(priority := priority)])
                                 else multiset(old(rules))
      ensures o == NotFound ==> rules == old(rules)
    {
      if id !in known {
        return NotFound;
      }
      if slot < |rules| {
        rules := rules[slot := rules[slot].(priority := priority)];
      }
      SortRules();
      return Done;
    }

    /** Every rule of that id goes; the rest stays as it was, in its order, without sorting again. */
    method DeleteRule(id: string) returns (o: Outcome)
      requires Valid()
      modifies this`rules, this`known
      ensures Valid() && o == if id in old(known) then Done else NotFound
      ensures known == old(known) - {id}
      ensures rules == if o == Done then Without(old(rules), id) else old(rules)
    {
      if id !in known {
        return NotFound;
      }
      known := known - {id};
      var filtered := [];
      for i := 0 to |rules|
        invariant rules == old(rules) && known == old(known) - {id}
        invariant filtered == Without(rules[..i], id)
      {
        assert rules[..i + 1][..i] == rules[..i];
        if rules[i].id != id {
          filtered := filtered + [rules[i]];
        }
      }
      assert rules[..|rules|] == rules;
      SortedMeans(rules);
      WithoutStaysSorted(rules, id);
      SortedMeans(filtered);
      rules := filtered;
      return Done;
    }

    method Inspect(field: Field) returns (d: Decision)
      ensures d == Dispatch(rules, evaluate, field, dryRun)
    {
      for i := 0 to |rules|
        invariant Dispatch(rules[i..], evaluate, field, dryRun) == Dispatch(rules, evaluate, field, dryRun)
      {
        var r := rules[i];
        assert rules[i..][1..] == rules[i + 1..];
        if !r.enabled {
          continue;
        }
        if evaluate(r, field).Match? {
          if dryRun {
            continue;
          }
          return Matched(r, SeverityToScore(r.severity));
        }
      }
      return Allow;
    }
  }
}
