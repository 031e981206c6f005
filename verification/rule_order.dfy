/** The order in which rules are tried. */
module RuleOrder {

  datatype Rule = Rule(id: string, enabled: bool, priority: int, operator: string, value: string,
                       action: string, severity: string)

  /** Strings compare character by character, a prefix before what it begins. */
  predicate Less(a: string, b: string) {
    if b == "" then false
    else if a == "" then true
    else if a[0] != b[0] then a[0] < b[0]
    else Less(a[1..], b[1..])
  }

  lemma {:induction false} LessIsTotal(a: string, b: string)
    ensures a == b <==> !Less(a, b) && !Less(b, a)
    ensures !(Less(a, b) && Less(b, a))
  {
    if a != "" && b != "" && a[0] == b[0] {
      LessIsTotal(a[1..], b[1..]);
      assert a == [a[0]] + a[1..] && b == [b[0]] + b[1..];
    }
  }

  lemma {:induction false} LessIsTransitive(a: string, b: string, c: string)
    requires Less(a, b) && Less(b, c)
    ensures Less(a, c)
  {
    if a != "" && a[0] == b[0] == c[0] {
      LessIsTransitive(a[1..], b[1..], c[1..]);
    }
  }

  /** By priority, then by id. */
  predicate Before(r: Rule, s: Rule) {
    if r.priority != s.priority then r.priority < s.priority else Less(r.id, s.id)
  }

  predicate NotAfter(r: Rule, s: Rule) {
    !Before(s, r)
  }

  lemma NotAfterIsTransitive(r: Rule, s: Rule, t: Rule)
    requires NotAfter(r, s) && NotAfter(s, t)
    ensures NotAfter(r, t)
  {
    hide Less;
    LessIsTotal(r.id, s.id);
    LessIsTotal(s.id, t.id);
    LessIsTotal(r.id, t.id);
    if Less(r.id, s.id) && Less(s.id, t.id) {
      LessIsTransitive(r.id, s.id, t.id);
    }
  }

  lemma NotAfterIsTotal(r: Rule, s: Rule)
    ensures NotAfter(r, s) || NotAfter(s, r)
    ensures NotAfter(r, s) && NotAfter(s, r) <==> r.priority == s.priority && r.id == s.id
  {
    hide Less;
    LessIsTotal(r.id, s.id);
  }

  predicate Sorted(rules: seq<Rule>) {
    forall i, j :: 0 <= i < j < |rules| ==> NotAfter(rules[i], rules[j])
  }

  // ---- the order by the fields ----

  /** a is a proper prefix of b, or has the smaller character where they first differ. */
  ghost predicate Smaller(a: string, b: string) {
    exists k: nat :: k <= |a| && k <= |b| && a[..k] == b[..k] && DiffersAt(a, b, k)
  }

  predicate DiffersAt(a: string, b: string, k: nat) {
    k < |b| && (k < |a| ==> a[k] < b[k])
  }

  lemma {:induction false} LessMeans(a: string, b: string)
    ensures Less(a, b) <==> Smaller(a, b)
  {
    if a != "" && b != "" && a[0] == b[0] {
      LessMeans(a[1..], b[1..]);
      if Smaller(a[1..], b[1..]) {
        var k: nat :| k < |a| && k < |b| && a[1..][..k] == b[1..][..k] && DiffersAt(a[1..], b[1..], k);
        assert a[..k + 1] == [a[0]] + a[1..][..k] && b[..k + 1] == [b[0]] + b[1..][..k];
        assert DiffersAt(a, b, k + 1);
      }
      if Smaller(a, b) {
        var k: nat :| k <= |a| && k <= |b| && a[..k] == b[..k] && DiffersAt(a, b, k);
        assert a[1..][..k - 1] == a[..k][1..] && b[1..][..k - 1] == b[..k][1..];
        assert DiffersAt(a[1..], b[1..], k - 1);
      }
    } else if b != "" {
      assert Less(a, b) ==> a[..0] == b[..0] && DiffersAt(a, b, 0);
      forall k: nat | k <= |a| && k <= |b| && a[..k] == b[..k] && DiffersAt(a, b, k)
        ensures Less(a, b)
      {
        assert k > 0 ==> a[..k][0] == b[..k][0];
      }
    }
  }

  /** The smaller priority number comes first, and among equal ones the smaller id. */
  ghost predicate InOrder(rules: seq<Rule>) {
    forall i, j :: 0 <= i < j < |rules| ==>
      && rules[i].priority <= rules[j].priority
      && (rules[i].priority == rules[j].priority ==> rules[i].id == rules[j].id || Smaller(rules[i].id, rules[j].id))
  }

  lemma NotAfterMeans(r: Rule, s: Rule)
    ensures NotAfter(r, s) <==>
            r.priority <= s.priority && (r.priority == s.priority ==> r.id == s.id || Smaller(r.id, s.id))
    ensures NotAfter(r, s) <==>
            r.priority < s.priority || (r.priority == s.priority && !Smaller(s.id, r.id))
  {
    hide Less, Smaller;
    LessIsTotal(r.id, s.id);
    LessMeans(r.id, s.id);
    LessMeans(s.id, r.id);
  }

  lemma SortedMeans(rules: seq<Rule>)
    ensures Sorted(rules) <==> InOrder(rules)
  {
    hide NotAfter, Smaller;
    forall i, j | 0 <= i < j < |rules|
      ensures NotAfter(rules[i], rules[j]) <==>
              && rules[i].priority <= rules[j].priority
              && (rules[i].priority == rules[j].priority ==>
                    rules[i].id == rules[j].id || Smaller(rules[i].id, rules[j].id))
    {
      NotAfterMeans(rules[i], rules[j]);
    }
  }

  // ---- removing and inserting ----

  function Without(rules: seq<Rule>, id: string): seq<Rule> {
    if rules == [] then []
    else
      var last := rules[|rules| - 1];
      Without(rules[..|rules| - 1], id) + if last.id == id then [] else [last]
  }

  lemma {:induction false} WithoutMeans(rules: seq<Rule>, id: string, r: Rule)
    ensures multiset(Without(rules, id))[r] == if r.id == id then 0 else multiset(rules)[r]
  {
    if rules != [] {
      var before, last := rules[..|rules| - 1], rules[|rules| - 1];
      WithoutMeans(before, id, r);
      assert rules == before + [last];
      assert multiset(rules) == multiset(before) + multiset{last};
      if last.id != id {
        assert multiset(Without(rules, id)) == multiset(Without(before, id)) + multiset{last};
      } else {
        assert Without(rules, id) == Without(before, id);
      }
    }
  }

  /** What is left is in the old order. */
  lemma {:induction false} WithoutStaysSorted(rules: seq<Rule>, id: string)
    requires Sorted(rules)
    ensures Sorted(Without(rules, id))
    ensures forall r :: r in Without(rules, id) ==> r in rules && r.id != id
  {
    if rules != [] {
      WithoutStaysSorted(rules[..|rules| - 1], id);
    }
  }

  /** Where a new rule goes in a sorted list. */
  method Place(rules: seq<Rule>, r: Rule) returns (k: nat)
    requires Sorted(rules)
    ensures k <= |rules| && Sorted(rules[..k] + [r] + rules[k..])
  {
    hide Before;
    k := 0;
    while k < |rules| && !Before(r, rules[k])
      invariant k <= |rules|
      invariant forall i :: 0 <= i < k ==> NotAfter(rules[i], r)
    {
      k := k + 1;
    }
    forall i | k <= i < |rules|
      ensures NotAfter(r, rules[i])
    {
      NotAfterIsTotal(r, rules[k]);
      if i > k {
        NotAfterIsTransitive(r, rules[k], rules[i]);
      }
    }
  }

  /** Some sorted permutation: what a sort promises, whatever its algorithm and whatever it does with
      equal keys. */
  method Sort(rules: seq<Rule>) returns (sorted: seq<Rule>)
    ensures InOrder(sorted) && multiset(sorted) == multiset(rules)
  {
    hide Before;
    sorted := [];
    for i := 0 to |rules|
      invariant Sorted(sorted) && multiset(sorted) == multiset(rules[..i])
    {
      assert rules[..i + 1] == rules[..i] + [rules[i]];
      var k := Place(sorted, rules[i]);
      assert sorted == sorted[..k] + sorted[k..];
      sorted := sorted[..k] + [rules[i]] + sorted[k..];
    }
    assert rules[..|rules|] == rules;
    SortedMeans(sorted);
  }

  // ---- the order is determined ----

  predicate DistinctKeys(rules: seq<Rule>) {
    forall r, s :: r in rules && s in rules && r.priority == s.priority && r.id == s.id ==> r == s
  }

  /** Two sorted lists of the same rules are the same list, when no two rules share priority and id:
      the order of loading leaves no trace. */
  lemma {:induction false} SortedIsUnique(a: seq<Rule>, b: seq<Rule>)
    requires Sorted(a) && Sorted(b) && multiset(a) == multiset(b) && DistinctKeys(a)
    ensures a == b
  {
    if a == [] {
      assert |multiset(b)| == 0;
    } else {
      assert |a| == |multiset(a)| == |multiset(b)| == |b|;
      SameFirst(a, b);
      Tail(a);
      Tail(b);
      SortedIsUnique(a[1..], b[1..]);
    }
  }

  lemma Tail(a: seq<Rule>)
    requires a != []
    ensures multiset(a[1..]) == multiset(a) - multiset{a[0]} && a == [a[0]] + a[1..]
  {
    assert a == [a[0]] + a[1..];
  }

  lemma SameFirst(a: seq<Rule>, b: seq<Rule>)
    requires Sorted(a) && Sorted(b) && multiset(a) == multiset(b) && DistinctKeys(a) && a != [] && b != []
    ensures a[0] == b[0]
  {
    hide Before;
    assert a[0] in multiset(b) && b[0] in multiset(a);
    var i :| 0 <= i < |b| && b[i] == a[0];
    var j :| 0 <= j < |a| && a[j] == b[0];
    NotAfterIsTotal(a[0], b[0]);
    NotAfterIsTotal(a[0], a[0]);
  }
}
