/** What the engine makes of its inspectors' answers. */
module Pipeline {

  datatype Action = Block | Allow | Challenge | Monitor | RateLimit
  datatype Decision = Decision(action: Action, score: real)

  /** One slot of the inspector list, for a given request. */
  datatype Answer = Absent | Error | Silent | Decides(decision: Decision)

  /** What a request has gathered so far. */
  datatype Context = Context(decisions: seq<Decision>, threatScore: real, isKnownAttack: bool, botScore: real)

  predicate Blocks(a: Answer) {
    a.Decides? && a.decision.action.Block?
  }

  function Note(ctx: Context, a: Answer): Context {
    if !a.Decides? then ctx
    else
      var d := a.decision;
      var noted := ctx.(decisions := ctx.decisions + [d], threatScore := ctx.threatScore + d.score);
      if d.action.Block? then noted.(isKnownAttack := true, botScore := d.score) else noted
  }

  function Limited(ds: seq<Decision>): bool {
    exists k :: 0 <= k < |ds| && ds[k].action.RateLimit?
  }

  function FinalDecision(ctx: Context): Decision {
    if ctx.threatScore >= 90.0 then Decision(Block, ctx.threatScore)
    else if ctx.threatScore >= 50.0 then Decision(Challenge, ctx.threatScore)
    else if Limited(ctx.decisions) then Decision(RateLimit, ctx.threatScore)
    else Decision(Allow, 0.0)
  }

  /** The answers in order; outside shadow mode the first that blocks is final. */
  function Process(ctx: Context, answers: seq<Answer>, shadow: bool): (Context, Decision)
    decreases |answers|
  {
    if answers == [] then (ctx, FinalDecision(ctx))
    else
      var a := answers[0];
      if Blocks(a) && !shadow then (Note(ctx, a), a.decision)
      else Process(Note(ctx, a), answers[1..], shadow)
  }

  // ---- the verdict, whatever the order ----

  function Score(a: Answer): real {
    if a.Decides? then a.decision.score else 0.0
  }

  function Total(answers: seq<Answer>): real {
    if answers == [] then 0.0 else Score(answers[0]) + Total(answers[1..])
  }

  predicate Limits(a: Answer) {
    a.Decides? && a.decision.action.RateLimit?
  }

  predicate AnyBlocks(answers: seq<Answer>) {
    exists a :: a in answers && Blocks(a)
  }

  predicate AnyLimits(answers: seq<Answer>) {
    exists a :: a in answers && Limits(a)
  }

  function Verdict(blocked: bool, total: real, limited: bool): Action {
    if blocked || total >= 90.0 then Block
    else if total >= 50.0 then Challenge
    else if limited then RateLimit
    else Allow
  }

  /** The final action depends only on whether some answer blocks (outside shadow mode), on the sum of all
      scores, and on whether some answer limits the rate. */
  lemma {:induction false} ActionIsVerdict(ctx: Context, answers: seq<Answer>, shadow: bool)
    ensures Process(ctx, answers, shadow).1.action ==
            Verdict(!shadow && AnyBlocks(answers), ctx.threatScore + Total(answers),
                    Limited(ctx.decisions) || AnyLimits(answers))
    decreases |answers|
  {
    if answers != [] {
      var a := answers[0];
      ActionIsVerdict(Note(ctx, a), answers[1..], shadow);
      assert answers == [a] + answers[1..];
      assert AnyBlocks(answers) <==> Blocks(a) || AnyBlocks(answers[1..]);
      assert AnyLimits(answers) <==> Limits(a) || AnyLimits(answers[1..]);
      NoteLimits(ctx, a);
    }
  }

  lemma NoteLimits(ctx: Context, a: Answer)
    ensures Limited(Note(ctx, a).decisions) <==> Limited(ctx.decisions) || Limits(a)
  {
    if a.Decides? {
      var ds := ctx.decisions + [a.decision];
      assert ds[|ds| - 1] == a.decision;
      if Limited(ctx.decisions) {
        var k :| 0 <= k < |ctx.decisions| && ctx.decisions[k].action.RateLimit?;
        assert ds[k] == ctx.decisions[k];
      }
    }
  }

  lemma {:induction false} TotalOfInsertion(answers: seq<Answer>, k: nat, a: Answer)
    requires k <= |answers|
    ensures Total(answers[..k] + [a] + answers[k..]) == Total(answers) + Score(a)
  {
    var more := answers[..k] + [a] + answers[k..];
    if k == 0 {
      assert more[1..] == answers;
    } else {
      assert more[1..] == answers[1..][..k - 1] + [a] + answers[1..][k - 1..];
      TotalOfInsertion(answers[1..], k - 1, a);
    }
  }

  function Without<T>(q: seq<T>, k: nat): seq<T>
    requires k < |q|
    ensures |Without(q, k)| == |q| - 1
  {
    q[..k] + q[k + 1..]
  }

  /** The first element of p, found in its permutation q, and what is left of both. */
  lemma FindFirst<T>(p: seq<T>, q: seq<T>) returns (k: nat)
    requires p != [] && multiset(p) == multiset(q)
    ensures k < |q| && q[k] == p[0] && multiset(p[1..]) == multiset(Without(q, k))
    ensures Without(q, k)[..k] + [p[0]] + Without(q, k)[k..] == q
  {
    assert p[0] in multiset(q);
    k :| 0 <= k < |q| && q[k] == p[0];
    assert p == [p[0]] + p[1..];
    assert q == q[..k] + [p[0]] + q[k + 1..];
    assert multiset(p[1..]) == multiset(p) - multiset{p[0]};
    assert multiset(Without(q, k)) == multiset(q) - multiset{p[0]};
  }

  lemma {:induction false} TotalOfPermutation(p: seq<Answer>, q: seq<Answer>)
    requires multiset(p) == multiset(q)
    ensures Total(p) == Total(q)
  {
    hide Score, Without;
    if p == [] {
      assert |multiset(q)| == 0;
    } else {
      var k := FindFirst(p, q);
      TotalOfPermutation(p[1..], Without(q, k));
      TotalOfInsertion(Without(q, k), k, p[0]);
    }
  }

  /** The order of the inspectors never matters to the final action, in shadow mode or not. */
  lemma OrderDoesNotMatter(ctx: Context, p: seq<Answer>, q: seq<Answer>, shadow: bool)
    requires multiset(p) == multiset(q)
    ensures Process(ctx, p, shadow).1.action == Process(ctx, q, shadow).1.action
  {
    ActionIsVerdict(ctx, p, shadow);
    ActionIsVerdict(ctx, q, shadow);
    TotalOfPermutation(p, q);
    assert forall a :: a in p <==> a in multiset(p);
    assert forall a :: a in q <==> a in multiset(q);
  }

  function Rank(a: Action): nat {
    match a
    case Allow => 0
    case Monitor => 1
    case RateLimit => 2
    case Challenge => 3
    case Block => 4
  }

  /** One more answer, anywhere in the list, weakens the final action if and only if nothing blocks
      outright and its score pulls the sum below the threshold that the others had reached. */
  lemma WeakensExactlyWhen(ctx: Context, answers: seq<Answer>, k: nat, a: Answer, shadow: bool)
    requires k <= |answers|
    ensures var before, sum := Process(ctx, answers, shadow).1.action, ctx.threatScore + Total(answers);
            var after := Process(ctx, answers[..k] + [a] + answers[k..], shadow).1.action;
            Rank(after) < Rank(before) <==>
              && !(!shadow && (AnyBlocks(answers) || Blocks(a)))
              && ((sum >= 90.0 && sum + Score(a) < 90.0) || (50.0 <= sum < 90.0 && sum + Score(a) < 50.0))
  {
    var more := answers[..k] + [a] + answers[k..];
    ActionIsVerdict(ctx, answers, shadow);
    ActionIsVerdict(ctx, more, shadow);
    TotalOfInsertion(answers, k, a);
    assert answers == answers[..k] + answers[k..];
    assert AnyBlocks(more) <==> AnyBlocks(answers) || Blocks(a);
    assert AnyLimits(more) <==> AnyLimits(answers) || Limits(a);
  }

  /** So an answer with no negative score never weakens it. */
  lemma NeverWeakens(ctx: Context, answers: seq<Answer>, k: nat, a: Answer, shadow: bool)
    requires k <= |answers| && Score(a) >= 0.0
    ensures Rank(Process(ctx, answers[..k] + [a] + answers[k..], shadow).1.action)
         >= Rank(Process(ctx, answers, shadow).1.action)
  {
    WeakensExactlyWhen(ctx, answers, k, a, shadow);
  }

  /** A negative score can: 90 blocks, and a further -50 lets the request through. */
  lemma NegativeScoreWeakens(ctx: Context)
    requires ctx == Context([], 0.0, false, 0.0)
    ensures var strong, calming := Decides(Decision(Challenge, 90.0)), Decides(Decision(Allow, -50.0));
            && Process(ctx, [strong], false).1.action == Block
            && Process(ctx, [strong, calming], false).1.action == Allow
  {
    var strong, calming := Decides(Decision(Challenge, 90.0)), Decides(Decision(Allow, -50.0));
    ActionIsVerdict(ctx, [strong], false);
    ActionIsVerdict(ctx, [strong, calming], false);
    assert [strong, calming][1..] == [calming];
    assert Total([calming]) == -50.0;
    assert !AnyBlocks([strong]) && !AnyBlocks([strong, calming]);
  }

  /** Shadow mode still blocks, exactly when the scores add up to the blocking threshold. */
  lemma ShadowBlocksExactlyWhen(ctx: Context, answers: seq<Answer>)
    ensures Process(ctx, answers, true).1.action.Block? <==> ctx.threatScore + Total(answers) >= 90.0
  {
    ActionIsVerdict(ctx, answers, true);
  }

  // ---- what the context has gathered ----

  /** How many answers were asked for: all, or up to the first block outside shadow mode. */
  function Asked(answers: seq<Answer>, shadow: bool): (n: nat)
    ensures n <= |answers|
    ensures forall k :: 0 <= k < n - 1 ==> shadow || !Blocks(answers[k])
    ensures n < |answers| ==> !shadow && n > 0 && Blocks(answers[n - 1])
  {
    if answers == [] then 0
    else if Blocks(answers[0]) && !shadow then 1
    else 1 + Asked(answers[1..], shadow)
  }

  function Given(a: Answer): seq<Decision> {
    if a.Decides? then [a.decision] else []
  }

  function Decisions(answers: seq<Answer>): seq<Decision> {
    if answers == [] then [] else Decisions(answers[..|answers| - 1]) + Given(answers[|answers| - 1])
  }

  /** The context ends with every decision asked for, in order, and the sum of their scores; it is marked
      as a known attack if one of them blocks. */
  lemma {:induction false} ContextGathers(ctx: Context, answers: seq<Answer>, shadow: bool)
    ensures var asked := answers[..Asked(answers, shadow)];
            var after := Process(ctx, answers, shadow).0;
            && after.decisions == ctx.decisions + Decisions(asked)
            && after.threatScore == ctx.threatScore + Total(asked)
            && (after.isKnownAttack <==> ctx.isKnownAttack || AnyBlocks(asked))
    decreases |answers|
  {
    hide AnyBlocks, Decisions, Total, FinalDecision;
    if answers == [] {
      FirstAnswer(Absent, []);
    } else {
      var a, n := answers[0], Asked(answers, shadow);
      var rest := answers[1..][..n - 1];
      assert answers[..n] == [a] + rest;
      FirstAnswer(a, rest);
      if !(Blocks(a) && !shadow) {
        ContextGathers(Note(ctx, a), answers[1..], shadow);
      }
    }
  }

  lemma {:induction false} FirstAnswer(a: Answer, rest: seq<Answer>)
    ensures Decisions([a] + rest) == Given(a) + Decisions(rest)
    ensures Total([a] + rest) == Score(a) + Total(rest)
    ensures AnyBlocks([a] + rest) <==> Blocks(a) || AnyBlocks(rest)
    ensures rest == [] ==> Decisions(rest) == [] && Total(rest) == 0.0 && !AnyBlocks(rest)
  {
    var all := [a] + rest;
    assert all[1..] == rest;
    if rest == [] {
      assert all[..0] == [];
    } else {
      assert all[..|all| - 1] == [a] + rest[..|rest| - 1];
      FirstAnswer(a, rest[..|rest| - 1]);
    }
  }

  // ---- the final decision in full ----

  predicate LimitsRate(ctx: Context, answers: seq<Answer>) {
    || (exists d :: d in ctx.decisions && d.action == RateLimit)
    || (exists a :: a in answers && a.Decides? && a.decision.action == RateLimit)
  }

  predicate FirstBlock(answers: seq<Answer>, k: nat) {
    && k < |answers| && answers[k].Decides? && answers[k].decision.action == Block
    && forall j :: 0 <= j < k ==> !(answers[j].Decides? && answers[j].decision.action == Block)
  }

  /** Outside shadow mode the first decision to block is final as it is. Without one, or in shadow mode, the sum
      of all scores decides: from 90 on it blocks, from 50 on it challenges, and below the rate is limited if
      some decision says so; otherwise the request is allowed, with a score of zero. */
  lemma {:induction false} FinalDecisionIs(ctx: Context, answers: seq<Answer>, shadow: bool)
    ensures var d, sum := Process(ctx, answers, shadow).1, ctx.threatScore + Total(answers);
            if !shadow && exists k: nat :: FirstBlock(answers, k) then
              forall k: nat :: FirstBlock(answers, k) ==> d == answers[k].decision
            else d == if sum >= 90.0 then Decision(Block, sum)
                      else if sum >= 50.0 then Decision(Challenge, sum)
                      else if LimitsRate(ctx, answers) then Decision(RateLimit, sum)
                      else Decision(Allow, 0.0)
    decreases |answers|
  {
    if answers != [] {
      var a, rest := answers[0], answers[1..];
      assert answers == [a] + rest;
      if Blocks(a) && !shadow {
        assert FirstBlock(answers, 0);
        assert forall k: nat :: FirstBlock(answers, k) ==> k == 0;
      } else {
        FinalDecisionIs(Note(ctx, a), rest, shadow);
        LimitsRateNoted(ctx, a, rest);
        if !shadow {
          FirstBlockLater(a, rest);
        }
      }
    }
  }

  lemma LimitsRateNoted(ctx: Context, a: Answer, rest: seq<Answer>)
    ensures LimitsRate(ctx, [a] + rest) <==> LimitsRate(Note(ctx, a), rest)
  {
    if a.Decides? {
      assert a.decision in Note(ctx, a).decisions;
    }
    assert forall b :: b in [a] + rest <==> b == a || b in rest;
    assert forall d :: d in Note(ctx, a).decisions <==> d in ctx.decisions || (a.Decides? && d == a.decision);
  }

  lemma FirstBlockLater(a: Answer, rest: seq<Answer>)
    requires !Blocks(a)
    ensures forall k: nat :: FirstBlock([a] + rest, k) ==> k > 0 && FirstBlock(rest, k - 1)
    ensures forall k: nat :: FirstBlock(rest, k) ==> FirstBlock([a] + rest, k + 1)
  {
    var all := [a] + rest;
    forall k: nat | FirstBlock(all, k)
      ensures k > 0 && FirstBlock(rest, k - 1)
    {
      assert forall j :: 0 <= j < k - 1 ==> rest[j] == all[j + 1];
    }
  }

  /** The bot score of the context ends as the score of the last decision asked for that blocks. */
  lemma {:induction false} BotScoreIs(ctx: Context, answers: seq<Answer>, shadow: bool, k: nat)
    requires k < Asked(answers, shadow) && Blocks(answers[k])
    requires forall j :: k < j < Asked(answers, shadow) ==> !Blocks(answers[j])
    ensures Process(ctx, answers, shadow).0.botScore == answers[k].decision.score
    decreases |answers|
  {
    var a, rest := answers[0], answers[1..];
    if !(Blocks(a) && !shadow) {
      if k > 0 {
        BotScoreIs(Note(ctx, a), rest, shadow, k - 1);
      } else {
        assert forall j :: 0 <= j < Asked(rest, shadow) ==> rest[j] == answers[j + 1];
        BotScoreStays(Note(ctx, a), rest, shadow);
      }
    }
  }

  lemma {:induction false} BotScoreStays(ctx: Context, answers: seq<Answer>, shadow: bool)
    requires forall j :: 0 <= j < Asked(answers, shadow) ==> !Blocks(answers[j])
    ensures Process(ctx, answers, shadow).0.botScore == ctx.botScore
    decreases |answers|
  {
    if answers != [] {
      assert !Blocks(answers[0]);
      assert forall j :: 0 <= j < Asked(answers[1..], shadow) ==> answers[1..][j] == answers[j + 1];
      BotScoreStays(Note(ctx, answers[0]), answers[1..], shadow);
    }
  }
}
