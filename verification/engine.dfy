/** The engine's inspection loop over a request context object. */
module Engine {
  import opened Pipeline

  datatype Request = Request(site: string, realIP: string, method_: string, path: string, body: string)

  /** A slot of the list may be empty; an inspector answers a request with an error, nothing, or a decision. */
  datatype Inspector = NoInspector | Inspector(name: string, inspect: Request -> Reply)
  datatype Reply = Failure | Nothing | Found(decision: Decision)

  function AnswerOf(i: Inspector, r: Request): Answer {
    match i
    case NoInspector => Absent
    case Inspector(_, inspect) =>
      match inspect(r)
      case Failure => Error
      case Nothing => Silent
      case Found(d) => Decides(d)
  }

  function Answers(inspectors: seq<Inspector>, r: Request): (answers: seq<Answer>)
    ensures |answers| == |inspectors|
  {
    seq(|inspectors|, k requires 0 <= k < |inspectors| => AnswerOf(inspectors[k], r))
  }

  class RequestContext {
    const request: Request
    var decisions: seq<Decision>
    var threatScore: real
    var isKnownAttack: bool
    var botScore: real

    constructor (request: Request)
      ensures this.request == request && View() == Context([], 0.0, false, 0.0)
    {
      this.request := request;
      decisions, threatScore, isKnownAttack, botScore := [], 0.0, false, 0.0;
    }

    function View(): Context
      reads this
    {
      Context(decisions, threatScore, isKnownAttack, botScore)
    }
  }

  class Engine {
    const inspectors: seq<Inspector>
    const shadowMode: bool

    constructor (inspectors: seq<Inspector>, shadowMode: bool)
      ensures this.inspectors == inspectors && this.shadowMode == shadowMode
    {
      this.inspectors, this.shadowMode := inspectors, shadowMode;
    }

    method Inspect(ctx: RequestContext) returns (d: Decision)
      modifies ctx
      ensures (ctx.View(), d) == Process(old(ctx.View()), Answers(inspectors, ctx.request), shadowMode)
    {
      ghost var answers := Answers(inspectors, ctx.request);
      for k := 0 to |inspectors|
        invariant Process(ctx.View(), answers[k..], shadowMode) == Process(old(ctx.View()), answers, shadowMode)
      {
        assert answers[k..][1..] == answers[k + 1..];
        var inspector := inspectors[k];
        if inspector.NoInspector? {
          continue;
        }
        var reply := inspector.inspect(ctx.request);
        if !reply.Found? {
          continue;
        }
        var dec := reply.decision;
        ctx.decisions := ctx.decisions + [dec];
        ctx.threatScore := ctx.threatScore + dec.score;
        if dec.action.Block? {
          ctx.isKnownAttack := true;
          ctx.botScore := dec.score;
          if !shadowMode {
            return dec;
          }
        }
      }
      d := DecideFinally(ctx);
    }

    /** Reads the context only. */
    method DecideFinally(ctx: RequestContext) returns (d: Decision)
      ensures d == FinalDecision(ctx.View())
    {
      var score := ctx.threatScore;
      if score >= 90.0 {
        return Decision(Block, score);
      }
      if score >= 50.0 {
        return Decision(Challenge, score);
      }
      for k := 0 to |ctx.decisions|
        invariant forall j :: 0 <= j < k ==> !ctx.decisions[j].action.RateLimit?
      {
        if ctx.decisions[k].action.RateLimit? {
          return Decision(RateLimit, score);
        }
      }
      return Decision(Allow, 0.0);
    }
  }

  lemma AnswersOfInsertion(rest: seq<Inspector>, k: nat, i: Inspector, r: Request)
    requires k <= |rest|
    ensures multiset(Answers(rest[..k] + [i] + rest[k..], r)) == multiset(Answers(rest, r)) + multiset{AnswerOf(i, r)}
  {
    hide AnswerOf;
    var answers := Answers(rest, r);
    assert Answers(rest[..k] + [i] + rest[k..], r) == answers[..k] + [AnswerOf(i, r)] + answers[k..];
    assert answers == answers[..k] + answers[k..];
  }

  lemma {:induction false} PermutedAnswers(p: seq<Inspector>, q: seq<Inspector>, r: Request)
    requires multiset(p) == multiset(q)
    ensures multiset(Answers(p, r)) == multiset(Answers(q, r))
  {
    hide Answers, AnswerOf, Without;
    if p == [] {
      assert |multiset(q)| == 0;
    } else {
      var k := FindFirst(p, q);
      PermutedAnswers(p[1..], Without(q, k), r);
      AnswersOfInsertion(Without(q, k), k, p[0], r);
      AnswersOfInsertion(p[1..], 0, p[0], r);
      assert p[1..][..0] + [p[0]] + p[1..][0..] == p;
    }
  }

  /** Rearranging the list of inspectors never changes the final action for any request. */
  lemma InspectorOrderDoesNotMatter(ctx: Context, p: seq<Inspector>, q: seq<Inspector>, r: Request, shadow: bool)
    requires multiset(p) == multiset(q)
    ensures Process(ctx, Answers(p, r), shadow).1.action == Process(ctx, Answers(q, r), shadow).1.action
  {
    PermutedAnswers(p, q, r);
    OrderDoesNotMatter(ctx, Answers(p, r), Answers(q, r), shadow);
  }
}
