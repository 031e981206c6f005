/** The client object and its retry loop. */
module MlClient {
  import B = MlBreaker

  datatype Mode = Block | Monitor | Other
  datatype Fallback = Fallback(threatScore: int, isMalicious: bool, botScore: int)
  datatype Result =
    | Answer(attempt: nat)               // the service answered this attempt
    | Unavailable(fallback: Fallback)    // no attempt was made
    | Exhausted(fallback: Fallback)

  class Client {
    const maxRetries: int
    const mode: Mode
    var available: bool
    var failures: nat
    var open: bool
    var lastError: int

    constructor (maxRetries: int, mode: Mode)
      ensures View() == B.NewBreaker() && this.maxRetries == maxRetries && this.mode == mode
    {
      this.maxRetries, this.mode := maxRetries, mode;
      available, failures, open, lastError := true, 0, false, 0;
    }

    function View(): B.Breaker
      reads this
    {
      B.Breaker(available, failures, open, lastError)
    }

    method SetAvailable(value: bool)
      modifies this
      ensures View() == old(View()).(available := value)
    {
      available := value;
    }

    method IsAvailable(now: int) returns (ok: bool)
      modifies this
      ensures (View(), ok) == B.Check(old(View()), now)
    {
      if !available {
        return false;
      }
      if open {
        if now - lastError > B.COOLDOWN {
          open := false;
          failures := 0;
          return true;
        }
        return false;
      }
      return true;
    }

    method RecordSuccess()
      modifies this
      ensures View() == B.Succeed(old(View()))
    {
      failures := 0;
    }

    method RecordFailure(now: int)
      modifies this
      ensures View() == B.Fail(old(View()), now)
    {
      failures := failures + 1;
      if failures >= B.THRESHOLD {
        open := true;
        lastError := now;
      }
    }

    /** Degrades the answer by mode only, never by how the call went wrong. */
    function FallbackResult(): (f: Fallback)
      ensures f.isMalicious <==> mode == Block
      ensures f.threatScore == f.botScore && (f.threatScore > 0 <==> mode != Other)
    {
      match mode
      case Block => Fallback(100, true, 100)
      case Monitor => Fallback(50, false, 50)
      case Other => Fallback(0, false, 0)
    }

    /** `tries` says what the service would make of each attempt. The attempts made are those up to the
        first success, and no more than 1 + maxRetries. */
    method Inspect(asked: int, tries: seq<B.Try>) returns (r: Result, made: nat)
      requires |tries| == B.Budget(maxRetries)
      modifies this
      ensures r.Unavailable? <==> !B.Check(old(View()), asked).1
      ensures r.Unavailable? ==> made == 0 && View() == old(View())
      ensures r.Answer? ==> made == r.attempt + 1 <= |tries| && tries[r.attempt].ok
      ensures r.Exhausted? ==> made == |tries|
      ensures forall i :: 0 <= i < made && !(r.Answer? && i == r.attempt) ==> !tries[i].ok
      ensures !r.Answer? ==> r.fallback == FallbackResult()
      ensures !r.Unavailable? ==> View() == B.Tried(B.Check(old(View()), asked).0, tries[..made])
    {
      var ok := IsAvailable(asked);
      if !ok {
        return Unavailable(FallbackResult()), 0;
      }
      ghost var entered := View();
      made := 0;
      while made <= maxRetries
        invariant made <= |tries|
        invariant forall i :: 0 <= i < made ==> !tries[i].ok
        invariant View() == B.Tried(entered, tries[..made])
      {
        assert tries[..made + 1][..made] == tries[..made];
        made := made + 1;
        if tries[made - 1].ok {
          RecordSuccess();
          return Answer(made - 1), made;
        }
        RecordFailure(tries[made - 1].at);
      }
      return Exhausted(FallbackResult()), made;
    }
  }
}
