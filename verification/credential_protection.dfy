/** The credential inspector object: one tracker object per user hash and per IP. */
module CredentialProtection {
  import L = Lockout
  import opened Time

  datatype Key = Key(text: string)

  class LoginTracker {
    var attempts: int
    var locked: bool
    var lockoutAt: int

    constructor ()
      ensures View() == L.Tracking(1, false, 0)
    {
      attempts, locked, lockoutAt := 1, false, 0;
    }

    function View(): L.LoginTracker
      reads this
    {
      L.Tracking(attempts, locked, lockoutAt)
    }
  }

  class BruteForceTracker {
    var attempts: int
    var backoff: int
    var nextTry: int

    constructor (now: int)
      ensures View() == L.Backing(1, 1 * SECOND, now)
    {
      attempts, backoff, nextTry := 1, 1 * SECOND, now;
    }

    function View(): L.BackoffTracker
      reads this
    {
      L.Backing(attempts, backoff, nextTry)
    }
  }

  /** Form or query values under one name. */
  datatype Credentials = Credentials(usernames: seq<string>, passwords: seq<string>)

  predicate Complete(c: Credentials) {
    c.usernames != [] && c.passwords != []
  }

  class CredentialProtection {
    const config: L.Config
    const hash: string -> Key
    var loginAttempts: map<Key, LoginTracker>
    var bruteForce: map<Key, BruteForceTracker>

    constructor (maxAttempts: int, blockDurationSec: int, hash: string -> Key)
      ensures L.Configured(config) && this.hash == hash
      ensures maxAttempts > 0 ==> config.maxAttempts == maxAttempts
      ensures blockDurationSec > 0 ==> config.lockout == blockDurationSec * SECOND
      ensures Valid() && loginAttempts == map[] && bruteForce == map[]
    {
      config := L.Config(if maxAttempts <= 0 then 5 else maxAttempts,
                         (if blockDurationSec <= 0 then 3600 else blockDurationSec) * SECOND);
      this.hash := hash;
      loginAttempts, bruteForce := map[], map[];
    }

    /** No two keys share a tracker. */
    ghost predicate Valid()
      reads this
    {
      && (forall a, b :: a in loginAttempts && b in loginAttempts && a != b ==> loginAttempts[a] != loginAttempts[b])
      && (forall a, b :: a in bruteForce && b in bruteForce && a != b ==> bruteForce[a] != bruteForce[b])
    }

    ghost function LoginOf(user: Key): L.LoginTracker
      reads this, loginAttempts.Values
    {
      if user in loginAttempts then loginAttempts[user].View() else L.Unseen
    }

    ghost function BackoffOf(ip: Key): L.BackoffTracker
      reads this, bruteForce.Values
    {
      if ip in bruteForce then bruteForce[ip].View() else L.Fresh
    }

    /** Counts an attempt of the hashed user name; anything but a POST with both a user name and a
        password, in the form or else in the query, is not counted at all. */
    method DetectCredentialStuffing(post: bool, form: Credentials, query: Credentials, now: int)
      returns (finding: L.Finding)
      requires Valid()
      modifies this`loginAttempts, loginAttempts.Values
      ensures Valid() && fresh(loginAttempts.Values - old(loginAttempts.Values))
      ensures post && (Complete(form) || Complete(query)) ==>
                var user := hash((if Complete(form) then form else query).usernames[0]);
                && (LoginOf(user), finding) == L.Attempt(config, old(LoginOf(user)), now)
                && forall other :: other != user ==> LoginOf(other) == old(LoginOf(other))
      ensures !(post && (Complete(form) || Complete(query))) ==>
                finding == L.None && forall user :: LoginOf(user) == old(LoginOf(user))
    {
      if !post {
        return L.None;
      }
      var given := form;
      if given.usernames == [] || given.passwords == [] {
        given := query;
      }
      if given.usernames == [] || given.passwords == [] {
        return L.None;
      }
      var user := hash(given.usernames[0]);
      finding := CountLogin(user, now);
    }

    method CountLogin(user: Key, now: int) returns (finding: L.Finding)
      requires Valid()
      modifies this`loginAttempts, loginAttempts.Values
      ensures Valid() && fresh(loginAttempts.Values - old(loginAttempts.Values))
      ensures (LoginOf(user), finding) == L.Attempt(config, old(LoginOf(user)), now)
      ensures forall other :: other != user ==> LoginOf(other) == old(LoginOf(other))
    {
      if user !in loginAttempts {
        var tracker := new LoginTracker();
        loginAttempts := loginAttempts[user := tracker];
        return L.None;
      }
      var tracker := loginAttempts[user];
      tracker.attempts := tracker.attempts + 1;
      if tracker.locked {
        if now - tracker.lockoutAt < config.lockout {
          return L.Blocked;
        }
        tracker.locked := false;
        tracker.attempts := 0;
        return L.None;
      }
      if tracker.attempts > config.maxAttempts * 3 {
        tracker.locked := true;
        tracker.lockoutAt := now;
        return L.Blocked;
      }
      if tracker.attempts > config.maxAttempts {
        return L.RateLimited;
      }
      return L.None;
    }

    method DetectBruteForce(ip: Key, now: int) returns (finding: L.Finding)
      requires Valid()
      modifies this`bruteForce, bruteForce.Values
      ensures Valid() && fresh(bruteForce.Values - old(bruteForce.Values))
      ensures (BackoffOf(ip), finding) == L.Try(old(BackoffOf(ip)), now)
      ensures forall other :: other != ip ==> BackoffOf(other) == old(BackoffOf(other))
    {
      if ip !in bruteForce {
        var tracker := new BruteForceTracker(now);
        bruteForce := bruteForce[ip := tracker];
        return L.None;
      }
      var tracker := bruteForce[ip];
      tracker.attempts := tracker.attempts + 1;
      if now < tracker.nextTry {
        return L.Blocked;
      }
      if tracker.attempts > 20 {
        tracker.backoff := 30 * MINUTE;
      } else if tracker.attempts > 10 {
        tracker.backoff := 5 * MINUTE;
      } else if tracker.attempts > 5 {
        tracker.backoff := 30 * SECOND;
      } else {
        tracker.backoff := 1 * SECOND;
      }
      tracker.nextTry := now + tracker.backoff;
      return L.None;
    }
  }
}
