/** The password authentication handler: per-address lockout, then evaluation by mode. */
module AuthHandler {
  import opened Options
  import opened AuthSpec

  const MAX_CREDENTIAL_LEN: nat := 1024
  const MAX_ATTEMPTS: nat := 100_000

  datatype AuthAttempt =
    AuthAttempt(clientIp: string, username: string, password: string, accepted: bool, rejectionReason: Option<string>)

  /** The characters that stripping a string removes. */
  predicate IsSpace(c: char) {
    || '\t' <= c <= '\r' || '\U{1C}' <= c <= ' ' || c == '\U{85}' || c == '\U{A0}' || c == '\U{1680}'
    || '\U{2000}' <= c <= '\U{200A}' || c == '\U{2028}' || c == '\U{2029}' || c == '\U{202F}' || c == '\U{205F}'
    || c == '\U{3000}'
  }

  predicate Blank(s: string) {
    forall i :: 0 <= i < |s| ==> IsSpace(s[i])
  }

  function Truncated(s: string): (r: string)
    ensures r <= s && |r| == if |s| < 1024 then |s| else 1024
  {
    if |s| <= MAX_CREDENTIAL_LEN then s else s[..MAX_CREDENTIAL_LEN]
  }

  function Newest<T>(s: seq<T>, n: nat): seq<T> {
    if |s| <= n then s else s[|s| - n..]
  }

  lemma NewestOne<T>(s: seq<T>, x: T, n: nat)
    ensures var longer := Newest(s, n) + [x];
            Newest(s + [x], n) == if |longer| > n then longer[1..] else longer
  {
  }

  class AuthHandler {
    const config: Config
    var attempts: seq<AuthAttempt>
    var ipAttemptCounts: map<string, int>
    var ipLockoutUntil: map<string, real>
    var ipFailCounts: map<string, int>

    ghost var readings: map<string, seq<Reading>> // the attempts that reached the lockout check, by address
    ghost var tries: seq<Try> // the attempts that were evaluated
    ghost var recorded: seq<AuthAttempt> // the attempts ever recorded

    constructor (config: Config)
      ensures Valid() && this.config == config
      ensures readings == map[] && tries == [] && recorded == []
    {
      this.config := config;
      attempts, ipAttemptCounts, ipLockoutUntil, ipFailCounts := [], map[], map[], map[];
      readings, tries, recorded := map[], [], [];
    }

    function CounterOf(ip: string): Counter
      reads this`ipAttemptCounts, this`ipLockoutUntil
    {
      Counter(if ip in ipAttemptCounts then ipAttemptCounts[ip] else 0,
              if ip in ipLockoutUntil then Some(ipLockoutUntil[ip]) else None)
    }

    function FailCount(key: string): int
      reads this`ipFailCounts
    {
      if key in ipFailCounts then ipFailCounts[key] else 0
    }

    ghost function ReadingsOf(ip: string): seq<Reading>
      reads this`readings
    {
      if ip in readings then readings[ip] else []
    }

    /** The lockout fields are those of the attempts that reached the check. */
    ghost predicate LockoutValid()
      reads this`ipAttemptCounts, this`ipLockoutUntil, this`readings
    {
      forall ip :: CounterOf(ip) == After(config, ReadingsOf(ip))
    }

    /** The failure counts are those of the attempts evaluated. */
    ghost predicate FailuresValid()
      reads this`ipFailCounts, this`tries
    {
      config.mode.Realistic? ==> forall key :: FailCount(key) == Rejections(config, tries, key)
    }

    ghost predicate Valid()
      reads this
    {
      LockoutValid() && FailuresValid() && attempts == Newest(recorded, MAX_ATTEMPTS)
    }

    /** What any number of steps of other threads may do. */
    twostate predicate Later()
      reads this
    {
      && (forall ip :: old(ReadingsOf(ip)) <= ReadingsOf(ip))
      && old(tries) <= tries && old(recorded) <= recorded
    }

    /** Lifts a lockout that has run out. */
    method IsLockedOut(ip: string, now: real) returns (locked: bool)
      modifies this`ipAttemptCounts, this`ipLockoutUntil
      ensures CounterOf(ip) == Unlock(old(CounterOf(ip)), now)
      ensures locked == CounterOf(ip).until.Some?
      ensures forall other :: other != ip ==> CounterOf(other) == old(CounterOf(other))
    {
      if ip in ipLockoutUntil {
        if now < ipLockoutUntil[ip] {
          return true;
        }
        ipLockoutUntil := ipLockoutUntil - {ip};
        ipAttemptCounts := ipAttemptCounts[ip := 0];
      }
      return false;
    }

    /** The first section under the lock: the lockout check and the attempt counter. */
    method Enter(ip: string, r: Reading) returns (verdict: Verdict)
      requires Valid()
      modifies this`ipAttemptCounts, this`ipLockoutUntil, this`readings
      ensures Valid()
      ensures verdict == VerdictOf(config, old(ReadingsOf(ip)), r)
      ensures ReadingsOf(ip) == old(ReadingsOf(ip)) + [r]
      ensures forall other :: other != ip ==> ReadingsOf(other) == old(ReadingsOf(other))
    {
      hide After, Admit, FailuresValid, Newest;
      AfterOne(config, ReadingsOf(ip), r);
      assert CounterOf(ip) == After(config, ReadingsOf(ip));
      verdict := CheckAndCount(ip, r);
      readings := readings[ip := ReadingsOf(ip) + [r]];
    }

    /** What that section does to the counters, which is one attempt more for the address. */
    method CheckAndCount(ip: string, r: Reading) returns (verdict: Verdict)
      modifies this`ipAttemptCounts, this`ipLockoutUntil
      ensures (CounterOf(ip), verdict) == Admit(config, old(CounterOf(ip)), r)
      ensures forall other :: other != ip ==> CounterOf(other) == old(CounterOf(other))
    {
      hide Unlock, Count;
      var locked := IsLockedOut(ip, r.checked);
      if locked {
        verdict := Locked;
      } else {
        verdict := CountAttempt(ip, r.locked);
      }
    }

    /** Counts an attempt that is not locked out, and starts a lockout if it is one too many. */
    method CountAttempt(ip: string, now: real) returns (verdict: Verdict)
      requires ip !in ipLockoutUntil
      modifies this`ipAttemptCounts, this`ipLockoutUntil
      ensures (CounterOf(ip), verdict) == Count(config, old(CounterOf(ip)), now)
      ensures forall other :: other != ip ==> CounterOf(other) == old(CounterOf(other))
    {
      var count := if ip in ipAttemptCounts then ipAttemptCounts[ip] + 1 else 1;
      ipAttemptCounts := ipAttemptCounts[ip := count];
      if count >= config.lockoutAfter {
        ipLockoutUntil := ipLockoutUntil[ip := now + config.lockoutDuration];
        return Triggered;
      }
      return Passed;
    }

    /** The evaluation; in realistic mode a second section under the lock. */
    method Evaluate(t: Try) returns (result: Result)
      requires Valid()
      modifies this`ipFailCounts, this`tries
      ensures Valid() && tries == old(tries) + [t]
      ensures result == Decide(config, old(tries), t)
    {
      tries := tries + [t];
      match config.mode {
        case Open =>
          return Result(true, t.username, "open_mode");
        case Closed =>
          return Result(false, t.username, "closed_mode");
        case Selective =>
          if AuthSpec.Valid(config, t) {
            return Result(true, t.username, "valid_credentials");
          }
          return Result(false, t.username, "invalid_credentials");
        case Realistic =>
          var key := Key(t);
          if key !in ipFailCounts {
            ipFailCounts := ipFailCounts[key := 0];
          }
          if AuthSpec.Valid(config, t) {
            if ipFailCounts[key] >= config.failBeforeSuccess {
              return Result(true, t.username, "realistic_accept");
            }
            ipFailCounts := ipFailCounts[key := ipFailCounts[key] + 1];
            return Result(false, t.username, "realistic_delay");
          }
          ipFailCounts := ipFailCounts[key := ipFailCounts[key] + 1];
          return Result(false, t.username, "invalid_credentials");
        case Unknown =>
          return Result(false, t.username, "unknown_mode");
      }
    }

    /** Keeps the newest attempts for threat intelligence. */
    method Record(attempt: AuthAttempt)
      requires Valid()
      modifies this`attempts, this`recorded
      ensures Valid() && recorded == old(recorded) + [attempt]
    {
      hide Newest, LockoutValid, FailuresValid;
      NewestOne(recorded, attempt, MAX_ATTEMPTS);
      attempts := attempts + [attempt];
      recorded := recorded + [attempt];
      if |attempts| > MAX_ATTEMPTS {
        attempts := attempts[1..];
      }
    }

    /** A step of another thread. */
    method OtherThread()
      requires Valid()
      modifies this
      ensures Valid() && Later()
    {
      hide LockoutValid, FailuresValid, Newest, VerdictOf, Decide, ReadingsOf;
      var kind: int, ip: string, username: string, password: string := *, *, *, *;
      if kind == 0 {
        var checked: real, locked: real := *, *;
        var _ := Enter(ip, Reading(checked, locked));
      } else if kind == 1 {
        var _ := Evaluate(Try(ip, username, password));
      } else {
        Record(AuthAttempt(ip, username, password, false, None));
      }
    }

    /** Steps of other threads between two steps of this one. */
    method OtherThreads()
      requires Valid()
      modifies this
      ensures Valid() && Later()
    {
      hide LockoutValid, FailuresValid, Newest, ReadingsOf;
      var n: nat := *;
      while n > 0
        invariant Valid() && Later()
      {
        OtherThread();
        n := n - 1;
      }
    }

    /**
     One password attempt, with other attempts going on. A blank password is rejected before
     anything is counted or recorded, except in open mode. Any other attempt is answered by the
     lockout after the `entered` readings of its address or, if it passes, by the evaluation after
     the tries `before` it, and is the latest attempt recorded.
     */
    method CheckPassword(username: string, password: string, ip: string)
      returns (result: Result, ghost verdict: Option<Verdict>,
               ghost entered: seq<Reading>, ghost r: Reading, ghost before: seq<Try>)
      requires Valid()
      modifies this
      ensures Valid() && Later()
      ensures verdict.None? <==> !config.mode.Open? && Blank(password)
      ensures verdict.None? ==>
                && readings == old(readings) && tries == old(tries) && recorded == old(recorded)
                && result == Result(false, username, "Empty password rejected")
      ensures verdict.Some? ==>
                && old(ReadingsOf(ip)) <= entered && entered + [r] <= ReadingsOf(ip)
                && verdict.value == VerdictOf(config, entered, r)
                && recorded != []
                && var a := recorded[|recorded| - 1];
                   && a.clientIp == ip && a.username == Truncated(username) && a.password == Truncated(password)
                   && a.accepted == result.accepted
                   && a.rejectionReason == match verdict.value
                                           case Locked => Some("lockout")
                                           case Triggered => Some("lockout_triggered")
                                           case Passed => if result.accepted then None else Some(result.reason)
      ensures verdict == Some(Locked) ==> result == Result(false, Truncated(username), "Account locked")
      ensures verdict == Some(Triggered) ==> result == Result(false, Truncated(username), "Too many attempts")
      ensures verdict == Some(Passed) ==>
                var t := Try(ip, Truncated(username), Truncated(password));
                old(tries) <= before && before + [t] <= tries && result == Decide(config, before, t)
    {
      hide LockoutValid, FailuresValid, VerdictOf, Decide, Newest, Truncated, Blank, ReadingsOf;
      before, entered, r := [], [], Reading(0.0, 0.0);
      if !config.mode.Open? && Blank(password) {
        result, verdict := Result(false, username, "Empty password rejected"), None;
        return;
      }
      var name, word := Truncated(username), Truncated(password);
      OtherThreads();
      var checked: real, locked: real := *, *;
      r, entered := Reading(checked, locked), ReadingsOf(ip);
      var v := Enter(ip, Reading(checked, locked));
      verdict := Some(v);
      if v.Locked? {
        result := Result(false, name, "Account locked");
        Record(AuthAttempt(ip, name, word, false, Some("lockout")));
        return;
      }
      if v.Triggered? {
        result := Result(false, name, "Too many attempts");
        Record(AuthAttempt(ip, name, word, false, Some("lockout_triggered")));
        return;
      }
      result, before := EvaluateAmongOthers(Try(ip, name, word));
      Record(AuthAttempt(ip, name, word, result.accepted, if result.accepted then None else Some(result.reason)));
    }

    /** The evaluation takes place outside the first section, so others may come before and after it. */
    method EvaluateAmongOthers(t: Try) returns (result: Result, ghost before: seq<Try>)
      requires Valid()
      modifies this
      ensures Valid() && Later()
      ensures old(tries) <= before && before + [t] <= tries && result == Decide(config, before, t)
    {
      hide LockoutValid, FailuresValid, Decide, Newest, ReadingsOf;
      OtherThreads();
      before := tries;
      result := Evaluate(t);
      OtherThreads();
    }
  }
}
