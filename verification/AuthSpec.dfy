/** The lockout and the evaluation of password attempts, as functions of the attempts so far. */
module AuthSpec {
  import opened Options

  datatype Mode = Open | Closed | Selective | Realistic | Unknown

  datatype Config = Config(mode: Mode, credentials: map<string, string>,
                           lockoutAfter: int, lockoutDuration: real, failBeforeSuccess: int)

  // ----- Lockout of one address -----

  datatype Counter = Counter(count: int, until: Option<real>)

  /** The two clock readings of one attempt: when the lockout is checked, and when one would start. */
  datatype Reading = Reading(checked: real, locked: real)

  datatype Verdict = Locked | Triggered | Passed

  const UNSEEN: Counter := Counter(0, None)

  function Unlock(k: Counter, checked: real): Counter {
    if k.until.Some? && checked >= k.until.value then UNSEEN else k
  }

  /** One attempt more; the last one allowed starts a lockout instead. */
  function Count(c: Config, k: Counter, now: real): (Counter, Verdict) {
    if k.count + 1 >= c.lockoutAfter then (Counter(k.count + 1, Some(now + c.lockoutDuration)), Triggered)
    else (Counter(k.count + 1, None), Passed)
  }

  function Admit(c: Config, k: Counter, r: Reading): (Counter, Verdict) {
    var k1 := Unlock(k, r.checked);
    if k1.until.Some? then (k1, Locked) else Count(c, k1, r.locked)
  }

  function After(c: Config, h: seq<Reading>): Counter {
    if h == [] then UNSEEN else Admit(c, After(c, h[..|h| - 1]), h[|h| - 1]).0
  }

  lemma AfterOne(c: Config, h: seq<Reading>, r: Reading)
    ensures After(c, h + [r]) == Admit(c, After(c, h), r).0
  {
    assert (h + [r])[..|h|] == h;
  }

  function VerdictOf(c: Config, h: seq<Reading>, r: Reading): Verdict {
    Admit(c, After(c, h), r).1
  }

  /** When the attempts that went on to be evaluated were checked. */
  function PassedAt(c: Config, h: seq<Reading>): seq<real> {
    if h == [] then
      []
    else
      var before, r := h[..|h| - 1], h[|h| - 1];
      PassedAt(c, before) + if VerdictOf(c, before, r).Passed? then [r.checked] else []
  }

  /** The clock never goes back. */
  ghost predicate Monotone(h: seq<Reading>) {
    && (forall i :: 0 <= i < |h| ==> h[i].checked <= h[i].locked)
    && (forall i :: 0 < i < |h| ==> h[i - 1].locked <= h[i].checked)
  }

  /** How many of the evaluated attempts belong to the current round. */
  function Round(k: Counter): int {
    if k.until.Some? then 0 else k.count
  }

  /** An instant at which everything evaluated before the current round is at least lockoutDuration ago. */
  function RoundStart(k: Counter, p: seq<real>, now: real): real {
    if k.until.Some? then k.until.value
    else if 0 < k.count <= |p| then p[|p| - k.count]
    else now
  }

  ghost predicate Spaced(c: Config, p: seq<real>) {
    c.lockoutAfter >= 1 ==>
      forall i, j :: 0 <= i && j == i + c.lockoutAfter - 1 && j < |p| ==> p[j] - p[i] >= c.lockoutDuration
  }

  ghost predicate Ascending(p: seq<real>, now: real) {
    && (forall i, j :: 0 <= i < j < |p| ==> p[i] <= p[j])
    && (forall i :: 0 <= i < |p| ==> p[i] <= now)
  }

  ghost predicate Earlier(p: seq<real>, n: int, limit: real) {
    forall i :: 0 <= i < n && i < |p| ==> p[i] <= limit
  }

  ghost predicate Kept(c: Config, k: Counter, p: seq<real>, now: real) {
    && 0 <= k.count && Round(k) <= |p| && (Round(k) == 0 || Round(k) < c.lockoutAfter)
    && Spaced(c, p) && Ascending(p, now)
    && Earlier(p, |p| - Round(k), RoundStart(k, p, now) - c.lockoutDuration)
  }

  lemma {:induction false} LockoutKept(c: Config, h: seq<Reading>)
    requires Monotone(h) && h != []
    ensures Kept(c, After(c, h), PassedAt(c, h), h[|h| - 1].locked)
  {
    hide Kept;
    var n := |h| - 1;
    var before, r := h[..n], h[n];
    if n == 0 {
      assert before == [];
      NothingKept(c, r.checked);
      KeptStep(c, UNSEEN, [], r.checked, r);
    } else {
      LockoutKept(c, before);
      KeptStep(c, After(c, before), PassedAt(c, before), before[n - 1].locked, r);
    }
  }

  lemma NothingKept(c: Config, now: real)
    ensures Kept(c, UNSEEN, [], now)
  {
  }

  lemma UnlockKept(c: Config, k: Counter, p: seq<real>, now: real, checked: real)
    requires Kept(c, k, p, now) && now <= checked
    ensures Kept(c, Unlock(k, checked), p, checked)
  {
  }

  lemma {:induction false} KeptStep(c: Config, k: Counter, p: seq<real>, now: real, r: Reading)
    requires Kept(c, k, p, now) && now <= r.checked <= r.locked
    ensures var (k', verdict) := Admit(c, k, r);
            Kept(c, k', p + if verdict.Passed? then [r.checked] else [], r.locked)
  {
    UnlockKept(c, k, p, now, r.checked);
    var k1 := Unlock(k, r.checked);
    var (k', verdict) := Admit(c, k, r);
    if verdict.Passed? {
      PassedKept(c, k1, p, r);
    } else {
      assert p + [] == p;
    }
  }

  lemma {:induction false} PassedKept(c: Config, k: Counter, p: seq<real>, r: Reading)
    requires Kept(c, k, p, r.checked) && r.checked <= r.locked && k.until.None? && k.count + 1 < c.lockoutAfter
    ensures Kept(c, Counter(k.count + 1, None), p + [r.checked], r.locked)
  {
    var p' := p + [r.checked];
    var j := |p|;
    var i := j - c.lockoutAfter + 1;
    assert RoundStart(k, p, r.checked) <= r.checked;
    assert i >= 0 ==> p'[j] - p'[i] >= c.lockoutDuration;
    assert RoundStart(Counter(k.count + 1, None), p', r.locked) == RoundStart(k, p, r.checked);
  }

  /** Any lockoutAfter attempts from one address that are evaluated span at least the lockout duration. */
  lemma LockoutBound(c: Config, h: seq<Reading>, i: nat)
    requires Monotone(h) && i + c.lockoutAfter - 1 < |PassedAt(c, h)| && c.lockoutAfter >= 1
    ensures PassedAt(c, h)[i + c.lockoutAfter - 1] - PassedAt(c, h)[i] >= c.lockoutDuration
  {
    LockoutKept(c, h);
    assert Spaced(c, PassedAt(c, h));
  }

  /** So every half-open window of that length has fewer than lockoutAfter evaluated attempts. */
  lemma LockoutWindow(c: Config, h: seq<Reading>, from: real, i: nat, j: nat)
    requires Monotone(h) && c.lockoutAfter >= 1 && i <= j < |PassedAt(c, h)|
    requires from <= PassedAt(c, h)[i] && PassedAt(c, h)[j] < from + c.lockoutDuration
    ensures j - i + 1 < c.lockoutAfter
  {
    LockoutKept(c, h);
    assert Ascending(PassedAt(c, h), h[|h| - 1].locked);
    if j - i + 1 >= c.lockoutAfter {
      LockoutBound(c, h, i);
      assert false;
    }
  }

  // ----- When an attempt is locked out, and when it starts a lockout -----

  /** The latest attempt that was not locked out. */
  function LatestUnlocked(c: Config, h: seq<Reading>): (i: Option<nat>)
    ensures i.Some? ==> i.value < |h| && !VerdictOf(c, h[..i.value], h[i.value]).Locked?
  {
    if h == [] then None
    else
      var n := |h| - 1;
      if !VerdictOf(c, h[..n], h[n]).Locked? then Some(n)
      else
        var i := LatestUnlocked(c, h[..n]);
        assert i.Some? ==> h[..n][..i.value] == h[..i.value];
        i
  }

  /** The latest attempt that started a lockout. */
  function LatestTriggered(c: Config, h: seq<Reading>): (i: Option<nat>)
    ensures i.Some? ==> i.value < |h| && VerdictOf(c, h[..i.value], h[i.value]).Triggered?
  {
    if h == [] then None
    else
      var n := |h| - 1;
      if VerdictOf(c, h[..n], h[n]).Triggered? then Some(n)
      else
        var i := LatestTriggered(c, h[..n]);
        assert i.Some? ==> h[..n][..i.value] == h[..i.value];
        i
  }

  /** The attempts that passed since the latest lockout was started, or since the start. */
  function PassesSince(c: Config, h: seq<Reading>): nat {
    if h == [] then 0
    else
      var n := |h| - 1;
      match VerdictOf(c, h[..n], h[n])
      case Triggered => 0
      case Passed => PassesSince(c, h[..n]) + 1
      case Locked => PassesSince(c, h[..n])
  }

  /** What one attempt does to the counter. */
  lemma CounterStep(c: Config, h: seq<Reading>, r: Reading)
    ensures var before, after := After(c, h), After(c, h + [r]);
            match VerdictOf(c, h, r)
            case Locked => after == before && before.until.Some?
            case Triggered => after.until == Some(r.locked + c.lockoutDuration)
            case Passed => after == Counter((if before.until.Some? then 0 else before.count) + 1, None)
    ensures After(c, []) == Counter(0, None)
  {
    AfterOne(c, h, r);
  }

  /** What the counter says: a lockout if the latest attempt not locked out started one, else the passes since. */
  lemma {:induction false} CounterMeans(c: Config, h: seq<Reading>)
    ensures var i := LatestUnlocked(c, h);
            if i.Some? && VerdictOf(c, h[..i.value], h[i.value]).Triggered? then
              After(c, h).until == Some(h[i.value].locked + c.lockoutDuration) && PassesSince(c, h) == 0
            else
              After(c, h) == Counter(PassesSince(c, h), None)
  {
    if h != [] {
      var n := |h| - 1;
      CounterMeans(c, h[..n]);
      CounterStep(c, h[..n], h[n]);
      assert h[..n] + [h[n]] == h;
      hide After, VerdictOf;
      var i := LatestUnlocked(c, h[..n]);
      assert i.Some? ==> h[..n][..i.value] == h[..i.value];
    }
  }

  /**
   An attempt is locked out exactly if the latest attempt of its address that was not locked out
   started a lockout that has not run out.
   */
  lemma LockedExactly(c: Config, h: seq<Reading>, r: Reading)
    ensures VerdictOf(c, h, r).Locked? <==>
            var i := LatestUnlocked(c, h);
            && i.Some? && VerdictOf(c, h[..i.value], h[i.value]).Triggered?
            && r.checked < h[i.value].locked + c.lockoutDuration
  {
    CounterMeans(c, h);
  }

  /**
   An attempt starts a lockout exactly if it is not locked out and the passes since the latest
   lockout, with this one, make lockoutAfter.
   */
  lemma {:induction false} TriggeredExactly(c: Config, h: seq<Reading>, r: Reading)
    ensures VerdictOf(c, h, r).Triggered? <==> !VerdictOf(c, h, r).Locked? && PassesSince(c, h) + 1 >= c.lockoutAfter
    ensures c.lockoutAfter >= 1 ==> PassesSince(c, h) + 1 <= c.lockoutAfter
    decreases |h|
  {
    CounterMeans(c, h);
    if h != [] {
      TriggeredExactly(c, h[..|h| - 1], h[|h| - 1]);
    }
  }

  /** With a clock that never goes back: any attempt not locked out after a lockout came when that had run out. */
  lemma {:induction false} RanOut(c: Config, h: seq<Reading>)
    requires Monotone(h) && LatestTriggered(c, h).Some? && LatestUnlocked(c, h) != LatestTriggered(c, h)
    ensures h[|h| - 1].checked >= h[LatestTriggered(c, h).value].locked + c.lockoutDuration
  {
    var n := |h| - 1;
    var before, last := h[..n], h[n];
    var j := LatestTriggered(c, before).value;
    LockedExactly(c, before, last);
    assert before[..j] == h[..j] && before[j] == h[j];
    if LatestUnlocked(c, before) != LatestTriggered(c, before) {
      RanOut(c, before);
      assert before[n - 1] == h[n - 1];
    }
  }

  /** Then an attempt is locked out exactly if the latest lockout of its address has not run out. */
  lemma LockedUntil(c: Config, h: seq<Reading>, r: Reading)
    requires Monotone(h + [r])
    ensures VerdictOf(c, h, r).Locked? <==>
            var i := LatestTriggered(c, h); i.Some? && r.checked < h[i.value].locked + c.lockoutDuration
  {
    LockedExactly(c, h, r);
    TriggeredIsUnlocked(c, h);
    var i := LatestTriggered(c, h);
    if i.Some? && LatestUnlocked(c, h) != i {
      MonotonePrefix(h, r);
      RanOut(c, h);
      assert (h + [r])[|h| - 1] == h[|h| - 1] && (h + [r])[|h|] == r;
    }
  }

  lemma MonotonePrefix(h: seq<Reading>, r: Reading)
    requires Monotone(h + [r])
    ensures Monotone(h)
  {
    var h' := h + [r];
    assert forall i :: 0 <= i < |h| ==> h'[i] == h[i];
  }

  lemma {:induction false} TriggeredIsUnlocked(c: Config, h: seq<Reading>)
    ensures var i := LatestUnlocked(c, h);
            i.Some? && VerdictOf(c, h[..i.value], h[i.value]).Triggered? ==> LatestTriggered(c, h) == i
  {
    if h != [] {
      var n := |h| - 1;
      TriggeredIsUnlocked(c, h[..n]);
      var i := LatestUnlocked(c, h[..n]);
      assert i.Some? ==> h[..n][..i.value] == h[..i.value];
    }
  }

  // ----- Evaluation -----

  datatype Try = Try(ip: string, username: string, password: string)

  datatype Result = Result(accepted: bool, username: string, reason: string)

  function Key(t: Try): string {
    t.ip + ":" + t.username
  }

  predicate Valid(c: Config, t: Try) {
    t.username in c.credentials && c.credentials[t.username] == t.password
  }

  /** The answer to an attempt after the evaluated attempts before it. */
  function Decide(c: Config, before: seq<Try>, t: Try): Result
    decreases |before|, 1
  {
    match c.mode
    case Open => Result(true, t.username, "open_mode")
    case Closed => Result(false, t.username, "closed_mode")
    case Selective =>
      if Valid(c, t) then Result(true, t.username, "valid_credentials")
      else Result(false, t.username, "invalid_credentials")
    case Realistic =>
      if !Valid(c, t) then Result(false, t.username, "invalid_credentials")
      else if Rejections(c, before, Key(t)) >= c.failBeforeSuccess then Result(true, t.username, "realistic_accept")
      else Result(false, t.username, "realistic_delay")
    case Unknown => Result(false, t.username, "unknown_mode")
  }

  /** The attempts for a key that were rejected. */
  function Rejections(c: Config, h: seq<Try>, key: string): nat
    decreases |h|, 0
  {
    if h == [] then 0
    else
      var before, t := h[..|h| - 1], h[|h| - 1];
      Rejections(c, before, key) + if Key(t) == key && !Decide(c, before, t).accepted then 1 else 0
  }

  function Attempts(h: seq<Try>, key: string): nat {
    if h == [] then 0 else Attempts(h[..|h| - 1], key) + if Key(h[|h| - 1]) == key then 1 else 0
  }

  /** In realistic mode the first failBeforeSuccess attempts for a key are all rejected, valid or not. */
  lemma {:induction false} FirstRejected(c: Config, h: seq<Try>, key: string)
    requires c.mode.Realistic?
    ensures Attempts(h, key) <= c.failBeforeSuccess ==> Rejections(c, h, key) == Attempts(h, key)
    ensures Attempts(h, key) > c.failBeforeSuccess ==> Rejections(c, h, key) >= c.failBeforeSuccess
    decreases |h|
  {
    if h != [] {
      FirstRejected(c, h[..|h| - 1], key);
    }
  }

  /** A later attempt is accepted exactly when its credentials are valid: rejections need not be counted apart. */
  lemma AcceptedExactly(c: Config, h: seq<Try>, t: Try)
    requires c.mode.Realistic?
    ensures Decide(c, h, t).accepted <==> Valid(c, t) && Attempts(h, Key(t)) >= c.failBeforeSuccess
    ensures Decide(c, h, t).accepted ==> Rejections(c, h, Key(t)) >= c.failBeforeSuccess
  {
    FirstRejected(c, h, Key(t));
  }

  /** Who is let in, mode by mode; the answer always names the user. */
  lemma DecidedByMode(c: Config, h: seq<Try>, t: Try)
    ensures var r := Decide(c, h, t);
            && r.username == t.username
            && (c.mode.Open? ==> r.accepted && r.reason == "open_mode")
            && (c.mode.Closed? ==> !r.accepted && r.reason == "closed_mode")
            && (c.mode.Unknown? ==> !r.accepted && r.reason == "unknown_mode")
            && (c.mode.Selective? || c.mode.Realistic? ==>
                  (r.reason == "invalid_credentials" <==>
                     !(t.username in c.credentials && c.credentials[t.username] == t.password)))
            && (c.mode.Selective? ==>
                  (r.accepted <==> t.username in c.credentials && c.credentials[t.username] == t.password))
            && (c.mode.Realistic? ==>
                  (r.accepted <==> t.username in c.credentials && c.credentials[t.username] == t.password
                                   && Attempts(h, t.ip + ":" + t.username) >= c.failBeforeSuccess))
  {
    if c.mode.Realistic? {
      AcceptedExactly(c, h, t);
    }
    assert "invalid_credentials"[0] != "valid_credentials"[0] && "invalid_credentials"[0] != "realistic_accept"[0];
    assert "invalid_credentials"[0] != "realistic_delay"[0];
  }

  /** The attempts for a key are the tries of that address and user, where no address holds a colon. */
  lemma KeysApart(a: Try, b: Try)
    requires ':' !in a.ip && ':' !in b.ip
    ensures Key(a) == Key(b) <==> a.ip == b.ip && a.username == b.username
  {
    ColonAfter(a);
    ColonAfter(b);
    if Key(a) == Key(b) {
      assert |a.ip| == |b.ip|;
      assert a.ip == Key(a)[..|a.ip|] && a.username == Key(a)[|a.ip| + 1..];
      assert b.ip == Key(b)[..|b.ip|] && b.username == Key(b)[|b.ip| + 1..];
    }
  }

  lemma ColonAfter(t: Try)
    requires ':' !in t.ip
    ensures |t.ip| < |Key(t)| && Key(t)[|t.ip|] == ':' && forall i :: 0 <= i < |t.ip| ==> Key(t)[i] != ':'
  {
  }

  lemma {:induction false} AttemptsCounted(h: seq<Try>, key: string)
    ensures Attempts(h, key) == |set i | 0 <= i < |h| && Key(h[i]) == key|
  {
    hide Key;
    if h != [] {
      var n := |h| - 1;
      AttemptsCounted(h[..n], key);
      var fewer := set i | 0 <= i < n && Key(h[..n][i]) == key;
      assert (set i | 0 <= i < |h| && Key(h[i]) == key) == fewer + if Key(h[n]) == key then {n} else {};
    }
  }
}
