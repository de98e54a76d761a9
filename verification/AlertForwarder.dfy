/** The alert forwarder's rate limit: at most so many sends a minute, and never two within two seconds. */
module AlertForwarder {
  import opened SlidingWindow

  const MINUTE: Window := Window(60.0, true)
  const BURST: real := 2.0

  /** The answer of the webhook: a status, or a transport error. */
  datatype Response = Status(code: int) | Failure

  /** Whether a send is refused, in terms of every send so far. */
  predicate Limited(rateLimit: int, sent: seq<real>, now: real) {
    (sent != [] && now - sent[|sent| - 1] < BURST) || |Active(sent, now, MINUTE)| >= rateLimit
  }

  ghost predicate Apart(sent: seq<real>) {
    forall i, j :: 0 <= i < j < |sent| && j == i + 1 ==> sent[j] - sent[i] >= 2.0
  }

  /** The promise to the receiver: any rateLimit + 1 sends take over a minute, and any two are two seconds apart. */
  ghost predicate WithinRate(rateLimit: int, sent: seq<real>) {
    && Apart(sent)
    && (rateLimit <= 0 ==> sent == [])
    && forall i, j :: 0 <= i < j < |sent| && j == i + rateLimit ==> sent[j] - sent[i] > 60.0
  }

  // ----- One send more -----

  /**
   Recording a send keeps the promise exactly when the limiter, asked at the moment of the
   record, would let it through.
   */
  lemma KeptExactly(rateLimit: int, sent: seq<real>, now: real)
    requires Ascending(sent) && WithinRate(rateLimit, sent) && (sent != [] ==> sent[|sent| - 1] <= now)
    ensures WithinRate(rateLimit, sent + [now]) <==> !Limited(rateLimit, sent, now)
  {
    if Limited(rateLimit, sent, now) {
      LimitedBreaks(rateLimit, sent, now);
    } else {
      SendKeepsRate(rateLimit, sent, now, now);
    }
  }

  lemma LimitedBreaks(rateLimit: int, sent: seq<real>, now: real)
    requires Ascending(sent) && (sent != [] ==> sent[|sent| - 1] <= now) && Limited(rateLimit, sent, now)
    ensures !WithinRate(rateLimit, sent + [now])
  {
    var sent' := sent + [now];
    var n := |sent|;
    if sent != [] && now - sent[n - 1] < BURST {
      assert n == n - 1 + 1 && sent'[n] - sent'[n - 1] < BURST;
    } else if rateLimit <= 0 {
      assert sent' != [];
    } else {
      InReach(sent, now, rateLimit);
      assert sent'[n] - sent'[n - rateLimit] <= 60.0;
    }
  }

  /** If n sends are within reach, so is the n-th last. */
  lemma InReach(sent: seq<real>, now: real, n: nat)
    requires Ascending(sent) && 0 < n <= |Active(sent, now, MINUTE)|
    ensures n <= |sent| && Fresh(sent[|sent| - n], now, MINUTE)
  {
    ActiveLength(sent, now, MINUTE);
    if !Fresh(sent[|sent| - n], now, MINUTE) {
      FewInReach(sent, now, |sent| - n + 1);
    }
  }

  /** If the first m sends are too old for the window, at most the others are within reach. */
  lemma FewInReach(sent: seq<real>, now: real, m: nat)
    requires Ascending(sent) && 0 < m <= |sent| && !Fresh(sent[m - 1], now, MINUTE)
    ensures |Active(sent, now, MINUTE)| <= |sent| - m
  {
    var early, late := sent[..m], sent[m..];
    assert forall i :: 0 <= i < m ==> early[i] <= sent[m - 1];
    ActiveNone(early, now, MINUTE);
    ActiveConcat(early, late, now, MINUTE);
    ActiveLength(late, now, MINUTE);
    assert sent == early + late;
  }

  /** A send that was not limited when checked, and recorded later, keeps the promise. */
  lemma SendKeepsRate(rateLimit: int, sent: seq<real>, checked: real, now: real)
    requires Ascending(sent) && WithinRate(rateLimit, sent) && !Limited(rateLimit, sent, checked) && checked <= now
    ensures WithinRate(rateLimit, sent + [now])
  {
    assert Spaced(sent, MINUTE, rateLimit);
    SpacedNext(sent, checked, now, MINUTE, rateLimit);
    var sent' := sent + [now];
    forall i, j | 0 <= i < j < |sent'| && j == i + rateLimit
      ensures sent'[j] - sent'[i] > 60.0
    {
      assert !Fresh(sent'[i], sent'[j], MINUTE);
    }
  }

  // ----- Callers that overlap -----

  /** What callers do with the limiter, in order: a caller checks once and, if let through, may record once. */
  datatype Step = Checked(caller: nat, time: real) | Recorded(caller: nat, time: real)

  type Steps = seq<Step>

  function Sent(h: Steps): seq<real> {
    if h == [] then []
    else Sent(h[..|h| - 1]) + if h[|h| - 1].Recorded? then [h[|h| - 1].time] else []
  }

  /** Step j is the check that let the caller of step i through. */
  predicate Permits(rateLimit: int, h: Steps, j: int, i: int) {
    && 0 <= j < i < |h| && h[j].Checked? && h[j].caller == h[i].caller
    && !Limited(rateLimit, Sent(h[..j]), h[j].time)
    && forall k :: j < k < i ==> h[k].caller != h[i].caller
  }

  ghost predicate Ordered(h: Steps) {
    forall i, j :: 0 <= i < j < |h| ==> h[i].time <= h[j].time
  }

  /** The caller was let through at step j and has done nothing since. */
  predicate Waiting(rateLimit: int, h: Steps, caller: nat, j: int) {
    && 0 <= j < |h| && h[j].Checked? && h[j].caller == caller
    && !Limited(rateLimit, Sent(h[..j]), h[j].time)
    && forall k :: j < k < |h| ==> h[k].caller != caller
  }

  /** Every record was permitted by its caller's check. */
  ghost predicate Legal(rateLimit: int, h: Steps) {
    Ordered(h) && forall i :: 0 <= i < |h| && h[i].Recorded? ==> exists j :: Permits(rateLimit, h, j, i)
  }

  /** No send is recorded between a caller's check and its record. */
  ghost predicate Serial(rateLimit: int, h: Steps) {
    forall i :: 0 <= i < |h| && h[i].Recorded? ==>
      exists j :: Permits(rateLimit, h, j, i) && forall k :: j < k < i ==> !h[k].Recorded?
  }

  /** Every record would have been let through had its caller checked again at that moment. */
  ghost predicate LateChecked(rateLimit: int, h: Steps) {
    forall i :: 0 <= i < |h| && h[i].Recorded? ==> !Limited(rateLimit, Sent(h[..i]), h[i].time)
  }

  lemma {:induction false} SentAscending(h: Steps)
    requires Ordered(h)
    ensures Ascending(Sent(h)) && forall i :: 0 <= i < |Sent(h)| ==> h != [] && Sent(h)[i] <= h[|h| - 1].time
  {
    if h != [] {
      var n := |h| - 1;
      SentAscending(h[..n]);
      assert n > 0 ==> h[n - 1].time <= h[n].time;
    }
  }

  lemma PrefixKept(rateLimit: int, sent: seq<real>, now: real)
    requires WithinRate(rateLimit, sent + [now])
    ensures WithinRate(rateLimit, sent)
  {
    var sent' := sent + [now];
    forall i, j | 0 <= i < j < |sent| && j == i + 1
      ensures sent[j] - sent[i] >= BURST
    {
      assert sent'[j] - sent'[i] >= BURST;
    }
    forall i, j | 0 <= i < j < |sent| && j == i + rateLimit
      ensures sent[j] - sent[i] > 60.0
    {
      assert sent'[j] - sent'[i] > 60.0;
    }
  }

  lemma SentOne(h: Steps, step: Step)
    ensures Sent(h + [step]) == if step.Recorded? then Sent(h) + [step.time] else Sent(h)
  {
    assert (h + [step])[..|h|] == h;
  }

  lemma LateCheckedOne(rateLimit: int, h: Steps, step: Step)
    ensures LateChecked(rateLimit, h + [step]) <==>
            LateChecked(rateLimit, h) && (step.Recorded? ==> !Limited(rateLimit, Sent(h), step.time))
  {
    hide Limited, Sent;
    var h' := h + [step];
    assert h'[..|h|] == h && h'[|h|] == step;
    assert forall i :: 0 <= i < |h| ==> h'[..i] == h[..i] && h'[i] == h[i];
  }

  /** Over any run of any callers the promise is kept exactly when every record would still have passed the check. */
  lemma {:induction false} RunKeptExactly(rateLimit: int, h: Steps)
    requires Ordered(h)
    ensures WithinRate(rateLimit, Sent(h)) <==> LateChecked(rateLimit, h)
  {
    if h != [] {
      var before, last := h[..|h| - 1], h[|h| - 1];
      assert h == before + [last];
      RunKeptExactly(rateLimit, before);
      SentAscending(before);
      SentOne(before, last);
      LateCheckedOne(rateLimit, before, last);
      hide WithinRate, Limited, Ascending, LateChecked, Sent;
      if last.Recorded? {
        var sent := Sent(before);
        assert sent != [] ==> sent[|sent| - 1] <= last.time;
        if WithinRate(rateLimit, sent + [last.time]) {
          PrefixKept(rateLimit, sent, last.time);
        }
        if WithinRate(rateLimit, sent) {
          KeptExactly(rateLimit, sent, last.time);
        }
      } else {
        assert Sent(before) + [] == Sent(before);
      }
    }
  }

  lemma {:induction false} SentUnchanged(h: Steps, j: nat, i: nat)
    requires j <= i <= |h| && forall k :: j <= k < i ==> !h[k].Recorded?
    ensures Sent(h[..i]) == Sent(h[..j])
  {
    if j < i {
      SentUnchanged(h, j, i - 1);
      assert h[..i][..i - 1] == h[..i - 1];
    }
  }

  /** What a check lets through, a later check of the same history does too. */
  lemma StillAllowed(rateLimit: int, sent: seq<real>, checked: real, now: real)
    requires !Limited(rateLimit, sent, checked) && checked <= now
    ensures !Limited(rateLimit, sent, now)
  {
    ActiveLater(sent, checked, now, MINUTE);
    ActiveLength(Active(sent, checked, MINUTE), now, MINUTE);
  }

  /** Callers one at a time keep the promise. */
  lemma SerialKeepsRate(rateLimit: int, h: Steps)
    requires Ordered(h) && Serial(rateLimit, h)
    ensures Legal(rateLimit, h) && WithinRate(rateLimit, Sent(h))
  {
    hide Limited, WithinRate;
    forall i | 0 <= i < |h| && h[i].Recorded?
      ensures !Limited(rateLimit, Sent(h[..i]), h[i].time)
    {
      var j :| Permits(rateLimit, h, j, i) && forall k :: j < k < i ==> !h[k].Recorded?;
      SentUnchanged(h, j, i);
      StillAllowed(rateLimit, Sent(h[..i]), h[j].time, h[i].time);
    }
    RunKeptExactly(rateLimit, h);
  }

  /** So whenever legal callers break the promise, a send was recorded between a caller's check and its own record. */
  lemma BrokenByOverlap(rateLimit: int, h: Steps) returns (j: nat, k: nat, i: nat)
    requires Legal(rateLimit, h) && !WithinRate(rateLimit, Sent(h))
    ensures j < k < i < |h| && h[i].Recorded? && h[k].Recorded?
    ensures Permits(rateLimit, h, j, i) && Limited(rateLimit, Sent(h[..i]), h[i].time)
  {
    hide Limited, WithinRate;
    RunKeptExactly(rateLimit, h);
    i :| 0 <= i < |h| && h[i].Recorded? && Limited(rateLimit, Sent(h[..i]), h[i].time);
    j :| Permits(rateLimit, h, j, i);
    if forall m :: j < m < i ==> !h[m].Recorded? {
      SentUnchanged(h, j, i);
      StillAllowed(rateLimit, Sent(h[..i]), h[j].time, h[i].time);
      assert false;
    }
    k :| j < k < i && h[k].Recorded?;
  }

  /** Two callers that both check before either records are legal, and break the promise whatever the limit. */
  lemma OverlapBreaksRate(rateLimit: int, now: real)
    requires rateLimit >= 1
    ensures var h := [Checked(0, now), Checked(1, now), Recorded(0, now), Recorded(1, now)];
            Legal(rateLimit, h) && !Serial(rateLimit, h) && !WithinRate(rateLimit, Sent(h))
  {
    var h := [Checked(0, now), Checked(1, now), Recorded(0, now), Recorded(1, now)];
    OverlapSent(now);
    hide Sent, Limited;
    OverlapPermitted(rateLimit, now);
    hide Permits;
    assert Sent(h)[1] - Sent(h)[0] < BURST;
    if Serial(rateLimit, h) {
      hide Serial, WithinRate, Legal;
      SerialKeepsRate(rateLimit, h);
      assert false;
    }
  }

  lemma OverlapSent(now: real)
    ensures var h := [Checked(0, now), Checked(1, now), Recorded(0, now), Recorded(1, now)];
            Sent(h[..0]) == [] && Sent(h[..1]) == [] && Sent(h) == [now, now]
  {
    var h0, h1 := [Checked(0, now)], [Checked(0, now), Checked(1, now)];
    var h2, h := h1 + [Recorded(0, now)], [Checked(0, now), Checked(1, now), Recorded(0, now), Recorded(1, now)];
    assert h0 == [] + [Checked(0, now)] && h1 == h0 + [Checked(1, now)] && h == h2 + [Recorded(1, now)];
    SentOne([], Checked(0, now));
    SentOne(h0, Checked(1, now));
    SentOne(h1, Recorded(0, now));
    SentOne(h2, Recorded(1, now));
    assert h[..0] == [] && h[..1] == h0;
  }

  lemma OverlapPermitted(rateLimit: int, now: real)
    requires rateLimit >= 1
    ensures var h := [Checked(0, now), Checked(1, now), Recorded(0, now), Recorded(1, now)];
            Permits(rateLimit, h, 0, 2) && Permits(rateLimit, h, 1, 3)
  {
    OverlapSent(now);
    hide Sent;
  }

  // ----- The forwarder -----

  /** The deque is the end of the full history, and what is missing is too old for the window. */
  ghost predicate Kept(sendTimes: seq<real>, sent: seq<real>, now: real) {
    && |sendTimes| <= |sent| && sendTimes == sent[|sent| - |sendTimes|..]
    && forall i :: 0 <= i < |sent| - |sendTimes| ==> !Fresh(sent[i], now, MINUTE)
  }

  lemma Orderly(rateLimit: int, h: Steps)
    requires Legal(rateLimit, h)
    ensures Ordered(h) && Ascending(Sent(h))
  {
    SentAscending(h);
  }

  lemma WaitingOne(rateLimit: int, h: Steps, step: Step, caller: nat, j: int)
    requires Waiting(rateLimit, h, caller, j) && step.caller != caller
    ensures Waiting(rateLimit, h + [step], caller, j)
  {
    hide Limited, Sent;
    assert (h + [step])[..j] == h[..j];
  }

  lemma PermitsSame(rateLimit: int, h: Steps, step: Step, j: int, i: int)
    requires Permits(rateLimit, h, j, i)
    ensures Permits(rateLimit, h + [step], j, i)
  {
    hide Limited, Sent;
    assert (h + [step])[..j] == h[..j];
  }

  /** A check, or a record of a caller that waits for it, keeps the run legal. */
  lemma LegalOne(rateLimit: int, h: Steps, step: Step, j: int)
    requires Legal(rateLimit, h) && (h != [] ==> h[|h| - 1].time <= step.time)
    requires step.Recorded? ==> Waiting(rateLimit, h, step.caller, j)
    ensures Legal(rateLimit, h + [step])
    ensures step.Recorded? ==> Permits(rateLimit, h + [step], j, |h|)
  {
    var h' := h + [step];
    assert forall i :: 0 <= i < |h| ==> h[i].time <= h[|h| - 1].time;
    if step.Recorded? {
      hide Limited, Sent;
      assert h'[..j] == h[..j];
      assert Permits(rateLimit, h', j, |h|);
    }
    hide Permits, Waiting;
    forall i | 0 <= i < |h'| && h'[i].Recorded?
      ensures exists m :: Permits(rateLimit, h', m, i)
    {
      if i < |h| {
        var m :| Permits(rateLimit, h, m, i);
        PermitsSame(rateLimit, h, step, m, i);
      }
    }
  }

  /** A response after which the request is made again. */
  predicate Retried(response: Response) {
    response.Failure? || response.code == 429 || response.code >= 500
  }

  /** Which answers are worth another try, and which is a success. */
  lemma AnswersAre(code: int)
    ensures Retried(Failure) && (Retried(Status(code)) <==> code == 429 || code >= 500)
    ensures !Accepted(Failure) && (Accepted(Status(code)) <==> code < 300)
  {
  }

  /** What the tries of one alert come to: at most three, up to the first that is not worth another. */
  predicate Posted(tries: seq<Response>, ok: bool) {
    && 0 < |tries| <= 3 && (forall i :: 0 <= i < |tries| - 1 ==> Retried(tries[i]))
    && (Retried(tries[|tries| - 1]) ==> |tries| == 3)
    && (ok <==> Accepted(tries[|tries| - 1]))
  }

  /** What other callers add to a history while one goes on: nothing in its name. */
  predicate OnlyOthers(before: Steps, after: Steps, me: nat) {
    before <= after && forall i :: |before| <= i < |after| ==> after[i].caller != me
  }

  lemma OthersGoOn(before: Steps, middle: Steps, after: Steps, me: nat)
    requires OnlyOthers(before, middle, me) && OnlyOthers(middle, after, me)
    ensures OnlyOthers(before, after, me)
  {
  }

  lemma OthersNothing(h: Steps, me: nat)
    ensures OnlyOthers(h, h, me)
  {
  }

  predicate Accepted(response: Response) {
    response.Status? && response.code < 300
  }

  /** One try more, after some that were worth another. */
  lemma Answered(tries: seq<Response>, response: Response)
    requires |tries| < 3 && forall i :: 0 <= i < |tries| ==> Retried(tries[i])
    ensures Accepted(response) ==> Posted(tries + [response], true)
    ensures !Accepted(response) && (Retried(response) ==> |tries| == 2) ==> Posted(tries + [response], false)
  {
  }

  class AlertForwarder {
    const rateLimit: int
    const enabled: bool
    const threshold: int
    var sendTimes: seq<real>
    var clock: real // the latest reading of the monotonic clock
    var callers: nat // the next caller
    var waiting: set<nat> // the callers that were let through and have not recorded
    ghost var steps: Steps // what all callers did so far

    /** What was dropped from the deque no longer matters. */
    ghost predicate Valid()
      reads this
    {
      Kept(sendTimes, Sent(steps), clock) && Legal(rateLimit, steps) && Known() && Passed()
    }

    /** The clock is past every step, and later callers are new. */
    ghost predicate Known()
      reads this`steps, this`clock, this`callers
    {
      && (steps != [] ==> steps[|steps| - 1].time <= clock)
      && forall i :: 0 <= i < |steps| ==> steps[i].caller < callers
    }

    /** Those who wait have passed the check. */
    ghost predicate Passed()
      reads this`steps, this`waiting, this`callers
    {
      forall caller :: caller in waiting ==> caller < callers && exists j :: Waiting(rateLimit, steps, caller, j)
    }

    constructor (rateLimit: int, enabled: bool, threshold: int, clock: real)
      ensures Valid() && steps == [] && this.rateLimit == rateLimit
    {
      this.rateLimit, this.enabled, this.threshold, this.clock := rateLimit, enabled, threshold, clock;
      sendTimes, steps, callers, waiting := [], [], 0, {};
    }

    method Now() returns (now: real)
      modifies this`clock
      ensures now == clock >= old(clock)
    {
      now := *;
      if now < clock {
        now := clock;
      }
      clock := now;
    }

    /** Drops the sends that are too old. */
    method Purge(now: real)
      requires Kept(sendTimes, Sent(steps), now) && Ascending(Sent(steps))
      modifies this`sendTimes
      ensures Kept(sendTimes, Sent(steps), now)
      ensures sendTimes == Active(Sent(steps), now, MINUTE)
      ensures Sent(steps) != [] && sendTimes == [] ==> now - Sent(steps)[|Sent(steps)| - 1] >= BURST
    {
      hide Active, Sent;
      ghost var sent := Sent(steps);
      while sendTimes != [] && sendTimes[0] < now - 60.0
        invariant Kept(sendTimes, sent, now)
      {
        assert sendTimes[1..] == sent[|sent| - (|sendTimes| - 1)..];
        sendTimes := sendTimes[1..];
      }
      KeptActive(sent, |sent| - |sendTimes|, now);
    }

    /** Drops the sends that are too old, then answers as if all were still there. */
    method Judge(now: real) returns (limited: bool)
      requires Kept(sendTimes, Sent(steps), now) && Ascending(Sent(steps))
      modifies this`sendTimes
      ensures Kept(sendTimes, Sent(steps), now) && limited == Limited(rateLimit, Sent(steps), now)
    {
      hide Active, Ascending, Sent;
      Purge(now);
      limited := (sendTimes != [] && now - sendTimes[|sendTimes| - 1] < BURST) || |sendTimes| >= rateLimit;
    }

    /** The check of a new caller. */
    method RateLimited(caller: nat) returns (limited: bool)
      requires Valid() && caller < callers && caller !in waiting
      modifies this`clock, this`sendTimes, this`steps, this`waiting
      ensures Valid() && clock >= old(clock)
      ensures steps == old(steps) + [Checked(caller, clock)]
      ensures limited == Limited(rateLimit, Sent(old(steps)), clock)
      ensures !limited ==> Waiting(rateLimit, steps, caller, |old(steps)|)
      ensures waiting == old(waiting) + if limited then {} else {caller}
    {
      hide Ascending, Sent, Kept, Legal, Limited, Waiting, Permits, Known;
      Orderly(rateLimit, steps);
      var now := Tick();
      limited := Judge(now);
      ghost var before := steps;
      PassedGoOn(Checked(caller, now));
      Log(Checked(caller, now), 0);
      if !limited {
        LetThrough(rateLimit, before, caller, now);
        waiting := waiting + {caller};
      }
    }

    /** A step of one caller leaves the others waiting. */
    lemma PassedGoOn(step: Step)
      requires Passed()
      ensures forall caller :: caller in waiting && caller != step.caller ==>
                caller < callers && exists j :: Waiting(rateLimit, steps + [step], caller, j)
    {
      hide Waiting;
      forall caller | caller in waiting && caller != step.caller
        ensures exists j :: Waiting(rateLimit, steps + [step], caller, j)
      {
        var j :| Waiting(rateLimit, steps, caller, j);
        WaitingOne(rateLimit, steps, step, caller, j);
      }
    }

    /** Reads the clock; what is too old stays so. */
    method Tick() returns (now: real)
      requires Valid()
      modifies this`clock
      ensures Valid() && now == clock >= old(clock)
    {
      hide Sent, Legal, Kept;
      now := Now();
      KeptLater(sendTimes, Sent(steps), old(clock), now);
    }

    /** One step more. */
    method Log(step: Step, ghost j: int)
      requires Legal(rateLimit, steps) && Known() && step.time == clock && step.caller < callers
      requires step.Recorded? ==> Waiting(rateLimit, steps, step.caller, j)
      modifies this`steps
      ensures Legal(rateLimit, steps) && Known() && steps == old(steps) + [step]
      ensures Sent(steps) == if step.Recorded? then Sent(old(steps)) + [step.time] else Sent(old(steps))
      ensures step.Recorded? ==> Permits(rateLimit, steps, j, |steps| - 1)
    {
      SentOne(steps, step);
      LegalOne(rateLimit, steps, step, j);
      hide Legal, Sent, Permits, Waiting;
      steps := steps + [step];
    }

    method RecordSend(caller: nat, ghost j: int)
      requires Valid() && caller in waiting && Waiting(rateLimit, steps, caller, j)
      modifies this`clock, this`sendTimes, this`steps, this`waiting
      ensures Valid() && clock >= old(clock) && steps == old(steps) + [Recorded(caller, clock)]
      ensures Permits(rateLimit, steps, j, |steps| - 1)
      ensures waiting == old(waiting) - {caller}
    {
      hide Sent, Legal, Permits, Waiting, Known;
      var now := Tick();
      PassedGoOn(Recorded(caller, now));
      Log(Recorded(caller, now), j);
      sendTimes := sendTimes + [now];
      waiting := waiting - {caller};
    }

    /** Other callers check and record while one waits, but not in its name. */
    method OtherCallers(me: nat, ghost mine: int)
      requires Valid() && me < callers
      modifies this`clock, this`sendTimes, this`steps, this`callers, this`waiting
      ensures Valid() && clock >= old(clock) && old(callers) <= callers && OnlyOthers(old(steps), steps, me)
      ensures me in waiting <==> me in old(waiting)
      ensures Waiting(rateLimit, old(steps), me, mine) ==> Waiting(rateLimit, steps, me, mine)
    {
      hide Valid, Permits, Waiting;
      var n: nat := *;
      while n > 0
        invariant Valid() && clock >= old(clock) && old(callers) <= callers && OnlyOthers(old(steps), steps, me)
        invariant me in waiting <==> me in old(waiting)
        invariant Waiting(rateLimit, old(steps), me, mine) ==> Waiting(rateLimit, steps, me, mine)
      {
        OtherCaller(me, mine);
        n := n - 1;
      }
    }

    method OtherCaller(me: nat, ghost mine: int)
      requires Valid() && me < callers
      modifies this`clock, this`sendTimes, this`steps, this`callers, this`waiting
      ensures Valid() && clock >= old(clock) && old(callers) <= callers && OnlyOthers(old(steps), steps, me)
      ensures me in waiting <==> me in old(waiting)
      ensures Waiting(rateLimit, old(steps), me, mine) ==> Waiting(rateLimit, steps, me, mine)
    {
      hide Sent, Legal, Permits, Kept, Waiting;
      var other: nat := *;
      ghost var before := steps;
      if other in waiting && other != me {
        ghost var j :| Waiting(rateLimit, steps, other, j);
        RecordSend(other, j);
      } else {
        other := callers;
        callers := callers + 1;
        var _ := RateLimited(other);
      }
      if Waiting(rateLimit, before, me, mine) {
        WaitingOne(rateLimit, before, steps[|before|], me, mine);
      }
    }

    /** The webhook answers, or the request fails. */
    method Request() returns (response: Response)
    {
      response := *;
    }

    /** One try for a caller that was let through; a success is recorded. */
    method TryPost(caller: nat, ghost j: int) returns (response: Response)
      requires Valid() && caller < callers && caller in waiting && Waiting(rateLimit, steps, caller, j)
      modifies this`clock, this`sendTimes, this`steps, this`callers, this`waiting
      ensures Valid() && clock >= old(clock) && caller < callers
      ensures Accepted(response) ==> Recording(old(steps), steps, caller, j)
      ensures !Accepted(response) ==>
                OnlyOthers(old(steps), steps, caller) && caller in waiting && Waiting(rateLimit, steps, caller, j)
    {
      hide Valid, Permits, Waiting, OnlyOthers;
      OtherCallers(caller, j);
      response := Request();
      if Accepted(response) {
        ghost var before := steps;
        RecordSend(caller, j);
        assert steps[..|steps| - 1] == before;
      }
    }

    /** A history that ends with the caller's record, permitted by its check, after steps of others only. */
    ghost predicate Recording(before: Steps, after: Steps, caller: nat, j: int) {
      && after != [] && OnlyOthers(before, after[..|after| - 1], caller)
      && after[|after| - 1].Recorded? && after[|after| - 1].caller == caller
      && Permits(rateLimit, after, j, |after| - 1)
    }

    /** Posts an alert for a caller that was let through, up to three times; only a success is recorded. */
    method Post(caller: nat, ghost j: int) returns (ok: bool, ghost tries: seq<Response>)
      requires Valid() && caller < callers && caller in waiting && Waiting(rateLimit, steps, caller, j)
      modifies this`clock, this`sendTimes, this`steps, this`callers, this`waiting
      ensures Valid() && clock >= old(clock) && Posted(tries, ok)
      ensures if ok then Recording(old(steps), steps, caller, j) else OnlyOthers(old(steps), steps, caller)
    {
      hide Valid, Waiting, Posted, Retried, OnlyOthers, Recording, Accepted;
      tries := [];
      OthersNothing(steps, caller);
      for attempt := 0 to 3
        invariant Valid() && clock >= old(clock) && caller < callers && caller in waiting
        invariant Waiting(rateLimit, steps, caller, j) && OnlyOthers(old(steps), steps, caller)
        invariant |tries| == attempt && forall i :: 0 <= i < |tries| ==> Retried(tries[i])
        invariant attempt == 3 ==> Posted(tries, false)
      {
        ghost var before := steps;
        var response := TryPost(caller, j);
        Answered(tries, response);
        tries := tries + [response];
        if Accepted(response) {
          RecordingLater(old(steps), before, steps, caller, j);
          return true, tries;
        }
        OthersGoOn(old(steps), before, steps, caller);
        if !Retried(response) {
          return false, tries;
        }
      }
      return false, tries;
    }

    lemma RecordingLater(before: Steps, middle: Steps, after: Steps, caller: nat, j: int)
      requires OnlyOthers(before, middle, caller) && Recording(middle, after, caller, j)
      ensures Recording(before, after, caller, j)
    {
      hide Permits;
      OthersGoOn(before, middle, after[..|after| - 1], caller);
    }

    /**
     Forwards an event that is severe enough, unless the rate limit is reached, with other callers
     going on. Any other event is passed over.
     */
    method MaybeSend(level: int) returns (ok: bool, ghost caller: nat, ghost j: nat, ghost tries: seq<Response>)
      requires Valid()
      modifies this`clock, this`sendTimes, this`steps, this`callers, this`waiting
      ensures Valid() && clock >= old(clock) && caller == old(callers) && old(callers) < callers
      ensures if enabled && level >= threshold then Went(old(steps), steps, caller, j, tries, ok)
              else !ok && tries == [] && steps == old(steps)
    {
      hide Went;
      caller, j, tries := callers, |steps|, [];
      if !enabled || level < threshold {
        callers := callers + 1;
        return false, caller, j, tries;
      }
      ok, j, tries := CheckAndPost();
    }

    /** The part for an event that is severe enough. */
    method CheckAndPost() returns (ok: bool, ghost j: nat, ghost tries: seq<Response>)
      requires Valid()
      modifies this`clock, this`sendTimes, this`steps, this`callers, this`waiting
      ensures Valid() && clock >= old(clock) && old(callers) < callers
      ensures Went(old(steps), steps, old(callers), j, tries, ok)
    {
      hide Permits, Waiting, Limited, Posted, OnlyOthers, Recording;
      var me := callers;
      callers := callers + 1;
      assert Valid();
      hide Valid, Went, Sent;
      OtherCallers(me, -1);
      j := |steps|;
      ghost var before := steps;
      var limited := RateLimited(me);
      ghost var check := Checked(me, clock);
      ok, tries := false, [];
      if !limited {
        ok, tries := Post(me, j);
        AfterCheck(old(steps), before, check, steps, me, tries, ok);
      } else {
        AfterRefusal(old(steps), before, check, me);
      }
    }

    /**
     The caller checks once, at step j, and posts exactly when the check lets it through. Its other
     step is its record at the end, which follows exactly from an accepted post.
     */
    ghost predicate Went(start: Steps, end: Steps, me: nat, j: nat, tries: seq<Response>, ok: bool) {
      && start <= end && |start| <= j < |end| && end[j].Checked? && end[j].caller == me
      && (if Limited(rateLimit, Sent(end[..j]), end[j].time) then !ok && tries == [] else Posted(tries, ok))
      && (ok ==> end[|end| - 1].Recorded? && Permits(rateLimit, end, j, |end| - 1))
      && forall i :: |start| <= i < |end| && end[i].caller == me ==> i == j || (ok && i == |end| - 1)
    }

    lemma AfterRefusal(start: Steps, before: Steps, check: Step, me: nat)
      requires OnlyOthers(start, before, me) && check.Checked? && check.caller == me
      requires Limited(rateLimit, Sent(before), check.time)
      ensures Went(start, before + [check], me, |before|, [], false)
    {
      hide Limited, Sent;
      assert (before + [check])[..|before|] == before;
    }

    lemma AfterCheck(start: Steps, before: Steps, check: Step, end: Steps, me: nat, tries: seq<Response>, ok: bool)
      requires OnlyOthers(start, before, me) && check.Checked? && check.caller == me
      requires !Limited(rateLimit, Sent(before), check.time) && Posted(tries, ok)
      requires if ok then Recording(before + [check], end, me, |before|) else OnlyOthers(before + [check], end, me)
      ensures Went(start, end, me, |before|, tries, ok)
    {
      hide Limited, Sent, Permits, Posted;
      assert end[..|before|] == before && end[|before|] == check;
    }
  }

  lemma KeptLater(sendTimes: seq<real>, sent: seq<real>, earlier: real, now: real)
    requires Kept(sendTimes, sent, earlier) && earlier <= now
    ensures Kept(sendTimes, sent, now)
  {
  }

  lemma LetThrough(rateLimit: int, h: Steps, caller: nat, now: real)
    requires !Limited(rateLimit, Sent(h), now)
    ensures Waiting(rateLimit, h + [Checked(caller, now)], caller, |h|)
  {
    assert (h + [Checked(caller, now)])[..|h|] == h;
  }

  /** A suffix that holds all fresh sends and none that is too old is what the window reaches. */
  lemma KeptActive(sent: seq<real>, gone: nat, now: real)
    requires Ascending(sent) && gone <= |sent|
    requires forall i :: 0 <= i < gone ==> !Fresh(sent[i], now, MINUTE)
    requires gone < |sent| ==> Fresh(sent[gone], now, MINUTE)
    ensures Active(sent, now, MINUTE) == sent[gone..]
    ensures sent != [] && gone == |sent| ==> now - sent[|sent| - 1] >= BURST
  {
    hide Active;
    var early, kept := sent[..gone], sent[gone..];
    assert sent == early + kept;
    forall i | 0 <= i < |kept|
      ensures Fresh(kept[i], now, MINUTE)
    {
      assert kept[i] == sent[gone + i] && sent[gone] <= sent[gone + i];
    }
    ActiveConcat(early, kept, now, MINUTE);
    ActiveNone(early, now, MINUTE);
    ActiveAll(kept, now, MINUTE);
  }
}
