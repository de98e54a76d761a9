/** What the breaker's answers mean in terms of the calls made so far, whoever made them and in whatever order. */
module BreakerTrace {
  import opened Breaker

  /** The failures recorded since the last success. */
  function FailuresSinceSuccess(h: History): nat {
    if h == [] then 0
    else
      match h[|h| - 1]
      case Succeeded(_) => 0
      case Failed(_) => FailuresSinceSuccess(h[..|h| - 1]) + 1
      case Asked(_) => FailuresSinceSuccess(h[..|h| - 1])
  }

  predicate HasFailure(h: History) {
    exists i :: 0 <= i < |h| && h[i].Failed?
  }

  /** The clock reading of the latest failure. */
  function LatestFailure(h: History): int
    requires HasFailure(h)
  {
    if h[|h| - 1].Failed? then h[|h| - 1].time else LatestFailure(h[..|h| - 1])
  }

  function Successes(h: History): nat {
    if h == [] then 0 else Successes(h[..|h| - 1]) + if h[|h| - 1].Succeeded? then 1 else 0
  }

  function StateAfter(c: Config, h: History): State {
    Replay(c, h).state
  }

  /** While closed, the counter is the number of failures since the last success, and below the threshold. */
  lemma {:induction false} ClosedCount(c: Config, h: History)
    requires Effective(c) && StateAfter(c, h).Closed?
    ensures Replay(c, h).failureCount == FailuresSinceSuccess(h) < c.failureThreshold
    decreases |h|
  {
    if h != [] && StateAfter(c, h[..|h| - 1]).Closed? {
      ClosedCount(c, h[..|h| - 1]);
    }
  }

  /** A closed breaker trips at exactly the failure that makes failureThreshold of them in a row without a success. */
  lemma {:induction false} TripsExactly(c: Config, h: History, now: int)
    requires Effective(c) && StateAfter(c, h).Closed?
    ensures StateAfter(c, h + [Failed(now)]).Open? <==> FailuresSinceSuccess(h + [Failed(now)]) == c.failureThreshold
    ensures StateAfter(c, h + [Failed(now)]).Open? || StateAfter(c, h + [Failed(now)]).Closed?
  {
    ClosedCount(c, h);
    assert (h + [Failed(now)])[..|h|] == h;
  }

  /** The breaker remembers the latest failure; when it is not closed there has been one. */
  lemma {:induction false} RemembersFailure(c: Config, h: History)
    requires Effective(c)
    ensures HasFailure(h) ==> Replay(c, h).lastFailureTime == LatestFailure(h)
    ensures !StateAfter(c, h).Closed? ==> HasFailure(h)
    decreases |h|
  {
    if h != [] {
      var before := h[..|h| - 1];
      RemembersFailure(c, before);
      if HasFailure(before) {
        var i :| 0 <= i < |before| && before[i].Failed?;
        assert h[i].Failed?;
      }
      if HasFailure(h) && !h[|h| - 1].Failed? {
        var i :| 0 <= i < |h| && h[i].Failed?;
        assert before[i].Failed?;
      }
    }
  }

  /** Allow refuses exactly in the open state while less than openTimeout has passed since the latest failure. */
  lemma {:induction false} RefusesExactly(c: Config, h: History, now: int)
    requires Effective(c)
    ensures !Answer(c, Replay(c, h), now) <==>
            StateAfter(c, h).Open? && HasFailure(h) && now - LatestFailure(h) < c.openTimeout
  {
    RemembersFailure(c, h);
  }

  /** h probes from m on: entered half-open at h[m] after the timeout, no failure since, too few successes yet. */
  ghost predicate Probing(c: Config, h: History, m: nat) {
    && m < |h| && h[m].Asked?
    && StateAfter(c, h[..m]).Open? && HasFailure(h[..m]) && h[m].time - LatestFailure(h[..m]) >= c.openTimeout
    && (forall i :: m < i < |h| ==> !h[i].Failed?)
    && (forall i :: m < i <= |h| ==> StateAfter(c, h[..i]).HalfOpen?)
    && Successes(h[m + 1..]) == Replay(c, h).successCount
  }

  lemma {:induction false} HalfOpenIsProbing(c: Config, h: History) returns (m: nat)
    requires Effective(c) && StateAfter(c, h).HalfOpen?
    ensures Probing(c, h, m) && Replay(c, h).successCount < c.successThreshold
    decreases |h|
  {
    var before := h[..|h| - 1];
    assert h[..|h|] == h;
    if StateAfter(c, before).HalfOpen? {
      hide LatestFailure, HasFailure;
      m := HalfOpenIsProbing(c, before);
      assert before[..m] == h[..m] && before[m] == h[m];
      assert h[m + 1..][..|h| - m - 2] == before[m + 1..];
      forall i | m < i <= |h|
        ensures StateAfter(c, h[..i]).HalfOpen?
      {
        if i < |h| {
          assert h[..i] == before[..i];
        }
      }
      forall i | m < i < |h|
        ensures !h[i].Failed?
      {
        if i < |before| {
          assert h[i] == before[i];
        }
      }
    } else {
      m := |h| - 1;
      RemembersFailure(c, before);
      assert h[m + 1..] == [];
    }
  }

  /** A call that closes the breaker is a success in the half-open state that makes the threshold. */
  lemma ClosingCall(c: Config, h: History)
    requires h != [] && !StateAfter(c, h[..|h| - 1]).Closed? && StateAfter(c, h).Closed?
    ensures StateAfter(c, h[..|h| - 1]).HalfOpen? && h[|h| - 1].Succeeded?
    ensures Replay(c, h[..|h| - 1]).successCount + 1 >= c.successThreshold
  {
  }

  /** One success more ends the probing period. */
  lemma ProbingEnds(c: Config, h: History, m: nat, e: Event)
    requires Probing(c, h, m) && e.Succeeded?
    ensures m < |h| && Successes((h + [e])[m + 1..]) == Replay(c, h).successCount + 1
    ensures forall i :: m < i <= |h| ==> !(h + [e])[i].Failed?
  {
    hide Replay;
    assert (h + [e])[m + 1..] == h[m + 1..] + [e];
    assert (h[m + 1..] + [e])[..|h| - m - 1] == h[m + 1..];
  }

  /**
   The breaker closes again only at the end of a probing period: after an Allow granted once
   the timeout had passed, exactly successThreshold successes and no failure.
   */
  lemma {:induction false} ClosedRegained(c: Config, h: History, from: nat) returns (m: nat, n: nat)
    requires Effective(c) && from < |h|
    requires !StateAfter(c, h[..from]).Closed? && StateAfter(c, h).Closed?
    ensures m < n < |h| && from <= n
    ensures Probing(c, h[..n], m) && h[n].Succeeded?
    ensures Successes(h[m + 1..n + 1]) == c.successThreshold
    ensures forall i :: m < i <= n ==> !h[i].Failed?
    decreases |h|
  {
    var before := h[..|h| - 1];
    assert h[..|before|] == before;
    hide Replay, StateAfter, Probing, Successes;
    if StateAfter(c, before).Closed? {
      assert from != |before|;
      assert before[..from] == h[..from];
      m, n := ClosedRegained(c, before, from);
      assert before[..n] == h[..n] && before[m + 1..n + 1] == h[m + 1..n + 1];
      assert forall i :: m < i <= n ==> before[i] == h[i];
    } else {
      n := |before|;
      ClosingCall(c, h);
      m := HalfOpenIsProbing(c, before);
      assert before + [h[n]] == h;
      ProbingEnds(c, before, m, h[n]);
      assert h[m + 1..n + 1] == h[m + 1..];
    }
  }

  /** An Allow in the half-open state is granted and changes nothing. */
  lemma AskedStays(c: Config, h: History, e: Event)
    requires StateAfter(c, h).HalfOpen? && e.Asked?
    ensures Answer(c, Replay(c, h), e.time)
    ensures Replay(c, h + [e]) == Replay(c, h) && StateAfter(c, h + [e]).HalfOpen?
  {
    assert (h + [e])[..|h|] == h;
  }

  lemma AskedNoSuccess(h: History, e: Event)
    requires e.Asked?
    ensures Successes(h + [e]) == Successes(h)
  {
    assert (h + [e])[..|h|] == h;
  }

  lemma ProbingGoesOn(c: Config, h: History, m: nat, e: Event)
    requires StateAfter(c, h).HalfOpen? && Probing(c, h, m) && e.Asked?
    ensures Probing(c, h + [e], m)
  {
    AskedStays(c, h, e);
    AskedNoSuccess(h[m + 1..], e);
    hide Replay, StateAfter, Successes, LatestFailure, HasFailure;
    var h' := h + [e];
    assert h'[..m] == h[..m] && h'[m] == h[m] && h'[m + 1..] == h[m + 1..] + [e];
    forall i | m < i <= |h'|
      ensures StateAfter(c, h'[..i]).HalfOpen?
    {
      assert h'[..i] == if i <= |h| then h[..i] else h';
    }
  }

  /**
   Nothing limits the probes: once half-open, the breaker grants every Allow until a result
   arrives, and they all belong to the one probing period.
   */
  lemma {:induction false} ProbesUnlimited(c: Config, h: History, m: nat, asks: History)
    requires StateAfter(c, h).HalfOpen? && Probing(c, h, m)
    requires forall i :: 0 <= i < |asks| ==> asks[i].Asked?
    ensures Probing(c, h + asks, m) && StateAfter(c, h + asks).HalfOpen?
    ensures forall i :: 0 <= i < |asks| ==> Answer(c, Replay(c, h + asks[..i]), asks[i].time)
    decreases |asks|
  {
    hide Probing, Replay, StateAfter, Answer;
    if asks == [] {
      assert h + asks == h;
    } else {
      var n := |asks| - 1;
      var some, last := asks[..n], asks[n];
      ProbesUnlimited(c, h, m, some);
      AskedStays(c, h + some, last);
      ProbingGoesOn(c, h + some, m, last);
      assert h + some + [last] == h + asks;
      forall i | 0 <= i < |asks|
        ensures Answer(c, Replay(c, h + asks[..i]), asks[i].time)
      {
        assert i < n ==> some[..i] == asks[..i] && some[i] == asks[i];
      }
    }
  }

  // ----- Where each call leads -----

  lemma OneCall(c: Config, h: History, e: Event)
    ensures Replay(c, h + [e]) == Apply(c, Replay(c, h), e)
  {
    assert (h + [e])[..|h|] == h;
  }

  /** A closed breaker opens at the failure that makes the threshold, and no other call opens it. */
  lemma FromClosed(c: Config, h: History, e: Event)
    requires Effective(c) && StateAfter(c, h).Closed?
    ensures var after := StateAfter(c, h + [e]);
            && (after.Open? <==> e.Failed? && FailuresSinceSuccess(h) + 1 == c.failureThreshold)
            && (after.Closed? <==> !after.Open?)
  {
    OneCall(c, h, e);
    ClosedCount(c, h);
  }

  /** An open breaker becomes half-open at an Allow when the timeout has passed, and no other call moves it. */
  lemma FromOpen(c: Config, h: History, e: Event)
    requires Effective(c) && StateAfter(c, h).Open?
    ensures var after := StateAfter(c, h + [e]);
            && HasFailure(h)
            && (after.HalfOpen? <==> e.Asked? && e.time - LatestFailure(h) >= c.openTimeout)
            && (after.Open? <==> !after.HalfOpen?)
  {
    OneCall(c, h, e);
    RemembersFailure(c, h);
  }

  /** A half-open breaker opens at any failure, and closes at the success that makes the threshold of its period. */
  lemma FromHalfOpen(c: Config, h: History, m: nat, e: Event)
    requires Effective(c) && StateAfter(c, h).HalfOpen? && Probing(c, h, m)
    ensures var after := StateAfter(c, h + [e]);
            && (after.Open? <==> e.Failed?)
            && (after.Closed? <==> e.Succeeded? && Successes(h[m + 1..]) + 1 == c.successThreshold)
            && (after.HalfOpen? <==> !after.Open? && !after.Closed?)
  {
    OneCall(c, h, e);
    var _ := HalfOpenIsProbing(c, h);
  }

  /** No event of a kind from m on. */
  ghost predicate NoFailure(h: History, m: nat) {
    forall i :: m <= i < |h| ==> !h[i].Failed?
  }

  /**
   The breaker is closed after a history that went half-open at m and has had no failure since
   exactly if the successes since make the threshold.
   */
  lemma {:induction false} ClosesExactly(c: Config, h: History, m: nat)
    requires Effective(c) && m < |h| && !StateAfter(c, h[..m]).HalfOpen? && StateAfter(c, h[..m + 1]).HalfOpen?
    requires NoFailure(h, m)
    ensures StateAfter(c, h).Closed? <==> Successes(h[m + 1..]) >= c.successThreshold
    ensures StateAfter(c, h).HalfOpen? <==> Successes(h[m + 1..]) < c.successThreshold
    ensures StateAfter(c, h).HalfOpen? ==> Replay(c, h).successCount == Successes(h[m + 1..])
    decreases |h|
  {
    var n := |h| - 1;
    if n == m {
      assert h[..m + 1] == h && h[m + 1..] == [];
      WentHalfOpen(c, h);
    } else {
      var before, e := h[..n], h[n];
      assert before[..m] == h[..m] && before[..m + 1] == h[..m + 1];
      ClosesExactly(c, before, m);
      assert before + [e] == h && h[m + 1..] == before[m + 1..] + [e];
      assert h[m + 1..][..n - m - 1] == before[m + 1..];
      OneCall(c, before, e);
    }
  }

  /** A breaker that has just gone half-open has counted no success. */
  lemma WentHalfOpen(c: Config, h: History)
    requires Effective(c) && h != [] && !StateAfter(c, h[..|h| - 1]).HalfOpen? && StateAfter(c, h).HalfOpen?
    ensures Replay(c, h).successCount == 0
  {
  }

  /** From any state, a quiet period of openTimeout after the latest failure is enough for Allow to be granted. */
  lemma {:induction false} GrantedAfterTimeout(c: Config, h: History, now: int)
    requires Effective(c) && (HasFailure(h) ==> now - LatestFailure(h) >= c.openTimeout)
    ensures Answer(c, Replay(c, h), now) && !StateAfter(c, h + [Asked(now)]).Open?
  {
    RemembersFailure(c, h);
    assert (h + [Asked(now)])[..|h|] == h;
  }
}
