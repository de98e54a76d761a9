/** What the counters of a stream worker leave out: the first-attempt successes of flushes that were cut short. */
module Accounting {
  import opened Options
  import opened Breaker
  import opened Delivery

  /** Given back while there were sends left to try: the wait before the next one was cancelled. */
  ghost predicate CutShort(f: Fate, attempts: nat) {
    f.dispositions == [Nak] && 0 < |f.outcomes| < attempts
  }

  /** A flush was cut short if one of its messages was. */
  ghost predicate Cut(trace: Trace, flush: set<nat>, attempts: nat) {
    exists id :: id in flush && id in trace && CutShort(trace[id], attempts)
  }

  /** How many of some flushes were cut short. */
  ghost function Cuts(trace: Trace, flushes: seq<set<nat>>, attempts: nat): nat {
    if flushes == [] then 0
    else
      var n := |flushes| - 1;
      Cuts(trace, flushes[..n], attempts) + if Cut(trace, flushes[n], attempts) then 1 else 0
  }

  /** The messages that the sink accepted at the first send of a flush that was cut short. */
  ghost function Lost(trace: Trace, flushes: seq<set<nat>>, attempts: nat): set<nat> {
    if flushes == [] then {}
    else
      var n := |flushes| - 1;
      Lost(trace, flushes[..n], attempts) +
      if Cut(trace, flushes[n], attempts) then Tally(trace, First) * flushes[n] else {}
  }

  /** The messages of the flushes have all been settled. */
  ghost predicate Done(trace: Trace, flushes: seq<set<nat>>) {
    forall i, id :: 0 <= i < |flushes| && id in flushes[i] ==> id in trace && KindOf(trace[id]) != Pending
  }

  /** Fetched and not settled yet. */
  ghost predicate AllPending(trace: Trace, ids: set<nat>) {
    forall id :: id in ids ==> id in trace && KindOf(trace[id]) == Pending
  }

  lemma CutSame(before: Trace, after: Trace, flush: set<nat>, ids: set<nat>, attempts: nat)
    requires OnlyTouches(before, after, ids) && flush !! ids
    ensures Cut(after, flush, attempts) <==> Cut(before, flush, attempts)
    ensures Tally(after, First) * flush == Tally(before, First) * flush
  {
  }

  /** What later flushes do leaves the account of the earlier ones alone. */
  lemma {:induction false} LostSame(before: Trace, after: Trace, flushes: seq<set<nat>>, ids: set<nat>, attempts: nat)
    requires OnlyTouches(before, after, ids) && forall i :: 0 <= i < |flushes| ==> flushes[i] !! ids
    ensures Lost(after, flushes, attempts) == Lost(before, flushes, attempts)
    ensures Cuts(after, flushes, attempts) == Cuts(before, flushes, attempts)
    ensures Lost(after, flushes, attempts) !! ids
  {
    if flushes != [] {
      var n := |flushes| - 1;
      LostSame(before, after, flushes[..n], ids, attempts);
      CutSame(before, after, flushes[n], ids, attempts);
    }
  }

  /** A flush that is cut short loses as many messages as its first send had accepted, any other loses none. */
  lemma LostNext(before: Trace, after: Trace, flushes: seq<set<nat>>, ids: set<nat>, attempts: nat)
    requires OnlyTouches(before, after, ids) && Done(before, flushes) && AllPending(before, ids)
    ensures Cuts(after, flushes + [ids], attempts) ==
            Cuts(before, flushes, attempts) + if Cut(after, ids, attempts) then 1 else 0
    ensures |Lost(after, flushes + [ids], attempts)| ==
            |Lost(before, flushes, attempts)| +
            if Cut(after, ids, attempts) then Count(after).first - Count(before).first else 0
  {
    assert (flushes + [ids])[..|flushes|] == flushes;
    LostSame(before, after, flushes, ids, attempts);
    FirstMore(before, after, ids);
    var lost, more := Lost(after, flushes, attempts), Tally(after, First) * ids;
    assert lost !! more;
    assert |lost + more| == |lost| + |more|;
  }

  lemma FirstMore(before: Trace, after: Trace, ids: set<nat>)
    requires OnlyTouches(before, after, ids) && AllPending(before, ids)
    ensures |Tally(after, First) * ids| == Count(after).first - Count(before).first
  {
    hide KindOf;
    var earlier, more := Tally(before, First), Tally(after, First) * ids;
    assert Tally(after, First) == earlier + more && earlier !! more;
  }

  lemma {:induction false} NothingLost(trace: Trace, flushes: seq<set<nat>>, attempts: nat)
    requires forall id :: id in trace ==> !CutShort(trace[id], attempts)
    ensures Cuts(trace, flushes, attempts) == 0 && Lost(trace, flushes, attempts) == {}
  {
    if flushes != [] {
      NothingLost(trace, flushes[..|flushes| - 1], attempts);
    }
  }

  lemma DoneNext(before: Trace, after: Trace, flushes: seq<set<nat>>, ids: set<nat>)
    requires OnlyTouches(before, after, ids) && Done(before, flushes) && AllPending(before, ids)
    requires forall id :: id in ids ==> KindOf(after[id]) != Pending
    ensures Done(after, flushes + [ids])
  {
    hide KindOf;
  }

  /** Messages that arrive change no account. */
  lemma {:induction false} LostArrived(before: Trace, after: Trace, flushes: seq<set<nat>>, attempts: nat)
    requires Done(before, flushes) && forall id :: id in before ==> id in after && after[id] == before[id]
    ensures Done(after, flushes)
    ensures Lost(after, flushes, attempts) == Lost(before, flushes, attempts)
    ensures Cuts(after, flushes, attempts) == Cuts(before, flushes, attempts)
  {
    if flushes != [] {
      var n := |flushes| - 1;
      LostArrived(before, after, flushes[..n], attempts);
      assert forall id :: id in flushes[n] ==> id in before;
      assert Cut(after, flushes[n], attempts) <==> Cut(before, flushes[n], attempts);
      assert Tally(after, First) * flushes[n] == Tally(before, First) * flushes[n];
    }
  }

  // ----- One batch -----

  ghost predicate SomeCut(trace: Trace, batch: seq<Message>, attempts: nat) {
    exists i :: 0 <= i < |batch| && batch[i].id in trace && CutShort(trace[batch[i].id], attempts)
  }

  lemma SomeCutIsCut(trace: Trace, batch: seq<Message>, attempts: nat)
    ensures SomeCut(trace, batch, attempts) <==> Cut(trace, Ids(batch), attempts)
  {
    if i :| 0 <= i < |batch| && batch[i].id in trace && CutShort(trace[batch[i].id], attempts) {
      assert batch[i].id in Ids(batch);
    }
    if id :| id in Ids(batch) && id in trace && CutShort(trace[id], attempts) {
      var i :| 0 <= i < |batch| && batch[i].id == id;
      assert CutShort(trace[batch[i].id], attempts);
    }
  }

  /** Neither an accepted message nor one given up was cut short. */
  lemma NotCutShort(f: Fate, m: Message, attempts: nat, claimed: Option<int>)
    requires Accepted(f, attempts) || GivenUp(f, m, attempts, claimed)
    ensures !CutShort(f, attempts)
  {
    assert [Ack][0] != [Nak][0];
  }

  /** A flush was cut short exactly if a message of its batch was. */
  lemma TreatedCut(trace: Trace, batch: seq<Message>, sent: bool, interrupted: bool, attempts: nat,
                   claimed: Option<int>)
    requires Treated(trace, batch, sent, interrupted, attempts, claimed)
    ensures interrupted <==> SomeCut(trace, batch, attempts)
  {
    if sent && interrupted {
      var k :| 0 < k < attempts && StoppedAt(trace, batch, k);
      var m :| m in batch && Returned(trace[m.id], k);
      var i :| 0 <= i < |batch| && batch[i] == m;
      assert CutShort(trace[batch[i].id], attempts);
    } else {
      forall i | 0 <= i < |batch|
        ensures !CutShort(trace[batch[i].id], attempts)
      {
        assert batch[i] in batch;
        if sent {
          NotCutShort(trace[batch[i].id], batch[i], attempts, claimed);
        }
      }
    }
  }

  /** The first i of the failing messages are given up; the others are still as they were. */
  ghost predicate GivingUp(before: Trace, after: Trace, failed: seq<Message>, i: nat, attempts: nat,
                           claimed: Option<int>)
  {
    && OnlyTouches(before, after, Ids(failed))
    && (forall j :: 0 <= j < |failed| ==> failed[j].id in after)
    && (forall j :: 0 <= j < i && j < |failed| ==> GivenUp(after[failed[j].id], failed[j], attempts, claimed))
    && (forall j :: i <= j < |failed| ==> failed[j].id in before && after[failed[j].id] == before[failed[j].id])
  }

  lemma GivingUpStart(trace: Trace, failed: seq<Message>, attempts: nat, claimed: Option<int>)
    requires forall j :: 0 <= j < |failed| ==> failed[j].id in trace
    ensures GivingUp(trace, trace, failed, 0, attempts, claimed)
  {
  }

  lemma GivingUpNext(before: Trace, middle: Trace, after: Trace, failed: seq<Message>, i: nat, attempts: nat,
                     claimed: Option<int>)
    requires Distinct(failed) && i < |failed| && GivingUp(before, middle, failed, i, attempts, claimed)
    requires OnlyTouches(middle, after, {failed[i].id})
    requires GivenUp(after[failed[i].id], failed[i], attempts, claimed)
    ensures GivingUp(before, after, failed, i + 1, attempts, claimed)
  {
    hide GivenUp;
  }

  /** What the breaker is told of a batch: a success exactly if all of it was accepted, otherwise a failure. */
  ghost predicate Judges(verdict: Event, trace: Trace, batch: seq<Message>, attempts: nat) {
    && (verdict.Succeeded? <==> forall m :: m in batch ==> m.id in trace && Accepted(trace[m.id], attempts))
    && (verdict.Failed? <==> !verdict.Succeeded?)
  }

  // ----- What every flush did -----

  /** Accepted in at most k sends, or given back after k. */
  ghost predicate EndedAt(trace: Trace, flush: set<nat>, k: nat) {
    forall id :: id in flush ==> id in trace && (Accepted(trace[id], k) || Returned(trace[id], k))
  }

  /** The same as Treated, for the identifiers of a batch: sent or not, cut short or not. */
  ghost predicate Went(trace: Trace, fetched: seq<Message>, flush: set<nat>, sent: bool, attempts: nat,
                       claimed: Option<int>)
  {
    && (forall id :: id in flush ==> id in trace && id < |fetched|)
    && if !sent then forall id :: id in flush ==> trace[id] == TURNED_AWAY
       else if Cut(trace, flush, attempts) then
         exists k :: 0 < k < attempts && EndedAt(trace, flush, k)
       else
         forall id :: id in flush ==>
           Accepted(trace[id], attempts) || GivenUp(trace[id], fetched[id], attempts, claimed)
  }

  /** What became of all flushes so far; no message was in two of them. */
  ghost predicate AllWent(trace: Trace, fetched: seq<Message>, flushes: seq<set<nat>>, letThrough: seq<bool>,
                          attempts: nat, claimed: Option<int>)
  {
    && |letThrough| == |flushes|
    && (forall i :: 0 <= i < |flushes| ==> Went(trace, fetched, flushes[i], letThrough[i], attempts, claimed))
    && forall i, j :: 0 <= i < j < |flushes| ==> flushes[i] !! flushes[j]
  }

  ghost predicate Flushed(flushes: seq<set<nat>>, id: nat) {
    exists i :: 0 <= i < |flushes| && id in flushes[i]
  }

  lemma FlushedNext(flushes: seq<set<nat>>, ids: set<nat>, id: nat)
    ensures Flushed(flushes + [ids], id) <==> Flushed(flushes, id) || id in ids
  {
    if i :| 0 <= i < |flushes| && id in flushes[i] {
      assert (flushes + [ids])[i] == flushes[i];
    }
    assert (flushes + [ids])[|flushes|] == ids;
  }

  /** How many flushes the breaker kept from the sink. */
  ghost function Refusals(letThrough: seq<bool>): nat {
    if letThrough == [] then 0
    else
      var n := |letThrough| - 1;
      Refusals(letThrough[..n]) + if letThrough[n] then 0 else 1
  }

  lemma RefusalsNext(letThrough: seq<bool>, sent: bool)
    ensures Refusals(letThrough + [sent]) == Refusals(letThrough) + if sent then 0 else 1
  {
    assert (letThrough + [sent])[..|letThrough|] == letThrough;
  }

  lemma BatchWent(trace: Trace, fetched: seq<Message>, batch: seq<Message>, sent: bool, interrupted: bool,
                  attempts: nat, claimed: Option<int>)
    requires Treated(trace, batch, sent, interrupted, attempts, claimed)
    requires forall i :: 0 <= i < |batch| ==>
               batch[i].id in trace && batch[i].id < |fetched| && fetched[batch[i].id] == batch[i]
    ensures Went(trace, fetched, Ids(batch), sent, attempts, claimed)
  {
    hide Accepted, GivenUp, Returned, CutShort, Cut;
    TreatedCut(trace, batch, sent, interrupted, attempts, claimed);
    SomeCutIsCut(trace, batch, attempts);
    forall id | id in Ids(batch)
      ensures id in trace && id < |fetched| && fetched[id] in batch && fetched[id].id == id
    {
      var i :| 0 <= i < |batch| && batch[i].id == id;
      assert batch[i] in batch;
    }
    if sent && interrupted {
      var k :| 0 < k < attempts && StoppedAt(trace, batch, k);
      forall id | id in Ids(batch)
        ensures Accepted(trace[id], k) || Returned(trace[id], k)
      {
        assert fetched[id] in batch;
      }
      assert EndedAt(trace, Ids(batch), k);
    }
  }

  lemma WentSame(before: Trace, after: Trace, fetched: seq<Message>, fetched': seq<Message>, flush: set<nat>,
                 sent: bool, attempts: nat, claimed: Option<int>)
    requires Went(before, fetched, flush, sent, attempts, claimed) && fetched <= fetched'
    requires forall id :: id in flush ==> id in after && after[id] == before[id]
    ensures Went(after, fetched', flush, sent, attempts, claimed)
  {
    hide Accepted, GivenUp, Returned, CutShort;
    assert Cut(after, flush, attempts) <==> Cut(before, flush, attempts);
    if sent && Cut(before, flush, attempts) {
      var k :| 0 < k < attempts && EndedAt(before, flush, k);
      assert EndedAt(after, flush, k);
    }
  }

  /** One flush more. */
  lemma AllWentNext(before: Trace, after: Trace, fetched: seq<Message>, flushes: seq<set<nat>>,
                    letThrough: seq<bool>, ids: set<nat>, sent: bool, attempts: nat, claimed: Option<int>)
    requires AllWent(before, fetched, flushes, letThrough, attempts, claimed)
    requires OnlyTouches(before, after, ids) && Done(before, flushes) && AllPending(before, ids)
    requires Went(after, fetched, ids, sent, attempts, claimed)
    ensures AllWent(after, fetched, flushes + [ids], letThrough + [sent], attempts, claimed)
  {
    hide Went, KindOf;
    forall i | 0 <= i < |flushes|
      ensures flushes[i] !! ids && Went(after, fetched, flushes[i], letThrough[i], attempts, claimed)
    {
      assert forall id :: id in flushes[i] && id in ids ==> false;
      WentIds(before, fetched, flushes[i], letThrough[i], attempts, claimed);
      WentSame(before, after, fetched, fetched, flushes[i], letThrough[i], attempts, claimed);
    }
  }

  lemma WentIds(trace: Trace, fetched: seq<Message>, flush: set<nat>, sent: bool, attempts: nat, claimed: Option<int>)
    requires Went(trace, fetched, flush, sent, attempts, claimed)
    ensures forall id :: id in flush ==> id in trace
  {
  }

  /** Messages that arrive change nothing that was done. */
  lemma AllWentArrived(before: Trace, after: Trace, fetched: seq<Message>, fetched': seq<Message>,
                       flushes: seq<set<nat>>, letThrough: seq<bool>, attempts: nat, claimed: Option<int>)
    requires AllWent(before, fetched, flushes, letThrough, attempts, claimed) && fetched <= fetched'
    requires forall id :: id in before ==> id in after && after[id] == before[id]
    ensures AllWent(after, fetched', flushes, letThrough, attempts, claimed)
  {
    hide Went;
    forall i | 0 <= i < |flushes|
      ensures Went(after, fetched', flushes[i], letThrough[i], attempts, claimed)
    {
      WentIds(before, fetched, flushes[i], letThrough[i], attempts, claimed);
      WentSame(before, after, fetched, fetched', flushes[i], letThrough[i], attempts, claimed);
    }
  }

  /** Whatever was flushed is settled. */
  lemma WentSettled(trace: Trace, fetched: seq<Message>, flush: set<nat>, sent: bool, attempts: nat,
                    claimed: Option<int>, id: nat)
    requires Went(trace, fetched, flush, sent, attempts, claimed) && id in flush && attempts > 0
    ensures id in trace && id < |fetched| && Settled(trace[id], fetched[id], attempts, claimed)
  {
    if sent && Cut(trace, flush, attempts) {
      var k :| 0 < k < attempts && EndedAt(trace, flush, k);
      if Accepted(trace[id], k) {
        AcceptedSooner(trace[id], k, attempts);
      }
    }
  }

  /** A flush was let through exactly if the breaker, asked for it, said so. */
  ghost predicate Obeyed(c: Config, h: History, asks: seq<nat>, letThrough: seq<bool>) {
    && |asks| == |letThrough|
    && (forall i :: 0 <= i < |asks| ==>
          && asks[i] < |h| && h[asks[i]].Asked?
          && letThrough[i] == Answer(c, Replay(c, h[..asks[i]]), h[asks[i]].time))
    && forall i, j :: 0 <= i < j < |asks| ==> asks[i] < asks[j]
  }

  lemma ObeyedNext(c: Config, before: History, after: History, asks: seq<nat>, letThrough: seq<bool>, asked: nat,
                   sent: bool)
    requires Obeyed(c, before, asks, letThrough) && before <= after && |before| <= asked < |after|
    requires after[asked].Asked? && sent == Answer(c, Replay(c, after[..asked]), after[asked].time)
    ensures Obeyed(c, after, asks + [asked], letThrough + [sent])
  {
    hide Answer, Replay;
    assert forall i :: 0 <= i < |asks| ==> after[..asks[i]] == before[..asks[i]];
  }
}
