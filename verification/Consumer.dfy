/** The stream consumer of the forwarder: batching, retrying, dead-lettering, and its counters. */
module Consumer {
  import opened Options
  import opened Retry
  import opened Breaker
  import opened Delivery
  import opened Accounting

  class Consumer {
    const retry: RetryPolicy
    const dlqSubject: string
    const batchSize: nat
    const cb: CircuitBreaker

    var received: int
    var forwarded: int
    var nakd: int
    var retried: int
    var deadLettered: int
    var circuitOpen: int
    var nextId: nat // the next delivery

    ghost var trace: Trace
    ghost var fetched: seq<Message> // every delivery so far, by id
    ghost var flushes: seq<set<nat>> // the batches flushed so far
    ghost var letThrough: seq<bool> // which of them the breaker let through
    ghost var asks: seq<nat> // where in the breaker's history it was asked for them
    ghost var uncounted: int // first-attempt successes that an interrupted flush did not count
    ghost var told: seq<nat> // where in the breaker's history this worker's reports are
    ghost var waits: seq<int> // the waits of the flush at hand

    constructor (retry: RetryPolicy, dlqSubject: string, batchSize: nat, cb: CircuitBreaker)
      requires batchSize > 0 && cb.Valid()
      ensures Valid() && Accounted() && AllSettled([])
      ensures this.cb == cb && this.batchSize == batchSize && this.retry == retry && this.dlqSubject == dlqSubject
      ensures received == 0 && uncounted == 0 && circuitOpen == 0 && flushes == []
    {
      this.retry, this.dlqSubject, this.batchSize, this.cb := retry, dlqSubject, batchSize, cb;
      received, forwarded, nakd, retried, deadLettered, circuitOpen := 0, 0, 0, 0, 0, 0;
      nextId, trace, fetched, uncounted, waits, flushes, letThrough, asks, told := 0, map[], [], 0, [], [], [], [], [];
    }

    ghost predicate Valid()
      reads this, cb
    {
      && batchSize > 0 && cb.Valid()
      && |fetched| == nextId && (forall i :: 0 <= i < nextId ==> fetched[i].id == i)
      && (forall id :: id in trace <==> 0 <= id < nextId)
      && Obeyed(cb.config, cb.history, asks, letThrough)
    }

    /** Every counter counts what it is named for, except that an interrupted flush leaves some successes out. */
    ghost predicate Agree()
      reads this`received, this`forwarded, this`retried, this`deadLettered, this`nakd, this`uncounted, this`trace
    {
      AgreeBut(0)
    }

    /**
     What every flush did is known, and with it what the counters leave out: the messages accepted
     at the first send of a flush that was cut short.
     */
    ghost predicate Accounted()
      reads this`received, this`forwarded, this`retried, this`deadLettered, this`nakd, this`uncounted, this`trace,
            this`flushes, this`letThrough, this`circuitOpen, this`fetched
    {
      && Agree() && Done(trace, flushes) && uncounted == |Lost(trace, flushes, Attempts())|
      && AllWent(trace, fetched, flushes, letThrough, Attempts(), Claimed()) && circuitOpen == Refusals(letThrough)
    }

    /** How many flushes were cut short. */
    ghost function Interruptions(): nat
      reads this`trace, this`flushes
    {
      Cuts(trace, flushes, Attempts())
    }

    /** Every message received is counted once or in the batch at hand, unless a flush was cut short. */
    ghost predicate Conserved(batch: seq<Message>)
      reads this`received, this`forwarded, this`retried, this`deadLettered, this`nakd, this`uncounted, this`trace
    {
      && received == |batch| + forwarded + uncounted + retried + deadLettered + nakd
      && ((forall id :: id in trace ==> !CutShort(trace[id], Attempts())) ==>
            received == |batch| + forwarded + retried + deadLettered + nakd)
    }

    lemma Conservation(batch: seq<Message>)
      requires Accounted() && Count(trace).pending == |batch|
      ensures Conserved(batch)
    {
      CountsAll(trace);
      hide Count, Lost;
      if forall id :: id in trace ==> !CutShort(trace[id], Attempts()) {
        NothingLost(trace, flushes, Attempts());
      }
    }

    /** What each counter is the number of; first successes that an interrupted flush left out are apart. */
    lemma CountersMean()
      requires Agree()
      ensures received == |trace|
      ensures forwarded + uncounted == |set id | id in trace && KindOf(trace[id]).First?|
      ensures retried == |set id | id in trace && KindOf(trace[id]).Later?|
      ensures deadLettered == |set id | id in trace && KindOf(trace[id]).Dead?|
      ensures nakd == |set id | id in trace && KindOf(trace[id]).Back?|
    {
      hide KindOf;
      assert (set id | id in trace && KindOf(trace[id]).First?) == Tally(trace, First);
      assert (set id | id in trace && KindOf(trace[id]).Later?) == Tally(trace, Later);
      assert (set id | id in trace && KindOf(trace[id]).Dead?) == Tally(trace, Dead);
      assert (set id | id in trace && KindOf(trace[id]).Back?) == Tally(trace, Back);
    }

    /** The counters lag behind by some first-attempt successes. */
    ghost predicate AgreeBut(lag: int)
      reads this`received, this`forwarded, this`retried, this`deadLettered, this`nakd, this`uncounted, this`trace
    {
      && received == |trace|
      && Count(trace).first == forwarded + uncounted + lag
      && Count(trace).later == retried
      && Count(trace).dead == deadLettered
      && Count(trace).back == nakd
    }

    /** How often a message is sent before it is given up. */
    ghost function Attempts(): (n: nat)
      ensures n > 0 && n == 1 + if retry.maxRetries < 0 then 0 else retry.maxRetries
    {
      if retry.maxRetries > 0 then retry.maxRetries + 1 else 1
    }

    /** What a dead letter says of the number of sends, if there is a subject for dead letters. */
    ghost function Claimed(): (claimed: Option<int>)
      ensures claimed.None? <==> dlqSubject == ""
      ensures claimed.Some? ==> claimed.value == retry.maxRetries + 1
    {
      if dlqSubject != "" then Some(retry.maxRetries + 1) else None
    }

    /** Every message ever fetched, but for those in the batch at hand, was flushed and is settled. */
    ghost predicate AllSettled(batch: seq<Message>)
      reads this`trace, this`fetched, this`flushes
    {
      forall id :: 0 <= id < |fetched| && id !in Ids(batch) ==>
        id in trace && Settled(trace[id], fetched[id], Attempts(), Claimed()) && Flushed(flushes, id)
    }

    /** The messages of a batch are as fetched, and nothing has happened to them yet. */
    ghost predicate Unsent(batch: seq<Message>)
      reads this`trace, this`fetched
    {
      && Distinct(batch)
      && forall i :: 0 <= i < |batch| ==>
           && batch[i].id in trace && trace[batch[i].id] == FETCHED
           && batch[i].id < |fetched| && fetched[batch[i].id] == batch[i]
    }

    // ----- The world outside -----

    /** The sink: one outcome per record, anything may come. */
    method Send(records: seq<Message>) returns (results: seq<Outcome>)
      requires Distinct(records) && forall i :: 0 <= i < |records| ==> records[i].id in trace
      modifies this`trace
      ensures |results| == |records|
      ensures OnlyTouches(old(trace), trace, Ids(records))
      ensures forall i :: 0 <= i < |records| ==>
                trace[records[i].id] ==
                old(trace)[records[i].id].(outcomes := old(trace)[records[i].id].outcomes + [results[i]])
    {
      results := [];
      for i := 0 to |records|
        invariant |results| == i
        invariant OnlyTouches(old(trace), trace, Ids(records))
        invariant forall j :: 0 <= j < i ==>
                    trace[records[j].id] ==
                    old(trace)[records[j].id].(outcomes := old(trace)[records[j].id].outcomes + [results[j]])
        invariant forall j :: i <= j < |records| ==> trace[records[j].id] == old(trace)[records[j].id]
      {
        var failed: bool, error: string := *, *;
        var result := if failed then Some(error) else None;
        results := results + [result];
        ghost var f := trace[records[i].id];
        trace := trace[records[i].id := f.(outcomes := f.outcomes + [result])];
      }
    }

    method AckMsg(m: Message)
      requires m.id in trace
      modifies this`trace
      ensures trace == old(trace)[m.id := old(trace)[m.id].(dispositions := old(trace)[m.id].dispositions + [Ack])]
    {
      trace := trace[m.id := trace[m.id].(dispositions := trace[m.id].dispositions + [Ack])];
    }

    method NakMsg(m: Message)
      requires m.id in trace
      modifies this`trace
      ensures trace == old(trace)[m.id := old(trace)[m.id].(dispositions := old(trace)[m.id].dispositions + [Nak])]
    {
      trace := trace[m.id := trace[m.id].(dispositions := trace[m.id].dispositions + [Nak])];
    }

    /** Publishing to the dead-letter subject may fail. */
    method Publish(m: Message, letter: Letter) returns (ok: bool)
      requires m.id in trace
      modifies this`trace
      ensures var f := old(trace)[m.id];
              trace == old(trace)[m.id := if ok then f.(letters := f.letters + [letter])
                                          else f.(lost := f.lost + [letter])]
    {
      ok := *;
      var f := trace[m.id];
      trace := trace[m.id := if ok then f.(letters := f.letters + [letter]) else f.(lost := f.lost + [letter])];
    }

    /** The other stream workers use the same breaker in the meantime. */
    method OtherWorkers()
      requires cb.Valid()
      modifies cb
      ensures cb.Valid() && old(cb.history) <= cb.history
    {
      var n: nat := *;
      while n > 0
        invariant cb.Valid() && old(cb.history) <= cb.history
      {
        var kind: int, now: int := *, *;
        if kind == 0 {
          var _ := cb.Allow(now);
        } else if kind == 1 {
          cb.RecordSuccess(now);
        } else {
          cb.RecordFailure(now);
        }
        n := n - 1;
      }
    }

    // ----- Flushing a batch -----

    /** Gives a batch back for redelivery. */
    method NakAll(batch: seq<Message>, ghost k: nat)
      requires Distinct(batch)
      requires forall i :: 0 <= i < |batch| ==> batch[i].id in trace && Waiting(trace[batch[i].id], k)
      modifies this`trace
      ensures OnlyTouches(old(trace), trace, Ids(batch))
      ensures forall i :: 0 <= i < |batch| ==>
                && trace[batch[i].id] == old(trace)[batch[i].id].(dispositions := [Nak])
                && Returned(trace[batch[i].id], k)
      ensures Count(trace) == Move(Count(old(trace)), Back, |batch|)
    {
      hide Count;
      for i := 0 to |batch|
        invariant OnlyTouches(old(trace), trace, Ids(batch))
        invariant forall j :: 0 <= j < i ==> trace[batch[j].id] == old(trace)[batch[j].id].(dispositions := [Nak])
        invariant forall j :: i <= j < |batch| ==> trace[batch[j].id] == old(trace)[batch[j].id]
      {
        NakMsg(batch[i]);
      }
      BackCounts(old(trace), trace, batch, k);
    }

    /** Sorts the answers: how many records were accepted, which were refused, and why. */
    method Sort(records: seq<Message>, results: seq<Outcome>)
      returns (accepted: nat, failed: seq<Message>, errors: seq<Outcome>)
      requires |results| == |records|
      ensures accepted == |records| - |failed|
      ensures failed == Refused(records, results) && errors == Errors(results)
    {
      accepted, failed, errors := 0, [], [];
      for i := 0 to |records|
        invariant accepted == i - |failed|
        invariant failed == Refused(records[..i], results[..i]) && errors == Errors(results[..i])
      {
        assert records[..i + 1][..i] == records[..i] && results[..i + 1][..i] == results[..i];
        if results[i].None? {
          accepted := accepted + 1;
        } else {
          failed := failed + [records[i]];
          errors := errors + [results[i]];
        }
      }
      assert records[..|records|] == records && results[..|records|] == results;
    }

    /** Acks the records that were accepted. */
    method AckAccepted(records: seq<Message>, results: seq<Outcome>)
      requires |results| == |records| && Distinct(records)
      requires forall i :: 0 <= i < |records| ==> records[i].id in trace
      modifies this`trace
      ensures OnlyTouches(old(trace), trace, Ids(records))
      ensures forall i :: 0 <= i < |records| ==>
                trace[records[i].id] == AckedIf(old(trace)[records[i].id], results[i])
    {
      for i := 0 to |records|
        invariant OnlyTouches(old(trace), trace, Ids(records))
        invariant forall j :: 0 <= j < i ==> trace[records[j].id] == AckedIf(old(trace)[records[j].id], results[j])
        invariant forall j :: i <= j < |records| ==> trace[records[j].id] == old(trace)[records[j].id]
      {
        if results[i].None? {
          AckMsg(records[i]);
        }
      }
    }

    /** Sends records, acks the accepted ones, and keeps the refused ones with their errors. */
    method SendAndAck(records: seq<Message>, ghost k: nat)
      returns (accepted: nat, failed: seq<Message>, errors: seq<Outcome>, ghost results: seq<Outcome>)
      requires Distinct(records)
      requires forall i :: 0 <= i < |records| ==> records[i].id in trace && Waiting(trace[records[i].id], k)
      modifies this`trace
      ensures OnlyTouches(old(trace), trace, Ids(records))
      ensures Sent(old(trace), trace, records, results, k)
      ensures accepted == |records| - |failed|
      ensures failed == Refused(records, results) && errors == Errors(results)
      ensures Count(trace) == Move(Count(old(trace)), if k == 0 then First else Later, accepted)
    {
      hide Refused, Errors, Distinct, Ids, Waiting, Count;
      var answers := Send(records);
      results := answers;
      accepted, failed, errors := Sort(records, answers);
      AckAccepted(records, answers);
      SendCounts(old(trace), trace, records, results, k);
    }

    /** Naks the messages still failing. */
    method GiveBack(ghost batch: seq<Message>, failed: seq<Message>, ghost errors: seq<Outcome>, ghost k: nat)
      requires Distinct(batch) && Within(failed, batch) && failed != []
      requires Failing(trace, failed, errors, k) && RestAccepted(trace, batch, failed, k)
      modifies this`trace, this`nakd
      ensures OnlyTouches(old(trace), trace, Ids(batch)) && StoppedAt(trace, batch, k)
      ensures nakd == old(nakd) + |failed|
      ensures Count(trace) == Move(Count(old(trace)), Back, |failed|)
    {
      hide Count, Accepted, RestAccepted, StoppedAt;
      NakAll(failed, k);
      nakd := nakd + |failed|;
      RestStopped(old(trace), trace, batch, failed, k);
    }

    /** The first send of a batch. */
    method FirstSend(batch: seq<Message>) returns (accepted: nat, failed: seq<Message>, errors: seq<Outcome>)
      requires Distinct(batch)
      requires forall i :: 0 <= i < |batch| ==> batch[i].id in trace && Waiting(trace[batch[i].id], 0)
      modifies this`trace
      ensures OnlyTouches(old(trace), trace, Ids(batch)) && accepted == |batch| - |failed|
      ensures Within(failed, batch) && Failing(trace, failed, errors, 1)
      ensures RestAccepted(trace, batch, failed, 1)
      ensures Count(trace) == Move(Count(old(trace)), First, accepted)
    {
      hide Count, Waiting, Distinct, Accepted, RestAccepted, Failing, Refused, Errors, Sent, Ids;
      ghost var results;
      accepted, failed, errors, results := SendAndAck(batch, 0);
      AfterSend(old(trace), trace, batch, results, 0, 1);
    }

    /** One more send of the messages still failing. */
    method SendAgain(ghost batch: seq<Message>, before: seq<Message>, ghost beforeErrors: seq<Outcome>, ghost k: nat)
      returns (accepted: nat, failed: seq<Message>, errors: seq<Outcome>)
      requires Distinct(batch) && Within(before, batch)
      requires Failing(trace, before, beforeErrors, k) && RestAccepted(trace, batch, before, k)
      modifies this`trace
      ensures OnlyTouches(old(trace), trace, Ids(before))
      ensures accepted == |before| - |failed|
      ensures Within(failed, batch) && Failing(trace, failed, errors, k + 1)
      ensures RestAccepted(trace, batch, failed, k + 1)
      ensures Count(trace) == Move(Count(old(trace)), Later, accepted)
    {
      hide Count, Waiting, Distinct, RestAccepted;
      RestSooner(trace, batch, before, k, k + 1);
      ghost var results;
      accepted, failed, errors, results := SendAndAck(before, k);
      AfterSend(old(trace), trace, before, results, k, k + 1);
      RestStays(old(trace), trace, batch, before, failed, k + 1);
    }

    /** Waits before an attempt; false if the context was cancelled first. */
    method Wait(delay: int) returns (elapsed: bool)
      modifies this`waits
      ensures waits == old(waits) + if elapsed then [delay] else []
    {
      elapsed := *;
      if elapsed {
        waits := waits + [delay];
      }
    }

    /** Sends the failing messages again, up to maxRetries times, each time after a wait. */
    method RetryFailed(ghost batch: seq<Message>, first: seq<Message>, firstErrors: seq<Outcome>)
      returns (failed: seq<Message>, errors: seq<Outcome>, interrupted: bool)
      requires Distinct(batch) && Within(first, batch) && waits == []
      requires Failing(trace, first, firstErrors, 1) && RestAccepted(trace, batch, first, 1)
      modifies this`trace, this`waits, this`retried, this`nakd
      ensures OnlyTouches(old(trace), trace, Ids(batch))
      ensures Within(failed, batch)
      ensures |failed| <= |first| && retried == old(retried) + |first| - |failed|
      ensures nakd == old(nakd) + if interrupted then |failed| else 0
      ensures Count(trace) == Move(Move(Count(old(trace)), Later, |first| - |failed|), Back,
                                   if interrupted then |failed| else 0)
      ensures Paced(retry, waits) && |waits| < Attempts()
      ensures interrupted ==> |waits| + 1 < Attempts() && StoppedAt(trace, batch, |waits| + 1)
      ensures !interrupted ==> RestAccepted(trace, batch, failed, |waits| + 1)
      ensures !interrupted && failed != [] ==>
                |waits| + 1 == Attempts() && Failing(trace, failed, errors, Attempts())
    {
      hide Failing, RestAccepted, Distinct, Ids, Within, OnlyTouches, Count, StoppedAt, Delay;
      failed, errors := first, firstErrors;
      TouchesNothing(trace, batch);
      WithinSelf(batch);
      if |failed| == 0 || retry.maxRetries <= 0 {
        return failed, errors, false;
      }
      var attempt := 1;
      while attempt <= retry.maxRetries
        invariant 1 <= attempt <= retry.maxRetries + 1
        invariant Within(failed, batch) && Failing(trace, failed, errors, attempt)
        invariant RestAccepted(trace, batch, failed, attempt)
        invariant OnlyTouches(old(trace), trace, Ids(batch))
        invariant 0 < |failed| <= |first| && retried == old(retried) + |first| - |failed| && nakd == old(nakd)
        invariant Count(trace) == Move(Count(old(trace)), Later, |first| - |failed|)
        invariant Paced(retry, waits) && |waits| == attempt - 1
      {
        var delay := Backoff(retry, attempt);
        var elapsed := Wait(delay);
        ghost var middle, part := trace, failed;
        if !elapsed {
          GiveBack(batch, failed, errors, attempt);
          TouchMore(old(trace), middle, trace, batch, batch);
          return failed, errors, true;
        }
        var accepted;
        accepted, failed, errors := SendAgain(batch, failed, errors, attempt);
        TouchMore(old(trace), middle, trace, part, batch);
        retried := retried + accepted;
        if |failed| == 0 {
          return failed, errors, false;
        }
        attempt := attempt + 1;
      }
      interrupted := false;
    }

    /**
     Dead-letters one exhausted message. It is given back if the letter cannot be published, or
     if there is no subject for letters, and then none is tried.
     */
    method DeadLetter(m: Message, error: Outcome)
      requires m.id in trace && Waiting(trace[m.id], Attempts()) && error == trace[m.id].outcomes[Attempts() - 1]
      modifies this`trace, this`nakd, this`deadLettered
      ensures OnlyTouches(old(trace), trace, {m.id})
      ensures GivenUp(trace[m.id], m, Attempts(), Claimed())
      ensures deadLettered == old(deadLettered) + |trace[m.id].letters|
      ensures deadLettered + nakd == old(deadLettered) + old(nakd) + 1
      ensures deadLettered >= old(deadLettered)
      ensures Count(trace) == Move(Move(Count(old(trace)), Dead, deadLettered - old(deadLettered)),
                                   Back, nakd - old(nakd))
    {
      hide Count;
      var text := if error.Some? then error.value else "unknown";
      if dlqSubject != "" {
        var ok := Publish(m, Letter(m.subject, text, retry.maxRetries + 1, m.data));
        if ok {
          AckMsg(m);
          deadLettered := deadLettered + 1;
          assert [Ack][0] != [Nak][0];
          TallyMoves(old(trace), trace, {m.id}, Dead);
          return;
        }
      }
      NakMsg(m);
      nakd := nakd + 1;
      TallyMoves(old(trace), trace, {m.id}, Back);
    }

    method DeadLetterAll(ghost batch: seq<Message>, failed: seq<Message>, errors: seq<Outcome>)
      requires Distinct(batch) && Within(failed, batch)
      requires Failing(trace, failed, errors, Attempts()) && RestAccepted(trace, batch, failed, Attempts())
      modifies this`trace, this`nakd, this`deadLettered
      ensures OnlyTouches(old(trace), trace, Ids(batch)) && Finished(trace, batch, Attempts(), Claimed())
      ensures deadLettered >= old(deadLettered)
      ensures deadLettered + nakd == old(deadLettered) + old(nakd) + |failed|
      ensures Count(trace) == Move(Move(Count(old(trace)), Dead, deadLettered - old(deadLettered)),
                                   Back, nakd - old(nakd))
      ensures forall m :: m in failed ==> m.id in trace && !Accepted(trace[m.id], Attempts())
    {
      hide RestAccepted, Within, Count, Waiting, GivenUp, Accepted, Finished, OnlyTouches;
      GivingUpStart(trace, failed, Attempts(), Claimed());
      for i := 0 to |failed|
        invariant GivingUp(old(trace), trace, failed, i, Attempts(), Claimed())
        invariant deadLettered >= old(deadLettered)
        invariant deadLettered + nakd == old(deadLettered) + old(nakd) + i
        invariant Count(trace) == Move(Move(Count(old(trace)), Dead, deadLettered - old(deadLettered)),
                                       Back, nakd - old(nakd))
      {
        ghost var middle := trace;
        DeadLetter(failed[i], errors[i]);
        GivingUpNext(old(trace), middle, trace, failed, i, Attempts(), Claimed());
      }
      RestFinished(old(trace), trace, batch, failed, Attempts(), Claimed());
    }

    /**
     Sends a batch to the sink. However the sink, the dead-letter subject, the other workers
     and cancellation behave, every message of the batch is settled once and the counters agree.
     The breaker is asked once, at `asked`. When it refuses, nothing is sent. Otherwise every
     message is sent until it is accepted or has been refused `Attempts()` times, each retry after
     its wait, unless the flush is cut short; and the breaker is told whether the sink accepted the
     whole batch, but it is told nothing if the flush is cut short.
     */
    method FlushBatch(batch: seq<Message>) returns (ghost sent: bool, interrupted: bool, ghost asked: nat)
      requires Valid() && Accounted() && Unsent(batch)
      modifies this`trace, this`waits, this`retried, this`nakd, this`deadLettered, this`forwarded, this`circuitOpen,
               this`uncounted, this`flushes, this`letThrough, this`asks, this`told, cb
      ensures Valid() && Accounted() && OnlyTouches(old(trace), trace, Ids(batch))
      ensures flushes == old(flushes) + [Ids(batch)] && letThrough == old(letThrough) + [sent]
      ensures asks == old(asks) + [asked]
      ensures Treated(trace, batch, sent, interrupted, Attempts(), Claimed())
      ensures interrupted <==> SomeCut(trace, batch, Attempts())
      ensures Interruptions() == old(Interruptions()) + if interrupted then 1 else 0
      ensures forall m :: m in batch ==>
                m.id in trace && Settled(trace[m.id], m, Attempts(), Claimed())
      ensures Count(trace).pending == Count(old(trace)).pending - |batch|
      ensures uncounted >= old(uncounted) && (!interrupted ==> uncounted == old(uncounted))
      ensures interrupted ==> forwarded == old(forwarded)
      ensures old(cb.history) <= cb.history && |old(cb.history)| <= asked < |cb.history| && cb.history[asked].Asked?
      ensures sent == Answer(cb.config, Replay(cb.config, cb.history[..asked]), cb.history[asked].time)
      ensures told == old(told) + if sent && !interrupted then [|cb.history| - 1] else []
      ensures sent && !interrupted ==> Judges(cb.history[|cb.history| - 1], trace, batch, Attempts())
      ensures Paced(retry, waits) && |waits| < Attempts() && SentAtMost(trace, batch, |waits| + 1)
    {
      hide Count, Accepted, Settled, Distinct, Ids, OnlyTouches, Answer, Replay, Lost, Cuts, Done, SomeCut, Treated,
        AllWent, Refusals, Paced, SentAtMost, Obeyed, Agree, Claimed, Attempts, Judges;
      waits := [];
      sent, interrupted, asked := TryBatch(batch);
      TreatedSettled(trace, batch, sent, interrupted, Attempts(), Claimed());
      Register(old(trace), old(cb.history), batch, sent, interrupted, asked);
    }

    /** Takes down a flush that was tried. */
    ghost method Register(before: Trace, heard: History, batch: seq<Message>, sent: bool, interrupted: bool, asked: nat)
      requires Agree() && Done(before, flushes) && OnlyTouches(before, trace, Ids(batch))
      requires AllWent(before, fetched, flushes, letThrough, Attempts(), Claimed())
      requires forall i :: 0 <= i < |batch| ==>
                 && batch[i].id in before && before[batch[i].id] == FETCHED
                 && batch[i].id < |fetched| && fetched[batch[i].id] == batch[i]
      requires Treated(trace, batch, sent, interrupted, Attempts(), Claimed())
      requires interrupted <==> SomeCut(trace, batch, Attempts())
      requires uncounted == |Lost(before, flushes, Attempts())|
                            + if interrupted then Count(trace).first - Count(before).first else 0
      requires circuitOpen == Refusals(letThrough) + if sent then 0 else 1
      requires Obeyed(cb.config, heard, asks, letThrough) && heard <= cb.history && |heard| <= asked < |cb.history|
      requires cb.history[asked].Asked?
      requires sent == Answer(cb.config, Replay(cb.config, cb.history[..asked]), cb.history[asked].time)
      modifies this`flushes, this`letThrough, this`asks
      ensures Accounted() && Obeyed(cb.config, cb.history, asks, letThrough)
      ensures flushes == old(flushes) + [Ids(batch)] && letThrough == old(letThrough) + [sent]
      ensures asks == old(asks) + [asked]
      ensures Interruptions() == Cuts(before, old(flushes), Attempts()) + if interrupted then 1 else 0
    {
      hide Count, Distinct, Ids, OnlyTouches, Answer, Replay, Lost, Cuts, Done, SomeCut, Treated, AllWent, Refusals,
        Obeyed, Agree, Claimed, Attempts, Settled;
      TreatedSettled(trace, batch, sent, interrupted, Attempts(), Claimed());
      BatchAccount(before, batch);
      BatchRecorded(before, batch, sent, interrupted);
      ObeyedNext(cb.config, heard, cb.history, asks, letThrough, asked, sent);
      flushes, letThrough, asks := flushes + [Ids(batch)], letThrough + [sent], asks + [asked];
    }

    /** The account after one flush more. */
    lemma BatchAccount(before: Trace, batch: seq<Message>)
      requires Done(before, flushes) && OnlyTouches(before, trace, Ids(batch))
      requires forall i :: 0 <= i < |batch| ==> batch[i].id in before && before[batch[i].id] == FETCHED
      requires forall m :: m in batch ==>
                 m.id in trace && Settled(trace[m.id], m, Attempts(), Claimed())
      ensures Done(trace, flushes + [Ids(batch)])
      ensures Cuts(trace, flushes + [Ids(batch)], Attempts()) ==
              Cuts(before, flushes, Attempts()) + if SomeCut(trace, batch, Attempts()) then 1 else 0
      ensures |Lost(trace, flushes + [Ids(batch)], Attempts())| ==
              |Lost(before, flushes, Attempts())| +
              if SomeCut(trace, batch, Attempts()) then Count(trace).first - Count(before).first else 0
    {
      hide Count, Lost, Cuts, Done, SomeCut;
      forall id | id in Ids(batch)
        ensures id in before && KindOf(before[id]) == Pending && KindOf(trace[id]) != Pending
      {
        var i :| 0 <= i < |batch| && batch[i].id == id;
        assert batch[i] in batch;
      }
      SomeCutIsCut(trace, batch, Attempts());
      LostNext(before, trace, flushes, Ids(batch), Attempts());
      DoneNext(before, trace, flushes, Ids(batch));
    }

    /** The record of the flushes after one flush more. */
    lemma BatchRecorded(before: Trace, batch: seq<Message>, sent: bool, interrupted: bool)
      requires Done(before, flushes) && OnlyTouches(before, trace, Ids(batch))
      requires AllWent(before, fetched, flushes, letThrough, Attempts(), Claimed())
      requires forall i :: 0 <= i < |batch| ==>
                 && batch[i].id in before && before[batch[i].id] == FETCHED
                 && batch[i].id < |fetched| && fetched[batch[i].id] == batch[i]
      requires Treated(trace, batch, sent, interrupted, Attempts(), Claimed())
      ensures AllWent(trace, fetched, flushes + [Ids(batch)], letThrough + [sent], Attempts(), Claimed())
      ensures Refusals(letThrough + [sent]) == Refusals(letThrough) + if sent then 0 else 1
    {
      hide Done, Treated, AllWent, Refusals, Went, Settled;
      forall id | id in Ids(batch)
        ensures id in before && KindOf(before[id]) == Pending
      {
        var i :| 0 <= i < |batch| && batch[i].id == id;
      }
      RefusalsNext(letThrough, sent);
      BatchWent(trace, fetched, batch, sent, interrupted, Attempts(), Claimed());
      AllWentNext(before, trace, fetched, flushes, letThrough, Ids(batch), sent, Attempts(), Claimed());
    }

    /** The flush itself: the breaker is asked, and the batch is sent or refused. */
    method TryBatch(batch: seq<Message>) returns (ghost sent: bool, interrupted: bool, ghost asked: nat)
      requires cb.Valid() && Agree() && Distinct(batch) && waits == []
      requires forall i :: 0 <= i < |batch| ==> batch[i].id in trace && trace[batch[i].id] == FETCHED
      modifies this`trace, this`waits, this`retried, this`nakd, this`deadLettered, this`forwarded, this`circuitOpen,
               this`uncounted, this`told, cb
      ensures cb.Valid() && Agree() && OnlyTouches(old(trace), trace, Ids(batch)) && trace.Keys == old(trace).Keys
      ensures Treated(trace, batch, sent, interrupted, Attempts(), Claimed())
      ensures interrupted <==> SomeCut(trace, batch, Attempts())
      ensures Count(trace).pending == Count(old(trace)).pending - |batch|
      ensures uncounted == old(uncounted) + if interrupted then Count(trace).first - Count(old(trace)).first else 0
      ensures uncounted >= old(uncounted)
      ensures interrupted ==> forwarded == old(forwarded)
      ensures old(cb.history) <= cb.history && |old(cb.history)| <= asked < |cb.history| && cb.history[asked].Asked?
      ensures sent == Answer(cb.config, Replay(cb.config, cb.history[..asked]), cb.history[asked].time)
      ensures circuitOpen == old(circuitOpen) + if sent then 0 else 1
      ensures told == old(told) + if sent && !interrupted then [|cb.history| - 1] else []
      ensures sent && !interrupted ==> Judges(cb.history[|cb.history| - 1], trace, batch, Attempts())
      ensures Paced(retry, waits) && |waits| < Attempts() && SentAtMost(trace, batch, |waits| + 1)
    {
      hide Count, Accepted, Distinct, Ids, OnlyTouches, Answer, Replay, SomeCut, TurnedAway, Stopped, Finished,
        SentAtMost, Judges;
      interrupted := false;
      var allowed;
      allowed, asked := Ask();
      sent := allowed;
      if allowed {
        ghost var heard := cb.history;
        interrupted := SendBatch(batch);
        assert cb.history[..asked] == heard[..asked];
      } else {
        Refuse(batch);
      }
      TreatedCut(trace, batch, sent, interrupted, Attempts(), Claimed());
    }

    /** The part of a flush after the breaker has let the batch through. */
    method SendBatch(batch: seq<Message>) returns (interrupted: bool)
      requires cb.Valid() && Agree() && Distinct(batch) && waits == []
      requires forall i :: 0 <= i < |batch| ==> batch[i].id in trace && trace[batch[i].id] == FETCHED
      modifies this`trace, this`waits, this`retried, this`nakd, this`deadLettered, this`forwarded, this`uncounted,
               this`told, cb
      ensures told == old(told) + if interrupted then [] else [|cb.history| - 1]
      ensures cb.Valid() && Agree() && OnlyTouches(old(trace), trace, Ids(batch)) && trace.Keys == old(trace).Keys
      ensures Treated(trace, batch, true, interrupted, Attempts(), Claimed())
      ensures Count(trace).pending == Count(old(trace)).pending - |batch|
      ensures uncounted == old(uncounted) + if interrupted then Count(trace).first - Count(old(trace)).first else 0
      ensures uncounted >= old(uncounted)
      ensures interrupted ==> forwarded == old(forwarded)
      ensures old(cb.history) <= cb.history
      ensures !interrupted ==>
                cb.history != [] && Judges(cb.history[|cb.history| - 1], trace, batch, Attempts())
      ensures Paced(retry, waits) && |waits| < Attempts() && SentAtMost(trace, batch, |waits| + 1)
    {
      hide Count, Accepted, Distinct, Ids, OnlyTouches, Treated, Paced, SentAtMost;
      var accepted, failed;
      accepted, failed, interrupted := Deliver(batch);
      if interrupted {
        uncounted := uncounted + accepted;
        return;
      }
      Tell(|failed| > 0);
      forwarded := forwarded + accepted;
    }

    /** Asks the breaker, after whatever the other workers did with it. */
    method Ask() returns (allowed: bool, ghost asked: nat)
      requires cb.Valid()
      modifies cb
      ensures cb.Valid() && old(cb.history) <= cb.history
      ensures |old(cb.history)| <= asked < |cb.history| && cb.history[asked].Asked?
      ensures allowed == Answer(cb.config, Replay(cb.config, cb.history[..asked]), cb.history[asked].time)
    {
      OtherWorkers();
      ghost var heard := cb.history;
      asked := |heard|;
      var now: int := *;
      allowed := cb.Allow(now);
      assert cb.history[..asked] == heard;
    }

    /** Tells the breaker how the flush went. */
    method Tell(failure: bool)
      requires cb.Valid()
      modifies cb, this`told
      ensures told == old(told) + [|cb.history| - 1]
      ensures cb.Valid() && old(cb.history) <= cb.history && cb.history != []
      ensures var verdict := cb.history[|cb.history| - 1]; if failure then verdict.Failed? else verdict.Succeeded?
    {
      OtherWorkers();
      var now: int := *;
      if failure {
        cb.RecordFailure(now);
      } else {
        cb.RecordSuccess(now);
      }
      told := told + [|cb.history| - 1];
    }

    /** Naks a batch that the breaker keeps from the sink. */
    method Refuse(batch: seq<Message>)
      requires Agree() && Distinct(batch)
      requires forall i :: 0 <= i < |batch| ==> batch[i].id in trace && trace[batch[i].id] == FETCHED
      modifies this`trace, this`nakd, this`circuitOpen
      ensures Agree() && OnlyTouches(old(trace), trace, Ids(batch)) && trace.Keys == old(trace).Keys
      ensures Count(trace).pending == Count(old(trace)).pending - |batch|
      ensures circuitOpen == old(circuitOpen) + 1
      ensures TurnedAway(trace, batch) && SentAtMost(trace, batch, 1)
    {
      hide Count, Distinct, Ids;
      NakAll(batch, 0);
      SameSize(old(trace), trace, Ids(batch));
      nakd := nakd + |batch|;
      circuitOpen := circuitOpen + 1;
    }

    /** Sends a batch that the breaker lets through, retries, and dead-letters what is left. */
    method Deliver(batch: seq<Message>) returns (accepted: nat, failed: seq<Message>, interrupted: bool)
      requires Agree() && Distinct(batch) && waits == []
      requires forall i :: 0 <= i < |batch| ==> batch[i].id in trace && trace[batch[i].id] == FETCHED
      modifies this`trace, this`waits, this`retried, this`nakd, this`deadLettered
      ensures AgreeBut(accepted) && OnlyTouches(old(trace), trace, Ids(batch)) && trace.Keys == old(trace).Keys
      ensures Count(trace).pending == Count(old(trace)).pending - |batch|
      ensures Treated(trace, batch, true, interrupted, Attempts(), Claimed())
      ensures !interrupted ==> (failed == [] <==> forall m :: m in batch ==> Accepted(trace[m.id], Attempts()))
      ensures Paced(retry, waits) && |waits| < Attempts() && SentAtMost(trace, batch, |waits| + 1)
    {
      hide Count, Accepted, GivenUp, Returned, Failing, Distinct, Ids, OnlyTouches, Paced, SentAtMost, StoppedAt,
        Finished, RestAccepted;
      var errors;
      accepted, failed, errors := FirstSend(batch);
      ghost var middle := trace;
      failed, errors, interrupted := RetryFailed(batch, failed, errors);
      TouchMore(old(trace), middle, trace, batch, batch);
      SameSize(old(trace), trace, Ids(batch));
      if interrupted {
        StoppedSends(trace, batch, |waits| + 1);
      } else if |failed| > 0 {
        ghost var late := trace;
        DeadLetterAll(batch, failed, errors);
        TouchMore(old(trace), late, trace, batch, batch);
        SameSize(old(trace), trace, Ids(batch));
        FinishedSends(trace, batch, Attempts(), Claimed());
        assert failed[0] in failed && failed[0] in batch;
      } else {
        NoneFailing(trace, batch, |waits| + 1, Attempts(), Claimed());
      }
    }

    // ----- Consuming a stream -----

    /** One message arrives. */
    method Arrive() returns (m: Message)
      requires Valid()
      modifies this`trace, this`nextId, this`fetched
      ensures Valid() && m.id == old(nextId) && nextId == old(nextId) + 1 && fetched == old(fetched) + [m]
      ensures m.id !in old(trace) && trace == old(trace)[m.id := FETCHED] && |trace| == |old(trace)| + 1
      ensures Count(trace) == Count(old(trace)).(pending := Count(old(trace)).pending + 1)
    {
      hide Count;
      var subject: string, data: string := *, *;
      m := Message(nextId, subject, data);
      FetchedCounts(trace, nextId);
      trace := trace[nextId := FETCHED];
      fetched := fetched + [m];
      nextId := nextId + 1;
    }

    /** Fetches at most n messages, each of them new; it may come back empty-handed. */
    method Fetch(n: nat) returns (messages: seq<Message>)
      requires Valid() && n >= 1
      modifies this`trace, this`nextId, this`fetched
      ensures Valid() && |messages| <= n
      ensures fetched == old(fetched) + messages && nextId == old(nextId) + |messages|
      ensures forall id :: id in old(trace) ==> trace[id] == old(trace)[id]
      ensures forall id :: old(nextId) <= id < nextId ==> trace[id] == FETCHED
      ensures |trace| == |old(trace)| + |messages|
      ensures Count(trace) == Count(old(trace)).(pending := Count(old(trace)).pending + |messages|)
    {
      hide Count;
      messages := [];
      var k: nat := *;
      while |messages| < n && k > 0
        invariant Valid() && |messages| <= n
        invariant fetched == old(fetched) + messages && nextId == old(nextId) + |messages|
        invariant forall id :: id in old(trace) ==> trace[id] == old(trace)[id]
        invariant forall id :: old(nextId) <= id < nextId ==> trace[id] == FETCHED
        invariant |trace| == |old(trace)| + |messages|
        invariant Count(trace) == Count(old(trace)).(pending := Count(old(trace)).pending + |messages|)
        decreases k
      {
        var m := Arrive();
        messages := messages + [m];
        k := k - 1;
      }
    }

    /** Appends fetched messages to the batch, counting them as received. */
    method Append(batch: seq<Message>, messages: seq<Message>) returns (longer: seq<Message>)
      modifies this`received
      ensures longer == batch + messages && received == old(received) + |messages|
    {
      longer := batch;
      for i := 0 to |messages|
        invariant longer == batch + messages[..i] && received == old(received) + i
      {
        received := received + 1;
        longer := longer + [messages[i]];
      }
    }

    /** The account only grows, and by flushes that are cut short only. */
    twostate predicate Progress()
      reads this`trace, this`flushes, this`letThrough, this`uncounted, this`fetched
    {
      && old(fetched) <= fetched && old(flushes) <= flushes && old(letThrough) <= letThrough
      && old(Interruptions()) <= Interruptions() && old(uncounted) <= uncounted
      && (Interruptions() == old(Interruptions()) ==> uncounted == old(uncounted))
    }

    /** Flushes the batch at hand. */
    method Flush(batch: seq<Message>)
      requires Valid() && Accounted() && Unsent(batch) && AllSettled(batch)
      requires Count(trace).pending == |batch|
      modifies this`trace, this`waits, this`retried, this`nakd, this`deadLettered, this`forwarded, this`circuitOpen,
               this`uncounted, this`flushes, this`letThrough, this`asks, this`told, cb
      ensures Valid() && Accounted() && AllSettled([]) && Progress()
      ensures Count(trace).pending == 0 && Conserved([])
    {
      hide Count, Settled, Distinct, Lost, Cuts, Done, SomeCut, Agree, Conserved, Attempts, AllWent, Treated,
        Flushed, Obeyed;
      ghost var before := flushes;
      var _, _, _ := FlushBatch(batch);
      forall id | 0 <= id < nextId
        ensures Settled(trace[id], fetched[id], Attempts(), Claimed()) && Flushed(flushes, id)
      {
        FlushedNext(before, Ids(batch), id);
        if id in Ids(batch) {
          var i :| 0 <= i < |batch| && batch[i].id == id;
          assert batch[i] in batch;
        }
      }
      Conservation([]);
    }

    /** Fetches messages to join a batch. */
    method FetchFor(batch: seq<Message>, n: nat) returns (messages: seq<Message>)
      requires Valid() && Unsent(batch) && AllSettled(batch) && n >= 1
      modifies this`trace, this`nextId, this`fetched
      ensures Valid() && Unsent(batch + messages) && AllSettled(batch + messages)
      ensures |messages| <= n && fetched == old(fetched) + messages && |trace| == |old(trace)| + |messages|
      ensures forall id :: id in old(trace) ==> id in trace && trace[id] == old(trace)[id]
      ensures Count(trace) == Count(old(trace)).(pending := Count(old(trace)).pending + |messages|)
    {
      hide Count, Settled, Ids, Flushed, Obeyed, Distinct;
      messages := Fetch(n);
      forall i | 0 <= i < |messages|
        ensures messages[i].id == old(nextId) + i
      {
        assert fetched[old(nextId) + i] == messages[i];
      }
      JoinBatches(batch, messages, old(nextId));
    }

    /** Fetches into a batch that is not full. */
    method Fill(batch: seq<Message>) returns (next: seq<Message>)
      requires Valid() && Accounted() && Unsent(batch) && AllSettled(batch)
      requires |batch| < batchSize && Count(trace).pending == |batch|
      modifies this`trace, this`nextId, this`fetched, this`received
      ensures Valid() && Accounted() && Unsent(next) && AllSettled(next)
      ensures |next| <= batchSize && Count(trace).pending == |next|
      ensures old(fetched) <= fetched && Interruptions() == old(Interruptions())
    {
      hide Count, Lost, Cuts, Done, Unsent, AllSettled, AllWent, Obeyed;
      var messages := FetchFor(batch, batchSize - |batch|);
      next := Append(batch, messages);
      LostArrived(old(trace), trace, flushes, Attempts());
      AllWentArrived(old(trace), trace, old(fetched), fetched, flushes, letThrough, Attempts(), Claimed());
    }

    /** Fetches into a batch that is not full, and flushes it if it is full then. */
    method Pull(batch: seq<Message>) returns (next: seq<Message>)
      requires Valid() && Accounted() && Unsent(batch) && AllSettled(batch)
      requires |batch| < batchSize && Count(trace).pending == |batch|
      modifies this, cb
      ensures Valid() && Accounted() && Unsent(next) && AllSettled(next) && Progress()
      ensures |next| < batchSize && Count(trace).pending == |next| && Conserved(next)
    {
      hide Count, Settled, Lost, Cuts, Done, AllWent, Flushed, Obeyed;
      next := Fill(batch);
      if |next| >= batchSize {
        Flush(next);
        next := [];
      }
      Conservation(next);
    }

    /**
     The loop of a stream worker until it is cancelled. Between flushes the batch is never full,
     so every fetch asks for a message at least, and every message received is counted or in the
     batch, but for what flushes that were cut short left out. When the worker returns, every
     message it ever fetched has been acked or given back exactly once, for a reason.
     */
    method ConsumeStream()
      requires Valid() && Accounted() && AllSettled([]) && Count(trace).pending == 0
      modifies this, cb
      ensures Valid() && Accounted() && AllSettled([]) && Progress()
      ensures Count(trace).pending == 0 && Conserved([])
    {
      hide Count, Settled, Lost, Cuts, Done, AllWent, Flushed, Obeyed;
      var batch: seq<Message> := [];
      var turns: nat := *;
      Conservation([]);
      while turns > 0
        invariant Valid() && Accounted() && Unsent(batch) && AllSettled(batch) && Progress()
        invariant |batch| < batchSize && Count(trace).pending == |batch| && Conserved(batch)
      {
        var tick: bool := *;
        if tick {
          if |batch| > 0 {
            Flush(batch);
            batch := [];
          }
        } else {
          batch := Pull(batch);
        }
        turns := turns - 1;
      }
      if |batch| > 0 {
        Flush(batch);
      }
    }
  }
}
