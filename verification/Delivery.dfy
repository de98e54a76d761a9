/** What can become of a message between its fetch and its acknowledgement. */
module Delivery {
  import opened Options

  /** One delivery of a message; a redelivery is a message of its own. */
  datatype Message = Message(id: nat, subject: string, data: string)

  /** The sink's answer for one record: no error, or an error. */
  type Outcome = Option<string>

  datatype Disposition = Ack | Nak

  /** What is published to the dead-letter subject. */
  datatype Letter = Letter(subject: string, error: string, attempts: int, data: string)

  /** Everything that happened to one message so far, in order; `lost` are letters that could not be published. */
  datatype Fate = Fate(outcomes: seq<Outcome>, dispositions: seq<Disposition>, letters: seq<Letter>, lost: seq<Letter>)

  const FETCHED: Fate := Fate([], [], [], [])

  /** Given back without having been sent. */
  const TURNED_AWAY: Fate := Fate([], [Nak], [], [])

  /** A record of the fates of all messages fetched. */
  type Trace = map<nat, Fate>

  ghost predicate AllErrors(outcomes: seq<Outcome>) {
    forall i :: 0 <= i < |outcomes| ==> outcomes[i].Some?
  }

  /** Sent k times, refused each time, and not settled yet. */
  ghost predicate Waiting(f: Fate, k: nat) {
    |f.outcomes| == k && AllErrors(f.outcomes) && f.dispositions == [] && f.letters == [] && f.lost == []
  }

  /** Accepted by the sink at the last of at most `attempts` sends, acked once, never sent again. */
  ghost predicate Accepted(f: Fate, attempts: nat) {
    && 0 < |f.outcomes| <= attempts
    && f.outcomes[|f.outcomes| - 1].None? && AllErrors(f.outcomes[..|f.outcomes| - 1])
    && f.dispositions == [Ack] && f.letters == [] && f.lost == []
  }

  /** Refused in every one of k sends, then given back once for redelivery. */
  ghost predicate Returned(f: Fate, k: nat) {
    |f.outcomes| == k && AllErrors(f.outcomes) && f.dispositions == [Nak] && f.letters == [] && f.lost == []
  }

  /** The letter for a message that was refused to the end: it carries the error of its own last send. */
  ghost function LastLetter(f: Fate, m: Message, claimed: int): Letter {
    Letter(m.subject, if f.outcomes != [] && f.outcomes[|f.outcomes| - 1].Some? then f.outcomes[|f.outcomes| - 1].value
                      else "unknown", claimed, m.data)
  }

  /**
   Refused in every one of `attempts` sends. If letters are claimed to have some number of
   attempts, one was tried: published, the message is acked; otherwise, or without a subject for
   letters, it is given back.
   */
  ghost predicate GivenUp(f: Fate, m: Message, attempts: nat, claimed: Option<int>) {
    && |f.outcomes| == attempts && AllErrors(f.outcomes)
    && match claimed
       case None => f.dispositions == [Nak] && f.letters == [] && f.lost == []
       case Some(n) =>
         || (f.dispositions == [Ack] && f.letters == [LastLetter(f, m, n)] && f.lost == [])
         || (f.dispositions == [Nak] && f.letters == [] && f.lost == [LastLetter(f, m, n)])
  }

  ghost predicate Settled(f: Fate, m: Message, attempts: nat, claimed: Option<int>) {
    || Accepted(f, attempts) || GivenUp(f, m, attempts, claimed)
    || (|f.outcomes| < attempts && Returned(f, |f.outcomes|))
  }

  lemma NotAccepted(f: Fate, m: Message, attempts: nat, claimed: Option<int>)
    requires GivenUp(f, m, attempts, claimed)
    ensures !Accepted(f, attempts)
  {
  }

  lemma AcceptedSooner(f: Fate, k: nat, attempts: nat)
    requires Accepted(f, k) && k <= attempts
    ensures Accepted(f, attempts)
  {
  }

  /** The promise of the forwarder, for one message, in so many words. */
  lemma SettledMeaning(f: Fate, m: Message, attempts: nat, claimed: Option<int>)
    requires Settled(f, m, attempts, claimed) && attempts > 0
    ensures |f.dispositions| == 1
    ensures f.dispositions == [Ack] ==>
              (f.outcomes != [] && f.outcomes[|f.outcomes| - 1].None?) || |f.letters| == 1
    ensures forall i :: 0 <= i < |f.outcomes| - 1 ==> f.outcomes[i].Some?
    ensures |f.letters| + |f.lost| <= 1 && |f.outcomes| <= attempts
    ensures f.letters != [] ==>
              && |f.outcomes| == attempts && f.outcomes[attempts - 1].Some? && claimed.Some?
              && f.letters == [Letter(m.subject, f.outcomes[attempts - 1].value, claimed.value, m.data)]
    ensures claimed.None? ==> f.letters == [] && f.lost == []
    ensures claimed.Some? && |f.outcomes| == attempts && f.dispositions == [Nak] ==> |f.lost| == 1
  {
  }

  ghost predicate Distinct(batch: seq<Message>) {
    forall i, j :: 0 <= i < j < |batch| ==> batch[i].id != batch[j].id
  }

  ghost function Ids(batch: seq<Message>): set<nat> {
    set i | 0 <= i < |batch| :: batch[i].id
  }

  /** Only the messages named may have a new fate. */
  ghost predicate OnlyTouches(before: Trace, after: Trace, ids: set<nat>) {
    before.Keys == after.Keys && forall id :: id in before && id !in ids ==> after[id] == before[id]
  }

  // ----- One answer of the sink -----

  /** The records that were refused, in order. */
  function Refused(records: seq<Message>, results: seq<Outcome>): seq<Message>
    requires |records| == |results|
  {
    if records == [] then
      []
    else
      var n := |records| - 1;
      Refused(records[..n], results[..n]) + if results[n].Some? then [records[n]] else []
  }

  /** Their errors, in the same order. */
  function Errors(results: seq<Outcome>): seq<Outcome> {
    if results == [] then
      []
    else
      var n := |results| - 1;
      Errors(results[..n]) + if results[n].Some? then [results[n]] else []
  }

  function AckedIf(f: Fate, result: Outcome): Fate {
    if result.None? then f.(dispositions := f.dispositions + [Ack]) else f
  }

  /** What one send makes of a message's fate: an accepted message is acked at once. */
  function Answered(f: Fate, result: Outcome): Fate {
    AckedIf(f.(outcomes := f.outcomes + [result]), result)
  }

  lemma {:induction false} RefusedFrom(records: seq<Message>, results: seq<Outcome>, i: nat) returns (j: nat)
    requires |records| == |results| && i < |Refused(records, results)|
    ensures |Errors(results)| == |Refused(records, results)|
    ensures j < |records| && Refused(records, results)[i] == records[j]
    ensures results[j].Some? && Errors(results)[i] == results[j]
  {
    var n := |records| - 1;
    RefusedLength(records[..n], results[..n]);
    if i < |Refused(records[..n], results[..n])| {
      j := RefusedFrom(records[..n], results[..n], i);
    } else {
      j := n;
    }
  }

  lemma {:induction false} RefusedLength(records: seq<Message>, results: seq<Outcome>)
    requires |records| == |results|
    ensures |Errors(results)| == |Refused(records, results)| <= |records|
  {
    if records != [] {
      RefusedLength(records[..|records| - 1], results[..|records| - 1]);
    }
  }

  lemma {:induction false} RefusedAll(records: seq<Message>, results: seq<Outcome>, j: nat)
    requires |records| == |results| && j < |records| && results[j].Some?
    ensures records[j] in Refused(records, results)
  {
    var n := |records| - 1;
    if j < n {
      RefusedAll(records[..n], results[..n], j);
    }
  }

  lemma {:induction false} RefusedDistinct(records: seq<Message>, results: seq<Outcome>)
    requires |records| == |results| && Distinct(records)
    ensures Distinct(Refused(records, results))
  {
    if records != [] {
      var n := |records| - 1;
      RefusedDistinct(records[..n], results[..n]);
      forall i | 0 <= i < |Refused(records[..n], results[..n])|
        ensures Refused(records[..n], results[..n])[i].id != records[n].id
      {
        var j := RefusedFrom(records[..n], results[..n], i);
      }
    }
  }

  // ----- A batch under way -----

  /** The messages still failing after k sends, each with the error of its latest send. */
  ghost predicate Failing(trace: Trace, failed: seq<Message>, errors: seq<Outcome>, k: nat) {
    && Distinct(failed) && |errors| == |failed| && k > 0
    && forall i :: 0 <= i < |failed| ==>
         && failed[i].id in trace && Waiting(trace[failed[i].id], k)
         && errors[i] == trace[failed[i].id].outcomes[k - 1]
  }

  /** Every other message of the batch has been accepted. */
  ghost predicate RestAccepted(trace: Trace, batch: seq<Message>, failed: seq<Message>, attempts: nat) {
    forall m :: m in batch && m !in failed ==> m.id in trace && Accepted(trace[m.id], attempts)
  }

  ghost predicate Within(part: seq<Message>, batch: seq<Message>) {
    forall m :: m in part ==> m in batch
  }

  lemma AcceptedNow(f: Fate, k: nat, attempts: nat)
    requires Waiting(f, k) && k < attempts
    ensures Accepted(Answered(f, None), attempts) && |Answered(f, None).outcomes| == k + 1
  {
    assert (f.outcomes + [None])[..k] == f.outcomes;
  }

  lemma RefusedNow(f: Fate, result: Outcome, k: nat)
    requires Waiting(f, k) && result.Some?
    ensures Waiting(Answered(f, result), k + 1) && Answered(f, result).outcomes[k] == result
  {
  }

  lemma TouchesNothing(trace: Trace, batch: seq<Message>)
    ensures OnlyTouches(trace, trace, Ids(batch))
  {
  }

  lemma WithinSelf(batch: seq<Message>)
    ensures Within(batch, batch)
  {
  }

  lemma SameSize(before: Trace, after: Trace, ids: set<nat>)
    requires OnlyTouches(before, after, ids)
    ensures |after| == |before| && after.Keys == before.Keys
  {
    assert |after.Keys| == |before.Keys|;
  }

  /** A batch joined by newer messages. */
  lemma JoinBatches(batch: seq<Message>, messages: seq<Message>, limit: nat)
    requires Distinct(batch) && (forall i :: 0 <= i < |batch| ==> batch[i].id < limit)
    requires forall i :: 0 <= i < |messages| ==> messages[i].id == limit + i
    ensures Distinct(batch + messages) && Distinct(messages)
    ensures forall id :: id in Ids(batch + messages) <==> id in Ids(batch) || limit <= id < limit + |messages|
  {
    forall id | limit <= id < limit + |messages|
      ensures id in Ids(batch + messages)
    {
      assert (batch + messages)[|batch| + id - limit].id == id;
    }
    forall id | id in Ids(batch)
      ensures id in Ids(batch + messages)
    {
      var i :| 0 <= i < |batch| && batch[i].id == id;
      assert (batch + messages)[i].id == id;
    }
  }

  lemma TouchMore(before: Trace, middle: Trace, after: Trace, part: seq<Message>, batch: seq<Message>)
    requires OnlyTouches(before, middle, Ids(batch)) && OnlyTouches(middle, after, Ids(part)) && Within(part, batch)
    ensures OnlyTouches(before, after, Ids(batch))
  {
    IdsWithin(part, batch);
  }

  /** The trace before a send of records that were refused k times, the answers, and the trace after. */
  ghost predicate Sent(before: Trace, after: Trace, records: seq<Message>, results: seq<Outcome>, k: nat) {
    && |results| == |records| && Distinct(records)
    && (forall i :: 0 <= i < |records| ==> records[i].id in before && Waiting(before[records[i].id], k))
    && (forall i :: 0 <= i < |records| ==>
          records[i].id in after && after[records[i].id] == Answered(before[records[i].id], results[i]))
  }

  lemma StillFailing(before: Trace, after: Trace, records: seq<Message>, results: seq<Outcome>, k: nat, i: nat)
    requires Sent(before, after, records, results, k) && i < |Refused(records, results)|
    ensures |Errors(results)| == |Refused(records, results)|
    ensures var m := Refused(records, results)[i];
            && m in records && m.id in after && Waiting(after[m.id], k + 1)
            && Errors(results)[i] == after[m.id].outcomes[k]
  {
    hide Refused, Errors, Answered, Waiting;
    var j := RefusedFrom(records, results, i);
    RefusedNow(before[records[j].id], results[j], k);
  }

  lemma {:induction false} NowAccepted(before: Trace, after: Trace, records: seq<Message>, results: seq<Outcome>,
                                           k: nat, m: Message, attempts: nat)
    requires Sent(before, after, records, results, k) && m in records && m !in Refused(records, results)
    requires k < attempts
    ensures m.id in after && Accepted(after[m.id], attempts) && |after[m.id].outcomes| == k + 1
  {
    hide Refused, Answered, Waiting, Accepted;
    var j :| 0 <= j < |records| && records[j] == m;
    if results[j].Some? {
      RefusedAll(records, results, j);
    }
    AcceptedNow(before[m.id], k, attempts);
  }

  /** One more send of the messages still failing: they fail on or they are accepted. */
  lemma {:induction false} AfterSend(before: Trace, after: Trace, records: seq<Message>, results: seq<Outcome>,
                                     k: nat, attempts: nat)
    requires Sent(before, after, records, results, k) && k < attempts
    ensures Failing(after, Refused(records, results), Errors(results), k + 1)
    ensures RestAccepted(after, records, Refused(records, results), attempts)
    ensures Within(Refused(records, results), records)
  {
    hide Refused, Errors, Accepted;
    RefusedLength(records, results);
    RefusedDistinct(records, results);
    forall i | 0 <= i < |Refused(records, results)|
      ensures var m := Refused(records, results)[i];
              && m in records && m.id in after && Waiting(after[m.id], k + 1)
              && Errors(results)[i] == after[m.id].outcomes[k]
    {
      StillFailing(before, after, records, results, k, i);
    }
    forall m | m in records && m !in Refused(records, results)
      ensures m.id in after && Accepted(after[m.id], attempts)
    {
      NowAccepted(before, after, records, results, k, m, attempts);
    }
  }

  /** Changes to the fates of some messages of a batch leave the accepted rest alone. */
  lemma RestStays(before: Trace, after: Trace, batch: seq<Message>, failed: seq<Message>, still: seq<Message>,
                  attempts: nat)
    requires Distinct(batch) && Within(failed, batch)
    requires RestAccepted(before, batch, failed, attempts) && RestAccepted(after, failed, still, attempts)
    requires OnlyTouches(before, after, Ids(failed))
    ensures RestAccepted(after, batch, still, attempts)
  {
    hide Accepted;
    forall m | m in batch && m !in still
      ensures m.id in after && Accepted(after[m.id], attempts)
    {
      if m !in failed {
        OtherId(batch, failed, m);
      }
    }
  }

  lemma OtherId(batch: seq<Message>, part: seq<Message>, m: Message)
    requires Distinct(batch) && Within(part, batch) && m in batch && m !in part
    ensures m.id !in Ids(part)
  {
    var a :| 0 <= a < |batch| && batch[a] == m;
    forall i | 0 <= i < |part|
      ensures part[i].id != m.id
    {
      assert part[i] in part;
      var b :| 0 <= b < |batch| && batch[b] == part[i];
    }
  }

  lemma RestSooner(trace: Trace, batch: seq<Message>, failed: seq<Message>, k: nat, attempts: nat)
    requires RestAccepted(trace, batch, failed, k) && k <= attempts
    ensures RestAccepted(trace, batch, failed, attempts)
  {
    hide Accepted;
    forall m | m in batch && m !in failed
      ensures Accepted(trace[m.id], attempts)
    {
      AcceptedSooner(trace[m.id], k, attempts);
    }
  }

  // ----- A batch that has been flushed -----

  /** Every message was accepted or refused to the end. */
  ghost predicate Finished(trace: Trace, batch: seq<Message>, attempts: nat, claimed: Option<int>) {
    forall m :: m in batch ==>
      m.id in trace && (Accepted(trace[m.id], attempts) || GivenUp(trace[m.id], m, attempts, claimed))
  }

  /** The flush ended after k sends: what had not been accepted by then was given back. */
  ghost predicate StoppedAt(trace: Trace, batch: seq<Message>, k: nat) {
    && (forall m :: m in batch ==> m.id in trace && (Accepted(trace[m.id], k) || Returned(trace[m.id], k)))
    && exists m :: m in batch && Returned(trace[m.id], k)
  }

  /** A retry was due, but the wait before it was cancelled. */
  ghost predicate Stopped(trace: Trace, batch: seq<Message>, attempts: nat) {
    exists k :: 0 < k < attempts && StoppedAt(trace, batch, k)
  }

  /** Nothing was sent. */
  ghost predicate TurnedAway(trace: Trace, batch: seq<Message>) {
    forall m :: m in batch ==> m.id in trace && trace[m.id] == TURNED_AWAY
  }

  /** What a flush did to its batch, by whether the breaker let it through and whether it was cut short. */
  ghost predicate Treated(trace: Trace, batch: seq<Message>, sent: bool, interrupted: bool, attempts: nat,
                          claimed: Option<int>)
  {
    if !sent then !interrupted && TurnedAway(trace, batch)
    else if interrupted then Stopped(trace, batch, attempts)
    else Finished(trace, batch, attempts, claimed)
  }

  ghost predicate SentAtMost(trace: Trace, batch: seq<Message>, n: nat) {
    forall m :: m in batch ==> m.id in trace && |trace[m.id].outcomes| <= n
  }

  lemma StoppedSends(trace: Trace, batch: seq<Message>, k: nat)
    requires StoppedAt(trace, batch, k)
    ensures SentAtMost(trace, batch, k)
  {
  }

  lemma FinishedSends(trace: Trace, batch: seq<Message>, attempts: nat, claimed: Option<int>)
    requires Finished(trace, batch, attempts, claimed)
    ensures SentAtMost(trace, batch, attempts)
  {
  }

  /** When nothing fails any more, the flush has come to its end. */
  lemma NoneFailing(trace: Trace, batch: seq<Message>, k: nat, attempts: nat, claimed: Option<int>)
    requires RestAccepted(trace, batch, [], k) && k <= attempts
    ensures Finished(trace, batch, attempts, claimed) && SentAtMost(trace, batch, k)
    ensures forall m :: m in batch ==> m.id in trace && Accepted(trace[m.id], attempts)
  {
    RestSooner(trace, batch, [], k, attempts);
  }

  lemma TreatedSettled(trace: Trace, batch: seq<Message>, sent: bool, interrupted: bool, attempts: nat,
                       claimed: Option<int>)
    requires Treated(trace, batch, sent, interrupted, attempts, claimed) && attempts > 0
    ensures forall m :: m in batch ==> m.id in trace && Settled(trace[m.id], m, attempts, claimed)
  {
    if sent && interrupted {
      var k :| 0 < k < attempts && StoppedAt(trace, batch, k);
      forall m | m in batch && Accepted(trace[m.id], k)
        ensures Accepted(trace[m.id], attempts)
      {
        AcceptedSooner(trace[m.id], k, attempts);
      }
    }
  }

  /** When the failing messages are given back, the flush has ended there. */
  lemma RestStopped(before: Trace, after: Trace, batch: seq<Message>, failed: seq<Message>, k: nat)
    requires Distinct(batch) && Within(failed, batch) && RestAccepted(before, batch, failed, k) && failed != []
    requires OnlyTouches(before, after, Ids(failed))
    requires forall i :: 0 <= i < |failed| ==> failed[i].id in after && Returned(after[failed[i].id], k)
    ensures StoppedAt(after, batch, k) && OnlyTouches(before, after, Ids(batch))
  {
    hide Accepted, Returned;
    IdsWithin(failed, batch);
    forall m | m in batch
      ensures m.id in after && (Accepted(after[m.id], k) || Returned(after[m.id], k))
    {
      if m !in failed {
        OtherId(batch, failed, m);
      }
    }
    assert failed[0] in failed;
  }

  /** When the failing messages are given up, the flush has come to its end. */
  lemma RestFinished(before: Trace, after: Trace, batch: seq<Message>, failed: seq<Message>, attempts: nat,
                     claimed: Option<int>)
    requires Distinct(batch) && Within(failed, batch) && RestAccepted(before, batch, failed, attempts)
    requires OnlyTouches(before, after, Ids(failed))
    requires forall i :: 0 <= i < |failed| ==>
               failed[i].id in after && GivenUp(after[failed[i].id], failed[i], attempts, claimed)
    ensures Finished(after, batch, attempts, claimed) && OnlyTouches(before, after, Ids(batch))
    ensures forall m :: m in failed ==> m.id in after && !Accepted(after[m.id], attempts)
  {
    hide Accepted, GivenUp;
    IdsWithin(failed, batch);
    forall m | m in batch
      ensures m.id in after && (Accepted(after[m.id], attempts) || GivenUp(after[m.id], m, attempts, claimed))
    {
      if m !in failed {
        OtherId(batch, failed, m);
      }
    }
    forall i | 0 <= i < |failed|
      ensures !Accepted(after[failed[i].id], attempts)
    {
      NotAccepted(after[failed[i].id], failed[i], attempts, claimed);
    }
  }

  lemma IdsWithin(part: seq<Message>, batch: seq<Message>)
    requires Within(part, batch)
    ensures Ids(part) <= Ids(batch)
  {
    forall i | 0 <= i < |part|
      ensures part[i].id in Ids(batch)
    {
      assert part[i] in part;
      var j :| 0 <= j < |batch| && batch[j] == part[i];
    }
  }

  // ----- Counting -----

  /** What a message's fate amounts to so far. */
  datatype Kind = Pending | First | Later | Dead | Back

  ghost function KindOf(f: Fate): Kind {
    if f.dispositions == [] then Pending
    else if f.dispositions == [Nak] then Back
    else if f.letters != [] then Dead
    else if |f.outcomes| == 1 then First
    else Later
  }

  /** What is counted where: by the send that was accepted, by the letter, or as given back. */
  lemma KindMeans(f: Fate, m: Message, attempts: nat, claimed: Option<int>)
    requires Settled(f, m, attempts, claimed) && attempts > 0
    ensures KindOf(f).First? <==> Accepted(f, attempts) && |f.outcomes| == 1
    ensures KindOf(f).Later? <==> Accepted(f, attempts) && |f.outcomes| > 1
    ensures KindOf(f).Dead? <==> |f.letters| == 1
    ensures KindOf(f).Back? <==> f.dispositions == [Nak]
    ensures !KindOf(f).Pending?
  {
    assert [Ack][0] != [Nak][0];
  }

  ghost function Tally(trace: Trace, kind: Kind): set<nat> {
    set id | id in trace && KindOf(trace[id]) == kind
  }

  datatype Counts = Counts(pending: int, first: int, later: int, dead: int, back: int)

  /** How many messages there are of every kind. */
  ghost function Count(trace: Trace): Counts {
    Counts(|Tally(trace, Pending)|, |Tally(trace, First)|, |Tally(trace, Later)|,
           |Tally(trace, Dead)|, |Tally(trace, Back)|)
  }

  /** n messages that were pending have become one kind. */
  function Move(c: Counts, kind: Kind, n: int): Counts {
    match kind
    case Pending => c
    case First => c.(pending := c.pending - n, first := c.first + n)
    case Later => c.(pending := c.pending - n, later := c.later + n)
    case Dead => c.(pending := c.pending - n, dead := c.dead + n)
    case Back => c.(pending := c.pending - n, back := c.back + n)
  }

  /** Pending messages became one kind, and no other message changed kind. */
  ghost predicate Become(before: Trace, after: Trace, ids: set<nat>, kind: Kind) {
    && before.Keys == after.Keys && ids <= before.Keys && kind != Pending
    && (forall id :: id in ids ==> KindOf(before[id]) == Pending && KindOf(after[id]) == kind)
    && (forall id :: id in before && id !in ids ==> KindOf(after[id]) == KindOf(before[id]))
  }

  lemma TallyOne(before: Trace, after: Trace, ids: set<nat>, kind: Kind, other: Kind)
    requires Become(before, after, ids, kind)
    ensures |Tally(after, other)| ==
            |Tally(before, other)| + if other == kind then |ids| else if other == Pending then -|ids| else 0
  {
    hide KindOf;
    if other == kind {
      assert Tally(after, kind) == Tally(before, kind) + ids;
      assert Tally(before, kind) !! ids;
    } else if other == Pending {
      assert Tally(before, Pending) == Tally(after, Pending) + ids;
      assert Tally(after, Pending) !! ids;
    } else {
      assert Tally(after, other) == Tally(before, other);
    }
  }

  lemma TallyMoves(before: Trace, after: Trace, ids: set<nat>, kind: Kind)
    requires Become(before, after, ids, kind)
    ensures Count(after) == Move(Count(before), kind, |ids|)
  {
    assert kind != Pending;
    hide Become, Tally;
    TallyOne(before, after, ids, kind, Pending);
    TallyOne(before, after, ids, kind, First);
    TallyOne(before, after, ids, kind, Later);
    TallyOne(before, after, ids, kind, Dead);
    TallyOne(before, after, ids, kind, Back);
  }

  /** Messages of a kind, or of a kind in a list after it, are counted separately. */
  ghost function TallyAll(trace: Trace, kinds: seq<Kind>): set<nat> {
    set id | id in trace && KindOf(trace[id]) in kinds
  }

  lemma CountsKind(trace: Trace, kind: Kind, kinds: seq<Kind>)
    requires kind !in kinds
    ensures |TallyAll(trace, [kind] + kinds)| == |Tally(trace, kind)| + |TallyAll(trace, kinds)|
  {
    hide KindOf;
    assert TallyAll(trace, [kind] + kinds) == Tally(trace, kind) + TallyAll(trace, kinds);
    assert Tally(trace, kind) !! TallyAll(trace, kinds);
  }

  /** Every message is of one kind. */
  lemma CountsAll(trace: Trace)
    ensures var c := Count(trace); c.pending + c.first + c.later + c.dead + c.back == |trace|
  {
    assert trace.Keys == TallyAll(trace, [Pending, First, Later, Dead, Back]) && TallyAll(trace, []) == {} by {
      hide KindOf;
    }
    hide Tally, TallyAll;
    CountsKind(trace, Back, []);
    CountsKind(trace, Dead, [Back]);
    CountsKind(trace, Later, [Dead, Back]);
    CountsKind(trace, First, [Later, Dead, Back]);
    CountsKind(trace, Pending, [First, Later, Dead, Back]);
    assert [Back] + [] == [Back] && [Dead] + [Back] == [Dead, Back];
    assert [Later] + [Dead, Back] == [Later, Dead, Back] && [First] + [Later, Dead, Back] == [First, Later, Dead, Back];
    assert [Pending] + [First, Later, Dead, Back] == [Pending, First, Later, Dead, Back];
  }

  lemma FetchedCounts(trace: Trace, id: nat)
    requires id !in trace
    ensures Count(trace[id := FETCHED]) == Count(trace).(pending := Count(trace).pending + 1)
  {
    var after := trace[id := FETCHED];
    assert Tally(after, Pending) == Tally(trace, Pending) + {id};
    assert Tally(after, First) == Tally(trace, First) && Tally(after, Later) == Tally(trace, Later);
    assert Tally(after, Dead) == Tally(trace, Dead) && Tally(after, Back) == Tally(trace, Back);
  }

  lemma {:induction false} IdsCounted(batch: seq<Message>)
    requires Distinct(batch)
    ensures |Ids(batch)| == |batch|
  {
    if batch != [] {
      var n := |batch| - 1;
      IdsCounted(batch[..n]);
      LastId(batch);
      hide Ids;
      assert |Ids(batch[..n]) + {batch[n].id}| == n + 1;
    } else {
      assert Ids(batch) == {};
    }
  }

  lemma LastId(batch: seq<Message>)
    requires Distinct(batch) && batch != []
    ensures var n := |batch| - 1;
            batch[n].id !in Ids(batch[..n]) && Ids(batch) == Ids(batch[..n]) + {batch[n].id}
  {
    var n := |batch| - 1;
    forall id | id in Ids(batch)
      ensures id in Ids(batch[..n]) + {batch[n].id}
    {
      var i :| 0 <= i < |batch| && batch[i].id == id;
      assert i < n ==> batch[..n][i].id == id;
    }
    forall id | id in Ids(batch[..n])
      ensures id in Ids(batch)
    {
      var i :| 0 <= i < n && batch[..n][i].id == id;
      assert batch[i].id == id;
    }
  }

  /** A send moves the accepted messages, and only them. */
  lemma SendCounts(before: Trace, after: Trace, records: seq<Message>, results: seq<Outcome>, k: nat)
    requires Sent(before, after, records, results, k) && OnlyTouches(before, after, Ids(records))
    ensures Count(after) == Move(Count(before), if k == 0 then First else Later,
                                 |records| - |Refused(records, results)|)
  {
    hide *;
    SentDistinct(before, after, records, results, k);
    var failed, kind := Refused(records, results), if k == 0 then First else Later;
    AfterSend(before, after, records, results, k, k + 1);
    IdsCounted(records);
    IdsCounted(failed);
    IdsWithin(failed, records);
    var moved := Ids(records) - Ids(failed);
    assert Ids(records) == moved + Ids(failed);
    SendBecomes(before, after, records, results, k);
    TallyMoves(before, after, moved, kind);
  }

  lemma SentDistinct(before: Trace, after: Trace, records: seq<Message>, results: seq<Outcome>, k: nat)
    requires Sent(before, after, records, results, k)
    ensures |results| == |records| && Distinct(records) && Distinct(Refused(records, results))
  {
    RefusedDistinct(records, results);
  }

  lemma SendBecomes(before: Trace, after: Trace, records: seq<Message>, results: seq<Outcome>, k: nat)
    requires Sent(before, after, records, results, k) && OnlyTouches(before, after, Ids(records))
    ensures Become(before, after, Ids(records) - Ids(Refused(records, results)), if k == 0 then First else Later)
  {
    hide Refused, Errors, Answered, Sent, Waiting, Accepted, KindOf, Failing, RestAccepted, Distinct;
    SentDistinct(before, after, records, results, k);
    var failed, kind := Refused(records, results), if k == 0 then First else Later;
    AfterSend(before, after, records, results, k, k + 1);
    forall i | 0 <= i < |records|
      ensures records[i].id in before && KindOf(before[records[i].id]) == Pending
      ensures records[i] !in failed ==> KindOf(after[records[i].id]) == kind
      ensures records[i] in failed ==> KindOf(after[records[i].id]) == Pending
    {
      SendKind(before, after, records, results, k, i);
    }
    forall i | 0 <= i < |failed|
      ensures failed[i].id in before && failed[i].id in after
      ensures KindOf(before[failed[i].id]) == Pending == KindOf(after[failed[i].id])
    {
      assert failed[i] in records;
    }
    forall id | id in Ids(records) && id !in Ids(failed)
      ensures id in before && KindOf(before[id]) == Pending && KindOf(after[id]) == kind
    {
      var i :| 0 <= i < |records| && records[i].id == id;
      assert records[i] !in failed;
    }
  }

  lemma SendKind(before: Trace, after: Trace, records: seq<Message>, results: seq<Outcome>, k: nat, i: nat)
    requires Sent(before, after, records, results, k) && i < |records|
    ensures records[i].id in before && KindOf(before[records[i].id]) == Pending
    ensures records[i].id in after
    ensures records[i] !in Refused(records, results) ==>
              KindOf(after[records[i].id]) == if k == 0 then First else Later
    ensures records[i] in Refused(records, results) ==> KindOf(after[records[i].id]) == Pending
  {
    hide Refused, Errors, Answered;
    if records[i] !in Refused(records, results) {
      NowAccepted(before, after, records, results, k, records[i], k + 1);
    } else {
      var j :| 0 <= j < |Refused(records, results)| && Refused(records, results)[j] == records[i];
      StillFailing(before, after, records, results, k, j);
    }
  }

  /** Messages that were waiting and are given back. */
  lemma BackCounts(before: Trace, after: Trace, batch: seq<Message>, k: nat)
    requires Distinct(batch) && OnlyTouches(before, after, Ids(batch))
    requires forall i :: 0 <= i < |batch| ==> batch[i].id in before && Waiting(before[batch[i].id], k)
    requires forall i :: 0 <= i < |batch| ==> Returned(after[batch[i].id], k)
    ensures Count(after) == Move(Count(before), Back, |batch|)
  {
    hide Count;
    IdsCounted(batch);
    TallyMoves(before, after, Ids(batch), Back);
  }
}
