/** The analyzer that keeps a bounded number of attacker sessions and judges each after every event. */
module SessionAnalyzer {
  import opened Options
  import opened SessionState

  const MAX_EVENT_IDS: nat := 100_000
  const MAX_CLOSED: nat := 50_000
  const FORGOTTEN: nat := 25_000
  const MAX_SUMMARIES: nat := 50_000
  const REDELIVERY_WINDOW: real := 600.0

  datatype Summary =
    Summary(sessionId: string, duration: real, eventCount: nat, commandCount: nat, phases: set<string>,
            techniques: seq<Technique>, tools: seq<string>, maxSeverity: string, classification: string,
            killChain: bool, score: real, alerts: nat)

  // ----- Event ids in order of arrival -----

  predicate Distinct(s: seq<string>) {
    forall i, j :: 0 <= i < j < |s| ==> s[i] != s[j]
  }

  /** The ids that arrived at a cutoff or later, in the same order. */
  function Recent(ids: seq<string>, at: map<string, real>, cutoff: real): (r: seq<string>)
    requires forall i :: 0 <= i < |ids| ==> ids[i] in at
    ensures |r| <= |ids|
    ensures forall id :: id in r <==> id in ids && at[id] >= cutoff
  {
    if ids == [] then []
    else Recent(ids[..|ids| - 1], at, cutoff) + if at[ids[|ids| - 1]] >= cutoff then [ids[|ids| - 1]] else []
  }

  lemma {:induction false} RecentDistinct(ids: seq<string>, at: map<string, real>, cutoff: real)
    requires Distinct(ids) && forall i :: 0 <= i < |ids| ==> ids[i] in at
    ensures Distinct(Recent(ids, at, cutoff))
  {
    if ids != [] {
      var n := |ids| - 1;
      RecentDistinct(ids[..n], at, cutoff);
      var r := Recent(ids[..n], at, cutoff);
      forall i | 0 <= i < |r|
        ensures r[i] != ids[n]
      {
        assert r[i] in r;
      }
    }
  }

  /** What is kept of too many ids: those in the redelivery window and, if even they are too many, the newer ones. */
  function Trimmed(ids: seq<string>, at: map<string, real>, now: real): (r: seq<string>)
    requires forall i :: 0 <= i < |ids| ==> ids[i] in at
    ensures |r| <= |ids| && forall id :: id in r ==> id in ids
  {
    if |ids| <= MAX_EVENT_IDS then ids
    else
      var recent := Recent(ids, at, now - REDELIVERY_WINDOW);
      if |recent| <= MAX_EVENT_IDS then recent else recent[MAX_EVENT_IDS / 2..]
  }

  /** The ids kept of too many: those of the last ten minutes, without the older 50,000 if even they are too many. */
  lemma TrimmedExactly(ids: seq<string>, at: map<string, real>, now: real)
    requires forall i :: 0 <= i < |ids| ==> ids[i] in at
    ensures |ids| <= 100_000 ==> Trimmed(ids, at, now) == ids
    ensures |ids| > 100_000 && |Recent(ids, at, now - 600.0)| <= 100_000 ==>
              Trimmed(ids, at, now) == Recent(ids, at, now - 600.0)
    ensures |ids| > 100_000 && |Recent(ids, at, now - 600.0)| > 100_000 ==>
              Trimmed(ids, at, now) == Recent(ids, at, now - 600.0)[50_000..]
    ensures forall id :: id in Recent(ids, at, now - 600.0) <==> id in ids && at[id] >= now - 600.0
  {
  }

  /** One id more never makes too many; the newest is kept exactly if there was room or it is in the window. */
  lemma TrimmedBounds(ids: seq<string>, at: map<string, real>, now: real)
    requires Distinct(ids) && 0 < |ids| <= MAX_EVENT_IDS + 1 && forall i :: 0 <= i < |ids| ==> ids[i] in at
    ensures Distinct(Trimmed(ids, at, now)) && |Trimmed(ids, at, now)| <= MAX_EVENT_IDS
    ensures var n := |ids| - 1;
            ids[n] in Trimmed(ids, at, now) <==> |ids| <= MAX_EVENT_IDS || at[ids[n]] >= now - REDELIVERY_WINDOW
  {
    RecentDistinct(ids, at, now - REDELIVERY_WINDOW);
    var n := |ids| - 1;
    var recent := Recent(ids, at, now - REDELIVERY_WINDOW);
    if |ids| > MAX_EVENT_IDS && at[ids[n]] >= now - REDELIVERY_WINDOW {
      assert recent[|recent| - 1] == ids[n];
      assert |recent| > MAX_EVENT_IDS ==> recent[MAX_EVENT_IDS / 2..][|recent| - 1 - MAX_EVENT_IDS / 2] == ids[n];
    }
  }

  /** The ordered dictionary of event ids, for telling redeliveries. */
  class EventIds {
    var order: seq<string>
    var at: map<string, real>

    ghost predicate Valid()
      reads this
    {
      Distinct(order) && |order| <= MAX_EVENT_IDS && forall id :: id in at <==> id in order
    }

    constructor ()
      ensures Valid() && order == []
    {
      order, at := [], map[];
    }

    /** Remembers a new id, and forgets old ones when there are too many. */
    method Remember(id: string, now: real, later: real)
      requires Valid() && id !in at
      modifies this
      ensures Valid()
      ensures Remembers(order, at, old(order), old(at), id, now, later)
    {
      hide Distinct, Recent;
      NewDistinct(order, id);
      order := order + [id];
      at := at[id := now];
      TrimmedBounds(order, at, later);
      if |order| > MAX_EVENT_IDS {
        Keep(Recent(order, at, later - REDELIVERY_WINDOW));
        if |order| > MAX_EVENT_IDS {
          Keep(order[MAX_EVENT_IDS / 2..]);
        }
      }
    }

    /** Deletes all ids but some. */
    method Keep(ids: seq<string>)
      requires (forall id :: id in at <==> id in order) && forall id :: id in ids ==> id in order
      modifies this
      ensures order == ids && (forall id :: id in at <==> id in order)
      ensures forall id :: id in at ==> at[id] == old(at)[id]
    {
      order := ids;
      at := map id | id in at && id in ids :: at[id];
    }
  }

  /** The ids remembered after one id more: the trimmed ones, each with its own time. */
  ghost predicate Remembers(order: seq<string>, at: map<string, real>, before: seq<string>, was: map<string, real>,
                            id: string, now: real, later: real)
  {
    && (forall i :: 0 <= i < |before| ==> before[i] in was)
    && order == Trimmed(before + [id], was[id := now], later)
    && (forall other :: other in at <==> other in order)
    && (forall other :: other in at ==> at[other] == was[id := now][other])
    && (id in at <==> |before| < 100_000 || later - 600.0 <= now)
  }

  lemma NewDistinct(s: seq<string>, x: string)
    requires Distinct(s) && x !in s
    ensures Distinct(s + [x])
  {
  }

  // ----- Sessions -----

  /** How a session can leave the table. */
  datatype Way = Close | Sweep | Evict

  /** Where the sessions ever created are: still active, or gone one way. */
  datatype Ledger = Ledger(created: set<SessionState>, active: set<SessionState>,
                           closed: set<SessionState>, swept: set<SessionState>, evicted: set<SessionState>)

  /** Every session created is in exactly one place. */
  ghost predicate Balanced(l: Ledger) {
    && l.created == l.active + l.closed + l.swept + l.evicted
    && l.active !! l.closed && l.active !! l.swept && l.active !! l.evicted
    && l.closed !! l.swept && l.closed !! l.evicted && l.swept !! l.evicted
  }

  ghost function Leave(l: Ledger, s: SessionState, way: Way): Ledger {
    match way
    case Close => l.(active := l.active - {s}, closed := l.closed + {s})
    case Sweep => l.(active := l.active - {s}, swept := l.swept + {s})
    case Evict => l.(active := l.active - {s}, evicted := l.evicted + {s})
  }

  ghost function Enter(l: Ledger, s: SessionState): Ledger {
    l.(created := l.created + {s}, active := l.active + {s})
  }

  lemma LeaveBalanced(l: Ledger, s: SessionState, way: Way)
    requires Balanced(l) && s in l.active
    ensures Balanced(Leave(l, s, way))
  {
  }

  lemma EnterBalanced(l: Ledger, s: SessionState)
    requires Balanced(l) && s !in l.created
    ensures Balanced(Enter(l, s))
  {
  }

  type Table = map<string, SessionState>

  /** The table holds exactly the active sessions, each under its own id. */
  ghost predicate Indexed(sessions: Table, active: set<SessionState>) {
    && (forall id :: id in sessions ==> sessions[id] in active && sessions[id].sessionId == id)
    && (forall s :: s in active ==> s.sessionId in sessions && sessions[s.sessionId] == s)
  }

  lemma RemoveIndexed(sessions: Table, active: set<SessionState>, id: string)
    requires Indexed(sessions, active) && id in sessions
    ensures sessions[id] in active && sessions[id].sessionId == id
    ensures Indexed(sessions - {id}, active - {sessions[id]})
    ensures |sessions - {id}| == |sessions| - 1
  {
    assert (sessions - {id}).Keys == sessions.Keys - {id};
  }

  lemma AddIndexed(sessions: Table, active: set<SessionState>, s: SessionState)
    requires Indexed(sessions, active) && s.sessionId !in sessions
    ensures Indexed(sessions[s.sessionId := s], active + {s})
    ensures |sessions[s.sessionId := s]| == |sessions| + 1
  {
  }

  ghost predicate StatesValid(states: set<SessionState>)
    reads states
  {
    forall s :: s in states ==> s.Valid()
  }

  lemma StateValid(states: set<SessionState>, s: SessionState)
    requires StatesValid(states) && s in states
    ensures s.Valid() && StatesValid(states - {s})
  {
  }

  lemma SessionActive(sessions: Table, active: set<SessionState>, id: string)
    requires Indexed(sessions, active) && id in sessions
    ensures sessions[id] in active && sessions[id].sessionId == id
  {
  }

  lemma AddValid(states: set<SessionState>, s: SessionState)
    requires StatesValid(states) && s.Valid()
    ensures StatesValid(states + {s})
  {
  }

  class SessionAnalyzer {
    const maxSessions: int
    const idleTimeout: real
    const toolCategories: map<string, string>
    const eventIds: EventIds
    var sessions: Table
    var closedSessions: set<string>
    var evictedSummaries: seq<Summary>
    ghost var ledger: Ledger

    ghost function Limit(): int {
      if maxSessions >= 1 then maxSessions else 1
    }

    ghost predicate Valid()
      reads this, ledger.active, eventIds
    {
      && Indexed(sessions, ledger.active) && |sessions| <= Limit()
      && Balanced(ledger) && StatesValid(ledger.active)
      && eventIds.Valid()
      && |closedSessions| <= MAX_CLOSED && |evictedSummaries| <= MAX_SUMMARIES
    }

    constructor (maxSessions: int, idleTimeout: real, toolCategories: map<string, string>)
      ensures Valid() && fresh(eventIds) && ledger.created == {}
      ensures this.maxSessions == maxSessions && this.idleTimeout == idleTimeout
    {
      this.maxSessions, this.idleTimeout, this.toolCategories := maxSessions, idleTimeout, toolCategories;
      eventIds := new EventIds();
      sessions, closedSessions, evictedSummaries := map[], {}, [];
      ledger := Ledger({}, {}, {}, {}, {});
    }

    /** Takes a session out of the table, one way or another. */
    method Remove(id: string, ghost way: Way) returns (state: SessionState)
      requires Valid() && id in sessions
      modifies this`sessions, this`ledger
      ensures Valid() && state == old(sessions)[id] && sessions == old(sessions) - {id}
      ensures state.Valid() && state in old(ledger).active && ledger == Leave(old(ledger), state, way)
      ensures state !in ledger.active && state.sessionId == id
    {
      hide StatesValid, Balanced, Indexed, SessionState.Valid;
      state := sessions[id];
      RemoveIndexed(sessions, ledger.active, id);
      StateValid(ledger.active, state);
      LeaveBalanced(ledger, state, way);
      sessions := sessions - {id};
      ledger := Leave(ledger, state, way);
    }

    /** Sums up a session that has left the table; this takes one more verdict. */
    method Summarize(state: SessionState) returns (summary: Summary)
      requires Valid() && state.Valid() && state !in ledger.active
      modifies state`previousAlerts, state`raised, state`held
      ensures Valid() && state.Valid() && old(state.raised) <= state.raised
      ensures SumsUp(summary, state)
    {
      hide Valid, SessionState.HoldingNow, SessionState.Score, SessionState.Classification;
      var v := state.ComputeVerdict();
      summary := Summary(state.sessionId, state.lastEventTime - state.startTime, state.eventCount, state.commandCount,
                         state.phasesSeen, state.techniquesSeen, state.toolSignatures, state.maxSeverity,
                         v.classification, v.killChain, v.score, |state.previousAlerts|);
    }

    /** The summary is that of the events the session processed and the alerts it raised. */
    ghost predicate SumsUp(summary: Summary, state: SessionState)
      reads state
    {
      && summary.sessionId == state.sessionId && summary.duration == state.lastEventTime - state.startTime
      && summary.eventCount == |state.processed| && summary.commandCount == Commands(state.processed)
      && summary.phases == state.phasesSeen && summary.techniques == state.techniquesSeen
      && summary.tools == state.toolSignatures && summary.classification == state.Classification()
      && summary.killChain == state.Holds(KillChain) && summary.score == state.Score()
      && Rank(summary.maxSeverity) == MaxRank(state.processed) && summary.alerts == |state.raised|
    }

    /** The session whose latest event is oldest. */
    method OldestSession() returns (oldest: string)
      requires Valid() && sessions != map[]
      ensures oldest in sessions
      ensures forall id :: id in sessions ==> sessions[oldest].lastEventTime <= sessions[id].lastEventTime
    {
      hide Valid;
      oldest :| oldest in sessions;
      var rest := sessions.Keys - {oldest};
      while rest != {}
        invariant oldest in sessions && rest <= sessions.Keys
        invariant forall id :: id in sessions && id !in rest ==>
                    sessions[oldest].lastEventTime <= sessions[id].lastEventTime
        decreases |rest|
      {
        var id :| id in rest;
        if sessions[id].lastEventTime < sessions[oldest].lastEventTime {
          oldest := id;
        }
        rest := rest - {id};
      }
    }

    /** The state's summary has been queued; the oldest one is lost if there was no room. */
    ghost predicate Queued(state: SessionState, queue: seq<Summary>)
      reads this`evictedSummaries, state
    {
      && evictedSummaries != []
      && SumsUp(evictedSummaries[|evictedSummaries| - 1], state)
      && evictedSummaries == Push(queue, evictedSummaries[|evictedSummaries| - 1], MAX_SUMMARIES)
    }

    /** No session's latest event is older. */
    ghost predicate LeastRecent(state: SessionState, table: Table)
      reads state, table.Values
    {
      forall id :: id in table ==> state.lastEventTime <= table[id].lastEventTime
    }

    /** Evicts the least recently used session, and queues its summary until it is drained. */
    method EvictLru() returns (state: SessionState)
      requires Valid() && sessions != map[]
      modifies this`sessions, this`ledger, this`evictedSummaries
      modifies ledger.active`previousAlerts, ledger.active`raised, ledger.active`held
      ensures Valid() && state in old(ledger).active && ledger == Leave(old(ledger), state, Evict)
      ensures state.sessionId in old(sessions) && sessions == old(sessions) - {state.sessionId}
      ensures state == old(sessions)[state.sessionId] && Queued(state, old(evictedSummaries))
      ensures LeastRecent(state, old(sessions)) && old(state.raised) <= state.raised
      ensures forall s :: s in old(ledger).active && s != state ==> unchanged(s)
    {
      hide Valid, Leave, SumsUp, SessionState.Valid;
      var id := OldestSession();
      state := Remove(id, Evict);
      var summary := Summarize(state);
      Keep(summary);
    }

    /** The oldest summary is lost when there are too many. */
    method Keep(summary: Summary)
      requires Valid()
      modifies this`evictedSummaries
      ensures Valid()
      ensures evictedSummaries == Push(old(evictedSummaries), summary, MAX_SUMMARIES)
      ensures evictedSummaries != [] && evictedSummaries[|evictedSummaries| - 1] == summary
    {
      evictedSummaries := Push(evictedSummaries, summary, MAX_SUMMARIES);
    }

    /** Adds a new session, for which there must be room. */
    method Add(id: string, now: real) returns (state: SessionState)
      requires Valid() && id !in sessions && |sessions| < Limit()
      modifies this`sessions, this`ledger
      ensures Valid() && fresh(state) && ledger == Enter(old(ledger), state)
      ensures sessions == old(sessions)[id := state] && state.Valid() && state.processed == [] && state.raised == []
      ensures state.times == [] && state.startTime == now
    {
      hide StatesValid, Balanced, Indexed, SessionState.Valid;
      state := new SessionState(id, now, toolCategories);
      AddIndexed(sessions, ledger.active, state);
      EnterBalanced(ledger, state);
      AddValid(ledger.active, state);
      sessions := sessions[id := state];
      ledger := Enter(ledger, state);
    }

    /** What asking for a session makes of a table and a ledger: a new one may push out another. */
    ghost predicate Provided(id: string, gone: Option<SessionState>, table: Table, was: Ledger)
      reads this`sessions, this`ledger
    {
      && id in sessions && sessions[id] in ledger.active
      && (id in table ==> gone.None? && sessions == table && ledger == was)
      && (gone.Some? <==> id !in table && table != map[] && |table| >= maxSessions)
      && (gone.Some? ==>
            && gone.value in was.active && gone.value != sessions[id]
            && gone.value.sessionId in table && table[gone.value.sessionId] == gone.value
            && sessions == (table - {gone.value.sessionId})[id := sessions[id]]
            && ledger == Enter(Leave(was, gone.value, Evict), sessions[id]))
      && (gone.None? && id !in table ==>
            sessions == table[id := sessions[id]] && ledger == Enter(was, sessions[id]))
    }

    /** The one pushed out is a least recently used one, and its summary is queued. */
    ghost predicate PushedOut(gone: Option<SessionState>, table: Table, queue: seq<Summary>)
      reads this`evictedSummaries, table.Values, if gone.Some? then {gone.value} else {}
    {
      if gone.Some? then LeastRecent(gone.value, table) && Queued(gone.value, queue) else evictedSummaries == queue
    }

    /** The state of a session; a new one pushes out the least recently used if there is no room. */
    method GetOrCreate(id: string, now: real) returns (state: SessionState, ghost gone: Option<SessionState>)
      requires Valid()
      modifies this`sessions, this`ledger, this`evictedSummaries
      modifies ledger.active`previousAlerts, ledger.active`raised, ledger.active`held
      ensures Valid() && state.Valid() && Provided(id, gone, old(sessions), old(ledger))
      ensures state == sessions[id] && state.sessionId == id
      ensures id !in old(sessions) ==>
                && fresh(state) && state.processed == [] && state.raised == []
                && state.times == [] && state.startTime == now
      ensures PushedOut(gone, old(sessions), old(evictedSummaries))
      ensures forall s :: s in old(ledger).active && gone != Some(s) ==> unchanged(s)
    {
      hide StatesValid, Balanced, Indexed, Enter, Leave, SumsUp, SessionState.Valid;
      gone := None;
      if id !in sessions {
        if |sessions| >= maxSessions && sessions != map[] {
          var lru := EvictLru();
          gone := Some(lru);
        }
        state := Add(id, now);
        SessionActive(sessions, ledger.active, id);
      } else {
        state := sessions[id];
        SessionActive(sessions, ledger.active, id);
        StateValid(ledger.active, state);
      }
    }

    /** Takes an event into account in an active session, and judges the session. */
    method Process(state: SessionState, event: Event, now: real) returns (v: Verdict)
      requires Valid() && state in ledger.active
      modifies state
      ensures Valid() && state.processed == old(state.processed) + [event] && state.times == old(state.times) + [now]
      ensures state.Judged(v, old(state.raised))
    {
      hide StatesValid, Balanced, Indexed, SessionState.Valid;
      StateValid(ledger.active, state);
      ghost var others := ledger.active - {state};
      state.Update(event, now);
      v := state.ComputeVerdict();
      assert StatesValid(others);
      AddValid(others, state);
      assert others + {state} == ledger.active;
    }

    method RememberEvent(eventId: string, now: real, later: real)
      requires Valid() && eventId !in eventIds.at
      modifies eventIds
      ensures Valid()
      ensures Remembers(eventIds.order, eventIds.at, old(eventIds.order), old(eventIds.at), eventId, now, later)
    {
      hide StatesValid, Balanced, Indexed;
      eventIds.Remember(eventId, now, later);
    }

    /** Whether an event is a new one, for a session that has not been closed. */
    predicate Accepts(id: string, eventId: string)
      reads this, eventIds
    {
      id != "" && id !in closedSessions && eventId !in eventIds.at
    }

    /**
     Ingests an event. A redelivered event, or one for a closed session, changes nothing. Any
     other is processed once by its session, which is active then; every other session is as it
     was and where it was, but for the one that had to go.
     */
    method Ingest(id: string, eventId: string, event: Event, now: real, later: real, created: real,
                  time: real)
      returns (v: Verdict, ghost gone: Option<SessionState>)
      requires Valid()
      modifies this`sessions, this`ledger, this`evictedSummaries, ledger.active, eventIds
      ensures Valid()
      ensures !old(Accepts(id, eventId)) ==>
                && v == EMPTY_VERDICT && gone.None? && sessions == old(sessions) && ledger == old(ledger)
                && evictedSummaries == old(evictedSummaries)
                && unchanged(eventIds) && forall s :: s in old(ledger).active ==> unchanged(s)
      ensures old(Accepts(id, eventId)) ==>
                && id in sessions && Provided(id, gone, old(sessions), old(ledger))
                && sessions[id].processed == (if id in old(sessions) then old(sessions[id].processed) else []) + [event]
                && sessions[id].times == (if id in old(sessions) then old(sessions[id].times) else []) + [time]
                && sessions[id].Judged(v, if id in old(sessions) then old(sessions[id].raised) else [])
      ensures old(Accepts(id, eventId)) ==>
                Remembers(eventIds.order, eventIds.at, old(eventIds.order), old(eventIds.at), eventId, now, later)
      ensures old(Accepts(id, eventId)) ==> PushedOut(gone, old(sessions), old(evictedSummaries))
      ensures old(Accepts(id, eventId)) ==>
                forall s :: s in old(ledger).active && s.sessionId != id && gone != Some(s) ==> unchanged(s)
    {
      if id == "" || id in closedSessions || eventId in eventIds.at {
        return EMPTY_VERDICT, None;
      }
      hide Valid, Provided, PushedOut;
      v, gone := Accept(id, eventId, event, now, later, created, time);
    }

    /** The part of an ingestion for events that are accepted. */
    method Accept(id: string, eventId: string, event: Event, now: real, later: real, created: real,
                  time: real)
      returns (v: Verdict, ghost gone: Option<SessionState>)
      requires Valid() && Accepts(id, eventId)
      modifies this`sessions, this`ledger, this`evictedSummaries, ledger.active, eventIds
      ensures Valid() && id in sessions && Provided(id, gone, old(sessions), old(ledger))
      ensures sessions[id].processed == (if id in old(sessions) then old(sessions[id].processed) else []) + [event]
      ensures sessions[id].times == (if id in old(sessions) then old(sessions[id].times) else []) + [time]
      ensures sessions[id].Judged(v, if id in old(sessions) then old(sessions[id].raised) else [])
      ensures Remembers(eventIds.order, eventIds.at, old(eventIds.order), old(eventIds.at), eventId, now, later)
      ensures PushedOut(gone, old(sessions), old(evictedSummaries))
      ensures forall s :: s in old(ledger).active && s.sessionId != id && gone != Some(s) ==> unchanged(s)
    {
      hide Valid, Enter, Leave, SumsUp, SessionState.Valid;
      RememberEvent(eventId, now, later);
      var state;
      state, gone := GetOrCreate(id, created);
      v := Process(state, event, time);
    }

    /** Closes a session; its events are ignored from now on, at least as long as it is remembered. */
    method CloseSession(id: string) returns (summary: Option<Summary>)
      requires Valid()
      modifies this`sessions, this`ledger, this`closedSessions
      modifies ledger.active`previousAlerts, ledger.active`raised, ledger.active`held
      ensures Valid()
      ensures id !in old(sessions) ==>
                summary.None? && sessions == old(sessions) && ledger == old(ledger)
                && closedSessions == old(closedSessions)
      ensures id in old(sessions) ==>
                && summary.Some? && SumsUp(summary.value, old(sessions)[id])
                && sessions == old(sessions) - {id} && ledger == Leave(old(ledger), old(sessions)[id], Close)
                && Closed(closedSessions, old(closedSessions) + {id})
                && old(sessions[id].raised) <= old(sessions)[id].raised
      ensures forall s :: s in old(ledger).active && s.sessionId != id ==> unchanged(s)
    {
      hide SumsUp, Leave, SessionState.Valid;
      if id !in sessions {
        return None;
      }
      var state := Remove(id, Close);
      hide Valid;
      RememberClosed(id);
      var sum := Summarize(state);
      summary := Some(sum);
    }

    /** Nothing is forgotten while there is room, otherwise exactly 25,000 ids are. */
    ghost predicate Closed(ids: set<string>, all: set<string>) {
      if |all| <= 50_000 then ids == all else ids <= all && |ids| == |all| - 25_000
    }

    /** Half of the closed ids are forgotten when there are too many, whichever they are. */
    method RememberClosed(id: string)
      requires Valid()
      modifies this`closedSessions
      ensures Valid() && Closed(closedSessions, old(closedSessions) + {id})
    {
      hide StatesValid, Indexed, Balanced;
      var ids := closedSessions + {id};
      if |ids| > MAX_CLOSED {
        var remaining := FORGOTTEN;
        while remaining > 0
          invariant 0 <= remaining <= FORGOTTEN
          invariant ids <= old(closedSessions) + {id} && |ids| == |old(closedSessions) + {id}| - FORGOTTEN + remaining
        {
          var x :| x in ids;
          ids := ids - {x};
          remaining := remaining - 1;
        }
      }
      closedSessions := ids;
    }

    method SweepOne(id: string) returns (summary: Summary)
      requires Valid() && id in sessions
      modifies this`sessions, this`ledger
      modifies ledger.active`previousAlerts, ledger.active`raised, ledger.active`held
      ensures Valid() && sessions == old(sessions) - {id} && ledger == Leave(old(ledger), old(sessions)[id], Sweep)
      ensures SumsUp(summary, old(sessions)[id]) && old(sessions[id].raised) <= old(sessions)[id].raised
      ensures forall s :: s in old(ledger).active && s != old(sessions)[id] ==> unchanged(s)
      ensures old(sessions)[id] in old(ledger).active && ledger.active == old(ledger).active - {old(sessions)[id]}
      ensures ledger.created == old(ledger).created && ledger.swept == old(ledger).swept + {old(sessions)[id]}
      ensures ledger.closed == old(ledger).closed && ledger.evicted == old(ledger).evicted
    {
      hide Valid, SumsUp, SessionState.Valid;
      var state := Remove(id, Sweep);
      summary := Summarize(state);
    }

    /** The summaries are those of some sessions, each once. */
    ghost predicate SumUp(summaries: seq<Summary>, swept: seq<SessionState>)
      reads swept
    {
      && |summaries| == |swept|
      && (forall i, j :: 0 <= i < j < |swept| ==> swept[i] != swept[j])
      && forall i :: 0 <= i < |swept| ==> SumsUp(summaries[i], swept[i])
    }

    lemma SumUpNext(summaries: seq<Summary>, swept: seq<SessionState>, summary: Summary, state: SessionState)
      requires SumUp(summaries, swept) && SumsUp(summary, state) && state !in swept
      ensures SumUp(summaries + [summary], swept + [state])
    {
      hide SumsUp;
    }

    /** Evicts the sessions that have been idle for too long, and no others, with a summary for each. */
    method SweepIdle(now: real) returns (summaries: seq<Summary>, ghost swept: seq<SessionState>)
      requires Valid()
      modifies this`sessions, this`ledger
      modifies ledger.active`previousAlerts, ledger.active`raised, ledger.active`held
      ensures Valid() && ledger.created == old(ledger).created
      ensures ledger.closed == old(ledger).closed && ledger.evicted == old(ledger).evicted
      ensures forall id :: id in sessions <==>
                id in old(sessions) && now - old(sessions)[id].lastEventTime <= idleTimeout
      ensures forall id :: id in sessions ==> sessions[id] == old(sessions)[id]
      ensures SumUp(summaries, swept)
      ensures forall s :: s in swept <==> s in old(ledger).active && s !in ledger.active
      ensures forall s :: s in ledger.active ==> unchanged(s)
      ensures forall s :: s in swept ==> old(s.raised) <= s.raised && s in ledger.swept
    {
      hide Valid, SumsUp, SumUp, Leave, StillIdle;
      summaries, swept := [], [];
      ghost var before := sessions;
      var idle := set id | id in sessions && now - sessions[id].lastEventTime > idleTimeout;
      SumUpNone();
      IdleStart(sessions, idle, now);
      while idle != {}
        invariant Valid() && ledger.active <= old(ledger).active && ledger.created == old(ledger).created
        invariant ledger.closed == old(ledger).closed && ledger.evicted == old(ledger).evicted
        invariant StillIdle(before, sessions, idle, now) && SumUp(summaries, swept)
        invariant forall s :: s in swept <==> s in old(ledger).active && s !in ledger.active
        invariant forall s :: s in ledger.active ==> unchanged(s)
        invariant forall s :: s in swept ==> old(s.raised) <= s.raised && s in ledger.swept
        decreases |idle|
      {
        var id :| id in idle;
        IdleNext(before, sessions, idle, now, id);
        ghost var state := sessions[id];
        var summary := SweepOne(id);
        SumUpNext(summaries, swept, summary, state);
        summaries, swept := summaries + [summary], swept + [state];
        idle := idle - {id};
      }
      IdleEnd(before, sessions, now);
    }

    lemma SumUpNone()
      ensures SumUp([], [])
    {
    }

    /** All but the idle sessions still to go are in the table exactly when they are not idle. */
    ghost predicate StillIdle(before: Table, after: Table, idle: set<string>, now: real)
      reads before.Values`lastEventTime
    {
      && (forall id :: id in after ==> id in before && after[id] == before[id])
      && (forall id :: id in idle ==> id in after && now - before[id].lastEventTime > idleTimeout)
      && (forall id :: id in before && id !in idle ==> (id in after <==> now - before[id].lastEventTime <= idleTimeout))
    }

    lemma IdleStart(table: Table, idle: set<string>, now: real)
      requires idle == set id | id in table && now - table[id].lastEventTime > idleTimeout
      ensures StillIdle(table, table, idle, now)
    {
    }

    lemma IdleNext(before: Table, after: Table, idle: set<string>, now: real, id: string)
      requires StillIdle(before, after, idle, now) && id in idle
      ensures id in after && id in before && after[id] == before[id]
      ensures StillIdle(before, after - {id}, idle - {id}, now)
    {
    }

    lemma IdleEnd(before: Table, after: Table, now: real)
      requires StillIdle(before, after, {}, now)
      ensures forall id :: id in after <==> id in before && now - before[id].lastEventTime <= idleTimeout
      ensures forall id :: id in after ==> after[id] == before[id]
    {
    }

    /** Hands over the summaries of evicted sessions. */
    method DrainEvicted() returns (summaries: seq<Summary>)
      requires Valid()
      modifies this`evictedSummaries
      ensures Valid() && summaries == old(evictedSummaries) && evictedSummaries == []
    {
      summaries := evictedSummaries;
      evictedSummaries := [];
    }
  }
}
