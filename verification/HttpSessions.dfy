/** The session table of the HTTP decoy and the indexes kept beside it. */
module HttpSessions {
  import opened Options

  const MAX_SESSIONS: nat := 10_000
  const GLOBAL_CREDENTIAL_CAP: nat := 500_000
  const MAX_SESSIONS_PER_IP: nat := 50
  const MAX_CREDENTIALS: nat := 1000
  const SESSION_TTL: real := 86400.0

  datatype Credential = Credential(username: string, passwordHash: string, portal: string)

  datatype Session =
    Session(sourceIp: string, userAgent: string, requests: nat, seen: bool, credentials: seq<Credential>)

  type Table = map<string, Session>

  // ----- What the indexes stand for -----

  ghost function From(sessions: Table, ip: string): set<string> {
    set id | id in sessions && sessions[id].sourceIp == ip
  }

  /** The credentials of all sessions in the table. */
  ghost function CredentialSum(sessions: Table): nat
    decreases |sessions|
  {
    if sessions == map[] then 0
    else
      var id :| id in sessions;
      |sessions[id].credentials| + CredentialSum(sessions - {id})
  }

  lemma {:induction false} SumWithout(sessions: Table, id: string)
    requires id in sessions
    ensures CredentialSum(sessions) == |sessions[id].credentials| + CredentialSum(sessions - {id})
    decreases |sessions|
  {
    var first :| first in sessions &&
                 CredentialSum(sessions) == |sessions[first].credentials| + CredentialSum(sessions - {first});
    if first != id {
      SumWithout(sessions - {first}, id);
      SumWithout(sessions - {id}, first);
      assert sessions - {first} - {id} == sessions - {id} - {first};
    }
  }

  lemma SumWith(sessions: Table, id: string, session: Session)
    ensures CredentialSum(sessions[id := session]) ==
            |session.credentials| + CredentialSum(if id in sessions then sessions - {id} else sessions)
  {
    SumWithout(sessions[id := session], id);
    assert sessions[id := session] - {id} == if id in sessions then sessions - {id} else sessions;
  }

  /** The sessions that have not been idle for too long. */
  function Surviving(sessions: Table, lastActivity: map<string, real>, now: real): (r: Table)
    requires sessions.Keys <= lastActivity.Keys
    ensures r.Keys <= sessions.Keys
  {
    map id | id in sessions && now - lastActivity[id] <= SESSION_TTL :: sessions[id]
  }

  /** Those are the sessions that were active within the last day, each as it was. */
  lemma SurvivingExactly(sessions: Table, lastActivity: map<string, real>, now: real, id: string)
    requires sessions.Keys <= lastActivity.Keys
    ensures id in Surviving(sessions, lastActivity, now) <==> id in sessions && now - lastActivity[id] <= 86400.0
    ensures id in Surviving(sessions, lastActivity, now) ==>
              Surviving(sessions, lastActivity, now)[id] == sessions[id]
  {
  }

  lemma SurvivingSame(sessions: Table, a: map<string, real>, b: map<string, real>, now: real)
    requires sessions.Keys <= a.Keys && sessions.Keys <= b.Keys && forall id :: id in sessions ==> a[id] == b[id]
    ensures Surviving(sessions, a, now) == Surviving(sessions, b, now)
  {
  }

  ghost predicate PerIpAgrees(sessions: Table, perIp: map<string, int>) {
    forall ip ::
      && (ip in perIp ==> 0 < perIp[ip] <= MAX_SESSIONS_PER_IP)
      && (if ip == "" then |From(sessions, ip)| <= CountOf(perIp, ip) else |From(sessions, ip)| == CountOf(perIp, ip))
  }

  /** The cookie names a session of the same address. */
  predicate Owns(sessions: Table, cookie: Option<string>, sourceIp: string) {
    cookie.Some? && cookie.value in sessions && sessions[cookie.value].sourceIp == sourceIp
  }

  /** A cookie is good for the address that the session was made for, and for no other. */
  lemma OwnsExactly(sessions: Table, id: string, ip: string)
    ensures Owns(sessions, Some(id), ip) <==> id in sessions && ip == sessions[id].sourceIp
    ensures !Owns(sessions, None, ip)
  {
  }

  function Prefix(s: string, n: nat): (r: string)
    ensures r <= s && |r| == if |s| < n then |s| else n
  {
    if |s| <= n then s else s[..n]
  }

  ghost predicate CredentialsAgree(sessions: Table, total: int) {
    && CredentialSum(sessions) <= total <= GLOBAL_CREDENTIAL_CAP
    && forall id :: id in sessions ==> |sessions[id].credentials| <= MAX_CREDENTIALS
  }

  lemma DropCredentials(sessions: Table, total: int, id: string)
    requires CredentialsAgree(sessions, total) && id in sessions
    ensures CredentialsAgree(sessions - {id}, total)
  {
    SumWithout(sessions, id);
  }

  lemma SetCredentials(sessions: Table, total: int, id: string, session: Session, more: nat)
    requires CredentialsAgree(sessions, total) && (more == 0 || total + more <= GLOBAL_CREDENTIAL_CAP)
    requires |session.credentials| <= MAX_CREDENTIALS
    requires |session.credentials| == more + if id in sessions then |sessions[id].credentials| else 0
    ensures CredentialsAgree(sessions[id := session], total + more)
  {
    SumWith(sessions, id, session);
    if id in sessions {
      SumWithout(sessions, id);
    }
  }

  function CountOf(perIp: map<string, int>, ip: string): int {
    if ip in perIp then perIp[ip] else 0
  }

  function Decremented(perIp: map<string, int>, ip: string): map<string, int> {
    if ip == "" || ip !in perIp then perIp
    else if perIp[ip] - 1 <= 0 then perIp - {ip}
    else perIp[ip := perIp[ip] - 1]
  }

  lemma FromWithout(sessions: Table, id: string, ip: string)
    requires id in sessions
    ensures |From(sessions - {id}, ip)| == |From(sessions, ip)| - if ip == sessions[id].sourceIp then 1 else 0
  {
    if ip == sessions[id].sourceIp {
      assert From(sessions, ip) == From(sessions - {id}, ip) + {id};
    } else {
      assert From(sessions, ip) == From(sessions - {id}, ip);
    }
  }

  lemma FromWith(sessions: Table, id: string, session: Session, ip: string)
    requires id !in sessions
    ensures |From(sessions[id := session], ip)| == |From(sessions, ip)| + if ip == session.sourceIp then 1 else 0
  {
    assert sessions[id := session] - {id} == sessions;
    FromWithout(sessions[id := session], id, ip);
  }

  lemma DropAgrees(sessions: Table, perIp: map<string, int>, id: string)
    requires PerIpAgrees(sessions, perIp) && id in sessions
    ensures PerIpAgrees(sessions - {id}, Decremented(perIp, sessions[id].sourceIp))
  {
    hide From;
    forall ip
      ensures |From(sessions - {id}, ip)| == |From(sessions, ip)| - if ip == sessions[id].sourceIp then 1 else 0
    {
      FromWithout(sessions, id, ip);
    }
  }

  lemma AddAgrees(sessions: Table, perIp: map<string, int>, id: string, session: Session)
    requires PerIpAgrees(sessions, perIp) && id !in sessions
    requires CountOf(perIp, session.sourceIp) < MAX_SESSIONS_PER_IP
    ensures PerIpAgrees(sessions[id := session], perIp[session.sourceIp := CountOf(perIp, session.sourceIp) + 1])
  {
    hide From;
    forall ip
      ensures |From(sessions[id := session], ip)| == |From(sessions, ip)| + if ip == session.sourceIp then 1 else 0
    {
      FromWith(sessions, id, session, ip);
    }
  }

  /** A session that keeps its address can change otherwise. */
  lemma UpdateAgrees(sessions: Table, perIp: map<string, int>, id: string, session: Session)
    requires PerIpAgrees(sessions, perIp) && id in sessions && session.sourceIp == sessions[id].sourceIp
    ensures PerIpAgrees(sessions[id := session], perIp)
  {
    forall ip
      ensures From(sessions[id := session], ip) == From(sessions, ip)
    {
    }
  }

  /** What is left while the stale sessions go one by one. */
  ghost predicate Evicting(before: Table, was: map<string, real>, sessions: Table, lastActivity: map<string, real>,
                           stale: set<string>, now: real)
  {
    && before.Keys <= was.Keys && stale <= sessions.Keys <= before.Keys && sessions.Keys <= lastActivity.Keys
    && (forall id :: id in sessions ==> sessions[id] == before[id] && lastActivity[id] == was[id])
    && (forall id :: id in stale ==> now - was[id] > SESSION_TTL)
    && (forall id :: id in before && id !in stale ==> (id in sessions <==> now - was[id] <= SESSION_TTL))
  }

  lemma EvictingStart(sessions: Table, lastActivity: map<string, real>, stale: set<string>, now: real)
    requires sessions.Keys == lastActivity.Keys
    requires stale == set id | id in lastActivity && now - lastActivity[id] > SESSION_TTL
    ensures Evicting(sessions, lastActivity, sessions, lastActivity, stale, now)
  {
  }

  lemma EvictingNext(before: Table, was: map<string, real>, sessions: Table, lastActivity: map<string, real>,
                     stale: set<string>, now: real, id: string)
    requires Evicting(before, was, sessions, lastActivity, stale, now) && id in stale
    ensures id in sessions
    ensures Evicting(before, was, sessions - {id}, lastActivity - {id}, stale - {id}, now)
  {
  }

  lemma EvictingEnd(before: Table, was: map<string, real>, sessions: Table, lastActivity: map<string, real>, now: real)
    requires Evicting(before, was, sessions, lastActivity, {}, now)
    ensures before.Keys <= was.Keys && sessions == Surviving(before, was, now) && sessions.Keys <= lastActivity.Keys
    ensures forall id :: id in sessions ==> id in was && lastActivity[id] == was[id]
  {
  }

  lemma KeysAgree<A, B, C>(a: map<string, A>, b: map<string, B>, c: map<string, C>, id: string)
    requires a.Keys == b.Keys == c.Keys && id in a
    ensures (a - {id}).Keys == (b - {id}).Keys == (c - {id}).Keys && |a - {id}| == |a| - 1
  {
    assert (a - {id}).Keys == a.Keys - {id};
  }

  lemma KeysGrow<A, B, C>(a: map<string, A>, b: map<string, B>, c: map<string, C>, id: string, x: A, y: B, z: C)
    requires a.Keys == b.Keys == c.Keys && id !in a
    ensures a[id := x].Keys == b[id := y].Keys == c[id := z].Keys && |a[id := x]| == |a| + 1
  {
    assert a[id := x].Keys == a.Keys + {id};
  }

  /** Some of the times, each as it was. */
  predicate Part(times: map<string, real>, before: map<string, real>) {
    forall id :: id in times ==> id in before && times[id] == before[id]
  }

  class SessionTracker {
    var sessions: Table
    var lastActivity: map<string, real>
    var createdAt: map<string, real>
    var sessionsPerIp: map<string, int>
    var totalCredentials: int

    /** The indexes agree with the table. Only the empty address, which is never counted down, may be overcounted. */
    ghost predicate Valid()
      reads this
    {
      && sessions.Keys == lastActivity.Keys == createdAt.Keys
      && |sessions| <= MAX_SESSIONS
      && PerIpAgrees(sessions, sessionsPerIp)
      && CredentialsAgree(sessions, totalCredentials)
    }

    constructor ()
      ensures Valid() && sessions == map[] && sessionsPerIp == map[] && totalCredentials == 0
    {
      sessions, lastActivity, createdAt, sessionsPerIp, totalCredentials := map[], map[], map[], map[], 0;
      new;
      assert forall ip :: From(sessions, ip) == {};
    }

    /** Drops one session from the table and from every index. */
    method Drop(id: string)
      requires Valid() && id in sessions
      modifies this
      ensures Valid() && sessions == old(sessions) - {id}
      ensures lastActivity == old(lastActivity) - {id} && createdAt == old(createdAt) - {id}
      ensures totalCredentials == old(totalCredentials)
    {
      hide PerIpAgrees, CredentialsAgree, Decremented;
      DropCredentials(sessions, totalCredentials, id);
      DropAgrees(sessions, sessionsPerIp, id);
      KeysAgree(sessions, lastActivity, createdAt, id);
      var ip := sessions[id].sourceIp;
      sessions := sessions - {id};
      lastActivity := lastActivity - {id};
      createdAt := createdAt - {id};
      CountDown(ip);
    }

    /** Counts one session less for an address; the empty address is passed over. */
    method CountDown(ip: string)
      modifies this`sessionsPerIp
      ensures sessionsPerIp == Decremented(old(sessionsPerIp), ip)
    {
      if ip != "" && ip in sessionsPerIp {
        sessionsPerIp := sessionsPerIp[ip := sessionsPerIp[ip] - 1];
        if sessionsPerIp[ip] <= 0 {
          sessionsPerIp := sessionsPerIp - {ip};
        }
      }
    }

    /**
     Drops the sessions that have been idle for too long. The table is never over its limit
     then, so the hard cap of the tracker, which would drop the oldest sessions, has nothing to do.
     */
    method EvictStale(now: real)
      requires Valid()
      modifies this
      ensures Valid() && sessions == Surviving(old(sessions), old(lastActivity), now)
      ensures forall id :: id in sessions ==>
                lastActivity[id] == old(lastActivity)[id] && createdAt[id] == old(createdAt)[id]
      ensures totalCredentials == old(totalCredentials)
    {
      hide PerIpAgrees, CredentialsAgree;
      var stale := set id | id in lastActivity && now - lastActivity[id] > SESSION_TTL;
      EvictingStart(sessions, lastActivity, stale, now);
      hide Evicting;
      while stale != {}
        invariant Valid() && totalCredentials == old(totalCredentials)
        invariant Evicting(old(sessions), old(lastActivity), sessions, lastActivity, stale, now)
        invariant Part(createdAt, old(createdAt))
        decreases |stale|
      {
        var id :| id in stale;
        EvictingNext(old(sessions), old(lastActivity), sessions, lastActivity, stale, now, id);
        Drop(id);
        stale := stale - {id};
      }
      EvictingEnd(old(sessions), old(lastActivity), sessions, lastActivity, now);
      assert |sessions| <= MAX_SESSIONS;
    }

    /** Adds a session to the table and to every index. */
    method Add(id: string, session: Session, now: real)
      requires Valid() && id !in sessions && |sessions| < MAX_SESSIONS && session.credentials == []
      requires CountOf(sessionsPerIp, session.sourceIp) < MAX_SESSIONS_PER_IP
      modifies this
      ensures Valid() && sessions == old(sessions)[id := session]
      ensures lastActivity == old(lastActivity)[id := now] && createdAt == old(createdAt)[id := now]
      ensures totalCredentials == old(totalCredentials)
    {
      hide PerIpAgrees, CredentialsAgree;
      SetCredentials(sessions, totalCredentials, id, session, 0);
      AddAgrees(sessions, sessionsPerIp, id, session);
      KeysGrow(sessions, lastActivity, createdAt, id, session, now, now);
      var ip := session.sourceIp;
      sessions := sessions[id := session];
      lastActivity := lastActivity[id := now];
      createdAt := createdAt[id := now];
      sessionsPerIp := sessionsPerIp[ip := CountOf(sessionsPerIp, ip) + 1];
    }

    /**
     Finds the session of a cookie that its address owns, or creates one under a fresh id. When
     the table is full even after the idle sessions are gone, or the address has as many live
     sessions as it may have, the new session is returned but not kept.
     */
    method GetOrCreateSession(sourceIp: string, userAgent: string, cookie: Option<string>, freshId: string,
                              now: real, later: real, latest: real)
      returns (id: string, session: Session, rateLimited: bool)
      requires Valid() && freshId !in sessions
      modifies this
      ensures Valid() && totalCredentials == old(totalCredentials)
      ensures var alive := Surviving(old(sessions), old(lastActivity), now);
              if Owns(alive, cookie, sourceIp) then
                && id == cookie.value && session == alive[id] && !rateLimited
                && sessions == alive && Activity(id, latest, old(lastActivity)) && Part(createdAt, old(createdAt))
              else
                var kept := if |alive| >= 10_000 then Surviving(alive, old(lastActivity), later) else alive;
                && id == freshId && session == Session(sourceIp, Prefix(userAgent, 512), 0, false, [])
                && sessions == (if rateLimited then kept else kept[freshId := session])
                && Activity(id, latest, old(lastActivity))
                && (forall other :: other in sessions ==>
                      createdAt[other] == if other == id then latest else old(createdAt)[other])
                && (sourceIp != "" ==>
                      (rateLimited <==> |kept| >= 10_000 || |From(kept, sourceIp)| >= 50))
    {
      hide CredentialsAgree, From, PerIpAgrees, Surviving, Prefix;
      EvictStale(now);
      if Owns(sessions, cookie, sourceIp) {
        Touch(cookie.value, latest);
        return cookie.value, sessions[cookie.value], false;
      }
      SurvivingSame(sessions, lastActivity, old(lastActivity), later);
      id := freshId;
      session := Session(sourceIp, Prefix(userAgent, 512), 0, false, []);
      rateLimited := Create(id, session, later, latest);
    }

    /** Only one session's activity is new. */
    predicate Activity(id: string, now: real, before: map<string, real>)
      reads this`lastActivity
    {
      forall other :: other in lastActivity ==>
        if other == id then lastActivity[id] == now else other in before && lastActivity[other] == before[other]
    }

    method Touch(id: string, now: real)
      requires Valid() && id in sessions
      modifies this`lastActivity
      ensures Valid() && lastActivity == old(lastActivity)[id := now]
    {
      lastActivity := lastActivity[id := now];
    }

    /** Keeps a new session if there is room for it. */
    method Create(id: string, session: Session, later: real, latest: real) returns (rateLimited: bool)
      requires Valid() && id !in sessions && session.credentials == []
      modifies this
      ensures Valid() && totalCredentials == old(totalCredentials)
      ensures Activity(id, latest, old(lastActivity))
      ensures forall other :: other in sessions ==>
                createdAt[other] == if other == id then latest else old(createdAt)[other]
      ensures var kept := if |old(sessions)| >= MAX_SESSIONS then Surviving(old(sessions), old(lastActivity), later)
                          else old(sessions);
              && sessions == (if rateLimited then kept else kept[id := session])
              && (session.sourceIp != "" ==>
                    (rateLimited <==>
                     |kept| >= MAX_SESSIONS || |From(kept, session.sourceIp)| >= MAX_SESSIONS_PER_IP))
    {
      hide CredentialsAgree, From;
      if |sessions| >= MAX_SESSIONS {
        EvictStale(later);
        if |sessions| >= MAX_SESSIONS {
          return true;
        }
      }
      if CountOf(sessionsPerIp, session.sourceIp) >= MAX_SESSIONS_PER_IP {
        return true;
      }
      Add(id, session, latest);
      return false;
    }

    /** Keeps a submitted credential, up to a limit per session and one for the life of the tracker. */
    method RecordCredential(id: string, credential: Credential) returns (kept: bool)
      requires Valid()
      modifies this`sessions, this`totalCredentials
      ensures Valid()
      ensures kept <==> id in old(sessions) && |old(sessions)[id].credentials| < 1_000
                        && old(totalCredentials) < 500_000
      ensures totalCredentials == old(totalCredentials) + if kept then 1 else 0
      ensures sessions == if !kept then old(sessions)
                          else old(sessions)[id := old(sessions)[id].(
                                               credentials := old(sessions)[id].credentials + [credential])]
    {
      if id !in sessions || |sessions[id].credentials| >= MAX_CREDENTIALS || totalCredentials >= GLOBAL_CREDENTIAL_CAP {
        return false;
      }
      var session := sessions[id].(credentials := sessions[id].credentials + [credential]);
      Change(id, session, 1);
      return true;
    }

    /** Replaces a session by one of the same address with some credentials more, and counts them. */
    method Change(id: string, session: Session, more: nat)
      requires Valid() && id in sessions && session.sourceIp == sessions[id].sourceIp
      requires |session.credentials| == |sessions[id].credentials| + more <= MAX_CREDENTIALS
      requires totalCredentials + more <= GLOBAL_CREDENTIAL_CAP
      modifies this`sessions, this`totalCredentials
      ensures Valid() && sessions == old(sessions)[id := session]
      ensures totalCredentials == old(totalCredentials) + more
    {
      hide PerIpAgrees, CredentialsAgree;
      SetCredentials(sessions, totalCredentials, id, session, more);
      UpdateAgrees(sessions, sessionsPerIp, id, session);
      sessions := sessions[id := session];
      totalCredentials := totalCredentials + more;
    }

    /** True for the first call on a session only. */
    method MarkSeen(id: string) returns (first: bool)
      requires Valid()
      modifies this`sessions, this`totalCredentials
      ensures Valid() && totalCredentials == old(totalCredentials)
      ensures first <==> id in old(sessions) && !old(sessions)[id].seen
      ensures sessions == if first then old(sessions)[id := old(sessions)[id].(seen := true)] else old(sessions)
    {
      if id !in sessions || sessions[id].seen {
        return false;
      }
      Change(id, sessions[id].(seen := true), 0);
      return true;
    }

    /** Counts one request more, and changes nothing else. */
    method RecordRequest(id: string)
      requires Valid()
      modifies this`sessions, this`totalCredentials
      ensures Valid() && totalCredentials == old(totalCredentials)
      ensures sessions == if id !in old(sessions) then old(sessions)
                          else old(sessions)[id := old(sessions)[id].(requests := old(sessions)[id].requests + 1)]
    {
      if id in sessions {
        Change(id, sessions[id].(requests := sessions[id].requests + 1), 0);
      }
    }
  }
}
