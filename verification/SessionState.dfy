/** The accumulated state of one attacker session, and the alerts it raises. */
module SessionState {
  import opened Text

  datatype Technique = Technique(id: string, tactic: string)

  datatype Event = Event(eventType: string, techniques: seq<Technique>, tools: seq<string>, severity: string,
                         command: string)

  datatype AlertKey = KillChain | Progression(n: nat) | HighScore | C2Tool

  datatype Verdict = Verdict(killChain: bool, phaseCount: nat, progression: seq<string>, severity: string,
                             score: real, classification: string, alerts: seq<AlertKey>)

  const EMPTY_VERDICT: Verdict := Verdict(false, 0, [], "info", 0.0, "unknown", [])

  const EVASION := "defense-evasion"
  const MAX_ALERTS: nat := 200

  const PHASES: set<string> := {
    "discovery", "credential-access", "privilege-escalation", "execution", "lateral-movement",
    "command-and-control", "collection", "exfiltration", "persistence", "defense-evasion", "impact" }

  const PROGRESSIONS: seq<set<string>> := [
    {"discovery", "credential-access", "lateral-movement"},
    {"discovery", "credential-access", "exfiltration"},
    {"execution", "persistence", "defense-evasion"},
    {"credential-access", "lateral-movement", "collection"},
    {"discovery", "privilege-escalation", "persistence"},
    {"privilege-escalation", "credential-access", "lateral-movement"} ]

  const SENSITIVE: seq<string> :=
    ["/etc/shadow", "/etc/gshadow", ".ssh/id_rsa", ".aws/credentials", ".kube/config", "169.254.169.254"]

  function Rank(severity: string): nat {
    if severity == "low" then 1
    else if severity == "medium" then 2
    else if severity == "high" then 3
    else if severity == "critical" then 4
    else 0
  }

  predicate Sensitive(command: string) {
    exists i :: 0 <= i < |SENSITIVE| && Contains(command, SENSITIVE[i])
  }

  /** Appends to a queue that forgets its oldest elements. */
  function Push<T>(s: seq<T>, x: T, max: nat): seq<T> {
    if |s| < max then s + [x] else (s + [x])[1..]
  }

  // ----- The first of each name, in a queue that forgets -----

  predicate Named<T>(s: seq<T>, name: T -> string, n: string) {
    exists i :: 0 <= i < |s| && name(s[i]) == n
  }

  /** The first element of each name, in order; elements without a name do not count. */
  function Firsts<T>(s: seq<T>, name: T -> string): seq<T> {
    if s == [] then []
    else
      var r, x := Firsts(s[..|s| - 1], name), s[|s| - 1];
      if name(x) == "" || Named(r, name, name(x)) then r else r + [x]
  }

  lemma FirstsOne<T>(s: seq<T>, name: T -> string, x: T)
    ensures var r := Firsts(s, name);
            Firsts(s + [x], name) == if name(x) == "" || Named(r, name, name(x)) then r else r + [x]
  {
    assert (s + [x])[..|s|] == s;
  }

  function Newest<T>(s: seq<T>, max: nat): seq<T> {
    if |s| <= max then s else s[|s| - max..]
  }

  lemma PushNewest<T>(s: seq<T>, x: T, max: nat)
    requires max > 0
    ensures Push(Newest(s, max), x, max) == Newest(s + [x], max)
  {
  }

  lemma NamedOne<T>(s: seq<T>, name: T -> string, x: T, n: string)
    ensures Named(s + [x], name, n) <==> Named(s, name, n) || name(x) == n
  {
    if i :| 0 <= i < |s| && name(s[i]) == n {
      assert name((s + [x])[i]) == n;
    }
    assert (s + [x])[|s|] == x;
  }

  /** A name has a first element exactly when some element has it. */
  lemma {:induction false} FirstsNamed<T>(s: seq<T>, name: T -> string, n: string)
    requires n != ""
    ensures Named(Firsts(s, name), name, n) <==> Named(s, name, n)
  {
    if s != [] {
      var before, x := s[..|s| - 1], s[|s| - 1];
      FirstsNamed(before, name, n);
      FirstsOne(before, name, x);
      NamedOne(before, name, x, n);
      NamedOne(Firsts(before, name), name, x, n);
      assert s == before + [x];
    }
  }

  /** A set of the names in a sequence of first elements. */
  ghost predicate NamesAre<T>(seen: set<string>, firsts: seq<T>, name: T -> string) {
    forall n :: n in seen <==> Named(firsts, name, n)
  }

  /** One element more: a queue of first elements takes it in if its name is new. */
  lemma NamesNext<T>(seen: set<string>, s: seq<T>, name: T -> string, x: T, max: nat)
    requires NamesAre(seen, Firsts(s, name), name) && max > 0
    ensures name(x) == "" || name(x) in seen ==> Firsts(s + [x], name) == Firsts(s, name)
    ensures name(x) != "" && name(x) !in seen ==>
              && Firsts(s + [x], name) == Firsts(s, name) + [x]
              && Newest(Firsts(s, name) + [x], max) == Push(Newest(Firsts(s, name), max), x, max)
              && NamesAre(seen + {name(x)}, Firsts(s, name) + [x], name)
  {
    var firsts := Firsts(s, name);
    FirstsOne(s, name, x);
    PushNewest(firsts, x, max);
    forall n
      ensures Named(firsts + [x], name, n) <==> Named(firsts, name, n) || name(x) == n
    {
      NamedOne(firsts, name, x, n);
    }
  }

  /** The k-th element is the first of its name. */
  predicate IsFirst<T>(s: seq<T>, name: T -> string, k: int) {
    0 <= k < |s| && name(s[k]) != "" && forall j :: 0 <= j < k ==> name(s[j]) != name(s[k])
  }

  lemma FirstBefore<T>(s: seq<T>, name: T -> string, k: int)
    requires s != [] && 0 <= k < |s| - 1
    ensures IsFirst(s, name, k) <==> IsFirst(s[..|s| - 1], name, k)
  {
    var before := s[..|s| - 1];
    assert forall j :: 0 <= j <= k ==> before[j] == s[j];
  }

  lemma FirstLast<T>(s: seq<T>, name: T -> string)
    requires s != []
    ensures var n := |s| - 1;
            IsFirst(s, name, n) <==> name(s[n]) != "" && !Named(Firsts(s[..n], name), name, name(s[n]))
  {
    var n := |s| - 1;
    if name(s[n]) != "" {
      FirstsNamed(s[..n], name, name(s[n]));
    }
    assert forall j :: 0 <= j < n ==> s[..n][j] == s[j];
  }

  /** No element of the same name comes before a first element. */
  lemma {:induction false} FirstsFrom<T>(s: seq<T>, name: T -> string, i: nat) returns (k: nat)
    requires i < |Firsts(s, name)|
    ensures IsFirst(s, name, k) && Firsts(s, name)[i] == s[k]
  {
    var n := |s| - 1;
    FirstLast(s, name);
    if i < |Firsts(s[..n], name)| {
      k := FirstsFrom(s[..n], name, i);
      FirstBefore(s, name, k);
    } else {
      k := n;
    }
  }

  /** An element of which that holds is among the first. */
  lemma {:induction false} FirstsTo<T>(s: seq<T>, name: T -> string, k: nat)
    requires IsFirst(s, name, k)
    ensures s[k] in Firsts(s, name)
  {
    var n := |s| - 1;
    FirstLast(s, name);
    if k < n {
      FirstBefore(s, name, k);
      FirstsTo(s[..n], name, k);
    }
  }

  // ----- What the state is of the events processed -----

  function MaxRank(h: seq<Event>): nat {
    if h == [] then 0
    else
      var rest, r := MaxRank(h[..|h| - 1]), Rank(h[|h| - 1].severity);
      if r > rest then r else rest
  }

  function IdOf(t: Technique): string {
    t.id
  }

  function TacticOf(t: Technique): string {
    t.tactic
  }

  function Itself(name: string): string {
    name
  }

  /** The techniques of all events, in order. */
  function AllTechniques(h: seq<Event>): seq<Technique> {
    if h == [] then [] else AllTechniques(h[..|h| - 1]) + h[|h| - 1].techniques
  }

  function AllTools(h: seq<Event>): seq<string> {
    if h == [] then [] else AllTools(h[..|h| - 1]) + h[|h| - 1].tools
  }

  ghost predicate ShowsTactic(e: Event, tactic: string) {
    tactic != "" && Named(e.techniques, TacticOf, tactic)
  }

  lemma NamedConcat<T>(a: seq<T>, b: seq<T>, name: T -> string, n: string)
    ensures Named(a + b, name, n) <==> Named(a, name, n) || Named(b, name, n)
  {
    if i :| 0 <= i < |a| && name(a[i]) == n {
      assert name((a + b)[i]) == n;
    }
    if i :| 0 <= i < |b| && name(b[i]) == n {
      assert name((a + b)[|a| + i]) == n;
    }
  }

  /** A phase has been seen exactly when some event showed a technique of it. */
  lemma {:induction false} PhasesMembers(h: seq<Event>, tactic: string)
    requires tactic != ""
    ensures Named(AllTechniques(h), TacticOf, tactic) <==> exists i :: 0 <= i < |h| && ShowsTactic(h[i], tactic)
  {
    if h != [] {
      var n := |h| - 1;
      PhasesMembers(h[..n], tactic);
      NamedConcat(AllTechniques(h[..n]), h[n].techniques, TacticOf, tactic);
      if i :| 0 <= i < |h| && ShowsTactic(h[i], tactic) {
        assert i < n ==> ShowsTactic(h[..n][i], tactic);
      }
    }
  }

  predicate Targets(e: Event) {
    e.command != "" && Sensitive(e.command)
  }

  predicate Targeted(h: seq<Event>) {
    h != [] && (Targeted(h[..|h| - 1]) || Targets(h[|h| - 1]))
  }

  /** How long a queue is that has been given n elements. */
  function Commands(h: seq<Event>): nat {
    if h == [] then 0 else Commands(h[..|h| - 1]) + if Contains(h[|h| - 1].eventType, "command") then 1 else 0
  }

  /** The times of the commands in a history. */
  function CommandTimes(h: seq<Event>, times: seq<real>): (r: seq<real>)
    requires |times| == |h|
    ensures |r| == Commands(h)
  {
    if h == [] then []
    else
      var n := |h| - 1;
      CommandTimes(h[..n], times[..n]) + if Contains(h[n].eventType, "command") then [times[n]] else []
  }

  lemma OneMoreTime(h: seq<Event>, times: seq<real>, e: Event, now: real)
    requires |times| == |h|
    ensures CommandTimes(h + [e], times + [now]) ==
            CommandTimes(h, times) + if Contains(e.eventType, "command") then [now] else []
  {
    assert (h + [e])[..|h|] == h && (times + [now])[..|times|] == times;
  }

  /** The severities, lowest first; anything else ranks like "info". */
  lemma RankOrder(severity: string)
    ensures Rank("info") == 0 && Rank("low") == 1 && Rank("medium") == 2 && Rank("high") == 3 && Rank("critical") == 4
    ensures severity != "low" && severity != "medium" && severity != "high" && severity != "critical" ==>
              Rank(severity) == 0
  {
    assert "info"[0] != "high"[0] && "medium"[0] == 'm' && "low"[0] == 'l';
  }

  /** Where the commands of a history stand: the events whose type names one. */
  function CommandsAt(h: seq<Event>): set<nat> {
    set i: nat | i < |h| && Contains(h[i].eventType, "command")
  }

  /** The commands are those events. */
  lemma {:induction false} CommandsCounted(h: seq<Event>)
    ensures Commands(h) == |CommandsAt(h)|
  {
    hide Contains;
    if h != [] {
      var n := |h| - 1;
      CommandsCounted(h[..n]);
      if Contains(h[n].eventType, "command") {
        assert CommandsAt(h) == CommandsAt(h[..n]) + {n};
      } else {
        assert CommandsAt(h) == CommandsAt(h[..n]);
      }
    }
  }

  /** A history has a sensitive target exactly if the command of some event names one. */
  lemma {:induction false} TargetedExactly(h: seq<Event>)
    ensures Targeted(h) <==> exists i :: 0 <= i < |h| && Targets(h[i])
  {
    hide Targets;
    if h != [] {
      var n := |h| - 1;
      TargetedExactly(h[..n]);
      if i :| 0 <= i < |h| && Targets(h[i]) {
        assert i < n ==> Targets(h[..n][i]);
      }
    }
  }

  /** The tools are those of the events. */
  lemma {:induction false} ToolsMembers(h: seq<Event>, tool: string)
    ensures tool in AllTools(h) <==> exists i :: 0 <= i < |h| && tool in h[i].tools
  {
    if h != [] {
      var n := |h| - 1;
      ToolsMembers(h[..n], tool);
      if i :| 0 <= i < |h| && tool in h[i].tools {
        assert i < n ==> tool in h[..n][i].tools;
      }
    }
  }

  /** The recorded maximum ranks at least as high as every event processed, and as high as one of them or "info". */
  lemma {:induction false} MaxRankIsMax(h: seq<Event>)
    ensures forall i :: 0 <= i < |h| ==> Rank(h[i].severity) <= MaxRank(h)
    ensures MaxRank(h) == 0 || exists i :: 0 <= i < |h| && Rank(h[i].severity) == MaxRank(h)
  {
    if h != [] {
      var n := |h| - 1;
      MaxRankIsMax(h[..n]);
      if MaxRank(h) == MaxRank(h[..n]) {
        if MaxRank(h) > 0 {
          var i :| 0 <= i < n && Rank(h[..n][i].severity) == MaxRank(h);
          assert Rank(h[i].severity) == MaxRank(h);
        }
      } else {
        assert Rank(h[n].severity) == MaxRank(h);
      }
    }
  }

  lemma OneMore(h: seq<Event>, e: Event)
    ensures MaxRank(h + [e]) == if Rank(e.severity) > MaxRank(h) then Rank(e.severity) else MaxRank(h)
    ensures Commands(h + [e]) == Commands(h) + if Contains(e.eventType, "command") then 1 else 0
    ensures Targeted(h + [e]) <==> Targeted(h) || Targets(e)
  {
    assert (h + [e])[..|h|] == h;
  }

  lemma OneMoreSeen(h: seq<Event>, e: Event)
    ensures AllTechniques(h + [e]) == AllTechniques(h) + e.techniques
    ensures AllTools(h + [e]) == AllTools(h) + e.tools
  {
    assert (h + [e])[..|h|] == h;
  }

  predicate NoRepeats(s: seq<AlertKey>) {
    forall i, j :: 0 <= i < j < |s| ==> s[i] != s[j]
  }

  function AllKeys(): set<AlertKey> {
    {KillChain, HighScore, C2Tool} + set n | 0 <= n < |PROGRESSIONS| :: Progression(n)
  }

  lemma {:induction false} FewAlerts(s: seq<AlertKey>, keys: set<AlertKey>)
    requires NoRepeats(s) && forall i :: 0 <= i < |s| ==> s[i] in keys
    ensures |s| <= |keys|
  {
    if s != [] {
      var n := |s| - 1;
      FewAlerts(s[..n], keys - {s[n]});
    }
  }

  lemma KeysBounded()
    ensures |AllKeys()| <= 9
  {
    var p := {Progression(0), Progression(1), Progression(2), Progression(3), Progression(4), Progression(5)};
    assert AllKeys() == {KillChain, HighScore, C2Tool} + p;
    assert |{KillChain, HighScore, C2Tool}| == 3;
  }

  /** The transitions name the tactics of the techniques, one by one. */
  ghost predicate InStep(transitions: seq<(real, string)>, ts: seq<Technique>) {
    |transitions| == |ts| && forall i :: 0 <= i < |ts| ==> transitions[i].1 == ts[i].tactic
  }

  lemma InStepPush(transitions: seq<(real, string)>, ts: seq<Technique>, now: real, t: Technique, max: nat)
    requires InStep(transitions, ts)
    ensures InStep(Push(transitions, (now, t.tactic), max), Push(ts, t, max))
  {
    assert InStep(transitions + [(now, t.tactic)], ts + [t]);
  }

  /** An average compared with a bound: the sum is compared with the bound times the number. */
  lemma Compare(a: real, b: real, x: real)
    requires b > 0.0
    ensures (a / b <= x <==> a <= x * b) && (a / b < x <==> a < x * b)
  {
    var q := a / b;
    assert q * b == a;
    assert q <= x ==> q * b <= x * b;
    assert q < x ==> q * b < x * b;
    assert x < q ==> x * b < q * b;
    assert x <= q ==> x * b <= q * b;
  }

  lemma Quotient(a: real, b: real)
    requires b > 0.0
    ensures (a / b <= 0.0 <==> a <= 0.0) && (a / b < 1.0 <==> a < b)
    ensures (a / b <= 30.0 <==> a <= 30.0 * b) && (a / b <= 60.0 <==> a <= 60.0 * b)
  {
    Compare(a, b, 0.0);
    Compare(a, b, 1.0);
    Compare(a, b, 30.0);
    Compare(a, b, 60.0);
  }

  class SessionState {
    const sessionId: string
    const startTime: real
    const toolCategories: map<string, string>
    var lastEventTime: real
    var eventCount: nat
    var commandCount: nat
    var phasesSeen: set<string>
    var techniquesSeen: seq<Technique>
    var techniqueIdsSeen: set<string>
    var toolSignatures: seq<string>
    var toolNamesSeen: set<string>
    var maxSeverity: string
    var commandTimestamps: seq<real>
    var phaseTransitions: seq<(real, string)>
    var hasEvasion: bool
    var hasSensitiveTarget: bool
    var previousAlerts: seq<AlertKey>

    ghost var processed: seq<Event>
    ghost var times: seq<real> // when each of them was processed
    ghost var raised: seq<AlertKey> // the alerts of all verdicts so far
    ghost var held: set<AlertKey> // the alert conditions that held at some verdict

    ghost predicate Valid()
      reads this
    {
      Counted(processed, times) && Seen(processed) && AlertsValid()
    }

    /** The counters and marks are those of a history. */
    ghost predicate Counted(h: seq<Event>, times: seq<real>)
      reads this`eventCount, this`commandCount, this`commandTimestamps, this`maxSeverity, this`hasSensitiveTarget,
            this`lastEventTime
    {
      Timed(h, times) && Marked(h)
    }

    /** The latest thousand commands have their times. */
    ghost predicate Timed(h: seq<Event>, times: seq<real>)
      reads this`eventCount, this`commandCount, this`commandTimestamps, this`lastEventTime
    {
      && |times| == |h| && lastEventTime == (if times == [] then startTime else times[|times| - 1])
      && eventCount == |h| && commandCount == Commands(h)
      && commandTimestamps == Newest(CommandTimes(h, times), 1000)
    }

    ghost predicate Marked(h: seq<Event>)
      reads this`maxSeverity, this`hasSensitiveTarget
    {
      Rank(maxSeverity) == MaxRank(h) && (hasSensitiveTarget <==> Targeted(h))
    }

    /** What was seen is what a history shows. */
    ghost predicate Seen(h: seq<Event>)
      reads this`phasesSeen, this`phaseTransitions, this`hasEvasion, this`techniquesSeen, this`techniqueIdsSeen,
            this`toolSignatures, this`toolNamesSeen
    {
      PhasesAre(AllTechniques(h)) && TechniquesAre(AllTechniques(h)) && ToolsAre(AllTools(h))
    }

    /** The phases are the tactics of the techniques; the latest hundred transitions name them in order. */
    ghost predicate PhasesAre(ts: seq<Technique>)
      reads this`phasesSeen, this`phaseTransitions, this`hasEvasion
    {
      var firsts := Firsts(ts, TacticOf);
      && NamesAre(phasesSeen, firsts, TacticOf)
      && (hasEvasion <==> EVASION in phasesSeen)
      && InStep(phaseTransitions, Newest(firsts, 100))
    }

    /** The queue holds the first technique of each id, the latest 500 of them. */
    ghost predicate TechniquesAre(ts: seq<Technique>)
      reads this`techniquesSeen, this`techniqueIdsSeen
    {
      var firsts := Firsts(ts, IdOf);
      techniquesSeen == Newest(firsts, 500) && NamesAre(techniqueIdsSeen, firsts, IdOf)
    }

    /** The queue holds each tool name once, the latest 200 of them. */
    ghost predicate ToolsAre(tools: seq<string>)
      reads this`toolSignatures, this`toolNamesSeen
    {
      var firsts := Firsts(tools, Itself);
      toolSignatures == Newest(firsts, 200) && NamesAre(toolNamesSeen, firsts, Itself)
    }

    /** Every condition that held at a verdict was raised, once; nothing else was, and nothing is forgotten. */
    ghost predicate AlertsValid()
      reads this`previousAlerts, this`raised, this`held
    {
      && previousAlerts == raised && NoRepeats(raised)
      && (forall k :: k in raised <==> k in held) && held <= AllKeys()
    }

    constructor (sessionId: string, now: real, toolCategories: map<string, string>)
      ensures Valid() && processed == [] && times == [] && raised == [] && held == {}
      ensures this.sessionId == sessionId && startTime == lastEventTime == now && this.toolCategories == toolCategories
    {
      this.sessionId, this.startTime, this.lastEventTime := sessionId, now, now;
      this.toolCategories := toolCategories;
      eventCount, commandCount, phasesSeen := 0, 0, {};
      techniquesSeen, techniqueIdsSeen, toolSignatures, toolNamesSeen := [], {}, [], {};
      maxSeverity, commandTimestamps, phaseTransitions := "info", [], [];
      hasEvasion, hasSensitiveTarget, previousAlerts := false, false, [];
      processed, times, raised, held := [], [], [], {};
    }

    // ----- Updating -----

    method AddTechnique(t: Technique, ghost ts: seq<Technique>)
      requires TechniquesAre(ts)
      modifies this`techniquesSeen, this`techniqueIdsSeen
      ensures TechniquesAre(ts + [t])
    {
      NamesNext(techniqueIdsSeen, ts, IdOf, t, 500);
      hide NamesAre, Firsts, Newest, Push;
      if t.id != "" && t.id !in techniqueIdsSeen {
        techniquesSeen := Push(techniquesSeen, t, 500);
        techniqueIdsSeen := techniqueIdsSeen + {t.id};
      }
    }

    method AddPhase(t: Technique, ghost ts: seq<Technique>, now: real)
      requires PhasesAre(ts)
      modifies this`phasesSeen, this`phaseTransitions, this`hasEvasion
      ensures PhasesAre(ts + [t])
    {
      NamesNext(phasesSeen, ts, TacticOf, t, 100);
      InStepPush(phaseTransitions, Newest(Firsts(ts, TacticOf), 100), now, t, 100);
      hide NamesAre, Firsts, Newest, Push, InStep;
      if t.tactic != "" {
        SeePhase(t.tactic, now);
      }
    }

    /** Notes a phase, and the transition to it if it is new. */
    method SeePhase(tactic: string, now: real)
      modifies this`phasesSeen, this`phaseTransitions, this`hasEvasion
      ensures phasesSeen == old(phasesSeen) + {tactic} && (tactic in old(phasesSeen) ==> phasesSeen == old(phasesSeen))
      ensures phaseTransitions == if tactic in old(phasesSeen) then old(phaseTransitions)
                                  else Push(old(phaseTransitions), (now, tactic), 100)
      ensures hasEvasion == (old(hasEvasion) || tactic == EVASION)
    {
      hide Push;
      if tactic !in phasesSeen {
        phaseTransitions := Push(phaseTransitions, (now, tactic), 100);
      }
      phasesSeen := phasesSeen + {tactic};
      if tactic == EVASION {
        hasEvasion := true;
      }
    }

    method AddTechniques(ts: seq<Technique>, ghost before: seq<Technique>, now: real)
      requires TechniquesAre(before) && PhasesAre(before)
      modifies this`techniquesSeen, this`techniqueIdsSeen, this`phasesSeen, this`phaseTransitions, this`hasEvasion
      ensures TechniquesAre(before + ts) && PhasesAre(before + ts)
    {
      hide TechniquesAre, PhasesAre;
      assert before + ts[..0] == before;
      for i := 0 to |ts|
        invariant TechniquesAre(before + ts[..i]) && PhasesAre(before + ts[..i])
      {
        assert before + ts[..i + 1] == before + ts[..i] + [ts[i]];
        AddTechnique(ts[i], before + ts[..i]);
        AddPhase(ts[i], before + ts[..i], now);
      }
      assert ts[..|ts|] == ts;
    }

    method AddTool(tool: string, ghost tools: seq<string>)
      requires ToolsAre(tools)
      modifies this`toolSignatures, this`toolNamesSeen
      ensures ToolsAre(tools + [tool])
    {
      NamesNext(toolNamesSeen, tools, Itself, tool, 200);
      hide NamesAre, Firsts, Newest, Push;
      if tool != "" && tool !in toolNamesSeen {
        toolSignatures := Push(toolSignatures, tool, 200);
        toolNamesSeen := toolNamesSeen + {tool};
      }
    }

    method AddTools(tools: seq<string>, ghost before: seq<string>)
      requires ToolsAre(before)
      modifies this`toolSignatures, this`toolNamesSeen
      ensures ToolsAre(before + tools)
    {
      hide ToolsAre;
      assert before + tools[..0] == before;
      for i := 0 to |tools|
        invariant ToolsAre(before + tools[..i])
      {
        assert before + tools[..i + 1] == before + tools[..i] + [tools[i]];
        AddTool(tools[i], before + tools[..i]);
      }
      assert tools[..|tools|] == tools;
    }

    /** Counts an event, and keeps the time of a command. */
    method Count(ghost h: seq<Event>, ghost times: seq<real>, event: Event, now: real)
      requires Timed(h, times)
      modifies this`lastEventTime, this`eventCount, this`commandCount, this`commandTimestamps
      ensures Timed(h + [event], times + [now])
    {
      OneMore(h, event);
      OneMoreTime(h, times, event, now);
      PushNewest(CommandTimes(h, times), now, 1000);
      assert CommandTimes(h, times) + [] == CommandTimes(h, times);
      hide Contains, MaxRank, Commands, Targeted, CommandTimes, Newest, Push, Sensitive;
      lastEventTime := now;
      eventCount := eventCount + 1;
      if Contains(event.eventType, "command") {
        commandCount := commandCount + 1;
        commandTimestamps := Push(commandTimestamps, now, 1000);
      }
    }

    /** Notes the severity and the target of an event. */
    method Mark(ghost h: seq<Event>, event: Event)
      requires Marked(h)
      modifies this`maxSeverity, this`hasSensitiveTarget
      ensures Marked(h + [event])
    {
      OneMore(h, event);
      hide Rank, Contains, MaxRank, Commands, Sensitive, Targeted;
      if Rank(event.severity) > Rank(maxSeverity) {
        maxSeverity := event.severity;
      }
      if event.command != "" && Sensitive(event.command) {
        hasSensitiveTarget := true;
      }
    }

    /** Adds the techniques and the tools of an event. */
    method See(ghost h: seq<Event>, event: Event, now: real)
      requires Seen(h)
      modifies this`phasesSeen, this`phaseTransitions, this`hasEvasion, this`techniquesSeen, this`techniqueIdsSeen,
               this`toolSignatures, this`toolNamesSeen
      ensures Seen(h + [event])
    {
      OneMoreSeen(h, event);
      hide TechniquesAre, PhasesAre, ToolsAre, AllTechniques, AllTools;
      AddTechniques(event.techniques, AllTechniques(h), now);
      AddTools(event.tools, AllTools(h));
    }

    /** Takes an event into account. */
    method Update(event: Event, now: real)
      requires Valid()
      modifies this
      ensures Valid() && processed == old(processed) + [event] && times == old(times) + [now]
      ensures raised == old(raised) && held == old(held)
    {
      hide AlertsValid, Seen, Timed, Marked;
      Count(processed, times, event, now);
      Mark(processed, event);
      See(processed, event, now);
      processed, times := processed + [event], times + [now];
    }

    // ----- Judging -----

    function KillChainPhases(): set<string>
      reads this`techniquesSeen
    {
      set i | 0 <= i < |techniquesSeen| && techniquesSeen[i].tactic in PHASES :: techniquesSeen[i].tactic
    }

    predicate HasC2()
      reads this`toolSignatures
    {
      exists i :: 0 <= i < |toolSignatures| && IsC2(toolSignatures[i])
    }

    /** A tool of the command-and-control category. */
    predicate IsC2(tool: string) {
      tool in toolCategories && toolCategories[tool] == "c2"
    }

    /**
     A C2 tool is noticed exactly when one is among the latest 200 distinct tool names; while no
     more have been seen, exactly when some event named one.
     */
    lemma C2Noticed()
      requires Valid()
      ensures var firsts := Firsts(AllTools(processed), Itself);
              && (HasC2() <==> exists t :: t in Newest(firsts, 200) && IsC2(t))
              && (|firsts| <= 200 ==> (HasC2() <==> exists t :: t != "" && t in AllTools(processed) && IsC2(t)))
    {
      var tools := AllTools(processed);
      var firsts := Firsts(tools, Itself);
      if |firsts| <= 200 {
        forall t: string | t != ""
          ensures t in firsts <==> t in tools
        {
          FirstsNamed(tools, Itself, t);
          assert Named(firsts, Itself, t) <==> t in firsts;
          assert Named(tools, Itself, t) <==> t in tools;
        }
        forall i | 0 <= i < |firsts|
          ensures firsts[i] != ""
        {
          var k := FirstsFrom(tools, Itself, i);
        }
      }
    }

    /**
     The kill chain is detected from the first technique of each id; a later tactic of the same
     id counts as a phase seen, but not here.
     */
    lemma KillChainSeen(tactic: string)
      requires Valid() && tactic in KillChainPhases()
      ensures tactic in PHASES && tactic in phasesSeen
      ensures exists k :: IsFirst(AllTechniques(processed), IdOf, k) && AllTechniques(processed)[k].tactic == tactic
    {
      hide AlertsValid, Counted, Firsts, ToolsAre;
      var ts := AllTechniques(processed);
      var firsts := Firsts(ts, IdOf);
      var i :| 0 <= i < |techniquesSeen| && techniquesSeen[i].tactic in PHASES && techniquesSeen[i].tactic == tactic;
      var k := FirstsFrom(ts, IdOf, |firsts| - |techniquesSeen| + i);
      assert Named(ts, TacticOf, tactic) by {
        assert TacticOf(ts[k]) == tactic;
      }
      assert tactic != "";
      FirstsNamed(ts, TacticOf, tactic);
    }

    /** While at most 500 ids have been seen, the phases of the chain are all the known tactics of first techniques. */
    lemma KillChainNoticed(k: nat)
      requires Valid() && |Firsts(AllTechniques(processed), IdOf)| <= 500
      requires IsFirst(AllTechniques(processed), IdOf, k) && AllTechniques(processed)[k].tactic in PHASES
      ensures AllTechniques(processed)[k].tactic in KillChainPhases()
    {
      FirstsTo(AllTechniques(processed), IdOf, k);
    }

    /** The pace of the commands; the intervals between them add up to the span of their timestamps. */
    function Tempo(): (r: real)
      reads this`commandTimestamps
      ensures 0.0 <= r <= 0.15
    {
      var n := |commandTimestamps|;
      if n < 2 then 0.0
      else
        var avg := (commandTimestamps[n - 1] - commandTimestamps[0]) / ((n - 1) as real);
        if 0.0 < avg < 1.0 then 0.10
        else if 1.0 <= avg <= 30.0 then 0.15
        else if 30.0 < avg <= 60.0 then 0.05
        else 0.0
    }

    function Score(): (r: real)
      reads this`phasesSeen, this`toolSignatures, this`commandTimestamps, this`maxSeverity, this`hasSensitiveTarget,
            this`hasEvasion
      ensures 0.0 <= r <= 1.0
    {
      var n := |phasesSeen|;
      var phases := if n >= 5 then 0.25 else (n as real / 5.0) * 0.25;
      var tools := if toolSignatures == [] then 0.0 else if HasC2() then 0.20 else 0.15;
      var severity := (Rank(maxSeverity) as real / 4.0) * 0.20;
      var target := if hasSensitiveTarget then 0.10 else 0.0;
      var evasion := if hasEvasion then 0.10 else 0.0;
      var total := phases + tools + Tempo() + severity + target + evasion;
      if total > 1.0 then 1.0 else total
    }

    /**
     The score in hundredths: five for each phase seen, up to five; fifteen for any tool and five
     more for a C2 tool; what the pace of the commands adds; five for each rank of the severity; ten
     for a sensitive target and ten for evasion.
     */
    lemma ScoreExactly()
      ensures Score() * 100.0 ==
              5.0 * (if |phasesSeen| < 5 then |phasesSeen| as real else 5.0)
              + (if toolSignatures == [] then 0.0 else 15.0) + (if HasC2() then 5.0 else 0.0)
              + 100.0 * Tempo()
              + 5.0 * (Rank(maxSeverity) as real)
              + (if hasSensitiveTarget then 10.0 else 0.0) + (if hasEvasion then 10.0 else 0.0)
    {
      hide Tempo, IsC2;
      RankOrder(maxSeverity);
      hide Rank;
    }

    /** What the pace adds: most for intervals like those of a person typing, less for slower or faster ones. */
    lemma TempoExactly()
      ensures |commandTimestamps| < 2 ==> Tempo() == 0.0
      ensures |commandTimestamps| >= 2 ==>
                var n := |commandTimestamps|;
                var span := commandTimestamps[n - 1] - commandTimestamps[0];
                var gaps := (n - 1) as real;
                && (gaps <= span <= 30.0 * gaps ==> Tempo() == 0.15)
                && (0.0 < span < gaps ==> Tempo() == 0.10)
                && (30.0 * gaps < span <= 60.0 * gaps ==> Tempo() == 0.05)
                && (span <= 0.0 || span > 60.0 * gaps ==> Tempo() == 0.0)
    {
      if |commandTimestamps| >= 2 {
        var n := |commandTimestamps|;
        var span, gaps := commandTimestamps[n - 1] - commandTimestamps[0], (n - 1) as real;
        Quotient(span, gaps);
      }
    }

    /** The conditions that call for an alert. */
    predicate Holds(key: AlertKey)
      reads this`phasesSeen, this`techniquesSeen, this`toolSignatures, this`commandTimestamps, this`maxSeverity,
            this`hasSensitiveTarget, this`hasEvasion
    {
      match key
      case KillChain => |KillChainPhases()| >= 3
      case Progression(n) => n < |PROGRESSIONS| && PROGRESSIONS[n] <= phasesSeen
      case HighScore => Score() >= 0.7
      case C2Tool => HasC2()
    }

    predicate UsesTools(category: string)
      reads this`toolSignatures
    {
      exists i :: 0 <= i < |toolSignatures| &&
        toolSignatures[i] in toolCategories && toolCategories[toolSignatures[i]] == category
    }

    function Classification(): string
      reads this`lastEventTime, this`phasesSeen, this`toolSignatures, this`hasEvasion, this`commandCount
    {
      if (hasEvasion && |phasesSeen| >= 3) || HasC2() then "advanced_threat"
      else if commandCount <= 5 && lastEventTime - startTime < 30.0 && |phasesSeen| <= 1 then "scanner"
      else if (UsesTools("enumeration") || UsesTools("reconnaissance")) && !hasEvasion then "basic_operator"
      else if commandCount >= 3 && |phasesSeen| >= 2 then "manual_operator"
      else if commandCount <= 3 then "scanner"
      else "manual_operator"
    }

    /** Which sessions get which name. */
    lemma ClassifiedExactly()
      ensures var advanced := (hasEvasion && |phasesSeen| >= 3) || HasC2();
              var brief := commandCount <= 5 && lastEventTime - startTime < 30.0 && |phasesSeen| <= 1;
              var tools := (UsesTools("enumeration") || UsesTools("reconnaissance")) && !hasEvasion;
              var manual := (commandCount >= 3 && |phasesSeen| >= 2) || commandCount > 3;
              && (Classification() == "advanced_threat" <==> advanced)
              && (Classification() == "basic_operator" <==> !advanced && !brief && tools)
              && (Classification() == "manual_operator" <==> !advanced && !brief && !tools && manual)
              && (Classification() == "scanner" <==> !advanced && (brief || (!tools && !manual)))
    {
      hide HasC2, UsesTools;
      assert "scanner"[0] != "advanced_threat"[0] && "scanner"[0] != "basic_operator"[0];
      assert "scanner"[0] != "manual_operator"[0] && "advanced_threat"[0] != "manual_operator"[0];
      assert "advanced_threat"[0] != "basic_operator"[0] && "manual_operator"[0] != "basic_operator"[0];
    }

    /** When each alert is due. */
    lemma AlertsDue()
      ensures KillChain in HoldingNow() <==> |KillChainPhases()| >= 3
      ensures HighScore in HoldingNow() <==> Score() >= 0.7
      ensures C2Tool in HoldingNow() <==>
              exists t :: t in toolSignatures && t in toolCategories && toolCategories[t] == "c2"
      ensures forall n: nat :: Progression(n) in HoldingNow() <==> n < 6 && PROGRESSIONS[n] <= phasesSeen
      ensures forall k :: k in KillChainPhases() <==>
                k in PHASES && exists t :: t in techniquesSeen && t.tactic == k
    {
      hide Score;
      KeysKnown();
      forall n: nat
        ensures Progression(n) in HoldingNow() <==> n < 6 && PROGRESSIONS[n] <= phasesSeen
      {
      }
    }

    /** A session is called a scanner only while it showed at most one phase, or few commands and no C2 tool. */
    lemma ScannerMeans()
      requires Classification() == "scanner"
      ensures !HasC2() && commandCount <= 5 && !(hasEvasion && |phasesSeen| >= 3)
      ensures |phasesSeen| >= 2 ==> commandCount <= 2
    {
      assert "scanner"[0] != "advanced_threat"[0] && "scanner"[0] != "basic_operator"[0];
      assert "scanner"[0] != "manual_operator"[0];
    }

    function ProgressionSeen(): seq<string>
      reads this`phaseTransitions
    {
      var transitions := phaseTransitions;
      seq(|transitions|, i requires 0 <= i < |transitions| => transitions[i].1)
    }

    /** Raises an alert the first time its condition is met. */
    method Raise(key: AlertKey, condition: bool, alerts: seq<AlertKey>, ghost before: seq<AlertKey>)
      returns (longer: seq<AlertKey>)
      requires AlertsValid() && key in AllKeys() && raised == before + alerts
      modifies this`previousAlerts, this`raised, this`held
      ensures AlertsValid() && raised == before + longer
      ensures held == if condition then old(held) + {key} else old(held)
    {
      longer := alerts;
      if condition {
        if key !in previousAlerts {
          forall i | 0 <= i < |raised|
            ensures raised[i] in AllKeys()
          {
            assert raised[i] in raised;
          }
          FewAlerts(raised, AllKeys());
          KeysBounded();
          longer := longer + [key];
          previousAlerts := Push(previousAlerts, key, MAX_ALERTS);
          raised := raised + [key];
        }
        held := held + {key};
      }
    }

    /** The conditions that hold now. */
    ghost function HoldingNow(): set<AlertKey>
      reads this`phasesSeen, this`techniquesSeen, this`toolSignatures, this`commandTimestamps, this`maxSeverity,
            this`hasSensitiveTarget, this`hasEvasion
    {
      set k | k in AllKeys() && Holds(k)
    }

    /** The progressions among the first n whose phases have all been seen. */
    ghost function Progressed(n: nat): set<AlertKey>
      reads this`phasesSeen
    {
      set m | 0 <= m < n && m < |PROGRESSIONS| && PROGRESSIONS[m] <= phasesSeen :: Progression(m)
    }

    lemma HoldingParts()
      ensures HoldingNow() ==
              (if |KillChainPhases()| >= 3 then {KillChain} else {}) + Progressed(|PROGRESSIONS|)
              + (if Score() >= 0.7 then {HighScore} else {}) + (if HasC2() then {C2Tool} else {})
    {
      hide Score, HasC2, KillChainPhases;
    }

    lemma ProgressedNext(n: nat)
      requires n < |PROGRESSIONS|
      ensures Progressed(n + 1) == Progressed(n) + if PROGRESSIONS[n] <= phasesSeen then {Progression(n)} else {}
    {
    }

    lemma KeysKnown()
      ensures KillChain in AllKeys() && HighScore in AllKeys() && C2Tool in AllKeys()
      ensures forall n :: 0 <= n < |PROGRESSIONS| ==> Progression(n) in AllKeys()
    {
    }

    /** Raises the alerts whose conditions hold and that no earlier verdict raised. */
    method CheckAlerts(detected: bool, score: real) returns (alerts: seq<AlertKey>)
      requires AlertsValid() && detected == (|KillChainPhases()| >= 3) && score == Score()
      modifies this`previousAlerts, this`raised, this`held
      ensures AlertsValid() && raised == old(raised) + alerts
      ensures held == old(held) + old(HoldingNow())
    {
      KeysKnown();
      HoldingParts();
      hide AlertsValid, Score, HasC2, AllKeys, HoldingNow, Progressed, KillChainPhases;
      alerts := Raise(KillChain, detected, [], old(raised));
      ghost var first := held;
      assert Progressed(0) == {} by {
        NoneProgressed();
      }
      for n := 0 to |PROGRESSIONS|
        invariant AlertsValid() && raised == old(raised) + alerts
        invariant held == first + Progressed(n)
      {
        ProgressedNext(n);
        alerts := Raise(Progression(n), PROGRESSIONS[n] <= phasesSeen, alerts, old(raised));
      }
      alerts := Raise(HighScore, score >= 0.7, alerts, old(raised));
      alerts := Raise(C2Tool, HasC2(), alerts, old(raised));
    }

    lemma NoneProgressed()
      ensures Progressed(0) == {}
    {
    }

    /**
     A verdict on the session as it is: its alerts are those whose conditions hold and that no
     verdict raised before.
     */
    ghost predicate Judged(v: Verdict, before: seq<AlertKey>)
      reads this
    {
      && raised == before + v.alerts && (forall k :: k in v.alerts <==> k in HoldingNow() && k !in before)
      && v.killChain == Holds(KillChain) && v.phaseCount == |phasesSeen| && v.progression == ProgressionSeen()
      && v.severity == maxSeverity && Rank(v.severity) == MaxRank(processed)
      && v.score == Score() && v.classification == Classification()
    }

    /** The alerts of a verdict, from what was held before and after it. */
    lemma AlertsRaised(before: seq<AlertKey>, alerts: seq<AlertKey>, held': set<AlertKey>)
      requires AlertsValid() && raised == before + alerts && held == held' + HoldingNow()
      requires forall k :: k in before <==> k in held'
      ensures forall k :: k in alerts <==> k in HoldingNow() && k !in before
    {
      hide HoldingNow;
      forall k | k in alerts
        ensures k in raised && k !in before
      {
        var j :| 0 <= j < |alerts| && alerts[j] == k;
        assert raised[|before| + j] == k;
        forall i | 0 <= i < |before|
          ensures before[i] != k
        {
          assert raised[i] == before[i];
        }
      }
      assert forall k :: k in raised <==> k in before || k in alerts;
    }

    /** The verdict on the session so far. */
    method ComputeVerdict() returns (v: Verdict)
      requires Valid()
      modifies this`previousAlerts, this`raised, this`held
      ensures Valid() && Judged(v, old(raised)) && held == old(held) + HoldingNow()
    {
      hide Seen, HoldingNow, AllKeys, Score, Classification, KillChainPhases;
      var detected, score := |KillChainPhases()| >= 3, Score();
      var alerts := CheckAlerts(detected, score);
      AlertsRaised(old(raised), alerts, old(held));
      v := Verdict(detected, |phasesSeen|, ProgressionSeen(), maxSeverity, score, Classification(), alerts);
    }
  }
}
