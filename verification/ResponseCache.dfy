/** The cache of model responses: least recently used keys go first. */
module ResponseCache {
  import opened Options

  const MAX_OUTPUT: nat := 65_536

  datatype Event = Get(key: string) | Put(key: string, output: string) | Clear

  type History = seq<Event>

  predicate Accepted(e: Event) {
    e.Put? && |e.output| <= MAX_OUTPUT
  }

  function Without(s: seq<string>, key: string): (r: seq<string>)
    ensures key !in r && (forall k :: k in r <==> k in s && k != key)
    ensures |r| <= |s| && (key !in s ==> r == s)
  {
    if s == [] then []
    else if s[|s| - 1] == key then Without(s[..|s| - 1], key)
    else Without(s[..|s| - 1], key) + [s[|s| - 1]]
  }

  /** The distinct keys of a sequence of touches, in the order of their latest touch. */
  function Recency(touches: seq<string>): (r: seq<string>)
    ensures forall k :: k in r <==> k in touches
  {
    if touches == [] then []
    else Without(Recency(touches[..|touches| - 1]), touches[|touches| - 1]) + [touches[|touches| - 1]]
  }

  function Newest(s: seq<string>, n: nat): (r: seq<string>)
    ensures |r| <= n && |r| <= |s| && forall k :: k in r ==> k in s
  {
    if |s| <= n then s else s[|s| - n..]
  }

  /** The keys that are cached after a history, least recently touched first. */
  function Resident(max: nat, h: History): seq<string>
    decreases |h|, 1
  {
    Newest(Recency(Touches(max, h)), max)
  }

  /** The touches since the cache was last cleared: accepted puts, and gets that hit. */
  function Touches(max: nat, h: History): seq<string>
    decreases |h|, 0
  {
    if h == [] then
      []
    else
      var before, e := h[..|h| - 1], h[|h| - 1];
      match e
      case Clear => []
      case Put(key, _) => if Accepted(e) then Touches(max, before) + [key] else Touches(max, before)
      case Get(key) => if key in Resident(max, before) then Touches(max, before) + [key] else Touches(max, before)
  }

  /** The output of the latest accepted put of a key since the cache was cleared. */
  function LastPut(h: History, key: string): Option<string> {
    if h == [] then None
    else
      var e := h[|h| - 1];
      if e.Clear? then None
      else if Accepted(e) && e.key == key then Some(e.output)
      else LastPut(h[..|h| - 1], key)
  }

  function Gets(h: History): nat {
    if h == [] then 0 else Gets(h[..|h| - 1]) + if h[|h| - 1].Get? then 1 else 0
  }

  function Hits(max: nat, h: History): nat {
    if h == [] then 0
    else
      var before, e := h[..|h| - 1], h[|h| - 1];
      Hits(max, before) + if e.Get? && e.key in Resident(max, before) then 1 else 0
  }

  // ----- What residence means -----

  /** The keys touched after the latest touch of a key. */
  function TouchedSince(touches: seq<string>, key: string): set<string> {
    if touches == [] || touches[|touches| - 1] == key then {}
    else TouchedSince(touches[..|touches| - 1], key) + {touches[|touches| - 1]}
  }

  predicate NoRepeats(s: seq<string>) {
    forall i, j :: 0 <= i < j < |s| ==> s[i] != s[j]
  }

  lemma {:induction false} WithoutNoRepeats(s: seq<string>, key: string)
    requires NoRepeats(s)
    ensures NoRepeats(Without(s, key))
  {
    if s != [] {
      WithoutNoRepeats(s[..|s| - 1], key);
      var r := Without(s[..|s| - 1], key);
      forall i | 0 <= i < |r|
        ensures r[i] != s[|s| - 1]
      {
        assert r[i] in r;
      }
    }
  }

  lemma {:induction false} RecencyNoRepeats(touches: seq<string>)
    ensures NoRepeats(Recency(touches))
  {
    if touches != [] {
      RecencyNoRepeats(touches[..|touches| - 1]);
      WithoutNoRepeats(Recency(touches[..|touches| - 1]), touches[|touches| - 1]);
    }
  }

  lemma {:induction false} WithoutSplit(s: seq<string>, i: nat)
    requires i < |s| && NoRepeats(s)
    ensures Without(s, s[i]) == s[..i] + s[i + 1..]
  {
    var n := |s| - 1;
    if i == n {
      assert s[i] !in s[..n];
    } else {
      WithoutSplit(s[..n], i);
      assert s[..n][..i] == s[..i] && s[..n][i + 1..] + [s[n]] == s[i + 1..];
    }
  }

  predicate JoinedBy(more: seq<string>, s: seq<string>, key: string) {
    (forall k :: k in more ==> k in s || k == key) && key in more && (forall k :: k in s ==> k in more)
  }

  /** What moving a key to the end does to the part after another key. */
  lemma MoveLater(r: seq<string>, i: nat, last: string) returns (i': nat)
    requires NoRepeats(r) && i < |r| && r[i] != last
    ensures var r' := Without(r, last) + [last];
            && i' < |r'| && r'[i'] == r[i]
            && |r'| - i' == |r| - i + (if last in r[i + 1..] then 0 else 1)
            && JoinedBy(r'[i' + 1..], r[i + 1..], last)
  {
    var r' := Without(r, last) + [last];
    if last !in r {
      i' := i;
      assert r'[i + 1..] == r[i + 1..] + [last];
    } else {
      var j :| 0 <= j < |r| && r[j] == last;
      WithoutSplit(r, j);
      if j < i {
        i' := MoveBefore(r, i, j);
      } else {
        i' := MoveAfter(r, i, j);
      }
    }
  }

  lemma MoveBefore(r: seq<string>, i: nat, j: nat) returns (i': nat)
    requires NoRepeats(r) && j < i < |r|
    ensures var r' := r[..j] + r[j + 1..] + [r[j]];
            && i' < |r'| && r'[i'] == r[i] && |r'| - i' == |r| - i + 1 && r[j] !in r[i + 1..]
            && JoinedBy(r'[i' + 1..], r[i + 1..], r[j])
  {
    i' := i - 1;
    var r' := r[..j] + r[j + 1..] + [r[j]];
    assert r'[i' + 1..] == r[i + 1..] + [r[j]];
  }

  lemma MoveAfter(r: seq<string>, i: nat, j: nat) returns (i': nat)
    requires NoRepeats(r) && i < j < |r|
    ensures var r' := r[..j] + r[j + 1..] + [r[j]];
            && i' < |r'| && r'[i'] == r[i] && |r'| - i' == |r| - i && r[j] in r[i + 1..]
            && JoinedBy(r'[i' + 1..], r[i + 1..], r[j])
  {
    i' := i;
    var r' := r[..j] + r[j + 1..] + [r[j]];
    assert r'[i + 1..] == r[i + 1..j] + r[j + 1..] + [r[j]];
    assert r[i + 1..] == r[i + 1..j] + [r[j]] + r[j + 1..];
  }

  /** After a key in the recency order come exactly the keys touched since. */
  lemma {:induction false} RecencyAfter(touches: seq<string>, key: string) returns (i: nat)
    requires key in touches
    ensures i < |Recency(touches)| && Recency(touches)[i] == key
    ensures |Recency(touches)| - 1 - i == |TouchedSince(touches, key)|
    ensures forall k :: k in TouchedSince(touches, key) <==> k in Recency(touches)[i + 1..]
  {
    hide Without, NoRepeats;
    var n := |touches| - 1;
    var before, last := touches[..n], touches[n];
    if last == key {
      i := |Recency(touches)| - 1;
    } else {
      var i0 := RecencyAfter(before, key);
      RecencyNoRepeats(before);
      i := MoveLater(Recency(before), i0, last);
      assert last in TouchedSince(before, key) ==> TouchedSince(touches, key) == TouchedSince(before, key);
    }
  }

  /** A key is cached exactly when fewer than max other keys were touched after it. */
  lemma ResidentExactly(max: nat, h: History, key: string)
    ensures key in Resident(max, h) <==>
            key in Touches(max, h) && |TouchedSince(Touches(max, h), key)| < max
  {
    var t := Touches(max, h);
    if key in t {
      var i := RecencyAfter(t, key);
      var r := Recency(t);
      RecencyNoRepeats(t);
      assert i >= |r| - max && |r| > max ==> r[|r| - max..][i - (|r| - max)] == key;
    }
  }

  // ----- What an operation does to the resident keys -----

  /** Keys beyond the newest never matter again: moving a key to the end commutes with forgetting the others. */
  lemma TouchNewest(r: seq<string>, key: string, max: nat)
    requires NoRepeats(r)
    ensures var kept := Newest(r, max);
            Newest(Without(r, key) + [key], max) ==
            if key in kept then Without(kept, key) + [key] else Newest(kept + [key], max)
  {
    var kept := Newest(r, max);
    var a := r[..|r| - |kept|];
    assert r == a + kept && (a == [] || |kept| == max);
    WithoutConcat(a, kept, key);
    hide Without;
    assert Without(r, key) + [key] == Without(a, key) + (Without(kept, key) + [key]);
    if key in kept {
      WithoutLength(kept, a, key);
    }
    hide Newest;
    NewestOf(Without(a, key), Without(kept, key) + [key], max);
  }

  lemma WithoutLast(s: seq<string>, last: string, key: string)
    ensures Without(s + [last], key) == if last == key then Without(s, key) else Without(s, key) + [last]
  {
    assert (s + [last])[..|s|] == s;
  }

  lemma {:induction false} WithoutConcat(a: seq<string>, b: seq<string>, key: string)
    ensures Without(a + b, key) == Without(a, key) + Without(b, key)
  {
    hide Without;
    if b == [] {
      WithoutNothing(a, b, key);
    } else {
      var front, last := b[..|b| - 1], b[|b| - 1];
      WithoutConcat(a, front, key);
      WithoutLast(a + front, last, key);
      WithoutLast(front, last, key);
      FrontLast(a, b);
      Associate(Without(a, key), Without(front, key), [last]);
    }
  }

  lemma WithoutNothing(a: seq<string>, b: seq<string>, key: string)
    requires b == []
    ensures Without(a + b, key) == Without(a, key) + Without(b, key)
  {
    assert a + b == a;
  }

  lemma FrontLast(a: seq<string>, b: seq<string>)
    requires b != []
    ensures b == b[..|b| - 1] + [b[|b| - 1]] && a + b == a + b[..|b| - 1] + [b[|b| - 1]]
  {
  }

  lemma Associate(a: seq<string>, b: seq<string>, c: seq<string>)
    ensures a + (b + c) == a + b + c
  {
  }

  lemma WithoutLength(kept: seq<string>, a: seq<string>, key: string)
    requires NoRepeats(a + kept) && key in kept
    ensures |Without(kept, key)| == |kept| - 1
  {
    var j :| 0 <= j < |kept| && kept[j] == key;
    assert forall i :: 0 <= i < |kept| ==> kept[i] == (a + kept)[|a| + i];
    WithoutSplit(kept, j);
  }

  lemma NewestOf(a: seq<string>, b: seq<string>, max: nat)
    requires a == [] || |b| >= max
    ensures Newest(a + b, max) == Newest(b, max) && (|b| <= max ==> Newest(b, max) == b)
  {
    assert a == [] ==> a + b == b;
  }

  lemma ResidentTouched(max: nat, h: History, e: Event)
    requires Accepted(e) || (e.Get? && e.key in Resident(max, h))
    ensures var kept := Resident(max, h);
            Resident(max, h + [e]) ==
            if e.key in kept then Without(kept, e.key) + [e.key] else Newest(kept + [e.key], max)
  {
    assert (h + [e])[..|h|] == h;
    var t := Touches(max, h);
    assert Touches(max, h + [e]) == t + [e.key] && (t + [e.key])[..|t|] == t;
    RecencyNoRepeats(t);
    TouchNewest(Recency(t), e.key, max);
  }

  lemma ResidentSame(max: nat, h: History, e: Event)
    requires if e.Put? then !Accepted(e) else e.Get? && e.key !in Resident(max, h)
    ensures Resident(max, h + [e]) == Resident(max, h)
  {
    assert (h + [e])[..|h|] == h;
  }

  lemma One(h: History, e: Event, max: nat)
    ensures Gets(h + [e]) == Gets(h) + if e.Get? then 1 else 0
    ensures Hits(max, h + [e]) == Hits(max, h) + if e.Get? && e.key in Resident(max, h) then 1 else 0
    ensures forall key :: LastPut(h + [e], key) ==
                          if e.Clear? then None
                          else if Accepted(e) && e.key == key then Some(e.output) else LastPut(h, key)
  {
    assert (h + [e])[..|h|] == h;
  }

  /** A put of at most 65,536 characters is found again; a longer one changes nothing. */
  lemma PutThenFound(max: nat, h: History, key: string, output: string)
    requires max > 0
    ensures var h' := h + [Put(key, output)];
            if |output| <= 65_536 then
              && key in Resident(max, h') && LastPut(h', key) == Some(output)
              && (forall other :: other != key ==> LastPut(h', other) == LastPut(h, other))
            else
              Resident(max, h') == Resident(max, h) && forall other :: LastPut(h', other) == LastPut(h, other)
  {
    var e := Put(key, output);
    One(h, e, max);
    if Accepted(e) {
      ResidentTouched(max, h, e);
      hide Resident;
      LastKept(Resident(max, h), key, max);
    } else {
      ResidentSame(max, h, e);
    }
  }

  lemma LastKept(s: seq<string>, key: string, max: nat)
    requires max > 0
    ensures key in Newest(s + [key], max) && key in Without(s, key) + [key]
  {
    assert (s + [key])[|s|] == key;
    var r := Newest(s + [key], max);
    assert r[|r| - 1] == key;
  }

  /** A get that hits makes its key the newest, and any other get changes nothing. */
  lemma HitIsNewest(max: nat, h: History, key: string)
    ensures var before, after := Resident(max, h), Resident(max, h + [Get(key)]);
            if key in before then
              && after != [] && after[|after| - 1] == key && |after| == |before|
              && (forall k :: k in after <==> k in before)
            else after == before
  {
    if key in Resident(max, h) {
      ResidentTouched(max, h, Get(key));
      ResidentNoRepeats(max, h);
      hide Resident, Without, NoRepeats;
      KeyToEnd(Resident(max, h), key);
    } else {
      ResidentSame(max, h, Get(key));
    }
  }

  lemma KeyToEnd(s: seq<string>, key: string)
    requires NoRepeats(s) && key in s
    ensures var r := Without(s, key) + [key];
            |r| == |s| && r[|r| - 1] == key && forall k :: k in r <==> k in s
  {
    hide Without;
    assert [] + s == s;
    WithoutLength(s, [], key);
  }

  /** A new key in a full cache pushes out the oldest one, and no other. */
  lemma OldestGoes(max: nat, h: History, key: string, output: string)
    requires 0 < max == |Resident(max, h)| && key !in Resident(max, h) && |output| <= 65_536
    ensures Resident(max, h + [Put(key, output)]) == Resident(max, h)[1..] + [key]
  {
    ResidentTouched(max, h, Put(key, output));
  }

  lemma ResidentNoRepeats(max: nat, h: History)
    ensures NoRepeats(Resident(max, h))
  {
    RecencyNoRepeats(Touches(max, h));
  }

  class ResponseCache {
    const maxSize: nat
    var order: seq<string> // the keys of the ordered dictionary, oldest first
    var outputs: map<string, string>
    var hits: int
    var misses: int
    ghost var history: History

    /** The ordered dictionary holds the resident keys in recency order, each with its last accepted put. */
    ghost predicate Valid()
      reads this
    {
      && order == Resident(maxSize, history)
      && (forall key :: key in outputs <==> key in order)
      && (forall key :: key in outputs ==> LastPut(history, key) == Some(outputs[key]))
      && hits == Hits(maxSize, history) && hits + misses == Gets(history)
    }

    constructor (maxSize: nat)
      ensures Valid() && history == [] && this.maxSize == maxSize
    {
      this.maxSize := maxSize;
      order, outputs, hits, misses, history := [], map[], 0, 0, [];
    }

    method Get(key: string) returns (output: Option<string>)
      requires Valid()
      modifies this
      ensures Valid() && history == old(history) + [Event.Get(key)]
      ensures output == if key in Resident(maxSize, old(history)) then LastPut(old(history), key) else None
    {
      hide Resident, Hits, Gets, LastPut;
      ghost var e := Event.Get(key);
      One(history, e, maxSize);
      if key in outputs {
        ResidentTouched(maxSize, history, e);
        history := history + [e];
        hits := hits + 1;
        order := Without(order, key) + [key];
        return Some(outputs[key]);
      }
      ResidentSame(maxSize, history, e);
      history := history + [e];
      misses := misses + 1;
      return None;
    }

    method Put(key: string, output: string)
      requires Valid()
      modifies this
      ensures Valid() && history == old(history) + [Event.Put(key, output)]
    {
      hide Resident, Hits, Gets, LastPut;
      ghost var e := Event.Put(key, output);
      One(history, e, maxSize);
      ghost var before := history;
      history := history + [e];
      if |output| > MAX_OUTPUT {
        ResidentSame(maxSize, before, e);
        return;
      }
      ResidentTouched(maxSize, before, e);
      if key in outputs {
        outputs := outputs[key := output];
        order := Without(order, key) + [key];
        return;
      }
      ResidentNoRepeats(maxSize, before);
      outputs := outputs[key := output];
      order := order + [key];
      Evict();
    }

    /** Drops the oldest keys until the cache is not over its size. */
    method Evict()
      requires NoRepeats(order) && forall key :: key in outputs <==> key in order
      modifies this`order, this`outputs
      ensures order == Newest(old(order), maxSize)
      ensures forall key :: key in outputs <==> key in order
      ensures forall key :: key in outputs ==> key in old(outputs) && outputs[key] == old(outputs)[key]
    {
      hide NoRepeats;
      ghost var gone := 0;
      while |order| > maxSize
        invariant gone <= |old(order)| && order == old(order)[gone..] && NoRepeats(order)
        invariant gone == 0 || |order| >= maxSize
        invariant forall key :: key in outputs <==> key in order
        invariant forall key :: key in outputs ==> key in old(outputs) && outputs[key] == old(outputs)[key]
      {
        FirstOnce(order);
        outputs := outputs - {order[0]};
        order := order[1..];
        gone := gone + 1;
      }
    }

    method Clear()
      requires Valid()
      modifies this
      ensures Valid() && history == old(history) + [Event.Clear]
    {
      One(history, Event.Clear, maxSize);
      assert (history + [Event.Clear])[..|history|] == history;
      history := history + [Event.Clear];
      order, outputs := [], map[];
    }

    method Stats() returns (size: nat, hitCount: int, missCount: int, hitRate: real)
      requires Valid()
      ensures size == |Resident(maxSize, history)| <= maxSize
      ensures hitCount == Hits(maxSize, history) && hitCount + missCount == Gets(history)
      ensures 0.0 <= hitRate <= 1.0 && (hitRate > 0.0 <==> hitCount > 0)
    {
      HitsAmongGets(maxSize, history);
      assert |Resident(maxSize, history)| <= maxSize;
      hide Resident, Hits, Gets;
      var total := hits + misses;
      size, hitCount, missCount := |order|, hits, misses;
      hitRate := if total > 0 then Rate(hits as real, total as real) else 0.0;
    }
  }

  lemma {:induction false} HitsAmongGets(max: nat, h: History)
    ensures Hits(max, h) <= Gets(h)
  {
    if h != [] {
      HitsAmongGets(max, h[..|h| - 1]);
    }
  }

  function Rate(part: real, whole: real): (r: real)
    requires 0.0 <= part <= whole && whole > 0.0
    ensures 0.0 <= r <= 1.0 && (r > 0.0 <==> part > 0.0)
  {
    part / whole
  }

  lemma FirstOnce(s: seq<string>)
    requires NoRepeats(s) && s != []
    ensures NoRepeats(s[1..]) && s[0] !in s[1..]
    ensures forall k :: k in s <==> k == s[0] || k in s[1..]
  {
    assert s == [s[0]] + s[1..];
  }
}
