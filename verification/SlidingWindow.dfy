/** Counting the events of the last while, from a full history or from what is left after dropping old events. */
module SlidingWindow {

  /** A window that reaches back some length, with or without its far end. */
  datatype Window = Window(length: real, closed: bool)

  predicate Fresh(t: real, now: real, w: Window) {
    now - t < w.length || (w.closed && now - t == w.length)
  }

  /** The events of a history that the window reaches. */
  function Active(h: seq<real>, now: real, w: Window): seq<real> {
    if h == [] then []
    else Active(h[..|h| - 1], now, w) + if Fresh(h[|h| - 1], now, w) then [h[|h| - 1]] else []
  }

  ghost predicate Ascending(h: seq<real>) {
    forall i, j :: 0 <= i < j < |h| ==> h[i] <= h[j]
  }

  lemma {:induction false} ActiveConcat(a: seq<real>, b: seq<real>, now: real, w: Window)
    ensures Active(a + b, now, w) == Active(a, now, w) + Active(b, now, w)
  {
    if b == [] {
      assert a + b == a;
    } else {
      var n := |b| - 1;
      ActiveConcat(a, b[..n], now, w);
      assert (a + b)[..|a| + n] == a + b[..n];
    }
  }

  lemma {:induction false} ActiveLength(h: seq<real>, now: real, w: Window)
    ensures |Active(h, now, w)| <= |h|
  {
    if h != [] {
      ActiveLength(h[..|h| - 1], now, w);
    }
  }

  lemma {:induction false} ActiveAll(h: seq<real>, now: real, w: Window)
    requires forall i :: 0 <= i < |h| ==> Fresh(h[i], now, w)
    ensures Active(h, now, w) == h
  {
    if h != [] {
      ActiveAll(h[..|h| - 1], now, w);
    }
  }

  lemma {:induction false} ActiveNone(h: seq<real>, now: real, w: Window)
    requires forall i :: 0 <= i < |h| ==> !Fresh(h[i], now, w)
    ensures Active(h, now, w) == []
  {
    if h != [] {
      ActiveNone(h[..|h| - 1], now, w);
    }
  }

  /** What was out of reach at one reading of the clock is out of reach at any later one. */
  lemma {:induction false} ActiveLater(h: seq<real>, earlier: real, now: real, w: Window)
    requires earlier <= now
    ensures Active(Active(h, earlier, w), now, w) == Active(h, now, w)
  {
    if h != [] {
      var n := |h| - 1;
      ActiveLater(h[..n], earlier, now, w);
      var last := if Fresh(h[n], earlier, w) then [h[n]] else [];
      ActiveConcat(Active(h[..n], earlier, w), last, now, w);
      assert [h[n]][..0] == [];
    }
  }

  /** If fewer than n events are within reach, the n-th last is not. */
  lemma {:induction false} OutOfReach(h: seq<real>, now: real, w: Window, n: nat)
    requires Ascending(h) && |Active(h, now, w)| < n <= |h|
    ensures !Fresh(h[|h| - n], now, w)
  {
    if Fresh(h[|h| - n], now, w) {
      var tail := h[|h| - n..];
      assert h == h[..|h| - n] + tail;
      ActiveConcat(h[..|h| - n], tail, now, w);
      forall i | 0 <= i < |tail|
        ensures Fresh(tail[i], now, w)
      {
        assert tail[i] >= tail[0];
      }
      ActiveAll(tail, now, w);
    }
  }

  /** Every n + 1 consecutive events reach over more than the window. */
  ghost predicate Spaced(h: seq<real>, w: Window, n: int) {
    forall i, j :: 0 <= i <= j < |h| && j == i + n ==> !Fresh(h[i], h[j], w)
  }

  /** An event admitted because fewer than n were within reach keeps the spacing. */
  lemma SpacedNext(h: seq<real>, checked: real, now: real, w: Window, n: int)
    requires n >= 1 && Ascending(h) && Spaced(h, w, n) && |Active(h, checked, w)| < n && checked <= now
    ensures Spaced(h + [now], w, n)
  {
    var h' := h + [now];
    if n <= |h| {
      OutOfReach(h, checked, w, n);
    }
    forall i, j | 0 <= i <= j < |h'| && j == i + n
      ensures !Fresh(h'[i], h'[j], w)
    {
      if j < |h| {
        assert !Fresh(h[i], h[j], w);
      }
    }
  }

  /** So no window, wherever it starts, holds more than n of the events. */
  lemma WindowLimit(h: seq<real>, w: Window, n: nat, i: nat, j: nat)
    requires n >= 1 && Ascending(h) && Spaced(h, w, n) && i + n <= j < |h|
    ensures !Fresh(h[i], h[j], w)
  {
    assert !Fresh(h[i], h[i + n], w) && h[i + n] <= h[j];
  }

  /** Where the events stand that a window reaches. */
  function Reached(h: seq<real>, now: real, w: Window): set<nat> {
    set i: nat | i < |h| && (now - h[i] < w.length || (w.closed && now - h[i] == w.length))
  }

  lemma {:induction false} ActiveCounted(h: seq<real>, now: real, w: Window)
    ensures |Active(h, now, w)| == |Reached(h, now, w)|
  {
    if h != [] {
      ActiveCounted(h[..|h| - 1], now, w);
      ReachedLast(h, now, w);
      hide Reached, Fresh;
    }
  }

  lemma ReachedLast(h: seq<real>, now: real, w: Window)
    requires h != []
    ensures var n := |h| - 1;
            |Reached(h, now, w)| == |Reached(h[..n], now, w)| + if Fresh(h[n], now, w) then 1 else 0
  {
    var n := |h| - 1;
    if Fresh(h[n], now, w) {
      assert Reached(h, now, w) == Reached(h[..n], now, w) + {n};
    } else {
      assert Reached(h, now, w) == Reached(h[..n], now, w);
    }
  }
}
