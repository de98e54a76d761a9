/** The dashboard's limit of requests per key in a sliding window. */
module RequestLimiter {
  import opened SlidingWindow

  /** From now on the timestamps kept count like the full history. */
  ghost predicate Faithful(kept: seq<real>, full: seq<real>, now: real, w: Window) {
    forall later :: later >= now ==> Active(kept, later, w) == Active(full, later, w)
  }

  /** The full history never exceeds the limit. */
  ghost predicate Sound(full: seq<real>, now: real, w: Window, limit: int) {
    Ascending(full) && Spaced(full, w, limit) && forall i :: 0 <= i < |full| ==> full[i] <= now
  }

  lemma Later(kept: seq<real>, full: seq<real>, earlier: real, now: real, w: Window, limit: int)
    requires Faithful(kept, full, earlier, w) && Sound(full, earlier, w, limit) && earlier <= now
    ensures Faithful(kept, full, now, w) && Sound(full, now, w, limit)
  {
  }

  /** Dropping the expired timestamps keeps the count. */
  lemma Expired(kept: seq<real>, full: seq<real>, now: real, w: Window)
    requires Faithful(kept, full, now, w)
    ensures Active(kept, now, w) == Active(full, now, w)
    ensures Faithful(Active(kept, now, w), full, now, w)
  {
    forall later | later >= now
      ensures Active(Active(kept, now, w), later, w) == Active(full, later, w)
    {
      ActiveLater(kept, now, later, w);
    }
  }

  /** One admission more, while fewer than the limit are within reach. */
  lemma Admitted(full: seq<real>, now: real, w: Window, limit: int)
    requires Sound(full, now, w, limit) && limit >= 1 && |Active(full, now, w)| < limit
    ensures Faithful(Active(full, now, w) + [now], full + [now], now, w)
    ensures Sound(full + [now], now, w, limit)
  {
    SpacedNext(full, now, now, w, limit);
    forall later | later >= now
      ensures Active(Active(full, now, w) + [now], later, w) == Active(full + [now], later, w)
    {
      ActiveLater(full, now, later, w);
      ActiveConcat(full, [now], later, w);
      ActiveConcat(Active(full, now, w), [now], later, w);
    }
  }

  class RateLimiter {
    const max: int
    const window: Window
    var requests: map<string, seq<real>>
    var clock: real // the latest reading of the monotonic clock
    ghost var admitted: map<string, seq<real>> // every admission ever, by key

    ghost function AdmittedTo(key: string): seq<real>
      reads this`admitted
    {
      if key in admitted then admitted[key] else []
    }

    function Kept(key: string): seq<real>
      reads this`requests
    {
      if key in requests then requests[key] else []
    }

    ghost predicate Valid()
      reads this
    {
      && !window.closed
      && forall key :: Faithful(Kept(key), AdmittedTo(key), clock, window)
                       && Sound(AdmittedTo(key), clock, window, Limit())
    }

    /** A first request is admitted whatever the maximum. */
    ghost function Limit(): int {
      if max >= 1 then max else 1
    }

    constructor (max: int, windowSeconds: real, clock: real)
      ensures Valid() && admitted == map[] && this.max == max && window == Window(windowSeconds, false)
    {
      this.max, this.window, this.clock := max, Window(windowSeconds, false), clock;
      requests, admitted := map[], map[];
    }

    /**
     Admits a request exactly when fewer than the limit were admitted for its key, in the full
     history, within the last window.
     */
    method Check(key: string) returns (ok: bool)
      requires Valid()
      modifies this
      ensures Valid() && clock >= old(clock)
      ensures ok <==> |Active(old(AdmittedTo(key)), clock, window)| < Limit()
      ensures AdmittedTo(key) == if ok then old(AdmittedTo(key)) + [clock] else old(AdmittedTo(key))
      ensures forall other :: other != key ==> AdmittedTo(other) == old(AdmittedTo(other))
    {
      hide Faithful, Sound, Ascending, Active;
      AdvanceClock();
      label ready:
      var active := Expire(Kept(key), clock);
      ghost var before := AdmittedTo(key);
      Expired(Kept(key), before, clock, window);
      var stored;
      ok, stored := Judge(active, clock);
      if ok {
        Admitted(before, clock, window, Limit());
        admitted := admitted[key := before + [clock]];
      }
      requests := requests[key := stored];
      forall other
        ensures Faithful(Kept(other), AdmittedTo(other), clock, window)
        ensures Sound(AdmittedTo(other), clock, window, Limit())
      {
        if other != key {
          assert Kept(other) == old@ready(Kept(other)) && AdmittedTo(other) == old@ready(AdmittedTo(other));
        }
      }
    }

    /** Reads the clock; what has expired stays so. */
    method AdvanceClock()
      requires Valid()
      modifies this`clock
      ensures Valid() && clock >= old(clock)
    {
      hide Faithful, Sound;
      var now := *;
      if now < clock {
        now := clock;
      }
      forall key
        ensures Faithful(Kept(key), AdmittedTo(key), now, window)
        ensures Sound(AdmittedTo(key), now, window, Limit())
      {
        Later(Kept(key), AdmittedTo(key), clock, now, window, Limit());
      }
      clock := now;
    }

    /** Decides a request from the timestamps that have not expired, and what is kept of them. */
    method Judge(active: seq<real>, now: real) returns (ok: bool, stored: seq<real>)
      ensures ok <==> |active| < Limit()
      ensures stored == if ok then active + [now] else active
    {
      if active == [] {
        return true, [now];
      }
      if |active| >= max {
        return false, active;
      }
      return true, active + [now];
    }

    /** The timestamps that have not expired. */
    method Expire(timestamps: seq<real>, now: real) returns (active: seq<real>)
      requires !window.closed
      ensures active == Active(timestamps, now, window)
    {
      active := [];
      for i := 0 to |timestamps|
        invariant active == Active(timestamps[..i], now, window)
      {
        assert timestamps[..i + 1][..i] == timestamps[..i];
        if now - timestamps[i] < window.length {
          active := active + [timestamps[i]];
        }
      }
      assert timestamps[..|timestamps|] == timestamps;
    }
  }
}
