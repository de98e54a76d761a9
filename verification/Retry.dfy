/** Exponential backoff with jitter, in nanoseconds of a 64-bit duration. */
module Retry {

  const TWO_TO_THE_63: int := 0x8000_0000_0000_0000

  datatype RetryPolicy = RetryPolicy(maxRetries: int, baseBackoff: int, maxBackoff: int, jitter: bool)

  function Pow2(n: nat): (r: int)
    ensures r >= 1
  {
    if n == 0 then 1 else 2 * Pow2(n - 1)
  }

  /** Wraps a sum around like 64-bit addition. */
  function Wrap(x: int): int {
    (x + TWO_TO_THE_63) % (2 * TWO_TO_THE_63) - TWO_TO_THE_63
  }

  /** The powers double, and sums wrap around at 64 bits. */
  lemma Arithmetic(n: nat, x: int)
    ensures Pow2(0) == 1 && Pow2(n + 1) == Pow2(n) + Pow2(n)
    ensures -0x8000_0000_0000_0000 <= Wrap(x) < 0x8000_0000_0000_0000 && (Wrap(x) - x) % 0x1_0000_0000_0000_0000 == 0
  {
  }

  /** Some jitter between nothing and half the base backoff. */
  method Jitter(baseBackoff: int) returns (j: int)
    ensures if baseBackoff >= 0 then 0 <= 2 * j <= baseBackoff else baseBackoff <= 2 * j <= 0
  {
    j := *;
    if !(if baseBackoff >= 0 then 0 <= 2 * j <= baseBackoff else baseBackoff <= 2 * j <= 0) {
      j := 0;
    }
  }

  /**
   A wait before an attempt: never longer than the maximum; without overflow at least the capped
   exponential, and at most half a base more.
   */
  predicate Delay(rp: RetryPolicy, attempt: nat, d: int) {
    && d <= rp.maxBackoff
    && (rp.baseBackoff >= 0 && rp.baseBackoff * Pow2(attempt) + rp.baseBackoff < TWO_TO_THE_63 ==>
          var ideal := rp.baseBackoff * Pow2(attempt);
          && d >= (if ideal < rp.maxBackoff then ideal else rp.maxBackoff)
          && 2 * d <= 2 * ideal + rp.baseBackoff
          && (!rp.jitter ==> d == if ideal < rp.maxBackoff then ideal else rp.maxBackoff))
  }

  /** The waits before one retry after the other. */
  predicate Paced(rp: RetryPolicy, waits: seq<int>) {
    forall i :: 0 <= i < |waits| ==> Delay(rp, i + 1, waits[i])
  }

  function Sum(waits: seq<int>): int {
    if waits == [] then 0 else Sum(waits[..|waits| - 1]) + waits[|waits| - 1]
  }

  /** Together they are bounded by their number times the maximum. */
  lemma {:induction false} PacedTotal(rp: RetryPolicy, waits: seq<int>)
    requires Paced(rp, waits)
    ensures Sum(waits) <= |waits| * rp.maxBackoff
  {
    if waits != [] {
      var n := |waits| - 1;
      PacedTotal(rp, waits[..n]);
      assert Delay(rp, n + 1, waits[n]);
      assert |waits| * rp.maxBackoff == n * rp.maxBackoff + rp.maxBackoff;
    }
  }

  /**
   The wait before an attempt. Converting a product outside the 64-bit range gives some
   64-bit value that depends on the machine; even then the wait is no longer than the maximum.
   */
  method Backoff(rp: RetryPolicy, attempt: nat) returns (d: int)
    ensures Delay(rp, attempt, d)
  {
    var product := rp.baseBackoff * Pow2(attempt);
    if -TWO_TO_THE_63 <= product < TWO_TO_THE_63 {
      d := product;
    } else {
      d := *;
    }
    if rp.jitter {
      var j := Jitter(rp.baseBackoff);
      d := Wrap(d + j);
    }
    if d > rp.maxBackoff {
      return rp.maxBackoff;
    }
  }
}
