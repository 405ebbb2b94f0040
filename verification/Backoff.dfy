/** The wait between two attempts: exponential backoff with full jitter, or a capped Retry-After. */
module Backoff {
  import opened Base
  import opened Decimal
  import opened Int64

  /** The retry settings of a client. */
  datatype Policy = Policy(maxRetries: int, waitMin: int64, waitMax: int64) {
    /** What the option setters keep true. */
    predicate Valid() {
      maxRetries >= 0 && 0 < waitMin <= waitMax
    }
  }

  const DEFAULT_POLICY := Policy(2, 500_000_000, 30 * SECOND)

  /** The jitter ceiling: the wrapping shift, replaced by the maximum when it leaves (0, max]. */
  function Ceiling(p: Policy, attempt: nat): int64 {
    var d := Shl(p.waitMin, attempt);
    if d <= 0 || d > p.waitMax then p.waitMax else d
  }

  /** The backoff for one attempt; draw stands for the random source, reduced to [0, span]. */
  function Wait(p: Policy, attempt: nat, draw: nat): int64 {
    var span := Wrap(Ceiling(p, attempt) - p.waitMin);
    if span <= 0 then p.waitMin else Wrap(p.waitMin + draw % (span + 1))
  }

  /** The Retry-After field: seconds, or a date whose distance from now is until. */
  function RetryAfter(header: string, until: Option<int64>): int64 {
    if header == "" then 0
    else match ParseInt64(header)
      case Some(secs) => Seconds(secs)
      case None => if until.Some? && until.value > 0 then until.value else 0
  }

  /** The wait requested before the next attempt; retryAfter is 0 when there was no response. */
  function RetryWait(p: Policy, attempt: nat, draw: nat, retryAfter: int64): int64 {
    if retryAfter > 0 then Min(retryAfter, p.waitMax) else Wait(p, attempt, draw)
  }

  /** The backoff of a clamped exponential on unbounded integers. */
  function IdealCeiling(p: Policy, attempt: nat): int {
    Min(p.waitMin * Pow2(attempt), p.waitMax)
  }

  /** The backoff stays within the configured bounds, and no int64 operation in it wraps. */
  lemma WaitWithinBounds(p: Policy, attempt: nat, draw: nat)
    requires p.Valid()
    ensures p.waitMin <= Wait(p, attempt, draw) <= Max(p.waitMin, Ceiling(p, attempt)) <= p.waitMax
    ensures var span := Ceiling(p, attempt) - p.waitMin;
            Fits(span) && Fits(span + 1) && (span > 0 ==> Fits(p.waitMin + draw % (span + 1)))
  {
    var span := Ceiling(p, attempt) - p.waitMin;
    if span > 0 {
      assert 0 <= draw % (span + 1) <= span;
    }
  }

  /** The draw decides the wait evenly: each value from the minimum to the ceiling by its own residue. */
  lemma WaitReachedIff(p: Policy, attempt: nat, draw: nat, d: int)
    requires p.Valid() && p.waitMin <= d <= Max(p.waitMin, Ceiling(p, attempt))
    ensures Wait(p, attempt, draw) == d <==>
      draw % (Max(p.waitMin, Ceiling(p, attempt)) - p.waitMin + 1) == d - p.waitMin
  {
    WaitWithinBounds(p, attempt, draw);
    var span := Ceiling(p, attempt) - p.waitMin;
    if span <= 0 {
      assert draw % 1 == 0;
    } else {
      assert 0 <= draw % (span + 1) <= span;
    }
  }

  lemma EveryWaitReached(p: Policy, attempt: nat, d: int) returns (draw: nat)
    requires p.Valid() && p.waitMin <= d <= Max(p.waitMin, Ceiling(p, attempt))
    ensures Wait(p, attempt, draw) == d
  {
    draw := d - p.waitMin;
    WaitReachedIff(p, attempt, draw, d);
    Residue(draw, Max(p.waitMin, Ceiling(p, attempt)) - p.waitMin + 1);
  }

  lemma Residue(a: nat, m: nat)
    requires a < m
    ensures a % m == a
  {
  }

  /** A Retry-After that is not a number is the distance of its date from now, if it is a date to come. */
  lemma RetryAfterDate(header: string, until: Option<int64>)
    requires ParseInt64(header).None?
    ensures RetryAfter(header, until) == if header != "" && until.Some? then Max(until.value, 0) else 0
  {
  }

  /** A positive Retry-After replaces the backoff, up to the maximum; any other leaves it. */
  lemma RetryAfterWins(p: Policy, attempt: nat, draw: nat, asked: int64)
    ensures asked > 0 ==> RetryWait(p, attempt, draw, asked) == Min(asked, p.waitMax)
    ensures asked <= 0 ==> RetryWait(p, attempt, draw, asked) == Wait(p, attempt, draw)
  {
  }

  /** Every requested wait is positive and at most the maximum, whatever the server sent. */
  lemma RetryWaitWithinBounds(p: Policy, attempt: nat, draw: nat, header: string, until: Option<int64>)
    requires p.Valid()
    ensures 0 < RetryWait(p, attempt, draw, RetryAfter(header, until)) <= p.waitMax
  {
    WaitWithinBounds(p, attempt, draw);
  }

  /** A Retry-After of secs seconds, however written, is the delay asked for exactly if the product fits a Duration. */
  lemma RetryAfterExactIff(header: string, until: Option<int64>, secs: int64)
    requires ParseInt64(header) == Some(secs)
    ensures RetryAfter(header, until) == secs * SECOND <==> -(MAX / SECOND) <= secs <= MAX / SECOND
  {
  }

  /** A request to wait 2^64 + d nanoseconds (584 years and d) is taken as a wait of d. */
  lemma RetryAfterCanShrink(header: string, until: Option<int64>, secs: int64, d: int64)
    requires ParseInt64(header) == Some(secs) && secs * SECOND == TWO_64 + d
    ensures RetryAfter(header, until) == d
  {
  }

  /** The ceiling is the ideal one exactly when the shift does not wrap into the open interval (0, max). */
  lemma CeilingIdealIff(p: Policy, attempt: nat)
    requires p.Valid()
    ensures Ceiling(p, attempt) == IdealCeiling(p, attempt) <==>
      Fits(p.waitMin * Pow2(attempt)) || !(0 < Shl(p.waitMin, attempt) < p.waitMax)
  {
    ShiftPositive(p, attempt);
  }

  lemma ShiftPositive(p: Policy, attempt: nat)
    requires p.Valid()
    ensures p.waitMin * Pow2(attempt) >= p.waitMin > 0
  {
    assert p.waitMin * (Pow2(attempt) - 1) >= 0;
  }

  /**
   * Writing min as m * 2^v, a product m * max of at most 2^63 keeps every attempt on the ideal
   * curve: a positive wrapped shift is a multiple of 2^(v + attempt), hence at least max.
   */
  lemma CeilingIdealForBounds(p: Policy, m: nat, v: nat, attempt: nat)
    requires p.Valid()
    requires p.waitMin == m * Pow2(v)
    requires m * p.waitMax <= TWO_63
    ensures Ceiling(p, attempt) == IdealCeiling(p, attempt)
  {
    Pow2Add(v, attempt);
    Regrouped(m, Pow2(v), Pow2(attempt));
    assert p.waitMin * Pow2(attempt) == m * Pow2(v + attempt);
    ShiftPositive(p, attempt);
    if m * Pow2(v + attempt) >= TWO_63 {
      WrapsAbove(m, v + attempt, p.waitMax);
    }
  }

  lemma Regrouped(m: int, a: int, b: int)
    ensures (m * a) * b == m * (a * b)
  {
  }

  /** A multiple of a large power of two that overflows wraps to nothing positive below the bound. */
  lemma WrapsAbove(m: nat, k: nat, bound: int)
    requires m * bound <= TWO_63 <= m * Pow2(k)
    ensures Wrap(m * Pow2(k)) <= 0 || Wrap(m * Pow2(k)) >= bound
  {
    if k >= 64 {
      Pow2Add(64, k - 64);
      Pow2Of64();
      ShiftedOut(m, Pow2(k - 64));
    } else {
      var u := WrapKeepsPow2Multiple(m, k);
      Dominates(m, Pow2(k), u, bound);
    }
  }

  lemma ShiftedOut(m: int, b: int)
    ensures Wrap(m * (TWO_64 * b)) == 0
  {
    assert m * (TWO_64 * b) == (m * b) * TWO_64;
  }

  lemma Dominates(m: nat, b: int, u: int, bound: int)
    requires b > 0 && m * bound <= TWO_63
    ensures m * b >= TWO_63 && u * b > 0 ==> u * b >= bound
  {
    if m * b >= TWO_63 && u * b > 0 {
      CancelFactor(m, bound, b);
      CancelFactor(b, 1, u);
      assert b * u >= b * 1;
    }
  }

  /** A positive factor cancels from an inequality; b * u > 0 forces u >= 1. */
  lemma CancelFactor(m: nat, c: int, b: int)
    requires m > 0
    requires m * c <= m * b || (c == 1 && m * b > 0)
    ensures c <= b
  {
  }

  /** With the default 500 ms and 30 s, every attempt number has the ideal ceiling. */
  lemma DefaultsIdeal(attempt: nat)
    ensures Ceiling(DEFAULT_POLICY, attempt) == IdealCeiling(DEFAULT_POLICY, attempt)
  {
    assert Pow2(8) == 256 by {
      Pow2Add(4, 4);
    }
    CeilingIdealForBounds(DEFAULT_POLICY, 1_953_125, 8, attempt);
  }

  /** Bounds that wrap into (0, max): the ceiling of the third attempt falls below the minimum. */
  lemma CeilingCanCollapse()
    ensures var p := Policy(2, 0x4000_0000_0000_0001, MAX);
            p.Valid() && Ceiling(p, 2) == 4 && IdealCeiling(p, 2) == MAX
  {
    assert Pow2(2) == 4;
  }
}
