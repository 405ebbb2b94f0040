/** Go's int64 (and time.Duration) as a bounded integer with explicit wrap-around. */
module Int64 {

  const MAX: int := 0x7FFF_FFFF_FFFF_FFFF
  const MIN: int := -0x8000_0000_0000_0000
  const TWO_63: int := 0x8000_0000_0000_0000
  const TWO_64: int := 0x1_0000_0000_0000_0000

  const SECOND: int := 1_000_000_000

  type int64 = x: int | MIN <= x <= MAX

  predicate Fits(x: int) {
    MIN <= x <= MAX
  }

  /** Reduction modulo 2^64 into the signed range, as every Go int64 operator does. */
  function Wrap(x: int): (r: int64)
    ensures (x - r) % TWO_64 == 0
    ensures Fits(x) ==> r == x
  {
    (x + TWO_63) % TWO_64 - TWO_63
  }

  /** Wrap reads the low 64 bits as a signed number. */
  lemma WrapIsLowBits(x: int)
    ensures Wrap(x) == if x % TWO_64 < TWO_63 then x % TWO_64 else x % TWO_64 - TWO_64
  {
    WholeTurns(x % TWO_64 + TWO_63, x / TWO_64);
    assert x + TWO_63 == x % TWO_64 + TWO_63 + x / TWO_64 * TWO_64;
  }

  lemma WrapTwice(x: int, y: int)
    ensures Wrap(Wrap(x) + y) == Wrap(x + y)
  {
    var q := (x - Wrap(x)) / TWO_64;
    assert x - Wrap(x) == q * TWO_64;
    assert x + y + TWO_63 == Wrap(x) + y + TWO_63 + q * TWO_64;
    WholeTurns(Wrap(x) + y + TWO_63, q);
  }

  lemma WholeTurns(a: int, q: int)
    ensures (a + q * TWO_64) % TWO_64 == a % TWO_64
  {
  }

  function Pow2(n: nat): (r: int)
    ensures r >= 1
  {
    if n == 0 then 1 else 2 * Pow2(n - 1)
  }

  /** x << n: counts of 64 or more shift every bit out. */
  function Shl(x: int64, n: nat): int64 {
    Wrap(x * Pow2(n))
  }

  /** time.Duration(s) * time.Second for an int64 s. */
  function Seconds(s: int64): int64 {
    Wrap(s * SECOND)
  }

  lemma {:induction false} Pow2Add(a: nat, b: nat)
    ensures Pow2(a + b) == Pow2(a) * Pow2(b)
  {
    if a != 0 {
      Pow2Add(a - 1, b);
      assert Pow2(a + b) == 2 * Pow2(a - 1 + b);
    }
  }

  lemma Pow2Of64()
    ensures Pow2(64) == TWO_64
  {
    Pow2Add(8, 8);
    Pow2Add(16, 16);
    Pow2Add(32, 32);
    assert Pow2(8) == 256 by {
      Pow2Add(4, 4);
    }
  }

  /** Wrapping keeps divisibility by any power of two up to 2^64. */
  lemma WrapKeepsPow2Multiple(t: int, k: nat) returns (u: int)
    requires k <= 64
    ensures Wrap(t * Pow2(k)) == u * Pow2(k)
  {
    var x := t * Pow2(k);
    var q := (x - Wrap(x)) / TWO_64;
    assert x - Wrap(x) == q * TWO_64;
    Pow2Of64();
    Pow2Add(64 - k, k);
    Regroup(t, q, Pow2(64 - k), Pow2(k), TWO_64);
    u := t - q * Pow2(64 - k);
  }

  lemma Regroup(t: int, q: int, a: int, b: int, c: int)
    requires a * b == c
    ensures t * b - q * c == (t - q * a) * b
  {
    assert q * c == (q * a) * b;
  }
}
