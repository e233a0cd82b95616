// pkg/client/updater.go: the window arithmetic of FullJitterBackoff, in wrapping int64.
module Backoff {
  import opened Core

  const MILLISECOND := 1_000_000

  function Pow2(n: nat): (p: nat)
    ensures p >= 1
  {
    if n == 0 then 1 else 2 * Pow2(n - 1)
  }

  function NormalBase(base: int): int { if base <= 0 then 100 * MILLISECOND else base }

  function NormalMax(base: int, maxDelay: int): int {
    if maxDelay < NormalBase(base) then NormalBase(base) else maxDelay
  }

  function Clamp(attempt: int): nat { if attempt < 0 then 0 else if attempt > 30 then 30 else attempt }

  /** The documented window: min(maxDelay, base * 2^attempt), attempts past 30 counting as 30. */
  function Ideal(base: int, maxDelay: int, attempt: int): int {
    var grown := NormalBase(base) * Pow2(Clamp(attempt));
    if grown > NormalMax(base, maxDelay) then NormalMax(base, maxDelay) else grown
  }

  /** `base << attempt` keeps the low 64 bits. */
  function Shifted(base: int, attempt: int): int { Wrap64(NormalBase(base) * Pow2(Clamp(attempt))) }

  /** Doubling has outgrown int64 and wrapped to something that looks like a short window. */
  predicate WrapsShort(base: int, maxDelay: int, attempt: int) {
    && NormalBase(base) * Pow2(Clamp(attempt)) > MAX_INT64
    && 0 < Shifted(base, attempt) < NormalMax(base, maxDelay)
  }

  lemma {:induction false} PowGrows(m: nat, n: nat)
    requires m <= n
    ensures Pow2(m) <= Pow2(n)
  {
    if m < n {
      PowGrows(m, n - 1);
    }
  }

  lemma GrownIsPositive(base: int, attempt: int)
    ensures NormalBase(base) * Pow2(Clamp(attempt)) >= NormalBase(base) >= 1
  {
    var b, p := NormalBase(base), Pow2(Clamp(attempt));
    assert b * p == b + b * (p - 1) && b * (p - 1) >= 0;
  }

  /**
   * The window drawn from: never longer than documented, never empty, and exactly as
   * documented unless the doubling wrapped to a short one.
   */
  method Window(base: int, maxDelay: int, attempt: int) returns (window: int)
    requires IsInt64(base) && IsInt64(maxDelay) && IsInt64(attempt)
    ensures 1 <= window <= Ideal(base, maxDelay, attempt) <= MAX_INT64
    ensures window == Ideal(base, maxDelay, attempt) <==> !WrapsShort(base, maxDelay, attempt)
  {
    GrownIsPositive(base, attempt);
    var b, m, a := base, maxDelay, attempt;
    if b <= 0 {
      b := 100 * MILLISECOND;
    }
    if m < b {
      m := b;
    }
    if a < 0 {
      a := 0;
    }
    if a > 30 {
      a := 30;
    }
    window := Wrap64(b * Pow2(a));
    if window > m || window <= 0 {
      window := m;
    }
  }

  lemma PowThirty()
    ensures Pow2(30) == 1_073_741_824
  {
    assert Pow2(10) == 1024;
    assert Pow2(20) == 1024 * Pow2(10) by {
      assert Pow2(15) == 32 * Pow2(10);
      assert Pow2(20) == 32 * Pow2(15);
    }
    assert Pow2(25) == 32 * Pow2(20);
    assert Pow2(30) == 32 * Pow2(25);
  }

  /** Any base below 8.589934592 seconds is safe at every attempt, whatever the maximum. */
  lemma ShortBasesNeverWrap(base: int, maxDelay: int, attempt: int)
    requires base <= 8_589_934_591
    ensures !WrapsShort(base, maxDelay, attempt)
  {
    PowThirty();
    PowGrows(Clamp(attempt), 30);
    MulBound(NormalBase(base), 8_589_934_591, Pow2(Clamp(attempt)), Pow2(30));
  }

  lemma MulBound(a: nat, b: nat, p: nat, q: nat)
    requires a <= b && p <= q
    ensures a * p <= b * q
  {
    assert b * q == a * p + a * (q - p) + (b - a) * q;
  }

  /** A base of 2^34 + 1 nanoseconds and a half-minute maximum wrap to about a second. */
  lemma ALongBaseWrapsShort()
    ensures WrapsShort(17_179_869_185, 30_000 * MILLISECOND, 30)
    ensures Shifted(17_179_869_185, 30) == 1_073_741_824
    ensures Ideal(17_179_869_185, 30_000 * MILLISECOND, 30) == 30_000 * MILLISECOND
  {
    PowThirty();
    assert 17_179_869_185 * Pow2(30) == 17_179_869_185 * 1_073_741_824;
  }

  /**
   * The draw is over window + 1 values, which itself wraps, and is refused, when the window
   * is the largest int64; that takes a maximum that large.
   */
  lemma TheDrawIsDefined(base: int, maxDelay: int, attempt: int, window: int)
    requires IsInt64(maxDelay) && 1 <= window <= Ideal(base, maxDelay, attempt) && IsInt64(base)
    ensures Wrap64(window + 1) > 0 <==> window < MAX_INT64
    ensures NormalMax(base, maxDelay) < MAX_INT64 ==> Wrap64(window + 1) > 0
  {
  }

  /** The documented window, with what the defaults and the bounds on an attempt stand for. */
  lemma TheIdealWindow(base: int, maxDelay: int, attempt: int)
    ensures 0 < base <= maxDelay && 0 <= attempt <= 30 ==>
              var grown := base * Pow2(attempt);
              Ideal(base, maxDelay, attempt) == if grown < maxDelay then grown else maxDelay
    ensures base <= 0 ==> Ideal(base, maxDelay, attempt) == Ideal(100_000_000, maxDelay, attempt)
    ensures 0 < base && maxDelay < base ==> Ideal(base, maxDelay, attempt) == Ideal(base, base, attempt)
    ensures attempt < 0 ==> Ideal(base, maxDelay, attempt) == Ideal(base, maxDelay, 0)
    ensures attempt > 30 ==> Ideal(base, maxDelay, attempt) == Ideal(base, maxDelay, 30)
    ensures Pow2(0) == 1 && forall n: nat :: Pow2(n + 1) == 2 * Pow2(n)
  {
  }
}
