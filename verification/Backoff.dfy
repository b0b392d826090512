/** Jittered delays and exponential backoff, as both background loops compute them. */
module Backoff {
  import opened Prelude

  /** Cap on the exponential backoff: 24 hours. */
  const MAX_BACKOFF := 86_400

  function Pow2(n: nat): (r: nat)
    ensures r >= 1
  {
    if n == 0 then 1 else 2 * Pow2(n - 1)
  }

  /** One draw: `base` moved by the fraction `j`, rounded to whole seconds. */
  function Jitter(base: int, j: real): int {
    Round(base as real + base as real * j)
  }

  /** `d` is a value `jittered_interval(interval, frac)` can return. */
  ghost predicate IsJittered(interval: nat, frac: real, d: int) {
    exists j: real :: -frac <= j < frac && d == Jitter(interval, j)
  }

  function Target(attempt: int, interval: nat): nat {
    interval * Pow2(Max(1, Min(attempt, 16)))
  }

  function Capped(attempt: int, interval: nat): nat {
    Min(Target(attempt, interval), MAX_BACKOFF)
  }

  /** `d` is a value `backoff_for_attempt(attempt, interval)` can return. */
  ghost predicate IsBackoff(attempt: int, interval: nat, d: int) {
    IsJittered(Capped(attempt, interval), 0.15, d)
  }

  /** Rounding stays within half a second. */
  lemma RoundNear(x: real)
    ensures x - 0.5 <= Round(x) as real <= x + 0.5
  {}

  lemma ProductAtLeast(a: real, b: real)
    requires a >= 0.0 && b >= 0.0
    ensures a * b >= 0.0
  {}

  lemma Scaled(x: real, a: real, b: real)
    requires x >= 0.0 && a <= b
    ensures x * a <= x * b
  {
    ProductAtLeast(x, b - a);
    assert x * (b - a) == x * b - x * a;
  }

  lemma Band(x: real, frac: real, j: real, moved: real)
    requires x >= 0.0 && -frac <= j <= frac && moved == x * j
    ensures x * (1.0 - frac) <= x + moved <= x * (1.0 + frac)
  {
    Scaled(x, 1.0 - frac, 1.0 + j);
    Scaled(x, 1.0 + j, 1.0 + frac);
    assert x * (1.0 + j) == x + moved;
  }

  lemma RoundWithin(x: real, low: real, high: real)
    requires low <= x <= high
    ensures low - 0.5 <= Round(x) as real <= high + 0.5
  {
    RoundNear(x);
  }

  lemma DrawBand(base: nat, j: real, low: real, high: real, moved: real)
    requires moved == base as real * j
    requires low <= base as real + moved <= high
    ensures low - 0.5 <= Jitter(base, j) as real <= high + 0.5
  {
    RoundWithin(base as real + moved, low, high);
  }

  /** A jittered delay stays within its band, up to rounding. */
  lemma JitterBand(interval: nat, frac: real, d: int)
    requires 0.0 <= frac <= 1.0 && IsJittered(interval, frac, d)
    ensures interval as real * (1.0 - frac) - 0.5 <= d as real <= interval as real * (1.0 + frac) + 0.5
  {
    var j: real :| -frac <= j < frac && d == Jitter(interval, j);
    var x, moved := interval as real, interval as real * j;
    Band(x, frac, j, moved);
    DrawBand(interval, j, x * (1.0 - frac), x * (1.0 + frac), moved);
  }

  lemma WaitedAtLeast(waited: int, d: int, low: real)
    requires waited >= d && d as real >= low
    ensures waited as real >= low
  {}

  /** A nominal delay of two seconds or more stays positive. */
  lemma JitterPositive(interval: nat, frac: real, d: int)
    requires 0.0 <= frac <= 0.15 && interval >= 2 && IsJittered(interval, frac, d)
    ensures d >= 1
  {
    JitterBand(interval, frac, d);
    var x, y := interval as real, 1.0 - frac;
    ProductAtLeast(x - 2.0, y);
    assert x * y == (x - 2.0) * y + 2.0 * y;
  }

  lemma CappedBand(attempt: int, interval: nat, d: int)
    requires IsBackoff(attempt, interval, d)
    ensures 0.85 * Capped(attempt, interval) as real - 0.5 <= d as real
         <= 1.15 * Capped(attempt, interval) as real + 0.5
  {
    JitterBand(Capped(attempt, interval), 0.15, d);
  }

  lemma BackoffPositive(attempt: int, interval: nat, d: int)
    requires interval >= 1 && IsBackoff(attempt, interval, d)
    ensures d >= 1
  {
    var e := Max(1, Min(attempt, 16));
    assert Pow2(e) == 2 * Pow2(e - 1);
    assert Target(attempt, interval) >= 2 by { TimesAtLeast(interval, Pow2(e)); }
    JitterPositive(Capped(attempt, interval), 0.15, d);
  }

  lemma TimesAtLeast(a: nat, b: nat)
    requires a >= 1
    ensures a * b >= b
  {}

  lemma TargetDoubles(attempt: int, interval: nat)
    requires 1 <= attempt < 16 && interval >= 1
    ensures Target(attempt + 1, interval) == 2 * Target(attempt, interval) && Target(attempt, interval) >= 2
  {
    var p := Pow2(attempt);
    assert p == 2 * Pow2(attempt - 1);
    assert Pow2(attempt + 1) == 2 * p;
    TimesAtLeast(interval, p);
    assert interval * (2 * p) == 2 * (interval * p);
  }

  /** Once both delays are capped, a later backoff can be the shorter one. */
  lemma CappedBackoffCanShrink()
    ensures exists d, d' :: IsBackoff(5, 3600, d) && IsBackoff(6, 3600, d') && d' < d
  {
    assert Pow2(5) == 32 && Pow2(6) == 64;
    assert Capped(5, 3600) == MAX_BACKOFF && Capped(6, 3600) == MAX_BACKOFF;
    var d, d' := Jitter(MAX_BACKOFF, 0.1), Jitter(MAX_BACKOFF, -0.1);
    assert IsBackoff(5, 3600, d) && IsBackoff(6, 3600, d');
  }

  // ---------------------------------------------------------------------
  // Exactly when the next backoff is the longer one
  // ---------------------------------------------------------------------

  /** The longest and the shortest delay a 15% jitter of `base` can give. */
  function Longest(base: nat): nat { (23 * base + 9) / 20 }

  function Shortest(base: nat): nat { (17 * base + 10) / 20 }

  lemma StrictlyScaled(x: real, a: real, b: real)
    requires x > 0.0 && a < b
    ensures x * a < x * b
  {
    assert x * (b - a) > 0.0;
    assert x * (b - a) == x * b - x * a;
  }

  /** `x` is a point of the 15% band around `b`. */
  predicate IsInBand(b: real, x: real) {
    17.0 * b <= 20.0 * x < 23.0 * b
  }

  lemma FactorInBand(b: real, q: real, x: real)
    requires b > 0.0 && b * q == x && IsInBand(b, x)
    ensures 0.85 <= q < 1.15
  {
    if q < 0.85 {
      StrictlyScaled(b, q, 0.85);
    } else if q >= 1.15 {
      Scaled(b, 1.15, q);
    }
  }

  lemma FactorGives(b: real, q: real, x: real)
    requires b * q == x
    ensures b + b * (q - 1.0) == x
  {
    assert b * (q - 1.0) == b * q - b;
  }

  lemma Quotient(b: real, x: real) returns (q: real)
    requires b > 0.0
    ensures b * q == x
  {
    q := x / b;
  }

  /** Any delay that rounds from a point of the band can be drawn. */
  lemma CanBeDrawn(base: nat, x: real)
    requires base > 0 && IsInBand(base as real, x)
    ensures IsJittered(base, 0.15, Round(x))
  {
    var q := Quotient(base as real, x);
    FactorInBand(base as real, q, x);
    FactorGives(base as real, q, x);
    assert Jitter(base, q - 1.0) == Round(x);
  }

  lemma LongestIsDrawn(base: nat)
    ensures IsJittered(base, 0.15, Longest(base))
  {
    var b, d := base as real, Longest(base);
    if base == 0 {
      assert Jitter(0, 0.0) == 0;
    } else {
      var x := if d as real - 0.5 >= 0.85 * b then d as real - 0.5 else 0.85 * b;
      assert Round(x) == d;
      CanBeDrawn(base, x);
    }
  }

  lemma ShortestIsDrawn(base: nat)
    ensures IsJittered(base, 0.15, Shortest(base))
  {
    var b := base as real;
    if base == 0 {
      assert Jitter(0, 0.0) == 0;
    } else {
      assert Round(0.85 * b) == Shortest(base);
      CanBeDrawn(base, 0.85 * b);
    }
  }

  lemma RoundBetween(base: nat, x: real)
    requires IsInBand(base as real, x)
    ensures Shortest(base) <= Round(x) <= Longest(base)
  {}

  lemma StrictBand(b: real, j: real, x: real)
    requires b > 0.0 && -0.15 <= j < 0.15 && x == b + b * j
    ensures IsInBand(b, x)
  {
    Scaled(b, -0.15, j);
    StrictlyScaled(b, j, 0.15);
  }

  /** And no draw is outside the two. */
  lemma DrawsAreBetween(base: nat, d: int)
    requires IsJittered(base, 0.15, d)
    ensures Shortest(base) <= d <= Longest(base)
  {
    var j: real :| -0.15 <= j < 0.15 && d == Jitter(base, j);
    var x := base as real + base as real * j;
    if base == 0 {
      assert x == 0.0;
    } else {
      StrictBand(base as real, j, x);
      RoundBetween(base, x);
    }
  }

  /** A whole number of seconds in the band, or just outside it on the side it rounds from. */
  lemma BetweenIsDrawn(base: nat, d: int)
    requires Shortest(base) <= d <= Longest(base)
    ensures IsJittered(base, 0.15, d)
  {
    if d == Shortest(base) {
      ShortestIsDrawn(base);
    } else if d == Longest(base) {
      LongestIsDrawn(base);
    } else {
      assert Round(d as real) == d;
      CanBeDrawn(base, d as real);
    }
  }

  // ---------------------------------------------------------------------
  // The law in the caller's terms
  // ---------------------------------------------------------------------

  /** Attempt 1 waits twice the interval and each further one twice as long as the last, up to a day. */
  ghost predicate AreNominal(ns: seq<nat>, interval: nat) {
    && |ns| == 16
    && ns[0] == Min(2 * interval, 86_400)
    && forall k | 0 <= k < 15 :: ns[k + 1] == Min(2 * ns[k], 86_400)
  }

  /** The nominal delay of an attempt; attempts below 1 and above 16 are those of 1 and 16. */
  function NominalOf(ns: seq<nat>, attempt: int): nat
    requires |ns| == 16
  {
    if attempt < 1 then ns[0] else if attempt > 16 then ns[15] else ns[attempt - 1]
  }

  lemma {:induction false} CappedIsNominal(ns: seq<nat>, attempt: nat, interval: nat)
    requires AreNominal(ns, interval) && 1 <= attempt <= 16
    ensures Capped(attempt, interval) == ns[attempt - 1]
    decreases attempt
  {
    if attempt == 1 {
      assert Pow2(1) == 2 * Pow2(0) == 2;
    } else {
      CappedIsNominal(ns, attempt - 1, interval);
      assert ns[attempt - 2 + 1] == Min(2 * ns[attempt - 2], 86_400);
      if interval >= 1 { TargetDoubles(attempt - 1, interval); }
    }
  }

  lemma CappedIs(ns: seq<nat>, attempt: int, interval: nat)
    requires AreNominal(ns, interval)
    ensures Capped(attempt, interval) == NominalOf(ns, attempt)
  {
    CappedIsNominal(ns, Max(1, Min(attempt, 16)), interval);
  }

  /**
   * The delays a backoff can take are exactly the whole seconds within 15% of
   * the nominal delay, up to rounding.
   */
  lemma BackoffBand(ns: seq<nat>, attempt: int, interval: nat, d: int)
    requires AreNominal(ns, interval)
    ensures var n := NominalOf(ns, attempt);
            IsBackoff(attempt, interval, d) <==> (17 * n + 10) / 20 <= d <= (23 * n + 9) / 20
  {
    CappedIs(ns, attempt, interval);
    var n := NominalOf(ns, attempt);
    if IsBackoff(attempt, interval, d) {
      DrawsAreBetween(n, d);
    }
    if (17 * n + 10) / 20 <= d <= (23 * n + 9) / 20 {
      BetweenIsDrawn(n, d);
    }
  }

  /** Every 15% draw from `c` is below every such draw from `c'`. */
  ghost predicate Below(c: nat, c': nat) {
    forall d, d' | IsJittered(c, 0.15, d) && IsJittered(c', 0.15, d') :: d < d'
  }

  lemma BelowExactly(c: nat, c': nat)
    ensures Below(c, c') <==> Longest(c) < Shortest(c')
  {
    LongestIsDrawn(c);
    ShortestIsDrawn(c');
    forall d, d' | IsJittered(c, 0.15, d) && IsJittered(c', 0.15, d') ensures d <= Longest(c) && Shortest(c') <= d' {
      DrawsAreBetween(c, d);
      DrawsAreBetween(c', d');
    }
  }

  lemma NominalsExist(interval: nat) returns (ns: seq<nat>)
    ensures AreNominal(ns, interval)
  {
    ns := seq(16, k requires 0 <= k < 16 => Capped(k + 1, interval));
    assert Pow2(1) == 2 * Pow2(0) == 2;
    forall k | 0 <= k < 15 ensures ns[k + 1] == Min(2 * ns[k], 86_400) {
      if interval >= 1 { TargetDoubles(k + 1, interval); }
    }
  }

  /**
   * While twice the nominal delay is still within the cap, the next delay is
   * strictly longer whatever the two jitters are.
   */
  lemma BackoffGrows(ns: seq<nat>, attempt: int, interval: nat, d: int, d': int)
    requires AreNominal(ns, interval) && 1 <= attempt < 16 && interval >= 1
    requires 2 * NominalOf(ns, attempt) <= 86_400
    requires IsBackoff(attempt, interval, d) && IsBackoff(attempt + 1, interval, d')
    ensures d < d'
  {
    CappedIsNominal(ns, attempt, interval);
    TargetDoubles(attempt, interval);
    CappedBand(attempt, interval, d);
    CappedBand(attempt + 1, interval, d');
  }

  /** Whatever the two jitters, the backoff for `next` is longer than the one for `attempt`. */
  ghost predicate AlwaysGrows(attempt: int, next: int, interval: nat) {
    forall d, d' | IsBackoff(attempt, interval, d) && IsBackoff(next, interval, d') :: d < d'
  }

  /**
   * A later backoff is the longer one, whatever the jitters, exactly when the
   * longest draw of the one nominal delay is below the shortest of the other.
   */
  lemma BackoffGrowsExactly(ns: seq<nat>, attempt: int, next: int, interval: nat)
    requires AreNominal(ns, interval)
    ensures AlwaysGrows(attempt, next, interval)
       <==> (23 * NominalOf(ns, attempt) + 9) / 20 < (17 * NominalOf(ns, next) + 10) / 20
  {
    CappedIs(ns, attempt, interval);
    CappedIs(ns, next, interval);
    var c, c' := Capped(attempt, interval), Capped(next, interval);
    BelowExactly(c, c');
    if AlwaysGrows(attempt, next, interval) {
      forall d, d' | IsJittered(c, 0.15, d) && IsJittered(c', 0.15, d') ensures d < d' {
        assert IsBackoff(attempt, interval, d) && IsBackoff(next, interval, d');
      }
    }
  }
}
