/**
 The two back-off rules in closed form. The server doubles its delay while it is below the
 maximum, in 64-bit arithmetic, and so may pass the maximum; the caller takes the minimum of the
 doubled delay and the maximum.
 */
module Backoff {

  function Pow2(k: nat): nat {
    if k == 0 then 1 else 2 * Pow2(k - 1)
  }

  /** `base` doubled `k` times. */
  function Doubled(base: int, k: nat): int {
    if k == 0 then base else 2 * Doubled(base, k - 1)
  }

  lemma {:induction false} DoubledIsPower(base: int, k: nat)
    ensures Doubled(base, k) == base * Pow2(k)
  {
    if k > 0 {
      DoubledIsPower(base, k - 1);
      assert base * (2 * Pow2(k - 1)) == 2 * (base * Pow2(k - 1));
    }
  }

  lemma {:induction false} DoubledGrows(base: int, i: nat, j: nat)
    requires base > 0 && i <= j
    ensures 0 < Doubled(base, i) <= Doubled(base, j)
  {
    if i < j {
      DoubledGrows(base, i, j - 1);
    } else if i > 0 {
      DoubledGrows(base, i - 1, i - 1);
    }
  }

  lemma {:induction false} DoubledShift(base: int, k: nat)
    ensures Doubled(2 * base, k) == Doubled(base, k + 1)
  {
    if k > 0 {
      DoubledShift(base, k - 1);
    }
  }

  const TWO63: int := 0x8000_0000_0000_0000
  const TWO64: int := 0x1_0000_0000_0000_0000

  /** Reduction to a signed 64-bit integer of a doubled one, which is off by at most 2^64. */
  function Wrap64(x: int): (w: int)
    ensures -TWO64 <= x < TWO64 ==> -TWO63 <= w < TWO63 && (w == x || w == x - TWO64 || w == x + TWO64)
  {
    if x >= TWO63 then x - TWO64 else if x < -TWO63 then x + TWO64 else x
  }

  /** The number of doublings that take `base` to `max` or beyond. */
  function Doublings(base: int, max: int): nat
    requires base > 0
    decreases max - base
  {
    if base >= max then 0 else 1 + Doublings(2 * base, max)
  }

  lemma {:induction false} DoublingsIsLeast(base: int, max: int)
    requires base > 0
    ensures Doubled(base, Doublings(base, max)) >= max
    ensures forall k: nat :: k < Doublings(base, max) ==> Doubled(base, k) < max
    decreases max - base
  {
    if base < max {
      DoublingsIsLeast(2 * base, max);
      DoubledShift(base, Doublings(2 * base, max));
      forall k: nat | k < Doublings(base, max) ensures Doubled(base, k) < max {
        if k > 0 { DoubledShift(base, k - 1); }
      }
    }
  }

  /** In powers of two: the least K with base * 2^K >= max. */
  lemma LeastPower(base: int, max: int)
    requires base > 0
    ensures base * Pow2(Doublings(base, max)) >= max
    ensures forall k: nat :: k < Doublings(base, max) ==> base * Pow2(k) < max
  {
    DoublingsIsLeast(base, max);
    DoubledIsPower(base, Doublings(base, max));
    forall k: nat | k < Doublings(base, max) ensures base * Pow2(k) < max {
      DoubledIsPower(base, k);
    }
  }

  function Min(a: int, b: int): int {
    if a <= b then a else b
  }

  // ----- the server's rule

  function GoNext(delay: int, max: int): int {
    if delay < max then Wrap64(delay * 2) else delay
  }

  /** The delay after `k` failures in a row. */
  function GoDelay(base: int, max: int, k: nat): int {
    if k == 0 then base else GoNext(GoDelay(base, max, k - 1), max)
  }

  lemma {:induction false} GoBelowMax(base: int, max: int, k: nat)
    requires 0 < base && max < TWO63 && k < Doublings(base, max)
    ensures GoDelay(base, max, k) == Doubled(base, k)
  {
    DoublingsIsLeast(base, max);
    if k > 0 {
      GoBelowMax(base, max, k - 1);
      DoubledGrows(base, k - 1, k);
    }
  }

  lemma {:induction false} GoDoubles(base: int, max: int, k: nat)
    requires 0 < base && Doubled(base, Doublings(base, max)) < TWO63
    ensures GoDelay(base, max, k) == Doubled(base, Min(k, Doublings(base, max)))
  {
    var d := Doublings(base, max);
    DoublingsIsLeast(base, max);
    if k > 0 {
      GoDoubles(base, max, k - 1);
      if k <= d {
        DoubledGrows(base, k, d);
      }
    }
  }

  /** As long as the doubling stays below 2^63: base * 2^min(k, K), K as in `LeastPower`. */
  lemma GoClosedForm(base: int, max: int, k: nat)
    requires 0 < base && base * Pow2(Doublings(base, max)) < TWO63
    ensures GoDelay(base, max, k) == base * Pow2(Min(k, Doublings(base, max)))
  {
    DoubledIsPower(base, Doublings(base, max));
    DoubledIsPower(base, Min(k, Doublings(base, max)));
    GoDoubles(base, max, k);
  }

  /**
   Every delay is positive if and only if the last doubling still fits in 63 bits; otherwise the
   delay wraps to a negative one, with which the loop no longer waits.
   */
  lemma GoDelaysPositiveIff(base: int, max: int)
    requires 0 < base < TWO63 && max < TWO63
    ensures (forall k: nat :: GoDelay(base, max, k) > 0) <==> base * Pow2(Doublings(base, max)) < TWO63
  {
    var d := Doublings(base, max);
    DoublingsIsLeast(base, max);
    DoubledIsPower(base, d);
    if Doubled(base, d) < TWO63 {
      forall k: nat ensures GoDelay(base, max, k) > 0 {
        GoDoubles(base, max, k);
        DoubledGrows(base, 0, Min(k, d));
      }
    } else {
      GoBelowMax(base, max, d - 1);
      assert GoDelay(base, max, d) == Wrap64(Doubled(base, d));
    }
  }

  /** The delay stays below twice the maximum, and within the maximum only if a power of two hits it. */
  lemma GoOvershoot(base: int, max: int)
    requires 0 < base && base * Pow2(Doublings(base, max)) < TWO63
    ensures base < 2 * max ==> forall k: nat :: GoDelay(base, max, k) < 2 * max
    ensures (forall k: nat :: GoDelay(base, max, k) <= max) <==> base * Pow2(Doublings(base, max)) == max
  {
    var d := Doublings(base, max);
    DoublingsIsLeast(base, max);
    DoubledIsPower(base, d);
    assert d > 0 ==> Doubled(base, d - 1) < max;
    forall k: nat ensures GoDelay(base, max, k) <= Doubled(base, d) {
      GoDoubles(base, max, k);
      DoubledGrows(base, Min(k, d), d);
    }
    GoDoubles(base, max, d);
  }

  /** With the program's defaults, one second and thirty, the delays grow to thirty-two seconds. */
  lemma DefaultsOvershoot()
    ensures var second := 1_000_000_000;
            && (forall k: nat :: 5 <= k ==> GoDelay(second, 30 * second, k) == 32 * second)
            && GoDelay(second, 30 * second, 4) == 16 * second
  {
    var second := 1_000_000_000;
    assert Doublings(32 * second, 30 * second) == 0;
    assert Doublings(16 * second, 30 * second) == 1;
    assert Doublings(8 * second, 30 * second) == 2;
    assert Doublings(4 * second, 30 * second) == 3;
    assert Doublings(2 * second, 30 * second) == 4;
    assert Doublings(second, 30 * second) == 5;
    assert Doubled(second, 2) == 4 * second && Doubled(second, 4) == 16 * second && Doubled(second, 5) == 32 * second;
    forall k: nat | 4 <= k ensures GoDelay(second, 30 * second, k) == Doubled(second, Min(k, 5)) {
      GoDoubles(second, 30 * second, k);
    }
  }

  // ----- the caller's rule

  const TWO62: int := 0x4000_0000_0000_0000

  function KotlinNext(delay: int, max: int): int {
    Min(Wrap64(delay * 2), max)
  }

  /** The delay after `k` failures in a row. */
  function KotlinDelay(base: int, max: int, k: nat): int {
    if k == 0 then base else KotlinNext(KotlinDelay(base, max, k - 1), max)
  }

  /** The delays before the first `n` retries. */
  function KotlinDelays(base: int, max: int, n: nat): (d: seq<int>)
    ensures |d| == n
  {
    if n == 0 then [] else KotlinDelays(base, max, n - 1) + [KotlinDelay(base, max, n - 1)]
  }

  lemma {:induction false} KotlinDelaysAt(base: int, max: int, n: nat, i: nat)
    requires i < n
    ensures KotlinDelays(base, max, n)[i] == KotlinDelay(base, max, i)
  {
    if i < n - 1 {
      KotlinDelaysAt(base, max, n - 1, i);
    }
  }

  lemma {:induction false} KotlinDoubles(base: int, max: int, k: nat)
    requires 0 < base <= max < TWO62
    ensures KotlinDelay(base, max, k) == Min(Doubled(base, k), max)
  {
    DoubledGrows(base, k, k);
    if k > 0 {
      KotlinDoubles(base, max, k - 1);
      DoubledGrows(base, k - 1, k - 1);
    }
  }

  lemma KotlinClosedForm(base: int, max: int, k: nat)
    requires 0 < base <= max < TWO62
    ensures KotlinDelay(base, max, k) == Min(base * Pow2(k), max)
  {
    KotlinDoubles(base, max, k);
    DoubledIsPower(base, k);
  }

  /** The delays before the first `n` retries, in closed form. */
  lemma KotlinDelaysClosed(base: int, max: int, n: nat)
    requires 0 < base <= max < TWO62
    ensures forall i :: 0 <= i < n ==> KotlinDelays(base, max, n)[i] == Min(base * Pow2(i), max)
  {
    forall i | 0 <= i < n ensures KotlinDelays(base, max, n)[i] == Min(base * Pow2(i), max) {
      KotlinDelaysAt(base, max, n, i);
      KotlinClosedForm(base, max, i);
    }
  }

  lemma {:induction false} KotlinBelowMax(base: int, max: int, k: nat)
    requires 0 < base && max < TWO63 && k < Doublings(base, max)
    ensures KotlinDelay(base, max, k) == Doubled(base, k)
  {
    DoublingsIsLeast(base, max);
    if k > 0 {
      KotlinBelowMax(base, max, k - 1);
      DoubledGrows(base, k - 1, k);
    }
  }

  /** Every delay is positive, and so a legal argument of sleep, if and only if the maximum is below 2^62. */
  lemma KotlinDelaysPositiveIff(base: int, max: int)
    requires 0 < base <= max < TWO63
    ensures (forall k: nat :: KotlinDelay(base, max, k) > 0) <==> max < TWO62
  {
    if max < TWO62 {
      forall k: nat ensures KotlinDelay(base, max, k) > 0 {
        KotlinDoubles(base, max, k);
        DoubledGrows(base, k, k);
      }
    } else {
      var d := Doublings(base, max);
      DoublingsIsLeast(base, max);
      if d > 0 { KotlinBelowMax(base, max, d - 1); }
      var x, y := KotlinDelay(base, max, d), KotlinDelay(base, max, d + 1);
      assert x > 0 ==> x == max;
      assert y == KotlinNext(x, max);
      assert x == max ==> TWO63 <= x * 2 < TWO64;
      var bad: nat := if x <= 0 then d else d + 1;
      assert !(KotlinDelay(base, max, bad) > 0);
      assert exists k: nat :: !(KotlinDelay(base, max, k) > 0);
    }
  }
}
