/** ExponentialBackoff (rconclient/retry.go): doubling in 64-bit integers, capped, with full jitter. */
module Backoff {
  import opened Wire

  const TWO_63 := 0x8000_0000_0000_0000
  const TWO_64 := 0x1_0000_0000_0000_0000

  type Int64 = x: int | -0x8000_0000_0000_0000 <= x < 0x8000_0000_0000_0000

  function Pow2(k: nat): (p: nat)
    ensures p >= 1
  {
    if k == 0 then 1 else 2 * Pow2(k - 1)
  }

  /** Truncation to a signed 64-bit integer. */
  function Wrap64(x: int): (r: Int64)
  {
    var u := x % TWO_64;
    if u < TWO_63 then u else u - TWO_64
  }

  /** base << k. */
  function ShiftLeft(base: Int64, k: nat): (r: Int64) { Wrap64(base * Pow2(k)) }

  /** The delay before jitter. */
  function Cap(base: Int64, max: Int64, attempt: int): (d: Int64)
  {
    var n := if attempt < 1 then 1 else attempt;
    var d := ShiftLeft(base, n - 1);
    if d > max || d <= 0 then max else d
  }

  /** The backoff function: the cap, then any draw below cap + 1. rand.Int64N panics when its argument, which
      is computed in 64 bits, is not positive. */
  method Delay(base: Int64, max: Int64, attempt: int, draw: nat) returns (r: Option<Int64>)
    ensures r.None? <==> Wrap64(Cap(base, max, attempt) + 1) <= 0
    ensures r.Some? ==> 0 <= r.value <= Cap(base, max, attempt)
    ensures r.Some? && draw <= Cap(base, max, attempt) ==> r.value == draw
  {
    var n := attempt;
    if n < 1 { n := 1; }
    var d := ShiftLeft(base, n - 1);
    if d > max || d <= 0 { d := max; }
    hide ShiftLeft;
    var bound := Wrap64(d + 1);
    if bound <= 0 { return None; }
    BoundIsNext(d);
    return Some(if draw < bound then draw else 0);
  }

  lemma BoundIsNext(d: Int64)
    requires Wrap64(d + 1) > 0
    ensures Wrap64(d + 1) == d + 1
  {
  }

  lemma {:induction false} PowSplit(k: nat, m: nat)
    requires k <= m
    ensures Pow2(m) == Pow2(m - k) * Pow2(k)
  {
    if k < m {
      PowSplit(k, m - 1);
      MulAssoc(2, Pow2(m - k - 1), Pow2(k));
    }
  }

  lemma MulAssoc(a: int, b: int, c: int)
    ensures a * (b * c) == (a * b) * c
  {
  }

  lemma Pow64()
    ensures Pow2(64) == TWO_64
  {
    PowSplit(32, 64);
    assert Pow2(32) == 0x1_0000_0000 by {
      assert Pow2(8) == 0x100;
      PowSplit(8, 16);
      PowSplit(16, 32);
    }
  }

  lemma Distribute(a: int, b: int, c: int)
    ensures a * c - b * c == (a - b) * c
  {
  }

  lemma AtLeastFactor(m: int, p: int)
    requires p >= 1 && m * p > 0
    ensures m * p >= p
  {
  }

  lemma MulMonotone(a: int, b: int, c: int)
    requires a <= b && c >= 0
    ensures a * c <= b * c && c * a <= c * b
  {
  }

  /** A positive wrapped shift is a positive multiple of 2^k, so at least 2^k. */
  lemma WrappedShiftIsMultiple(base: Int64, k: nat)
    requires k < 64 && ShiftLeft(base, k) > 0
    ensures ShiftLeft(base, k) >= Pow2(k)
  {
    hide Pow2;
    var p := Pow2(k);
    var x := base * p;
    var q := x / TWO_64;
    var d := ShiftLeft(base, k);
    assert d == x - q * TWO_64;
    Pow64();
    PowSplit(k, 64);
    MulAssoc(q, Pow2(64 - k), p);
    Distribute(base, q * Pow2(64 - k), p);
    AtLeastFactor(base - q * Pow2(64 - k), p);
  }

  /** Shifting by 64 or more leaves nothing. */
  lemma ShiftedOut(base: Int64, k: nat)
    requires k >= 64
    ensures ShiftLeft(base, k) == 0
  {
    hide Pow2;
    Pow64();
    PowSplit(64, k);
    MulAssoc(base, Pow2(k - 64), TWO_64);
    ModMultiple(base * Pow2(k - 64));
  }

  lemma ModMultiple(m: int)
    ensures (m * TWO_64) % TWO_64 == 0
  {
  }

  /** Main result. As long as base * max stays below 2^63, overflow never shows: for every attempt the delay
      before jitter is exactly min(base * 2^(attempt-1), max), although the shift itself may wrap many times. */
  lemma CapIsExact(base: Int64, max: Int64, attempt: int)
    requires base > 0 && base * max < TWO_63 && attempt >= 1
    ensures var exact := base * Pow2(attempt - 1);
            Cap(base, max, attempt) == if exact <= max then exact else max
  {
    hide Pow2;
    var k: nat := attempt - 1;
    var p := Pow2(k);
    var x := base * p;
    MulMonotone(1, p, base);
    if x < TWO_63 {
      assert ShiftLeft(base, k) == x;
    } else if k >= 64 {
      ShiftedOut(base, k);
    } else if ShiftLeft(base, k) > 0 {
      WrappedShiftIsMultiple(base, k);
      if p <= max {
        MulMonotone(p, max, base);
      }
    }
  }

  /** The low b + 1 binary digits of base: what a shift by 63 - b leaves in the 64 bits. */
  function LowDigits(base: Int64, b: nat): (r: nat) { base % Pow2(b + 1) }

  /** Digit b of base is 0, with a 1 above it and a 1 below it: shifting by 63 - b pushes the upper one out,
      and the number left is positive. */
  predicate WrapsPositive(base: Int64, b: nat) { base >= Pow2(b) && 0 < LowDigits(base, b) < Pow2(b) }

  lemma ModScale(x: nat, m: nat, p: nat)
    requires m > 0 && p > 0
    ensures m * p > 0 && (x * p) % (m * p) == (x % m) * p
  {
    var q, r := x / m, x % m;
    MulMonotone(1, m, p);
    assert x * p == q * (m * p) + r * p by {
      assert x == q * m + r;
      Distribute(x, r, p);
      MulAssoc(q, m, p);
    }
    MulMonotone(0, r, p);
    MulMonotone(r, m - 1, p);
    Distribute(m, 1, p);
    ModUnique(q, m * p, r * p);
  }

  lemma ModUnique(q: int, n: nat, r: nat)
    requires r < n
    ensures (q * n + r) % n == r
  {
    var x := q * n + r;
    Distribute(q, x / n, n);
    if q - x / n >= 1 { MulMonotone(1, q - x / n, n); }
    if q - x / n <= -1 { MulMonotone(q - x / n, -1, n); }
  }

  /** A shift by 63 - b keeps the low b + 1 digits, of which digit b becomes the sign. */
  lemma ShiftKeepsLowDigits(base: Int64, b: nat)
    requires base > 0 && b <= 62
    ensures var p := Pow2(63 - b);
            var r := LowDigits(base, b);
            ShiftLeft(base, 63 - b) == if r < Pow2(b) then r * p else r * p - TWO_64
  {
    var p := Pow2(63 - b);
    var r := LowDigits(base, b);
    Pow64();
    PowSplit(63 - b, 64);
    PowSplit(63 - b, 63);
    assert Pow2(63) == TWO_63;
    hide Pow2;
    ModScale(base, Pow2(b + 1), p);
    if r < Pow2(b) { MulMonotone(r, Pow2(b) - 1, p); Distribute(Pow2(b), 1, p); } else { MulMonotone(Pow2(b), r, p); }
  }

  /** Whether the exact product overflows. */
  lemma OverflowsIff(base: Int64, b: nat)
    requires base > 0 && b <= 62
    ensures base * Pow2(63 - b) < TWO_63 <==> base < Pow2(b)
  {
    var p := Pow2(63 - b);
    Pow64();
    PowSplit(63 - b, 63);
    assert Pow2(63) == TWO_63;
    hide Pow2;
    if base < Pow2(b) { MulMonotone(base, Pow2(b) - 1, p); Distribute(Pow2(b), 1, p); } else { MulMonotone(Pow2(b), base, p); }
  }

  /** The delay before jitter of the attempt is min(base * 2^(attempt-1), max). */
  predicate ExactAt(base: Int64, max: Int64, attempt: int)
    requires attempt >= 1
  {
    var exact := base * Pow2(attempt - 1);
    Cap(base, max, attempt) == if exact <= max then exact else max
  }

  /** The sign of the shifted number. */
  lemma ShiftSign(base: Int64, b: nat)
    requires base > 0 && b <= 62
    ensures var d := ShiftLeft(base, 63 - b);
            if base < Pow2(b) then d == base * Pow2(63 - b)
            else if WrapsPositive(base, b) then 0 < d == LowDigits(base, b) * Pow2(63 - b)
            else d <= 0
  {
    hide ShiftLeft, Pow2, LowDigits;
    var r, p := LowDigits(base, b), Pow2(63 - b);
    ShiftKeepsLowDigits(base, b);
    if base < Pow2(b) {
      AllDigitsLow(base, b);
    } else if r >= Pow2(b) {
      ShiftIsSigned(base, b);
    } else if r > 0 {
      MulMonotone(1, r, p);
    } else {
      assert r * p == 0;
    }
  }

  lemma AllDigitsLow(base: Int64, b: nat)
    requires 0 < base < Pow2(b)
    ensures LowDigits(base, b) == base
  {
    var m := Pow2(b + 1);
    assert m == 2 * Pow2(b);
    hide Pow2;
    ModUnique(0, m, base);
  }

  lemma ShiftIsSigned(base: Int64, b: nat)
    requires base > 0 && b <= 62 && LowDigits(base, b) >= Pow2(b)
    ensures LowDigits(base, b) * Pow2(63 - b) < TWO_64
  {
    Pow64();
    PowSplit(63 - b, 64);
    hide Pow2;
    MulMonotone(LowDigits(base, b), Pow2(b + 1) - 1, Pow2(63 - b));
    Distribute(Pow2(b + 1), 1, Pow2(63 - b));
  }

  lemma ExactAtDigit(base: Int64, max: Int64, b: nat)
    requires base > 0 && b <= 62
    ensures ExactAt(base, max, 64 - b)
       <==> (WrapsPositive(base, b) ==> LowDigits(base, b) * Pow2(63 - b) >= max)
  {
    ShiftSign(base, b);
    OverflowsIff(base, b);
    MulMonotone(1, Pow2(63 - b), base);
    assert WrapsPositive(base, b) ==> base >= Pow2(b);
    hide ShiftLeft, Pow2, LowDigits, WrapsPositive;
  }

  lemma ExactElsewhere(base: Int64, max: Int64, attempt: int)
    requires base > 0 && (attempt == 1 || attempt > 64)
    ensures ExactAt(base, max, attempt)
  {
    if attempt > 64 {
      ShiftedOut(base, attempt - 1);
      Pow64();
      hide ShiftLeft;
      PowSplit(64, attempt - 1);
      hide Pow2;
      MulMonotone(1, Pow2(attempt - 1 - 64), TWO_64);
      MulMonotone(1, base, Pow2(attempt - 1));
    } else {
      assert Pow2(0) == 1;
    }
  }

  /** The doubling is exact for every attempt if and only if every digit at which base wraps to a positive
      number leaves one that is at least max. */
  lemma ExactIff(base: Int64, max: Int64)
    requires base > 0
    ensures (forall attempt :: attempt >= 1 ==> ExactAt(base, max, attempt))
       <==> (forall b: nat :: b <= 62 && WrapsPositive(base, b) ==> LowDigits(base, b) * Pow2(63 - b) >= max)
  {
    hide ExactAt, WrapsPositive, LowDigits, Pow2;
    if forall attempt :: attempt >= 1 ==> ExactAt(base, max, attempt) {
      forall b: nat | b <= 62 && WrapsPositive(base, b) ensures LowDigits(base, b) * Pow2(63 - b) >= max {
        assert ExactAt(base, max, 64 - b);
        ExactAtDigit(base, max, b);
      }
    }
    if forall b: nat :: b <= 62 && WrapsPositive(base, b) ==> LowDigits(base, b) * Pow2(63 - b) >= max {
      forall attempt | attempt >= 1 ensures ExactAt(base, max, attempt) {
        if 2 <= attempt <= 64 {
          ExactAtDigit(base, max, 64 - attempt);
        } else {
          ExactElsewhere(base, max, attempt);
        }
      }
    }
  }

  /** The condition on base * max cannot simply be dropped: here the shift wraps to a small positive
      number, and the delay is far below the cap that the doubling passed long ago. */
  lemma OverflowCanShrinkTheDelay()
    ensures var base: Int64 := 0x1_0000_0001;
            var max: Int64 := 0x100_0000_0000;
            base * Pow2(32) > max && Cap(base, max, 33) == 0x1_0000_0000 < max
  {
    assert Pow2(32) == 0x1_0000_0000 by {
      assert Pow2(8) == 0x100;
      PowSplit(8, 16);
      PowSplit(16, 32);
    }
    hide Pow2;
    assert ShiftLeft(0x1_0000_0001, 32) == 0x1_0000_0000;
  }

  /** Attempts below 1 count as the first: the delay before jitter is base itself, or max if base is not in 1 .. max. */
  lemma FirstDelay(base: Int64, max: Int64, attempt: int)
    requires attempt <= 1
    ensures Cap(base, max, attempt) == if 0 < base <= max then base else max
  {
    assert Pow2(0) == 1;
    assert ShiftLeft(base, 0) == base;
  }

  /** The cap is never exceeded, whatever overflows. */
  lemma CapWithinMax(base: Int64, max: Int64, attempt: int)
    ensures Cap(base, max, attempt) <= max
    ensures max >= 0 ==> Cap(base, max, attempt) >= 0
  {
    hide ShiftLeft;
  }

  /** Drawing the jitter is safe for every attempt exactly when 0 <= max < 2^63 - 1. */
  lemma SafeIff(base: Int64, max: Int64)
    ensures (forall attempt :: Wrap64(Cap(base, max, attempt) + 1) > 0) <==> 0 <= max < TWO_63 - 1
  {
    if 0 <= max < TWO_63 - 1 {
      hide Cap;
      forall attempt ensures Wrap64(Cap(base, max, attempt) + 1) > 0 {
        CapWithinMax(base, max, attempt);
      }
    } else {
      CapShiftedOut(base, max);
      hide Cap;
      assert Wrap64(Cap(base, max, 65) + 1) <= 0;
    }
  }

  lemma CapShiftedOut(base: Int64, max: Int64)
    ensures Cap(base, max, 65) == max
  {
    ShiftedOut(base, 64);
    hide ShiftLeft;
  }
}
