// The tier size `with_minimum_capacity` picks for a requested capacity, as
// the linked, flat and implicit vectors all compute it: round the request up
// to a power of two, then up to an even power of two 4^k, and take 2^k tiers
// of 2^k slots.
module Sizing {
  import opened Ring

  /** 2^(a + b) == 2^a * 2^b. */
  lemma {:induction false} Pow2Add(a: nat, b: nat)
    ensures Pow2(a + b) == Pow2(a) * Pow2(b)
  {
    if b > 0 {
      Pow2Add(a, b - 1);
      assert Pow2(a + b) == 2 * Pow2(a + b - 1);
    }
  }

  lemma {:induction false} Pow2Monotone(a: nat, b: nat)
    requires a <= b
    ensures Pow2(a) <= Pow2(b)
  {
    if a < b {
      Pow2Monotone(a, b - 1);
    }
  }

  /** The exponent of a power of two: `trailing_zeros`. */
  function Log2(p: nat): (k: nat)
    requires IsPowerOfTwo(p)
    ensures Pow2(k) == p
  {
    if p == 1 then 0 else PowerOfTwoHalf(p); 1 + Log2(p / 2)
  }

  /** The least k' >= k with 2^k' >= x. */
  function CeilLog2From(x: nat, k: nat): (r: nat)
    ensures r >= k && Pow2(r) >= x
    decreases if Pow2(k) >= x then 0 else x - Pow2(k)
  {
    if Pow2(k) >= x then k else CeilLog2From(x, k + 1)
  }

  /** The search only stops once the power before it is too small. */
  lemma {:induction false} CeilLog2Least(x: nat, k: nat)
    requires k == 0 || Pow2(k - 1) < x
    ensures CeilLog2From(x, k) == 0 || Pow2(CeilLog2From(x, k) - 1) < x
    decreases if Pow2(k) >= x then 0 else x - Pow2(k)
  {
    if Pow2(k) < x {
      CeilLog2Least(x, k + 1);
    }
  }

  /** `next_power_of_two`: the least power of two that is at least x. */
  function NextPowerOfTwo(x: nat): (p: nat)
  {
    Pow2(CeilLog2From(x, 0))
  }

  /** `next_power_of_two` gives a power of two, at least x, whose half is below x. */
  lemma NextPowerOfTwoIsLeast(x: nat)
    requires x >= 2
    ensures IsPowerOfTwo(NextPowerOfTwo(x)) && NextPowerOfTwo(x) >= x && NextPowerOfTwo(x) / 2 < x
  {
    var k := CeilLog2From(x, 0);
    Pow2IsPowerOfTwo(k);
    CeilLog2Least(x, 0);
    assert k > 0;
  }

  /** `x >> s`: s halvings, rounding down. */
  function ShiftRight(x: nat, s: nat): nat
  {
    if s == 0 then x else ShiftRight(x / 2, s - 1)
  }

  /** Shifting 2^a right by s <= a gives 2^(a - s). */
  lemma {:induction false} ShiftRightPow2(a: nat, s: nat)
    requires s <= a
    ensures ShiftRight(Pow2(a), s) == Pow2(a - s)
  {
    if s > 0 {
      assert Pow2(a) / 2 == Pow2(a - 1);
      ShiftRightPow2(a - 1, s - 1);
    }
  }

  /** The capacity `with_minimum_capacity` first rounds the request to: the request itself when it is a power of two. */
  function RoundedCapacity(min: nat): (c: nat)
    requires min >= 2
    ensures IsPowerOfTwo(c) && c >= min && c / 2 < min
  {
    NextPowerOfTwoIsLeast(min);
    PowerOfTwoTestCorrect(min);
    if PowerOfTwoTest(min) then min else NextPowerOfTwo(min)
  }

  /** Half the exponent, rounded up: the `shift_count` for exponent t. */
  function HalfUp(t: nat): nat
  {
    if t % 2 == 0 then t / 2 else (t + 1) / 2
  }

  /**
   * `with_minimum_capacity(min)`: the capacity is min rounded up to a power
   * of two 2^t; when t is odd it is doubled; the tier size is the capacity
   * shifted right by half its exponent, rounded up.
   */
  function TierSizeFor(min: nat): nat
    requires min >= 4
  {
    var capacity := RoundedCapacity(min);
    var trailing := Log2(capacity);
    var shift := HalfUp(trailing);
    var grown := if trailing % 2 == 0 then capacity else capacity * 2;
    ShiftRight(grown, shift)
  }

  lemma Pow2Small(t: nat)
    ensures t < 2 ==> Pow2(t) <= 2
  {
    if t == 1 {
      assert Pow2(1) == 2;
    }
  }

  lemma HalfUpTwice(t: nat)
    ensures HalfUp(t) + HalfUp(t) == if t % 2 == 0 then t else t + 1
  {
  }

  /** The rounded capacity of a request of at least 4 is 2^t with t >= 2. */
  lemma RoundedExponent(min: nat)
    requires min >= 4
    ensures Log2(RoundedCapacity(min)) >= 2
  {
    var capacity := RoundedCapacity(min);
    var t := Log2(capacity);
    assert capacity >= 4 && Pow2(t) == capacity;
    Pow2Small(t);
  }

  /** The tier size is 2^s, for s half the exponent of the rounded capacity, rounded up. */
  lemma TierSizeIsPower(min: nat)
    requires min >= 4
    ensures Log2(RoundedCapacity(min)) >= 2
    ensures TierSizeFor(min) == Pow2(HalfUp(Log2(RoundedCapacity(min))))
  {
    RoundedExponent(min);
    var capacity := RoundedCapacity(min);
    var t := Log2(capacity);
    var shift := HalfUp(t);
    var e := shift + shift;
    var grown := if t % 2 == 0 then capacity else capacity * 2;
    HalfUpTwice(t);
    if t % 2 == 1 {
      assert Pow2(t + 1) == 2 * Pow2(t);
    }
    assert grown == Pow2(e);
    ShiftRightPow2(e, shift);
    assert TierSizeFor(min) == ShiftRight(grown, shift);
  }

  /**
   * The tier size is a power of two of at least 2 whose square holds min
   * elements, and the square of the next smaller power of two does not:
   * its square is the least power of four that is at least min.
   */
  lemma TierSizeForIsLeast(min: nat)
    requires min >= 4
    ensures IsPowerOfTwo(TierSizeFor(min)) && TierSizeFor(min) >= 2
    ensures TierSizeFor(min) * TierSizeFor(min) >= min
    ensures (TierSizeFor(min) / 2) * (TierSizeFor(min) / 2) < min
  {
    TierSizeIsPower(min);
    var capacity := RoundedCapacity(min);
    var t := Log2(capacity);
    var shift := HalfUp(t);
    var r := Pow2(shift);
    Pow2IsPowerOfTwo(shift);
    assert r * r >= min by {
      Pow2Add(shift, shift);
      Pow2Monotone(t, shift + shift);
    }
    var h := Pow2(shift - 1);
    assert r / 2 == h;
    assert h * h < min by {
      Pow2Add(shift - 1, shift - 1);
      Pow2Monotone(shift - 1 + shift - 1, t - 1);
      assert Pow2(t - 1) == capacity / 2;
    }
  }

  /** The tier size for `min`, with the facts the constructors need about it. */
  method ChooseTierSize(min: nat) returns (n: nat)
    requires min >= 4
    ensures n == TierSizeFor(min) && IsPowerOfTwo(n) && n >= 2 && n * n >= min
  {
    n := TierSizeFor(min);
    TierSizeForIsLeast(min);
  }

  /** The sizes the crate's tests expect: 4 elements take tiers of 2, 8 take 4 and 128 take 16. */
  lemma TierSizeExamples()
    ensures TierSizeFor(4) == 2 && TierSizeFor(8) == 4 && TierSizeFor(128) == 16
  {
    SmallPowersOfTwo();
    assert TierSizeFor(4) == 2 by {
      assert RoundedCapacity(4) == 4 && Log2(4) == 2;
      assert ShiftRight(4, 1) == 2;
    }
    assert TierSizeFor(8) == 4 by {
      assert RoundedCapacity(8) == 8 && Log2(8) == 3;
      assert ShiftRight(16, 2) == 4;
    }
    assert TierSizeFor(128) == 16 by {
      assert RoundedCapacity(128) == 128 && Log2(128) == 7;
      assert ShiftRight(256, 4) == 16;
    }
  }
}
