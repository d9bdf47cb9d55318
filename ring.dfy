// Ring arithmetic shared by every tier variant of the crate: power-of-two
// capacities, masking a cursor down to a slot, and the window of live slots
// that a pair of (head, tail) cursors delimits.
//
// Cursors are modelled as unbounded integers that may go below zero; Rust's
// usize cursors are their residues modulo 2^64. WrappingCursorsAgree shows that
// the two views give the same length and the same slots for power-of-two
// capacities, so nothing below depends on the choice.
module Ring {

  function Pow2(k: nat): (p: nat)
    ensures p >= 1
  {
    if k == 0 then 1 else 2 * Pow2(k - 1)
  }

  /** `n` is 1, 2, 4, 8, …: some power 2^k. */
  ghost predicate IsPowerOfTwo(n: nat)
  {
    exists k: nat :: Pow2(k) == n
  }

  /** `usize::is_power_of_two`, as a halving test. */
  predicate PowerOfTwoTest(n: nat)
  {
    n == 1 || (n >= 2 && n % 2 == 0 && PowerOfTwoTest(n / 2))
  }

  /** The halving test accepts exactly the powers of two. */
  lemma {:induction false} PowerOfTwoTestCorrect(n: nat)
    ensures PowerOfTwoTest(n) <==> IsPowerOfTwo(n)
  {
    if n >= 2 && n % 2 == 0 {
      PowerOfTwoTestCorrect(n / 2);
      if IsPowerOfTwo(n / 2) {
        var k: nat :| Pow2(k) == n / 2;
        assert Pow2(k + 1) == n;
      }
      if IsPowerOfTwo(n) {
        PowerOfTwoHalf(n);
      }
    } else if n == 1 {
      assert Pow2(0) == 1;
    }
  }

  /** A power of two other than 1 is even, and its half is a power of two. */
  lemma PowerOfTwoHalf(n: nat)
    requires IsPowerOfTwo(n) && n >= 2
    ensures n % 2 == 0 && IsPowerOfTwo(n / 2)
  {
    var k: nat :| Pow2(k) == n;
    assert k > 0 && Pow2(k) == 2 * Pow2(k - 1);
  }

  /** A power of two is at least 1. */
  lemma PowerOfTwoPositive(n: nat)
    requires IsPowerOfTwo(n)
    ensures n > 0
  {
    var k: nat :| Pow2(k) == n;
  }

  /** Twice a power of two is a power of two. */
  lemma PowerOfTwoDouble(n: nat)
    requires IsPowerOfTwo(n)
    ensures IsPowerOfTwo(2 * n)
  {
    var k: nat :| Pow2(k) == n;
    assert Pow2(k + 1) == 2 * n;
  }

  /** The powers of two the crate's tests use as capacities. */
  lemma SmallPowersOfTwo()
    ensures IsPowerOfTwo(1) && IsPowerOfTwo(2) && IsPowerOfTwo(4) && IsPowerOfTwo(8)
    ensures IsPowerOfTwo(16) && IsPowerOfTwo(32) && IsPowerOfTwo(64) && IsPowerOfTwo(128)
  {
    assert Pow2(0) == 1 && Pow2(1) == 2 && Pow2(2) == 4 && Pow2(3) == 8;
    assert Pow2(4) == 16 && Pow2(5) == 32 && Pow2(6) == 64 && Pow2(7) == 128;
  }

  /** Number of values of a 64-bit usize. */
  const WORD: nat := Pow2(64)

  /** Bitwise AND on non-negative integers, bit by bit from the least significant one. */
  function BitAnd(a: nat, b: nat): nat
  {
    if a == 0 || b == 0 then 0
    else 2 * BitAnd(a / 2, b / 2) + (if a % 2 == 1 && b % 2 == 1 then 1 else 0)
  }

  /** The slot a cursor lands on: `cursor & (capacity - 1)` in the crate. */
  function Mask(v: int, cap: nat): (m: nat)
    requires cap > 0
    ensures m < cap
  {
    v % cap
  }

  /** Slot of the element at `rank` (0 = first) in a window starting at cursor `head`. */
  function SlotOf(head: int, rank: int, cap: nat): nat
    requires cap > 0
  {
    (head + rank) % cap
  }

  /** Rank, counted from `head`, of slot `m`. */
  function RankOf(head: int, m: int, cap: nat): nat
    requires cap > 0
  {
    (m - head) % cap
  }

  /** Slot `m` holds one of the `len` elements of the window that starts at cursor `head`. */
  predicate InWindow(head: int, len: int, cap: nat, m: int)
    requires cap > 0
  {
    0 <= m < cap && RankOf(head, m, cap) < len
  }

  function AbsDiff(a: int, b: int): nat
  {
    if a < b then b - a else a - b
  }

  // ---------------------------------------------------------------------------
  // Division facts used throughout.

  lemma DivModSplit(idx: nat, n: nat)
    requires n > 0
    ensures idx == (idx / n) * n + idx % n && 0 <= idx % n < n
  {
  }

  lemma MulMonotone(a: nat, b: nat, n: nat)
    requires a <= b
    ensures a * n <= b * n
  {
  }

  lemma MulStep(a: nat, n: nat)
    ensures (a + 1) * n == a * n + n
  {
  }

  lemma DivModUnique(a: int, d: nat, q: int, r: int)
    requires d > 0 && a == d * q + r && 0 <= r < d
    ensures a % d == r && a / d == q
  {
    var q0, r0 := a / d, a % d;
    assert a == d * q0 + r0;
    assert d * (q0 - q) == r - r0;
    if q0 > q {
      MulAtLeast(d, q0 - q);
      assert false;
    } else if q0 < q {
      MulAtLeast(d, q - q0);
      assert false;
    }
  }

  /** The quotient and remainder of a natural number are natural numbers. */
  lemma DivModNat(a: nat, d: nat)
    requires d > 0
    ensures 0 <= a / d && 0 <= a % d < d
  {
  }

  lemma MulAtLeast(d: nat, k: int)
    requires k >= 1
    ensures d * k >= d
  {
  }

  lemma ModAddMultiple(x: int, k: int, d: nat)
    requires d > 0
    ensures (x + d * k) % d == x % d
  {
    DivModUnique(x + d * k, d, x / d + k, x % d);
  }

  lemma ModOfSum(a: int, b: int, d: nat)
    requires d > 0
    ensures (a % d + b) % d == (a + b) % d
  {
    ModAddMultiple(a % d + b, a / d, d);
  }

  lemma ModSmall(a: int, d: nat)
    requires 0 <= a < d
    ensures a % d == a
  {
    DivModUnique(a, d, 0, a);
  }

  // ---------------------------------------------------------------------------
  // Masking is the remainder.

  lemma {:induction false} HalveRemainder(v: nat, h: nat)
    requires h > 0
    ensures v % (2 * h) == 2 * ((v / 2) % h) + v % 2
  {
    var q := (v / 2) / h;
    var m := (v / 2) % h;
    assert v / 2 == h * q + m;
    assert v == 2 * (v / 2) + v % 2;
    assert v == (2 * h) * q + (2 * m + v % 2);
    DivModUnique(v, 2 * h, q, 2 * m + v % 2);
  }

  /** For a power-of-two capacity, `v & (capacity - 1)` is `v mod capacity`. */
  lemma {:induction false} BitAndMaskIsMod(v: nat, cap: nat)
    requires IsPowerOfTwo(cap)
    ensures BitAnd(v, cap - 1) == v % cap
  {
    if cap == 1 {
    } else if v == 0 {
    } else {
      PowerOfTwoHalf(cap);
      var h := cap / 2;
      BitAndMaskIsMod(v / 2, h);
      assert (cap - 1) / 2 == h - 1 && (cap - 1) % 2 == 1;
      HalveRemainder(v, h);
    }
  }

  lemma Pow2IsPowerOfTwo(k: nat)
    ensures IsPowerOfTwo(Pow2(k))
  {
  }

  /** A power of two divides every larger power of two. */
  lemma {:induction false} PowerOfTwoDivides(a: nat, b: nat)
    requires IsPowerOfTwo(a) && IsPowerOfTwo(b) && a <= b
    ensures b % a == 0
  {
    if a == b {
      DivModUnique(b, a, 1, 0);
    } else if a == 1 {
      DivModUnique(b, 1, b, 0);
    } else {
      PowerOfTwoHalf(a);
      PowerOfTwoHalf(b);
      PowerOfTwoDivides(a / 2, b / 2);
      var k := (b / 2) / (a / 2);
      assert b / 2 == (a / 2) * k;
      assert b == a * k;
      DivModUnique(b, a, k, 0);
    }
  }

  /**
   * The crate's usize cursors are the residues of the model's cursors modulo
   * 2^64: `tail.wrapping_sub(head)` is the model's `tail - head`, and masking
   * the wrapped cursor picks the same slot as the model's remainder.
   */
  lemma WrappingCursorsAgree(head: int, tail: int, cap: nat)
    requires IsPowerOfTwo(cap) && cap <= WORD && 0 <= tail - head < WORD
    ensures (tail % WORD - head % WORD) % WORD == tail - head
    ensures BitAnd(head % WORD, cap - 1) == head % cap
  {
    WrappedLength(head, tail, WORD);
    Pow2IsPowerOfTwo(64);
    PowerOfTwoDivides(cap, WORD);
    BitAndMaskIsMod(head % WORD, cap);
    ResidueOfResidue(head, cap, WORD);
  }

  lemma WrappedLength(head: int, tail: int, w: nat)
    requires w > 0 && 0 <= tail - head < w
    ensures (tail % w - head % w) % w == tail - head
  {
    var k := head / w - tail / w;
    assert w * k == w * (head / w) - w * (tail / w);
    assert tail % w - head % w == (tail - head) + w * k;
    ModAddMultiple(tail - head, k, w);
    ModSmall(tail - head, w);
  }

  lemma ResidueOfResidue(x: int, c: nat, w: nat)
    requires c > 0 && w > 0 && w % c == 0
    ensures (x % w) % c == x % c
  {
    var k := w / c;
    DivModUnique(w, c, k, 0);
    assert x == x % w + w * (x / w);
    assert w * (x / w) == c * (k * (x / w));
    ModAddMultiple(x % w, k * (x / w), c);
  }

  // ---------------------------------------------------------------------------
  // Ranks and slots.

  lemma SlotRankRoundTrip(head: int, rank: int, cap: nat)
    requires cap > 0 && 0 <= rank < cap
    ensures RankOf(head, SlotOf(head, rank, cap), cap) == rank
  {
    ModOfSum(head + rank, -head, cap);
    ModSmall(rank, cap);
  }

  lemma RankSlotRoundTrip(head: int, m: int, cap: nat)
    requires 0 <= m < cap
    ensures SlotOf(head, RankOf(head, m, cap), cap) == m
  {
    ModOfSum(m - head, head, cap);
    ModSmall(m, cap);
  }

  /** Distinct ranks below the capacity sit in distinct slots. */
  lemma SlotsDistinct(head: int, r1: int, r2: int, cap: nat)
    requires cap > 0 && 0 <= r1 < cap && 0 <= r2 < cap && r1 != r2
    ensures SlotOf(head, r1, cap) != SlotOf(head, r2, cap)
  {
    SlotRankRoundTrip(head, r1, cap);
    SlotRankRoundTrip(head, r2, cap);
  }

  /** Rank `rank` and any rank a multiple of the capacity away share a slot. */
  lemma SlotOfReduces(head: int, rank: int, cap: nat)
    requires cap > 0
    ensures SlotOf(head, rank, cap) == SlotOf(head, rank % cap, cap)
    ensures RankOf(head, SlotOf(head, rank, cap), cap) == rank % cap
  {
    ModAddMultiple(head + rank % cap, rank / cap, cap);
    assert head + rank == head + rank % cap + cap * (rank / cap);
    SlotRankRoundTrip(head, rank % cap, cap);
  }

  lemma SlotStep(head: int, rank: int, cap: nat)
    requires cap > 0
    ensures Mask(SlotOf(head, rank, cap) + 1, cap) == SlotOf(head, rank + 1, cap)
    ensures Mask(SlotOf(head, rank, cap) - 1, cap) == SlotOf(head, rank - 1, cap)
  {
    ModOfSum(head + rank, 1, cap);
    ModOfSum(head + rank, -1, cap);
  }

  lemma MaskedCursor(c: int, head: int, cap: nat)
    requires cap > 0
    ensures c % cap == SlotOf(head, c - head, cap)
  {
  }

  /** The rank of a slot only depends on the masked head. */
  lemma RankFromMaskedHead(head: int, m: int, cap: nat)
    requires cap > 0
    ensures RankOf(head, m, cap) == (m - head % cap) % cap
  {
    ModAddMultiple(m - head % cap, -(head / cap), cap);
  }

  lemma RankInRun(mh: nat, m: int, len: nat, cap: nat)
    requires mh < cap && 0 <= m < cap && len < cap
    ensures mh <= m ==> (m - mh) % cap == m - mh
    ensures m < mh ==> (m - mh) % cap == m - mh + cap
  {
    if mh <= m {
      ModSmall(m - mh, cap);
    } else {
      ModAddMultiple(m - mh + cap, -1, cap);
      ModSmall(m - mh + cap, cap);
    }
  }

  lemma MaskedTailFromHead(head: int, len: nat, cap: nat)
    requires cap > 0 && len < cap
    ensures (head + len) % cap == if head % cap + len < cap then head % cap + len else head % cap + len - cap
  {
    ModOfSum(head, len, cap);
    if head % cap + len < cap {
      ModSmall(head % cap + len, cap);
    } else {
      ModAddMultiple(head % cap + len - cap, 1, cap);
      ModSmall(head % cap + len - cap, cap);
    }
  }

  /**
   * The case analysis every `contains_masked_rank` in the crate performs on the
   * masked cursors describes exactly the window: all slots when full, the slots
   * from the masked head up to the masked tail when those are in order, and the
   * two outer runs when the window wraps past the end of the buffer.
   */
  lemma WindowByMaskedCursors(head: int, tail: int, cap: nat, m: int)
    requires cap > 0 && 0 <= tail - head <= cap && 0 <= m < cap
    ensures var mh, mt := head % cap, tail % cap;
      InWindow(head, tail - head, cap, m) <==>
        (tail - head == cap || (mh <= mt && mh <= m < mt) || (mh > mt && (m >= mh || m < mt)))
    ensures head % cap == tail % cap <==> (tail - head == 0 || tail - head == cap)
  {
    var len, mh := tail - head, head % cap;
    RankFromMaskedHead(head, m, cap);
    if len == cap {
      ModAddMultiple(head, 1, cap);
      assert RankOf(head, m, cap) < cap;
    } else {
      MaskedTailFromHead(head, len, cap);
      RankInRun(mh, m, len, cap);
    }
  }

  /**
   * When an insertion's shift goes toward the tail (the tail is strictly
   * closer to the insertion slot than the head, the insertion slot is in the
   * window and not the head) the run of slots from the insertion slot to the
   * tail does not wrap past the end of the buffer — so a loop that walks
   * upward while `i < masked_tail` visits every slot of the run.
   */
  lemma {:induction false} TailwardRunIsLinear(head: int, len: nat, cap: nat, r: nat)
    requires cap > 0 && r < len < cap
    requires AbsDiff(SlotOf(head, r, cap), SlotOf(head, len, cap)) < AbsDiff(SlotOf(head, r, cap), head % cap)
    ensures SlotOf(head, r, cap) + (len - r) < cap
  {
    var mh := head % cap;
    ModOfSum(head, r, cap);
    ModOfSum(head, len, cap);
    if mh + len < cap {
      ModSmall(mh + r, cap);
      ModSmall(mh + len, cap);
    } else if mh + r < cap {
      ModSmall(mh + r, cap);
      ModAddMultiple(mh + len, -1, cap);
      ModSmall(mh + len - cap, cap);
    } else {
      ModAddMultiple(mh + r, -1, cap);
      ModSmall(mh + r - cap, cap);
      ModAddMultiple(mh + len, -1, cap);
      ModSmall(mh + len - cap, cap);
    }
  }
}
