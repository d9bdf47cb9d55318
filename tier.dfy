// The canonical tier of src/tier.rs: a ring buffer of power-of-two capacity
// whose `head` and `tail` cursors delimit the elements. `Tier` is a
// transparent wrapper that dereferences to `RawTier`, so the model has the
// one class.
//
// The elements are `Elements()`: the slots of ranks 0 .. len - 1 read from the
// head cursor. Every operation is stated against that sequence.
module Tier {
  import opened Ring
  import opened Wrappers
  import opened Seqs
  import opened Slots
  import opened Errors

  /** The slot of rank r is no farther from the masked head than from the masked tail. */
  predicate ShiftsTowardHead(head: int, tail: int, cap: nat, r: nat)
    requires cap > 0
  {
    AbsDiff(SlotOf(head, r, cap), Mask(head, cap)) <= AbsDiff(SlotOf(head, r, cap), Mask(tail, cap))
  }

  class RawTier<T> {
    var buffer: seq<Option<T>>
    var head: int
    var tail: int

    /** A power-of-two buffer; the window's slots hold elements and no other slot does. */
    ghost predicate Valid()
      reads this
    {
      IsPowerOfTwo(|buffer|) && 0 <= tail - head <= |buffer|
      && Live(buffer, head, tail - head) && Dead(buffer, head, tail - head)
    }

    /** The elements, by rank. */
    function Elements(): seq<T>
      reads this
      requires Valid()
    {
      Contents(buffer, head, tail - head)
    }

    /** `RawTier::new`: an empty tier; the capacity must be a power of two. */
    constructor(capacity: nat)
      requires IsPowerOfTwo(capacity)
      ensures Valid() && Elements() == [] && |buffer| == capacity && head == 0 && tail == 0
    {
      buffer := Uninit(capacity);
      head, tail := 0, 0;
      new;
      ByRankIsRotation(buffer, 0);
      ListedAs(buffer, 0, 0, [], buffer);
    }

    /** A tier assembled from its parts, as `split_half` builds the upper half. */
    constructor FromParts(buf: seq<Option<T>>, h: int, t: int)
      ensures buffer == buf && head == h && tail == t
    {
      buffer, head, tail := buf, h, t;
    }

    lemma Decompose()
      requires Valid()
      ensures ByRank(buffer, head) == ByRank(buffer, head)[..tail - head] + ByRank(buffer, head)[tail - head..]
      ensures AllSome(ByRank(buffer, head)[..tail - head]) && AllNone(ByRank(buffer, head)[tail - head..])
      ensures Values(ByRank(buffer, head)[..tail - head]) == Elements()
    {
      var w, len := ByRank(buffer, head), tail - head;
      assert Window(buffer, head, len) == w[..len];
    }

    /** What the slot of each rank holds. */
    lemma SlotHolds(k: nat)
      requires Valid() && k < |buffer|
      ensures k < tail - head ==> buffer[SlotOf(head, k, |buffer|)] == Some(Elements()[k])
      ensures k >= tail - head ==> buffer[SlotOf(head, k, |buffer|)] == None
    {
      ByRankSlot(buffer, head, k);
      var w, len := ByRank(buffer, head), tail - head;
      if k < len {
        assert Window(buffer, head, len)[k] == w[k];
      } else {
        assert w[len..][k - len] == w[k];
      }
    }

    /** `capacity`: the number of slots, a power of two that bounds the length. */
    function Capacity(): (c: nat)
      reads this
      ensures Valid() ==> IsPowerOfTwo(c) && |Elements()| <= c
    {
      |buffer|
    }

    /** `len`: the number of elements, `tail - head`. */
    function Len(): (n: int)
      reads this
      requires Valid()
      ensures n == |Elements()|
    {
      tail - head
    }

    function IsEmpty(): (b: bool)
      reads this
      requires Valid()
      ensures b <==> Elements() == []
    {
      head == tail
    }

    function IsFull(): (b: bool)
      reads this
      requires Valid()
      ensures b <==> |Elements()| == Capacity()
    {
      Len() == Capacity()
    }

    /** `max_rank`: the rank of the last element (`len - 1`, which underflows on an empty tier). */
    function MaxRank(): (r: nat)
      reads this
      requires Valid() && !IsEmpty()
      ensures r < |Elements()| && GetByRank(r) == Some(Elements()[|Elements()| - 1])
    {
      ModSmall(Len() - 1, |buffer|);
      Len() - 1
    }

    /** The slot of the first element. */
    function MaskedHead(): (m: nat)
      reads this
      requires Valid()
      ensures m < Capacity()
      ensures !IsEmpty() ==> buffer[m] == Some(Elements()[0])
    {
      SlotHolds(0);
      Mask(head, |buffer|)
    }

    /** The slot after the last element: free unless the tier is full. */
    function MaskedTail(): (m: nat)
      reads this
      requires Valid()
      ensures m < Capacity()
      ensures !IsFull() ==> buffer[m] == None
      ensures IsFull() ==> m == MaskedHead()
    {
      TailSlot();
      Mask(tail, |buffer|)
    }

    lemma TailSlot()
      requires Valid()
      ensures !IsFull() ==> buffer[Mask(tail, |buffer|)] == None
      ensures IsFull() ==> Mask(tail, |buffer|) == Mask(head, |buffer|)
    {
      if !IsFull() {
        SlotHolds(tail - head);
      } else {
        ModAddMultiple(head, 1, |buffer|);
      }
    }

    /** The slot of rank `rank`, which is taken modulo the capacity. */
    function MaskedRank(rank: nat): (m: nat)
      reads this
      requires Valid()
      ensures m < Capacity() && m == SlotOf(head, rank % Capacity(), Capacity())
      ensures rank % Capacity() < Len() ==> buffer[m] == Some(Elements()[rank % Capacity()])
    {
      SlotOfReduces(head, rank, |buffer|);
      SlotHolds(rank % |buffer|);
      Mask(head + rank, |buffer|)
    }

    /**
     * `contains_masked_rank`: whether slot `m` holds an element, decided on
     * the masked cursors: never when empty, always when full, inside
     * [masked_head, masked_tail) when those are in order, outside
     * [masked_tail, masked_head) when the window wraps.
     */
    function ContainsMaskedRank(m: nat): (b: bool)
      reads this
      requires Valid()
      ensures m < Capacity() ==> (b <==> RankOf(head, m, Capacity()) < |Elements()|)
    {
      var mh, mt := Mask(head, |buffer|), Mask(tail, |buffer|);
      var b :=
        if IsEmpty() then false
        else if IsFull() then true
        else if mh < mt then mh <= m < mt
        else m >= mh || m < mt;
      if m < |buffer| then WindowByMaskedCursors(head, tail, |buffer|, m); b else b
    }

    /** `contains_rank`: rank `rank` (modulo the capacity) holds an element. */
    function ContainsRank(rank: nat): (b: bool)
      reads this
      requires Valid()
      ensures b <==> rank % Capacity() < |Elements()|
    {
      var m := MaskedRank(rank);
      SlotRankRoundTrip(head, rank % |buffer|, |buffer|);
      ContainsMaskedRank(m)
    }

    /** `get`: the element in slot `idx`, if the slot holds one. */
    function Get(idx: nat): (r: Option<T>)
      reads this
      requires Valid() && idx < Capacity()
      ensures r.Some? <==> RankOf(head, idx, Capacity()) < |Elements()|
      ensures r.Some? ==> r.value == Elements()[RankOf(head, idx, Capacity())]
    {
      if !ContainsMaskedRank(idx) then None
      else
        RankSlotRoundTrip(head, idx, |buffer|);
        SlotHolds(RankOf(head, idx, |buffer|));
        Some(buffer[idx].value)
    }

    /** `get_by_rank`: the element of rank `rank` (modulo the capacity), if there is one. */
    function GetByRank(rank: nat): (r: Option<T>)
      reads this
      requires Valid()
      ensures r == if rank % Capacity() < |Elements()| then Some(Elements()[rank % Capacity()]) else None
    {
      var m := MaskedRank(rank);
      SlotRankRoundTrip(head, rank % |buffer|, |buffer|);
      Get(m)
    }
      // -------------------------------------------------------------------------
    // Deque operations at both ends.

    /** `push_back`: store `e` in the slot at the masked tail and move the tail on. */
    method PushBack(e: T) returns (r: Result<nat, TierError<T>>)
      requires Valid()
      modifies this
      ensures Valid() && |buffer| == old(|buffer|)
      ensures old(IsFull()) ==> r == Err(TierFullInsertionError(e)) && unchanged(this)
      ensures !old(IsFull()) ==> r == Ok(Mask(old(tail), |buffer|)) && Elements() == old(Elements()) + [e]
      ensures !old(IsFull()) ==> buffer[r.value] == Some(e) && head == old(head) && tail == old(tail) + 1
    {
      if IsFull() {
        return Err(TierFullInsertionError(e));
      }
      var idx;
      buffer, tail, idx := PushBackSlots(buffer, head, tail, e);
      r := Ok(idx);
    }

    /** `push_front`: move the head back one slot and store `e` there. */
    method PushFront(e: T) returns (r: Result<nat, TierError<T>>)
      requires Valid()
      modifies this
      ensures Valid() && |buffer| == old(|buffer|)
      ensures old(IsFull()) ==> r == Err(TierFullInsertionError(e)) && unchanged(this)
      ensures !old(IsFull()) ==> r == Ok(Mask(head, |buffer|)) && Elements() == [e] + old(Elements())
      ensures !old(IsFull()) ==> buffer[r.value] == Some(e) && head == old(head) - 1 && tail == old(tail)
    {
      if IsFull() {
        return Err(TierFullInsertionError(e));
      }
      var nb, nh, idx := PushFrontSlots(buffer, head, tail, e);
      buffer, head := nb, nh;
      r := Ok(idx);
    }

    /** `pop_front`: take the first element and move the head on. */
    method PopFront() returns (r: Result<T, TierError<T>>)
      requires Valid()
      modifies this
      ensures Valid() && |buffer| == old(|buffer|)
      ensures old(IsEmpty()) ==> r == Err(TierEmptyError) && unchanged(this)
      ensures !old(IsEmpty()) ==> r == Ok(old(Elements())[0]) && Elements() == old(Elements())[1..]
      ensures !old(IsEmpty()) ==> head == old(head) + 1 && tail == old(tail)
    {
      if IsEmpty() {
        return Err(TierEmptyError);
      }
      var x;
      x, buffer, head := PopFrontSlots(buffer, head, tail);
      r := Ok(x.value);
    }

    /** `pop_back`: move the tail back and take the element it then points at. */
    method PopBack() returns (r: Result<T, TierError<T>>)
      requires Valid()
      modifies this
      ensures Valid() && |buffer| == old(|buffer|)
      ensures old(IsEmpty()) ==> r == Err(TierEmptyError) && unchanged(this)
      ensures !old(IsEmpty()) ==> r == Ok(old(Elements())[|old(Elements())| - 1])
      ensures !old(IsEmpty()) ==> Elements() == old(Elements())[..|old(Elements())| - 1]
      ensures !old(IsEmpty()) ==> head == old(head) && tail == old(tail) - 1
    {
      if IsEmpty() {
        return Err(TierEmptyError);
      }
      var x;
      x, buffer, tail := PopBackSlots(buffer, head, tail);
      r := Ok(x.value);
    }

    /** `rotate_reset`: rotate the buffer so that the first element sits in slot 0, and restart the cursors there. */
    method RotateReset()
      requires Valid()
      modifies this
      ensures Valid() && Elements() == old(Elements())
      ensures head == 0 && tail == old(tail - head) && |buffer| == old(|buffer|)
      ensures buffer == ByRank(old(buffer), old(head))
    {
      tail := tail - head;
      buffer := RotatedToFront(buffer, head, tail);
      head := 0;
    }
    // -------------------------------------------------------------------------
    // Insertion and removal at a rank.

    /**
     * `shift_to_head(from)` then `set(from, e)`, where `from` is the slot of
     * rank p - 1: ranks 0 .. p - 1 move one slot back with the head and `e`
     * is stored in slot `from`, which then holds rank p.
     */
    method ShiftToHeadAndSet(from: nat, ghost p: nat, e: T)
      requires Valid() && 0 < p <= tail - head < |buffer| && from == SlotOf(head, p - 1, |buffer|)
      modifies this
      ensures Valid() && |buffer| == old(|buffer|) && buffer[from] == Some(e)
      ensures Elements() == InsertAt(old(Elements()), p, e)
    {
      buffer, head := Slots.ShiftToHeadAndSet(buffer, head, tail, from, p, e);
    }

    /**
     * `shift_to_tail(from)` then `set(from, e)`, where `from` is the slot of
     * rank p and the run from it to the tail does not wrap: ranks
     * p .. len - 1 move one slot on with the tail and `e` is stored at rank p.
     */
    method ShiftToTailAndSet(from: nat, ghost p: nat, e: T)
      requires Valid() && p < tail - head < |buffer| && from == SlotOf(head, p, |buffer|)
      requires from + (tail - head - p) < |buffer|
      modifies this
      ensures Valid() && |buffer| == old(|buffer|) && buffer[from] == Some(e)
      ensures Elements() == InsertAt(old(Elements()), p, e)
    {
      buffer, tail := Slots.ShiftToTailAndSet(buffer, head, tail, from, p, e);
    }

    /**
     * The inner branch of `insert` as written, for a rank strictly inside the
     * window: shift toward the boundary whose masked slot is nearer and store
     * `e` in the slot of that rank. Toward the head, that slot has by then
     * come to hold the next rank.
     */
    method ShiftTowardNearer(mr: nat, ghost rr: nat, e: T)
      requires Valid() && 0 < rr < tail - head < |buffer| && mr == SlotOf(head, rr, |buffer|)
      modifies this
      ensures Valid() && |buffer| == old(|buffer|) && buffer[mr] == Some(e)
      ensures ShiftsTowardHead(old(head), old(tail), |buffer|, rr) ==> Elements() == InsertAt(old(Elements()), rr + 1, e)
      ensures !ShiftsTowardHead(old(head), old(tail), |buffer|, rr) ==> Elements() == InsertAt(old(Elements()), rr, e)
    {
      var headDelta := AbsDiff(mr, Mask(head, |buffer|));
      var tailDelta := AbsDiff(mr, Mask(tail, |buffer|));
      if headDelta <= tailDelta {
        ShiftToHeadAndSet(mr, rr + 1, e);
      } else {
        TailwardRunIsLinear(head, tail - head, |buffer|, rr);
        ShiftToTailAndSet(mr, rr, e);
      }
    }

    /**
     * The inner branch of `insert` as evidently intended: toward the head the
     * shift starts from the slot of rank rr - 1 and `e` goes into that slot,
     * which then holds rank rr.
     */
    method ShiftTowardNearerCorrected(mr: nat, ghost rr: nat, e: T) returns (idx: nat)
      requires Valid() && 0 < rr < tail - head < |buffer| && mr == SlotOf(head, rr, |buffer|)
      modifies this
      ensures Valid() && |buffer| == old(|buffer|) && idx < |buffer| && buffer[idx] == Some(e)
      ensures Elements() == InsertAt(old(Elements()), rr, e)
    {
      var headDelta := AbsDiff(mr, Mask(head, |buffer|));
      var tailDelta := AbsDiff(mr, Mask(tail, |buffer|));
      if headDelta <= tailDelta {
        idx := Mask(mr - 1, |buffer|);
        SlotStep(head, rr, |buffer|);
        ShiftToHeadAndSet(idx, rr, e);
      } else {
        TailwardRunIsLinear(head, tail - head, |buffer|, rr);
        ShiftToTailAndSet(mr, rr, e);
        idx := mr;
      }
    }

    /**
     * `insert` as written: at the tail it pushes back, at the head it pushes
     * front; inside the window it shifts the elements on the nearer side one
     * slot outward from the insertion slot and stores `e` there. On the
     * head-ward side that slot has come to hold rank `rank + 1`, so `e` lands
     * one rank later than asked; on the tail-ward side it lands at `rank`.
     */
    method Insert(rank: nat, e: T) returns (r: Result<nat, TierError<T>>)
      requires Valid()
      modifies this
      ensures Valid() && |buffer| == old(|buffer|)
      ensures r.Ok? ==> r.value < |buffer| && buffer[r.value] == Some(e)
      ensures old(tail - head) == |buffer| ==> r == Err(TierFullInsertionError(e)) && unchanged(this)
      ensures old(tail - head) < |buffer| && rank % |buffer| > old(tail - head) ==>
        r == Err(TierDisconnectedEntryInsertionError(rank, e)) && unchanged(this)
      ensures old(tail - head) < |buffer| && rank % |buffer| == old(tail - head) ==>
        r.Ok? && Elements() == old(Elements()) + [e]
      ensures old(tail - head) < |buffer| && rank % |buffer| == 0 < old(tail - head) ==>
        r.Ok? && Elements() == [e] + old(Elements())
      ensures (old(tail - head) < |buffer| && 0 < rank % |buffer| < old(tail - head)
        && ShiftsTowardHead(old(head), old(tail), |buffer|, rank % |buffer|)) ==>
        r.Ok? && Elements() == InsertAt(old(Elements()), rank % |buffer| + 1, e)
      ensures (old(tail - head) < |buffer| && 0 < rank % |buffer| < old(tail - head)
        && !ShiftsTowardHead(old(head), old(tail), |buffer|, rank % |buffer|)) ==>
        r.Ok? && Elements() == InsertAt(old(Elements()), rank % |buffer|, e)
    {
      if IsFull() {
        return Err(TierFullInsertionError(e));
      }
      var mh := MaskedHead();
      var mt := MaskedTail();
      var mr := MaskedRank(rank);
      ghost var rr, len, cap := rank % |buffer|, tail - head, |buffer|;
      SlotRankRoundTrip(head, rr, cap);
      if mt == mr {
        assert rr == len by {
          if rr != len { SlotsDistinct(head, rr, len, cap); }
        }
        r := PushBack(e);
      } else if ContainsMaskedRank(mr) {
        if mh == mr {
          assert rr == 0 by {
            if rr != 0 { SlotsDistinct(head, rr, 0, cap); }
          }
          r := PushFront(e);
        } else {
          ShiftTowardNearer(mr, rr, e);
          r := Ok(mr);
        }
      } else {
        r := Err(TierDisconnectedEntryInsertionError(rank, e));
      }
    }

    /**
     * `insert` as evidently intended: the head-ward shift starts one slot
     * lower, from the slot of rank `rank - 1`, and `e` goes into the slot so
     * vacated, which then holds rank `rank`. Every accepted insertion puts `e`
     * at rank `rank`.
     */
    method InsertCorrected(rank: nat, e: T) returns (r: Result<nat, TierError<T>>)
      requires Valid()
      modifies this
      ensures Valid() && |buffer| == old(|buffer|)
      ensures r.Ok? ==> r.value < |buffer| && buffer[r.value] == Some(e)
      ensures old(tail - head) == |buffer| ==> r == Err(TierFullInsertionError(e)) && unchanged(this)
      ensures old(tail - head) < |buffer| && rank % |buffer| > old(tail - head) ==>
        r == Err(TierDisconnectedEntryInsertionError(rank, e)) && unchanged(this)
      ensures old(tail - head) < |buffer| && rank % |buffer| <= old(tail - head) ==>
        r.Ok? && Elements() == InsertAt(old(Elements()), rank % |buffer|, e)
    {
      if IsFull() {
        return Err(TierFullInsertionError(e));
      }
      var mh := MaskedHead();
      var mt := MaskedTail();
      var mr := MaskedRank(rank);
      ghost var rr, len, cap, s := rank % |buffer|, tail - head, |buffer|, Elements();
      SlotRankRoundTrip(head, rr, cap);
      if mt == mr {
        assert rr == len by {
          if rr != len { SlotsDistinct(head, rr, len, cap); }
        }
        assert InsertAt(s, len, e) == s + [e];
        r := PushBack(e);
      } else if ContainsMaskedRank(mr) {
        if mh == mr {
          assert rr == 0 by {
            if rr != 0 { SlotsDistinct(head, rr, 0, cap); }
          }
          assert InsertAt(s, 0, e) == [e] + s;
          r := PushFront(e);
        } else {
          var idx := ShiftTowardNearerCorrected(mr, rr, e);
          r := Ok(idx);
        }
      } else {
        r := Err(TierDisconnectedEntryInsertionError(rank, e));
      }
    }
  

    /**
     * `take(gap)` then `close_gap(gap)` for rank r after the first: the tail
     * moves back and, from the new masked tail down to the gap, each element
     * moves one slot toward the head. The loop runs while the slot index is
     * above the gap, so when the window wraps between rank r and the last rank
     * it does not run at all and the gap stays inside the window.
     */
    method TakeAndCloseGap(gap: nat, ghost r: nat) returns (x: T)
      requires Valid() && 0 < r < tail - head && gap == SlotOf(head, r, |buffer|)
      modifies this
      ensures |buffer| == old(|buffer|) && head == old(head) && tail == old(tail) - 1
      ensures x == old(Elements())[r]
      ensures !GapWraps(old(head), old(tail - head), |buffer|, r) ==>
        Valid() && Elements() == RemoveAt(old(Elements()), r)
      ensures GapWraps(old(head), old(tail - head), |buffer|, r) ==>
        buffer == old(buffer)[gap := None] && !Valid()
    {
      var slot;
      slot, buffer, tail := Slots.TakeAndCloseGap(buffer, head, tail, gap, r);
      x := slot.value;
    }

    /** `take(gap)` then a `close_gap` whose loop runs until the slot index reaches the gap. */
    method TakeAndCloseGapCorrected(gap: nat, ghost r: nat) returns (x: T)
      requires Valid() && 0 < r < tail - head && gap == SlotOf(head, r, |buffer|)
      modifies this
      ensures Valid() && |buffer| == old(|buffer|)
      ensures x == old(Elements())[r] && Elements() == RemoveAt(old(Elements()), r)
    {
      var slot;
      slot, buffer, tail := Slots.TakeAndCloseGapWrapSafe(buffer, head, tail, gap, r);
      x := slot.value;
    }

    /**
     * `remove` as written: an empty tier and a rank outside the window are
     * errors; the first element is taken with the head moving on (the body of
     * `pop_front`); any other is taken and the gap closed from the tail side.
     * The branch for a rank at the masked tail cannot be reached: that slot
     * is outside the window unless the tier is full, and then it is the head.
     */
    method Remove(rank: nat) returns (r: Result<T, TierError<T>>)
      requires Valid()
      modifies this
      ensures |buffer| == old(|buffer|)
      ensures old(tail - head) == 0 ==> r == Err(TierEmptyError) && unchanged(this)
      ensures 0 < old(tail - head) <= rank % |buffer| ==>
        r == Err(TierRankOutOfBoundsError(rank)) && unchanged(this)
      ensures rank % |buffer| < old(tail - head) ==> r == Ok(old(Elements())[rank % |buffer|])
      ensures !GapWraps(old(head), old(tail - head), |buffer|, rank % |buffer|) ==> Valid()
      ensures (rank % |buffer| < old(tail - head)
        && !GapWraps(old(head), old(tail - head), |buffer|, rank % |buffer|)) ==>
        Elements() == RemoveAt(old(Elements()), rank % |buffer|)
      ensures GapWraps(old(head), old(tail - head), |buffer|, rank % |buffer|) ==>
        head == old(head) && tail == old(tail) - 1 && !Valid()
        && buffer == old(buffer)[SlotOf(old(head), rank % |buffer|, |buffer|) := None]
    {
      if IsEmpty() {
        return Err(TierEmptyError);
      }
      var mr := MaskedRank(rank);
      ghost var rr: nat, len: nat, cap, s := rank % |buffer|, tail - head, |buffer|, Elements();
      SlotRankRoundTrip(head, rr, cap);
      if ContainsMaskedRank(mr) {
        var x;
        if mr == MaskedHead() {
          assert rr == 0 by {
            if rr != 0 { SlotsDistinct(head, rr, 0, cap); }
          }
          assert RemoveAt(s, 0) == s[1..];
          var popped := PopFront();
          x := popped.value;
        } else if mr == MaskedTail() {
          assert false;
        } else {
          assert rr != 0;
          x := TakeAndCloseGap(mr, rr);
        }
        r := Ok(x);
      } else {
        r := Err(TierRankOutOfBoundsError(rank));
      }
    }

    /** `remove` with the gap always closed: every accepted removal drops exactly the element of that rank. */
    method RemoveCorrected(rank: nat) returns (r: Result<T, TierError<T>>)
      requires Valid()
      modifies this
      ensures Valid() && |buffer| == old(|buffer|)
      ensures old(tail - head) == 0 ==> r == Err(TierEmptyError) && unchanged(this)
      ensures 0 < old(tail - head) <= rank % |buffer| ==>
        r == Err(TierRankOutOfBoundsError(rank)) && unchanged(this)
      ensures rank % |buffer| < old(tail - head) ==>
        r == Ok(old(Elements())[rank % |buffer|]) && Elements() == RemoveAt(old(Elements()), rank % |buffer|)
    {
      if IsEmpty() {
        return Err(TierEmptyError);
      }
      var mr := MaskedRank(rank);
      ghost var rr: nat, len: nat, cap, s := rank % |buffer|, tail - head, |buffer|, Elements();
      SlotRankRoundTrip(head, rr, cap);
      if ContainsMaskedRank(mr) {
        var x;
        if mr == MaskedHead() {
          assert rr == 0 by {
            if rr != 0 { SlotsDistinct(head, rr, 0, cap); }
          }
          assert RemoveAt(s, 0) == s[1..];
          var popped := PopFront();
          x := popped.value;
        } else {
          assert rr != 0;
          x := TakeAndCloseGapCorrected(mr, rr);
        }
        r := Ok(x);
      } else {
        r := Err(TierRankOutOfBoundsError(rank));
      }
    }
  

    // -------------------------------------------------------------------------
    // Merging, splitting, cloning and dropping.

    /**
     * `reserve_exact(n)` then `set_len(capacity)` on a tier whose head is 0:
     * n uninitialised slots are appended and the elements stay where they are.
     */
    method Grow(n: nat)
      requires Valid() && head == 0 && IsPowerOfTwo(|buffer| + n)
      modifies this
      ensures Valid() && |buffer| == old(|buffer|) + n && head == 0 && tail == old(tail)
      ensures Elements() == old(Elements())
    {
      buffer := Grown(buffer, tail, n);
    }

    /**
     * `merge`: rotate so the head is at slot 0, grow by the other tier's
     * capacity, then pop the other tier's elements from its front and push
     * them at the back. The push never meets a full tier, so the `expect`
     * on it never fails.
     */
    method Merge(other: RawTier<T>)
      requires Valid() && other.Valid() && other != this
      requires IsPowerOfTwo(|buffer| + |other.buffer|)
      modifies this, other
      ensures Valid() && |buffer| == old(|buffer|) + old(|other.buffer|)
      ensures Elements() == old(Elements()) + old(other.Elements())
      ensures other.Valid() && other.Elements() == []
    {
      RotateReset();
      Grow(|other.buffer|);
      MoveAll(other);
    }

    /**
     * One turn of the loop of `merge`: pop from the front of `other` and, if
     * that gave an element, push it at the back of this tier. There is room
     * for it, so the push succeeds.
     */
    method MoveOne(other: RawTier<T>) returns (moved: bool)
      requires Valid() && other.Valid() && other != this
      requires |Elements()| + |other.Elements()| <= |buffer|
      modifies this, other
      ensures Valid() && other.Valid()
      ensures |buffer| == old(|buffer|) && |other.buffer| == old(|other.buffer|)
      ensures moved <==> old(other.Elements()) != []
      ensures moved ==> other.Elements() == old(other.Elements())[1..]
      ensures moved ==> Elements() == old(Elements()) + [old(other.Elements())[0]]
      ensures !moved ==> Elements() == old(Elements()) && other.Elements() == []
      ensures Elements() + other.Elements() == old(Elements()) + old(other.Elements())
    {
      ghost var e, o := Elements(), other.Elements();
      var popped := other.PopFront();
      moved := popped.Ok?;
      if moved {
        var pushed := PushBack(popped.value);
        assert pushed.Ok?;
        assert e + o == (e + [o[0]]) + o[1..];
      }
    }

    /** The loop of `merge`: move elements until `other` is empty. */
    method MoveAll(other: RawTier<T>)
      requires Valid() && other.Valid() && other != this
      requires |Elements()| + |other.Elements()| <= |buffer|
      modifies this, other
      ensures Valid() && |buffer| == old(|buffer|)
      ensures Elements() == old(Elements()) + old(other.Elements())
      ensures other.Valid() && other.Elements() == [] && |other.buffer| == old(|other.buffer|)
    {
      ghost var all := Elements() + other.Elements();
      var moved := MoveOne(other);
      while moved
        invariant Valid() && other.Valid()
        invariant |buffer| == old(|buffer|) && |other.buffer| == old(|other.buffer|)
        invariant Elements() + other.Elements() == all
        invariant !moved ==> other.Elements() == []
        decreases |other.Elements()| + (if moved then 1 else 0)
      {
        moved := MoveOne(other);
      }
    }

    /**
     * `split_half`: rotate so the head is at slot 0 and cut the buffer in
     * two at half the capacity. This tier keeps the lower half and the first
     * min(len, capacity / 2) elements; the returned tier gets the upper half,
     * with its head at 0 and the remaining elements.
     */
    method SplitHalf() returns (upper: RawTier<T>)
      requires Valid() && |buffer| >= 2
      modifies this
      ensures fresh(upper) && Valid() && upper.Valid()
      ensures |buffer| == old(|buffer|) / 2 && |upper.buffer| == old(|buffer|) / 2
      ensures Elements() + upper.Elements() == old(Elements())
      ensures |Elements()| == if old(tail - head) < old(|buffer|) / 2 then old(tail - head) else old(|buffer|) / 2
    {
      RotateReset();
      var lower, newBuffer, newTail, remainingTail := SplitHalfSlots(buffer, tail - head);
      buffer, tail := lower, newTail;
      upper := new RawTier.FromParts(newBuffer, 0, remainingTail);
    }

    /**
     * `clone`: a buffer of the same capacity into which the slot of each
     * cursor from head to tail gets a copy of the element `get` finds there;
     * the cursors are copied. The copy is slot for slot the original.
     */
    method Clone() returns (c: RawTier<T>)
      requires Valid()
      ensures fresh(c) && c.buffer == buffer && c.head == head && c.tail == tail
      ensures c.Valid() && c.Elements() == Elements()
    {
      var nb := CopyWindow(buffer, head, tail);
      c := new RawTier.FromParts(nb, head, tail);
    }

    /**
     * `drop` as written: walks the slots from the masked head until it
     * reaches the masked tail, finalising the element in each. On a full
     * tier the two coincide, so nothing is finalised.
     */
    method Drop() returns (dropped: seq<T>)
      requires Valid()
      ensures !IsFull() ==> dropped == Elements()
      ensures IsFull() ==> dropped == []
    {
      dropped := [];
      if !IsEmpty() {
        var i := MaskedHead();
        var maskedTail := MaskedTail();
        ghost var j, len, cap := 0, tail - head, |buffer|;
        while i != maskedTail
          invariant 0 <= j <= len && i == SlotOf(head, j, cap)
          invariant len < cap ==> dropped == Elements()[..j]
          invariant len == cap ==> j == 0 && dropped == []
          decreases len - j
        {
          if j == len || len == cap {
            assert false;
          }
          SlotHolds(j);
          dropped := dropped + [buffer[i].value];
          SlotStep(head, j, cap);
          i := Mask(i + 1, |buffer|);
          j := j + 1;
        }
        if len < cap && j < len {
          SlotsDistinct(head, j, len, cap);
        }
      }
    }

    /** `drop` as evidently intended: every element is finalised, on a full tier too. */
    method DropAll() returns (dropped: seq<T>)
      requires Valid()
      ensures dropped == Elements()
    {
      dropped := [];
      var k := 0;
      while k < Len()
        invariant 0 <= k <= Len() && dropped == Elements()[..k]
      {
        SlotHolds(k);
        dropped := dropped + [buffer[Mask(head + k, |buffer|)].value];
        k := k + 1;
      }
    }
  }

  // ---------------------------------------------------------------------------
  // Scenarios: the tier tests of src/tier.rs and the inputs that show where
  // `insert`, `remove` and `drop` as written part from their evident intent.

  /** A tier of capacity `cap` filled with `xs` by `push_back`. */
  method Filled(cap: nat, xs: seq<int>) returns (t: RawTier<int>)
    requires IsPowerOfTwo(cap) && |xs| <= cap
    ensures fresh(t) && t.Valid() && t.Elements() == xs && |t.buffer| == cap && t.head == 0 && t.tail == |xs|
  {
    t := new RawTier(cap);
    var i := 0;
    while i < |xs|
      invariant i <= |xs| && t.Valid() && t.Elements() == xs[..i] && |t.buffer| == cap && t.head == 0 && t.tail == i
    {
      var pushed := t.PushBack(xs[i]);
      assert xs[..i + 1] == xs[..i] + [xs[i]];
      i := i + 1;
    }
  }

  /**
   * Test `insert_at_rank_shift_head`: inserting 3 at rank 1 of [0, 1, 2] in a
   * tier of capacity 4 shifts toward the head and reads back 0, 1, 3, 2:
   * the 3 is at rank 2.
   */
  method InsertShiftHeadExample() returns (got: seq<int>)
    ensures got == [0, 1, 3, 2]
  {
    SmallPowersOfTwo();
    var t := Filled(4, [0, 1, 2]);
    assert ShiftsTowardHead(0, 3, 4, 1) && InsertAt([0, 1, 2], 2, 3) == [0, 1, 3, 2];
    var r := t.Insert(1, 3);
    got := t.Elements();
  }

  /** The same insertion as evidently intended: the 3 is at rank 1. */
  method InsertCorrectedShiftHeadExample() returns (got: seq<int>)
    ensures got == [0, 3, 1, 2]
  {
    SmallPowersOfTwo();
    var t := Filled(4, [0, 1, 2]);
    assert InsertAt([0, 1, 2], 1, 3) == [0, 3, 1, 2];
    var r := t.InsertCorrected(1, 3);
    got := t.Elements();
  }

  /** Test `insert_at_rank_shift_tail`: inserting 3 at rank 2 of [0, 1, 2] puts it at rank 2. */
  method InsertShiftTailExample() returns (got: seq<int>)
    ensures got == [0, 1, 3, 2]
  {
    SmallPowersOfTwo();
    var t := Filled(4, [0, 1, 2]);
    assert !ShiftsTowardHead(0, 3, 4, 2) && InsertAt([0, 1, 2], 2, 3) == [0, 1, 3, 2];
    var r := t.Insert(2, 3);
    got := t.Elements();
  }

  /** Test `remove_at_rank_1`: removing rank 1 of the full tier [0, 1, 2, 3] leaves 0, 2, 3. */
  method RemoveRankOneExample() returns (removed: Result<int, TierError<int>>, got: seq<int>)
    ensures removed == Ok(1) && got == [0, 2, 3]
  {
    SmallPowersOfTwo();
    var t := Filled(4, [0, 1, 2, 3]);
    assert !GapWraps(0, 4, 4, 1) && RemoveAt([0, 1, 2, 3], 1) == [0, 2, 3];
    removed := t.Remove(1);
    got := t.Elements();
  }

  /** Test `remove_at_rank_2`: removing rank 0 of the full tier [0, 1, 2, 3] leaves 1, 2, 3. */
  method RemoveRankZeroExample() returns (removed: Result<int, TierError<int>>, got: seq<int>)
    ensures removed == Ok(0) && got == [1, 2, 3]
  {
    SmallPowersOfTwo();
    var t := Filled(4, [0, 1, 2, 3]);
    assert !GapWraps(0, 4, 4, 0) && RemoveAt([0, 1, 2, 3], 0) == [1, 2, 3];
    removed := t.Remove(0);
    got := t.Elements();
  }

  /** Capacity 4, head 2 and the elements 7, 8, 9 in slots 2, 3 and 0. */
  method WrappedTier() returns (t: RawTier<int>)
    ensures fresh(t) && t.Valid() && t.head == 2 && t.tail == 5 && t.Elements() == [7, 8, 9]
    ensures t.buffer == [Some(9), None, Some(7), Some(8)]
  {
    t := PushedPastTheEnd();
    t.SlotHolds(0);
    assert t.buffer[2] == Some(7);
    t.SlotHolds(1);
    assert t.buffer[3] == Some(8);
    t.SlotHolds(2);
    assert t.buffer[0] == Some(9);
    t.SlotHolds(3);
    assert t.buffer[1] == None;
  }

  /** Two elements pushed and popped, then 7, 8 and 9 pushed: the window wraps past the last slot. */
  method PushedPastTheEnd() returns (t: RawTier<int>)
    ensures fresh(t) && t.Valid() && |t.buffer| == 4 && t.head == 2 && t.tail == 5 && t.Elements() == [7, 8, 9]
  {
    SmallPowersOfTwo();
    t := Filled(4, [0, 0]);
    var p := t.PopFront();
    p := t.PopFront();
    assert t.Elements() == [];
    var q := t.PushBack(7);
    q := t.PushBack(8);
    assert t.Elements() == [7, 8];
    q := t.PushBack(9);
    assert t.Elements() == [7, 8, 9];
  }

  /**
   * `remove` when the window wraps below the gap: removing rank 1 of the
   * wrapped tier empties slot 3 and moves the tail back without moving the
   * 9: the window is slots 2 and 3, the second of them empty, and the 9 is
   * left outside it.
   */
  method RemoveWrappedGapExample() returns (removed: Result<int, TierError<int>>, slots: seq<Option<int>>, head: int, tail: int)
    ensures removed == Ok(8)
    ensures slots == [Some(9), None, Some(7), None] && head == 2 && tail == 4
  {
    var t := WrappedTier();
    assert GapWraps(2, 3, 4, 1);
    removed := t.Remove(1);
    slots, head, tail := t.buffer, t.head, t.tail;
  }

  /** The same removal with the gap closed across the wrap: 7, 9 remain, in order. */
  method RemoveCorrectedWrappedGapExample() returns (removed: Result<int, TierError<int>>, got: seq<int>)
    ensures removed == Ok(8) && got == [7, 9]
  {
    var t := WrappedTier();
    assert RemoveAt([7, 8, 9], 1) == [7, 9];
    removed := t.RemoveCorrected(1);
    got := t.Elements();
  }

  /** `drop` of a full tier of capacity 2 finalises neither element; the corrected drop finalises both. */
  method DropFullExample() returns (asWritten: seq<int>, intended: seq<int>)
    ensures asWritten == [] && intended == [5, 6]
  {
    SmallPowersOfTwo();
    var t := Filled(2, [5, 6]);
    asWritten := t.Drop();
    intended := t.DropAll();
  }
}
