// The older implicit tier (implicit/tier.rs): a wrapper around a borrowed
// slice of slots, with the ring offsets kept outside and passed to every
// operation. Its slot arithmetic is that of src/implicit/tier.rs, so each
// operation here hands its slots to the function or method of module
// ImplicitTier that models the same code, and stores back the slice that
// comes out. What differs is `contains_masked_rank`, which is the negation of
// `masked_index_is_unused`, and so reports every slot of an empty tier as
// holding an element.
module DraftImplicitTier {
  import opened Ring
  import opened Wrappers
  import opened Slots
  import opened Seqs
  import opened Errors
  import opened RingOffsets
  import Implicit = ImplicitTier
  import Tier

  class ImplicitTier<T> {
    var slots: seq<Option<T>>

    /** `from_slice`: wraps the slice; its length must be a power of two. */
    constructor FromSlice(slice: seq<Option<T>>)
      requires IsPowerOfTwo(|slice|)
      ensures slots == slice && |slots| > 0
    {
      slots := slice;
    }

    ghost predicate Valid(o: ImplicitTierRingOffsets)
      reads this, o
    {
      Implicit.Valid(slots, o)
    }

    function Elements(o: ImplicitTierRingOffsets): seq<T>
      reads this, o
      requires Valid(o)
    {
      Implicit.Elements(slots, o)
    }

    /**
     * `contains_masked_rank`: not `masked_index_is_unused`. Right for every
     * tier but an empty one, where the masked cursors coincide and no slot
     * counts as unused.
     */
    function ContainsMaskedRank(o: ImplicitTierRingOffsets, m: nat): (b: bool)
      reads this, o
      requires Valid(o) && m < |slots|
      ensures b <==> o.IsEmpty() || InWindow(o.head, o.tail - o.head, |slots|, m)
    {
      Implicit.IsValidMaskedIndex(slots, o, m)
    }

    /** On an empty tier every slot is reported as contained, and none holds an element. */
    lemma EmptyTierContainsEverySlot(o: ImplicitTierRingOffsets, m: nat)
      requires Valid(o) && o.IsEmpty() && m < |slots|
      ensures ContainsMaskedRank(o, m) && slots[m] == None
    {
      Implicit.EmptyTierSlotsPass(slots, o, m);
    }

    /** `contains_rank`: the masked cursor `head + rank` is contained. */
    function ContainsRank(o: ImplicitTierRingOffsets, rank: nat): (b: bool)
      reads this, o
      requires Valid(o)
      ensures b <==> o.IsEmpty() || rank % |slots| < |Elements(o)|
    {
      SlotOfReduces(o.head, rank, |slots|);
      ContainsMaskedRank(o, Mask(o.head + rank, |slots|))
    }

    /** `push_front`: the code of src/implicit/tier.rs on the wrapped slice. */
    method PushFront(o: ImplicitTierRingOffsets, e: T) returns (r: Result<nat, TierError<T>>)
      requires Valid(o)
      modifies this, o
      ensures Valid(o) && |slots| == old(|slots|)
      ensures old(o.IsFull(|slots|)) ==> r == Err(TierFullInsertionError(e)) && Elements(o) == old(Elements(o))
      ensures !old(o.IsFull(|slots|)) ==> r.Ok? && Elements(o) == [e] + old(Elements(o))
    {
      slots, r := Implicit.PushFront(slots, o, e);
    }

    /** `push_back`: the code of src/implicit/tier.rs on the wrapped slice. */
    method PushBack(o: ImplicitTierRingOffsets, e: T) returns (r: Result<nat, TierError<T>>)
      requires Valid(o)
      modifies this, o
      ensures Valid(o) && |slots| == old(|slots|)
      ensures old(o.IsFull(|slots|)) ==> r == Err(TierFullInsertionError(e)) && Elements(o) == old(Elements(o))
      ensures !old(o.IsFull(|slots|)) ==> r.Ok? && Elements(o) == old(Elements(o)) + [e]
    {
      slots, r := Implicit.PushBack(slots, o, e);
    }

    /** `pop_front`: the code of src/implicit/tier.rs on the wrapped slice. */
    method PopFront(o: ImplicitTierRingOffsets) returns (r: Result<T, TierError<T>>)
      requires Valid(o)
      modifies this, o
      ensures Valid(o) && |slots| == old(|slots|)
      ensures old(o.IsEmpty()) ==> r == Err(TierEmptyError) && Elements(o) == old(Elements(o))
      ensures !old(o.IsEmpty()) ==> r == Ok(old(Elements(o))[0]) && Elements(o) == old(Elements(o))[1..]
    {
      slots, r := Implicit.PopFront(slots, o);
    }

    /** `pop_back`: the code of src/implicit/tier.rs on the wrapped slice. */
    method PopBack(o: ImplicitTierRingOffsets) returns (r: Result<T, TierError<T>>)
      requires Valid(o)
      modifies this, o
      ensures Valid(o) && |slots| == old(|slots|)
      ensures old(o.IsEmpty()) ==> r == Err(TierEmptyError) && Elements(o) == old(Elements(o))
      ensures !old(o.IsEmpty()) ==>
        r == Ok(old(Elements(o))[|old(Elements(o))| - 1]) && Elements(o) == old(Elements(o))[..|old(Elements(o))| - 1]
    {
      slots, r := Implicit.PopBack(slots, o);
    }

    /**
     * `insert_at_rank` on a tier that is not full. On a tier with elements
     * `contains_masked_rank` agrees with the window, and the code is that of
     * src/implicit/tier.rs, head-ward placement at rank + 1 included. On an
     * empty tier every slot counts as contained and both distances are
     * |m - masked head|, so `shift_to_head` runs from m = mask(head + rank):
     * the head moves back one and only uninitialised slots are moved, then
     * `e` is written at m. The one slot of the new window is m exactly when
     * rank is capacity - 1 modulo the capacity; for any other rank the
     * window's slot is uninitialised and `e` lies outside it.
     */
    method InsertAtRank(o: ImplicitTierRingOffsets, rank: nat, e: T) returns (r: Result<nat, TierError<T>>)
      requires Valid(o) && o.tail - o.head < |slots|
      modifies this, o
      ensures |slots| == old(|slots|)
      ensures old(o.IsEmpty()) ==> (r == Ok(Mask(old(o.head) + rank, |slots|))
        && o.head == old(o.head) - 1 && o.tail == old(o.tail) && slots == old(slots)[r.value := Some(e)])
      ensures old(o.IsEmpty()) ==> (Valid(o) <==> rank % |slots| == |slots| - 1)
      ensures old(o.IsEmpty()) && rank % |slots| == |slots| - 1 ==> Valid(o) && Elements(o) == [e]
      ensures !old(o.IsEmpty()) ==> Valid(o)
      ensures !old(o.IsEmpty()) && rank % |slots| > old(o.tail - o.head) ==>
        r == Err(TierDisconnectedEntryInsertionError(rank, e)) && Elements(o) == old(Elements(o))
      ensures !old(o.IsEmpty()) && rank % |slots| == old(o.tail - o.head) ==> r.Ok? && Elements(o) == old(Elements(o)) + [e]
      ensures (rank % |slots| < old(o.tail - o.head) && Tier.ShiftsTowardHead(old(o.head), old(o.tail), |slots|, rank % |slots|)) ==>
        r.Ok? && Elements(o) == InsertAt(old(Elements(o)), rank % |slots| + 1, e)
      ensures (rank % |slots| < old(o.tail - o.head) && !Tier.ShiftsTowardHead(old(o.head), old(o.tail), |slots|, rank % |slots|)) ==>
        r.Ok? && Elements(o) == InsertAt(old(Elements(o)), rank % |slots|, e)
    {
      if o.IsEmpty() {
        ghost var h, before := o.head, slots;
        var m := Mask(o.head + rank, |slots|);
        forall x | 0 <= x < |slots| ensures slots[x] == None {
          Implicit.EmptyTierSlotsPass(slots, o, x);
        }
        o.HeadBackward();
        slots := slots[m := Some(e)];
        r := Ok(m);
        LastRankBehindHead(h, rank, |slots|);
        EmptyInsertOutcome(before, h, m, e);
      } else {
        slots, r := Implicit.InsertAtRank(slots, o, rank, e);
      }
    }

    /**
     * `remove_at_rank`, with the source's `TierIndexOutOfBoundsError` read
     * as `TierRankOutOfBoundsError`; the gap is closed by the same
     * `close_gap` as in src/implicit/tier.rs. The value removed is the slot
     * as it is read: `Some` of an element, or None for an uninitialised slot.
     * On an empty tier every slot counts as contained, so the uninitialised
     * slot m = mask(head + rank) is read out. When m is the masked head the
     * head moves forward; otherwise `close_gap` moves the tail back and
     * shifts only uninitialised slots. Either way the length drops to -1,
     * which the crate's usize cursors hold as usize::MAX.
     */
    method RemoveAtRank(o: ImplicitTierRingOffsets, rank: nat) returns (r: Result<Option<T>, TierError<T>>)
      requires Valid(o)
      modifies this, o
      ensures |slots| == old(|slots|) > 0
      ensures old(o.tail == o.head) ==> r == Ok(None) && slots == old(slots) && o.tail - o.head == -1 && !Valid(o)
      ensures old(o.tail == o.head) && rank % |slots| == 0 ==> o.head == old(o.head) + 1 && o.tail == old(o.tail)
      ensures old(o.tail == o.head) && rank % |slots| != 0 ==> o.head == old(o.head) && o.tail == old(o.tail) - 1
      ensures !old(o.tail == o.head) && rank % |slots| >= old(o.tail - o.head) ==>
        r == Err(TierRankOutOfBoundsError(rank)) && Valid(o) && Elements(o) == old(Elements(o))
      ensures rank % |slots| < old(o.tail - o.head) ==> r == Ok(Some(old(Elements(o))[rank % |slots|]))
      ensures (rank % |slots| < old(o.tail - o.head) && !GapWraps(old(o.head), old(o.tail - o.head), |slots|, rank % |slots|)) ==>
        Valid(o) && Elements(o) == RemoveAt(old(Elements(o)), rank % |slots|)
      ensures GapWraps(old(o.head), old(o.tail - o.head), |slots|, rank % |slots|) ==> !Valid(o)
    {
      if o.IsEmpty() {
        var cap := |slots|;
        var m := Mask(o.head + rank, cap);
        Implicit.EmptyTierSlotsPass(slots, o, m);
        HeadSlotRank(o.head, rank, cap);
        assert m == o.MaskedHead(cap) <==> rank % cap == 0;
        var x := slots[m];
        assert slots[m := None] == slots;
        assert !GapWraps(o.head, 0, cap, rank % cap);
        slots := slots[m := None];
        if m == o.MaskedHead(cap) {
          o.HeadForward();
        } else {
          // `close_gap`: the tail moves back and the loop moves free slots only.
          o.TailBackward();
        }
        r := Ok(x);
      } else {
        var res;
        slots, res := Implicit.RemoveAtRank(slots, o, rank);
        r := if res.Ok? then Ok(Some(res.value)) else Err(res.error);
      }
    }
  }

  /** Rank r of a ring is at the slot just behind the head exactly when r is capacity - 1 modulo the capacity. */
  lemma LastRankBehindHead(h: int, rank: nat, cap: nat)
    requires cap > 0
    ensures Mask(h + rank, cap) == Mask(h - 1, cap) <==> rank % cap == cap - 1
  {
    SlotOfReduces(h, rank, cap);
    ModAddMultiple(h - 1, 1, cap);
    assert SlotOf(h, cap - 1, cap) == Mask(h - 1, cap);
    if rank % cap != cap - 1 {
      SlotsDistinct(h, rank % cap, cap - 1, cap);
    }
  }

  /** Rank r of a ring is at the head's slot exactly when r is 0 modulo the capacity. */
  lemma HeadSlotRank(h: int, rank: nat, cap: nat)
    requires cap > 0
    ensures Mask(h + rank, cap) == Mask(h, cap) <==> rank % cap == 0
  {
    SlotOfReduces(h, rank, cap);
    assert SlotOf(h, 0, cap) == Mask(h, cap);
    if rank % cap != 0 {
      SlotsDistinct(h, rank % cap, 0, cap);
    }
  }

  /**
   * Free slots with `e` written at slot m, read from cursor h - 1 with one
   * element: a valid window holding `e` when m is that cursor's slot, and a
   * window over a free slot otherwise.
   */
  lemma EmptyInsertOutcome<T>(buf: seq<Option<T>>, h: int, m: nat, e: T)
    requires 0 < |buf| && m < |buf| && forall x :: 0 <= x < |buf| ==> buf[x] == None
    ensures m == Mask(h - 1, |buf|) ==>
      Live(buf[m := Some(e)], h - 1, 1) && Dead(buf[m := Some(e)], h - 1, 1)
      && Contents(buf[m := Some(e)], h - 1, 1) == [e]
    ensures m != Mask(h - 1, |buf|) ==> !Live(buf[m := Some(e)], h - 1, 1)
  {
    var nb := buf[m := Some(e)];
    var cap := |buf|;
    ByRankAt(nb, h - 1);
    assert SlotOf(h - 1, 0, cap) == Mask(h - 1, cap);
    if m == Mask(h - 1, cap) {
      var w := ByRank(nb, h - 1);
      forall k | 1 <= k < cap ensures w[k] == None {
        SlotsDistinct(h - 1, 0, k, cap);
      }
      assert w == [Some(e)] + w[1..];
      ListedAs(nb, h - 1, 1, [Some(e)], w[1..]);
      assert Values([Some(e)]) == [e];
    } else {
      assert Window(nb, h - 1, 1)[0] == None;
    }
  }
}
