// The tier of the flat vector (src/flat/tier.rs): a head and a tail cursor
// followed by the tier's slots, laid out inline in the vector's single
// allocation. A tier has no allocation of its own, so the model treats it as
// a value: each operation that changes a tier returns the tier as it is
// afterwards, and the vector stores it back in place of the old one.
//
// Unlike the canonical tier, the flat tier's operations panic instead of
// returning errors: what they assert becomes a precondition here.
module FlatTier {
  import opened Ring
  import opened Wrappers
  import opened Seqs
  import opened Slots

  /** A tier of n free slots with both cursors at 0, as zeroed memory reads. */
  function Empty<T>(n: nat): (t: Tier<T>)
    requires IsPowerOfTwo(n)
    ensures t.Valid() && t.Capacity() == n && t.head == 0 && t.tail == 0 && t.Elements() == []
  {
    var nb := Uninit(n);
    ByRankIsRotation(nb, 0);
    ListedAs(nb, 0, 0, [], nb);
    Tier(nb, 0, 0)
  }

  datatype Tier<T> = Tier(elements: seq<Option<T>>, head: int, tail: int)
  {
    /** A power-of-two number of slots; the window's slots hold elements and no other slot does. */
    ghost predicate Valid()
    {
      IsPowerOfTwo(|elements|) && 0 < |elements| && 0 <= tail - head <= |elements|
      && Live(elements, head, tail - head) && Dead(elements, head, tail - head)
    }

    /** The elements, by rank. */
    function Elements(): seq<T>
      requires Valid()
    {
      Contents(elements, head, tail - head)
    }

    /** What the slot of each rank holds. */
    lemma SlotHolds(k: nat)
      requires Valid() && k < |elements|
      ensures k < tail - head ==> elements[SlotOf(head, k, |elements|)] == Some(Elements()[k])
      ensures k >= tail - head ==> elements[SlotOf(head, k, |elements|)] == None
    {
      ByRankSlot(elements, head, k);
      var w, len := ByRank(elements, head), tail - head;
      if k < len {
        assert Window(elements, head, len)[k] == w[k];
      } else {
        assert w[len..][k - len] == w[k];
      }
    }

    /** `capacity`: the number of slots, a power of two that bounds the length. */
    function Capacity(): (c: nat)
      ensures Valid() ==> IsPowerOfTwo(c) && |Elements()| <= c
    {
      |elements|
    }

    /** `len`: `tail - head`. */
    function Len(): (n: int)
      requires Valid()
      ensures n == |Elements()|
    {
      tail - head
    }

    /** `is_empty`: the cursors are equal. */
    function IsEmpty(): (b: bool)
      requires Valid()
      ensures b <==> Elements() == []
    {
      head == tail
    }

    /** `is_full`: as many elements as slots. */
    function IsFull(): (b: bool)
      requires Valid()
      ensures b <==> |Elements()| == Capacity()
    {
      Len() == Capacity()
    }

    /** `masked_head`: the slot of the first element. */
    function MaskedHead(): (m: nat)
      requires Valid()
      ensures m < Capacity()
      ensures !IsEmpty() ==> elements[m] == Some(Elements()[0])
    {
      SlotHolds(0);
      Mask(head, |elements|)
    }

    /** `masked_tail`: the slot after the last element, free unless the tier is full. */
    function MaskedTail(): (m: nat)
      requires Valid()
      ensures m < Capacity() && m == SlotOf(head, Len(), Capacity())
      ensures !IsFull() ==> elements[m] == None
      ensures IsFull() ==> m == MaskedHead()
    {
      TailSlot();
      Mask(tail, |elements|)
    }

    lemma TailSlot()
      requires Valid()
      ensures !IsFull() ==> elements[Mask(tail, |elements|)] == None
      ensures IsFull() ==> Mask(tail, |elements|) == Mask(head, |elements|)
    {
      if !IsFull() {
        SlotHolds(tail - head);
      } else {
        ModAddMultiple(head, 1, |elements|);
      }
    }

    /** `masked_rank`: the slot of rank `rank`, taken modulo the capacity. */
    function MaskedRank(rank: nat): (m: nat)
      requires Valid()
      ensures m < Capacity() && m == SlotOf(head, rank % Capacity(), Capacity())
      ensures rank % Capacity() < Len() ==> elements[m] == Some(Elements()[rank % Capacity()])
    {
      SlotOfReduces(head, rank, |elements|);
      SlotHolds(rank % |elements|);
      Mask(head + rank, |elements|)
    }

    /**
     * `contains_masked_rank`: always when full; inside [masked_head,
     * masked_tail) when those are in order, which an empty tier's equal
     * cursors make an empty range; outside [masked_tail, masked_head) when
     * the window wraps.
     */
    function ContainsMaskedRank(m: nat): (b: bool)
      requires Valid() && m < Capacity()
      ensures b <==> RankOf(head, m, Capacity()) < |Elements()|
    {
      var mh, mt := Mask(head, |elements|), Mask(tail, |elements|);
      WindowByMaskedCursors(head, tail, |elements|, m);
      if IsFull() then true
      else if mh <= mt then mh <= m < mt
      else m >= mh || m < mt
    }

    /** `contains_rank`: rank `rank`, taken modulo the capacity, holds an element. */
    function ContainsRank(rank: nat): (b: bool)
      requires Valid()
      ensures b <==> rank % Capacity() < |Elements()|
    {
      var m := MaskedRank(rank);
      SlotRankRoundTrip(head, rank % |elements|, |elements|);
      ContainsMaskedRank(m)
    }

    /** `get`: the element in slot `idx`, if the slot holds one. */
    function Get(idx: nat): (r: Option<T>)
      requires Valid() && idx < Capacity()
      ensures r.Some? <==> RankOf(head, idx, Capacity()) < |Elements()|
      ensures r.Some? ==> r.value == Elements()[RankOf(head, idx, Capacity())]
    {
      if !ContainsMaskedRank(idx) then None
      else
        RankSlotRoundTrip(head, idx, |elements|);
        SlotHolds(RankOf(head, idx, |elements|));
        Some(elements[idx].value)
    }

    /** `get_by_rank`: the element of rank `rank`, taken modulo the capacity, if there is one. */
    function GetByRank(rank: nat): (r: Option<T>)
      requires Valid()
      ensures r == if rank % Capacity() < |Elements()| then Some(Elements()[rank % Capacity()]) else None
    {
      var m := MaskedRank(rank);
      SlotRankRoundTrip(head, rank % |elements|, |elements|);
      Get(m)
    }

    /** `Index`: the slot of rank `rank` read without a check, so the rank must hold an element. */
    function Index(rank: nat): (x: T)
      requires Valid() && rank % Capacity() < |Elements()|
      ensures x == Elements()[rank % Capacity()]
    {
      elements[MaskedRank(rank)].value
    }

    // -------------------------------------------------------------------------
    // Deque operations at both ends.

    /** `push_back`: store `e` at the masked tail and move the tail on. */
    method PushBack(e: T) returns (t: Tier<T>)
      requires Valid() && !IsFull()
      ensures t.Valid() && t.Capacity() == Capacity() && t.head == head && t.tail == tail + 1
      ensures t.Elements() == Elements() + [e]
    {
      var nb, ntail, _ := PushBackSlots(elements, head, tail, e);
      t := Tier(nb, head, ntail);
    }

    /** `push_front`: move the head back one slot and store `e` there. */
    method PushFront(e: T) returns (t: Tier<T>)
      requires Valid() && !IsFull()
      ensures t.Valid() && t.Capacity() == Capacity() && t.head == head - 1 && t.tail == tail
      ensures t.Elements() == [e] + Elements()
    {
      var nb, nhead, _ := PushFrontSlots(elements, head, tail, e);
      t := Tier(nb, nhead, tail);
    }

    /** `pop_front`: take the first element and move the head on. */
    method PopFront() returns (x: T, t: Tier<T>)
      requires Valid() && !IsEmpty()
      ensures t.Valid() && t.Capacity() == Capacity() && t.head == head + 1 && t.tail == tail
      ensures x == Elements()[0] && t.Elements() == Elements()[1..]
    {
      var slot, nb, nhead := PopFrontSlots(elements, head, tail);
      x := slot.value;
      t := Tier(nb, nhead, tail);
    }

    /** `pop_back`: move the tail back and take the element it then points at. */
    method PopBack() returns (x: T, t: Tier<T>)
      requires Valid() && !IsEmpty()
      ensures t.Valid() && t.Capacity() == Capacity() && t.head == head && t.tail == tail - 1
      ensures x == Elements()[|Elements()| - 1] && t.Elements() == Elements()[..|Elements()| - 1]
    {
      ghost var s := Elements();
      var slot, nb, ntail := PopBackSlots(elements, head, tail);
      x := slot.value;
      t := Tier(nb, head, ntail);
      assert t.Elements() == s[..tail - head - 1];
    }

    /** `rotate_reset`: rotate the slots so that the first element sits in slot 0, and restart the cursors there. */
    method RotateReset() returns (t: Tier<T>)
      requires Valid()
      ensures t.Valid() && t.Capacity() == Capacity() && t.head == 0 && t.tail == Len()
      ensures t.Elements() == Elements()
    {
      var nb := RotatedToFront(elements, head, tail - head);
      t := Tier(nb, 0, tail - head);
    }

    /**
     * `tail_forward_by(k)` on a tier read from slot 0 whose k slots after the
     * window were just filled: the window takes them in.
     */
    function TailForwardBy(k: nat): (t: Tier<T>)
      requires IsPowerOfTwo(|elements|) && head == 0 <= tail && tail + k <= |elements|
      requires AllSome(elements[..tail + k]) && AllNone(elements[tail + k..])
      ensures t.Valid() && t.Capacity() == Capacity() && t.head == 0 && t.tail == tail + k
      ensures t.Elements() == Values(elements[..tail + k])
    {
      ByRankIsRotation(elements, 0);
      assert elements == elements[..tail + k] + elements[tail + k..];
      ListedAs(elements, 0, tail + k, elements[..tail + k], elements[tail + k..]);
      Tier(elements, head, tail + k)
    }

    /**
     * `clear_and_leak`: both cursors to 0. The slots' old contents are
     * forgotten without being dropped; the model writes them as free.
     */
    function ClearAndLeak(): (t: Tier<T>)
      requires IsPowerOfTwo(|elements|)
      ensures t.Valid() && t.Capacity() == Capacity() && t.head == 0 && t.tail == 0
      ensures t.Elements() == []
    {
      Empty(|elements|)
    }

    /** A tier read from slot 0 holds its elements in its first slots, in order, and nothing after them. */
    lemma FromSlotZero()
      requires Valid() && head == 0
      ensures 0 <= tail <= |elements| && AllSome(elements[..tail]) && AllNone(elements[tail..])
      ensures Values(elements[..tail]) == Elements()
    {
      ByRankIsRotation(elements, 0);
      assert Window(elements, 0, tail) == elements[..tail];
    }

    // -------------------------------------------------------------------------
    // Insertion and removal at a rank.

    /**
     * `insert(rank, e)`: at the masked tail it is `push_back`, at the masked
     * head `push_front`; anywhere else the ranks from `rank` on move one slot
     * toward the tail, wrapping past the end of the slots if need be, and `e`
     * fills the slot so vacated. Every insertion puts `e` at rank `rank`.
     */
    method Insert(rank: nat, e: T) returns (t: Tier<T>)
      requires Valid() && !IsFull() && rank % Capacity() <= |Elements()|
      ensures t.Valid() && t.Capacity() == Capacity()
      ensures t.Elements() == InsertAt(Elements(), rank % Capacity(), e)
    {
      var mh := MaskedHead();
      var mt := MaskedTail();
      var mr := MaskedRank(rank);
      ghost var rr, len, cap, s := rank % |elements|, tail - head, |elements|, Elements();
      if mt == mr {
        assert rr == len;
        assert InsertAt(s, len, e) == s + [e];
        t := PushBack(e);
      } else if mh == mr {
        assert rr == 0 by {
          if rr != 0 { SlotsDistinct(head, rr, 0, cap); }
        }
        assert InsertAt(s, 0, e) == [e] + s;
        t := PushFront(e);
      } else {
        var nb, ntail := ShiftAroundToTailAndSet(elements, head, tail, mr, rr, e);
        t := Tier(nb, head, ntail);
      }
    }

    /**
     * `take(gap)` then `close_gap(gap)` for rank r after the first, with the
     * loop guard `i > gap`: the gap closes unless the window wraps between
     * rank r and the last rank.
     */
    method TakeAndCloseGapAt(gap: nat, ghost r: nat) returns (x: T, t: Tier<T>)
      requires Valid() && 0 < r < Len() && gap == SlotOf(head, r, Capacity())
      ensures x == Elements()[r] && t.Capacity() == Capacity()
      ensures !GapWraps(head, Len(), Capacity(), r) ==> t.Valid() && t.Elements() == RemoveAt(Elements(), r)
      ensures GapWraps(head, Len(), Capacity(), r) ==>
        !t.Valid() && t.head == head && t.tail == tail - 1 && t.elements == elements[gap := None]
    {
      var slot, nb, ntail := TakeAndCloseGap(elements, head, tail, gap, r);
      x := slot.value;
      t := Tier(nb, head, ntail);
    }

    /** `take(gap)` then `close_gap(gap)` with the loop guard `i != gap`: the gap always closes. */
    method TakeAndCloseGapWrapSafeAt(gap: nat, ghost r: nat) returns (x: T, t: Tier<T>)
      requires Valid() && 0 < r < Len() && gap == SlotOf(head, r, Capacity())
      ensures t.Valid() && t.Capacity() == Capacity()
      ensures x == Elements()[r] && t.Elements() == RemoveAt(Elements(), r)
    {
      var slot, nb, ntail := TakeAndCloseGapWrapSafe(elements, head, tail, gap, r);
      x := slot.value;
      t := Tier(nb, head, ntail);
    }

    /**
     * `remove(rank)` as written: the element of rank `rank` is taken; at the
     * masked head the head moves on, otherwise the gap is closed from the tail
     * side by a loop that runs while the slot index is above the gap. When
     * the window wraps between the gap and the last element, that loop does
     * not run, the tail still moves back, and the tier is left with a vacated
     * slot inside its window. The branch for a rank at the masked tail cannot
     * be reached for a rank inside the window.
     */
    method Remove(rank: nat) returns (x: T, t: Tier<T>)
      requires Valid() && rank % Capacity() < |Elements()|
      ensures x == Elements()[rank % Capacity()] && t.Capacity() == Capacity()
      ensures !GapWraps(head, tail - head, Capacity(), rank % Capacity()) ==>
        t.Valid() && t.Elements() == RemoveAt(Elements(), rank % Capacity())
      ensures GapWraps(head, tail - head, Capacity(), rank % Capacity()) ==>
        !t.Valid() && t.head == head && t.tail == tail - 1
        && t.elements == elements[SlotOf(head, rank % Capacity(), Capacity()) := None]
    {
      var mr := MaskedRank(rank);
      ghost var rr: nat, cap: nat, s := rank % |elements|, |elements|, Elements();
      if tail - head < cap {
        SlotsDistinct(head, rr, tail - head, cap);
      }
      if mr == MaskedHead() {
        assert rr == 0 by {
          if rr != 0 { SlotsDistinct(head, rr, 0, cap); }
        }
        assert RemoveAt(s, 0) == s[1..] && !GapWraps(head, tail - head, cap, rr);
        x, t := PopFront();
      } else if mr == MaskedTail() {
        assert false;
      } else {
        x, t := TakeAndCloseGapAt(mr, rr);
      }
    }

    /** `remove(rank)` with the gap always closed: the element of rank `rank` is taken out and the rest keep their order. */
    method RemoveCorrected(rank: nat) returns (x: T, t: Tier<T>)
      requires Valid() && rank % Capacity() < |Elements()|
      ensures t.Valid() && t.Capacity() == Capacity()
      ensures x == Elements()[rank % Capacity()] && t.Elements() == RemoveAt(Elements(), rank % Capacity())
    {
      var mr := MaskedRank(rank);
      ghost var rr: nat, cap: nat, s := rank % |elements|, |elements|, Elements();
      if mr == MaskedHead() {
        assert rr == 0 by {
          if rr != 0 { SlotsDistinct(head, rr, 0, cap); }
        }
        assert RemoveAt(s, 0) == s[1..];
        x, t := PopFront();
      } else {
        x, t := TakeAndCloseGapWrapSafeAt(mr, rr);
      }
    }
  }
}
