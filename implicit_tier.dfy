// The implicit tier (src/implicit/tier.rs): a tier with no storage of its
// own. Every operation is handed the tier's slots, a slice of the vector's
// single buffer, together with the tier's ring offsets, and updates both.
//
// The slice is passed by value here and an operation that writes slots
// returns the slice as it leaves it; the caller stores it back. The offsets
// are an `ImplicitTierRingOffsets` object that the operations step in place.
// The elements are the slots of ranks 0 .. len - 1 read from the head cursor.
module ImplicitTier {
  import opened Ring
  import opened Wrappers
  import opened Seqs
  import opened Slots
  import opened Errors
  import opened RingOffsets
  import Tier

  /** The window's slots hold elements and no other slot does. */
  ghost predicate Valid<T>(tier: seq<Option<T>>, o: ImplicitTierRingOffsets)
    reads o
  {
    0 < |tier| && 0 <= o.tail - o.head <= |tier|
    && Live(tier, o.head, o.tail - o.head) && Dead(tier, o.head, o.tail - o.head)
  }

  /** The elements, by rank. */
  function Elements<T>(tier: seq<Option<T>>, o: ImplicitTierRingOffsets): seq<T>
    reads o
    requires Valid(tier, o)
  {
    Contents(tier, o.head, o.tail - o.head)
  }

  /** The slot of each rank of the window holds the element of that rank. */
  lemma SlotHolds<T>(tier: seq<Option<T>>, o: ImplicitTierRingOffsets, m: nat)
    requires Valid(tier, o) && m < |tier| && InWindow(o.head, o.tail - o.head, |tier|, m)
    ensures tier[m] == Some(Elements(tier, o)[RankOf(o.head, m, |tier|)])
  {
    RankSlotRoundTrip(o.head, m, |tier|);
    SlotOfElement(tier, o.head, o.tail - o.head, RankOf(o.head, m, |tier|));
  }

  // ---------------------------------------------------------------------------
  // Which slots hold elements.

  /**
   * `masked_index_is_unused`: with the masked cursors in order, the slots
   * below the head and from the tail on; otherwise the slots from the tail
   * up to the head.
   */
  function MaskedIndexIsUnused<T>(tier: seq<Option<T>>, o: ImplicitTierRingOffsets, m: nat): (b: bool)
    reads o
    requires 0 < |tier|
    ensures 0 <= o.tail - o.head <= |tier| && m < |tier| ==>
      (b <==> !(o.IsEmpty() || InWindow(o.head, o.tail - o.head, |tier|, m)))
  {
    var mh, mt := Mask(o.head, |tier|), Mask(o.tail, |tier|);
    var b :=
      if mh < mt then m < mh || (m >= mt && m < |tier|)
      else m >= mt && m < mh;
    if 0 <= o.tail - o.head <= |tier| && m < |tier| then
      WindowByMaskedCursors(o.head, o.tail, |tier|, m); b
    else b
  }

  /**
   * `is_valid_masked_index`: not unused. When the masked cursors coincide no
   * slot is unused, which is right for a full tier and wrong for an empty
   * one: there every slot passes although none holds an element.
   */
  function IsValidMaskedIndex<T>(tier: seq<Option<T>>, o: ImplicitTierRingOffsets, m: nat): (b: bool)
    reads o
    requires Valid(tier, o) && m < |tier|
    ensures b <==> o.IsEmpty() || InWindow(o.head, o.tail - o.head, |tier|, m)
  {
    WindowByMaskedCursors(o.head, o.tail, |tier|, m);
    !MaskedIndexIsUnused(tier, o, m)
  }

  /** On an empty tier every slot passes `is_valid_masked_index`, and every slot is uninitialised. */
  lemma EmptyTierSlotsPass<T>(tier: seq<Option<T>>, o: ImplicitTierRingOffsets, m: nat)
    requires Valid(tier, o) && o.IsEmpty() && m < |tier|
    ensures IsValidMaskedIndex(tier, o, m) && tier[m] == None
  {
    ByRankSlot(tier, o.head, RankOf(o.head, m, |tier|));
    RankSlotRoundTrip(o.head, m, |tier|);
    assert ByRank(tier, o.head)[0..][RankOf(o.head, m, |tier|)] == ByRank(tier, o.head)[RankOf(o.head, m, |tier|)];
  }

  /** `is_valid_masked_index` with an empty tier excluded: exactly the slots that hold elements. */
  function IsValidMaskedIndexCorrected<T>(tier: seq<Option<T>>, o: ImplicitTierRingOffsets, m: nat): (b: bool)
    reads o
    requires Valid(tier, o) && m < |tier|
    ensures b <==> InWindow(o.head, o.tail - o.head, |tier|, m)
    ensures b ==> tier[m] == Some(Elements(tier, o)[RankOf(o.head, m, |tier|)])
  {
    var valid := !o.IsEmpty() && IsValidMaskedIndex(tier, o, m);
    if valid then SlotHolds(tier, o, m); valid else valid
  }

  /**
   * `contains_masked_rank`: every slot when full; the slots from the masked
   * head up to the masked tail when those are in order (none when empty);
   * otherwise the two runs around the end of the slice.
   */
  function ContainsMaskedRank<T>(tier: seq<Option<T>>, o: ImplicitTierRingOffsets, m: nat): (b: bool)
    reads o
    requires Valid(tier, o) && m < |tier|
    ensures b <==> InWindow(o.head, o.tail - o.head, |tier|, m)
  {
    WindowByMaskedCursors(o.head, o.tail, |tier|, m);
    var mh, mt := o.MaskedHead(|tier|), o.MaskedTail(|tier|);
    if o.IsFull(|tier|) then true
    else if mh <= mt then m >= mh && m < mt
    else m >= mh || m < mt
  }

  /**
   * `contains_rank`: whether rank `rank`, taken modulo the capacity, holds an
   * element. The crate calls a `masked_rank` that the offsets type does not
   * define; it is read as the masked cursor `head + rank`.
   */
  function ContainsRank<T>(tier: seq<Option<T>>, o: ImplicitTierRingOffsets, rank: nat): (b: bool)
    reads o
    requires Valid(tier, o)
    ensures b <==> rank % |tier| < |Elements(tier, o)|
  {
    SlotOfReduces(o.head, rank, |tier|);
    ContainsMaskedRank(tier, o, Mask(o.head + rank, |tier|))
  }

  // ---------------------------------------------------------------------------
  // Reading.

  /**
   * A slot that passes `is_valid_masked_index` holds the element of its
   * rank when it lies in the window; on an empty tier it passes without
   * holding anything.
   */
  lemma PassingSlot<T>(tier: seq<Option<T>>, o: ImplicitTierRingOffsets, m: nat)
    requires Valid(tier, o) && m < |tier|
    ensures InWindow(o.head, o.tail - o.head, |tier|, m) ==> tier[m] == Some(Elements(tier, o)[RankOf(o.head, m, |tier|)])
    ensures o.IsEmpty() ==> tier[m] == None
  {
    if InWindow(o.head, o.tail - o.head, |tier|, m) {
      SlotHolds(tier, o, m);
    }
    if o.IsEmpty() {
      EmptyTierSlotsPass(tier, o, m);
    }
  }

  /**
   * `get(idx)`: the slot `idx` masks to, when it passes
   * `is_valid_masked_index`. The outer option is the crate's; the inner one
   * is what the slot holds, so `Some(None)` is a reference made to an
   * uninitialised slot. That is what every index of an empty tier yields.
   */
  function Get<T>(tier: seq<Option<T>>, o: ImplicitTierRingOffsets, idx: int): (r: Option<Option<T>>)
    reads o
    requires Valid(tier, o)
    ensures r.Some? <==> o.IsEmpty() || InWindow(o.head, o.tail - o.head, |tier|, Mask(idx, |tier|))
    ensures InWindow(o.head, o.tail - o.head, |tier|, Mask(idx, |tier|)) ==>
      r == Some(Some(Elements(tier, o)[RankOf(o.head, Mask(idx, |tier|), |tier|)]))
    ensures o.IsEmpty() ==> r == Some(None)
  {
    var m := Mask(idx, |tier|);
    if !IsValidMaskedIndex(tier, o, m) then None else PassingSlot(tier, o, m); Some(tier[m])
  }

  /**
   * `get_mut(idx)`: the slot `idx` masks to, when it passes
   * `is_valid_masked_index`; on an empty tier that slot is uninitialised.
   */
  function GetMut<T>(tier: seq<Option<T>>, o: ImplicitTierRingOffsets, idx: int): (r: Option<nat>)
    reads o
    requires Valid(tier, o)
    ensures r.Some? <==> o.IsEmpty() || InWindow(o.head, o.tail - o.head, |tier|, Mask(idx, |tier|))
    ensures r.Some? ==> r.value == Mask(idx, |tier|)
    ensures InWindow(o.head, o.tail - o.head, |tier|, Mask(idx, |tier|)) ==>
      r.Some? && tier[r.value] == Some(Elements(tier, o)[RankOf(o.head, r.value, |tier|)])
    ensures o.IsEmpty() ==> r.Some? && tier[r.value] == None
  {
    var m := Mask(idx, |tier|);
    if !IsValidMaskedIndex(tier, o, m) then None else PassingSlot(tier, o, m); Some(m)
  }

  /**
   * `get_by_rank(rank)`: the element of rank `rank` modulo the capacity, or
   * None past the length; on an empty tier, a read of an uninitialised slot.
   */
  function GetByRank<T>(tier: seq<Option<T>>, o: ImplicitTierRingOffsets, rank: nat): (r: Option<Option<T>>)
    reads o
    requires Valid(tier, o)
    ensures r == if rank % |tier| < |Elements(tier, o)| then Some(Some(Elements(tier, o)[rank % |tier|]))
      else if Elements(tier, o) == [] then Some(None) else None
  {
    SlotOfReduces(o.head, rank, |tier|);
    Get(tier, o, o.head + rank)
  }

  /**
   * `get_mut_by_rank(rank)`: the slot of rank `rank` modulo the capacity, if
   * it holds an element; on an empty tier, that slot although it is
   * uninitialised.
   */
  function GetMutByRank<T>(tier: seq<Option<T>>, o: ImplicitTierRingOffsets, rank: nat): (r: Option<nat>)
    reads o
    requires Valid(tier, o)
    ensures r.Some? <==> rank % |tier| < |Elements(tier, o)| || Elements(tier, o) == []
    ensures r.Some? ==> r.value < |tier| && r.value == SlotOf(o.head, rank % |tier|, |tier|)
    ensures r.Some? && rank % |tier| < |Elements(tier, o)| ==> tier[r.value] == Some(Elements(tier, o)[rank % |tier|])
    ensures r.Some? && Elements(tier, o) == [] ==> tier[r.value] == None
  {
    SlotOfReduces(o.head, rank, |tier|);
    GetMut(tier, o, o.head + rank)
  }

  // ---------------------------------------------------------------------------
  // Deque operations at both ends.

  /** `push_front`: unless full, move the head back and store `e` in its slot. */
  method PushFront<T>(tier: seq<Option<T>>, o: ImplicitTierRingOffsets, e: T)
    returns (nt: seq<Option<T>>, r: Result<nat, TierError<T>>)
    requires Valid(tier, o)
    modifies o
    ensures Valid(nt, o) && |nt| == |tier|
    ensures old(o.IsFull(|tier|)) ==>
      r == Err(TierFullInsertionError(e)) && nt == tier && o.head == old(o.head) && o.tail == old(o.tail)
    ensures !old(o.IsFull(|tier|)) ==> (r == Ok(Mask(o.head, |tier|)) && nt[r.value] == Some(e)
      && o.head == old(o.head) - 1 && o.tail == old(o.tail) && Elements(nt, o) == [e] + old(Elements(tier, o)))
  {
    var cap := |tier|;
    if !o.IsFull(cap) {
      ghost var h, len := o.head, o.tail - o.head;
      o.HeadBackward();
      var idx := o.MaskedHead(cap);
      nt := tier[idx := Some(e)];
      PushFrontListing(tier, h, len, e, nt, o.head, len + 1);
      r := Ok(idx);
    } else {
      nt, r := tier, Err(TierFullInsertionError(e));
    }
  }

  /** `push_back`: unless full, store `e` in the slot at the masked tail and move the tail on. */
  method PushBack<T>(tier: seq<Option<T>>, o: ImplicitTierRingOffsets, e: T)
    returns (nt: seq<Option<T>>, r: Result<nat, TierError<T>>)
    requires Valid(tier, o)
    modifies o
    ensures Valid(nt, o) && |nt| == |tier|
    ensures old(o.IsFull(|tier|)) ==>
      r == Err(TierFullInsertionError(e)) && nt == tier && o.head == old(o.head) && o.tail == old(o.tail)
    ensures !old(o.IsFull(|tier|)) ==> (r == Ok(Mask(old(o.tail), |tier|)) && nt[r.value] == Some(e)
      && o.head == old(o.head) && o.tail == old(o.tail) + 1 && Elements(nt, o) == old(Elements(tier, o)) + [e])
  {
    var cap := |tier|;
    if !o.IsFull(cap) {
      ghost var h, len := o.head, o.tail - o.head;
      var idx := o.MaskedTail(cap);
      nt := tier[idx := Some(e)];
      PushBackListing(tier, h, len, e, nt, len + 1);
      o.TailForward();
      r := Ok(idx);
    } else {
      nt, r := tier, Err(TierFullInsertionError(e));
    }
  }

  /** `pop_front`: unless empty, take the element at the masked head and move the head on. */
  method PopFront<T>(tier: seq<Option<T>>, o: ImplicitTierRingOffsets)
    returns (nt: seq<Option<T>>, r: Result<T, TierError<T>>)
    requires Valid(tier, o)
    modifies o
    ensures Valid(nt, o) && |nt| == |tier|
    ensures old(o.IsEmpty()) ==> r == Err(TierEmptyError) && nt == tier && o.head == old(o.head) && o.tail == old(o.tail)
    ensures !old(o.IsEmpty()) ==> (r == Ok(old(Elements(tier, o))[0])
      && o.head == old(o.head) + 1 && o.tail == old(o.tail) && Elements(nt, o) == old(Elements(tier, o))[1..])
  {
    if !o.IsEmpty() {
      ghost var h, len := o.head, o.tail - o.head;
      var idx := o.MaskedHead(|tier|);
      o.HeadForward();
      SlotOfElement(tier, h, len, 0);
      var x := tier[idx].value;
      nt := tier[idx := None];
      PopFrontListing(tier, h, len, nt, o.head, len - 1);
      r := Ok(x);
    } else {
      nt, r := tier, Err(TierEmptyError);
    }
  }

  /** `pop_back`: unless empty, move the tail back and take the element at its slot. */
  method PopBack<T>(tier: seq<Option<T>>, o: ImplicitTierRingOffsets)
    returns (nt: seq<Option<T>>, r: Result<T, TierError<T>>)
    requires Valid(tier, o)
    modifies o
    ensures Valid(nt, o) && |nt| == |tier|
    ensures old(o.IsEmpty()) ==> r == Err(TierEmptyError) && nt == tier && o.head == old(o.head) && o.tail == old(o.tail)
    ensures !old(o.IsEmpty()) ==> (r == Ok(old(Elements(tier, o))[old(o.Len()) - 1])
      && o.head == old(o.head) && o.tail == old(o.tail) - 1
      && Elements(nt, o) == old(Elements(tier, o))[..old(o.Len()) - 1])
  {
    if !o.IsEmpty() {
      ghost var h, len := o.head, o.tail - o.head;
      o.TailBackward();
      var idx := o.MaskedTail(|tier|);
      SlotOfElement(tier, h, len, len - 1);
      var x := tier[idx].value;
      nt := tier[idx := None];
      PopBackListing(tier, h, len, nt, len - 1);
      r := Ok(x);
    } else {
      nt, r := tier, Err(TierEmptyError);
    }
  }

  // ---------------------------------------------------------------------------
  // Insertion and removal at a rank.

  /**
   * `shift_to_head(from)` then `set(from, e)`, where `from` is the slot of
   * rank p - 1: the head moves back, ranks 0 .. p - 1 move one slot with it
   * and `e` fills slot `from`, which then holds rank p.
   */
  method ShiftToHeadAndSet<T>(tier: seq<Option<T>>, o: ImplicitTierRingOffsets, from: nat, ghost p: nat, e: T)
    returns (nt: seq<Option<T>>)
    requires Valid(tier, o) && 0 < p <= o.tail - o.head < |tier| && from == SlotOf(o.head, p - 1, |tier|)
    modifies o
    ensures Valid(nt, o) && |nt| == |tier| && nt[from] == Some(e)
    ensures o.head == old(o.head) - 1 && o.tail == old(o.tail)
    ensures Elements(nt, o) == InsertAt(old(Elements(tier, o)), p, e)
  {
    var nh;
    nt, nh := Slots.ShiftToHeadAndSet(tier, o.head, o.tail, from, p, e);
    o.HeadBackward();
  }

  /**
   * `shift_to_tail(from)` then `set(from, e)`, where `from` is the slot of
   * rank q and the run from it to the tail does not wrap: ranks q .. len - 1
   * move one slot on with the tail and `e` fills rank q.
   */
  method ShiftToTailAndSet<T>(tier: seq<Option<T>>, o: ImplicitTierRingOffsets, from: nat, ghost q: nat, e: T)
    returns (nt: seq<Option<T>>)
    requires Valid(tier, o) && q < o.tail - o.head < |tier| && from == SlotOf(o.head, q, |tier|)
    requires from + (o.tail - o.head - q) < |tier|
    modifies o
    ensures Valid(nt, o) && |nt| == |tier| && nt[from] == Some(e)
    ensures o.head == old(o.head) && o.tail == old(o.tail) + 1
    ensures Elements(nt, o) == InsertAt(old(Elements(tier, o)), q, e)
  {
    var ntail;
    nt, ntail := Slots.ShiftToTailAndSet(tier, o.head, o.tail, from, q, e);
    o.TailForward();
  }

  /**
   * The branch of `insert_at_rank` for a rank whose slot is outside the
   * window: pushed at the front when that slot is the masked head (the tier
   * is empty), at the back when it is the masked tail, and otherwise
   * disconnected.
   */
  method InsertAtBoundary<T>(tier: seq<Option<T>>, o: ImplicitTierRingOffsets, rank: nat, e: T)
    returns (nt: seq<Option<T>>, r: Result<nat, TierError<T>>)
    requires Valid(tier, o) && o.tail - o.head <= rank % |tier| && o.tail - o.head < |tier|
    modifies o
    ensures Valid(nt, o) && |nt| == |tier|
    ensures r.Ok? ==> r.value < |nt| && nt[r.value] == Some(e)
    ensures rank % |tier| > old(o.tail - o.head) ==>
      r == Err(TierDisconnectedEntryInsertionError(rank, e)) && nt == tier && o.head == old(o.head) && o.tail == old(o.tail)
    ensures rank % |tier| == old(o.tail - o.head) ==> r.Ok? && Elements(nt, o) == old(Elements(tier, o)) + [e]
  {
    var cap := |tier|;
    var mh := Mask(o.head, cap);
    var mt := Mask(o.tail, cap);
    var mr := Mask(o.head + rank, cap);
    ghost var rr, len, h, s := rank % cap, o.tail - o.head, o.head, Elements(tier, o);
    SlotOfReduces(h, rank, cap);
    assert mt == SlotOf(h, len, cap) && mh == SlotOf(h, 0, cap);
    if mh == mr {
      assert rr == 0 by {
        if rr != 0 { SlotsDistinct(h, rr, 0, cap); }
      }
      assert [e] + s == s + [e];
      nt, r := PushFront(tier, o, e);
    } else if mt == mr {
      assert rr == len by {
        if rr != len { SlotsDistinct(h, rr, len, cap); }
      }
      nt, r := PushBack(tier, o, e);
    } else {
      assert rr != len;
      nt, r := tier, Err(TierDisconnectedEntryInsertionError(rank, e));
    }
  }

  /**
   * The branch of `insert_at_rank` as written for a rank inside the window:
   * it shifts toward the boundary whose masked slot is nearer and stores `e`
   * in the rank's slot; toward the head that slot has by then come to hold
   * the next rank, so `e` lands one rank late, the first rank included.
   */
  method InsertInWindow<T>(tier: seq<Option<T>>, o: ImplicitTierRingOffsets, rank: nat, e: T)
    returns (nt: seq<Option<T>>, r: nat)
    requires Valid(tier, o) && rank % |tier| < o.tail - o.head < |tier|
    modifies o
    ensures Valid(nt, o) && |nt| == |tier| && r < |nt| && nt[r] == Some(e)
    ensures Tier.ShiftsTowardHead(old(o.head), old(o.tail), |tier|, rank % |tier|) ==>
      Elements(nt, o) == InsertAt(old(Elements(tier, o)), rank % |tier| + 1, e)
    ensures !Tier.ShiftsTowardHead(old(o.head), old(o.tail), |tier|, rank % |tier|) ==>
      Elements(nt, o) == InsertAt(old(Elements(tier, o)), rank % |tier|, e)
  {
    var cap := |tier|;
    var mh := Mask(o.head, cap);
    var mt := Mask(o.tail, cap);
    var mr := Mask(o.head + rank, cap);
    ghost var rr, len, h := rank % cap, o.tail - o.head, o.head;
    SlotOfReduces(h, rank, cap);
    var headDelta := AbsDiff(mr, mh);
    var tailDelta := AbsDiff(mr, mt);
    if headDelta <= tailDelta {
      nt := ShiftToHeadAndSet(tier, o, mr, rr + 1, e);
    } else {
      TailwardRunIsLinear(h, len, cap, rr);
      nt := ShiftToTailAndSet(tier, o, mr, rr, e);
    }
    r := mr;
  }

  /**
   * `insert_at_rank` as written, on a tier that is not full: a rank whose
   * slot is outside the window goes to `InsertAtBoundary`, any other to
   * `InsertInWindow`.
   */
  method InsertAtRank<T>(tier: seq<Option<T>>, o: ImplicitTierRingOffsets, rank: nat, e: T)
    returns (nt: seq<Option<T>>, r: Result<nat, TierError<T>>)
    requires Valid(tier, o) && o.tail - o.head < |tier|
    modifies o
    ensures Valid(nt, o) && |nt| == |tier|
    ensures r.Ok? ==> r.value < |nt| && nt[r.value] == Some(e)
    ensures rank % |tier| > old(o.tail - o.head) ==>
      r == Err(TierDisconnectedEntryInsertionError(rank, e)) && nt == tier && o.head == old(o.head) && o.tail == old(o.tail)
    ensures rank % |tier| == old(o.tail - o.head) ==> r.Ok? && Elements(nt, o) == old(Elements(tier, o)) + [e]
    ensures (rank % |tier| < old(o.tail - o.head) && Tier.ShiftsTowardHead(old(o.head), old(o.tail), |tier|, rank % |tier|)) ==>
      r.Ok? && Elements(nt, o) == InsertAt(old(Elements(tier, o)), rank % |tier| + 1, e)
    ensures (rank % |tier| < old(o.tail - o.head) && !Tier.ShiftsTowardHead(old(o.head), old(o.tail), |tier|, rank % |tier|)) ==>
      r.Ok? && Elements(nt, o) == InsertAt(old(Elements(tier, o)), rank % |tier|, e)
  {
    var mr := Mask(o.head + rank, |tier|);
    SlotOfReduces(o.head, rank, |tier|);
    if !ContainsMaskedRank(tier, o, mr) {
      nt, r := InsertAtBoundary(tier, o, rank, e);
    } else {
      var slot;
      nt, slot := InsertInWindow(tier, o, rank, e);
      r := Ok(slot);
    }
  }

  /**
   * A shift for a rank past the head, as evidently intended: toward the head
   * it starts from the slot of the rank before, whose vacated slot then holds
   * rank `rank`; toward the tail it starts from the rank's own slot.
   */
  method ShiftAndSetCorrected<T>(tier: seq<Option<T>>, o: ImplicitTierRingOffsets, mr: nat, ghost rr: nat, e: T)
    returns (nt: seq<Option<T>>, r: nat)
    requires Valid(tier, o) && 0 < rr < o.tail - o.head < |tier| && mr == SlotOf(o.head, rr, |tier|)
    modifies o
    ensures Valid(nt, o) && |nt| == |tier| && r < |nt| && nt[r] == Some(e)
    ensures Elements(nt, o) == InsertAt(old(Elements(tier, o)), rr, e)
  {
    var headDelta := AbsDiff(mr, Mask(o.head, |tier|));
    var tailDelta := AbsDiff(mr, Mask(o.tail, |tier|));
    if headDelta <= tailDelta {
      r := Mask(mr - 1, |tier|);
      SlotStep(o.head, rr, |tier|);
      nt := ShiftToHeadAndSet(tier, o, r, rr, e);
    } else {
      TailwardRunIsLinear(o.head, o.tail - o.head, |tier|, rr);
      nt := ShiftToTailAndSet(tier, o, mr, rr, e);
      r := mr;
    }
  }

  /**
   * The in-window branch as evidently intended: a rank at the head is pushed
   * at the front, any other goes to `ShiftAndSetCorrected`.
   */
  method InsertInWindowCorrected<T>(tier: seq<Option<T>>, o: ImplicitTierRingOffsets, rank: nat, e: T)
    returns (nt: seq<Option<T>>, r: nat)
    requires Valid(tier, o) && rank % |tier| < o.tail - o.head < |tier|
    modifies o
    ensures Valid(nt, o) && |nt| == |tier| && r < |nt| && nt[r] == Some(e)
    ensures Elements(nt, o) == InsertAt(old(Elements(tier, o)), rank % |tier|, e)
  {
    var mr := Mask(o.head + rank, |tier|);
    SlotOfReduces(o.head, rank, |tier|);
    if mr == o.MaskedHead(|tier|) {
      assert rank % |tier| == 0 by {
        if rank % |tier| != 0 { SlotsDistinct(o.head, rank % |tier|, 0, |tier|); }
      }
      assert InsertAt(Elements(tier, o), 0, e) == [e] + Elements(tier, o);
      var res;
      nt, res := PushFront(tier, o, e);
      r := res.value;
    } else {
      nt, r := ShiftAndSetCorrected(tier, o, mr, rank % |tier|, e);
    }
  }

  /** `insert_at_rank` as evidently intended: every accepted insertion puts `e` at rank `rank`. */
  method InsertAtRankCorrected<T>(tier: seq<Option<T>>, o: ImplicitTierRingOffsets, rank: nat, e: T)
    returns (nt: seq<Option<T>>, r: Result<nat, TierError<T>>)
    requires Valid(tier, o) && o.tail - o.head < |tier|
    modifies o
    ensures Valid(nt, o) && |nt| == |tier|
    ensures r.Ok? ==> r.value < |nt| && nt[r.value] == Some(e)
    ensures rank % |tier| > old(o.tail - o.head) ==>
      r == Err(TierDisconnectedEntryInsertionError(rank, e)) && nt == tier && o.head == old(o.head) && o.tail == old(o.tail)
    ensures rank % |tier| <= old(o.tail - o.head) ==>
      r.Ok? && Elements(nt, o) == InsertAt(old(Elements(tier, o)), rank % |tier|, e)
  {
    var mr := Mask(o.head + rank, |tier|);
    SlotOfReduces(o.head, rank, |tier|);
    if !ContainsMaskedRank(tier, o, mr) {
      assert InsertAt(Elements(tier, o), o.tail - o.head, e) == Elements(tier, o) + [e];
      nt, r := InsertAtBoundary(tier, o, rank, e);
    } else {
      var slot;
      nt, slot := InsertInWindowCorrected(tier, o, rank, e);
      r := Ok(slot);
    }
  }

  /** `take(gap)` then `close_gap(gap)` as written, on the slice and the offsets. */
  method TakeAndCloseGap<T>(tier: seq<Option<T>>, o: ImplicitTierRingOffsets, gap: nat, ghost r: nat)
    returns (nt: seq<Option<T>>, x: T)
    requires Valid(tier, o) && 0 < r < o.tail - o.head && gap == SlotOf(o.head, r, |tier|)
    modifies o
    ensures |nt| == |tier| && o.head == old(o.head) && o.tail == old(o.tail) - 1
    ensures x == old(Elements(tier, o))[r]
    ensures !GapWraps(old(o.head), old(o.tail - o.head), |tier|, r) ==>
      Valid(nt, o) && Elements(nt, o) == RemoveAt(old(Elements(tier, o)), r)
    ensures GapWraps(old(o.head), old(o.tail - o.head), |tier|, r) ==>
      nt == tier[gap := None] && !Valid(nt, o)
  {
    var slot, ntail;
    slot, nt, ntail := Slots.TakeAndCloseGap(tier, o.head, o.tail, gap, r);
    o.TailBackward();
    x := slot.value;
  }

  /** `take(gap)` then a `close_gap` whose loop runs until the slot index reaches the gap. */
  method TakeAndCloseGapCorrected<T>(tier: seq<Option<T>>, o: ImplicitTierRingOffsets, gap: nat, ghost r: nat)
    returns (nt: seq<Option<T>>, x: T)
    requires Valid(tier, o) && 0 < r < o.tail - o.head && gap == SlotOf(o.head, r, |tier|)
    modifies o
    ensures Valid(nt, o) && |nt| == |tier| && o.head == old(o.head) && o.tail == old(o.tail) - 1
    ensures x == old(Elements(tier, o))[r] && Elements(nt, o) == RemoveAt(old(Elements(tier, o)), r)
  {
    var slot, ntail;
    slot, nt, ntail := Slots.TakeAndCloseGapWrapSafe(tier, o.head, o.tail, gap, r);
    o.TailBackward();
    x := slot.value;
  }

  /** The first element leaves: the slot is emptied and the head moves on (the body of `pop_front`). */
  method TakeHead<T>(tier: seq<Option<T>>, o: ImplicitTierRingOffsets) returns (nt: seq<Option<T>>, x: T)
    requires Valid(tier, o) && o.tail - o.head > 0
    modifies o
    ensures Valid(nt, o) && |nt| == |tier| && o.head == old(o.head) + 1 && o.tail == old(o.tail)
    ensures x == old(Elements(tier, o))[0] && Elements(nt, o) == RemoveAt(old(Elements(tier, o)), 0)
  {
    var h, len := o.head, o.tail - o.head;
    var mh := Mask(h, |tier|);
    assert RemoveAt(Elements(tier, o), 0) == Elements(tier, o)[1..];
    SlotOfElement(tier, h, len, 0);
    x := tier[mh].value;
    nt := tier[mh := None];
    o.HeadForward();
    PopFrontListing(tier, h, len, nt, o.head, len - 1);
  }

  /**
   * Where the masked slot of a rank lies: it is the slot of the rank reduced
   * modulo the capacity, inside the window exactly when that rank is below
   * the length, and at the masked head or the masked tail only for rank 0.
   */
  lemma MaskedRankCases(h: int, len: nat, cap: nat, rank: nat)
    requires 0 < cap && len <= cap
    ensures Mask(h + rank, cap) == SlotOf(h, rank % cap, cap)
    ensures InWindow(h, len, cap, Mask(h + rank, cap)) <==> rank % cap < len
    ensures rank % cap < len && Mask(h + rank, cap) == Mask(h, cap) ==> rank % cap == 0
    ensures rank % cap < len && Mask(h + rank, cap) == Mask(h + len, cap) ==> rank % cap == 0
  {
    var rr := rank % cap;
    SlotOfReduces(h, rank, cap);
    if rr != 0 {
      SlotsDistinct(h, rr, 0, cap);
    }
    if len < cap {
      if rr < len {
        SlotsDistinct(h, rr, len, cap);
      }
    } else {
      ModAddMultiple(h, 1, cap);
    }
  }

  /**
   * `remove_at_rank` as written: a rank outside the window (every rank of an
   * empty tier) is out of bounds. Otherwise the element is taken; at the
   * masked head the head moves on, and elsewhere `close_gap` moves the tail
   * back and walks down from it while the slot index is above the gap, which
   * leaves the gap open when the window wraps between the gap and the last
   * element. A rank inside the window is at the masked tail only when the
   * tier is full, and then it is at the head.
   */
  method RemoveAtRank<T>(tier: seq<Option<T>>, o: ImplicitTierRingOffsets, rank: nat)
    returns (nt: seq<Option<T>>, r: Result<T, TierError<T>>)
    requires Valid(tier, o)
    modifies o
    ensures |nt| == |tier|
    ensures rank % |tier| >= old(o.tail - o.head) ==>
      r == Err(TierRankOutOfBoundsError(rank)) && nt == tier && o.head == old(o.head) && o.tail == old(o.tail)
    ensures rank % |tier| < old(o.tail - o.head) ==> r == Ok(old(Elements(tier, o))[rank % |tier|])
    ensures !GapWraps(old(o.head), old(o.tail - o.head), |tier|, rank % |tier|) ==> Valid(nt, o)
    ensures (rank % |tier| < old(o.tail - o.head) && !GapWraps(old(o.head), old(o.tail - o.head), |tier|, rank % |tier|)) ==>
      Elements(nt, o) == RemoveAt(old(Elements(tier, o)), rank % |tier|)
    ensures GapWraps(old(o.head), old(o.tail - o.head), |tier|, rank % |tier|) ==>
      o.head == old(o.head) && o.tail == old(o.tail) - 1 && !Valid(nt, o)
      && nt == tier[SlotOf(old(o.head), rank % |tier|, |tier|) := None]
  {
    var cap := |tier|;
    var mr := Mask(o.head + rank, cap);
    var h := o.head;
    ghost var rr: nat, len: nat := rank % cap, o.tail - o.head;
    MaskedRankCases(h, len, cap, rank);
    if ContainsMaskedRank(tier, o, mr) {
      var x;
      if mr == o.MaskedHead(cap) {
        assert rr == 0;
        nt, x := TakeHead(tier, o);
      } else if mr == o.MaskedTail(cap) {
        assert false;
      } else {
        assert 0 < rr < len && mr == SlotOf(h, rr, cap);
        nt, x := TakeAndCloseGap(tier, o, mr, rr);
      }
      r := Ok(x);
    } else {
      nt, r := tier, Err(TierRankOutOfBoundsError(rank));
    }
  }

  /** `remove_at_rank` with a `close_gap` that walks down until it reaches the gap: the rest always close up. */
  method RemoveAtRankCorrected<T>(tier: seq<Option<T>>, o: ImplicitTierRingOffsets, rank: nat)
    returns (nt: seq<Option<T>>, r: Result<T, TierError<T>>)
    requires Valid(tier, o)
    modifies o
    ensures Valid(nt, o) && |nt| == |tier|
    ensures rank % |tier| >= old(o.tail - o.head) ==>
      r == Err(TierRankOutOfBoundsError(rank)) && nt == tier && o.head == old(o.head) && o.tail == old(o.tail)
    ensures rank % |tier| < old(o.tail - o.head) ==>
      r == Ok(old(Elements(tier, o))[rank % |tier|]) && Elements(nt, o) == RemoveAt(old(Elements(tier, o)), rank % |tier|)
  {
    var cap := |tier|;
    var mr := Mask(o.head + rank, cap);
    var h := o.head;
    ghost var rr: nat, len: nat, s := rank % cap, o.tail - o.head, Elements(tier, o);
    SlotOfReduces(h, rank, cap);
    if ContainsMaskedRank(tier, o, mr) {
      var x;
      if mr == o.MaskedHead(cap) {
        assert rr == 0 by {
          if rr != 0 { SlotsDistinct(h, rr, 0, cap); }
        }
        nt, x := TakeHead(tier, o);
      } else {
        nt, x := TakeAndCloseGapCorrected(tier, o, mr, rr);
      }
      r := Ok(x);
    } else {
      nt, r := tier, Err(TierRankOutOfBoundsError(rank));
    }
  }
}
