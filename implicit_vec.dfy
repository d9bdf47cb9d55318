// `ImplicitTieredVec` (src/implicit/tiered_vec.rs): n tiers of n slots, n a
// power of two, all in one flat buffer; tier j owns the slots from j * n and
// has its own `ImplicitTierRingOffsets`. The tiers are kept packed.
//
// The class holds the buffer and the offsets objects and updates them in
// place; each operation hands the loops of module ImplicitTiers the buffer
// and the offsets, so that after `insert` the elements are `LinkedInserted`,
// after `remove` they are `RemoveAt`, and `expand` and `try_contract` keep
// them, exactly as for the linked vector.
module ImplicitVec {
  import opened Wrappers
  import opened Errors
  import opened Seqs
  import opened Ring
  import opened RingOffsets
  import opened Slots
  import opened Tiers
  import opened Layout
  import opened Sizing
  import opened ImplicitSlices
  import opened ImplicitTiers
  import Implicit = ImplicitTier

  /** n offsets made by `Default` over (n * n) uninitialised slots: n empty tiers. */
  method EmptyVector<T>(n: nat)
    returns (buf: seq<Option<T>>, os: seq<ImplicitTierRingOffsets>, ghost sps: seq<Span>, ghost cs: seq<seq<T>>)
    requires IsPowerOfTwo(n) && n >= 2
    ensures |os| == n && |buf| == n * n && Wellformed(buf, os, sps, cs) && Flatten(cs) == []
    ensures forall j :: 0 <= j < n ==> fresh(os[j])
  {
    os := PushDefaults([], [], n);
    StartIsProduct(n, n);
    buf := Uninit(n * n);
    sps, cs := Zeros(n), Empties(n);
    assert buf[Start(n, 0)..] == buf;
    HoldsEmpties<T>(buf, n, 0, n);
    EmptyTiers(cs, n);
  }

  /**
   * Rank `rank` of packed tiers of n slots falls in tier rank / n, which
   * owns the n slots from Start(n, rank / n); it has an element there exactly
   * when the rank is below the length, and that element is the one of rank
   * `rank`.
   */
  lemma RankSlots<T>(buf: seq<Option<T>>, sps: seq<Span>, cs: seq<seq<T>>, n: nat, rank: nat)
    requires n > 0 && |sps| == n && Holds(buf, sps, cs, n, 0) && Packed(cs, n) && rank < Start(n, n)
    ensures 0 <= rank / n < n && TierAt(buf, sps[rank / n], Start(n, rank / n), n, cs[rank / n])
    ensures rank < |Flatten(cs)| <==> rank % n < |cs[rank / n]|
    ensures rank < |Flatten(cs)| ==> cs[rank / n][rank % n] == Flatten(cs)[rank]
  {
    RankTier(n, rank, n);
    TierFacts(buf, sps, cs, n, 0, rank / n);
    PackedLookup(cs, n, rank);
  }

  /** A packed tier is empty exactly when the elements end at or before its start. */
  lemma TierEmptyPastLength<T>(cs: seq<seq<T>>, n: nat, t: nat)
    requires n > 0 && Packed(cs, n) && |cs| == n && t < n
    ensures cs[t] == [] <==> |Flatten(cs)| <= Start(n, t)
  {
    QuotientOfStart(n, t, 0);
    PackedLookup(cs, n, Start(n, t));
  }

  /** Slot m of the slice of `size` slots from `start` is slot start + m of the buffer. */
  lemma RegionSlot<T>(buf: seq<Option<T>>, start: nat, size: nat, m: nat)
    requires start + size <= |buf| && m < size
    ensures start + m < |buf| && buf[start + m] == Region(buf, start, size)[m]
  {
  }

  /** `is_empty` on the offsets: the first tier's offsets are empty exactly when the tiers hold nothing. */
  function FirstEmpty<T>(ghost buf: seq<Option<T>>, os: seq<ImplicitTierRingOffsets>, ghost sps: seq<Span>, ghost cs: seq<seq<T>>)
    : (b: bool)
    reads os
    requires Wellformed(buf, os, sps, cs)
    ensures b <==> Flatten(cs) == []
  {
    TierFacts(buf, sps, cs, |os|, 0, 0);
    FirstTierEmpty(cs, |os|);
    os[0].IsEmpty()
  }

  /** `is_full` on the offsets: the last tier's offsets are full exactly when the tiers hold n * n elements. */
  function LastFull<T>(ghost buf: seq<Option<T>>, os: seq<ImplicitTierRingOffsets>, ghost sps: seq<Span>, ghost cs: seq<seq<T>>)
    : (b: bool)
    reads os
    requires Wellformed(buf, os, sps, cs)
    ensures b <==> |Flatten(cs)| == Start(|os|, |os|)
  {
    var n := |os|;
    TierFacts(buf, sps, cs, n, 0, n - 1);
    assert SpanOf(os[n - 1]) == sps[n - 1];
    assert |cs| == n && os[n - 1].Len() == |cs[n - 1]|;
    LastTierFull(cs, n);
    os[n - 1].IsFull(n)
  }

  /**
   * `get_by_rank` on the buffer: the element of rank `rank`, read from the n
   * slots from tier_idx * n with tier tier_idx's offsets. Past the length,
   * a rank in an empty tier passes that tier's check and reads an
   * uninitialised slot (`Some(None)`); one in the tier holding the last
   * element is None.
   */
  function RankElement<T>(buf: seq<Option<T>>, os: seq<ImplicitTierRingOffsets>, ghost sps: seq<Span>, ghost cs: seq<seq<T>>,
                          rank: nat): (r: Option<Option<T>>)
    reads os
    requires Wellformed(buf, os, sps, cs) && rank < |buf|
    ensures r == if rank < |Flatten(cs)| then Some(Some(Flatten(cs)[rank]))
      else if |Flatten(cs)| <= Start(|os|, rank / |os|) then Some(None) else None
  {
    var n := |os|;
    RankSlots(buf, sps, cs, n, rank);
    var tierIdx := rank / n;
    var tier := Region(buf, Start(n, tierIdx), n);
    assert SpanOf(os[tierIdx]) == sps[tierIdx];
    ReadWith(tier, os[tierIdx]);
    assert Implicit.Elements(tier, os[tierIdx]) == cs[tierIdx];
    TierEmptyPastLength(cs, n, tierIdx);
    Implicit.GetByRank(tier, os[tierIdx], rank)
  }

  /**
   * `get_mut_by_rank` on the buffer, with the slice taken from tier_idx * n
   * as `get_by_rank` takes it: the buffer slot of the element of rank
   * `rank`, if there is one; past the length, the uninitialised slot of a
   * rank in an empty tier, which passes that tier's check.
   */
  function RankSlot<T>(buf: seq<Option<T>>, os: seq<ImplicitTierRingOffsets>, ghost sps: seq<Span>, ghost cs: seq<seq<T>>,
                       rank: nat): (r: Option<nat>)
    reads os
    requires Wellformed(buf, os, sps, cs) && rank < |buf|
    ensures r.Some? <==> rank < |Flatten(cs)| || |Flatten(cs)| <= Start(|os|, rank / |os|)
    ensures r.Some? ==> (r.value < |buf| && 0 <= rank / |os| < |os|
      && r.value == Start(|os|, rank / |os|) + Mask(os[rank / |os|].head + rank, |os|))
    ensures r.Some? && rank < |Flatten(cs)| ==> buf[r.value] == Some(Flatten(cs)[rank])
    ensures r.Some? && rank >= |Flatten(cs)| ==> buf[r.value] == None
  {
    var n := |os|;
    RankSlots(buf, sps, cs, n, rank);
    var tierIdx := rank / n;
    var startIdx := Start(n, tierIdx);
    var tier := Region(buf, startIdx, n);
    assert SpanOf(os[tierIdx]) == sps[tierIdx];
    ReadWith(tier, os[tierIdx]);
    assert Implicit.Valid(tier, os[tierIdx]) && Implicit.Elements(tier, os[tierIdx]) == cs[tierIdx];
    TierEmptyPastLength(cs, n, tierIdx);
    match Implicit.GetMutByRank(tier, os[tierIdx], rank)
    case None => None
    case Some(m) =>
      MaskedRank(os[tierIdx].head, rank, n);
      RegionSlot(buf, startIdx, n, m);
      Some(startIdx + m)
  }

  /**
   * `get_mut_by_rank` on the buffer as the crate writes it: the n slots
   * handed to the tier are those from tier_idx, not from tier_idx * n, and
   * the masked index found in them is a slot of that slice.
   */
  function RankSlotAsWritten<T>(buf: seq<Option<T>>, os: seq<ImplicitTierRingOffsets>, rank: nat): (r: Option<nat>)
    reads os
    requires |os| >= 2 && |buf| == Start(|os|, |os|) && rank < |buf|
    ensures r.Some? ==> rank / |os| <= r.value < rank / |os| + |os| <= |buf|
  {
    var n := |os|;
    RankTier(n, rank, n);
    StartIsProduct(n, 2);
    StartMonotone(n, 2, n);
    var tierIdx: nat := rank / n;
    var tier := buf[tierIdx..tierIdx + n];
    var m := Mask(os[tierIdx].head + rank, n);
    if Implicit.MaskedIndexIsUnused(tier, os[tierIdx], m) then None else Some(tierIdx + m)
  }

  /**
   * `get_mut_by_rank` as the crate writes it, for rank Start(n, t) + k with
   * t >= 1 and k below the length of tier t: the masked index m passes the
   * tier's check, and the slot handed out is t + m, below the slot
   * Start(n, t) + m that holds the element.
   */
  lemma AsWrittenSlotBelow<T>(buf: seq<Option<T>>, os: seq<ImplicitTierRingOffsets>, t: nat, k: nat)
    requires |os| >= 2 && |buf| == Start(|os|, |os|) && 1 <= t < |os| && k < |os|
    requires 0 <= os[t].tail - os[t].head <= |os| && k < os[t].tail - os[t].head
    ensures Start(|os|, t) + k < |buf|
    ensures RankSlotAsWritten(buf, os, Start(|os|, t) + k) == Some(t + Mask(os[t].head + Start(|os|, t) + k, |os|))
    ensures t + Mask(os[t].head + Start(|os|, t) + k, |os|) < Start(|os|, t) + Mask(os[t].head + Start(|os|, t) + k, |os|)
  {
    var n := |os|;
    var rank := Start(n, t) + k;
    var o := os[t];
    StartShift(n, t);
    StartMonotone(n, t + 1, n);
    QuotientOfStart(n, t, k);
    var m := Mask(o.head + rank, n);
    RankInWindow(o.head, o.tail - o.head, n, rank);
    WindowByMaskedCursors(o.head, o.tail, n, m);
    assert !Implicit.MaskedIndexIsUnused(buf[t..t + n], o, m);
    assert t < Start(n, t) by {
      StartIsProduct(n, t);
      MulMonotone(2, n, t);
    }
  }

  /**
   * The slot `get_mut_by_rank` hands out as the crate writes it is never the
   * slot of the element asked for, once the rank is past the first tier:
   * a write through it changes another slot.
   */
  lemma RankSlotMisplaced<T>(buf: seq<Option<T>>, os: seq<ImplicitTierRingOffsets>, sps: seq<Span>, cs: seq<seq<T>>,
                            rank: nat, t: nat, k: nat)
    requires Wellformed(buf, os, sps, cs) && rank == Start(|os|, t) + k && 1 <= t && k < |os| && rank < |Flatten(cs)|
    ensures rank < |buf|
    ensures RankSlot(buf, os, sps, cs, rank).Some? && RankSlotAsWritten(buf, os, rank).Some?
    ensures RankSlotAsWritten(buf, os, rank).value < RankSlot(buf, os, sps, cs, rank).value
  {
    var n := |os|;
    assert |Flatten(cs)| <= |buf| by {
      PackedIsChunks(cs, n);
    }
    RankInTier(cs, n, t, k);
    assert os[t].tail - os[t].head == |cs[t]| by {
      TierFacts(buf, sps, cs, n, 0, t);
      assert SpanOf(os[t]) == sps[t];
    }
    AsWrittenSlotBelow(buf, os, t, k);
    QuotientOfStart(n, t, k);
  }

  /** Rank Start(n, t) + k, k < n, of packed tiers is in tier t, at offset k. */
  lemma RankInTier<T>(cs: seq<seq<T>>, n: nat, t: nat, k: nat)
    requires n > 0 && |cs| == n && Packed(cs, n) && k < n && Start(n, t) + k < |Flatten(cs)|
    ensures t < n && k < |cs[t]| && cs[t][k] == Flatten(cs)[Start(n, t) + k]
  {
    PackedIsChunks(cs, n);
    if t >= n {
      StartMonotone(n, n, t);
    }
    QuotientOfStart(n, t, k);
    PackedLookup(cs, n, Start(n, t) + k);
  }

  /** The masked cursor head + rank is the slot of rank `rank` mod n from the head. */
  lemma MaskedRank(head: int, rank: nat, n: nat)
    requires n > 0
    ensures Mask(head + rank, n) == SlotOf(head, rank % n, n)
  {
    SlotOfReduces(head, rank, n);
  }

  /** The masked index of rank r from the head is in the window when r mod n is below its length. */
  lemma RankInWindow(head: int, len: int, n: nat, rank: nat)
    requires n > 0 && rank % n < len
    ensures InWindow(head, len, n, Mask(head + rank, n))
  {
    SlotOfReduces(head, rank, n);
  }

  class ImplicitTieredVec<T> {
    var offsets: seq<ImplicitTierRingOffsets>
    var buffer: seq<Option<T>>
    /** The cursors of each tier's offsets, tier by tier. */
    ghost var spans: seq<Span>
    /** The elements of each tier, tier by tier. */
    ghost var parts: seq<seq<T>>

    /** n offsets, n a power of two of at least 2, over n * n slots whose tiers hold packed contents. */
    ghost predicate Valid()
      reads this, offsets
    {
      Wellformed(buffer, offsets, spans, parts)
    }

    /** The elements, by rank: the tiers' elements in tier order. */
    ghost function Elements(): seq<T>
      reads this
    {
      Flatten(parts)
    }

    /** `tier_size`: the number of offsets, which is also each tier's number of slots. */
    function TierSize(): (n: nat)
      reads this, offsets
      ensures Valid() ==> IsPowerOfTwo(n) && n >= 2 && |buffer| == Start(n, n)
    {
      |offsets|
    }

    /** `new`: initial_tier_size default offsets over initial_tier_size^2 uninitialised slots. */
    constructor(initialTierSize: nat)
      requires IsPowerOfTwo(initialTierSize) && initialTierSize >= 2
      ensures Valid() && TierSize() == initialTierSize && Elements() == []
      ensures forall j :: 0 <= j < |offsets| ==> fresh(offsets[j])
    {
      var buf, os, sps, cs := EmptyVector<T>(initialTierSize);
      offsets, buffer, spans, parts := os, buf, sps, cs;
    }

    /** `with_minimum_capacity`: the tier size `TierSizeFor` picks, so that the capacity is at least `minCapacity`. */
    constructor WithMinimumCapacity(minCapacity: nat)
      requires minCapacity >= 4
      ensures Valid() && TierSize() == TierSizeFor(minCapacity) && Elements() == []
      ensures Capacity() >= minCapacity
      ensures forall j :: 0 <= j < |offsets| ==> fresh(offsets[j])
    {
      var tierSize := ChooseTierSize(minCapacity);
      var buf, os, sps, cs := EmptyVector<T>(tierSize);
      offsets, buffer, spans, parts := os, buf, sps, cs;
    }

    /** `capacity`: the buffer's length, n tiers of n slots. */
    function Capacity(): (c: nat)
      reads this, offsets
      requires Valid()
      ensures c == Start(TierSize(), TierSize())
    {
      StartIsProduct(|offsets|, |offsets|);
      |buffer|
    }

    /** `len`: the tiers' lengths, read from the offsets, summed up to the first empty tier. */
    method Len() returns (l: nat)
      requires Valid()
      ensures l == |Elements()|
    {
      l := SumLengths(buffer, offsets, spans, parts);
    }

    /** `is_empty`: the first tier's offsets are empty exactly when the vector is. */
    function IsEmpty(): (b: bool)
      reads this, offsets
      requires Valid()
      ensures b <==> Elements() == []
    {
      FirstEmpty(buffer, offsets, spans, parts)
    }

    /** `is_full`: the last tier's offsets are full exactly when the vector is. */
    function IsFull(): (b: bool)
      reads this, offsets
      requires Valid()
      ensures b <==> |Elements()| == Capacity()
    {
      LastFull(buffer, offsets, spans, parts)
    }

    /**
     * `get_by_rank`: the element of rank `rank`. Past the length, a rank in
     * an empty tier reads an uninitialised slot (`Some(None)`). A rank of at
     * least the capacity has no tier: the crate's slice panics there.
     */
    function GetByRank(rank: nat): (r: Option<Option<T>>)
      reads this, offsets
      requires Valid() && rank < Capacity()
      ensures r == if rank < |Elements()| then Some(Some(Elements()[rank]))
        else if |Elements()| <= Start(TierSize(), rank / TierSize()) then Some(None) else None
    {
      RankElement(buffer, offsets, spans, parts, rank)
    }

    /**
     * `get_mut_by_rank`, with the slice taken as `get_by_rank` takes it: the
     * buffer slot of the element of rank `rank`; past the length, the free
     * slot of a rank in an empty tier.
     */
    function GetMutByRank(rank: nat): (r: Option<nat>)
      reads this, offsets
      requires Valid() && rank < Capacity()
      ensures r.Some? <==> rank < |Elements()| || |Elements()| <= Start(TierSize(), rank / TierSize())
      ensures r.Some? ==> r.value < |buffer|
      ensures r.Some? && rank < |Elements()| ==> buffer[r.value] == Some(Elements()[rank])
      ensures r.Some? && rank >= |Elements()| ==> buffer[r.value] == None
    {
      RankSlot(buffer, offsets, spans, parts, rank)
    }

    /**
     * `expand`: tiers 2j and 2j + 1 are merged into a tier of 2n slots, for
     * j < n / 2, then default offsets are pushed up to 2n tiers and the
     * buffer grows to (2n)^2 slots.
     */
    method Expand()
      requires Valid()
      modifies this, offsets
      ensures Valid() && TierSize() == 2 * old(TierSize()) && Elements() == old(Elements())
      ensures forall j :: 0 <= j < |offsets| ==> offsets[j] in old(offsets) || fresh(offsets[j])
    {
      buffer, offsets, spans, parts := ExpandTiers(buffer, offsets, spans, parts);
    }

    /**
     * `try_contract`: below an eighth of the capacity, the tier size halves:
     * the first n / 4 tiers are kept, each is split into two tiers of n / 2
     * slots, and the buffer is cut to (n / 2)^2 slots.
     */
    method TryContract(numEntries: nat)
      requires Valid() && numEntries == |Elements()|
      modifies this, offsets
      ensures Valid() && Elements() == old(Elements())
      ensures TierSize() == if numEntries < old(Capacity()) / 8 then old(TierSize()) / 2 else old(TierSize())
      ensures numEntries < old(Capacity()) / 8 ==> |Elements()| < Capacity()
      ensures forall j :: 0 <= j < |offsets| ==> offsets[j] in old(offsets) || fresh(offsets[j])
    {
      buffer, offsets, spans, parts := TryContractTiers(buffer, offsets, spans, parts, numEntries);
    }

    /**
     * `insert(rank, e)`: a rank past the end is refused; a full vector is
     * expanded first; then the pop-push loop runs from the rank's tier when
     * it is full, and the element goes into that tier.
     */
    method Insert(rank: nat, e: T) returns (r: Result<nat, TieredVectorError<T>>)
      requires Valid()
      modifies this, offsets
      ensures Valid()
      ensures forall j :: 0 <= j < |offsets| ==> offsets[j] in old(offsets) || fresh(offsets[j])
      ensures rank > old(|Elements()|) ==>
        r == Err(TieredVectorOutofBoundsInsertionError(rank, e)) && Elements() == old(Elements()) && TierSize() == old(TierSize())
      ensures rank <= old(|Elements()|) ==> r == Ok(rank)
      ensures rank <= old(|Elements()|) ==>
        TierSize() == if old(|Elements()|) == old(Capacity()) then 2 * old(TierSize()) else old(TierSize())
      ensures rank <= old(|Elements()|) ==> old(|Elements()|) < Capacity()
      ensures rank <= old(|Elements()|) ==> Elements() == LinkedInserted(old(Elements()), TierSize(), rank, e)
    {
      r, buffer, offsets, spans, parts := InsertTiers(buffer, offsets, spans, parts, rank, e);
    }

    /**
     * `remove(rank)`: a rank past the end is refused; otherwise the vector
     * may contract, then the rank's tier removes the element and the swap
     * loop carries one element down from each later tier. On a full vector
     * the rank of the length has no tier: the crate's slice panics there.
     */
    method Remove(rank: nat) returns (r: Result<T, TieredVectorError<T>>)
      requires Valid()
      requires !(rank == |Elements()| == Capacity())
      modifies this, offsets
      ensures Valid()
      ensures forall j :: 0 <= j < |offsets| ==> offsets[j] in old(offsets) || fresh(offsets[j])
      ensures rank > old(|Elements()|) ==>
        r == Err(TieredVectorRankOutOfBoundsError(rank)) && Elements() == old(Elements()) && TierSize() == old(TierSize())
      ensures rank <= old(|Elements()|) ==>
        TierSize() == if old(|Elements()|) < old(Capacity()) / 8 then old(TierSize()) / 2 else old(TierSize())
      ensures rank == old(|Elements()|) ==> r == Err(TieredVectorRankOutOfBoundsError(rank)) && Elements() == old(Elements())
      ensures rank < old(|Elements()|) ==> r == Ok(old(Elements())[rank]) && Elements() == RemoveAt(old(Elements()), rank)
    {
      r, buffer, offsets, spans, parts := RemoveTiers(buffer, offsets, spans, parts, rank);
    }
  }
}
