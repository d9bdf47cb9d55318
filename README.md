# Tiered vectors in Dafny

A model of the core of `tiered-vec-rs`, a Rust crate of *tiered vectors*.
A tiered vector keeps its elements in n tiers. Each tier is a ring buffer of n
slots, where n is a power of two. Element k of the vector sits in tier `k / n`, at
rank `k mod n` of that tier. The tiers are *packed*: every tier before a
non-empty one is full. Inserting into a full tier pushes one element from
each tier on to the next. Removing pulls one element back from each later
tier. A vector that fills up doubles its tier size (`expand`). One that
falls below an eighth of its capacity halves it (`try_contract`).

The crate holds four generations of the same idea. Each is modelled; where a
tier operation or a cascade of the crate does not do what its callers rely on,
the vectors are proved over the intended version, and "## Left out" names
every member for which that is so:

- **The canonical tier** (`src/tier.rs`, module `Tier`, class
  `RawTier`). This is a ring buffer with free-running `head`/`tail` cursors and
  `Result`-returning operations: `push_front/back`, `pop_front/back`,
  `insert`, `remove`, `merge`, `split_half`, `rotate_reset`, `clone` and `drop`.
- **The linked variant** (`src/linked/`). `LinkedTier.Tier` is the tier with
  asserting operations and the `pop_push_front/back` pair. `LinkedVec` is the
  vector of boxed tiers. Its `insert`/`remove` use the canonical tier's
  `Result` API, whose error variants the vector translates.
- **The flat variant** (`src/flat/`). `FlatTier.Tier` is a tier laid out in
  raw memory and modelled as a value. `FlatVec.FlatTieredVec` is the vector
  whose tiers sit in one allocation, with `insert`, `remove`, `push`, `pop`,
  `expand`, `get` and `clone`.
- **The implicit variant** (`src/implicit/`). One flat buffer of n·n slots
  holds every tier. `RingOffsets.ImplicitTierRingOffsets` holds one tier's
  cursor pair. `ImplicitTier` holds the tier operations over a slice and its
  offsets. `ImplicitSlices` and `ImplicitTiers` hold the slice and cascade
  machinery, and `ImplicitVec.ImplicitTieredVec` is the vector.
- **The root-level drafts** (`tier.rs`, `tiered_vec.rs`, `implicit/`,
  `implicit_tiered_vec.rs`). These are earlier versions of the same
  structures: a fixed-array tier (`DraftTier`), a vector of tiers that only
  grows (`DraftTieredVec`), an implicit tier wrapping a slice
  (`DraftImplicitTier`), and a first implicit vector with mostly stubbed
  operations (`DraftImplicitVec`).

How the model is built:

- Slots are `Option<T>`. An uninitialised `MaybeUninit` slot is `None`.
- The cursors are unbounded integers. The slot of a cursor is its
  (Euclidean) residue modulo the capacity. `Ring.WrappingCursorsAgree`
  proves that this agrees with the crate's `usize` `wrapping_add`/`wrapping_sub`
  cursors masked by `capacity - 1`, as long as fewer than 2^64 elements are
  stored.
- `Slots.ByRank(buf, head)` lists the buffer by rank.
- A tier is *valid* when the ranks below its length hold elements
  (`Live`) and every other slot is free (`Dead`).
- Its elements are `Contents`. Every tier operation is specified by what it
  does to that sequence.
- The vectors are specified by their elements in rank order. The tiers hold
  `Chunks(s, n, n)`, the runs of n elements of that sequence.
- The cascades of `insert` and `remove` are loops over the tiers. Each is
  proved against a closed-form function (`Tiers.FrontCarry`, `BackCarry`,
  `RefillRun`; `Layout.FrontInsert`, `BackInsert`, `RemoveRefilled`).
  Lemmas then say what those functions do to the elements.

Several loops in the source do not do what their callers rely on. Each is
modelled twice: once as written, with a concrete input that exhibits the
difference, and once as evidently intended. The rest of the model builds
on the intended version (see "## Findings").

## Model

| member | source | states |
|---|---|---|
| Ring.PowerOfTwoTestCorrect | src/tier.rs:62-75 | the repeated-halving test used for `is_power_of_two` holds exactly for powers of two |
| Ring.Mask | src/tier.rs:78-80 | a masked cursor is a slot index below the capacity |
| Ring.BitAndMaskIsMod | src/tier.rs:78-80 | for a power-of-two capacity, `val & (capacity - 1)` is `val mod capacity` |
| Ring.WrappingCursorsAgree | src/tier.rs:88-90 | the `usize` `tail.wrapping_sub(head)` is the model's length, and the masked `usize` cursor is the model's slot, below 2^64 elements |
| Ring.SlotRankRoundTrip | src/tier.rs:138-140 | the rank of the slot of a rank is that rank (`masked_rank` is invertible) |
| Ring.RankSlotRoundTrip | src/tier.rs:138-140 | the slot of the rank of a slot is that slot |
| Ring.SlotsDistinct | src/tier.rs:138-140 | different ranks below the capacity have different slots |
| Ring.SlotOfReduces | src/tier.rs:138-140 | a rank and its residue modulo the capacity name the same slot |
| Ring.WindowByMaskedCursors | src/tier.rs:142-156 | the masked-cursor case analysis (in order / wrapped) picks exactly the ranks below the length; equal masked cursors mean an empty or a full tier |
| Ring.TailwardRunIsLinear | src/tier.rs:288-309 | below the masked tail of an unwrapped run, rank r + i sits at slot `slot(r) + i` |
| RingOffsets.MaskOfResidueOfPower | src/implicit/tier_ring_offsets.rs:54-66 | masking the `usize` residue of a cursor gives the model's slot |
| RingOffsets.WrappingLen | src/implicit/tier_ring_offsets.rs:9-11 | the wrapping difference of the `usize` cursors is the length below 2^64 |
| RingOffsets.ImplicitTierRingOffsets.Default | src/implicit/tier_ring_offsets.rs:70-72 | both cursors start at 0: an empty tier |
| RingOffsets.ImplicitTierRingOffsets.LenIsWrappingSub | src/implicit/tier_ring_offsets.rs:9-11 | `len` is `tail.wrapping_sub(head)` while the window is shorter than 2^64 |
| RingOffsets.ImplicitTierRingOffsets.IsEmpty | src/implicit/tier_ring_offsets.rs:14-16 | empty exactly when the length is 0 |
| RingOffsets.ImplicitTierRingOffsets.IsFull | src/implicit/tier_ring_offsets.rs:19-21 | full exactly when the length equals the capacity passed in |
| RingOffsets.ImplicitTierRingOffsets.HeadForward | src/implicit/tier_ring_offsets.rs:34-36 | the head moves on one, the tail stays, the length drops by one |
| RingOffsets.ImplicitTierRingOffsets.HeadBackward | src/implicit/tier_ring_offsets.rs:39-41 | the head moves back one, the length grows by one |
| RingOffsets.ImplicitTierRingOffsets.TailForward | src/implicit/tier_ring_offsets.rs:44-46 | the tail moves on one, the length grows by one |
| RingOffsets.ImplicitTierRingOffsets.TailBackward | src/implicit/tier_ring_offsets.rs:49-51 | the tail moves back one, the length drops by one |
| RingOffsets.ImplicitTierRingOffsets.MaskedHead | src/implicit/tier_ring_offsets.rs:59-61 | the masked head is a slot of the tier |
| RingOffsets.ImplicitTierRingOffsets.MaskedTail | src/implicit/tier_ring_offsets.rs:64-66 | the masked tail is a slot of the tier |
| RingOffsets.ImplicitTierRingOffsets.MaskedCursorsAreBitAnd | src/implicit/tier_ring_offsets.rs:54-66 | both masks are the bitwise AND of the `usize` cursor with `capacity - 1` |
| Seqs.RemoveUndoesInsert | src/tier.rs:311-387 | removing what `insert` placed at a rank gives back the original elements |
| Seqs.InsertUndoesRemove | src/tier.rs:311-387 | putting a removed element back at its rank gives back the original elements |
| Seqs.InsertAtMiddle | src/linked/tiered_vec.rs:187-194 | inserting into one tier inserts into the vector at that tier's offset |
| Seqs.RemoveAtMiddle | src/linked/tiered_vec.rs:208-220 | removing from one tier removes from the vector at that tier's offset |
| Sizing.Log2 | src/linked/tiered_vec.rs:30-53 | `trailing_zeros` of a power of two is its exponent |
| Sizing.CeilLog2Least | src/linked/tiered_vec.rs:30-53 | the exponent search stops at the first power that reaches the request |
| Sizing.NextPowerOfTwoIsLeast | src/linked/tiered_vec.rs:30-53 | `next_power_of_two` gives a power of two, at least x, whose half is below x |
| Sizing.RoundedCapacity | src/linked/tiered_vec.rs:30-53 | the requested capacity rounded to a power of two at least as large, and less than twice as large |
| Sizing.TierSizeIsPower | src/linked/tiered_vec.rs:30-53 | the tier size is 2^s, where s is half the rounded exponent, rounded up |
| Sizing.TierSizeForIsLeast | src/linked/tiered_vec.rs:30-53 | the tier size n is a power of two of at least 2, n·n reaches the request, and (n/2)·(n/2) does not |
| Sizing.ChooseTierSize | src/flat/tiered_vec.rs:45-63 | the tier size the constructors compute, with the facts they need about it |
| Sizing.TierSizeExamples | src/linked/tiered_vec.rs:311-323 | requests of 4, 8 and 128 give tier sizes 2, 4 and 16, as the crate's test expects |
| Slots.ByRankIsRotation | src/tier.rs:196-203 | the listing by rank is the buffer rotated left by the masked head (`rotate_left(masked_head)`) |
| Slots.ShiftToHead | src/tier.rs:265-286 | the head moves back one and ranks 0..r move one slot head-ward, opening a free slot after rank r |
| Slots.ShiftToTailBelowTail | src/tier.rs:288-309 | with the `<` loop guard: ranks from r on move one slot tail-ward (for an unwrapped run), opening a free slot at rank r |
| Slots.ShiftToTail | src/linked/tier.rs:238-260 | with the `!=` loop guard: ranks from r on move one slot tail-ward, wrapping if need be, opening a free slot at rank r |
| Slots.CloseGap | src/tier.rs:344-363 | with the `i > gap` guard: the ranks after the gap move down one when the gap's slot is not past the last rank's slot; otherwise the buffer is unchanged |
| Slots.CloseGapWrapSafe | src/tier.rs:344-363 | the gap-closing loop as intended: the ranks after the gap always move down one |
| Slots.PushBackSlots | src/tier.rs:231-241 | writing the masked tail and moving it on appends the element |
| Slots.PushFrontSlots | src/tier.rs:219-229 | moving the head back and writing its slot prepends the element |
| Slots.PopFrontSlots | src/tier.rs:243-252 | taking the masked head and moving it on drops the first element and returns it |
| Slots.PopBackSlots | src/tier.rs:254-263 | moving the tail back and taking its slot drops the last element and returns it |
| Slots.RotatedToFront | src/tier.rs:196-203 | the rotated buffer read from cursor 0 holds the same elements |
| Slots.ShiftToHeadAndSet | src/tier.rs:265-286 | the head-ward shift followed by a write at the vacated slot inserts the element at the given rank |
| Slots.ShiftToTailAndSet | src/tier.rs:288-309 | the tail-ward shift followed by a write at the vacated slot inserts the element at the given rank |
| Slots.ShiftAroundToTailAndSet | src/linked/tier.rs:238-260 | the wrap-safe tail-ward shift followed by a write inserts the element at the given rank |
| Slots.TakeAndCloseGap | src/tier.rs:344-387 | `take` then `close_gap` as written: the element is returned; the rest close up unless the gap lies past the last rank's slot, which leaves a hole |
| Slots.TakeAndCloseGapWrapSafe | src/tier.rs:344-387 | `take` then the wrap-safe close: the element of that rank is removed and the rest keep their order |
| Slots.Grown | src/tier.rs:389-400 | a buffer read from slot 0, grown by free slots, holds the same elements |
| Slots.SplitHalfSlots | src/tier.rs:414-432 | a buffer read from slot 0 splits into a lower half with the first min(len, cap/2) elements and an upper half with the rest |
| Slots.CopyWindow | src/tier.rs:436-461 | a slot-by-slot copy of the window holds the same elements |
| Tier.RawTier.constructor | src/tier.rs:62-75 | a power-of-two capacity gives an empty valid tier with both cursors at 0 |
| Tier.RawTier.Len | src/tier.rs:88-90 | the length is the number of elements |
| Tier.RawTier.Capacity | src/tier.rs:83-85 | on a valid tier, a power of two that bounds the length |
| Tier.RawTier.IsEmpty | src/tier.rs:93-95 | empty exactly when there are no elements |
| Tier.RawTier.IsFull | src/tier.rs:98-100 | full exactly when there are as many elements as slots |
| Tier.RawTier.MaxRank | src/tier.rs:103-105 | on a non-empty tier, the rank of the last element |
| Tier.RawTier.MaskedHead | src/tier.rs:128-130 | the slot holding the first element |
| Tier.RawTier.MaskedTail | src/tier.rs:133-135 | a free slot unless the tier is full; then it is the masked head |
| Tier.RawTier.MaskedRank | src/tier.rs:138-140 | the slot of the rank taken modulo the capacity, which holds that element when the rank is below the length |
| Tier.RawTier.ContainsMaskedRank | src/tier.rs:142-156 | for a slot below the capacity: holds exactly for the slots of ranks below the length |
| Tier.RawTier.ContainsRank | src/tier.rs:158-160 | exactly when the rank modulo the capacity is below the length |
| Tier.RawTier.Get | src/tier.rs:162-169 | Some exactly for a slot holding an element, and then the element of that slot's rank |
| Tier.RawTier.GetByRank | src/tier.rs:180-182 | the element of the rank modulo the capacity, or None past the length |
| Tier.RawTier.PushFront | src/tier.rs:219-229 | full: `TierFullInsertionError(e)` and nothing changes; otherwise e becomes the first element and its slot is returned |
| Tier.RawTier.PushBack | src/tier.rs:231-241 | full: `TierFullInsertionError(e)` and nothing changes; otherwise e becomes the last element and its slot is returned |
| Tier.RawTier.PopFront | src/tier.rs:243-252 | empty: `TierEmptyError` and nothing changes; otherwise the first element is returned and removed |
| Tier.RawTier.PopBack | src/tier.rs:254-263 | empty: `TierEmptyError` and nothing changes; otherwise the last element is returned and removed |
| Tier.RawTier.RotateReset | src/tier.rs:196-203 | the buffer becomes the listing by rank, the head 0, and the elements stay |
| Tier.RawTier.ShiftToHeadAndSet | src/tier.rs:265-286 | the head-ward shift and the write insert e at the rank after the shifted run |
| Tier.RawTier.ShiftToTailAndSet | src/tier.rs:288-309 | the tail-ward shift and the write insert e at the given rank |
| Tier.RawTier.ShiftTowardNearer | src/tier.rs:324-340 | as written: a head-ward shift puts e at rank r + 1, a tail-ward shift at rank r |
| Tier.RawTier.ShiftTowardNearerCorrected | src/tier.rs:324-340 | either shift puts e at rank r |
| Tier.RawTier.Insert | src/tier.rs:311-342 | full: `TierFullInsertionError`; rank mod cap past the length: `TierDisconnectedEntryInsertionError`, with nothing changed in either case; at the length it appends, at 0 it prepends; inside the window e lands at rank + 1 when the head-ward side is nearer, else at the rank |
| Tier.RawTier.InsertCorrected | src/tier.rs:311-342 | the same errors; every accepted insertion puts e at rank mod cap |
| Tier.RawTier.TakeAndCloseGap | src/tier.rs:344-363 | the element at rank r is returned; unless the gap wraps, the rest close up; when it wraps, the slot is emptied and the tier is left invalid |
| Tier.RawTier.TakeAndCloseGapCorrected | src/tier.rs:344-363 | the element at rank r is returned and removed, the rest in order |
| Tier.RawTier.Remove | src/tier.rs:365-387 | empty: `TierEmptyError`; rank mod cap at or past the length: `TierRankOutOfBoundsError(rank)`; otherwise the element is returned and, unless the gap wraps, removed with the rest in order; a wrapped gap leaves a hole |
| Tier.RawTier.RemoveCorrected | src/tier.rs:365-387 | the same errors; every accepted removal removes exactly that element and keeps the tier valid |
| Tier.RawTier.Grow | src/tier.rs:389-400 | a tier read from slot 0, grown to a power of two, keeps its elements |
| Tier.RawTier.Merge | src/tier.rs:389-400 | the tier's capacity becomes the sum, its elements are its own followed by the other's, and the other is left empty |
| Tier.RawTier.MoveOne | src/tier.rs:389-400 | one turn of the merge loop moves the other's first element to this tier's back; the two together keep their elements |
| Tier.RawTier.MoveAll | src/tier.rs:389-400 | the merge loop empties the other tier onto this one's back |
| Tier.RawTier.SplitHalf | src/tier.rs:414-432 | both halves have half the capacity; the lower keeps min(len, cap/2) elements, the upper the rest, in order |
| Tier.RawTier.Clone | src/tier.rs:436-461 | a fresh tier, slot for slot and cursor for cursor the same, with the same elements |
| Tier.RawTier.Drop | src/tier.rs:465-477 | as written: a full tier finalises nothing; otherwise every element is finalised |
| Tier.RawTier.DropAll | src/tier.rs:465-477 | every element is finalised, on a full tier too |
| Tier.InsertShiftHeadExample | src/tier.rs:539-554 | inserting 3 at rank 1 of [0, 1, 2] reads back 0, 1, 3, 2, the output the crate's test expects |
| Tier.InsertCorrectedShiftHeadExample | src/tier.rs:539-554 | the intended insertion reads back 0, 3, 1, 2 |
| Tier.InsertShiftTailExample | src/tier.rs:557-571 | inserting 3 at rank 2 of [0, 1, 2] reads back 0, 1, 3, 2 |
| Tier.RemoveRankOneExample | src/tier.rs:574-593 | removing rank 1 of [0, 1, 2, 3] returns 1 and leaves 0, 2, 3 |
| Tier.RemoveRankZeroExample | src/tier.rs:596-615 | removing rank 0 of [0, 1, 2, 3] returns 0 and leaves 1, 2, 3 |
| Tier.RemoveWrappedGapExample | src/tier.rs:344-387 | capacity 4, head at slot 2, [7, 8, 9]: removing rank 1 returns 8 but leaves a free slot inside the window |
| Tier.RemoveCorrectedWrappedGapExample | src/tier.rs:344-387 | the same removal as intended leaves [7, 9] |
| Tier.DropFullExample | src/tier.rs:465-477 | dropping a full tier [5, 6] finalises nothing as written; the intended drop finalises both |
| LinkedTier.GrownInPlace | src/linked/tier.rs:318-327 | a window whose slot is the same in the grown buffer and that ends at or before the old capacity, or an empty window, keeps its elements and its free slots when free slots are added at the end |
| LinkedTier.GrownWindow | src/linked/tier.rs:318-327 | when free slots are added at the end, a window that is empty or lies within the old slots of the grown buffer keeps its elements and free slots; any other window has a rank that reads a new, free slot |
| LinkedTier.SameSlotOfSmaller | src/linked/tier.rs:318-327 | a cursor whose slot in the larger power-of-two buffer lies below the smaller capacity has that same slot in the smaller buffer |
| LinkedTier.GrownHole | src/linked/tier.rs:318-327 | a window that wraps past the old capacity has a rank that reads one of the new, free slots |
| LinkedTier.PopPushFrontSlots | src/linked/tier.rs:195-203 | on a full tier: the last element comes out and e becomes the first |
| LinkedTier.PopPushBackSlots | src/linked/tier.rs:205-213 | on a full tier: the first element comes out and e becomes the last |
| LinkedTier.InsertSlots | src/linked/tier.rs:262-278 | e goes in at rank mod cap, the rest in order |
| LinkedTier.RemoveSlots | src/linked/tier.rs:280-316 | the element is returned; the rest close up unless the gap wraps, which leaves a hole |
| LinkedTier.RemoveSlotsCorrected | src/linked/tier.rs:280-316 | the element is returned and removed, the rest in order |
| LinkedTier.MoveSlots | src/linked/tier.rs:318-327 | one turn of the merge loop keeps the two windows' elements, in order |
| LinkedTier.MoveAllSlots | src/linked/tier.rs:318-327 | the merge loop empties the other window onto this one's back |
| LinkedTier.MergeSlots | src/linked/tier.rs:318-327 | when the window is empty or ends at or before the old capacity in the merged buffer, the elements are concatenated; otherwise a rank of the window reads one of the new, free slots |
| LinkedTier.Tier.constructor | src/linked/tier.rs:13-26 | an empty valid tier of the given power-of-two capacity |
| LinkedTier.Tier.Len | src/linked/tier.rs:34-36 | the number of elements |
| LinkedTier.Tier.Capacity | src/linked/tier.rs:29-31 | on a valid tier, a power of two that bounds the length |
| LinkedTier.Tier.IsEmpty | src/linked/tier.rs:44-46 | empty exactly when there are no elements |
| LinkedTier.Tier.IsFull | src/linked/tier.rs:49-51 | full exactly when every slot holds an element |
| LinkedTier.Tier.MaskedRank | src/linked/tier.rs:84-86 | the slot of the rank modulo the capacity, holding that element when it is below the length |
| LinkedTier.Tier.ContainsMaskedRank | src/linked/tier.rs:88-101 | exactly the slots whose rank is below the length |
| LinkedTier.Tier.ContainsRank | src/linked/tier.rs:103-105 | exactly when the rank modulo the capacity is below the length |
| LinkedTier.Tier.Get | src/linked/tier.rs:107-114 | Some exactly for a slot holding an element, and then that element |
| LinkedTier.Tier.GetByRank | src/linked/tier.rs:125-127 | the element of the rank modulo the capacity, or None |
| LinkedTier.Tier.Index | src/linked/tier.rs:351-353 | the element of the rank modulo the capacity |
| LinkedTier.Tier.PushBack | src/linked/tier.rs:168-175 | the masked tail is written and moved on; a valid tier gets e as its last element |
| LinkedTier.Tier.PushFront | src/linked/tier.rs:159-166 | e becomes the first element |
| LinkedTier.Tier.PopFront | src/linked/tier.rs:177-184 | the first element is returned and removed |
| LinkedTier.Tier.PopBack | src/linked/tier.rs:186-193 | the last element is returned and removed |
| LinkedTier.Tier.PopPushFront | src/linked/tier.rs:195-203 | on a full tier: both cursors move back, the last element is returned and e becomes the first |
| LinkedTier.Tier.PopPushBack | src/linked/tier.rs:205-213 | on a full tier: both cursors move on, the first element is returned and e becomes the last |
| LinkedTier.Tier.RotateReset | src/linked/tier.rs:133-140 | the head becomes 0 and the elements stay |
| LinkedTier.Tier.Insert | src/linked/tier.rs:262-278 | e goes in at rank mod cap, the other elements in order |
| LinkedTier.Tier.Remove | src/linked/tier.rs:301-316 | the element at rank mod cap is returned; unless the gap wraps it is removed with the rest in order; otherwise a hole is left |
| LinkedTier.Tier.RemoveCorrected | src/linked/tier.rs:301-316 | the element is returned and removed, the rest in order |
| LinkedTier.Tier.Merge | src/linked/tier.rs:318-327 | as written, without `rotate_reset`: the tier holds its elements followed by the other's exactly when its window is empty or lies within the old slots of the merged buffer; otherwise it is invalid, with a rank reading a free slot |
| LinkedTier.Tier.MergeCorrected | src/linked/tier.rs:318-327 | the merged tier holds this tier's elements followed by the other's |
| LinkedTier.Tier.SplitHalf | src/linked/tier.rs:329-345 | two halves of half the capacity holding the first min(len, cap/2) elements and the rest |
| LinkedTier.Tier.Clone | src/linked/tier.rs:367-392 | a fresh, slot-for-slot equal tier with the same elements |
| LinkedTier.Tier.Drop | src/linked/tier.rs:396-400 | every element is finalised, last first, and the tier is left empty |
| LinkedTier.InsertShiftTailExample | src/linked/tier.rs:440-454 | inserting 3 at rank 2 of [0, 1, 2] reads back 0, 1, 3, 2 |
| LinkedTier.InsertRankOneExample | src/linked/tier.rs:262-278 | inserting 3 at rank 1 of [0, 1, 2] reads back 0, 3, 1, 2 |
| LinkedTier.RemoveRankOneExample | src/linked/tier.rs:457-476 | removing rank 1 of the full [0, 1, 2, 3] returns 1 and leaves 0, 2, 3 |
| LinkedTier.PopPushExample | src/linked/tier.rs:195-213 | on [0, 1, 2, 3], pop-push-front of 9 returns 3 and leaves 9, 0, 1, 2; pop-push-back of 8 then returns 9 and leaves 0, 1, 2, 8 |
| LinkedTier.DropFullExample | src/linked/tier.rs:396-400 | dropping a full tier [5, 6] finalises 6 then 5 |
| LinkedTier.MergeUnrotatedExample | src/linked/tier.rs:318-327 | a tier holding 7 with its head at 2, merged as written with an empty tier, reads a free slot first |
| LinkedTier.MergeRotatedExample | src/linked/tier.rs:318-327 | the same merge after `rotate_reset` keeps [7] |
| FlatTier.Empty | src/flat/tier.rs:79-82 | zeroed memory of n slots is a valid empty tier with both cursors at 0 |
| FlatTier.Tier.Len | src/flat/tier.rs:29-31 | the number of elements |
| FlatTier.Tier.Capacity | src/flat/tier.rs:34-36 | on a valid tier, a power of two that bounds the length |
| FlatTier.Tier.IsEmpty | src/flat/tier.rs:44-46 | empty exactly when there are no elements |
| FlatTier.Tier.IsFull | src/flat/tier.rs:49-51 | full exactly when every slot holds an element |
| FlatTier.Tier.MaskedHead | src/flat/tier.rs:85-87 | the slot of the first element |
| FlatTier.Tier.MaskedTail | src/flat/tier.rs:90-92 | the slot after the last element: free unless full, then the masked head |
| FlatTier.Tier.MaskedRank | src/flat/tier.rs:95-97 | the slot of the rank modulo the capacity, holding that element when it is below the length |
| FlatTier.Tier.ContainsMaskedRank | src/flat/tier.rs:99-112 | exactly the slots whose rank is below the length |
| FlatTier.Tier.ContainsRank | src/flat/tier.rs:114-116 | exactly when the rank modulo the capacity is below the length |
| FlatTier.Tier.Get | src/flat/tier.rs:118-125 | Some exactly for a slot holding an element, and then that element |
| FlatTier.Tier.GetByRank | src/flat/tier.rs:136-139 | the element of the rank modulo the capacity, or None |
| FlatTier.Tier.Index | src/flat/tier.rs:314-316 | the element of the rank modulo the capacity |
| FlatTier.Tier.PushBack | src/flat/tier.rs:181-188 | e becomes the last element, the tail moves on |
| FlatTier.Tier.PushFront | src/flat/tier.rs:172-179 | e becomes the first element, the head moves back |
| FlatTier.Tier.PopFront | src/flat/tier.rs:190-197 | the first element is returned and removed |
| FlatTier.Tier.PopBack | src/flat/tier.rs:199-206 | the last element is returned and removed |
| FlatTier.Tier.RotateReset | src/flat/tier.rs:146-153 | the head becomes 0, the tail the length, and the elements stay |
| FlatTier.Tier.TailForwardBy | src/flat/tier.rs:64-66 | a tier read from slot 0 takes in the k filled slots after its window |
| FlatTier.Tier.ClearAndLeak | src/flat/tier.rs:79-82 | both cursors to 0: an empty tier |
| FlatTier.Tier.Insert | src/flat/tier.rs:254-270 | e goes in at rank mod cap, the other elements in order |
| FlatTier.Tier.TakeAndCloseGapAt | src/flat/tier.rs:272-291 | as written: the element at rank r is returned; the rest close up unless the gap wraps, which leaves a hole |
| FlatTier.Tier.TakeAndCloseGapWrapSafeAt | src/flat/tier.rs:272-291 | the element at rank r is returned and removed, the rest in order |
| FlatTier.Tier.Remove | src/flat/tier.rs:293-308 | the element at rank mod cap is returned; removed in order unless the gap wraps, which leaves a hole |
| FlatTier.Tier.RemoveCorrected | src/flat/tier.rs:293-308 | the element is returned and removed, the rest in order |
| FlatVec.NewTiers | src/flat/tiered_vec.rs:28-43 | n zeroed tiers of n slots make an empty vector |
| FlatVec.BackTurn | src/flat/tiered_vec.rs:238-255 | a full tier hands its last element on and takes the carry at its front; a tier with room takes the carry at its front |
| FlatVec.BackLoop | src/flat/tiered_vec.rs:238-255 | the pop-back/push-front loop leaves the tiers `BackCascade` names |
| FlatVec.RefillTurn | src/flat/tiered_vec.rs:276-288 | one turn of the reverse loop: the tier's first element is handed on and the carry goes to its back |
| FlatVec.RefillLoop | src/flat/tiered_vec.rs:274-290 | the reverse loop leaves the tiers and the carry that `Refill` names |
| FlatVec.MergedPair | src/flat/tiered_vec.rs:180-213 | two tiers rotated to slot 0 and joined make a valid tier of twice the capacity holding both, in order |
| FlatVec.JoinedTier | src/flat/tiered_vec.rs:196-208 | copying the second tier's slots after the first's and moving the tail on holds both, in order |
| FlatVec.MergeLoop | src/flat/tiered_vec.rs:180-213 | the loop over pairs leaves tiers of 2n slots holding the pairs' concatenations |
| FlatVec.ExpandTiers | src/flat/tiered_vec.rs:166-226 | the same elements, packed in tiers of 2n slots |
| FlatVec.InsertLoop | src/flat/tiered_vec.rs:235-257 | the cascade and the tier insert leave the tiers `BackInsert` names |
| FlatVec.InsertInto | src/flat/tiered_vec.rs:258 | the tier takes e at offset index mod n, the other elements in order |
| FlatVec.RemoveFrom | src/flat/tiered_vec.rs:270 | as intended: the element at offset index mod n is returned and removed, the rest in order |
| FlatVec.PushInto | src/flat/tiered_vec.rs:281 | the element goes to the back of the tier |
| FlatVec.PopFrom | src/flat/tiered_vec.rs:242 | the last element is returned and removed |
| FlatVec.RemoveLoop | src/flat/tiered_vec.rs:262-293 | as intended: the tier removal and the reverse loop return the element and leave the tiers `RemoveRefilled` names |
| FlatVec.InsertTiers | src/flat/tiered_vec.rs:228-260 | on tiers with room, e goes in at rank `index` and the rest keep their order |
| FlatVec.RemoveTiers | src/flat/tiered_vec.rs:262-293 | as intended: the element of rank `index` is returned and removed, the rest in order |
| FlatVec.PushTiers | src/flat/tiered_vec.rs:295-305 | on tiers with room, e becomes the last element |
| FlatVec.PopTiers | src/flat/tiered_vec.rs:307-317 | the last element is returned and removed |
| FlatVec.RankIn | src/flat/tiered_vec.rs:107-109 | rank k is at offset k mod n of tier k / n, held exactly when k is below the length |
| FlatVec.GetTiers | src/flat/tiered_vec.rs:158-160 | the element of rank `index`, or None past the length |
| FlatVec.IndexTiers | src/flat/tiered_vec.rs:352-355 | the element of rank `index` |
| FlatVec.SizedTiers | src/flat/tiered_vec.rs:45-63 | the chosen tier size has room for the requested capacity, over empty tiers |
| FlatVec.FlatTieredVec.constructor | src/flat/tiered_vec.rs:28-43 | an empty valid vector of capacity n·n |
| FlatVec.FlatTieredVec.WithCapacity | src/flat/tiered_vec.rs:45-63 | an empty vector with the tier size `TierSizeFor` picks and at least the requested capacity |
| FlatVec.FlatTieredVec.Capacity | src/flat/tiered_vec.rs:82-84 | tier capacity squared |
| FlatVec.FlatTieredVec.TierIndex | src/flat/tiered_vec.rs:107-109 | the tier whose run of ranks contains the rank |
| FlatVec.FlatTieredVec.Len | src/flat/tiered_vec.rs:102-104 | the number of elements |
| FlatVec.FlatTieredVec.IsEmpty | src/flat/tiered_vec.rs:149-151 | empty exactly when there are no elements |
| FlatVec.FlatTieredVec.IsFull | src/flat/tiered_vec.rs:154-156 | full exactly when there are capacity elements |
| FlatVec.FlatTieredVec.Get | src/flat/tiered_vec.rs:158-160 | the element of the rank, or None past the length |
| FlatVec.FlatTieredVec.Index | src/flat/tiered_vec.rs:352-355 | the element of the rank |
| FlatVec.FlatTieredVec.Expand | src/flat/tiered_vec.rs:166-226 | the tier capacity doubles and the elements stay |
| FlatVec.FlatTieredVec.Insert | src/flat/tiered_vec.rs:228-260 | e goes in at `index` with the rest in order; the tier capacity doubles exactly when the vector was full |
| FlatVec.FlatTieredVec.Remove | src/flat/tiered_vec.rs:262-293 | as intended: the element at `index` is returned and removed, the rest in order |
| FlatVec.FlatTieredVec.Push | src/flat/tiered_vec.rs:295-305 | e becomes the last element; a full vector is expanded first |
| FlatVec.FlatTieredVec.Pop | src/flat/tiered_vec.rs:307-317 | the last element is returned and removed |
| FlatVec.FlatTieredVec.Clone | src/flat/tiered_vec.rs:372-390 | a fresh vector of the same tier capacity with the same elements |
| Tiers.FlattenChunks | src/linked/tiered_vec.rs:94-96 | the runs of n elements read back in order give the elements |
| Tiers.ChunksPacked | src/linked/tiered_vec.rs:94-96 | runs of n are packed tiers holding all the elements when there are enough of them |
| Tiers.PackedIsChunks | src/linked/tiered_vec.rs:94-96 | packed tiers are the runs of n of their concatenation |
| Tiers.ChunkPair | src/linked/tiered_vec.rs:104-121 | two consecutive runs of n make a run of 2n |
| Tiers.PairsOfChunks | src/linked/tiered_vec.rs:104-121 | joining runs of n two by two gives the runs of 2n: `expand`'s merge keeps the layout |
| Tiers.PassKept | src/linked/tiered_vec.rs:164-171 | what a tier hands on at its front and what it keeps are the tier, in order |
| Tiers.FrontCascadeIsCarry | src/linked/tiered_vec.rs:158-185 | the pop-push loop from tier i leaves the tiers before i alone and carries into the rest |
| Tiers.FrontCarryConserves | src/linked/tiered_vec.rs:158-185 | the pop-front/push-back carry neither makes nor loses elements (as multisets) |
| Tiers.FrontCarryPacked | src/linked/tiered_vec.rs:158-185 | carrying an element into packed tiers with room keeps them packed and takes the element in |
| Tiers.BackCascadeIsCarry | src/flat/tiered_vec.rs:238-255 | the pop-back/push-front loop from tier i leaves the tiers before i alone |
| Tiers.BackCarryShifts | src/flat/tiered_vec.rs:238-255 | the pop-back/push-front carry moves every element one place on, in order |
| Tiers.BackCarryPacked | src/flat/tiered_vec.rs:238-255 | carrying back-first into packed tiers with room keeps them packed and takes the element in |
| Tiers.HandedRefilled | src/linked/tiered_vec.rs:226-238 | one turn of the reverse loop moves the tier's elements and the carry one place toward the front |
| Tiers.RefillIsRun | src/linked/tiered_vec.rs:226-238 | the reverse loop over tiers hi - 1 down to lo touches only that range |
| Tiers.RefillRunShifts | src/linked/tiered_vec.rs:226-238 | the reverse loop moves every element one place toward the front, in order |
| Tiers.RefillRunLengths | src/linked/tiered_vec.rs:226-238 | the reverse loop keeps every tier's length but the last, which gives one up |
| Layout.FrontInsertConserves | src/linked/tiered_vec.rs:158-194 | the linked insert cascade keeps every element and adds e (as multisets) |
| Layout.FrontInsertPacked | src/linked/tiered_vec.rs:158-194 | the linked insert cascade keeps the tiers packed |
| Layout.BackInsertPacked | src/flat/tiered_vec.rs:228-260 | the flat insert cascade keeps the tiers packed |
| Layout.BackInsertInOrder | src/flat/tiered_vec.rs:228-260 | the flat insert cascade puts e at its rank and keeps the rest in order |
| Layout.InsertWithRoom | src/linked/tiered_vec.rs:187-194 | inserting into a tier with room keeps the tiers packed and inserts at that rank |
| Layout.InsertionPoint | src/linked/tiered_vec.rs:60-62 | rank r is at offset r mod n of tier r / n, behind full tiers |
| Layout.LinkedInsertedConserves | src/linked/tiered_vec.rs:142-197 | the linked insert adds e and keeps every other element (as multisets) |
| Layout.LinkedInsertedWithRoom | src/linked/tiered_vec.rs:142-197 | when the target tier has room, the linked insert is `InsertAt(s, rank, e)` |
| Layout.LinkedAppend | src/linked/tiered_vec.rs:142-197 | an insertion at the length appends e |
| Layout.LinkedInsertReorders | src/linked/tiered_vec.rs:158-185 | [0, 1] in tiers of 2, insert 9 at rank 1: the linked insert gives [1, 9, 0], the intended one [0, 9, 1] |
| Layout.OrderedInsertedInOrder | src/flat/tiered_vec.rs:228-260 | the order-keeping insert is `InsertAt(s, rank, e)` |
| Layout.OrderedInsertedChunks | src/flat/tiered_vec.rs:228-260 | after the order-keeping insert, the tiers are the runs of n of `InsertAt(s, rank, e)` |
| Layout.InsertedChunks | src/linked/tiered_vec.rs:158-194 | after the linked insert, the tiers are the runs of n of `LinkedInserted` |
| Layout.CascadeEnd | src/linked/tiered_vec.rs:222-238 | the intended end of the reverse loop is a tier index between 1 and n |
| Layout.FullRemoveOverruns | src/linked/tiered_vec.rs:222-227 | on a full vector, for every rank the reverse loop as written is not empty and reaches tier index n, one past the last tier |
| Layout.RemoveEndAsWrittenBound | src/linked/tiered_vec.rs:222-227 | the loop end as written, `tier_idx(num_entries) + 1`, is the intended end below n·n elements and n + 1 on a full vector |
| Layout.RemovalPoint | src/linked/tiered_vec.rs:199-250 | the removal works at offset r mod n of tier r / n, behind full tiers, with empty tiers from `CascadeEnd` on |
| Layout.LinkedRemovedInOrder | src/linked/tiered_vec.rs:199-250 | the removal cascade drops the element of that rank and keeps the tiers packed |
| Layout.RemovedChunks | src/linked/tiered_vec.rs:199-250 | after a removal, the tiers are the runs of n of `RemoveAt(s, rank)` |
| Layout.RemoveClosedInOrder | src/flat/tiered_vec.rs:262-293 | the removal and the reverse loop drop exactly that element, in order |
| Layout.LengthUpToEmpty | src/linked/tiered_vec.rs:68-81 | `len` can stop at the first empty tier: packed tiers hold nothing after it |
| Layout.FirstTierEmpty | src/linked/tiered_vec.rs:83-88 | packed tiers are empty exactly when the first one is |
| Layout.LastTierFull | src/linked/tiered_vec.rs:90-92 | packed tiers are full exactly when the last one is |
| Layout.PackedLookup | src/linked/tiered_vec.rs:94-96 | rank r is at offset r mod n of tier r / n exactly when it is below the length |
| Layout.RankLookup | src/linked/tiered_vec.rs:94-96 | the same for the runs of n of the elements |
| Layout.ExpandedContents | src/linked/tiered_vec.rs:104-121 | merged pairs followed by empty tiers are the runs of 2n of the same elements |
| Layout.ExpandedRuns | src/linked/tiered_vec.rs:104-121 | after `expand`, the tiers are the runs of 2n of the elements |
| Layout.ChunkHalves | src/linked/tiered_vec.rs:123-140 | splitting a run of 2h in half gives two runs of h |
| Layout.ContractFits | src/linked/tiered_vec.rs:123-140 | below an eighth of the capacity, the elements fit in the first quarter of the tiers and in half the tier size |
| Layout.PopChunks | src/flat/tiered_vec.rs:307-317 | `pop` works on tier (len - 1) / n alone, and its last element is the vector's last |
| Layout.DoubledRoom | src/flat/tiered_vec.rs:228-236 | after doubling, a full vector has room |
| LinkedTiers.EmptyVectorTiers | src/linked/tiered_vec.rs:18-28 | n fresh empty tiers of n slots make an empty vector |
| LinkedTiers.NewTiers | src/linked/tiered_vec.rs:22-25 | count fresh, distinct, empty tiers of the given capacity |
| LinkedTiers.PassFront | src/linked/tiered_vec.rs:164-182 | a full tier pops its first element and pushes the carry; the tier keeps the rest |
| LinkedTiers.PassBack | src/linked/tiered_vec.rs:226-236 | a tier pops its first element and pushes the carry at its back |
| LinkedTiers.FrontStepAt | src/linked/tiered_vec.rs:164-182 | one turn of the insert loop at tier i: the contents take `FrontStep` |
| LinkedTiers.RefillStepAt | src/linked/tiered_vec.rs:226-236 | one turn of the remove loop at tier i: the contents take `RefillStep` |
| LinkedTiers.MergeAt | src/linked/tiered_vec.rs:108-116 | tier i + 1 is taken out of the sequence and merged into tier i |
| LinkedTiers.SplitAt | src/linked/tiered_vec.rs:130-135 | tier i is split and its upper half is inserted after it |
| LinkedTiers.InsertAtTier | src/linked/tiered_vec.rs:187-194 | as intended: the tier insert puts e at offset rank mod n |
| LinkedTiers.RemoveAtTier | src/linked/tiered_vec.rs:213-220 | as intended: empty tier: `TierEmptyError`; offset past the length: `TierRankOutOfBoundsError`; otherwise the element is returned and removed |
| LinkedTiers.PushBackAtTier | src/linked/tiered_vec.rs:240-244 | the carried element goes to the back of the tier |
| LinkedTiers.SumLengths | src/linked/tiered_vec.rs:68-81 | the loop of `len` counts every element |
| LinkedTiers.MergedUpToPairs | src/linked/tiered_vec.rs:108-116 | after i turns of the merge loop, the first i tiers hold the first i pairs and the rest are untouched |
| LinkedTiers.MergePairs | src/linked/tiered_vec.rs:108-116 | the merge loop leaves n/2 tiers of 2n slots holding the pairs |
| LinkedTiers.ExpandTiers | src/linked/tiered_vec.rs:104-121 | 2n tiers holding the same elements, packed |
| LinkedTiers.SplitTurn | src/linked/tiered_vec.rs:130-135 | one turn of the split loop leaves the runs of h up to that tier |
| LinkedTiers.SplitTiers | src/linked/tiered_vec.rs:127-137 | the split loop leaves h tiers of h holding the runs of h |
| LinkedTiers.ContractTiers | src/linked/tiered_vec.rs:123-140 | half as many tiers, holding the same elements, packed |
| LinkedTiers.TryContractTiers | src/linked/tiered_vec.rs:123-140 | the tiers contract exactly below an eighth of the capacity, and the elements stay |
| LinkedTiers.FrontLoop | src/linked/tiered_vec.rs:158-185 | the pop-push loop leaves the tiers `FrontCascade` names |
| LinkedTiers.RefillLoop | src/linked/tiered_vec.rs:226-238 | the reverse loop leaves the tiers and the carry that `Refill` names |
| LinkedTiers.RefillAfter | src/linked/tiered_vec.rs:222-244 | the reverse loop and the final push leave the tiers `RemoveRefilled` names |
| LinkedTiers.InsertInto | src/linked/tiered_vec.rs:158-194 | as intended: on a vector with room, the tiers then hold the runs of n of `LinkedInserted` |
| LinkedTiers.RemoveFrom | src/linked/tiered_vec.rs:206-248 | as intended: at the length: an error whose kind depends on the offset; below it: the element is returned and the tiers hold the runs of n of `RemoveAt` |
| LinkedTiers.InsertTiers | src/linked/tiered_vec.rs:142-197 | as intended: past the length: `TieredVectorOutofBoundsInsertionError`; otherwise `Ok(rank)`, doubling when full, with the elements of `LinkedInserted` |
| LinkedTiers.RemoveTiers | src/linked/tiered_vec.rs:199-250 | as intended: past the length: `TieredVectorRankOutOfBoundsError`; contraction below an eighth; the element of that rank is returned and removed |
| LinkedVec.LinkedTieredVec.constructor | src/linked/tiered_vec.rs:18-28 | an empty vector of the given power-of-two tier size |
| LinkedVec.LinkedTieredVec.WithMinimumCapacity | src/linked/tiered_vec.rs:30-53 | an empty vector with the tier size `TierSizeFor` picks and at least the requested capacity |
| LinkedVec.LinkedTieredVec.Capacity | src/linked/tiered_vec.rs:64-66 | n tiers of n slots |
| LinkedVec.LinkedTieredVec.TierSize | src/linked/tiered_vec.rs:56-58 | on a valid vector, a power of two of at least 2 |
| LinkedVec.LinkedTieredVec.Len | src/linked/tiered_vec.rs:68-81 | the number of elements |
| LinkedVec.LinkedTieredVec.IsEmpty | src/linked/tiered_vec.rs:83-88 | empty exactly when there are no elements |
| LinkedVec.LinkedTieredVec.IsFull | src/linked/tiered_vec.rs:90-92 | full exactly when there are capacity elements |
| LinkedVec.LinkedTieredVec.GetByRank | src/linked/tiered_vec.rs:94-96 | the element of the rank, or None past the length |
| LinkedVec.LinkedTieredVec.Expand | src/linked/tiered_vec.rs:104-121 | the tier size doubles and the elements stay |
| LinkedVec.LinkedTieredVec.TryContract | src/linked/tiered_vec.rs:123-140 | the tier size halves exactly below an eighth of the capacity; the elements stay and still fit |
| LinkedVec.LinkedTieredVec.Insert | src/linked/tiered_vec.rs:142-197 | as intended: past the length: `TieredVectorOutofBoundsInsertionError(rank, e)` and nothing changes; otherwise `Ok(rank)`, the tier size doubles exactly when the vector was full, and the elements become `LinkedInserted` (the cascade's order) |
| LinkedVec.LinkedTieredVec.Remove | src/linked/tiered_vec.rs:199-250 | as intended: past the length: `TieredVectorRankOutOfBoundsError` and nothing changes; at the length: `TieredVectorEmptyError` when the offset is 0, else `TieredVectorRankOutOfBoundsError`; below it: the element is returned and removed; contraction below an eighth |
| ImplicitTier.IsValidMaskedIndex | src/implicit/tier.rs:46-52 | true exactly on an empty tier or for a slot of the window |
| ImplicitTier.MaskedIndexIsUnused | src/implicit/tier.rs:28-43 | for a length within the capacity and a slot below it: unused exactly when the tier is not empty and the slot lies outside the window |
| ImplicitTier.EmptyTierSlotsPass | src/implicit/tier.rs:46-52 | on an empty tier every slot passes, though every slot is free |
| ImplicitTier.IsValidMaskedIndexCorrected | src/implicit/tier.rs:46-52 | exactly the slots that hold elements, and each holds the element of its rank |
| ImplicitTier.ContainsMaskedRank | src/implicit/tier.rs:54-71 | exactly the slots of the window |
| ImplicitTier.ContainsRank | src/implicit/tier.rs:73-83 | exactly when the rank modulo the capacity is below the length |
| ImplicitTier.Get | src/implicit/tier.rs:85-97 | as written: Some exactly when the tier is empty or the masked index is in the window; the element of that slot in the window, an uninitialised slot (`Some(None)`) on an empty tier |
| ImplicitTier.GetMut | src/implicit/tier.rs:99-111 | as written: the masked slot exactly when the tier is empty or the slot is in the window; it holds the element of its rank, or nothing on an empty tier |
| ImplicitTier.GetByRank | src/implicit/tier.rs:113-119 | as written: the element of the rank mod cap when below the length; an uninitialised slot (`Some(None)`) on an empty tier; otherwise None |
| ImplicitTier.GetMutByRank | src/implicit/tier.rs:121-127 | as written: the slot of the rank mod cap when that rank is below the length or the tier is empty; the slot holds the element of the rank, or nothing on an empty tier |
| ImplicitTier.PassingSlot | src/implicit/tier.rs:85-97 | a slot that passes the check holds the element of its rank when it is in the window, and nothing when the tier is empty |
| ImplicitTier.PushFront | src/implicit/tier.rs:143-158 | full: `TierFullInsertionError(e)` and nothing changes; otherwise e becomes the first element at the returned slot |
| ImplicitTier.PushBack | src/implicit/tier.rs:160-175 | full: `TierFullInsertionError(e)` and nothing changes; otherwise e becomes the last element at the returned slot |
| ImplicitTier.PopFront | src/implicit/tier.rs:177-189 | empty: `TierEmptyError`; otherwise the first element is returned and removed |
| ImplicitTier.PopBack | src/implicit/tier.rs:191-203 | empty: `TierEmptyError`; otherwise the last element is returned and removed |
| ImplicitTier.ShiftToHeadAndSet | src/implicit/tier.rs:205-231 | the head-ward shift and write insert e at the given rank |
| ImplicitTier.ShiftToTailAndSet | src/implicit/tier.rs:233-256 | the tail-ward shift and write insert e at the given rank |
| ImplicitTier.InsertAtBoundary | src/implicit/tier.rs:258-272 | rank past the length: `TierDisconnectedEntryInsertionError`; at the length: appended |
| ImplicitTier.InsertInWindow | src/implicit/tier.rs:273-294 | as written: a head-ward shift puts e at rank + 1, a tail-ward shift at the rank |
| ImplicitTier.InsertAtRank | src/implicit/tier.rs:258-294 | disconnected ranks are rejected with nothing changed; at the length e is appended; inside the window e lands at rank + 1 when the head-ward side is nearer, else at the rank |
| ImplicitTier.ShiftAndSetCorrected | src/implicit/tier.rs:205-256 | either shift puts e at the given rank |
| ImplicitTier.InsertInWindowCorrected | src/implicit/tier.rs:273-294 | e goes in at rank mod cap |
| ImplicitTier.InsertAtRankCorrected | src/implicit/tier.rs:258-294 | the same rejection; every accepted insertion puts e at rank mod cap |
| ImplicitTier.TakeAndCloseGap | src/implicit/tier.rs:296-319 | as written: the element is returned; the rest close up unless the gap wraps, which leaves a hole |
| ImplicitTier.TakeAndCloseGapCorrected | src/implicit/tier.rs:296-319 | the element is returned and removed, the rest in order |
| ImplicitTier.TakeHead | src/implicit/tier.rs:321-344 | removing rank 0 takes the first element and moves the head on |
| ImplicitTier.MaskedRankCases | src/implicit/tier.rs:321-344 | the masked cursor head + rank is in the window exactly when rank mod cap is below the length, and is the head or tail slot only for rank 0 |
| ImplicitTier.RemoveAtRank | src/implicit/tier.rs:321-344 | rank mod cap at or past the length: `TierRankOutOfBoundsError(rank)` and nothing changes; otherwise the element is returned and, unless the gap wraps, removed in order; a wrapped gap leaves a hole |
| ImplicitTier.RemoveAtRankCorrected | src/implicit/tier.rs:321-344 | the same error; every accepted removal removes exactly that element |
| ImplicitSlices.OverwriteReadsBack | src/implicit/tiered_vec.rs:208-211 | a sub-slice written through reads back as written |
| ImplicitSlices.OverwriteKeeps | src/implicit/tiered_vec.rs:208-211 | the slots outside the written sub-slice are unchanged |
| ImplicitSlices.RegionsApart | src/implicit/tiered_vec.rs:208-211 | the slices of two different tiers do not overlap |
| ImplicitSlices.ReadWith | src/implicit/tier.rs:54-71 | reading a slice with the offsets' cursors is what the implicit tier reads |
| ImplicitSlices.HoldsOverwrite | src/implicit/tiered_vec.rs:208-211 | writing one tier's slice back replaces that tier's contents only |
| ImplicitSlices.PassFront | src/implicit/tiered_vec.rs:213-228 | a full tier pops its first element and pushes the carry; the tier keeps the rest |
| ImplicitSlices.FrontStepAt | src/implicit/tiered_vec.rs:207-229 | one turn of the insert loop at tier i: the contents take `FrontStep` |
| ImplicitSlices.InsertIntoTier | src/implicit/tiered_vec.rs:236-239 | as intended: the tier insert puts e at offset rank mod n |
| ImplicitSlices.RemoveFromTier | src/implicit/tiered_vec.rs:284-292 | as intended: offset past the length: `TierRankOutOfBoundsError`; otherwise the element is returned and removed |
| ImplicitSlices.InsertAtTier | src/implicit/tiered_vec.rs:233-239 | as intended: the insert at tier t changes tier t's contents alone |
| ImplicitSlices.RemoveAtTier | src/implicit/tiered_vec.rs:278-292 | as intended: the removal at tier t changes tier t's contents alone |
| ImplicitSlices.SwapHolds | src/implicit/tiered_vec.rs:320-339 | swapping tier k's free tail slot with tier k+1's head slot moves that element to the back of tier k |
| ImplicitSlices.SwapAt | src/implicit/tiered_vec.rs:320-339 | the swap with both cursor pairs moved leaves the contents `SwapStep` names |
| ImplicitSlices.PushBackAt | src/implicit/tiered_vec.rs:341 | filling the free slot after tier k's last element appends to tier k |
| ImplicitSlices.PopFrontAt | src/implicit/tiered_vec.rs:342 | clearing tier k's first slot drops its first element |
| ImplicitSlices.FreeHoldsNothing | src/implicit/tiered_vec.rs:156-160 | free slots read with both cursors at 0 are an empty tier |
| ImplicitSlices.HoldsEmpties | src/implicit/tiered_vec.rs:23-36 | default offsets over free slots hold empty tiers |
| ImplicitSlices.LaidHolds | src/implicit/tiered_vec.rs:144-154 | elements laid from slot 0 read with cursors 0 and len hold those elements |
| ImplicitSlices.MergeNeighbors | src/implicit/tiered_vec.rs:144-154 | two neighbouring tiers' slices become one tier holding the first's elements followed by the second's |
| ImplicitSlices.SplitHalf | src/implicit/tiered_vec.rs:173-181 | a slice splits into halves holding the first min(len, cap/2) elements and the rest |
| ImplicitSlices.LaidHalves | src/implicit/tiered_vec.rs:173-181 | each half of the split slots holds its part from cursor 0 |
| ImplicitTiers.SweptStep | src/implicit/tiered_vec.rs:320-339 | each swap moves the next tier's first element to the back of the tier before it |
| ImplicitTiers.SwapCascade | src/implicit/tiered_vec.rs:320-342 | with every cursor pair moved at each swap, the tiers hold `Swept`, the removal with the rest in order |
| ImplicitTiers.SwapLoopAsWritten | src/implicit/tiered_vec.rs:320-339 | the slots the swap loop writes, read with the intended cursors, hold `Swept` |
| ImplicitTiers.SwapCascadeAsWritten | src/implicit/tiered_vec.rs:320-342 | with only the first tier's tail and the last tier's head moved, the tiers hold `SweptAsWritten` |
| ImplicitTiers.SwapCascadeReorders | src/implicit/tiered_vec.rs:300-342 | 1..9 in tiers of 4, remove 1: as written the tiers read 2, 3, 4, 5, 9, 6, 7, 8; as intended 2 .. 9 |
| ImplicitTiers.ExampleAsWritten | src/implicit/tiered_vec.rs:320-342 | the example's tiers as written: [2, 3, 4, 5], [9, 6, 7, 8], [], [] |
| ImplicitTiers.ExampleSwept | src/implicit/tiered_vec.rs:320-342 | the example's tiers as intended: [2, 3, 4, 5], [6, 7, 8, 9], [], [] |
| ImplicitTiers.SweptIsRemoval | src/implicit/tiered_vec.rs:278-350 | after the tier removal and the swap cascade, the tiers are the runs of n of `RemoveAt(s, rank)` |
| ImplicitTiers.MergeTurn | src/implicit/tiered_vec.rs:144-154 | the i-th merge turn, taking slots from 2i·n: merged tier i holds pair i |
| ImplicitTiers.MergePairs | src/implicit/tiered_vec.rs:144-154 | as intended: the merge loop leaves n/2 tiers of 2n slots holding the pairs |
| ImplicitTiers.PushDefaults | src/implicit/tiered_vec.rs:156-158 | the default offsets pushed are fresh and empty |
| ImplicitTiers.ExpandTiers | src/implicit/tiered_vec.rs:140-161 | as intended: 2n tiers over (2n)² slots holding the same elements, packed |
| ImplicitTiers.SplitTurn | src/implicit/tiered_vec.rs:173-181 | the split turn, taking old tier i/2's slots, leaves the runs of h up to that tier |
| ImplicitTiers.SplitTiers | src/implicit/tiered_vec.rs:172-181 | as intended: the split loop leaves h tiers holding the runs of h |
| ImplicitTiers.ContractTiers | src/implicit/tiered_vec.rs:163-187 | as intended: half as many tiers holding the same elements, packed |
| ImplicitTiers.TryContractTiers | src/implicit/tiered_vec.rs:163-187 | as intended: the tiers contract exactly below an eighth of the capacity, and the elements stay |
| ImplicitTiers.SumLengths | src/implicit/tiered_vec.rs:72-86 | the loop of `len` counts every element |
| ImplicitTiers.SweepAfter | src/implicit/tiered_vec.rs:300-348 | as intended: after the removal, the swap cascade leaves the runs of n of what remains |
| ImplicitTiers.RemoveFrom | src/implicit/tiered_vec.rs:278-351 | as intended: at the length: `TieredVectorRankOutOfBoundsError` and nothing changes; below it: the element is returned and removed, the rest in order |
| ImplicitTiers.FrontLoop | src/implicit/tiered_vec.rs:205-230 | the pop-push loop leaves the tiers `FrontCascade` names |
| ImplicitTiers.InsertInto | src/implicit/tiered_vec.rs:201-241 | as intended: on a vector with room, the tiers then hold the runs of n of `LinkedInserted` |
| ImplicitTiers.InsertTiers | src/implicit/tiered_vec.rs:189-242 | as intended: rejection past the length, doubling when full, then the insertion |
| ImplicitTiers.RemoveTiers | src/implicit/tiered_vec.rs:244-351 | as intended: rejection past the length, contraction below an eighth, then the removal |
| ImplicitTiers.ExpandTurnScrambles | src/implicit/tiered_vec.rs:144-154 | four full tiers of 4 holding 0..15, the last stored from its second slot: as written, merged tier 1 reads 9, 10, 11, 8, 15, 12, 13, 14 |
| ImplicitTiers.FreeSlotsReadNothing | src/implicit/tiered_vec.rs:173-181 | free slots read with the cursors of a non-empty tier read no tier |
| ImplicitTiers.ContractTurnReadsFreeSlots | src/implicit/tiered_vec.rs:173-181 | as written, the split turn for i = 2 reads slots past the kept tiers and finds no elements; the intended slots of old tier 1 hold its elements |
| ImplicitVec.EmptyVector | src/implicit/tiered_vec.rs:23-36 | n default offsets over n·n free slots: an empty vector |
| ImplicitVec.RankSlots | src/implicit/tiered_vec.rs:114-116 | rank r is at offset r mod n of tier r / n exactly when it is below the length |
| ImplicitVec.FirstEmpty | src/implicit/tiered_vec.rs:89-91 | the first offsets are empty exactly when the vector is |
| ImplicitVec.LastFull | src/implicit/tiered_vec.rs:94-96 | the last offsets are full exactly when the vector holds n·n elements |
| ImplicitVec.RankElement | src/implicit/tiered_vec.rs:118-128 | as written: the element of the rank below the length; an uninitialised slot (`Some(None)`) when the rank's tier is empty; None for a rank past the length in a tier that holds elements |
| ImplicitVec.RankSlot | src/implicit/tiered_vec.rs:130-138 | the slice at tier·n, as `get_by_rank` takes it: a slot exactly when the rank is below the length or its tier is empty; the slot holds the element of the rank, or nothing past the length |
| ImplicitVec.TierEmptyPastLength | src/implicit/tiered_vec.rs:118-128 | on packed tiers, tier t is empty exactly when the length is at most the first rank of tier t |
| ImplicitVec.RankSlotAsWritten | src/implicit/tiered_vec.rs:130-138 | as written, the slice taken at `tier_idx`: the slot lies within n of the tier index |
| ImplicitVec.RankSlotMisplaced | src/implicit/tiered_vec.rs:130-138 | for a rank in tier t ≥ 1, the slot as written lies below the element's slot |
| ImplicitVec.ImplicitTieredVec.constructor | src/implicit/tiered_vec.rs:23-36 | an empty vector of the given tier size |
| ImplicitVec.ImplicitTieredVec.WithMinimumCapacity | src/implicit/tiered_vec.rs:38-64 | an empty vector with the tier size `TierSizeFor` picks and at least the requested capacity |
| ImplicitVec.ImplicitTieredVec.Capacity | src/implicit/tiered_vec.rs:67-69 | the buffer's length, n·n |
| ImplicitVec.ImplicitTieredVec.TierSize | src/implicit/tiered_vec.rs:109-111 | on a valid vector, a power of two of at least 2 whose square is the buffer's length |
| ImplicitVec.ImplicitTieredVec.Len | src/implicit/tiered_vec.rs:72-86 | the number of elements |
| ImplicitVec.ImplicitTieredVec.IsEmpty | src/implicit/tiered_vec.rs:89-91 | empty exactly when there are no elements |
| ImplicitVec.ImplicitTieredVec.IsFull | src/implicit/tiered_vec.rs:94-96 | full exactly when there are capacity elements |
| ImplicitVec.ImplicitTieredVec.GetByRank | src/implicit/tiered_vec.rs:118-128 | as written: the element of the rank below the length; an uninitialised slot (`Some(None)`) when the rank's tier is empty; otherwise None |
| ImplicitVec.ImplicitTieredVec.GetMutByRank | src/implicit/tiered_vec.rs:130-138 | with the slice corrected: a slot exactly when the rank is below the length or its tier is empty; the slot holds the element of the rank, or nothing past the length |
| ImplicitVec.ImplicitTieredVec.Expand | src/implicit/tiered_vec.rs:140-161 | as intended: the tier size doubles and the elements stay |
| ImplicitVec.ImplicitTieredVec.TryContract | src/implicit/tiered_vec.rs:163-187 | as intended: the tier size halves exactly below an eighth of the capacity; the elements stay and still fit |
| ImplicitVec.ImplicitTieredVec.Insert | src/implicit/tiered_vec.rs:189-242 | as intended: past the length: `TieredVectorOutofBoundsInsertionError(rank, e)` and nothing changes; otherwise `Ok(rank)`, doubling exactly when full, and the elements become `LinkedInserted` |
| ImplicitVec.ImplicitTieredVec.Remove | src/implicit/tiered_vec.rs:244-407 | as intended: past or at the length: `TieredVectorRankOutOfBoundsError` and the elements stay; below it: the element is returned and removed, the rest in order; contraction below an eighth |
| DraftTier.RawTier.constructor | tier.rs:67-88 | a power-of-two N gives an empty tier over a fresh array of N slots |
| DraftTier.RawTier.Len | tier.rs:94-96 | the number of elements |
| DraftTier.RawTier.IsEmpty | tier.rs:98-100 | empty exactly when there are no elements |
| DraftTier.RawTier.IsFull | tier.rs:102-104 | full exactly when every slot holds an element |
| DraftTier.RawTier.ValidIndex | tier.rs:106-116 | for a tier neither empty nor full, the window; otherwise exactly when the masked head is 0 |
| DraftTier.RawTier.EmptyTierPassesEverySlot | tier.rs:106-116 | on an empty tier whose cursors sit at a multiple of N, every slot passes and none holds an element |
| DraftTier.RawTier.FullTierPassesNoSlot | tier.rs:106-116 | on a full tier whose masked head is not 0, no slot passes, though every slot holds an element |
| DraftTier.RawTier.ValidIndexCorrected | tier.rs:106-116 | exactly the slots holding elements, each the element of its rank |
| DraftTier.RawTier.SlotFacts | tier.rs:118-121 | a slot has been written to exactly when it is in the window |
| DraftTier.RawTier.Get | tier.rs:127-135 | Some only for a slot of the window, with that slot's element; every window slot when neither empty nor full; None on a full tier whose masked head is not 0 |
| DraftTier.RawTier.GetWrapsAround | tier.rs:127-135 | indices a whole number of laps apart read the same slot |
| DraftTier.RawTier.GetFromUnmovedHead | tier.rs:127-135 | with the head never moved, `get(m)` is the element of rank m, if any |
| DraftTier.RawTier.PushBack | tier.rs:147-163 | full: `TierInsertionError(e)` and nothing changes; otherwise e becomes the last element at the returned slot |
| DraftTier.RawTier.PopFront | tier.rs:165-177 | empty: `TierEmptyError`; otherwise the oldest element is returned and removed |
| DraftTieredVec.TieredVec.constructor | tiered_vec.rs:21-26 | no tiers and no elements |
| DraftTieredVec.TieredVec.TierIndex | tiered_vec.rs:28-30 | the index lies in that tier's run: from tier·n up to (tier + 1)·n |
| DraftTieredVec.TieredVec.TierInternalIndex | tiered_vec.rs:28-34 | tier index times the tier size plus the internal index gives back the index |
| DraftTieredVec.TieredVec.Get | tiered_vec.rs:36-42 | the element at the index, or None past the end |
| DraftTieredVec.TieredVec.GetAt | tiered_vec.rs:36-42 | slot j of tier t is index t·n + j |
| DraftTieredVec.TieredVec.AddTierAndInsert | tiered_vec.rs:55-60 | a fresh tier holding the element is appended; the element is last |
| DraftTieredVec.TieredVec.Push | tiered_vec.rs:62-80 | the element is appended, but the index returned is one tier's worth past it, where `get` finds nothing |
| DraftTieredVec.TieredVec.PushCorrected | tiered_vec.rs:62-80 | the element is appended and the index returned reads it back |
| DraftTieredVec.TieredVec.PushToLast | tiered_vec.rs:66-73 | the last tier takes the element when it has room, at the slot of its rank in that tier |
| DraftTieredVec.TieredVec.PushBackLast | tiered_vec.rs:66-73 | `push_back` on the last tier, the only tier that changes |
| DraftImplicitTier.ImplicitTier.FromSlice | implicit/tier.rs:39-42 | the tier wraps the slice as given |
| DraftImplicitTier.ImplicitTier.ContainsMaskedRank | implicit/tier.rs:79-85 | true on an empty tier or for a slot of the window |
| DraftImplicitTier.ImplicitTier.EmptyTierContainsEverySlot | implicit/tier.rs:79-85 | on an empty tier every slot is reported as contained, though none holds an element |
| DraftImplicitTier.ImplicitTier.ContainsRank | implicit/tier.rs:87-92 | true on an empty tier, else exactly when the rank mod cap is below the length |
| DraftImplicitTier.ImplicitTier.PushFront | implicit/tier.rs:144-158 | full: `TierFullInsertionError(e)` and the elements stay; otherwise e becomes the first element |
| DraftImplicitTier.ImplicitTier.PushBack | implicit/tier.rs:160-174 | full: `TierFullInsertionError(e)`; otherwise e becomes the last element |
| DraftImplicitTier.ImplicitTier.PopFront | implicit/tier.rs:176-188 | empty: `TierEmptyError`; otherwise the first element is returned and removed |
| DraftImplicitTier.ImplicitTier.PopBack | implicit/tier.rs:190-202 | empty: `TierEmptyError`; otherwise the last element is returned and removed |
| DraftImplicitTier.ImplicitTier.InsertAtRank | implicit/tier.rs:248-284 | on a tier with room: disconnected ranks rejected; appended at the length; inside the window rank + 1 head-ward, the rank tail-ward; on an empty tier, as written, the head moves back one and e goes to the slot of head + rank, which leaves the tier valid (holding [e]) exactly when rank mod cap is cap − 1 |
| DraftImplicitTier.ImplicitTier.RemoveAtRank | implicit/tier.rs:307-329 | out-of-range ranks rejected with nothing changed; otherwise the element is returned and removed in order unless the gap wraps, which leaves the tier invalid; on an empty tier, as written, a free slot is returned as `Ok` and the length becomes −1 |
| DraftImplicitTier.LastRankBehindHead | implicit/tier.rs:248-284 | the slot of head + rank is the slot behind the head exactly when rank mod cap is cap − 1 |
| DraftImplicitTier.HeadSlotRank | implicit/tier.rs:307-329 | the slot of head + rank is the head's slot exactly when rank mod cap is 0 |
| DraftImplicitTier.EmptyInsertOutcome | implicit/tier.rs:248-284 | an empty tier that takes e at the slot behind its head then holds exactly [e] |
| DraftImplicitVec.FirstRunZero | implicit/tiered_vec.rs:33-47 | the count is 0 exactly when there is no first tier or it is empty |
| DraftImplicitVec.FirstRunStops | implicit/tiered_vec.rs:33-47 | lengths after the first zero do not count |
| DraftImplicitVec.FirstRunOfPacked | implicit/tiered_vec.rs:33-47 | on packed tiers the count is the total |
| DraftImplicitVec.LastFullIffAllFull | implicit/tiered_vec.rs:55-57 | on packed tiers, the last is full exactly when the count is n per tier |
| DraftImplicitVec.PairIsFull | implicit/tiered_vec.rs:55-57 | indexing the offsets succeeds exactly below their number, and then tells whether that tier is full |
| DraftImplicitVec.ImplicitTieredVec.New | implicit/tiered_vec.rs:14-26 | n distinct default offsets over n uninitialised slots: nothing counted |
| DraftImplicitVec.ImplicitTieredVec.Len | implicit/tiered_vec.rs:33-47 | the lengths summed up to the first empty tier |
| DraftImplicitVec.ImplicitTieredVec.IsEmpty | implicit/tiered_vec.rs:50-52 | panics (None) without offsets; otherwise empty exactly when nothing is counted |
| DraftImplicitVec.ImplicitTieredVec.IsFull | implicit/tiered_vec.rs:55-57 | as written, `offsets[offsets.len()]` is out of bounds on every vector (always None) |
| DraftImplicitVec.ImplicitTieredVec.IsFullCorrected | implicit/tiered_vec.rs:55-57 | reading the last offsets: full exactly when the count is n·n |
| DraftImplicitVec.ImplicitTieredVec.TierIdx | implicit/tiered_vec.rs:64-66 | the rank lies in that many whole capacities and the next |
| DraftImplicitVec.ImplicitTieredVec.GetMutTier | implicit/tiered_vec.rs:68-73 | the slice exists exactly for ranks below the capacity, and is then the whole buffer |
| DraftImplicitVec.ImplicitTieredVec.GetMutTierOffset | implicit/tiered_vec.rs:75-79 | the offsets at `tier_idx`, exactly when that index exists |

## Left out

- `MaybeUninit`, raw pointers, `unsafe` copies, `Layout` and `realloc` are modelled by their logical effect. Slots are `Option<T>`. The flat tiers are values, and the flat `expand` is the merge of tier pairs. Leaked slots (`clear_and_leak`) are written as free.
- The crate's `usize` cursors wrap; the model's are unbounded. `Ring.WrappingCursorsAgree` and `RingOffsets.WrappingLen` tie the two together below 2^64 elements. Overflow of the element count itself is not modelled.
- Panics are preconditions. This covers the flat `assert!`s (`insert` index ≤ len, `remove` index < len, `pop` on a non-empty vector, tiers not full or not empty), the linked tier's `assert!`s and `expect`s, and the implicit `get_by_rank`/`get_mut_by_rank` past the capacity.
- LinkedVec.LinkedTieredVec.Remove: requires that rank == len == capacity does not hold, because there the rank's own tier, tier n, does not exist. Every other removal from a full vector panics in the crate too: the reverse loop runs up to `tier_idx(num_entries)`, which is n, and `get_mut(n).expect` fails (src/linked/tiered_vec.rs:222-228). The model returns the element and removes it as intended there, with the intended in-tier removal (see LinkedTiers.RemoveFrom).
- LinkedVec.LinkedTieredVec.Insert: the elements become `LinkedInserted`, which assumes the intended in-tier insert (see LinkedTiers.InsertAtTier).
- LinkedTiers.InsertAtTier: proved over Tier.RawTier.InsertCorrected. The crate calls the `insert` of src/tier.rs, whose head-ward shift puts e one rank late: tiers of 4 holding [0, 1, 2], insert(1, 9) gives [0, 1, 9, 2] in the crate and [0, 9, 1, 2] here.
- LinkedTiers.InsertInto: built on LinkedTiers.InsertAtTier, so it states the intended in-tier insert.
- LinkedTiers.InsertTiers: built on LinkedTiers.InsertInto; `LinkedInserted` assumes the intended in-tier insert.
- LinkedTiers.RemoveAtTier: proved over Tier.RawTier.RemoveCorrected. The crate's `remove` leaves a free slot inside the window when the window wraps after the gap.
- LinkedTiers.RemoveFrom: built on LinkedTiers.RemoveAtTier, and ends the reverse loop at Layout.CascadeEnd. In the crate every removal from a full vector panics, since the loop reaches tier n (Layout.FullRemoveOverruns); the model removes as intended there.
- LinkedTiers.RemoveTiers: built on LinkedTiers.RemoveFrom, with the same intended removal on a full vector; its requires excludes only rank == len == capacity.
- FlatVec.RemoveFrom: proved over FlatTier.Tier.RemoveCorrected. The crate's tier `remove` leaves a free slot inside a window that wraps after the gap (src/flat/tier.rs:272-308).
- FlatVec.RemoveLoop: built on FlatVec.RemoveFrom, so it states the intended in-tier removal.
- FlatVec.RemoveTiers: built on FlatVec.RemoveLoop, and ends the loop at Layout.CascadeEnd. In the crate every removal from a full vector panics: the loop asks for `tier_mut(num_tiers)` and trips the assert at src/flat/tiered_vec.rs:111 (via lines 274-276). The model removes as intended there.
- FlatVec.FlatTieredVec.Remove: built on FlatVec.RemoveTiers, with the same intended removal, also on a full vector.
- LinkedTier.Tier.Insert: requires rank mod cap ≤ len. The crate does not check it; for a rank past the length, `shift_to_tail` starts from a free slot and carries it into the window (src/linked/tier.rs:238-278). Every caller in the crate meets the requirement.
- FlatTier.Tier.Insert: requires rank mod cap ≤ len, for the same reason (src/flat/tier.rs:254-270).
- ImplicitTier.InsertAtRank: requires a tier that is not full. The crate does not check it; on a full tier `contains_masked_rank` holds for every slot and the shift overwrites an element (src/implicit/tier.rs:258-294).
- ImplicitTier.InsertAtRankCorrected: requires a tier that is not full, as ImplicitTier.InsertAtRank.
- DraftImplicitTier.ImplicitTier.InsertAtRank: requires a tier that is not full, as ImplicitTier.InsertAtRank (implicit/tier.rs:248-284).
- DraftImplicitTier.ImplicitTier.RemoveAtRank: the draft returns `TierIndexOutOfBoundsError`, a variant the crate's error type does not define; the model reports `TierRankOutOfBoundsError` instead.
- ImplicitSlices.InsertIntoTier: proved over ImplicitTier.InsertAtRankCorrected. The crate's `insert_at_rank` puts e one rank late on a head-ward shift.
- ImplicitSlices.InsertAtTier: tier t takes the intended insertion (see ImplicitSlices.InsertIntoTier).
- ImplicitSlices.RemoveFromTier: proved over ImplicitTier.RemoveAtRankCorrected. The crate's `remove_at_rank` leaves a free slot inside a window that wraps after the gap.
- ImplicitSlices.RemoveAtTier: tier t takes the intended removal (see ImplicitSlices.RemoveFromTier).
- ImplicitTiers.MergePairs: proved over ImplicitTiers.MergeTurn, which takes turn i's slots from 2i·n. The crate takes them from i·n and scrambles the merged tiers (ImplicitTiers.ExpandTurnScrambles).
- ImplicitTiers.ExpandTiers: built on ImplicitTiers.MergePairs, so the elements stay only under the intended merge.
- ImplicitTiers.SplitTiers: proved over ImplicitTiers.SplitTurn, which reads old tier i / 2. The crate reads from i·n, past the kept tiers, and takes free slots (ImplicitTiers.ContractTurnReadsFreeSlots).
- ImplicitTiers.ContractTiers: built on ImplicitTiers.SplitTiers, as intended.
- ImplicitTiers.TryContractTiers: built on ImplicitTiers.ContractTiers, as intended.
- ImplicitTiers.SweepAfter: proved over ImplicitTiers.SwapCascade. The crate's swap loop moves only the first tier's tail and the last tier's head, so the middle tiers are read one slot early (ImplicitTiers.SwapCascadeReorders).
- ImplicitTiers.RemoveFrom: built on ImplicitSlices.RemoveAtTier and ImplicitTiers.SweepAfter, both as intended.
- ImplicitTiers.RemoveTiers: built on ImplicitTiers.RemoveFrom and ImplicitTiers.TryContractTiers, both as intended.
- ImplicitTiers.InsertInto: built on ImplicitSlices.InsertAtTier, as intended.
- ImplicitTiers.InsertTiers: built on ImplicitTiers.InsertInto and ImplicitTiers.ExpandTiers, both as intended.
- ImplicitVec.ImplicitTieredVec.Expand: the elements stay under the intended merge (see ImplicitTiers.MergePairs).
- ImplicitVec.ImplicitTieredVec.TryContract: the elements stay under the intended split (see ImplicitTiers.SplitTiers).
- ImplicitVec.ImplicitTieredVec.Insert: built on the intended in-tier insert and the intended expand (see ImplicitTiers.InsertTiers).
- ImplicitVec.ImplicitTieredVec.Remove: requires that rank == len == capacity does not hold, because there the rank's tier does not exist. It is proved over the intended in-tier removal, sweep and contraction (see ImplicitTiers.RemoveTiers).
- ImplicitVec.ImplicitTieredVec.GetMutByRank: returns the slot the element is in, using the slice `get_by_rank` takes, not the slice as written (see Findings). A returned slot index stands for the `&mut T` reference throughout.
- `merge_neighbors` and `split_half` of the implicit tier are called but not defined in `src/implicit/tier.rs`. ImplicitSlices.MergeNeighbors and ImplicitSlices.SplitHalf give them the semantics of `merge` and `split_half` in `src/tier.rs`.
- The implicit vector calls `ImplicitTier::insert` and `ImplicitTier::remove`, which are not defined either. They are modelled as `insert_at_rank` and `remove_at_rank`.
- `todo!()` bodies are not modelled: `merge_copy` and `get_range_by_rank`/`get_mut_range_by_rank` in `src/tier.rs`, and the draft push's arm for several elements.
- The stubbed operations in `implicit/tiered_vec.rs` (`get_by_rank`, `get_mut_by_rank`, `expand`, `contract`, `insert`, `remove`) and in `implicit_tiered_vec.rs` are `todo!()` and are not modelled.
- The linked `get_mut_by_rank`, the flat `get_mut`/`index_mut`/`iter`/`iter_mut`, and the tiers' `get_mut` variants return references. They are covered by the matching `get` lemmas.
- `Debug`/`fmt` implementations, the benches and `src/lib.rs` are not part of this model.
- `src/error.rs` and `src/tier_error.rs` are mirrored as the `Errors` datatypes; their messages are not modelled.
- `Drop` is modelled as the sequence of elements finalised. `Clone` is modelled as a fresh object with the same slots.
- Amortised cost, allocation failure and concurrency (`Send`/`Sync` bounds) are not modelled.
- The flat `insert` and `push` are modelled with the crate's `expand` on a full vector. The flat `expand` re-reads tiers through raw pointers after moving them; the model merges the pairs as the comments describe.
- `implicit_tiered_vec.rs` repeats `ImplicitTierRingOffsets` (lines 12-50) and the draft vector's `new`, `len`, `is_empty` and `is_full` (lines 62-102). The `RingOffsets` and `DraftImplicitVec` members model both copies.

## Findings

| source | as written | input that shows it | evidently intended | confidence | as-written member | corrected member |
|---|---|---|---|---|---|---|
| src/tier.rs:311-342 | an insertion inside the window that shifts head-ward writes e at the slot of rank r, which after the shift is rank r + 1 | [0, 1, 2], insert(1, 3): 0, 1, 3, 2 (the crate's test at src/tier.rs:539-554 records this output) | e at rank r, as the tail-ward branch and every other variant do | not executed | Tier.RawTier.Insert, Tier.InsertShiftHeadExample | Tier.RawTier.InsertCorrected, Tier.InsertCorrectedShiftHeadExample |
| src/implicit/tier.rs:258-294 | the same head-ward shift puts e at rank r + 1 | [0, 1, 2] in 4 slots, insert_at_rank(1, 3) | e at rank r | not executed | ImplicitTier.InsertAtRank | ImplicitTier.InsertAtRankCorrected |
| implicit/tier.rs:248-284 | the draft's head-ward shift puts e at rank r + 1 | [0, 1, 2] in 4 slots, insert_at_rank(1, 3) | e at rank r | not executed | DraftImplicitTier.ImplicitTier.InsertAtRank | ImplicitTier.InsertAtRankCorrected |
| src/tier.rs:344-387 | `close_gap` loops while `i > gap`; when the window wraps past the end of the buffer after the gap, the loop never runs and a free slot stays inside the window | capacity 4, head at slot 2 holding [7, 8, 9]; remove(1) returns 8 and leaves slots [9, free, 7, free] | the later elements close up: [7, 9] | not executed | Tier.RawTier.Remove, Tier.RemoveWrappedGapExample | Tier.RawTier.RemoveCorrected, Tier.RemoveCorrectedWrappedGapExample |
| src/linked/tier.rs:280-316 | the same `i > gap` loop | the same input | the same | not executed | LinkedTier.Tier.Remove | LinkedTier.Tier.RemoveCorrected |
| src/flat/tier.rs:272-308 | the same `i > gap` loop | the same input | the same | not executed | FlatTier.Tier.Remove | FlatTier.Tier.RemoveCorrected |
| src/implicit/tier.rs:296-344 | the same `i > gap` loop | the same input | the same | not executed | ImplicitTier.RemoveAtRank | ImplicitTier.RemoveAtRankCorrected |
| src/tier.rs:465-477 | `drop` walks from the masked head to the masked tail, which coincide on a full tier, so no element is dropped | a full tier of capacity 2 holding [5, 6] | every element dropped | not executed | Tier.RawTier.Drop, Tier.DropFullExample | Tier.RawTier.DropAll |
| src/linked/tiered_vec.rs:158-185 | the cascade pops each full tier's front and pushes the carry at its back, which rotates the target tier before the insert | tier size 2, [0, 1], insert(1, 9) gives [1, 9, 0] | [0, 9, 1] | not executed | Layout.LinkedInsertReorders | Layout.OrderedInsertedInOrder |
| src/linked/tiered_vec.rs:222-227 | the reverse loop runs up to `tier_idx(num_entries)`, which on a full vector is one past the last tier | tier size 2, [0, 1, 2, 3], remove(0) | stop at the tier of the last element | not executed | Layout.FullRemoveOverruns, Layout.RemoveEndAsWrittenBound | Layout.CascadeEnd, Layout.LinkedRemovedInOrder |
| src/flat/tiered_vec.rs:274-275 | the same loop bound reads tier `num_tiers` | a full flat vector, remove(0) | stop at the tier of the last element | not executed | Layout.FullRemoveOverruns, Layout.RemoveEndAsWrittenBound | Layout.RemoveClosedInOrder |
| src/implicit/tiered_vec.rs:130-138 | `get_mut_by_rank` slices `buffer[tier_idx..tier_idx + tier_size]` rather than from `tier_idx * tier_size` | tier size 2, rank 2 (tier 1): slot 1 + offset is read instead of 2 + offset | the slice `get_by_rank` takes | not executed | ImplicitVec.RankSlotMisplaced | ImplicitVec.RankSlot |
| src/implicit/tiered_vec.rs:320-342 | the swap loop moves only the first tier's tail and the last tier's head, so each middle tier is read one slot early | 1..9 in tiers of 4, remove(0): reads 2, 3, 4, 5, 9, 6, 7, 8 | 2, 3, 4, 5, 6, 7, 8, 9 | not executed | ImplicitTiers.SwapCascadeReorders | ImplicitTiers.SwapCascade |
| src/implicit/tiered_vec.rs:144-155 | the merge turn i takes slots from `i * n` rather than `2i * n` | four full tiers of 4 holding 0..15: merged tier 1 reads 9, 10, 11, 8, 15, 12, 13, 14 | 8 .. 15 | not executed | ImplicitTiers.ExpandTurnScrambles | ImplicitTiers.MergeTurn |
| src/implicit/tiered_vec.rs:173-181 | the split turn i takes old slots from `i * n` rather than `(i / 2) * n` | any contraction of at least two kept tiers: turn i = 2 reads free slots | old tier i / 2's slots | not executed | ImplicitTiers.ContractTurnReadsFreeSlots | ImplicitTiers.SplitTurn |
| src/linked/tier.rs:318-327 | `merge` grows the buffer without `rotate_reset`, so a window that, read in the grown buffer, runs past the old slots reads new, free slots | a tier of 2 with head 2 and tail 3 holding [7], merged with an empty tier of 2 | [7], as src/tier.rs:389-400 does | not executed | LinkedTier.Tier.Merge, LinkedTier.MergeUnrotatedExample | LinkedTier.Tier.MergeCorrected, LinkedTier.MergeRotatedExample |
| src/implicit/tier.rs:46-52 | `is_valid_masked_index` accepts every slot of an empty tier | any empty tier | no slot of an empty tier is valid | not executed | ImplicitTier.EmptyTierSlotsPass, ImplicitTier.Get, ImplicitTier.GetByRank | ImplicitTier.IsValidMaskedIndexCorrected |
| implicit/tier.rs:79-85 | the draft's `contains_masked_rank` reports every slot of an empty tier | any empty tier | no slot contained | not executed | DraftImplicitTier.ImplicitTier.EmptyTierContainsEverySlot | ImplicitTier.IsValidMaskedIndexCorrected |
| implicit/tiered_vec.rs:55-57 | `is_full` reads `offsets[offsets.len()]`, out of bounds on every vector | any vector | read the last offsets | not executed | DraftImplicitVec.ImplicitTieredVec.IsFull | DraftImplicitVec.ImplicitTieredVec.IsFullCorrected |
| tiered_vec.rs:62-80 | `push` returns the length before the push plus a whole tier rather than the new element's index | tier size 2, push onto [] returns 2 | the index of the pushed element | not executed | DraftTieredVec.TieredVec.Push | DraftTieredVec.TieredVec.PushCorrected |
| tier.rs:106-116 | `valid_index` treats a full tier like an empty one and accepts slots only when the masked head is 0 | a full tier whose head has moved to slot 1 | every slot of a full tier is valid | not executed | DraftTier.RawTier.FullTierPassesNoSlot | DraftTier.RawTier.ValidIndexCorrected |
| implicit/tier.rs:248-284 | on an empty tier every slot passes `contains_masked_rank`, so `insert_at_rank` shifts head-ward: the head moves back one and e goes to the slot of head + rank | an empty tier of 4, insert_at_rank(0, e): the new window is the slot behind the head, which stays free, and e lies outside it | rank 0 makes e the only element; any other rank is rejected as disconnected | not executed | DraftImplicitTier.ImplicitTier.InsertAtRank | ImplicitTier.InsertAtRankCorrected |
| implicit/tier.rs:307-329 | on an empty tier `remove_at_rank` takes a free slot and returns it as `Ok` | an empty tier of 4, remove_at_rank(0): an uninitialised value is returned and the length becomes −1 | an error, `TierRankOutOfBoundsError`, with nothing changed | not executed | DraftImplicitTier.ImplicitTier.RemoveAtRank | ImplicitTier.RemoveAtRankCorrected |
