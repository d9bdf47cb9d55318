// The cursor pair of an implicit tier (src/implicit/tier_ring_offsets.rs, its
// earlier copy implicit/tier_ring_offsets.rs, and the `ImplicitTierOffset`
// struct of implicit_tiered_vec.rs, which has the same fields and steps
// without the masks). The tier's slots live in a slice owned by someone else;
// this object only says where the elements start and end.
//
// The cursors are unbounded integers. The crate's usize cursors are their
// residues modulo 2^64: `Len` and the masks state that they agree with the
// wrapping arithmetic as long as fewer than 2^64 elements are stored.
module RingOffsets {
  import opened Ring

  /** For a power-of-two capacity, masking the usize residue of a cursor picks the model's slot. */
  lemma MaskOfResidueOfPower(c: int, capacity: nat)
    requires IsPowerOfTwo(capacity) && capacity <= WORD
    ensures BitAnd(c % WORD, capacity - 1) == Mask(c, capacity)
  {
    Pow2IsPowerOfTwo(64);
    PowerOfTwoDivides(capacity, WORD);
    BitAndMaskIsMod(c % WORD, capacity);
    ResidueOfResidue(c, capacity, WORD);
  }

  /** Below 2^64 elements, `tail.wrapping_sub(head)` on the usize residues is the model's length. */
  lemma WrappingLen(head: int, tail: int)
    ensures 0 <= tail - head < WORD ==> (tail % WORD - head % WORD) % WORD == tail - head
  {
    if 0 <= tail - head < WORD {
      WrappedLength(head, tail, WORD);
    }
  }

  class ImplicitTierRingOffsets {
    var head: int
    var tail: int

    /** `Default`: both cursors at 0, an empty tier. */
    constructor Default()
      ensures head == 0 && tail == 0 && Len() == 0 && IsEmpty()
    {
      head, tail := 0, 0;
    }

    /**
     * `len`: `tail.wrapping_sub(head)`. For a window of fewer than 2^64
     * slots, the wrapping difference of the usize cursors is the number of
     * elements.
     */
    function Len(): int
      reads this
    {
      tail - head
    }

    /** `Len` is the wrapping difference of the usize cursors while the window is shorter than 2^64. */
    lemma LenIsWrappingSub()
      ensures 0 <= Len() < WORD ==> (tail % WORD - head % WORD) % WORD == Len()
    {
      WrappingLen(head, tail);
    }

    /** `is_empty`: the cursors coincide. */
    function IsEmpty(): (b: bool)
      reads this
      ensures b <==> Len() == 0
    {
      head == tail
    }

    /** `is_full(capacity)`: the window spans the whole tier. */
    function IsFull(capacity: nat): (b: bool)
      reads this
      ensures b <==> Len() == capacity
    {
      Len() == capacity
    }

    /** `head_forward`: the first element leaves the window. */
    method HeadForward()
      modifies this
      ensures head == old(head) + 1 && tail == old(tail) && Len() == old(Len()) - 1
    {
      head := head + 1;
    }

    /** `head_backward`: one more slot enters the window at the front. */
    method HeadBackward()
      modifies this
      ensures head == old(head) - 1 && tail == old(tail) && Len() == old(Len()) + 1
    {
      head := head - 1;
    }

    /** `tail_forward`: one more slot enters the window at the back. */
    method TailForward()
      modifies this
      ensures tail == old(tail) + 1 && head == old(head) && Len() == old(Len()) + 1
    {
      tail := tail + 1;
    }

    /** `tail_backward`: the last element leaves the window. */
    method TailBackward()
      modifies this
      ensures tail == old(tail) - 1 && head == old(head) && Len() == old(Len()) - 1
    {
      tail := tail - 1;
    }

    /**
     * `masked_head(capacity)`: the slot of the first element, a slot of the
     * tier; for a power-of-two capacity it is `head & (capacity - 1)` on the
     * usize cursor.
     */
    function MaskedHead(capacity: nat): (m: nat)
      reads this
      requires capacity > 0
      ensures m < capacity
    {
      Mask(head, capacity)
    }

    /** `masked_tail(capacity)`: the slot after the last element, likewise. */
    function MaskedTail(capacity: nat): (m: nat)
      reads this
      requires capacity > 0
      ensures m < capacity
    {
      Mask(tail, capacity)
    }

    /** For a power-of-two capacity, both masks are the bitwise AND of the usize cursor with capacity - 1. */
    lemma MaskedCursorsAreBitAnd(capacity: nat)
      requires IsPowerOfTwo(capacity) && capacity <= WORD
      ensures MaskedHead(capacity) == BitAnd(head % WORD, capacity - 1)
      ensures MaskedTail(capacity) == BitAnd(tail % WORD, capacity - 1)
    {
      MaskOfResidueOfPower(head, capacity);
      MaskOfResidueOfPower(tail, capacity);
    }
  }
}
