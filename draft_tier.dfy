// The first draft of a tier (tier.rs): `RawTier<T, N>` over a fixed array of
// N slots, with cursors that only move forward. It can append at the back and
// take from the front, so it behaves as a bounded FIFO queue.
//
// The cursors are unbounded naturals; the crate's `wrapping_add` on usize
// differs from them only after 2^64 steps.
module DraftTier {
  import opened Ring
  import opened Wrappers
  import opened Slots

  /** The draft's own error type: a rejected element, or nothing to take. */
  datatype TierError<T> = TierInsertionError(elem: T) | TierEmptyError

  class RawTier<T> {
    const arr: array<Option<T>>
    var head: nat
    var tail: nat

    /** The window's slots hold elements and no other slot does. */
    ghost predicate Valid()
      reads this, arr
    {
      arr.Length > 0 && head <= tail <= head + arr.Length
      && Live(arr[..], head, tail - head) && Dead(arr[..], head, tail - head)
    }

    /** The elements, oldest first. */
    function Elements(): seq<T>
      reads this, arr
      requires Valid()
    {
      Contents(arr[..], head, tail - head)
    }

    /** `new`: N must be a power of two; both cursors start at 0 and no slot holds an element. */
    constructor(n: nat)
      requires IsPowerOfTwo(n)
      ensures Valid() && fresh(arr) && arr.Length == n
      ensures head == 0 && tail == 0 && Elements() == []
    {
      arr := new Option<T>[n](_ => None);
      head, tail := 0, 0;
      new;
      ByRankIsRotation(arr[..], 0);
      ListedAs(arr[..], 0, 0, [], arr[..]);
    }

    /** A tier whose cursors and slots are as they were is still valid, with the same elements. */
    twostate lemma Unchanged()
      requires old(Valid()) && unchanged(this, arr)
      ensures Valid() && Elements() == old(Elements())
    {
      assert arr[..] == old(arr[..]);
    }

    /** `len`: the distance between the cursors is the number of elements. */
    function Len(): (n: nat)
      reads this, arr
      requires Valid()
      ensures n == |Elements()|
    {
      tail - head
    }

    /** `is_empty`: the cursors coincide exactly when there are no elements. */
    function IsEmpty(): (b: bool)
      reads this, arr
      requires Valid()
      ensures b <==> Elements() == []
    {
      head == tail
    }

    /** `is_full`: every slot holds an element. */
    function IsFull(): (b: bool)
      reads this, arr
      requires Valid()
      ensures b <==> |Elements()| == arr.Length
    {
      Len() == arr.Length
    }

    /**
     * `valid_index(m)`: with the masked cursors in order, every slot when the
     * masked tail is 0 and otherwise the slots from the masked head up to the
     * masked tail; else the two runs around the end of the array. On a tier
     * that is neither empty nor full that is the window. When the masked
     * cursors coincide it passes every slot if they sit at 0 and none
     * otherwise, whether the tier is empty or full.
     */
    function ValidIndex(m: nat): (b: bool)
      reads this, arr
      requires Valid() && m < arr.Length
      ensures b <==> if 0 < tail - head < arr.Length then InWindow(head, tail - head, arr.Length, m) else head % arr.Length == 0
    {
      WindowByMaskedCursors(head, tail, arr.Length, m);
      var mh, mt := Mask(head, arr.Length), Mask(tail, arr.Length);
      if mh <= mt then mt == 0 || (m >= mh && m < mt)
      else m < mt || m >= mh
    }

    /** A new tier, or one whose cursors both sit at a multiple of N: every slot passes and none holds an element. */
    lemma EmptyTierPassesEverySlot(m: nat)
      requires Valid() && head == tail && head % arr.Length == 0 && m < arr.Length
      ensures ValidIndex(m) && arr[m] == None
    {
      var w := ByRank(arr[..], head);
      RankSlotRoundTrip(head, m, arr.Length);
      ByRankSlot(arr[..], head, RankOf(head, m, arr.Length));
      assert w[0..][RankOf(head, m, arr.Length)] == w[RankOf(head, m, arr.Length)];
    }

    /** A full tier whose masked head is not 0: no slot passes, though every slot holds an element. */
    lemma FullTierPassesNoSlot(m: nat)
      requires Valid() && tail - head == arr.Length && head % arr.Length != 0 && m < arr.Length
      ensures !ValidIndex(m) && arr[m].Some?
    {
      RankSlotRoundTrip(head, m, arr.Length);
      SlotOfElement(arr[..], head, tail - head, RankOf(head, m, arr.Length));
    }

    /** `valid_index` with the full tier told apart from the empty one: exactly the window. */
    function ValidIndexCorrected(m: nat): (b: bool)
      reads this, arr
      requires Valid() && m < arr.Length
      ensures b <==> InWindow(head, tail - head, arr.Length, m)
      ensures b ==> arr[m] == Some(Elements()[RankOf(head, m, arr.Length)])
    {
      WindowByMaskedCursors(head, tail, arr.Length, m);
      var mh, mt := Mask(head, arr.Length), Mask(tail, arr.Length);
      var b := if IsFull() then true else if mh <= mt then m >= mh && m < mt else m < mt || m >= mh;
      if b then SlotHeld(m); b else b
    }

    lemma SlotHeld(m: nat)
      requires Valid() && m < arr.Length && InWindow(head, tail - head, arr.Length, m)
      ensures arr[m] == Some(Elements()[RankOf(head, m, arr.Length)])
    {
      RankSlotRoundTrip(head, m, arr.Length);
      SlotOfElement(arr[..], head, tail - head, RankOf(head, m, arr.Length));
    }

    /**
     * `get(idx)`: the slot `idx` masks to, if `valid_index` passes it. What
     * it returns is always the element of that slot's rank; on a tier that
     * is neither empty nor full it returns one exactly for the window, and
     * on a full tier whose masked head is not 0 it returns none.
     */
    function Get(idx: nat): (r: Option<T>)
      reads this, arr
      requires Valid()
      ensures r.Some? ==> (InWindow(head, tail - head, arr.Length, Mask(idx, arr.Length))
        && r.value == Elements()[RankOf(head, Mask(idx, arr.Length), arr.Length)])
      ensures 0 < tail - head < arr.Length ==> (r.Some? <==> InWindow(head, tail - head, arr.Length, Mask(idx, arr.Length)))
      ensures tail - head == arr.Length && head % arr.Length != 0 ==> r == None
    {
      var m := Mask(idx, arr.Length);
      if !ValidIndex(m) then None else SlotFacts(m); arr[m]
    }

    /** A slot holds an element exactly when it is in the window, and then it holds the element of its rank. */
    lemma SlotFacts(m: nat)
      requires Valid() && m < arr.Length
      ensures arr[m].Some? <==> InWindow(head, tail - head, arr.Length, m)
      ensures arr[m].Some? ==> arr[m] == Some(Elements()[RankOf(head, m, arr.Length)])
    {
      var w, r, len := ByRank(arr[..], head), RankOf(head, m, arr.Length), tail - head;
      RankSlotRoundTrip(head, m, arr.Length);
      ByRankSlot(arr[..], head, r);
      if r < len {
        SlotHeld(m);
      } else {
        assert w[len..][r - len] == w[r];
      }
    }

    /** Cursors a whole number of laps apart address the same slot: `get(4)` and `get(0)` agree on four slots. */
    lemma GetWrapsAround(idx: nat)
      requires Valid()
      ensures Get(idx + arr.Length) == Get(idx)
    {
      ModAddMultiple(idx, 1, arr.Length);
    }

    /** On a tier whose head never moved, `get(m)` is the element of rank m, if there is one. */
    lemma GetFromUnmovedHead(m: nat)
      requires Valid() && head == 0 && 0 < tail && m < arr.Length
      ensures Get(m) == if m < tail then Some(Elements()[m]) else None
    {
      ModSmall(m, arr.Length);
      if m < tail {
        SlotHeld(m);
      }
    }

    /**
     * `push_back`: a full tier hands the element back; otherwise the element
     * goes into the slot at the masked tail, which is returned, and the tail
     * moves on.
     */
    method PushBack(e: T) returns (r: Result<nat, TierError<T>>)
      requires Valid()
      modifies this, arr
      ensures Valid()
      ensures old(IsFull()) ==> r == Err(TierInsertionError(e)) && unchanged(this) && unchanged(arr)
      ensures !old(IsFull()) ==> (r == Ok(Mask(old(tail), arr.Length)) && arr[r.value] == Some(e)
        && head == old(head) && tail == old(tail) + 1 && Elements() == old(Elements()) + [e])
    {
      if !IsFull() {
        ghost var buf, len := arr[..], tail - head;
        var idx := Mask(tail, arr.Length);
        tail := tail + 1;
        arr[idx] := Some(e);
        assert arr[..] == buf[SlotOf(head, len, arr.Length) := Some(e)];
        PushBackListing(buf, head, len, e, arr[..], len + 1);
        r := Ok(idx);
      } else {
        r := Err(TierInsertionError(e));
      }
    }

    /** `pop_front`: an empty tier has nothing to give; otherwise the oldest element is taken and the head moves on. */
    method PopFront() returns (r: Result<T, TierError<T>>)
      requires Valid()
      modifies this, arr
      ensures Valid()
      ensures old(IsEmpty()) ==> r == Err(TierEmptyError) && unchanged(this) && unchanged(arr)
      ensures !old(IsEmpty()) ==> (r == Ok(old(Elements())[0])
        && head == old(head) + 1 && tail == old(tail) && Elements() == old(Elements())[1..])
    {
      if !IsEmpty() {
        ghost var buf, len := arr[..], tail - head;
        var idx := Mask(head, arr.Length);
        head := head + 1;
        SlotOfElement(buf, head - 1, len, 0);
        var x := arr[idx].value;
        arr[idx] := None;
        assert arr[..] == buf[SlotOf(head - 1, 0, arr.Length) := None];
        PopFrontListing(buf, head - 1, len, arr[..], head, len - 1);
        r := Ok(x);
      } else {
        r := Err(TierEmptyError);
      }
    }
  }
}
