// The two drafts of the implicit tiered vector: implicit_tiered_vec.rs, over
// its own `ImplicitTierOffset` cursor pair, and implicit/tiered_vec.rs, over
// `ImplicitTierRingOffsets`. Both keep a boxed slice of cursor pairs and a
// boxed slice of uninitialised slots, and both have the same `new`, `len`,
// `is_empty` and `is_full`; the second adds `tier_idx`, `get_mut_tier` and
// `get_mut_tier_offset`. The cursor pair of either file is modelled by
// RingOffsets.ImplicitTierRingOffsets, which has the same fields and steps.
//
// A panic (an index out of bounds, a failed `expect`) is the result None.
module DraftImplicitVec {
  import opened Wrappers
  import opened RingOffsets
  import opened Ring

  /** The lengths of the cursor pairs, in order. */
  ghost function LengthsOf(os: seq<ImplicitTierRingOffsets>): (ls: seq<int>)
    reads os
    ensures |ls| == |os| && forall i :: 0 <= i < |os| ==> ls[i] == os[i].Len()
  {
    if os == [] then [] else LengthsOf(os[..|os| - 1]) + [os[|os| - 1].Len()]
  }

  /** What `len` counts: the lengths summed up to, not including, the first zero. */
  function FirstRun(ls: seq<int>): int
  {
    if ls == [] || ls[0] == 0 then 0 else ls[0] + FirstRun(ls[1..])
  }

  /** No length is negative. */
  predicate Natural(ls: seq<int>)
  {
    forall i :: 0 <= i < |ls| ==> ls[i] >= 0
  }

  /** Sum of all the lengths. */
  function Total(ls: seq<int>): int
  {
    if ls == [] then 0 else ls[0] + Total(ls[1..])
  }

  /** Packed tiers of n slots: lengths between 0 and n, and only full tiers before a non-empty one. */
  predicate PackedLengths(ls: seq<int>, n: nat)
  {
    (forall i :: 0 <= i < |ls| ==> 0 <= ls[i] <= n)
    && forall i, j :: 0 <= i < j < |ls| && ls[j] > 0 ==> ls[i] == n
  }

  /** With no negative length, the count is 0 exactly when there is no first tier or it is empty. */
  lemma {:induction false} FirstRunZero(ls: seq<int>)
    requires Natural(ls)
    ensures FirstRun(ls) >= 0
    ensures FirstRun(ls) == 0 <==> ls == [] || ls[0] == 0
  {
    if ls != [] && ls[0] != 0 {
      FirstRunZero(ls[1..]);
    }
  }

  /** Lengths after the first zero do not count: `len` stops there. */
  lemma {:induction false} FirstRunStops(ls: seq<int>, k: nat)
    requires k < |ls| && ls[k] == 0
    ensures FirstRun(ls) == FirstRun(ls[..k + 1])
  {
    if k > 0 && ls[0] != 0 {
      assert ls[1..][..k] == ls[..k + 1][1..];
      FirstRunStops(ls[1..], k - 1);
    }
  }

  /** With no zero among them, every length counts. */
  lemma {:induction false} FirstRunWithoutZero(ls: seq<int>)
    requires forall i :: 0 <= i < |ls| ==> ls[i] != 0
    ensures FirstRun(ls) == Total(ls)
  {
    if ls != [] {
      FirstRunWithoutZero(ls[1..]);
    }
  }

  /** On packed tiers the count is the total: empty tiers come only at the end and hold nothing. */
  lemma {:induction false} FirstRunOfPacked(ls: seq<int>, n: nat)
    requires PackedLengths(ls, n)
    ensures FirstRun(ls) == Total(ls)
  {
    if ls != [] {
      if ls[0] == 0 {
        TotalOfEmpty(ls, n);
      } else {
        assert PackedLengths(ls[1..], n);
        FirstRunOfPacked(ls[1..], n);
      }
    }
  }

  /** Packed lengths behind an empty tier are all 0. */
  lemma {:induction false} TotalOfEmpty(ls: seq<int>, n: nat)
    requires PackedLengths(ls, n) && ls != [] && ls[0] == 0
    ensures Total(ls) == 0
  {
    if |ls| > 1 {
      var first, second := ls[0], ls[1];
      assert second > 0 ==> first == n;
      assert PackedLengths(ls[1..], n);
      TotalOfEmpty(ls[1..], n);
    }
  }

  /**
   * `offsets[i].is_full(capacity)`: None when i is past the last cursor
   * pair, where the indexing panics.
   */
  function PairIsFull(os: seq<ImplicitTierRingOffsets>, i: nat, capacity: nat): (b: Option<bool>)
    reads os
    ensures b.Some? <==> i < |os|
    ensures b.Some? ==> (b.value <==> LengthsOf(os)[i] == capacity)
  {
    if i < |os| then Some(os[i].IsFull(capacity)) else None
  }

  /** On packed tiers of n slots, the last one is full exactly when every one is: the count is n per tier. */
  lemma {:induction false} LastFullIffAllFull(ls: seq<int>, n: nat)
    requires PackedLengths(ls, n) && n > 0 && ls != []
    ensures ls[|ls| - 1] == n <==> FirstRun(ls) == n * |ls|
  {
    FirstRunOfPacked(ls, n);
    if ls[|ls| - 1] == n {
      forall i | 0 <= i < |ls|
        ensures ls[i] == n
      {
        if i < |ls| - 1 {
          assert ls[|ls| - 1] > 0;
        }
      }
      TotalOfConstant(ls, n);
    } else {
      TotalBelow(ls, n, |ls| - 1);
    }
  }

  lemma {:induction false} TotalOfConstant(ls: seq<int>, n: nat)
    requires forall i :: 0 <= i < |ls| ==> ls[i] == n
    ensures Total(ls) == n * |ls|
  {
    if ls != [] {
      TotalOfConstant(ls[1..], n);
    }
  }

  /** With every length at most n and one of them below n, the total is below n per tier. */
  lemma {:induction false} TotalBelow(ls: seq<int>, n: nat, k: nat)
    requires k < |ls| && ls[k] < n
    requires forall i :: 0 <= i < |ls| ==> ls[i] <= n
    ensures Total(ls) < n * |ls|
  {
    if k == 0 {
      TotalAtMost(ls[1..], n);
    } else {
      TotalBelow(ls[1..], n, k - 1);
    }
  }

  lemma {:induction false} TotalAtMost(ls: seq<int>, n: nat)
    requires forall i :: 0 <= i < |ls| ==> ls[i] <= n
    ensures Total(ls) <= n * |ls|
  {
    if ls != [] {
      TotalAtMost(ls[1..], n);
    }
  }

  class ImplicitTieredVec<T> {
    var offsets: seq<ImplicitTierRingOffsets>
    var buffer: seq<Option<T>>

    /**
     * `new(initial_capacity)`: that many cursor pairs, each its own object
     * with both cursors at 0, and that many slots, none of them initialised.
     */
    constructor New(initialCapacity: nat)
      ensures |offsets| == initialCapacity && Capacity() == initialCapacity
      ensures forall i :: 0 <= i < |offsets| ==> fresh(offsets[i]) && offsets[i].head == 0 && offsets[i].tail == 0
      ensures forall i, j :: 0 <= i < j < |offsets| ==> offsets[i] != offsets[j]
      ensures forall k :: 0 <= k < |buffer| ==> buffer[k] == None
      ensures FirstRun(LengthsOf(offsets)) == 0
    {
      var os: seq<ImplicitTierRingOffsets> := [];
      while |os| < initialCapacity
        invariant |os| <= initialCapacity
        invariant forall i :: 0 <= i < |os| ==> fresh(os[i]) && os[i].head == 0 && os[i].tail == 0
        invariant forall i, j :: 0 <= i < j < |os| ==> os[i] != os[j]
      {
        var o := new ImplicitTierRingOffsets.Default();
        os := os + [o];
      }
      offsets := os;
      buffer := seq(initialCapacity, _ => None);
      new;
      if initialCapacity > 0 {
        assert LengthsOf(offsets)[0] == 0;
      }
    }

    /** `capacity`: the number of slots. */
    function Capacity(): nat
      reads this
    {
      |buffer|
    }

    /** `len`: adds up the tiers' lengths, stopping at the first empty tier. */
    method Len() returns (l: int)
      ensures l == FirstRun(LengthsOf(offsets))
    {
      ghost var ls := LengthsOf(offsets);
      l := 0;
      var i := 0;
      while i < |offsets|
        invariant 0 <= i <= |offsets|
        invariant l + FirstRun(ls[i..]) == FirstRun(ls)
      {
        var n := offsets[i].Len();
        if n == 0 {
          break;
        }
        assert ls[i..][1..] == ls[i + 1..];
        l := l + n;
        i := i + 1;
      }
    }

    /**
     * `is_empty`: the first tier is empty (with no tier at all, indexing it
     * panics). With no negative length that is exactly a count of 0.
     */
    function IsEmpty(): (b: Option<bool>)
      reads this, offsets
      ensures b.Some? <==> |offsets| > 0
      ensures b.Some? && Natural(LengthsOf(offsets)) ==> (b.value <==> FirstRun(LengthsOf(offsets)) == 0)
    {
      if |offsets| == 0 then None
      else
        var ls := LengthsOf(offsets);
        assert Natural(ls) ==> (ls[0] == 0 <==> FirstRun(ls) == 0) by {
          if Natural(ls) {
            FirstRunZero(ls);
          }
        }
        Some(offsets[0].IsEmpty())
    }

    /**
     * `is_full` as written: it asks the cursor pair at index
     * `offsets.len()`, one past the last, so it never returns.
     */
    function IsFull(): (b: Option<bool>)
      reads this, offsets
      ensures b == None
    {
      PairIsFull(offsets, |offsets|, |offsets|)
    }

    /**
     * `is_full` reading the last cursor pair, with `offsets.len()` slots per
     * tier as the draft passes it: on packed tiers it holds exactly when the
     * count is that many slots in every tier.
     */
    function IsFullCorrected(): (b: Option<bool>)
      reads this, offsets
      ensures b.Some? <==> |offsets| > 0
      ensures b.Some? && PackedLengths(LengthsOf(offsets), |offsets|) ==>
        (b.value <==> FirstRun(LengthsOf(offsets)) == |offsets| * |offsets|)
    {
      if |offsets| == 0 then None
      else
        var ls := LengthsOf(offsets);
        assert PackedLengths(ls, |offsets|) ==> (ls[|ls| - 1] == |offsets| <==> FirstRun(ls) == |offsets| * |offsets|) by {
          if PackedLengths(ls, |offsets|) {
            LastFullIffAllFull(ls, |offsets|);
          }
        }
        PairIsFull(offsets, |offsets| - 1, |offsets|)
    }

    /** `tier_idx(rank)`: the quotient by the capacity, so rank falls in that many whole capacities and the next. */
    function TierIdx(rank: nat): (ti: nat)
      reads this
      requires Capacity() > 0
      ensures ti * Capacity() <= rank < (ti + 1) * Capacity()
    {
      rank / Capacity()
    }

    /**
     * `get_mut_tier(rank)`: the slots from `tier_idx` up to `tier_idx +
     * capacity`. Those are in the buffer only for a tier index of 0, that is
     * for a rank below the capacity, and then they are the whole buffer.
     */
    function GetMutTier(rank: nat): (r: Option<seq<Option<T>>>)
      reads this
      requires Capacity() > 0
      ensures r.Some? <==> rank < Capacity()
      ensures r.Some? ==> r.value == buffer
    {
      var ti := TierIdx(rank);
      if ti + Capacity() <= |buffer| then Some(buffer[ti..ti + Capacity()]) else None
    }

    /** `get_mut_tier_offset(rank)`: the cursor pair at `tier_idx(rank)`; the `expect` fails past the last one. */
    function GetMutTierOffset(rank: nat): (r: Option<ImplicitTierRingOffsets>)
      reads this
      requires Capacity() > 0
      ensures r.Some? <==> rank < |offsets| * Capacity()
      ensures r.Some? ==> exists ti :: 0 <= ti < |offsets| && ti * Capacity() <= rank < (ti + 1) * Capacity() && r.value == offsets[ti]
    {
      var ti := TierIdx(rank);
      if ti < |offsets| then Some(offsets[ti])
      else
        assert |offsets| * Capacity() <= ti * Capacity() by {
          MulMonotone(|offsets|, ti, Capacity());
        }
        None
    }
  }
}
