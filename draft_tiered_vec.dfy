// The first draft of a tiered vector (tiered_vec.rs): a growing list of draft
// tiers of `max_tier_size` slots each, filled by appending only. Every tier
// but the last is full, the last holds at least one element, and no tier's
// head ever moves, so index `idx` lives in tier `idx / max_tier_size` at
// slot `idx % max_tier_size`.
//
// The draft calls `Tier::new(max_tier_size)` and `push`, which the draft tier
// spells `RawTier::new` with a const size and `push_back`; they are read as
// those.
module DraftTieredVec {
  import opened Ring
  import opened Wrappers
  import opened Tiers
  import opened DraftTier

  /** Index i*n + j of a concatenation of parts of length n (the last one possibly shorter) is slot j of part i. */
  lemma {:induction false} FlattenUniform<T>(parts: seq<seq<T>>, n: nat, i: nat, j: nat)
    requires i < |parts| && j < |parts[i]|
    requires forall k :: 0 <= k < i ==> |parts[k]| == n
    ensures i * n + j < |Flatten(parts)| && Flatten(parts)[i * n + j] == parts[i][j]
  {
    if i == 0 {
      assert Flatten(parts) == parts[0] + Flatten(parts[1..]);
    } else {
      FlattenUniform(parts[1..], n, i - 1, j);
      MulStep(i - 1, n);
      assert Flatten(parts) == parts[0] + Flatten(parts[1..]);
      assert i * n + j == |parts[0]| + ((i - 1) * n + j);
    }
  }

  /** The length of a concatenation whose parts but the last have length n. */
  lemma {:induction false} FlattenUniformLength<T>(parts: seq<seq<T>>, n: nat)
    requires |parts| > 0 && forall k :: 0 <= k < |parts| - 1 ==> |parts[k]| == n
    ensures |Flatten(parts)| == (|parts| - 1) * n + |parts[|parts| - 1]|
  {
    if |parts| == 1 {
      FlattenOne(parts[0]);
      assert parts == [parts[0]];
    } else {
      FlattenUniformLength(parts[1..], n);
      MulStep(|parts| - 2, n);
      assert Flatten(parts) == parts[0] + Flatten(parts[1..]);
    }
  }

  /**
   * In a concatenation of parts of length n, the last one non-empty and no
   * longer: index i*n + j is an index of the whole exactly when j is one of
   * part i's, and then it is that part's element j.
   */
  lemma PackedSlot<T>(parts: seq<seq<T>>, n: nat, i: nat, j: nat)
    requires n > 0 && |parts| > 0 && 0 < |parts[|parts| - 1]| <= n
    requires forall k :: 0 <= k < |parts| - 1 ==> |parts[k]| == n
    requires i < |parts| && j < n
    ensures i * n + j < |Flatten(parts)| <==> j < |parts[i]|
    ensures j < |parts[i]| ==> Flatten(parts)[i * n + j] == parts[i][j]
  {
    var last := |parts| - 1;
    FlattenUniformLength(parts, n);
    if i < last {
      MulStep(i, n);
      MulMonotone(i + 1, last, n);
      FlattenUniform(parts, n, i, j);
    } else if j < |parts[i]| {
      FlattenUniform(parts, n, i, j);
    }
  }

  /** Past the last part, a whole part's worth of indices at a time, there is nothing. */
  lemma PackedBeyond<T>(parts: seq<seq<T>>, n: nat, k: nat)
    requires n > 0 && |parts| > 0 && 0 < |parts[|parts| - 1]| <= n
    requires forall i :: 0 <= i < |parts| - 1 ==> |parts[i]| == n
    requires k >= |parts|
    ensures k * n >= |Flatten(parts)|
  {
    FlattenUniformLength(parts, n);
    MulStep(|parts| - 1, n);
    MulMonotone(|parts|, k, n);
  }

  /** Tier i, named so that the facts about each tier are drawn only where they are asked for. */
  ghost function Nth<T>(ts: seq<RawTier<T>>, i: nat): RawTier<T>
    requires i < |ts|
  {
    ts[i]
  }

  /** A tier of n slots whose head never moved, holding the elements p. */
  ghost predicate Holds<T>(t: RawTier<T>, n: nat, p: seq<T>)
    reads t, t.arr
  {
    t.Valid() && t.arr.Length == n && t.head == 0 && t.Elements() == p
  }

  class TieredVec<T> {
    const maxTierSize: nat
    var tiers: seq<RawTier<T>>
    /** The elements of each tier, tier by tier. */
    ghost var parts: seq<seq<T>>
    /** The tiers and their arrays. */
    ghost var Repr: set<object>

    /**
     * Distinct tiers over distinct arrays, each of `maxTierSize` slots with
     * an unmoved head and holding its part; all full but the last, which is
     * not empty.
     */
    ghost predicate Valid()
      reads this, Repr
    {
      IsPowerOfTwo(maxTierSize) && |parts| == |tiers|
      && (forall i :: 0 <= i < |tiers| ==> tiers[i] in Repr && tiers[i].arr in Repr)
      && (forall i, j :: 0 <= i < j < |tiers| ==> tiers[i] != tiers[j] && tiers[i].arr != tiers[j].arr)
      && (forall i {:trigger Nth(tiers, i)} :: 0 <= i < |tiers| ==> Holds(Nth(tiers, i), maxTierSize, parts[i]))
      && (forall i :: 0 <= i < |parts| ==> 0 < |parts[i]| <= maxTierSize)
      && (forall i :: 0 <= i < |parts| - 1 ==> |parts[i]| == maxTierSize)
    }

    /** What the invariant says of tier i. */
    lemma TierFacts(i: nat)
      requires Valid() && i < |tiers|
      ensures tiers[i].Valid() && tiers[i].arr.Length == maxTierSize && tiers[i].head == 0 && tiers[i].Elements() == parts[i]
    {
      assert Holds(Nth(tiers, i), maxTierSize, parts[i]);
    }

    /** The elements of the vector: the tiers' elements one tier after another. */
    ghost function Contents(): seq<T>
      reads this
    {
      Flatten(parts)
    }

    /** `new`: no tiers yet. The tier size must be a power of two for the tiers to be built. */
    constructor(maxTierSize: nat)
      requires IsPowerOfTwo(maxTierSize)
      ensures Valid() && Contents() == [] && this.maxTierSize == maxTierSize
    {
      this.maxTierSize := maxTierSize;
      tiers, parts, Repr := [], [], {};
    }

    /** `tier_index` and `tier_internal_index`: an index is recovered from its tier and its place in the tier. */
    function TierIndex(idx: nat): (i: nat)
      reads this
      requires maxTierSize > 0
      ensures Start(maxTierSize, i) <= idx < Start(maxTierSize, i + 1)
    {
      StartOfQuotient(maxTierSize, idx);
      StartShift(maxTierSize, idx / maxTierSize);
      idx / maxTierSize
    }

    function TierInternalIndex(idx: nat): (j: nat)
      reads this
      requires maxTierSize > 0
      ensures j < maxTierSize && TierIndex(idx) * maxTierSize + j == idx
    {
      idx % maxTierSize
    }

    /** `get(idx)`: the element at index `idx`, if there is one. */
    function Get(idx: nat): (r: Option<T>)
      reads this, Repr
      requires Valid()
      ensures r == if idx < |Contents()| then Some(Contents()[idx]) else None
    {
      PowerOfTwoPositive(maxTierSize);
      var ti, j := TierIndex(idx), TierInternalIndex(idx);
      if ti < |tiers| then TierFacts(ti); GetAt(ti, j); tiers[ti].Get(j)
      else BeyondTiers(ti); None
    }

    /** Slot j of tier ti is index ti * maxTierSize + j of the vector. */
    lemma GetAt(ti: nat, j: nat)
      requires Valid() && ti < |tiers| && j < maxTierSize && tiers[ti].Valid()
      ensures tiers[ti].Get(j) == if ti * maxTierSize + j < |Contents()| then Some(Contents()[ti * maxTierSize + j]) else None
    {
      TierFacts(ti);
      tiers[ti].GetFromUnmovedHead(j);
      PackedSlot(parts, maxTierSize, ti, j);
    }

    /** From tier k on, when there are no more tiers, there are no more elements. */
    lemma BeyondTiers(k: nat)
      requires Valid() && k >= |tiers|
      ensures k * maxTierSize >= |Contents()|
    {
      if |tiers| > 0 {
        PowerOfTwoPositive(maxTierSize);
        PackedBeyond(parts, maxTierSize, k);
      }
    }

    /** The contents of the tiers but the last, and of the last. */
    lemma ContentsSplitLast()
      requires Valid() && |tiers| > 0
      ensures Contents() == Flatten(parts[..|parts| - 1]) + parts[|parts| - 1]
      ensures |Flatten(parts[..|parts| - 1])| == (|parts| - 1) * maxTierSize
    {
      var n := |parts|;
      assert parts == parts[..n - 1] + [parts[n - 1]];
      FlattenConcat(parts[..n - 1], [parts[n - 1]]);
      FlattenOne(parts[n - 1]);
      FlattenUniformLength(parts, maxTierSize);
    }

    /**
     * `add_tier_and_insert`: a new tier holding just `data` goes at the end.
     * The previous last tier, if any, is full.
     */
    method AddTierAndInsert(data: T)
      requires Valid() && (|tiers| == 0 || |parts[|parts| - 1]| == maxTierSize)
      modifies this
      ensures Valid() && Contents() == old(Contents()) + [data]
      ensures |tiers| == old(|tiers|) + 1 && |parts[|parts| - 1]| == 1
      ensures fresh(Repr - old(Repr))
    {
      var t := new RawTier<T>(maxTierSize);
      var r := t.PushBack(data);
      assert Holds(t, maxTierSize, [data]);
      tiers, parts, Repr := tiers + [t], parts + [[data]], Repr + {t, t.arr};
      assert tiers[..|tiers| - 1] == old(tiers) && parts[..|parts| - 1] == old(parts);
      assert Repr - old(Repr) <= {t, t.arr};
      TierAppended();
      FlattenConcat(old(parts), [[data]]);
      FlattenOne([data]);
    }

    /** A fresh tier holding one element, appended after a full last tier, keeps the vector valid. */
    twostate lemma TierAppended()
      requires old(Valid()) && |tiers| == |old(tiers)| + 1 && tiers[..|tiers| - 1] == old(tiers)
      requires (|old(tiers)| == 0 || |old(parts)[|old(parts)| - 1]| == maxTierSize)
      requires |parts| == |tiers| && parts[..|parts| - 1] == old(parts) && |parts[|parts| - 1]| == 1
      requires fresh(tiers[|tiers| - 1]) && fresh(tiers[|tiers| - 1].arr)
      requires Repr == old(Repr) + {tiers[|tiers| - 1], tiers[|tiers| - 1].arr}
      requires forall i :: 0 <= i < |tiers| - 1 ==> unchanged(tiers[i]) && unchanged(tiers[i].arr)
      requires Holds(tiers[|tiers| - 1], maxTierSize, parts[|parts| - 1])
      ensures Valid()
    {
      AppendedTiersHold();
      AppendedTiersDistinct();
    }

    twostate lemma AppendedTiersHold()
      requires old(Valid()) && |tiers| == |old(tiers)| + 1 && tiers[..|tiers| - 1] == old(tiers)
      requires (|old(tiers)| == 0 || |old(parts)[|old(parts)| - 1]| == maxTierSize)
      requires |parts| == |tiers| && parts[..|parts| - 1] == old(parts) && |parts[|parts| - 1]| == 1
      requires fresh(tiers[|tiers| - 1]) && fresh(tiers[|tiers| - 1].arr)
      requires Repr == old(Repr) + {tiers[|tiers| - 1], tiers[|tiers| - 1].arr}
      requires forall i :: 0 <= i < |tiers| - 1 ==> unchanged(tiers[i]) && unchanged(tiers[i].arr)
      requires Holds(tiers[|tiers| - 1], maxTierSize, parts[|parts| - 1])
      ensures forall i :: 0 <= i < |tiers| ==> tiers[i] in Repr && tiers[i].arr in Repr && Holds(Nth(tiers, i), maxTierSize, parts[i])
      ensures forall i :: 0 <= i < |parts| ==> 0 < |parts[i]| <= maxTierSize
      ensures forall i :: 0 <= i < |parts| - 1 ==> |parts[i]| == maxTierSize
    {
      var n := |tiers|;
      PowerOfTwoPositive(maxTierSize);
      forall i | 0 <= i < n
        ensures tiers[i] in Repr && tiers[i].arr in Repr && Holds(Nth(tiers, i), maxTierSize, parts[i])
        ensures 0 < |parts[i]| <= maxTierSize && (i < n - 1 ==> |parts[i]| == maxTierSize)
      {
        if i < n - 1 {
          assert tiers[i] == old(tiers)[i] && parts[i] == old(parts)[i];
          assert old(Holds(Nth(tiers, i), maxTierSize, parts[i]));
          tiers[i].Unchanged();
        }
      }
    }

    twostate lemma AppendedTiersDistinct()
      requires old(Valid()) && |tiers| == |old(tiers)| + 1 && tiers[..|tiers| - 1] == old(tiers)
      requires fresh(tiers[|tiers| - 1]) && fresh(tiers[|tiers| - 1].arr)
      ensures forall i, j :: 0 <= i < j < |tiers| ==> tiers[i] != tiers[j] && tiers[i].arr != tiers[j].arr
    {
      var n := |tiers|;
      forall i, j | 0 <= i < j < n
        ensures tiers[i] != tiers[j] && tiers[i].arr != tiers[j].arr
      {
        if j < n - 1 {
          assert tiers[i] == old(tiers)[i] && tiers[j] == old(tiers)[j];
        } else {
          assert old(allocated(tiers[i])) && old(allocated(tiers[i].arr));
        }
      }
    }

    /**
     * `push` as written: the element goes to the back of the last tier, or
     * into a new tier when there is none or the last is full, and that always
     * works. The index returned is one tier's worth past where the element
     * went, so `get` finds nothing there.
     */
    method Push(data: T) returns (idx: nat)
      requires Valid()
      modifies this, Repr
      ensures Valid() && Contents() == old(Contents()) + [data]
      ensures idx == |old(Contents())| + maxTierSize && Get(idx) == None
      ensures fresh(Repr - old(Repr))
    {
      PowerOfTwoPositive(maxTierSize);
      if |tiers| > 0 {
        var slot := PushToLast(data);
        if slot.Some? {
          NextTierStart(|tiers|, maxTierSize);
          return |tiers| * maxTierSize + slot.value;
        }
        AddTierAndInsert(data);
      } else {
        AddTierAndInsert(data);
      }
      LastTierHoldsOne();
      NextTierStart(|tiers|, maxTierSize);
      idx := |tiers| * maxTierSize;
    }

    /** `push` returning the index the element went to: it reads back at once. */
    method PushCorrected(data: T) returns (idx: nat)
      requires Valid()
      modifies this, Repr
      ensures Valid() && Contents() == old(Contents()) + [data]
      ensures idx == |old(Contents())| && Get(idx) == Some(data)
      ensures fresh(Repr - old(Repr))
    {
      PowerOfTwoPositive(maxTierSize);
      if |tiers| > 0 {
        var slot := PushToLast(data);
        if slot.Some? {
          return (|tiers| - 1) * maxTierSize + slot.value;
        }
        AddTierAndInsert(data);
      } else {
        AddTierAndInsert(data);
      }
      LastTierHoldsOne();
      idx := (|tiers| - 1) * maxTierSize;
    }

    lemma LastTierHoldsOne()
      requires Valid() && |tiers| > 0
      requires |parts[|parts| - 1]| == 1
      ensures |Contents()| == (|tiers| - 1) * maxTierSize + 1
    {
      ContentsSplitLast();
    }

    /**
     * `tiers.last_mut().push(data)`: when the last tier has room the element
     * goes to its back and the slot, which is also its rank there, comes
     * back; when it is full nothing changes.
     */
    method PushToLast(data: T) returns (slot: Option<nat>)
      requires Valid() && |tiers| > 0
      modifies this, tiers[|tiers| - 1], tiers[|tiers| - 1].arr
      ensures Valid() && tiers == old(tiers) && |parts| == |old(parts)| && Repr == old(Repr)
      ensures slot.None? ==> |parts[|parts| - 1]| == maxTierSize && Contents() == old(Contents())
      ensures slot.Some? ==> (Contents() == old(Contents()) + [data]
        && slot.value == |old(Contents())| - (|tiers| - 1) * maxTierSize)
    {
      var n := |tiers|;
      ContentsSplitLast();
      TierFacts(n - 1);
      PowerOfTwoPositive(maxTierSize);
      if tiers[n - 1].tail < maxTierSize {
        ModSmall(tiers[n - 1].tail, maxTierSize);
      }
      var r := PushBackLast(data);
      ContentsSplitLast();
      if r.Ok? {
        slot := Some(r.value);
      } else {
        slot := None;
      }
    }

    /** `push_back` on the last tier, which is the only part that changes. */
    method PushBackLast(data: T) returns (r: Result<nat, TierError<T>>)
      requires Valid() && |tiers| > 0
      modifies this, tiers[|tiers| - 1], tiers[|tiers| - 1].arr
      ensures Valid() && tiers == old(tiers) && |parts| == |old(parts)| && Repr == old(Repr)
      ensures parts[..|parts| - 1] == old(parts[..|parts| - 1])
      ensures old(|parts[|parts| - 1]|) == maxTierSize ==> r.Err? && parts == old(parts)
      ensures old(|parts[|parts| - 1]|) < maxTierSize ==>
        r == Ok(Mask(old(tiers[|tiers| - 1].tail), maxTierSize)) && parts[|parts| - 1] == old(parts[|parts| - 1]) + [data]
    {
      var n := |tiers|;
      var last := tiers[n - 1];
      TierFacts(n - 1);
      assert forall i :: 0 <= i < n - 1 ==> tiers[i] != last && tiers[i].arr != last.arr;
      r := last.PushBack(data);
      parts := parts[n - 1 := last.Elements()];
      LastTierChanged();
    }

    /** When only the last tier changed, and it still has an unmoved head and holds the last part, the vector is valid. */
    twostate lemma LastTierChanged()
      requires old(Valid()) && |tiers| > 0 && tiers == old(tiers) && |parts| == |old(parts)|
      requires Repr == old(Repr)
      requires forall i :: 0 <= i < |tiers| - 1 ==> unchanged(tiers[i]) && unchanged(tiers[i].arr) && parts[i] == old(parts[i])
      requires tiers[|tiers| - 1].Valid() && tiers[|tiers| - 1].head == 0
      requires tiers[|tiers| - 1].Elements() == parts[|parts| - 1] && 0 < |parts[|parts| - 1]|
      ensures Valid()
    {
      var n := |tiers|;
      assert old(Holds(Nth(tiers, n - 1), maxTierSize, parts[n - 1]));
      forall i | 0 <= i < n
        ensures Holds(Nth(tiers, i), maxTierSize, parts[i])
      {
        if i < n - 1 {
          assert old(Holds(Nth(tiers, i), maxTierSize, parts[i]));
          tiers[i].Unchanged();
        }
      }
    }
  }

  /** Tier k starts one tier's worth past tier k - 1. */
  lemma NextTierStart(k: nat, m: nat)
    requires k > 0
    ensures k * m == (k - 1) * m + m
  {
  }
}
