// `LinkedTieredVec` (src/linked/tiered_vec.rs): n tiers of n slots each, n a
// power of two, each tier a separately allocated ring buffer (a `RawTier`).
// The tiers are kept packed: every tier before the last non-empty one is full.
//
// The class holds its tiers in a sequence of references and updates them in
// place. Each loop over the tiers is proved against the closed forms of
// module Layout: after `insert` the elements are `LinkedInserted`, after
// `remove` they are `RemoveAt`, and `expand` and `try_contract` keep them.
module LinkedVec {
  import opened Wrappers
  import opened Errors
  import opened Seqs
  import opened Ring
  import opened Tier
  import opened Tiers
  import opened Layout
  import opened Sizing
  import opened LinkedTiers

  class LinkedTieredVec<T> {
    var tiers: seq<RawTier<T>>
    /** The elements of each tier, tier by tier. */
    ghost var contents: seq<seq<T>>

    /** n tiers of n slots, n a power of two of at least 2, packed. */
    ghost predicate Valid()
      reads this, tiers
    {
      Wellformed(tiers, contents)
    }

    /** The elements, by rank: the tiers' elements in tier order. */
    ghost function Elements(): seq<T>
      reads this
    {
      Flatten(contents)
    }

    /** `tier_size`: the number of tiers, which is also each tier's capacity. */
    function TierSize(): (n: nat)
      reads this, tiers
      ensures Valid() ==> IsPowerOfTwo(n) && n >= 2
    {
      |tiers|
    }

    /** `new`: initial_tier_size empty tiers of initial_tier_size slots. */
    constructor(initialTierSize: nat)
      requires IsPowerOfTwo(initialTierSize) && initialTierSize >= 2
      ensures Valid() && TierSize() == initialTierSize && Elements() == []
      ensures forall j :: 0 <= j < |tiers| ==> fresh(tiers[j])
    {
      var ts, cs := EmptyVectorTiers(initialTierSize);
      tiers, contents := ts, cs;
    }

    /** `with_minimum_capacity`: the tier size `TierSizeFor` picks, so that the capacity is at least `minCapacity`. */
    constructor WithMinimumCapacity(minCapacity: nat)
      requires minCapacity >= 4
      ensures Valid() && TierSize() == TierSizeFor(minCapacity) && Elements() == []
      ensures Capacity() >= minCapacity
      ensures forall j :: 0 <= j < |tiers| ==> fresh(tiers[j])
    {
      var tierSize := ChooseTierSize(minCapacity);
      StartIsProduct(tierSize, tierSize);
      var ts, cs := EmptyVectorTiers(tierSize);
      tiers, contents := ts, cs;
    }

    /** `capacity`: n tiers of n slots. */
    function Capacity(): (c: nat)
      reads this
      ensures c == Start(TierSize(), TierSize())
    {
      StartIsProduct(|tiers|, |tiers|);
      |tiers| * |tiers|
    }

    /** `len`: the tiers' lengths summed up to the first empty tier. */
    method Len() returns (l: nat)
      requires Valid()
      ensures l == |Elements()|
    {
      l := SumLengths(tiers, contents, |tiers|);
    }

    /** `is_empty`: the first tier is empty exactly when the vector is. */
    function IsEmpty(): (b: bool)
      reads this, tiers
      requires Valid()
      ensures b <==> Elements() == []
    {
      FirstTierEmpty(contents, |tiers|);
      tiers[0].IsEmpty()
    }

    /** `is_full`: the last tier is full exactly when the vector is. */
    function IsFull(): (b: bool)
      reads this, tiers
      requires Valid()
      ensures b <==> |Elements()| == Capacity()
    {
      LastTierFull(contents, |tiers|);
      tiers[|tiers| - 1].IsFull()
    }

    /** `get_by_rank`: the element of rank `rank`, read from tier rank / n. */
    function GetByRank(rank: nat): (r: Option<T>)
      reads this, tiers
      requires Valid()
      ensures r == if rank < |Elements()| then Some(Elements()[rank]) else None
    {
      PackedLookup(contents, |tiers|, rank);
      StartOfQuotient(|tiers|, rank);
      var tierIdx: nat := rank / |tiers|;
      if tierIdx < |tiers| then tiers[tierIdx].GetByRank(rank) else None
    }

    /**
     * `expand`: tiers 2j and 2j + 1 are merged into a tier of 2n slots, for
     * j < n / 2, then empty tiers of 2n slots are pushed up to 2n tiers.
     */
    method Expand()
      requires Valid()
      modifies this, tiers
      ensures Valid() && TierSize() == 2 * old(TierSize()) && Elements() == old(Elements())
      ensures forall j :: 0 <= j < |tiers| ==> tiers[j] in old(tiers) || fresh(tiers[j])
    {
      var us;
      ghost var cs;
      us, cs := ExpandTiers(tiers, contents);
      tiers, contents := us, cs;
    }

    /**
     * `try_contract`: below an eighth of the capacity, the tier size halves:
     * the first n / 4 tiers are kept and each is split into two tiers of
     * n / 2 slots.
     */
    method TryContract(numEntries: nat)
      requires Valid() && numEntries == |Elements()|
      modifies this, tiers
      ensures Valid() && Elements() == old(Elements())
      ensures TierSize() == if numEntries < old(Capacity()) / 8 then old(TierSize()) / 2 else old(TierSize())
      ensures numEntries < old(Capacity()) / 8 ==> |Elements()| < Capacity()
      ensures forall j :: 0 <= j < |tiers| ==> tiers[j] in old(tiers) || fresh(tiers[j])
    {
      var us;
      ghost var cs;
      us, cs := TryContractTiers(tiers, contents, numEntries);
      tiers, contents := us, cs;
    }

    /**
     * `insert(rank, e)`: a rank past the end is refused; a full vector is
     * expanded first; then the pop-push loop runs from the rank's tier when
     * it is full, and the element goes into that tier.
     */
    method Insert(rank: nat, e: T) returns (r: Result<nat, TieredVectorError<T>>)
      requires Valid()
      modifies this, tiers
      ensures Valid()
      ensures forall j :: 0 <= j < |tiers| ==> tiers[j] in old(tiers) || fresh(tiers[j])
      ensures rank > old(|Elements()|) ==> r == Err(TieredVectorOutofBoundsInsertionError(rank, e)) && unchanged(this)
      ensures rank <= old(|Elements()|) ==> r == Ok(rank)
      ensures rank <= old(|Elements()|) ==>
        TierSize() == if old(|Elements()|) == old(Capacity()) then 2 * old(TierSize()) else old(TierSize())
      ensures rank <= old(|Elements()|) ==> old(|Elements()|) < Capacity()
      ensures rank <= old(|Elements()|) ==> Elements() == LinkedInserted(old(Elements()), TierSize(), rank, e)
    {
      var us;
      ghost var cs;
      r, us, cs := InsertTiers(tiers, contents, rank, e);
      tiers, contents := us, cs;
    }

    /**
     * `remove(rank)`: a rank past the end is refused; otherwise the vector
     * may contract, then the rank's tier removes the element and the reverse
     * loop refills the tiers behind it.
     */
    method Remove(rank: nat) returns (r: Result<T, TieredVectorError<T>>)
      requires Valid()
      requires !(rank == |Elements()| == Capacity())
      modifies this, tiers
      ensures Valid()
      ensures forall j :: 0 <= j < |tiers| ==> tiers[j] in old(tiers) || fresh(tiers[j])
      ensures rank > old(|Elements()|) ==> r == Err(TieredVectorRankOutOfBoundsError(rank)) && unchanged(this)
      ensures rank <= old(|Elements()|) ==>
        TierSize() == if old(|Elements()|) < old(Capacity()) / 8 then old(TierSize()) / 2 else old(TierSize())
      ensures rank == old(|Elements()|) ==> Elements() == old(Elements())
      ensures rank == old(|Elements()|) ==>
        r == if rank % TierSize() == 0 then Err(TieredVectorEmptyError) else Err(TieredVectorRankOutOfBoundsError(rank))
      ensures rank < old(|Elements()|) ==> r == Ok(old(Elements())[rank]) && Elements() == RemoveAt(old(Elements()), rank)
    {
      var us;
      ghost var cs;
      r, us, cs := RemoveTiers(tiers, contents, rank);
      tiers, contents := us, cs;
    }
  }
}
