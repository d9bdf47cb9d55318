// `FlatTieredVec` (src/flat/tiered_vec.rs): n tiers of n slots each, n a
// power of two of at least 2, laid out one after the other in a single
// allocation, with the number of elements kept in a `len` field. The tiers are
// kept packed: every tier before the last non-empty one is full.
//
// The allocation is modelled as the sequence of its tiers, each a
// `FlatTier.Tier` value; an operation on a tier stores the tier it returns
// back in place. Each loop over the tiers is a method on that sequence, proved
// against the closed forms of module Layout. This variant's insert loop keeps
// the order of the elements, so `insert(i, e)` leaves them as `InsertAt`.
module FlatVec {
  import opened Wrappers
  import opened Seqs
  import opened Ring
  import opened Slots
  import opened FlatTier
  import opened Tiers
  import opened Layout
  import opened Sizing

  /** Each tier is a valid ring buffer of n slots holding the matching entry of cs. */
  ghost predicate Holds<T>(ts: seq<Tier<T>>, cs: seq<seq<T>>, n: nat)
  {
    |ts| == |cs| && forall j {:trigger Fits(ts[j], n, cs[j])} :: 0 <= j < |ts| ==> Fits(ts[j], n, cs[j])
  }

  /** A valid ring buffer of n slots holding v. */
  ghost predicate Fits<T>(t: Tier<T>, n: nat, v: seq<T>)
  {
    t.Valid() && t.Capacity() == n && t.Elements() == v
  }

  /**
   * The invariant of a flat vector holding s: n tiers of n slots, n a power
   * of two of at least 2, tier j holding run j of n elements of s.
   */
  ghost predicate Wellformed<T>(ts: seq<Tier<T>>, s: seq<T>, n: nat)
  {
    n >= 2 && IsPowerOfTwo(n) && |s| <= Start(n, n) && Holds(ts, Chunks(s, n, n), n)
  }

  /** A tier appended after tiers holding cs. */
  lemma HoldsSnoc<T>(ts: seq<Tier<T>>, cs: seq<seq<T>>, n: nat, t: Tier<T>, v: seq<T>)
    requires Holds(ts, cs, n) && Fits(t, n, v)
    ensures Holds(ts + [t], cs + [v], n)
  {
  }

  /** Tiers appended after tiers. */
  lemma HoldsConcat<T>(ts: seq<Tier<T>>, cs: seq<seq<T>>, us: seq<Tier<T>>, ds: seq<seq<T>>, n: nat)
    requires Holds(ts, cs, n) && Holds(us, ds, n)
    ensures Holds(ts + us, cs + ds, n)
  {
    forall j | 0 <= j < |ts + us|
      ensures Fits((ts + us)[j], n, (cs + ds)[j])
    {
      if j >= |ts| {
        assert (ts + us)[j] == us[j - |ts|] && (cs + ds)[j] == ds[j - |ts|];
      }
    }
  }

  /** What tier j holds. */
  lemma HoldsAt<T>(ts: seq<Tier<T>>, cs: seq<seq<T>>, n: nat, j: nat)
    requires Holds(ts, cs, n) && j < |ts|
    ensures Fits(ts[j], n, cs[j])
  {
  }

  /** Replacing tier i by a valid tier of n slots holding v. */
  lemma HoldsUpdate<T>(ts: seq<Tier<T>>, cs: seq<seq<T>>, n: nat, i: nat, t: Tier<T>, v: seq<T>)
    requires Holds(ts, cs, n) && i < |ts| && Fits(t, n, v)
    ensures Holds(ts[i := t], cs[i := v], n)
  {
  }

  /** `count` zeroed tiers of `capacity` slots. */
  function ZeroedTiers<T>(capacity: nat, count: nat): (ts: seq<Tier<T>>)
    requires IsPowerOfTwo(capacity)
    ensures Holds(ts, Empties(count), capacity)
  {
    Copies(Empty(capacity), capacity, count)
  }

  /** The tiers of a new vector: n zeroed tiers of n slots, holding no elements. */
  function NewTiers<T>(n: nat): (ts: seq<Tier<T>>)
    requires IsPowerOfTwo(n) && n >= 2
    ensures Wellformed(ts, [], n)
  {
    NoChunks<T>(n, n);
    ZeroedTiers(n, n)
  }

  /** `count` copies of a tier that holds nothing. */
  function Copies<T>(e: Tier<T>, n: nat, count: nat): (ts: seq<Tier<T>>)
    requires Fits(e, n, [])
    ensures Holds(ts, Empties(count), n)
  {
    var ts := seq(count, _ => e);
    assert forall j :: 0 <= j < count ==> ts[j] == e && Empties<T>(count)[j] == [];
    ts
  }

  // ---------------------------------------------------------------------------
  // The loops of the vector's operations, on the sequence of tiers.

  /**
   * One turn of the pop-push loop of `insert` on a tier holding v: a full
   * tier gives up its last element; the carried element, if any, goes at
   * its front.
   */
  method BackTurn<T>(tier: Tier<T>, ghost v: seq<T>, n: nat, prev: Option<T>) returns (t: Tier<T>, passed: Option<T>)
    requires Fits(tier, n, v)
    ensures passed.Some? == Full(v, n)
    ensures passed.Some? ==> passed.value == v[|v| - 1] && Fits(t, n, CarryList(prev) + v[..|v| - 1])
    ensures passed.None? ==> Fits(t, n, CarryList(prev) + v)
  {
    t, passed := tier, None;
    if tier.IsFull() {
      var popped;
      popped, t := tier.PopBack();
      passed := Some(popped);
    }
    if prev.Some? {
      t := t.PushFront(prev.value);
    }
  }

  /**
   * The pop-push loop of `insert`, from tier t: a full tier gives up its
   * last element and takes the carried one at its front; the first tier with
   * room takes the carried one at its front and the loop stops there.
   */
  method BackLoop<T>(ts: seq<Tier<T>>, ghost c0: seq<seq<T>>, n: nat, t: nat) returns (us: seq<Tier<T>>)
    requires n > 0 && t <= |ts| && Holds(ts, c0, n)
    ensures Holds(us, BackCascade(c0, n, t, None), n)
  {
    ghost var cs := c0;
    us := ts;
    var prev: Option<T> := None;
    var i := t;
    while i < |us|
      invariant t <= i <= |us| == |cs| && Holds(us, cs, n)
      invariant BackCascade(cs, n, i, prev) == BackCascade(c0, n, t, None)
    {
      var tier, passed := BackTurn(us[i], cs[i], n, prev);
      ghost var v := if passed.Some? then CarryList(prev) + cs[i][..|cs[i]| - 1] else CarryList(prev) + cs[i];
      HoldsUpdate(us, cs, n, i, tier, v);
      us, cs := us[i := tier], cs[i := v];
      if passed.None? {
        break;
      }
      prev := passed;
      i := i + 1;
    }
  }

  /**
   * One turn of the reverse loop of `remove` on a tier holding v: a
   * non-empty tier gives up its first element and takes the carried one at
   * its back; an empty tier is passed over.
   */
  method RefillTurn<T>(tier: Tier<T>, ghost v: seq<T>, n: nat, carry: Option<T>) returns (t: Tier<T>, handed: Option<T>)
    requires Fits(tier, n, v)
    ensures Fits(t, n, Refilled(v, carry)) && handed == Handed(v, carry)
  {
    t, handed := tier, carry;
    if !tier.IsEmpty() {
      var popped;
      popped, t := tier.PopFront();
      if carry.Some? {
        t := t.PushBack(carry.value);
      }
      handed := Some(popped);
    }
  }

  /** The reverse loop of `remove`, over tiers hi - 1 down to lo. */
  method RefillLoop<T>(ts: seq<Tier<T>>, ghost c1: seq<seq<T>>, n: nat, lo: nat, hi: nat)
    returns (us: seq<Tier<T>>, carry: Option<T>)
    requires n > 0 && lo <= hi <= |ts| && Holds(ts, c1, n)
    ensures Holds(us, Refill(c1, lo, hi, None).0, n) && carry == Refill(c1, lo, hi, None).1
  {
    ghost var cs := c1;
    us := ts;
    carry := None;
    var i := hi;
    while i > lo
      invariant lo <= i <= hi <= |us| == |cs| && Holds(us, cs, n)
      invariant Refill(cs, lo, i, carry) == Refill(c1, lo, hi, None)
    {
      i := i - 1;
      var tier;
      ghost var v := Refilled(cs[i], carry);
      tier, carry := RefillTurn(us[i], cs[i], n, carry);
      HoldsUpdate(us, cs, n, i, tier, v);
      us, cs := us[i := tier], cs[i := v];
    }
  }

  /**
   * One turn of `expand`'s loop: both tiers of a pair are rotated to start at
   * slot 0, the second one's elements are copied after the first one's, and
   * the first one's tail moves over them, in a tier of twice the slots.
   */
  method MergedPair<T>(first: Tier<T>, second: Tier<T>) returns (m: Tier<T>)
    requires first.Valid() && second.Valid() && first.Capacity() == second.Capacity()
    ensures m.Valid() && m.Capacity() == 2 * first.Capacity()
    ensures m.Elements() == first.Elements() + second.Elements()
  {
    var a := first.RotateReset();
    var b := second.RotateReset();
    m := JoinedTier(a, b);
  }

  /** Two tiers of n slots that both start at slot 0, joined into one tier of 2n slots. */
  function JoinedTier<T>(a: Tier<T>, b: Tier<T>): (m: Tier<T>)
    requires a.Valid() && b.Valid() && a.Capacity() == b.Capacity() && a.head == 0 && b.head == 0
    ensures m.Valid() && m.Capacity() == 2 * a.Capacity()
    ensures m.Elements() == a.Elements() + b.Elements()
  {
    a.FromSlotZero();
    b.FromSlotZero();
    var x, y := a.elements[..a.tail], b.elements[..b.tail];
    var buf := Joined(x, y, 2 * |a.elements| - a.tail - b.tail);
    PowerOfTwoDouble(|a.elements|);
    assert |buf| == 2 * |a.elements|;
    Tier(buf, 0, a.tail).TailForwardBy(b.tail)
  }

  /** The slots of a merged tier: the first tier's live slots, the second's after them, then `free` empty slots. */
  function Joined<T>(x: seq<Option<T>>, y: seq<Option<T>>, free: nat): (buf: seq<Option<T>>)
    requires AllSome(x) && AllSome(y)
    ensures |buf| == |x| + |y| + free
    ensures AllSome(buf[..|x| + |y|]) && AllNone(buf[|x| + |y|..])
    ensures Values(buf[..|x| + |y|]) == Values(x) + Values(y)
  {
    ValuesConcat(x, y);
    var buf := x + y + Uninit(free);
    assert buf[..|x| + |y|] == x + y && buf[|x| + |y|..] == Uninit(free);
    buf
  }

  /** The first j + 1 pairs: the first j, then tiers 2j and 2j + 1 merged. */
  lemma PairsPrefix<T>(c0: seq<seq<T>>, j: nat)
    requires 2 * j + 2 <= |c0|
    ensures Pairs(c0)[..j + 1] == Pairs(c0)[..j] + [c0[2 * j] + c0[2 * j + 1]]
  {
    assert Pairs(c0)[j] == c0[2 * j] + c0[2 * j + 1];
  }

  /** `expand`'s loop over the pairs (2j, 2j + 1) of tiers: each becomes one tier of 2n slots. */
  method MergeLoop<T>(ts: seq<Tier<T>>, ghost c0: seq<seq<T>>, n: nat) returns (us: seq<Tier<T>>)
    requires n % 2 == 0 && |c0| == n && Holds(ts, c0, n)
    ensures Holds(us, Pairs(c0), 2 * n)
  {
    us := [];
    var half := n / 2;
    var j := 0;
    while j < half
      invariant 0 <= j <= half && Holds(us, Pairs(c0)[..j], 2 * n)
    {
      HoldsAt(ts, c0, n, 2 * j);
      HoldsAt(ts, c0, n, 2 * j + 1);
      var m := MergedPair(ts[2 * j], ts[2 * j + 1]);
      PairsPrefix(c0, j);
      HoldsSnoc(us, Pairs(c0)[..j], 2 * n, m, c0[2 * j] + c0[2 * j + 1]);
      us := us + [m];
      j := j + 1;
    }
    assert Pairs(c0)[..half] == Pairs(c0);
  }

  /**
   * `expand` on the tiers: pair (2j, 2j + 1) becomes tier j of 2n slots,
   * for j < n / 2, and the tiers after them are zeroed, up to 2n tiers. They
   * then hold the runs of 2n elements of the same s.
   */
  method ExpandTiers<T>(ts: seq<Tier<T>>, ghost s: seq<T>, n: nat) returns (us: seq<Tier<T>>)
    requires Wellformed(ts, s, n)
    ensures Wellformed(us, s, 2 * n)
  {
    ghost var c0 := Chunks(s, n, n);
    var merged := MergeLoop(ts, c0, n);
    PowerOfTwoDouble(n);
    var count := 2 * n - n / 2;
    var rest := ZeroedTiers(2 * n, count);
    ghost var cs := Pairs(c0) + Empties(count);
    HoldsConcat(merged, Pairs(c0), rest, Empties(count), 2 * n);
    us := merged + rest;
    assert cs[..n / 2] == Pairs(c0);
    ExpandedRuns(s, n, cs);
    DoubledRoom(n);
  }

  /** A tier holds no more elements than it has slots. */
  lemma FitsBound<T>(t: Tier<T>, n: nat, v: seq<T>)
    requires Fits(t, n, v)
    ensures |v| <= n
  {
  }

  /** Tier `insert` at `index`, which the tier masks to its offset. */
  method InsertInto<T>(tier: Tier<T>, ghost v: seq<T>, n: nat, index: nat, e: T) returns (t: Tier<T>)
    requires Fits(tier, n, v) && |v| < n && index % n <= |v|
    ensures Fits(t, n, InsertAt(v, index % n, e))
  {
    t := tier.Insert(index, e);
  }

  /** Tier `remove` at `index`, which the tier masks to its offset. */
  method RemoveFrom<T>(tier: Tier<T>, ghost v: seq<T>, n: nat, index: nat) returns (x: T, t: Tier<T>)
    requires Fits(tier, n, v) && index % n < |v|
    ensures x == v[index % n] && Fits(t, n, RemoveAt(v, index % n))
  {
    x, t := tier.RemoveCorrected(index);
  }

  /** Tier `push_back`. */
  method PushInto<T>(tier: Tier<T>, ghost v: seq<T>, n: nat, e: T) returns (t: Tier<T>)
    requires Fits(tier, n, v) && |v| < n
    ensures Fits(t, n, v + [e])
  {
    t := tier.PushBack(e);
  }

  /** Tier `pop_back`. */
  method PopFrom<T>(tier: Tier<T>, ghost v: seq<T>, n: nat) returns (x: T, t: Tier<T>)
    requires Fits(tier, n, v) && v != []
    ensures x == v[|v| - 1] && Fits(t, n, v[..|v| - 1])
  {
    x, t := tier.PopBack();
  }

  /** Pushing back no carried element leaves the tiers as they are. */
  lemma NothingCarried<T>(cs: seq<seq<T>>, t: nat)
    requires t < |cs|
    ensures cs[t := cs[t] + CarryList<T>(None)] == cs
  {
    assert cs[t] + CarryList<T>(None) == cs[t];
  }

  /** `insert` from tier t: the pop-push loop, then tier t's own insert at `index`. */
  method InsertLoop<T>(ts: seq<Tier<T>>, ghost c0: seq<seq<T>>, n: nat, t: nat, index: nat, e: T) returns (us: seq<Tier<T>>)
    requires n > 0 && t < |ts| && Holds(ts, c0, n) && index % n <= |Dropped(c0[t], n)|
    ensures Holds(us, BackInsert(c0, n, t, index % n, e), n)
  {
    FitsBound(ts[t], n, c0[t]);
    us := BackLoop(ts, c0, n, t);
    ghost var c1 := BackCascade(c0, n, t, None);
    BackInsertByLoop(c0, n, t, index % n, e);
    var tier := InsertInto(us[t], c1[t], n, index, e);
    HoldsUpdate(us, c1, n, t, tier, InsertAt(c1[t], index % n, e));
    us := us[t := tier];
  }

  /**
   * `remove` at `index` in tier t: the tier removes the element, the reverse
   * loop runs over tiers hi - 1 down to t + 1, and the element it carries
   * out is pushed back onto tier t.
   */
  method RemoveLoop<T>(ts: seq<Tier<T>>, ghost c0: seq<seq<T>>, n: nat, t: nat, index: nat, hi: nat)
    returns (x: T, us: seq<Tier<T>>)
    requires n > 0 && t < hi <= |ts| && Holds(ts, c0, n) && index % n < |c0[t]|
    ensures x == c0[t][index % n] && Holds(us, RemoveRefilled(c0, t, index % n, hi), n)
  {
    FitsBound(ts[t], n, c0[t]);
    var tier;
    x, tier := RemoveFrom(ts[t], c0[t], n, index);
    ghost var c1 := c0[t := RemoveAt(c0[t], index % n)];
    HoldsUpdate(ts, c0, n, t, tier, RemoveAt(c0[t], index % n));
    var carry;
    us, carry := RefillLoop(ts[t := tier], c1, n, t + 1, hi);
    ghost var rc := Refill(c1, t + 1, hi, None);
    RefillBefore(c1, t + 1, hi, None, t);
    if carry.Some? {
      var pushed := PushInto(us[t], rc.0[t], n, carry.value);
      HoldsUpdate(us, rc.0, n, t, pushed, rc.0[t] + [carry.value]);
      us := us[t := pushed];
    } else {
      NothingCarried(rc.0, t);
    }
  }

  /** `insert(index, e)` on tiers with room: `e` is at rank `index`, the other elements in their order. */
  method InsertTiers<T>(ts: seq<Tier<T>>, ghost s: seq<T>, n: nat, index: nat, e: T) returns (us: seq<Tier<T>>)
    requires Wellformed(ts, s, n) && index <= |s| < Start(n, n)
    ensures Wellformed(us, InsertAt(s, index, e), n)
  {
    var t: nat := index / n;
    OrderedInsertedChunks(s, n, index, e);
    us := InsertLoop(ts, Chunks(s, n, n), n, t, index, e);
  }

  /**
   * `remove(index)`: the element of rank `index` is returned and the others
   * keep their order. The reverse loop ends at the tier of the last rank,
   * never past the last tier.
   */
  method RemoveTiers<T>(ts: seq<Tier<T>>, ghost s: seq<T>, n: nat, numEntries: nat, index: nat)
    returns (x: T, us: seq<Tier<T>>)
    requires Wellformed(ts, s, n) && numEntries == |s| && index < numEntries
    ensures x == s[index] && Wellformed(us, RemoveAt(s, index), n)
  {
    var t: nat, hi := index / n, CascadeEnd(numEntries, n);
    RemovedChunks(s, n, index);
    x, us := RemoveLoop(ts, Chunks(s, n, n), n, t, index, hi);
  }

  /** `push(e)` on tiers with room: `e` goes at the back of the tier of rank |s|. */
  method PushTiers<T>(ts: seq<Tier<T>>, ghost s: seq<T>, n: nat, len: nat, e: T) returns (us: seq<Tier<T>>)
    requires Wellformed(ts, s, n) && len == |s| < Start(n, n)
    ensures Wellformed(us, s + [e], n)
  {
    ghost var c0 := Chunks(s, n, n);
    AppendChunks(s, n, e);
    var t := len / n;
    var tier := PushInto(ts[t], c0[t], n, e);
    HoldsUpdate(ts, c0, n, t, tier, c0[t] + [e]);
    us := ts[t := tier];
  }

  /** `pop()`: the last element comes off the back of the tier of the last rank. */
  method PopTiers<T>(ts: seq<Tier<T>>, ghost s: seq<T>, n: nat, len: nat) returns (x: T, us: seq<Tier<T>>)
    requires Wellformed(ts, s, n) && len == |s| > 0
    ensures x == s[len - 1] && Wellformed(us, s[..len - 1], n)
  {
    ghost var c0 := Chunks(s, n, n);
    PopChunks(s, n);
    var t := (len - 1) / n;
    var tier;
    x, tier := PopFrom(ts[t], c0[t], n);
    HoldsUpdate(ts, c0, n, t, tier, c0[t][..|c0[t]| - 1]);
    us := ts[t := tier];
  }

  /** Rank `index` is at offset index mod n of tier index / n, where it is held exactly when it is below |s|. */
  lemma RankIn<T>(ts: seq<Tier<T>>, s: seq<T>, n: nat, index: nat)
    requires Wellformed(ts, s, n) && index < Start(n, n)
    ensures 0 <= index / n < |ts| && ts[index / n].Valid() && ts[index / n].Capacity() == n
    ensures index < |s| <==> index % n < |ts[index / n].Elements()|
    ensures index < |s| ==> ts[index / n].Elements()[index % n] == s[index]
  {
    RankTier(n, index, n);
    RankLookup(s, n, index);
    HoldsAt(ts, Chunks(s, n, n), n, index / n);
  }

  /** `get(index)` on the tiers: tier index / n is asked for rank `index`, which it masks. */
  function GetTiers<T>(ts: seq<Tier<T>>, ghost s: seq<T>, n: nat, index: nat): (r: Option<T>)
    requires Wellformed(ts, s, n) && index < Start(n, n)
    ensures r == if index < |s| then Some(s[index]) else None
  {
    RankIn(ts, s, n, index);
    ts[index / n].GetByRank(index)
  }

  /** Indexing the tiers: the element of rank `index`, which must be below |s|. */
  function IndexTiers<T>(ts: seq<Tier<T>>, ghost s: seq<T>, n: nat, index: nat): (x: T)
    requires Wellformed(ts, s, n) && index < |s|
    ensures x == s[index]
  {
    RankIn(ts, s, n, index);
    ts[index / n].Index(index)
  }

  /** The tiers `with_capacity` starts from: TierSizeFor(min) empty tiers of that many slots, with room for `min` elements. */
  method SizedTiers<T>(min: nat) returns (n: nat, ts: seq<Tier<T>>)
    requires min >= 4
    ensures n == TierSizeFor(min) && Start(n, n) >= min
    ensures Wellformed(ts, [], n)
  {
    n := TierSizeFor(min);
    TierSizeForIsLeast(min);
    StartIsProduct(n, n);
    ts := NewTiers(n);
  }

  class FlatTieredVec<T> {
    var tiers: seq<Tier<T>>
    var tierCapacity: nat
    var len: nat
    /** The elements, by rank. */
    ghost var items: seq<T>

    /** n tiers of n slots, n a power of two of at least 2, tier j holding run j of the elements; `len` counts them. */
    ghost predicate Valid()
      reads this
    {
      Wellformed(tiers, items, tierCapacity) && len == |items|
    }

    /** The elements, by rank. */
    ghost function Elements(): seq<T>
      reads this
    {
      items
    }

    /** The tiers are packed, and read in order they hold the elements. */
    lemma TiersInOrder()
      requires Valid()
      ensures Packed(Chunks(items, tierCapacity, tierCapacity), tierCapacity)
      ensures Flatten(Chunks(items, tierCapacity, tierCapacity)) == items
    {
      ChunksPacked(items, tierCapacity, tierCapacity);
    }

    /** `new`: tier_capacity zeroed tiers of tier_capacity slots, so nothing is held. */
    constructor(tierCapacity: nat)
      requires IsPowerOfTwo(tierCapacity) && tierCapacity >= 2
      ensures Valid() && this.tierCapacity == tierCapacity && Elements() == []
      ensures Capacity() == tierCapacity * tierCapacity
    {
      this.tierCapacity := tierCapacity;
      tiers := NewTiers(tierCapacity);
      len := 0;
      items := [];
    }

    /** `with_capacity`: the tier capacity `TierSizeFor` picks, so that the capacity is at least `minimumCapacity`. */
    constructor WithCapacity(minimumCapacity: nat)
      requires minimumCapacity >= 4
      ensures Valid() && tierCapacity == TierSizeFor(minimumCapacity) && Elements() == []
      ensures Capacity() >= minimumCapacity
    {
      var n, ts := SizedTiers(minimumCapacity);
      tierCapacity := n;
      tiers := ts;
      len := 0;
      items := [];
    }

    /** `capacity`: tier_capacity squared, the most the tiers can hold. */
    function Capacity(): (c: nat)
      reads this
      ensures c == Start(tierCapacity, tierCapacity)
    {
      StartIsProduct(tierCapacity, tierCapacity);
      tierCapacity * tierCapacity
    }

    /** `tier_index`: the tier whose run of ranks holds `rank`. */
    function TierIndex(rank: nat): (i: nat)
      reads this
      requires tierCapacity > 0
      ensures Start(tierCapacity, i) <= rank < Start(tierCapacity, i + 1)
    {
      StartOfQuotient(tierCapacity, rank);
      StartShift(tierCapacity, rank / tierCapacity);
      rank / tierCapacity
    }

    /** `len`: the field kept up to date by every change. */
    function Len(): (l: nat)
      reads this
      requires Valid()
      ensures l == |Elements()|
    {
      len
    }

    /** `is_empty`: no elements. */
    function IsEmpty(): (b: bool)
      reads this
      requires Valid()
      ensures b <==> Elements() == []
    {
      len == 0
    }

    /** `is_full`: as many elements as the tiers have slots. */
    function IsFull(): (b: bool)
      reads this
      requires Valid()
      ensures b <==> |Elements()| == Capacity()
    {
      len == Capacity()
    }

    /**
     * `get(index)`: tier index / n is asked for rank `index`, which it masks.
     * Looking up a tier past the last panics, so the index must be below the
     * capacity.
     */
    function Get(index: nat): (r: Option<T>)
      reads this
      requires Valid() && index < Capacity()
      ensures r == if index < |Elements()| then Some(Elements()[index]) else None
    {
      GetTiers(tiers, items, tierCapacity, index)
    }

    /** `Index`: the element of rank `index`, which must be below `len`. */
    function Index(index: nat): (x: T)
      reads this
      requires Valid() && index < |Elements()|
      ensures x == Elements()[index]
    {
      IndexTiers(tiers, items, tierCapacity, index)
    }

    /** `expand`: tier pairs merged into tiers of twice the slots; the tier capacity doubles and the elements stay. */
    method Expand()
      requires Valid()
      modifies this
      ensures Valid() && tierCapacity == 2 * old(tierCapacity) && Elements() == old(Elements())
    {
      tiers := ExpandTiers(tiers, items, tierCapacity);
      tierCapacity := 2 * tierCapacity;
    }

    /**
     * `insert(index, e)`: the index must not be past the end; a full vector
     * is expanded first; then `e` is at rank `index` with the other elements
     * in their order.
     */
    method Insert(index: nat, e: T)
      requires Valid() && index <= |Elements()|
      modifies this
      ensures Valid() && Elements() == InsertAt(old(Elements()), index, e)
      ensures tierCapacity == if old(|Elements()|) == old(Capacity()) then 2 * old(tierCapacity) else old(tierCapacity)
    {
      if IsFull() {
        DoubledRoom(tierCapacity);
        Expand();
      }
      tiers := InsertTiers(tiers, items, tierCapacity, index, e);
      items := InsertAt(items, index, e);
      len := len + 1;
    }

    /**
     * `remove(index)`: the index must hold an element; it is returned, and the
     * others keep their order. The reverse loop runs up to the tier of the
     * last rank, never past the last tier.
     */
    method Remove(index: nat) returns (x: T)
      requires Valid() && index < |Elements()|
      modifies this
      ensures Valid() && tierCapacity == old(tierCapacity)
      ensures x == old(Elements())[index] && Elements() == RemoveAt(old(Elements()), index)
    {
      x, tiers := RemoveTiers(tiers, items, tierCapacity, len, index);
      items := RemoveAt(items, index);
      len := len - 1;
    }

    /** `push(e)`: a full vector is expanded first, then `e` goes last. */
    method Push(e: T)
      requires Valid()
      modifies this
      ensures Valid() && Elements() == old(Elements()) + [e]
      ensures tierCapacity == if old(|Elements()|) == old(Capacity()) then 2 * old(tierCapacity) else old(tierCapacity)
    {
      if IsFull() {
        DoubledRoom(tierCapacity);
        Expand();
      }
      tiers := PushTiers(tiers, items, tierCapacity, len, e);
      items := items + [e];
      len := len + 1;
    }

    /** `pop()`: the vector must not be empty; the last element comes off. */
    method Pop() returns (x: T)
      requires Valid() && |Elements()| > 0
      modifies this
      ensures Valid() && tierCapacity == old(tierCapacity)
      ensures x == old(Elements())[|old(Elements())| - 1] && Elements() == old(Elements())[..|old(Elements())| - 1]
    {
      x, tiers := PopTiers(tiers, items, tierCapacity, len);
      items := items[..len - 1];
      len := len - 1;
    }

    /** `clone`: a new vector of the same tier capacity into which every element is pushed in rank order. */
    method Clone() returns (c: FlatTieredVec<T>)
      requires Valid()
      ensures fresh(c) && c.Valid() && c.tierCapacity == tierCapacity && c.Elements() == Elements()
    {
      c := new FlatTieredVec(tierCapacity);
      var i := 0;
      while i < len
        invariant 0 <= i <= len && fresh(c) && c.Valid() && c.tierCapacity == tierCapacity
        invariant c.Elements() == Elements()[..i]
      {
        c.Push(Index(i));
        assert Elements()[..i] + [Elements()[i]] == Elements()[..i + 1];
        i := i + 1;
      }
      assert Elements()[..len] == Elements();
    }
  }
}
