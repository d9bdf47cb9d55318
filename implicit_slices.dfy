// The tiers of an `ImplicitTieredVec` (src/implicit/tiered_vec.rs): one flat
// buffer of slots and one `ImplicitTierRingOffsets` per tier. Tier j of a
// vector whose tiers have `size` slots owns the slots from j * size on; every
// operation on a tier hands `ImplicitTier` that sub-slice and the tier's
// offsets, and the slice comes back into the buffer where it was taken.
//
// `Holds(buf, os, cs, size, first)` ties tier j of `os` to the slots from
// Start(size, first + j) and to its elements cs[j]. Each loop of the vector's
// operations is a method here, proved against the closed forms of module
// Layout, like the loops of the linked vector.
module ImplicitSlices {
  import opened Wrappers
  import opened Errors
  import opened Seqs
  import opened Ring
  import opened Slots
  import opened RingOffsets
  import opened Tiers
  import opened Layout
  import Implicit = ImplicitTier

  // ---------------------------------------------------------------------------
  // Sub-slices of the buffer.

  /** The `size` slots from `start`: `&buffer[start..start + size]`. */
  function Region<T>(buf: seq<Option<T>>, start: nat, size: nat): (s: seq<Option<T>>)
    requires start + size <= |buf|
    ensures |s| == size
  {
    buf[start..start + size]
  }

  /** The buffer after a write through the sub-slice from `start`, which now reads `s`. */
  function Overwrite<T>(buf: seq<Option<T>>, start: nat, s: seq<Option<T>>): (nb: seq<Option<T>>)
    requires start + |s| <= |buf|
    ensures |nb| == |buf|
  {
    buf[..start] + s + buf[start + |s|..]
  }

  /** The slice written reads back as written. */
  lemma OverwriteReadsBack<T>(buf: seq<Option<T>>, start: nat, s: seq<Option<T>>)
    requires start + |s| <= |buf|
    ensures Region(Overwrite(buf, start, s), start, |s|) == s
  {
    var nb := Overwrite(buf, start, s);
    forall k | 0 <= k < |s|
      ensures Region(nb, start, |s|)[k] == s[k]
    {
      assert nb[start + k] == (buf[..start] + s)[start + k];
    }
  }

  /** The slots outside the slice written are as they were. */
  lemma OverwriteKeeps<T>(buf: seq<Option<T>>, start: nat, s: seq<Option<T>>, a: nat, size: nat)
    requires start + |s| <= |buf| && a + size <= |buf|
    requires a + size <= start || start + |s| <= a
    ensures Region(Overwrite(buf, start, s), a, size) == Region(buf, a, size)
  {
    var nb := Overwrite(buf, start, s);
    forall k | 0 <= k < size
      ensures Region(nb, a, size)[k] == Region(buf, a, size)[k]
    {
      if a + size <= start {
        assert nb[a + k] == (buf[..start] + s)[a + k] == buf[a + k];
      } else {
        assert nb[a + k] == buf[start + |s|..][a + k - start - |s|];
      }
    }
  }

  /** The slots of two different tiers of the same size do not overlap. */
  lemma RegionsApart(j: nat, t: nat, size: nat)
    requires j != t
    ensures Start(size, j) + size <= Start(size, t) || Start(size, t) + size <= Start(size, j)
  {
    if j < t {
      StartShift(size, j);
      StartMonotone(size, j + 1, t);
    } else {
      StartShift(size, t);
      StartMonotone(size, t + 1, j);
    }
  }

  /** The slots of tier j of `count` tiers lie inside the first count * size slots. */
  lemma RegionInside(j: nat, count: nat, size: nat)
    requires j < count
    ensures Start(size, j) + size <= Start(size, count)
  {
    StartShift(size, j);
    StartMonotone(size, j + 1, count);
  }

  // ---------------------------------------------------------------------------
  // What the buffer and the offsets hold. The cursors of the offsets objects
  // are mirrored in a ghost sequence of spans, so that what the slots hold is
  // a fact about values and only `Tracks` looks at the objects.

  /** The cursors of one tier's offsets. */
  datatype Span = Span(head: int, tail: int)

  ghost function SpanOf(o: ImplicitTierRingOffsets): Span
    reads o
  {
    Span(o.head, o.tail)
  }

  /** No offsets object appears twice: the vector owns each tier's offsets. */
  ghost predicate Distinct(os: seq<ImplicitTierRingOffsets>)
  {
    forall a, b :: 0 <= a < b < |os| ==> os[a] != os[b]
  }

  /** The cursors of tier j's offsets are sps[j]. */
  ghost predicate Tracks(os: seq<ImplicitTierRingOffsets>, sps: seq<Span>)
    reads os
  {
    |os| == |sps| && forall j :: 0 <= j < |os| ==> SpanOf(os[j]) == sps[j]
  }

  /** The item of tier j, named so that the facts about each tier are drawn only where they are asked for. */
  ghost function Nth<X>(xs: seq<X>, j: nat): X
    requires j < |xs|
  {
    xs[j]
  }

  /** What the slots `slots` hold when read with the cursors `sp`, if they are a valid implicit tier. */
  ghost function Reading<T>(slots: seq<Option<T>>, sp: Span): Option<seq<T>>
  {
    if 0 < |slots| && 0 <= sp.tail - sp.head <= |slots|
       && Live(slots, sp.head, sp.tail - sp.head) && Dead(slots, sp.head, sp.tail - sp.head)
    then Some(Contents(slots, sp.head, sp.tail - sp.head))
    else None
  }

  /** The slots `slots`, read with the cursors `sp`, are a valid implicit tier holding `c`. */
  ghost predicate SlotsHold<T>(slots: seq<Option<T>>, sp: Span, c: seq<T>)
  {
    Reading(slots, sp) == Some(c)
  }

  /** The slots read with an offsets object's cursors are what `ImplicitTier` reads with that object. */
  lemma ReadWith<T>(slots: seq<Option<T>>, o: ImplicitTierRingOffsets)
    ensures Implicit.Valid(slots, o) <==> Reading(slots, SpanOf(o)).Some?
    ensures Implicit.Valid(slots, o) ==> Reading(slots, SpanOf(o)) == Some(Implicit.Elements(slots, o))
  {
  }

  /** The `size` slots from `start` hold `c`. */
  ghost predicate TierAt<T>(buf: seq<Option<T>>, sp: Span, start: nat, size: nat, c: seq<T>)
  {
    start + size <= |buf| && SlotsHold(Region(buf, start, size), sp, c)
  }

  /** Tier j owns the `size` slots from Start(size, first + j) and, read with sps[j], holds cs[j]. */
  ghost predicate Holds<T>(buf: seq<Option<T>>, sps: seq<Span>, cs: seq<seq<T>>, size: nat, first: nat)
  {
    |sps| == |cs| && Start(size, first + |sps|) <= |buf|
    && forall j {:trigger Nth(sps, j)} :: 0 <= j < |sps| ==> TierAt(buf, Nth(sps, j), Start(size, first + j), size, cs[j])
  }

  /** The facts about tier j. */
  lemma TierFacts<T>(buf: seq<Option<T>>, sps: seq<Span>, cs: seq<seq<T>>, size: nat, first: nat, j: nat)
    requires Holds(buf, sps, cs, size, first) && j < |sps|
    ensures TierAt(buf, sps[j], Start(size, first + j), size, cs[j])
    ensures Start(size, first + j) + size <= |buf| && |cs[j]| <= size && sps[j].tail - sps[j].head == |cs[j]|
  {
    assert TierAt(buf, Nth(sps, j), Start(size, first + j), size, cs[j]);
  }

  /** A tier whose slots lie outside the slice written holds what it held. */
  lemma TierKept<T>(buf: seq<Option<T>>, start: nat, s: seq<Option<T>>, sp: Span, a: nat, size: nat, c: seq<T>)
    requires start + |s| <= |buf| && TierAt(buf, sp, a, size, c)
    requires a + size <= start || start + |s| <= a
    ensures TierAt(Overwrite(buf, start, s), sp, a, size, c)
  {
    OverwriteKeeps(buf, start, s, a, size);
  }

  /**
   * Tier t's slice written back into the buffer: when the slice reads `c`
   * with the cursors `sp`, the tiers hold cs with tier t replaced by `c`.
   */
  lemma HoldsOverwrite<T>(buf: seq<Option<T>>, sps: seq<Span>, cs: seq<seq<T>>, size: nat, first: nat,
                          t: nat, s: seq<Option<T>>, sp: Span, c: seq<T>)
    requires Holds(buf, sps, cs, size, first) && t < |sps| && |s| == size
    requires SlotsHold(s, sp, c)
    ensures Start(size, first + t) + size <= |buf|
    ensures Holds(Overwrite(buf, Start(size, first + t), s), sps[t := sp], cs[t := c], size, first)
  {
    var start := Start(size, first + t);
    var nsps, ncs := sps[t := sp], cs[t := c];
    TierFacts(buf, sps, cs, size, first, t);
    forall j | 0 <= j < |sps|
      ensures TierAt(Overwrite(buf, start, s), Nth(nsps, j), Start(size, first + j), size, ncs[j])
    {
      if j == t {
        OverwriteReadsBack(buf, start, s);
      } else {
        TierFacts(buf, sps, cs, size, first, j);
        RegionsApart(first + j, first + t, size);
        TierKept(buf, start, s, sps[j], Start(size, first + j), size, cs[j]);
      }
    }
  }

  // ---------------------------------------------------------------------------
  // One operation on one tier: its slice is taken out of the buffer, the
  // `ImplicitTier` operation runs on it and the tier's offsets, and the slice
  // is written back.

  /**
   * One turn of the pop-push loop of `insert`, on one tier's slots: a full
   * tier gives up its front element and takes the carried one at its back;
   * any other tier takes the carried one and the carry ends.
   */
  method PassFront<T>(tier: seq<Option<T>>, o: ImplicitTierRingOffsets, ghost c: seq<T>, carry: Option<T>)
    returns (nt: seq<Option<T>>, next: Option<T>)
    requires SlotsHold(tier, SpanOf(o), c)
    modifies o
    ensures |nt| == |tier| && SlotsHold(nt, SpanOf(o), Kept(c, |tier|) + CarryList(carry))
    ensures next == Pass(c, |tier|)
  {
    ReadWith(tier, o);
    assert o.tail - o.head == |c|;
    ghost var want := Kept(c, |tier|) + CarryList(carry);
    nt := tier;
    next := carry;
    if o.IsFull(|nt|) {
      assert Full(c, |tier|) && want == c[1..] + CarryList(carry);
      var popped;
      nt, popped := Implicit.PopFront(nt, o);
      assert popped == Ok(c[0]) && Implicit.Elements(nt, o) == c[1..];
      if popped.Ok? {
        if next.Some? {
          var pushed;
          nt, pushed := Implicit.PushBack(nt, o, next.value);
          assert pushed.Ok?;
        }
        next := Some(popped.value);
      }
    } else {
      assert want == c + CarryList(carry);
      if next.Some? {
        var pushed;
        nt, pushed := Implicit.PushBack(nt, o, next.value);
        assert pushed.Ok?;
      }
      next := None;
    }
    assert Implicit.Valid(nt, o) && Implicit.Elements(nt, o) == want;
    ReadWith(nt, o);
  }

  /** `PassFront` at tier i of the vector: the contents take `FrontStep`. */
  method FrontStepAt<T>(buf: seq<Option<T>>, os: seq<ImplicitTierRingOffsets>, ghost sps: seq<Span>, ghost cs: seq<seq<T>>,
                        n: nat, i: nat, carry: Option<T>)
    returns (nb: seq<Option<T>>, ghost nsps: seq<Span>, next: Option<T>)
    requires i < |os| && Distinct(os) && Tracks(os, sps) && Holds(buf, sps, cs, n, 0)
    modifies os[i]
    ensures |nb| == |buf| && Tracks(os, nsps) && Holds(nb, nsps, FrontStep(cs, n, i, carry).0, n, 0)
    ensures next == FrontStep(cs, n, i, carry).1
  {
    TierFacts(buf, sps, cs, n, 0, i);
    var start := Start(n, i);
    var tier := Region(buf, start, n);
    tier, next := PassFront(tier, os[i], cs[i], carry);
    nsps := sps[i := SpanOf(os[i])];
    HoldsOverwrite(buf, sps, cs, n, 0, i, tier, nsps[i], Kept(cs[i], n) + CarryList(carry));
    nb := Overwrite(buf, start, tier);
  }

  /** `ImplicitTier::insert(tier, offsets, rank, e).expect(..)` on one tier's slots, which have room at an offset it reaches. */
  method InsertIntoTier<T>(tier: seq<Option<T>>, o: ImplicitTierRingOffsets, ghost c: seq<T>, rank: nat, e: T)
    returns (nt: seq<Option<T>>)
    requires SlotsHold(tier, SpanOf(o), c) && |c| < |tier| && rank % |tier| <= |c|
    modifies o
    ensures |nt| == |tier| && SlotsHold(nt, SpanOf(o), InsertAt(c, rank % |tier|, e))
  {
    ReadWith(tier, o);
    var inserted;
    nt, inserted := Implicit.InsertAtRankCorrected(tier, o, rank, e);
    ReadWith(nt, o);
  }

  /**
   * `ImplicitTier::remove(tier, offsets, rank)` on one tier's slots, for a
   * rank at offset r of the tier: the element at offset r, or out of bounds
   * and the tier as it was; the tier then holds `nc`.
   */
  method RemoveFromTier<T>(tier: seq<Option<T>>, o: ImplicitTierRingOffsets, ghost c: seq<T>, rank: nat, ghost r: nat)
    returns (nt: seq<Option<T>>, res: Result<T, TierError<T>>, ghost nc: seq<T>)
    requires SlotsHold(tier, SpanOf(o), c) && r == rank % |tier|
    modifies o
    ensures |nt| == |tier| && SlotsHold(nt, SpanOf(o), nc)
    ensures r >= |c| ==> res == Err(TierRankOutOfBoundsError(rank)) && nc == c
    ensures r < |c| ==> res == Ok(c[r]) && nc == RemoveAt(c, r)
  {
    ReadWith(tier, o);
    nt, res := Implicit.RemoveAtRankCorrected(tier, o, rank);
    nc := if r < |c| then RemoveAt(c, r) else c;
    ReadWith(nt, o);
  }

  /** `InsertIntoTier` at tier t of the vector. */
  method InsertAtTier<T>(buf: seq<Option<T>>, os: seq<ImplicitTierRingOffsets>, ghost sps: seq<Span>, ghost cs: seq<seq<T>>,
                         n: nat, t: nat, rank: nat, e: T)
    returns (nb: seq<Option<T>>, ghost nsps: seq<Span>)
    requires t < |os| && Distinct(os) && Tracks(os, sps) && Holds(buf, sps, cs, n, 0)
    requires |cs[t]| < n && rank % n <= |cs[t]|
    modifies os[t]
    ensures |nb| == |buf| && Tracks(os, nsps) && Holds(nb, nsps, cs[t := InsertAt(cs[t], rank % n, e)], n, 0)
  {
    TierFacts(buf, sps, cs, n, 0, t);
    var start := Start(n, t);
    var tier := Region(buf, start, n);
    ghost var r := rank % n;
    ghost var c := InsertAt(cs[t], r, e);
    tier := InsertIntoTier(tier, os[t], cs[t], rank, e);
    assert SlotsHold(tier, SpanOf(os[t]), c);
    nsps := sps[t := SpanOf(os[t])];
    HoldsOverwrite(buf, sps, cs, n, 0, t, tier, nsps[t], c);
    nb := Overwrite(buf, start, tier);
  }

  /** `RemoveFromTier` at tier t of the vector, for a rank at offset r of its tier; tier t then holds `nc`. */
  method RemoveAtTier<T>(buf: seq<Option<T>>, os: seq<ImplicitTierRingOffsets>, ghost sps: seq<Span>, ghost cs: seq<seq<T>>,
                         n: nat, t: nat, rank: nat, ghost r: nat)
    returns (nb: seq<Option<T>>, ghost nsps: seq<Span>, res: Result<T, TierError<T>>, ghost nc: seq<T>)
    requires n > 0 && t < |os| && Distinct(os) && Tracks(os, sps) && Holds(buf, sps, cs, n, 0) && r == rank % n
    modifies os[t]
    ensures |nb| == |buf| && Tracks(os, nsps) && Holds(nb, nsps, cs[t := nc], n, 0)
    ensures r >= |cs[t]| ==> res == Err(TierRankOutOfBoundsError(rank)) && nc == cs[t]
    ensures r < |cs[t]| ==> res == Ok(cs[t][r]) && nc == RemoveAt(cs[t], r)
  {
    TierFacts(buf, sps, cs, n, 0, t);
    var start := Start(n, t);
    var tier := Region(buf, start, n);
    tier, res, nc := RemoveFromTier(tier, os[t], cs[t], rank, r);
    nsps := sps[t := SpanOf(os[t])];
    HoldsOverwrite(buf, sps, cs, n, 0, t, tier, nsps[t], nc);
    nb := Overwrite(buf, start, tier);
  }

  // ---------------------------------------------------------------------------
  // The swap of `remove`'s cascade: the free slot after tier k's last element
  // and the slot of tier k + 1's first element trade places.

  /** Filling the free slot after the last element of a tier with room appends to it. */
  lemma SlotsPushBack<T>(slots: seq<Option<T>>, sp: Span, c: seq<T>, x: T)
    requires SlotsHold(slots, sp, c) && |c| < |slots|
    ensures slots[Mask(sp.tail, |slots|)] == None
    ensures SlotsHold(slots[Mask(sp.tail, |slots|) := Some(x)], Span(sp.head, sp.tail + 1), c + [x])
  {
    var len := sp.tail - sp.head;
    assert SlotOf(sp.head, len, |slots|) == Mask(sp.tail, |slots|);
    ByRankSlot(slots, sp.head, len);
    assert ByRank(slots, sp.head)[len..][0] == ByRank(slots, sp.head)[len];
    PushBackListing(slots, sp.head, len, x, slots[Mask(sp.tail, |slots|) := Some(x)], len + 1);
  }

  /** Clearing the slot of the first element of a non-empty tier and moving its head on drops that element. */
  lemma SlotsPopFront<T>(slots: seq<Option<T>>, sp: Span, c: seq<T>)
    requires SlotsHold(slots, sp, c) && c != []
    ensures slots[Mask(sp.head, |slots|)] == Some(c[0])
    ensures SlotsHold(slots[Mask(sp.head, |slots|) := None], Span(sp.head + 1, sp.tail), c[1..])
  {
    var len := sp.tail - sp.head;
    assert SlotOf(sp.head, 0, |slots|) == Mask(sp.head, |slots|);
    SlotOfElement(slots, sp.head, len, 0);
    PopFrontListing(slots, sp.head, len, slots[Mask(sp.head, |slots|) := None], sp.head + 1, len - 1);
  }

  /** A full tier read from one slot earlier lists its last element first. */
  lemma SlotsRotateBack<T>(slots: seq<Option<T>>, sp: Span, c: seq<T>)
    requires SlotsHold(slots, sp, c) && |c| == |slots|
    ensures SlotsHold(slots, Span(sp.head - 1, sp.tail - 1), [c[|c| - 1]] + c[..|c| - 1])
  {
    var n := |slots|;
    var w := ByRank(slots, sp.head);
    ByRankBack(slots, sp.head);
    assert Window(slots, sp.head, n) == w;
    ValuesSlice(w, 0, n - 1);
    assert w[0..n - 1] == w[..n - 1];
    ValuesPrepend(w[..n - 1], c[n - 1]);
    assert w[n - 1] == Some(c[n - 1]);
    ListedAs(slots, sp.head - 1, n, [w[n - 1]] + w[..n - 1], []);
  }

  /** Writing one slot of a region is writing the region back with that slot changed. */
  lemma WriteIsOverwrite<T>(buf: seq<Option<T>>, start: nat, size: nat, m: nat, v: Option<T>)
    requires start + size <= |buf| && m < size
    ensures buf[start + m := v] == Overwrite(buf, start, Region(buf, start, size)[m := v])
  {
    var nb := Overwrite(buf, start, Region(buf, start, size)[m := v]);
    forall k | 0 <= k < |buf|
      ensures nb[k] == buf[start + m := v][k]
    {
      if k < start {
        assert nb[k] == buf[..start][k];
      } else if k < start + size {
        assert nb[k] == (buf[..start] + Region(buf, start, size)[m := v])[k];
      } else {
        assert nb[k] == buf[start + size..][k - start - size];
      }
    }
  }

  /** One slot of tier k written: when the tier's slots then read c with the cursors sp, the tiers hold cs with tier k replaced by c. */
  lemma WriteTier<T>(buf: seq<Option<T>>, sps: seq<Span>, cs: seq<seq<T>>, n: nat, k: nat, m: nat, v: Option<T>, sp: Span, c: seq<T>)
    requires Holds(buf, sps, cs, n, 0) && k < |sps| && m < n
    requires Start(n, k) + n <= |buf| && SlotsHold(Region(buf, Start(n, k), n)[m := v], sp, c)
    ensures Holds(buf[Start(n, k) + m := v], sps[k := sp], cs[k := c], n, 0)
  {
    WriteIsOverwrite(buf, Start(n, k), n, m, v);
    HoldsOverwrite(buf, sps, cs, n, 0, k, Region(buf, Start(n, k), n)[m := v], sp, c);
  }

  /** `slice::swap(a, b)`. */
  function Swap<X>(s: seq<X>, a: nat, b: nat): (r: seq<X>)
    requires a < |s| && b < |s|
    ensures |r| == |s| && r[a] == s[b] && r[b] == s[a]
    ensures forall k :: 0 <= k < |s| && k != a && k != b ==> r[k] == s[k]
  {
    s[a := s[b]][b := s[a]]
  }

  /** The cursors after the swap at tier k, once tier k's tail and tier k + 1's head have moved on. */
  function SwapSpans(sps: seq<Span>, k: nat): (r: seq<Span>)
    requires k + 1 < |sps|
    ensures |r| == |sps|
  {
    sps[k := Span(sps[k].head, sps[k].tail + 1)][k + 1 := Span(sps[k + 1].head + 1, sps[k + 1].tail)]
  }

  /** The contents after the swap at tier k: tier k + 1's first element moves to the back of tier k. */
  function SwapStep<T>(cs: seq<seq<T>>, k: nat): (r: seq<seq<T>>)
    requires k + 1 < |cs| && cs[k + 1] != []
    ensures |r| == |cs|
  {
    cs[k := cs[k] + [cs[k + 1][0]]][k + 1 := cs[k + 1][1..]]
  }

  /** The slot after tier k's last element, in the buffer. */
  function TailSlot(sps: seq<Span>, n: nat, k: nat): nat
    requires n > 0 && k < |sps|
  {
    Start(n, k) + Mask(sps[k].tail, n)
  }

  /** The slot of tier k's first element, in the buffer. */
  function HeadSlot(sps: seq<Span>, n: nat, k: nat): nat
    requires n > 0 && k < |sps|
  {
    Start(n, k) + Mask(sps[k].head, n)
  }

  /** Filling the free slot after tier k's last element appends to tier k. */
  lemma PushBackAt<T>(buf: seq<Option<T>>, sps: seq<Span>, cs: seq<seq<T>>, n: nat, k: nat, x: T)
    requires n > 0 && Holds(buf, sps, cs, n, 0) && k < |sps| && |cs[k]| < n
    ensures TailSlot(sps, n, k) < |buf| && buf[TailSlot(sps, n, k)] == None
    ensures Holds(buf[TailSlot(sps, n, k) := Some(x)], sps[k := Span(sps[k].head, sps[k].tail + 1)], cs[k := cs[k] + [x]], n, 0)
  {
    TierFacts(buf, sps, cs, n, 0, k);
    SlotsPushBack(Region(buf, Start(n, k), n), sps[k], cs[k], x);
    WriteTier(buf, sps, cs, n, k, Mask(sps[k].tail, n), Some(x), Span(sps[k].head, sps[k].tail + 1), cs[k] + [x]);
  }

  /** Clearing the slot of tier k's first element drops it from tier k. */
  lemma PopFrontAt<T>(buf: seq<Option<T>>, sps: seq<Span>, cs: seq<seq<T>>, n: nat, k: nat)
    requires n > 0 && Holds(buf, sps, cs, n, 0) && k < |sps| && cs[k] != []
    ensures HeadSlot(sps, n, k) < |buf| && buf[HeadSlot(sps, n, k)] == Some(cs[k][0])
    ensures Holds(buf[HeadSlot(sps, n, k) := None], sps[k := Span(sps[k].head + 1, sps[k].tail)], cs[k := cs[k][1..]], n, 0)
  {
    TierFacts(buf, sps, cs, n, 0, k);
    SlotsPopFront(Region(buf, Start(n, k), n), sps[k], cs[k]);
    WriteTier(buf, sps, cs, n, k, Mask(sps[k].head, n), None, Span(sps[k].head + 1, sps[k].tail), cs[k][1..]);
  }

  /**
   * The swap of the free slot after tier k's last element with the slot of
   * tier k + 1's first element: with tier k's tail and tier k + 1's head
   * moved on, tier k + 1's first element is tier k's last.
   */
  lemma SwapHolds<T>(buf: seq<Option<T>>, sps: seq<Span>, cs: seq<seq<T>>, n: nat, k: nat)
    requires n > 0 && Holds(buf, sps, cs, n, 0) && k + 1 < |sps| && |cs[k]| < n && cs[k + 1] != []
    ensures TailSlot(sps, n, k) < |buf| && HeadSlot(sps, n, k + 1) < |buf|
    ensures Holds(Swap(buf, TailSlot(sps, n, k), HeadSlot(sps, n, k + 1)), SwapSpans(sps, k), SwapStep(cs, k), n, 0)
  {
    var x := cs[k + 1][0];
    var a, b := TailSlot(sps, n, k), HeadSlot(sps, n, k + 1);
    PopFrontAt(buf, sps, cs, n, k + 1);
    PushBackAt(buf, sps, cs, n, k, x);
    var sps1, cs1 := sps[k := Span(sps[k].head, sps[k].tail + 1)], cs[k := cs[k] + [x]];
    var buf1 := buf[a := Some(x)];
    assert HeadSlot(sps1, n, k + 1) == b;
    PopFrontAt(buf1, sps1, cs1, n, k + 1);
    assert Swap(buf, a, b) == buf1[b := None];
  }

  /**
   * One turn of `remove`'s swap loop with the cursors moved as the loop's
   * comments intend: tier k's tail and tier k + 1's head move on at each
   * swap, so tier k + 1's first element becomes tier k's last.
   */
  method SwapAt<T>(buf: seq<Option<T>>, os: seq<ImplicitTierRingOffsets>, ghost sps: seq<Span>, ghost cs: seq<seq<T>>,
                   n: nat, k: nat)
    returns (nb: seq<Option<T>>, ghost nsps: seq<Span>)
    requires n > 0 && k + 1 < |os| && Distinct(os) && Tracks(os, sps) && Holds(buf, sps, cs, n, 0)
    requires |cs[k]| < n && cs[k + 1] != []
    modifies os[k], os[k + 1]
    ensures |nb| == |buf| && Tracks(os, nsps) && Holds(nb, nsps, SwapStep(cs, k), n, 0)
  {
    SwapHolds(buf, sps, cs, n, k);
    var cursor := Start(n, k) + os[k].MaskedTail(n);
    var next := Start(n, k + 1) + os[k + 1].MaskedHead(n);
    nb := Swap(buf, cursor, next);
    os[k].TailForward();
    os[k + 1].HeadForward();
    nsps := SwapSpans(sps, k);
  }

  // ---------------------------------------------------------------------------
  // Families of tiers: cut, joined, grown, truncated, or left alone by a
  // write elsewhere in the buffer.

  /** One tier is a family of one. */
  lemma HoldsOne<T>(buf: seq<Option<T>>, sp: Span, c: seq<T>, size: nat, first: nat)
    requires TierAt(buf, sp, Start(size, first), size, c)
    ensures Holds(buf, [sp], [c], size, first)
  {
    StartShift(size, first);
    assert TierAt(buf, Nth([sp], 0), Start(size, first + 0), size, [c][0]);
  }

  /** A family followed by the tier after it is one family. */
  lemma HoldsSnoc<T>(buf: seq<Option<T>>, sps: seq<Span>, cs: seq<seq<T>>, size: nat, first: nat, sp: Span, c: seq<T>)
    requires Holds(buf, sps, cs, size, first) && TierAt(buf, sp, Start(size, first + |sps|), size, c)
    ensures Holds(buf, sps + [sp], cs + [c], size, first)
  {
    StartShift(size, first + |sps|);
    var nsps, ncs := sps + [sp], cs + [c];
    forall j | 0 <= j < |nsps|
      ensures TierAt(buf, Nth(nsps, j), Start(size, first + j), size, ncs[j])
    {
      if j < |sps| {
        TierFacts(buf, sps, cs, size, first, j);
      }
    }
  }

  /** A family followed by the family of the tiers after it is one family. */
  lemma HoldsJoin<T>(buf: seq<Option<T>>, sa: seq<Span>, ca: seq<seq<T>>, sb: seq<Span>, cb: seq<seq<T>>, size: nat, first: nat)
    requires Holds(buf, sa, ca, size, first) && Holds(buf, sb, cb, size, first + |sa|)
    ensures Holds(buf, sa + sb, ca + cb, size, first)
  {
    var sps, cs := sa + sb, ca + cb;
    forall j | 0 <= j < |sps|
      ensures TierAt(buf, Nth(sps, j), Start(size, first + j), size, cs[j])
    {
      if j < |sa| {
        TierFacts(buf, sa, ca, size, first, j);
      } else {
        TierFacts(buf, sb, cb, size, first + |sa|, j - |sa|);
      }
    }
  }

  /** A family cut after its first k tiers: the first k, and the rest. */
  lemma HoldsSplit<T>(buf: seq<Option<T>>, sps: seq<Span>, cs: seq<seq<T>>, size: nat, first: nat, k: nat)
    requires Holds(buf, sps, cs, size, first) && k <= |sps|
    ensures Holds(buf, sps[..k], cs[..k], size, first)
    ensures Holds(buf, sps[k..], cs[k..], size, first + k)
  {
    StartMonotone(size, first + k, first + |sps|);
    forall j | 0 <= j < k
      ensures TierAt(buf, Nth(sps[..k], j), Start(size, first + j), size, cs[..k][j])
    {
      TierFacts(buf, sps, cs, size, first, j);
    }
    forall j | 0 <= j < |sps| - k
      ensures TierAt(buf, Nth(sps[k..], j), Start(size, first + k + j), size, cs[k..][j])
    {
      TierFacts(buf, sps, cs, size, first, k + j);
    }
  }

  /** A write to slots outside the family's leaves every tier of it as it was. */
  lemma HoldsElsewhere<T>(buf: seq<Option<T>>, sps: seq<Span>, cs: seq<seq<T>>, size: nat, first: nat,
                          start: nat, s: seq<Option<T>>)
    requires Holds(buf, sps, cs, size, first) && start + |s| <= |buf|
    requires Start(size, first + |sps|) <= start || start + |s| <= Start(size, first)
    ensures Holds(Overwrite(buf, start, s), sps, cs, size, first)
  {
    forall j | 0 <= j < |sps|
      ensures TierAt(Overwrite(buf, start, s), Nth(sps, j), Start(size, first + j), size, cs[j])
    {
      TierFacts(buf, sps, cs, size, first, j);
      RegionInside(first + j, first + |sps|, size);
      StartMonotone(size, first, first + j);
      TierKept(buf, start, s, sps[j], Start(size, first + j), size, cs[j]);
    }
  }

  /** Slots added at the end of the buffer leave every tier as it was. */
  lemma HoldsGrow<T>(buf: seq<Option<T>>, sps: seq<Span>, cs: seq<seq<T>>, size: nat, first: nat, ext: seq<Option<T>>)
    requires Holds(buf, sps, cs, size, first)
    ensures Holds(buf + ext, sps, cs, size, first)
  {
    forall j | 0 <= j < |sps|
      ensures TierAt(buf + ext, Nth(sps, j), Start(size, first + j), size, cs[j])
    {
      TierFacts(buf, sps, cs, size, first, j);
      var a := Start(size, first + j);
      assert Region(buf + ext, a, size) == Region(buf, a, size);
    }
  }

  /** Cutting the buffer after the family's slots leaves every tier as it was. */
  lemma HoldsTruncate<T>(buf: seq<Option<T>>, sps: seq<Span>, cs: seq<seq<T>>, size: nat, first: nat, m: nat)
    requires Holds(buf, sps, cs, size, first) && Start(size, first + |sps|) <= m <= |buf|
    ensures Holds(buf[..m], sps, cs, size, first)
  {
    forall j | 0 <= j < |sps|
      ensures TierAt(buf[..m], Nth(sps, j), Start(size, first + j), size, cs[j])
    {
      TierFacts(buf, sps, cs, size, first, j);
      RegionInside(first + j, first + |sps|, size);
      var a := Start(size, first + j);
      assert Region(buf[..m], a, size) == Region(buf, a, size);
    }
  }

  /** The cursors of `count` offsets just made by `Default`. */
  function Zeros(count: nat): (sps: seq<Span>)
    ensures |sps| == count && forall j :: 0 <= j < count ==> sps[j] == Span(0, 0)
  {
    seq(count, _ => Span(0, 0))
  }

  /** Free slots read with both cursors at 0 are an empty tier. */
  lemma FreeHoldsNothing<T>(slots: seq<Option<T>>)
    requires 0 < |slots| && AllNone(slots)
    ensures SlotsHold(slots, Span(0, 0), [])
  {
    ByRankIsRotation(slots, 0);
    assert slots == [] + slots;
    ListedAs(slots, 0, 0, [], slots);
  }

  /** Over free slots, `count` tiers with `Default` offsets hold nothing. */
  lemma HoldsEmpties<T>(buf: seq<Option<T>>, size: nat, first: nat, count: nat)
    requires size > 0 && Start(size, first) <= Start(size, first + count) <= |buf|
    requires AllNone(buf[Start(size, first)..])
    ensures Holds(buf, Zeros(count), Empties<T>(count), size, first)
  {
    var sps, cs := Zeros(count), Empties<T>(count);
    forall j | 0 <= j < count
      ensures TierAt(buf, Nth(sps, j), Start(size, first + j), size, cs[j])
    {
      RegionInside(first + j, first + count, size);
      StartMonotone(size, first, first + j);
      var a := Start(size, first + j);
      var r := Region(buf, a, size);
      forall k | 0 <= k < size
        ensures r[k].None?
      {
        assert r[k] == buf[Start(size, first)..][a + k - Start(size, first)];
      }
      FreeHoldsNothing(r);
    }
  }

  /** Two neighbouring slices of `size` slots are the halves of the slice of 2 * size from the first. */
  lemma RegionHalves<T>(buf: seq<Option<T>>, start: nat, size: nat)
    requires start + 2 * size <= |buf|
    ensures Region(buf, start, 2 * size)[..size] == Region(buf, start, size)
    ensures Region(buf, start, 2 * size)[size..] == Region(buf, start + size, size)
  {
  }

  // ---------------------------------------------------------------------------
  // `ImplicitTier::merge_neighbors` and `ImplicitTier::split_half`, which the
  // crate calls from `expand` and `try_contract` but does not define here.
  // They are given the effect of `merge` and `split_half` of the canonical
  // tier: the elements are laid from slot 0 on, as after `rotate_reset`.

  /** Slots holding c from slot 0 on, the others free. */
  function Laid<T>(c: seq<T>, size: nat): (s: seq<Option<T>>)
    requires |c| <= size
    ensures |s| == size
  {
    seq(size, k requires 0 <= k < size => if k < |c| then Some(c[k]) else None)
  }

  /** Laid-out slots read with cursors 0 and |c| hold c. */
  lemma LaidHolds<T>(c: seq<T>, size: nat)
    requires 0 < size && |c| <= size
    ensures SlotsHold(Laid(c, size), Span(0, |c|), c)
  {
    var s := Laid(c, size);
    ByRankIsRotation(s, 0);
    assert s == s[..|c|] + s[|c|..];
    assert Values(s[..|c|]) == c;
    ListedAs(s, 0, |c|, s[..|c|], s[|c|..]);
  }

  /**
   * `merge_neighbors(slots, first, second)` over the slots of two
   * neighbouring tiers of equal size: the first tier's offsets then read,
   * over all the slots, the first tier's elements followed by the second's.
   */
  method MergeNeighbors<T>(slots: seq<Option<T>>, first: ImplicitTierRingOffsets, second: ImplicitTierRingOffsets,
                           ghost a: seq<T>, ghost b: seq<T>)
    returns (ns: seq<Option<T>>)
    requires |slots| % 2 == 0
    requires SlotsHold(slots[..|slots| / 2], SpanOf(first), a) && SlotsHold(slots[|slots| / 2..], SpanOf(second), b)
    modifies first
    ensures |ns| == |slots| && SlotsHold(ns, SpanOf(first), a + b)
  {
    var half := |slots| / 2;
    ReadWith(slots[..half], first);
    ReadWith(slots[half..], second);
    var joined := Implicit.Elements(slots[..half], first) + Implicit.Elements(slots[half..], second);
    ns := Laid(joined, |slots|);
    first.head, first.tail := 0, |joined|;
    LaidHolds(joined, |slots|);
  }

  /**
   * `split_half(slots, o)` over the slots of one tier: the lower half keeps
   * the first min(len, half) elements under `o`, and the upper half holds
   * the rest under the offsets returned.
   */
  method SplitHalf<T>(slots: seq<Option<T>>, o: ImplicitTierRingOffsets, ghost c: seq<T>)
    returns (ns: seq<Option<T>>, upper: ImplicitTierRingOffsets)
    requires |slots| >= 2 && |slots| % 2 == 0 && SlotsHold(slots, SpanOf(o), c)
    modifies o
    ensures fresh(upper) && |ns| == |slots|
    ensures SlotsHold(ns[..|slots| / 2], SpanOf(o), c[..Min(|c|, |slots| / 2)])
    ensures SlotsHold(ns[|slots| / 2..], SpanOf(upper), c[Min(|c|, |slots| / 2)..])
  {
    var half := |slots| / 2;
    ReadWith(slots, o);
    var elems := Implicit.Elements(slots, o);
    var k := Min(|elems|, half);
    ns := Laid(elems[..k], half) + Laid(elems[k..], half);
    LaidHalves(elems, half);
    o.head, o.tail := 0, k;
    upper := new ImplicitTierRingOffsets.Default();
    upper.tail := |elems| - k;
  }

  /** Each half of the slots `split_half` lays out holds its part of c from cursor 0. */
  lemma LaidHalves<T>(c: seq<T>, half: nat)
    requires 0 < half && |c| <= 2 * half
    ensures var k := Min(|c|, half); var ns := Laid(c[..k], half) + Laid(c[k..], half);
      |ns| == 2 * half && SlotsHold(ns[..half], Span(0, k), c[..k]) && SlotsHold(ns[half..], Span(0, |c| - k), c[k..])
  {
    var k := Min(|c|, half);
    var lower, rest := Laid(c[..k], half), Laid(c[k..], half);
    LaidHolds(c[..k], half);
    LaidHolds(c[k..], half);
    assert (lower + rest)[..half] == lower && (lower + rest)[half..] == rest;
  }
}
