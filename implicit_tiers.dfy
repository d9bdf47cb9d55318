// The loops of an `ImplicitTieredVec` (src/implicit/tiered_vec.rs) over its
// flat buffer and its offsets: `len`, the pop-push loop of `insert`, the
// swap loop of `remove`, the merging loop of `expand` and the splitting loop
// of `try_contract`. Each is a method proved against the closed forms of
// modules Tiers and Layout, so that the vector's elements after each
// operation are those the linked vector would hold.
module ImplicitTiers {
  import opened Wrappers
  import opened Errors
  import opened Seqs
  import opened Ring
  import opened RingOffsets
  import opened Tiers
  import opened Layout
  import opened Slots
  import opened ImplicitSlices

  /**
   * The invariant of an implicit vector: n offsets, n a power of two of at
   * least 2, over a buffer of n * n slots whose tiers hold packed contents.
   */
  ghost predicate Wellformed<T>(buf: seq<Option<T>>, os: seq<ImplicitTierRingOffsets>, sps: seq<Span>, cs: seq<seq<T>>)
    reads os
  {
    |os| >= 2 && IsPowerOfTwo(|os|) && |buf| == Start(|os|, |os|)
    && Distinct(os) && Tracks(os, sps) && Holds(buf, sps, cs, |os|, 0) && Packed(cs, |os|)
  }

  // ---------------------------------------------------------------------------
  // The swap loop of `remove`. Once tier t has given up an element, the slot
  // after its last element is free; the loop swaps that slot with the slot
  // of tier t + 1's first element, then does the same for tier t + 1 and
  // t + 2, and so on up to the tier of the last rank.

  /** Every tier after t up to k holds an element, so each swap has one to move. */
  ghost predicate Feeds<T>(c1: seq<seq<T>>, t: nat, k: nat)
  {
    k < |c1| && forall j :: t < j <= k ==> c1[j] != []
  }

  /**
   * Tier j after the swaps at tiers t .. k - 1, each of which moves the
   * first element of the next tier to the back of the tier: tier t keeps its
   * elements, the tiers after it up to k have lost their first, and every
   * tier before k has gained the first element of the next.
   */
  ghost function SweptTier<T>(c1: seq<seq<T>>, t: nat, k: nat, j: nat): seq<T>
    requires t <= k && Feeds(c1, t, k) && j < |c1|
  {
    if j < t || k < j then c1[j]
    else (if j == t then c1[t] else c1[j][1..]) + (if j < k then [c1[j + 1][0]] else [])
  }

  /** The contents after the swaps at tiers t .. k - 1. */
  ghost function Swept<T>(c1: seq<seq<T>>, t: nat, k: nat): (cs: seq<seq<T>>)
    requires t <= k && Feeds(c1, t, k)
    ensures |cs| == |c1|
  {
    seq(|c1|, j requires 0 <= j < |c1| => SweptTier(c1, t, k, j))
  }

  /** Before the first swap nothing has moved. */
  lemma SweptNone<T>(c1: seq<seq<T>>, t: nat)
    requires t < |c1|
    ensures Feeds(c1, t, t) && Swept(c1, t, t) == c1
  {
    forall j | 0 <= j < |c1|
      ensures Swept(c1, t, t)[j] == c1[j]
    {
      if j == t {
        assert c1[t] + [] == c1[t];
      }
    }
  }

  /** The swap at tier k takes the contents after the swaps up to k - 1 to those after the swaps up to k. */
  lemma SweptStep<T>(c1: seq<seq<T>>, t: nat, k: nat)
    requires t <= k && Feeds(c1, t, k + 1)
    ensures Feeds(c1, t, k) && Swept(c1, t, k)[k] == (if k == t then c1[t] else c1[k][1..])
    ensures Swept(c1, t, k)[k + 1] == c1[k + 1] != []
    ensures SwapStep(Swept(c1, t, k), k) == Swept(c1, t, k + 1)
  {
    var a, b := SwapStep(Swept(c1, t, k), k), Swept(c1, t, k + 1);
    forall j | 0 <= j < |c1|
      ensures a[j] == b[j]
    {
      if j == k {
        assert Swept(c1, t, k)[k] == (if k == t then c1[t] else c1[k][1..]) + [];
      }
    }
  }

  /**
   * The swap loop of `remove` from tier t to tier `last`, with the cursors
   * moved at each swap: tier k's tail and tier k + 1's head move on, so the
   * element swapped into tier k is its new last one.
   */
  method SwapCascade<T>(buf: seq<Option<T>>, os: seq<ImplicitTierRingOffsets>, ghost sps: seq<Span>, ghost c1: seq<seq<T>>,
                        n: nat, t: nat, last: nat)
    returns (nb: seq<Option<T>>, ghost nsps: seq<Span>)
    requires n > 0 && t <= last < |os| && Distinct(os) && Tracks(os, sps) && Holds(buf, sps, c1, n, 0)
    requires Feeds(c1, t, last) && (t < last ==> |c1[t]| < n)
    requires forall j :: t < j <= last ==> |c1[j]| <= n
    modifies os
    ensures |nb| == |buf| && Tracks(os, nsps) && Holds(nb, nsps, Swept(c1, t, last), n, 0)
  {
    nb, nsps := buf, sps;
    SweptNone(c1, t);
    var k := t;
    while k < last
      invariant t <= k <= last && |nb| == |buf| && Tracks(os, nsps) && Holds(nb, nsps, Swept(c1, t, k), n, 0)
    {
      SweptStep(c1, t, k);
      nb, nsps := SwapAt(nb, os, nsps, Swept(c1, t, k), n, k);
      k := k + 1;
    }
  }

  // ---------------------------------------------------------------------------
  // The swap loop as the crate writes it: the slots swapped are read from the
  // offsets as they stood before the loop, and only tier t's tail and the
  // last tier's head move on afterwards.

  /**
   * The cursors under which the slots read as `Swept` after the swaps at
   * tiers t .. k - 1: tier t's tail and tier k's head one on, the tiers in
   * between shifted one on at both ends.
   */
  ghost function VirtualSpans(sps: seq<Span>, t: nat, k: nat): (vs: seq<Span>)
    ensures |vs| == |sps|
  {
    seq(|sps|, j requires 0 <= j < |sps| =>
      if t < k && j == t then Span(sps[j].head, sps[j].tail + 1)
      else if t < j < k then Span(sps[j].head + 1, sps[j].tail + 1)
      else if t < k && j == k then Span(sps[j].head + 1, sps[j].tail)
      else sps[j])
  }

  /** The swap at tier k moves the cursors from those after k - 1 swaps to those after k. */
  lemma VirtualStep(sps: seq<Span>, t: nat, k: nat)
    requires t <= k && k + 1 < |sps|
    ensures VirtualSpans(sps, t, k)[k].tail == sps[k].tail && VirtualSpans(sps, t, k)[k + 1] == sps[k + 1]
    ensures SwapSpans(VirtualSpans(sps, t, k), k) == VirtualSpans(sps, t, k + 1)
  {
  }

  /** The cursors after the loop as written: only tier t's tail and tier `last`'s head have moved. */
  function MovedEnds(sps: seq<Span>, t: nat, last: nat): (r: seq<Span>)
    requires t < last < |sps|
    ensures |r| == |sps|
  {
    sps[t := Span(sps[t].head, sps[t].tail + 1)][last := Span(sps[last].head + 1, sps[last].tail)]
  }

  /**
   * The contents after the loop as written: like `Swept`, except that each
   * full tier strictly between t and `last` reads the element swapped into
   * it first rather than last, since its head never moved.
   */
  ghost function SweptAsWritten<T>(c1: seq<seq<T>>, t: nat, last: nat): (cs: seq<seq<T>>)
    requires t <= last && Feeds(c1, t, last)
    ensures |cs| == |c1|
  {
    seq(|c1|, j requires 0 <= j < |c1| =>
      if t < j < last then [c1[j + 1][0]] + c1[j][1..] else SweptTier(c1, t, last, j))
  }

  /** With the ends moved as written, each middle tier is read one slot early. */
  lemma MiddlesReadEarly<T>(buf: seq<Option<T>>, sps: seq<Span>, c1: seq<seq<T>>, n: nat, t: nat, last: nat)
    requires n > 0 && t < last < |sps| && Feeds(c1, t, last) && forall j :: t < j < last ==> |c1[j]| == n
    requires Holds(buf, VirtualSpans(sps, t, last), Swept(c1, t, last), n, 0)
    ensures Holds(buf, MovedEnds(sps, t, last), SweptAsWritten(c1, t, last), n, 0)
  {
    var vs, ms := VirtualSpans(sps, t, last), MovedEnds(sps, t, last);
    var cs, ws := Swept(c1, t, last), SweptAsWritten(c1, t, last);
    forall j | 0 <= j < |ms|
      ensures TierAt(buf, Nth(ms, j), Start(n, j), n, ws[j])
    {
      TierFacts(buf, vs, cs, n, 0, j);
      if t < j < last {
        MiddleReadEarly(buf, sps, c1, n, t, last, j);
      } else {
        EndReadSame(sps, c1, t, last, j);
      }
    }
  }

  /** A middle tier: its head stayed put while the element swapped in went to its back. */
  lemma MiddleReadEarly<T>(buf: seq<Option<T>>, sps: seq<Span>, c1: seq<seq<T>>, n: nat, t: nat, last: nat, j: nat)
    requires t < j < last < |sps| && Feeds(c1, t, last) && |c1[j]| == n
    requires TierAt(buf, VirtualSpans(sps, t, last)[j], Start(n, j), n, Swept(c1, t, last)[j])
    ensures TierAt(buf, MovedEnds(sps, t, last)[j], Start(n, j), n, SweptAsWritten(c1, t, last)[j])
  {
    var vs := VirtualSpans(sps, t, last);
    var a, x := c1[j], c1[j + 1][0];
    assert TierAt(buf, vs[j], Start(n, j), n, a[1..] + [x]) by {
      assert Swept(c1, t, last)[j] == a[1..] + [x];
    }
    assert SweptAsWritten(c1, t, last)[j] == [x] + a[1..];
    assert MovedEnds(sps, t, last)[j] == Span(vs[j].head - 1, vs[j].tail - 1);
    TierReadEarly(buf, vs[j], Start(n, j), n, a[1..] + [x]);
    RotatedBack(a[1..], x);
  }

  /** Bringing the last element of `a + [x]` to the front gives `[x] + a`. */
  lemma RotatedBack<T>(a: seq<T>, x: T)
    ensures var c := a + [x]; [c[|c| - 1]] + c[..|c| - 1] == [x] + a
  {
    var c := a + [x];
    assert c[..|c| - 1] == a;
  }

  /** The two end tiers and the tiers outside the loop read as `Swept` has them. */
  lemma EndReadSame<T>(sps: seq<Span>, c1: seq<seq<T>>, t: nat, last: nat, j: nat)
    requires t < last < |sps| && Feeds(c1, t, last) && j < |sps| && |c1| == |sps| && !(t < j < last)
    ensures MovedEnds(sps, t, last)[j] == VirtualSpans(sps, t, last)[j]
    ensures SweptAsWritten(c1, t, last)[j] == Swept(c1, t, last)[j]
  {
  }

  /** A full tier read with both cursors one slot back holds its last element first. */
  lemma TierReadEarly<T>(buf: seq<Option<T>>, sp: Span, start: nat, n: nat, c: seq<T>)
    requires TierAt(buf, sp, start, n, c) && |c| == n
    ensures TierAt(buf, Span(sp.head - 1, sp.tail - 1), start, n, [c[|c| - 1]] + c[..|c| - 1])
  {
    SlotsRotateBack(Region(buf, start, n), sp, c);
  }

  /**
   * The swaps of `remove`'s loop as written, from tier t to tier `last`: the
   * slots swapped at tier k are found with the cursors as they stood before
   * the loop, which are those `VirtualSpans` has for the two tiers swapped.
   */
  method SwapLoopAsWritten<T>(buf: seq<Option<T>>, os: seq<ImplicitTierRingOffsets>, ghost sps: seq<Span>, ghost c1: seq<seq<T>>,
                              n: nat, t: nat, last: nat)
    returns (nb: seq<Option<T>>)
    requires n > 0 && t <= last < |os| && Tracks(os, sps) && Holds(buf, sps, c1, n, 0)
    requires Feeds(c1, t, last) && (t < last ==> |c1[t]| < n) && forall j :: t < j <= last ==> |c1[j]| <= n
    ensures |nb| == |buf| && Holds(nb, VirtualSpans(sps, t, last), Swept(c1, t, last), n, 0)
  {
    nb := buf;
    ghost var vs := sps;
    SweptNone(c1, t);
    assert VirtualSpans(sps, t, t) == sps;
    var k := t;
    while k < last
      invariant t <= k <= last && |nb| == |buf| && vs == VirtualSpans(sps, t, k) && Holds(nb, vs, Swept(c1, t, k), n, 0)
    {
      SweptStep(c1, t, k);
      VirtualStep(sps, t, k);
      var cursor := Start(n, k) + os[k].MaskedTail(n);
      var next := Start(n, k + 1) + os[k + 1].MaskedHead(n);
      assert cursor == TailSlot(vs, n, k) && next == HeadSlot(vs, n, k + 1) by {
        assert SpanOf(os[k]) == sps[k] && SpanOf(os[k + 1]) == sps[k + 1];
      }
      assert |Swept(c1, t, k)[k]| < n;
      SwapHolds(nb, vs, Swept(c1, t, k), n, k);
      nb := Swap(nb, cursor, next);
      vs := SwapSpans(vs, k);
      k := k + 1;
    }
  }

  /**
   * The swap loop of `remove` as written, from tier t to tier `last`: the
   * swapped slots are where the loop's comments say, but only tier t's tail
   * and the last tier's head move on, so each full tier in between is read
   * from the element swapped into its back.
   */
  method SwapCascadeAsWritten<T>(buf: seq<Option<T>>, os: seq<ImplicitTierRingOffsets>, ghost sps: seq<Span>, ghost c1: seq<seq<T>>,
                                 n: nat, t: nat, last: nat)
    returns (nb: seq<Option<T>>, ghost nsps: seq<Span>)
    requires n > 0 && t < last < |os| && Distinct(os) && Tracks(os, sps) && Holds(buf, sps, c1, n, 0)
    requires Feeds(c1, t, last) && |c1[t]| < n && |c1[last]| <= n && forall j :: t < j < last ==> |c1[j]| == n
    modifies os[t], os[last]
    ensures |nb| == |buf| && Tracks(os, nsps) && Holds(nb, nsps, SweptAsWritten(c1, t, last), n, 0)
  {
    nb := SwapLoopAsWritten(buf, os, sps, c1, n, t, last);
    os[t].TailForward();
    os[last].HeadForward();
    nsps := MovedEnds(sps, t, last);
    MiddlesReadEarly(nb, sps, c1, n, t, last);
  }

  /**
   * With tiers of 4 holding 1 .. 9, removing rank 0 leaves 2, 3, 4 in tier
   * 0; the loop as written then reads 2, 3, 4, 5, 9, 6, 7, 8, where the
   * cursors moved at each swap read 2, 3, 4, 5, 6, 7, 8, 9.
   */
  lemma SwapCascadeReorders()
    ensures Chunks([1, 2, 3, 4, 5, 6, 7, 8, 9], 4, 4)[0 := [2, 3, 4]] == [[2, 3, 4], [5, 6, 7, 8], [9], []]
    ensures Feeds([[2, 3, 4], [5, 6, 7, 8], [9], []], 0, 2)
    ensures Flatten(SweptAsWritten([[2, 3, 4], [5, 6, 7, 8], [9], []], 0, 2)) == [2, 3, 4, 5, 9, 6, 7, 8]
    ensures Flatten(Swept([[2, 3, 4], [5, 6, 7, 8], [9], []], 0, 2)) == [2, 3, 4, 5, 6, 7, 8, 9]
  {
    ExampleTiers();
    ExampleAsWritten();
    ExampleSwept();
    FlattenFour([2, 3, 4, 5], [9, 6, 7, 8]);
    FlattenFour([2, 3, 4, 5], [6, 7, 8, 9]);
  }

  lemma ExampleTiers()
    ensures Chunks([1, 2, 3, 4, 5, 6, 7, 8, 9], 4, 4)[0 := [2, 3, 4]] == [[2, 3, 4], [5, 6, 7, 8], [9], []]
  {
    var s := [1, 2, 3, 4, 5, 6, 7, 8, 9];
    var cs := Chunks(s, 4, 4);
    assert Start(4, 1) == 4 && Start(4, 2) == 8 && Start(4, 3) == 12;
    assert cs[0] == s[0..4] == [1, 2, 3, 4];
    assert cs[1] == s[4..8] == [5, 6, 7, 8];
    assert cs[2] == s[8..9] == [9];
    assert cs[3] == s[9..9] == [];
  }

  lemma ExampleAsWritten()
    ensures Feeds([[2, 3, 4], [5, 6, 7, 8], [9], []], 0, 2)
    ensures SweptAsWritten([[2, 3, 4], [5, 6, 7, 8], [9], []], 0, 2) == [[2, 3, 4, 5], [9, 6, 7, 8], [], []]
  {
    var c1 := [[2, 3, 4], [5, 6, 7, 8], [9], []];
    var w := SweptAsWritten(c1, 0, 2);
    assert w[0] == SweptTier(c1, 0, 2, 0) == [2, 3, 4] + [5] == [2, 3, 4, 5];
    assert w[1] == [9] + [6, 7, 8] == [9, 6, 7, 8];
    assert w[2] == SweptTier(c1, 0, 2, 2) == [9][1..] + [] == [];
    assert w[3] == [];
  }

  lemma ExampleSwept()
    ensures Feeds([[2, 3, 4], [5, 6, 7, 8], [9], []], 0, 2)
    ensures Swept([[2, 3, 4], [5, 6, 7, 8], [9], []], 0, 2) == [[2, 3, 4, 5], [6, 7, 8, 9], [], []]
  {
    var c1 := [[2, 3, 4], [5, 6, 7, 8], [9], []];
    var v := Swept(c1, 0, 2);
    assert v[0] == SweptTier(c1, 0, 2, 0) == [2, 3, 4] + [5] == [2, 3, 4, 5];
    assert v[1] == SweptTier(c1, 0, 2, 1) == [6, 7, 8] + [9] == [6, 7, 8, 9];
    assert v[2] == SweptTier(c1, 0, 2, 2) == [9][1..] + [] == [];
    assert v[3] == [];
  }

  /** Two tiers followed by two empty ones hold the first then the second. */
  lemma FlattenFour(a: seq<int>, b: seq<int>)
    ensures Flatten([a, b, [], []]) == a + b
  {
    assert [a, b, [], []] == [a] + [b, [], []];
    assert [b, [], []] == [b] + [[], []];
    FlattenConcat([a], [b, [], []]);
    FlattenConcat([b], [[], []]);
    FlattenOne(a);
    FlattenOne(b);
    FlattenEmpty<int>([[], []]);
  }

  // ---------------------------------------------------------------------------
  // The swap loop keeps the tiers the runs of n elements.

  /**
   * The reverse loop of the linked vector over tiers that all hold an
   * element: each tier loses its first element and gains the next tier's
   * first, the last tier gains the carry, and the first tier's first element
   * comes out.
   */
  lemma {:induction false} RefillRunNonEmpty<T>(ts: seq<seq<T>>, carry: Option<T>)
    requires forall j :: 0 <= j < |ts| ==> ts[j] != []
    ensures RefillRun(ts, carry).1 == if ts == [] then carry else Some(ts[0][0])
    ensures forall j :: 0 <= j < |ts| ==>
      RefillRun(ts, carry).0[j] == ts[j][1..] + (if j + 1 < |ts| then [ts[j + 1][0]] else CarryList(carry))
  {
    if ts != [] {
      var k := |ts| - 1;
      RefillRunNonEmpty(ts[..k], Some(ts[k][0]));
    }
  }

  /**
   * Where the swap loop runs in a vector of tier size n holding s: from the
   * tier of `rank` to the tier of the last rank; every tier in between holds
   * an element and every tier after it is empty.
   */
  lemma SwapRange<T>(s: seq<T>, n: nat, rank: nat)
    requires n > 0 && rank < |s| <= Start(n, n)
    ensures rank / n <= (|s| - 1) / n < n
    ensures forall j :: 0 <= j <= (|s| - 1) / n ==> Chunks(s, n, n)[j] != []
    ensures AllEmpty(Chunks(s, n, n)[(|s| - 1) / n + 1..])
  {
    var last := (|s| - 1) / n;
    StartOfQuotient(n, |s| - 1);
    QuotientMonotone(n, rank, |s| - 1);
    if last >= n {
      StartMonotone(n, n, last);
    }
    forall j | 0 <= j <= last
      ensures Chunks(s, n, n)[j] != []
    {
      StartMonotone(n, j, last);
    }
    forall j | last + 1 <= j < n
      ensures Chunks(s, n, n)[j] == []
    {
      StartShift(n, last);
      StartMonotone(n, last + 1, j);
    }
  }

  /**
   * The swap loop from the tier of `rank` to the tier of the last rank gives
   * the same tiers as the linked vector's reverse loop, up to that last tier.
   */
  lemma SweptIsClosed<T>(c0: seq<seq<T>>, t: nat, r: nat, last: nat)
    requires t <= last < |c0| && r < |c0[t]| && forall j :: t < j <= last ==> c0[j] != []
    ensures Feeds(c0[t := RemoveAt(c0[t], r)], t, last)
    ensures Swept(c0[t := RemoveAt(c0[t], r)], t, last) == RemoveClosed(c0, t, r, last + 1)
  {
    var c1 := c0[t := RemoveAt(c0[t], r)];
    var ts := c0[t + 1..last + 1];
    var run := RefillRun(ts, None);
    RefillRunNonEmpty(ts, None);
    var rc := RemoveClosed(c0, t, r, last + 1);
    assert |rc| == |c1|;
    forall j | 0 <= j < |c1|
      ensures Swept(c1, t, last)[j] == rc[j]
    {
      if j < t {
        assert rc[j] == c0[..t][j];
      } else if j == t {
        assert rc[t] == RemoveAt(c0[t], r) + CarryList(run.1);
        if t == last {
          assert RemoveAt(c0[t], r) + [] == RemoveAt(c0[t], r);
        }
      } else if j <= last {
        assert rc[j] == (run.0 + c0[last + 1..])[j - t - 1] == run.0[j - t - 1];
        assert ts[j - t - 1] == c0[j];
      } else {
        assert rc[j] == (run.0 + c0[last + 1..])[j - t - 1] == c0[last + 1..][j - last - 1];
      }
    }
  }

  /** The tiers of a vector of tier size n holding s once tier rank / n has given up its element at offset rank mod n. */
  ghost function TierRemoved<T>(s: seq<T>, n: nat, rank: nat): (c1: seq<seq<T>>)
    requires n > 0 && rank < |s| <= Start(n, n)
    ensures |c1| == n
  {
    RankLookup(s, n, rank);
    Chunks(s, n, n)[rank / n := RemoveAt(Chunks(s, n, n)[rank / n], rank % n)]
  }

  /**
   * `remove(rank)` through the swap loop: removing at offset rank mod n of
   * tier rank / n and sweeping up to the tier of the last rank leaves the
   * runs of n elements of s without the element of rank `rank`.
   */
  lemma SweptIsRemoval<T>(s: seq<T>, n: nat, rank: nat)
    requires n > 0 && rank < |s| <= Start(n, n)
    ensures rank / n <= (|s| - 1) / n < n && rank % n < |Chunks(s, n, n)[rank / n]|
    ensures Chunks(s, n, n)[rank / n][rank % n] == s[rank]
    ensures rank / n < (|s| - 1) / n ==> |Chunks(s, n, n)[rank / n]| == n
    ensures Feeds(TierRemoved(s, n, rank), rank / n, (|s| - 1) / n)
    ensures Swept(TierRemoved(s, n, rank), rank / n, (|s| - 1) / n) == Chunks(RemoveAt(s, rank), n, n)
  {
    var c0 := Chunks(s, n, n);
    var t: nat, r: nat, last := rank / n, rank % n, (|s| - 1) / n;
    RemovalPoint(s, n, rank);
    RankLookup(s, n, rank);
    SwapRange(s, n, rank);
    SweptChunks(c0, n, t, r, last, RemoveAt(s, rank));
    if t < last {
      FullBefore(c0, n, t, last);
    }
  }

  /** The swap loop after a removal from packed tiers: the runs of n elements of what remains. */
  lemma SweptChunks<T>(c0: seq<seq<T>>, n: nat, t: nat, r: nat, last: nat, x: seq<T>)
    requires n > 0 && Packed(c0, n) && |c0| == n && t <= last < n && r < |c0[t]|
    requires (forall j :: t < j <= last ==> c0[j] != []) && AllEmpty(c0[last + 1..])
    requires |Flatten(c0[..t])| + r < |Flatten(c0)| && x == RemoveAt(Flatten(c0), |Flatten(c0[..t])| + r)
    ensures Feeds(c0[t := RemoveAt(c0[t], r)], t, last)
    ensures Swept(c0[t := RemoveAt(c0[t], r)], t, last) == Chunks(x, n, n)
  {
    var c1 := c0[t := RemoveAt(c0[t], r)];
    assert Feeds(c1, t, last) && Swept(c1, t, last) == RemoveClosed(c0, t, r, last + 1) by {
      SweptIsClosed(c0, t, r, last);
    }
    assert RemoveClosed(c0, t, r, last + 1) == Chunks(x, n, n) by {
      ClosedChunks(c0, n, t, r, last + 1, x);
    }
  }

  /** In packed tiers, a tier before one that holds an element is full. */
  lemma FullBefore<T>(c0: seq<seq<T>>, n: nat, t: nat, last: nat)
    requires Packed(c0, n) && t < last < |c0| && c0[last] != []
    ensures |c0[t]| == n
  {
  }

  /** The linked vector's removal, closed form, leaves the runs of n elements of what remains. */
  lemma ClosedChunks<T>(c0: seq<seq<T>>, n: nat, t: nat, r: nat, hi: nat, x: seq<T>)
    requires n > 0 && Packed(c0, n) && |c0| == n && t < hi <= n && r < |c0[t]| && AllEmpty(c0[hi..])
    requires |Flatten(c0[..t])| + r < |Flatten(c0)| && x == RemoveAt(Flatten(c0), |Flatten(c0[..t])| + r)
    ensures RemoveClosed(c0, t, r, hi) == Chunks(x, n, n)
  {
    RemoveClosedInOrder(c0, t, r, hi);
    RemoveClosedPacked(c0, n, t, r, hi);
    var rc := RemoveClosed(c0, t, r, hi);
    PackedIsChunks(rc, n);
    assert |rc| == n;
  }

  // ---------------------------------------------------------------------------
  // The merging loop of `expand`. Turn i hands the 2n slots of old tiers 2i
  // and 2i + 1, with their offsets, to `merge_neighbors`; the merged tier is
  // new tier i, of 2n slots, and the second offsets leave the sequence.

  /** The offsets without the one at position k are still owned once each. */
  lemma DistinctRemoved(os: seq<ImplicitTierRingOffsets>, k: nat)
    requires Distinct(os) && k < |os|
    ensures Distinct(os[..k] + os[k + 1..])
  {
    var r := os[..k] + os[k + 1..];
    forall a, b | 0 <= a < b < |r|
      ensures r[a] != r[b]
    {
      var a', b' := if a < k then a else a + 1, if b < k then b else b + 1;
      assert r[a] == os[a'] && r[b] == os[b'];
    }
  }

  /** Offsets owned by no one else, inserted after position k, keep the sequence owned once each. */
  lemma DistinctInserted(os: seq<ImplicitTierRingOffsets>, k: nat, y: ImplicitTierRingOffsets)
    requires Distinct(os) && k < |os| && y !in os
    ensures Distinct(os[..k + 1] + [y] + os[k + 1..])
  {
    var r := os[..k + 1] + [y] + os[k + 1..];
    forall a, b | 0 <= a < b < |r|
      ensures r[a] != r[b]
    {
      if a != k + 1 && b != k + 1 {
        var a', b' := if a <= k then a else a - 1, if b <= k then b else b - 1;
        assert r[a] == os[a'] && r[b] == os[b'];
      } else if a == k + 1 {
        assert r[b] == os[b - 1];
      } else {
        assert r[a] == os[a];
      }
    }
  }

  /** The 2n slots from Start(n, 2i) are the slots of old tiers 2i and 2i + 1, which hold c0[2i] and c0[2i + 1]. */
  lemma PairSlots<T>(buf: seq<Option<T>>, sps: seq<Span>, c0: seq<seq<T>>, n: nat, i: nat)
    requires 2 * i + 2 <= |c0| && |sps| == |c0| - i && Holds(buf, sps[i..], c0[2 * i..], n, 2 * i)
    ensures Start(n, 2 * i) + 2 * n <= |buf|
    ensures SlotsHold(Region(buf, Start(n, 2 * i), 2 * n)[..n], sps[i], c0[2 * i])
    ensures SlotsHold(Region(buf, Start(n, 2 * i), 2 * n)[n..], sps[i + 1], c0[2 * i + 1])
  {
    var upper, cu := sps[i..], c0[2 * i..];
    TierFacts(buf, upper, cu, n, 2 * i, 0);
    TierFacts(buf, upper, cu, n, 2 * i, 1);
    StartShift(n, 2 * i);
    RegionHalves(buf, Start(n, 2 * i), n);
  }

  /** Merged tier i written back: the first i + 1 pairs are merged. */
  lemma MergedLower<T>(buf: seq<Option<T>>, lower: seq<Span>, c0: seq<seq<T>>, n: nat, i: nat, slots: seq<Option<T>>, sp: Span)
    requires 2 * i + 2 <= |c0| && Holds(buf, lower, Pairs(c0)[..i], 2 * n, 0)
    requires |slots| == 2 * n && SlotsHold(slots, sp, c0[2 * i] + c0[2 * i + 1]) && Start(n, 2 * i) + 2 * n <= |buf|
    ensures Holds(Overwrite(buf, Start(n, 2 * i), slots), lower + [sp], Pairs(c0)[..i + 1], 2 * n, 0)
  {
    var start := Start(n, 2 * i);
    var nb := Overwrite(buf, start, slots);
    var m := c0[2 * i] + c0[2 * i + 1];
    StartDouble(n, i);
    HoldsElsewhere(buf, lower, Pairs(c0)[..i], 2 * n, 0, start, slots);
    OverwriteReadsBack(buf, start, slots);
    HoldsOne(nb, sp, m, 2 * n, i);
    HoldsJoin(nb, lower, Pairs(c0)[..i], [sp], [m], 2 * n, 0);
    assert Pairs(c0)[..i + 1] == Pairs(c0)[..i] + [m];
  }

  /** Merged tier i written back: the old tiers from 2i + 2 on are untouched. */
  lemma MergedUpper<T>(buf: seq<Option<T>>, upper: seq<Span>, c0: seq<seq<T>>, n: nat, i: nat, slots: seq<Option<T>>)
    requires 2 * i + 2 <= |c0| && |upper| >= 2 && Holds(buf, upper, c0[2 * i..], n, 2 * i)
    requires |slots| == 2 * n && Start(n, 2 * i) + 2 * n <= |buf|
    ensures Holds(Overwrite(buf, Start(n, 2 * i), slots), upper[2..], c0[2 * i + 2..], n, 2 * i + 2)
  {
    StartShift(n, 2 * i);
    StartShift(n, 2 * i + 1);
    HoldsSplit(buf, upper, c0[2 * i..], n, 2 * i, 2);
    assert c0[2 * i..][2..] == c0[2 * i + 2..];
    HoldsElsewhere(buf, upper[2..], c0[2 * i + 2..], n, 2 * i + 2, Start(n, 2 * i), slots);
  }

  /**
   * Turn i of `expand`'s merging loop: the first i tiers hold the first i
   * pairs in tiers of 2n slots, the others the old tiers from 2i on in tiers
   * of n slots. The pair 2i, 2i + 1 owns the 2n slots from Start(n, 2i),
   * which is where new tier i of 2n slots starts.
   */
  method MergeTurn<T>(buf: seq<Option<T>>, os: seq<ImplicitTierRingOffsets>, ghost sps: seq<Span>, ghost c0: seq<seq<T>>,
                      n: nat, i: nat)
    returns (nb: seq<Option<T>>, nos: seq<ImplicitTierRingOffsets>, ghost nsps: seq<Span>)
    requires n > 0 && 2 * i + 2 <= |c0| && |os| == |c0| - i && Distinct(os) && Tracks(os, sps)
    requires Holds(buf, sps[..i], Pairs(c0)[..i], 2 * n, 0) && Holds(buf, sps[i..], c0[2 * i..], n, 2 * i)
    modifies os[i]
    ensures |nb| == |buf| && nos == os[..i + 1] + os[i + 2..] && Distinct(nos) && Tracks(nos, nsps)
    ensures Holds(nb, nsps[..i + 1], Pairs(c0)[..i + 1], 2 * n, 0)
    ensures Holds(nb, nsps[i + 1..], c0[2 * i + 2..], n, 2 * i + 2)
  {
    PairSlots(buf, sps, c0, n, i);
    var start := Start(n, 2 * i);
    var slots := Region(buf, start, 2 * n);
    var second := os[i + 1];
    slots := MergeNeighbors(slots, os[i], second, c0[2 * i], c0[2 * i + 1]);
    MergedLower(buf, sps[..i], c0, n, i, slots, SpanOf(os[i]));
    MergedUpper(buf, sps[i..], c0, n, i, slots);
    nos := os[..i + 1] + os[i + 2..];
    DistinctRemoved(os, i + 1);
    nb := Overwrite(buf, start, slots);
    nsps := sps[..i] + [SpanOf(os[i])] + sps[i + 2..];
    assert nsps[..i + 1] == sps[..i] + [SpanOf(os[i])] && nsps[i + 1..] == sps[i..][2..];
    forall j | 0 <= j < |os| && j != i
      ensures SpanOf(os[j]) == sps[j]
    {
      assert os[j] != os[i];
    }
    TracksDropped(os, sps, i, SpanOf(os[i]));
  }

  /** Dropping tier i + 1's offsets and giving tier i the cursors sp. */
  lemma TracksDropped(os: seq<ImplicitTierRingOffsets>, sps: seq<Span>, i: nat, sp: Span)
    requires i + 1 < |os| == |sps| && SpanOf(os[i]) == sp
    requires forall j :: 0 <= j < |os| && j != i ==> SpanOf(os[j]) == sps[j]
    ensures Tracks(os[..i + 1] + os[i + 2..], sps[..i] + [sp] + sps[i + 2..])
  {
    var nos, nsps := os[..i + 1] + os[i + 2..], sps[..i] + [sp] + sps[i + 2..];
    forall j | 0 <= j < |nos|
      ensures SpanOf(nos[j]) == nsps[j]
    {
      if j < i {
        assert nos[j] == os[j] && nsps[j] == sps[j];
      } else if i < j {
        assert nos[j] == os[j + 1] && nsps[j] == sps[j + 1];
      }
    }
  }

  /** The merging loop of `expand`: old tiers 2j and 2j + 1 become tier j of 2n slots, for j < n / 2. */
  method MergePairs<T>(buf: seq<Option<T>>, os: seq<ImplicitTierRingOffsets>, ghost sps: seq<Span>, ghost c0: seq<seq<T>>, n: nat)
    returns (nb: seq<Option<T>>, nos: seq<ImplicitTierRingOffsets>, ghost nsps: seq<Span>)
    requires n >= 2 && n % 2 == 0 && |os| == n == |c0| && Distinct(os) && Tracks(os, sps) && Holds(buf, sps, c0, n, 0)
    modifies os
    ensures |nb| == |buf| && |nos| == n / 2 && Distinct(nos) && Tracks(nos, nsps) && Holds(nb, nsps, Pairs(c0), 2 * n, 0)
    ensures forall x :: x in nos ==> x in os
  {
    nb, nos, nsps := buf, os, sps;
    var half := n / 2;
    assert sps[0..] == sps && c0[0..] == c0;
    var i := 0;
    while i < half
      invariant 0 <= i <= half && |nb| == |buf| && |nos| == n - i
      invariant Distinct(nos) && (forall x :: x in nos ==> x in os) && Tracks(nos, nsps)
      invariant Holds(nb, nsps[..i], Pairs(c0)[..i], 2 * n, 0) && Holds(nb, nsps[i..], c0[2 * i..], n, 2 * i)
    {
      assert nos[i] in nos;
      nb, nos, nsps := MergeTurn(nb, nos, nsps, c0, n, i);
      i := i + 1;
    }
    assert nsps[..half] == nsps && Pairs(c0)[..half] == Pairs(c0);
  }

  /** `count` offsets made by `Default` pushed after `os`, as `expand` pushes them. */
  method PushDefaults(os: seq<ImplicitTierRingOffsets>, ghost sps: seq<Span>, count: nat)
    returns (nos: seq<ImplicitTierRingOffsets>)
    requires Distinct(os) && Tracks(os, sps)
    ensures |nos| == |os| + count && nos[..|os|] == os && Distinct(nos) && Tracks(nos, sps + Zeros(count))
    ensures forall j :: |os| <= j < |nos| ==> fresh(nos[j])
  {
    nos := os;
    var k := 0;
    while k < count
      invariant k <= count && |nos| == |os| + k && nos[..|os|] == os && Distinct(nos) && Tracks(nos, sps + Zeros(k))
      invariant forall j :: |os| <= j < |nos| ==> fresh(nos[j])
    {
      var o := new ImplicitTierRingOffsets.Default();
      nos := nos + [o];
      k := k + 1;
    }
  }

  /** The merged tiers in a buffer grown by free slots to (2n)^2, followed by empty tiers up to 2n. */
  lemma GrownHolds<T>(mb: seq<Option<T>>, msps: seq<Span>, c0: seq<seq<T>>, n: nat, ext: seq<Option<T>>)
    requires n >= 2 && n % 2 == 0 && |c0| == n && |mb| == Start(n, n) && Holds(mb, msps, Pairs(c0), 2 * n, 0)
    requires AllNone(ext) && |mb| + |ext| == Start(2 * n, 2 * n)
    ensures Holds(mb + ext, msps + Zeros(2 * n - n / 2), Pairs(c0) + Empties(2 * n - n / 2), 2 * n, 0)
  {
    var nb, count := mb + ext, 2 * n - n / 2;
    HoldsGrow(mb, msps, Pairs(c0), 2 * n, 0, ext);
    StartDouble(n, n / 2);
    assert 2 * (n / 2) == n && nb[Start(2 * n, n / 2)..] == ext;
    StartMonotone(2 * n, n / 2, 2 * n);
    HoldsEmpties<T>(nb, 2 * n, n / 2, count);
    HoldsJoin(nb, msps, Pairs(c0), Zeros(count), Empties(count), 2 * n, 0);
  }

  /**
   * `expand` on the buffer and the offsets: the pairs are merged, empty
   * tiers are pushed up to 2n, and the buffer is resized to (2n)^2 slots;
   * the tiers then hold the same elements, packed in tiers of 2n.
   */
  method ExpandTiers<T>(buf: seq<Option<T>>, os: seq<ImplicitTierRingOffsets>, ghost sps: seq<Span>, ghost c0: seq<seq<T>>)
    returns (nb: seq<Option<T>>, nos: seq<ImplicitTierRingOffsets>, ghost nsps: seq<Span>, ghost cs: seq<seq<T>>)
    requires Wellformed(buf, os, sps, c0)
    modifies os
    ensures |nos| == 2 * |os| && Wellformed(nb, nos, nsps, cs) && Flatten(cs) == Flatten(c0)
    ensures forall j :: 0 <= j < |nos| ==> nos[j] in os || fresh(nos[j])
  {
    var n := |os|;
    PowerOfTwoHalf(n);
    PowerOfTwoDouble(n);
    var mb, merged, msps := MergePairs(buf, os, sps, c0, n);
    var count := 2 * n - n / 2;
    nos := PushDefaults(merged, msps, count);
    var newSize := 2 * n;
    DoubledRoom(n);
    StartIsProduct(newSize, newSize);
    var ext := Uninit(newSize * newSize - |mb|);
    nb := mb + ext;
    nsps := msps + Zeros(count);
    cs := Pairs(c0) + Empties(count);
    GrownHolds(mb, msps, c0, n, ext);
    assert |nos| == newSize && |nb| == Start(newSize, newSize);
    assert Holds(nb, nsps, cs, |nos|, 0);
    assert cs[..n / 2] == Pairs(c0);
    ExpandedContents(c0, n, cs);
    assert Distinct(nos) && Tracks(nos, nsps) && Packed(cs, |nos|);
    forall j | 0 <= j < |merged|
      ensures nos[j] in os
    {
      assert nos[j] == merged[j] && merged[j] in merged;
    }
  }

  // ---------------------------------------------------------------------------
  // The splitting loop of `try_contract`. The first n / 4 tiers are kept; at
  // turn i = 2m, old tier m, of 2h slots (h = n / 2), is handed to
  // `split_half`, whose halves become new tiers i and i + 1 of h slots, and
  // the offsets it returns are inserted after position i.

  /** Old tier m, at position i, with the 2h slots from Start(2h, m). */
  lemma OldTierSlots<T>(buf: seq<Option<T>>, upper: seq<Span>, c1: seq<seq<T>>, h: nat, m: nat)
    requires m < |c1| && 0 < |upper| && Holds(buf, upper, c1[m..], 2 * h, m)
    ensures Start(2 * h, m) + 2 * h <= |buf| && SlotsHold(Region(buf, Start(2 * h, m), 2 * h), upper[0], c1[m])
  {
    TierFacts(buf, upper, c1[m..], 2 * h, m, 0);
  }

  /** The halves of old tier m written back after the 2m tiers of h slots before them, which are untouched. */
  lemma SplitLower<T>(buf: seq<Option<T>>, lower: seq<Span>, lo: seq<seq<T>>, h: nat, m: nat, slots: seq<Option<T>>,
                      a: Span, b: Span, x: seq<T>, y: seq<T>)
    requires |lower| == 2 * m && Holds(buf, lower, lo, h, 0)
    requires |slots| == 2 * h && Start(2 * h, m) + 2 * h <= |buf|
    requires SlotsHold(slots[..h], a, x) && SlotsHold(slots[h..], b, y)
    ensures Holds(Overwrite(buf, Start(2 * h, m), slots), lower + [a] + [b], lo + [x] + [y], h, 0)
  {
    var start := Start(2 * h, m);
    var nb := Overwrite(buf, start, slots);
    StartDouble(h, m);
    StartShift(h, 2 * m);
    HoldsElsewhere(buf, lower, lo, h, 0, start, slots);
    assert TierAt(nb, a, Start(h, 2 * m), h, x) && TierAt(nb, b, Start(h, 2 * m + 1), h, y) by {
      HalvesWritten(buf, start, slots, h);
    }
    HoldsSnoc(nb, lower, lo, h, 0, a, x);
    assert |lower + [a]| == 2 * m + 1;
    HoldsSnoc(nb, lower + [a], lo + [x], h, 0, b, y);
  }

  /** The two halves of a slice of 2h slots written back read back as the halves. */
  lemma HalvesWritten<T>(buf: seq<Option<T>>, start: nat, slots: seq<Option<T>>, h: nat)
    requires |slots| == 2 * h && start + 2 * h <= |buf|
    ensures Region(Overwrite(buf, start, slots), start, h) == slots[..h]
    ensures Region(Overwrite(buf, start, slots), start + h, h) == slots[h..]
  {
    var nb := Overwrite(buf, start, slots);
    forall k | 0 <= k < h
      ensures Region(nb, start, h)[k] == slots[..h][k] && Region(nb, start + h, h)[k] == slots[h..][k]
    {
      assert nb[start + k] == (buf[..start] + slots)[start + k];
      assert nb[start + h + k] == (buf[..start] + slots)[start + h + k];
    }
  }

  /** Two more runs of h elements. */
  lemma ChunksTwoMore<T>(s: seq<T>, h: nat, k: nat)
    ensures Chunks(s, h, k + 2) == Chunks(s, h, k) + [Chunk(s, h, k)] + [Chunk(s, h, k + 1)]
  {
  }

  /** The halves of old tier m written back: the old tiers after m are untouched. */
  lemma SplitUpper<T>(buf: seq<Option<T>>, upper: seq<Span>, c1: seq<seq<T>>, h: nat, m: nat, slots: seq<Option<T>>)
    requires m < |c1| && 0 < |upper| && Holds(buf, upper, c1[m..], 2 * h, m)
    requires |slots| == 2 * h && Start(2 * h, m) + 2 * h <= |buf|
    ensures Holds(Overwrite(buf, Start(2 * h, m), slots), upper[1..], c1[m + 1..], 2 * h, m + 1)
  {
    StartShift(2 * h, m);
    HoldsSplit(buf, upper, c1[m..], 2 * h, m, 1);
    assert c1[m..][1..] == c1[m + 1..];
    HoldsElsewhere(buf, upper[1..], c1[m + 1..], 2 * h, m + 1, Start(2 * h, m), slots);
  }

  /** Old tier m split into new tiers 2m and 2m + 1 and written back. */
  lemma SplitHolds<T>(buf: seq<Option<T>>, sps: seq<Span>, c1: seq<seq<T>>, s: seq<T>, h: nat, m: nat,
                      slots: seq<Option<T>>, a: Span, b: Span)
    requires h >= 1 && m < |c1| && |sps| == 2 * m + |c1| - m && c1[m] == Chunk(s, 2 * h, m)
    requires Holds(buf, sps[..2 * m], Chunks(s, h, 2 * m), h, 0) && Holds(buf, sps[2 * m..], c1[m..], 2 * h, m)
    requires |slots| == 2 * h && Start(2 * h, m) + 2 * h <= |buf|
    requires SlotsHold(slots[..h], a, c1[m][..Min(|c1[m]|, h)]) && SlotsHold(slots[h..], b, c1[m][Min(|c1[m]|, h)..])
    ensures var nb, nsps := Overwrite(buf, Start(2 * h, m), slots), sps[..2 * m] + [a] + [b] + sps[2 * m + 1..];
      Holds(nb, nsps[..2 * m + 2], Chunks(s, h, 2 * m + 2), h, 0) && Holds(nb, nsps[2 * m + 2..], c1[m + 1..], 2 * h, m + 1)
  {
    var i := 2 * m;
    var nsps := sps[..i] + [a] + [b] + sps[i + 1..];
    ChunkHalves(s, h, m);
    ChunksTwoMore(s, h, i);
    SplitLower(buf, sps[..i], Chunks(s, h, i), h, m, slots, a, b, Chunk(s, h, i), Chunk(s, h, i + 1));
    SplitUpper(buf, sps[i..], c1, h, m, slots);
    assert nsps[..i + 2] == sps[..i] + [a] + [b] && nsps[i + 2..] == sps[i..][1..];
  }

  /**
   * Turn i = 2m of `try_contract`'s splitting loop: the first i tiers hold
   * the runs of h elements of s, the others the kept old tiers from m on,
   * each holding a run of 2h. Old tier m owns the 2h slots from
   * Start(2h, m), where new tier i of h slots starts.
   */
  method SplitTurn<T>(buf: seq<Option<T>>, os: seq<ImplicitTierRingOffsets>, ghost sps: seq<Span>, ghost c1: seq<seq<T>>,
                      ghost s: seq<T>, i: nat, ghost m: nat, h: nat)
    returns (nb: seq<Option<T>>, nos: seq<ImplicitTierRingOffsets>, ghost nsps: seq<Span>)
    requires i == 2 * m && h >= 1 && m < |c1| && |os| == i + |c1| - m && c1[m] == Chunk(s, 2 * h, m)
    requires Distinct(os) && Tracks(os, sps)
    requires Holds(buf, sps[..i], Chunks(s, h, i), h, 0) && Holds(buf, sps[i..], c1[m..], 2 * h, m)
    modifies os[i]
    ensures |nb| == |buf| && |nos| == |os| + 1 && Distinct(nos) && Tracks(nos, nsps)
    ensures forall x :: x in nos ==> x in os || fresh(x)
    ensures Holds(nb, nsps[..i + 2], Chunks(s, h, i + 2), h, 0) && Holds(nb, nsps[i + 2..], c1[m + 1..], 2 * h, m + 1)
  {
    OldTierSlots(buf, sps[i..], c1, h, m);
    assert i / 2 == m;
    var oldStart := Start(2 * h, i / 2);
    var slots := Region(buf, oldStart, 2 * h);
    var upper;
    slots, upper := SplitHalf(slots, os[i], c1[m]);
    assert |slots| / 2 == h;
    SplitHolds(buf, sps, c1, s, h, m, slots, SpanOf(os[i]), SpanOf(upper));
    nos := os[..i + 1] + [upper] + os[i + 1..];
    DistinctInserted(os, i, upper);
    nb := Overwrite(buf, oldStart, slots);
    nsps := sps[..i] + [SpanOf(os[i])] + [SpanOf(upper)] + sps[i + 1..];
  }

  /** The splitting loop of `try_contract`: each kept tier, of 2h slots, becomes two tiers of h slots. */
  method SplitTiers<T>(buf: seq<Option<T>>, os: seq<ImplicitTierRingOffsets>, ghost sps: seq<Span>, ghost c1: seq<seq<T>>,
                       ghost s: seq<T>, h: nat)
    returns (nb: seq<Option<T>>, nos: seq<ImplicitTierRingOffsets>, ghost nsps: seq<Span>)
    requires h >= 2 && h % 2 == 0 && |os| == h / 2 && Distinct(os) && Tracks(os, sps) && Holds(buf, sps, c1, 2 * h, 0)
    requires forall k :: 0 <= k < |c1| ==> c1[k] == Chunk(s, 2 * h, k)
    modifies os
    ensures |nb| == |buf| && |nos| == h && Distinct(nos) && Tracks(nos, nsps) && Holds(nb, nsps, Chunks(s, h, h), h, 0)
    ensures forall x :: x in nos ==> x in os || fresh(x)
  {
    nb, nos, nsps := buf, os, sps;
    assert sps[0..] == sps && c1[0..] == c1;
    var i := 0;
    ghost var m := 0;
    while i < h
      invariant i == 2 * m && 0 <= i <= h && |nos| == |os| + m && |nb| == |buf|
      invariant Distinct(nos) && (forall x :: x in nos ==> x in os || fresh(x)) && Tracks(nos, nsps)
      invariant Holds(nb, nsps[..i], Chunks(s, h, i), h, 0) && Holds(nb, nsps[i..], c1[m..], 2 * h, m)
    {
      assert nos[i] in nos;
      nb, nos, nsps := SplitTurn(nb, nos, nsps, c1, s, i, m, h);
      i, m := i + 2, m + 1;
    }
    assert nsps[..h] == nsps;
  }

  /**
   * When `try_contract` fires on tiers of n holding s: with h = n / 2, the
   * first h / 2 tiers hold the runs of 2h elements of s, and the rest hold
   * nothing.
   */
  lemma ContractKept<T>(buf: seq<Option<T>>, sps: seq<Span>, c0: seq<seq<T>>, n: nat)
    requires n >= 2 && IsPowerOfTwo(n) && |c0| == n && Holds(buf, sps, c0, n, 0) && Packed(c0, n)
    requires |Flatten(c0)| < (n * n) / 8
    ensures n / 2 >= 2 && (n / 2) % 2 == 0 && 2 * (n / 2) == n && n / 2 / 2 <= |sps| && IsPowerOfTwo(n / 2)
    ensures |Flatten(c0)| < Start(n / 2, n / 2)
    ensures Holds(buf, sps[..n / 2 / 2], c0[..n / 2 / 2], 2 * (n / 2), 0)
    ensures forall k :: 0 <= k < |c0[..n / 2 / 2]| ==> c0[..n / 2 / 2][k] == Chunk(Flatten(c0), 2 * (n / 2), k)
  {
    ContractFits(n, |Flatten(c0)|);
    PackedIsChunks(c0, n);
    PowerOfTwoHalf(n);
    PowerOfTwoHalf(n / 2);
    HoldsSplit(buf, sps, c0, n, 0, n / 2 / 2);
  }

  /** The buffer cut after the (n / 2)^2 slots of the new tiers: they hold the runs of n / 2 elements of s, packed. */
  lemma ContractCut<T>(sb: seq<Option<T>>, nsps: seq<Span>, s: seq<T>, n: nat, h: nat, cut: nat)
    requires h >= 2 && h % 2 == 0 && n == 2 * h && cut == h / 2 * n
    requires |sb| == Start(n, n) && |nsps| == h && |s| < Start(h, h)
    requires Holds(sb, nsps, Chunks(s, h, h), h, 0)
    ensures cut <= |sb| && |sb[..cut]| == Start(h, h)
    ensures Holds(sb[..cut], nsps, Chunks(s, h, h), h, 0)
    ensures Packed(Chunks(s, h, h), h) && Flatten(Chunks(s, h, h)) == s
  {
    var q := h / 2;
    assert h == 2 * q;
    StartDouble(h, q);
    StartIsProduct(n, q);
    StartMonotone(n, q, n);
    HoldsTruncate(sb, nsps, Chunks(s, h, h), h, 0, cut);
    ChunksPacked(s, h, h);
  }

  /**
   * `try_contract` on the buffer and the offsets once it fires: the offsets
   * are cut to the first n / 4, each kept tier is split in two, and the
   * buffer is cut to (n / 2)^2 slots; the tiers then hold the runs of n / 2
   * elements.
   */
  method ContractTiers<T>(buf: seq<Option<T>>, os: seq<ImplicitTierRingOffsets>, ghost sps: seq<Span>, ghost c0: seq<seq<T>>)
    returns (nb: seq<Option<T>>, nos: seq<ImplicitTierRingOffsets>, ghost nsps: seq<Span>, ghost cs: seq<seq<T>>)
    requires Wellformed(buf, os, sps, c0) && |Flatten(c0)| < (|os| * |os|) / 8
    modifies os
    ensures |nos| == |os| / 2 && Wellformed(nb, nos, nsps, cs) && |Flatten(c0)| < Start(|nos|, |nos|)
    ensures Flatten(cs) == Flatten(c0)
    ensures forall j :: 0 <= j < |nos| ==> nos[j] in os || fresh(nos[j])
  {
    var n := |os|;
    ghost var s := Flatten(c0);
    ContractKept(buf, sps, c0, n);
    var h := n / 2;
    var splitIdx := h / 2;
    var kept := os[..splitIdx];
    var sb;
    sb, nos, nsps := SplitTiers(buf, kept, sps[..splitIdx], c0[..splitIdx], s, h);
    var cut := splitIdx * n;
    ContractCut(sb, nsps, s, n, h, cut);
    nb := sb[..cut];
    cs := Chunks(s, h, h);
    forall j | 0 <= j < |nos|
      ensures nos[j] in os || fresh(nos[j])
    {
      assert nos[j] in nos;
    }
  }

  /** `try_contract(num_entries)`: the tiers contract only below an eighth of the capacity. */
  method TryContractTiers<T>(buf: seq<Option<T>>, os: seq<ImplicitTierRingOffsets>, ghost sps: seq<Span>, ghost c0: seq<seq<T>>,
                             numEntries: nat)
    returns (nb: seq<Option<T>>, nos: seq<ImplicitTierRingOffsets>, ghost nsps: seq<Span>, ghost cs: seq<seq<T>>)
    requires Wellformed(buf, os, sps, c0) && numEntries == |Flatten(c0)|
    modifies os
    ensures Wellformed(nb, nos, nsps, cs) && Flatten(cs) == Flatten(c0)
    ensures |nos| == if numEntries < Start(|os|, |os|) / 8 then |os| / 2 else |os|
    ensures numEntries < Start(|os|, |os|) / 8 ==> numEntries < Start(|nos|, |nos|)
    ensures forall j :: 0 <= j < |nos| ==> nos[j] in os || fresh(nos[j])
  {
    nb, nos, nsps, cs := buf, os, sps, c0;
    StartIsProduct(|os|, |os|);
    if numEntries < |buf| / 8 {
      nb, nos, nsps, cs := ContractTiers(buf, os, sps, c0);
    }
  }

  // ---------------------------------------------------------------------------
  // `len`, `insert` and `remove` on the tiers.

  /** The loop of `len`: tier lengths, read from the offsets, are added up to the first empty tier. */
  method SumLengths<T>(buf: seq<Option<T>>, os: seq<ImplicitTierRingOffsets>, ghost sps: seq<Span>, ghost cs: seq<seq<T>>)
    returns (l: nat)
    requires Wellformed(buf, os, sps, cs)
    ensures l == |Flatten(cs)|
  {
    l := 0;
    var i := 0;
    while i < |os|
      invariant 0 <= i <= |os| && l == |Flatten(cs[..i])|
    {
      var offsetLen := os[i].Len();
      assert offsetLen == |cs[i]| by {
        TierFacts(buf, sps, cs, |os|, 0, i);
        assert SpanOf(os[i]) == sps[i];
      }
      if offsetLen == 0 {
        LengthUpToEmpty(cs, |os|, i);
        return;
      }
      FlattenPrefix(cs, i);
      l := l + offsetLen;
      i := i + 1;
    }
    assert cs[..i] == cs;
  }

  /** The tier a removal works on has lost an element, and the tiers the swap loop then visits each have room for one. */
  lemma RemovedFits<T>(s: seq<T>, n: nat, rank: nat)
    requires n > 0 && rank < |s| <= Start(n, n)
    ensures rank / n < n && |TierRemoved(s, n, rank)[rank / n]| < n
    ensures forall j :: 0 <= j < n ==> |TierRemoved(s, n, rank)[j]| <= n
  {
    RemovalPoint(s, n, rank);
    var c0 := Chunks(s, n, n);
    assert |c0[rank / n]| <= n;
  }

  /**
   * What `remove` does once tier t, the tier of rank `rank`, has given up its
   * element: unless t is the tier of the last rank, the swap loop runs from t
   * to that tier; the tiers are then the runs of n elements of what remains.
   */
  method SweepAfter<T>(buf: seq<Option<T>>, os: seq<ImplicitTierRingOffsets>, ghost sps: seq<Span>, ghost s: seq<T>,
                       numEntries: nat, rank: nat, t: nat)
    returns (nb: seq<Option<T>>, ghost nsps: seq<Span>)
    requires |os| > 0 && rank < numEntries == |s| <= Start(|os|, |os|) && t == rank / |os|
    requires Distinct(os) && Tracks(os, sps) && Holds(buf, sps, TierRemoved(s, |os|, rank), |os|, 0)
    modifies os
    ensures |nb| == |buf| && Tracks(os, nsps) && Holds(nb, nsps, Chunks(RemoveAt(s, rank), |os|, |os|), |os|, 0)
  {
    var n := |os|;
    ghost var c1 := TierRemoved(s, n, rank);
    SweptIsRemoval(s, n, rank);
    RemovedFits(s, n, rank);
    var last := (numEntries - 1) / n;
    if t != last {
      nb, nsps := SwapCascade(buf, os, sps, c1, n, t, last);
    } else {
      SweptNone(c1, t);
      nb, nsps := buf, sps;
    }
  }

  /**
   * `remove(rank)` on the tiers once `try_contract` has run: the rank's tier
   * removes the element or reports the rank out of bounds, and on success
   * the swap loop carries one element down from each later tier up to the
   * tier of the last rank.
   */
  method RemoveFrom<T>(buf: seq<Option<T>>, os: seq<ImplicitTierRingOffsets>, ghost sps: seq<Span>, ghost c0: seq<seq<T>>,
                       numEntries: nat, rank: nat)
    returns (nb: seq<Option<T>>, ghost nsps: seq<Span>, r: Result<T, TieredVectorError<T>>)
    requires Wellformed(buf, os, sps, c0) && numEntries == |Flatten(c0)| && rank <= numEntries && rank < Start(|os|, |os|)
    modifies os
    ensures rank == numEntries ==> Wellformed(nb, os, nsps, c0) && r == Err(TieredVectorRankOutOfBoundsError(rank))
    ensures rank < numEntries ==> r == Ok(Flatten(c0)[rank])
    ensures rank < numEntries ==> Wellformed(nb, os, nsps, Chunks(RemoveAt(Flatten(c0), rank), |os|, |os|))
    ensures rank < numEntries ==> Flatten(Chunks(RemoveAt(Flatten(c0), rank), |os|, |os|)) == RemoveAt(Flatten(c0), rank)
  {
    var n := |os|;
    ghost var s := Flatten(c0);
    RankTier(n, rank, n);
    var t: nat := rank / n;
    var res;
    ghost var nc;
    nb, nsps, res, nc := RemoveAtTier(buf, os, sps, c0, n, t, rank, rank % n);
    assert rank < numEntries <==> rank % n < |c0[t]| by {
      PackedIsChunks(c0, n);
      if rank == numEntries {
        EndPoint(s, n);
      } else {
        RankLookup(s, n, rank);
      }
    }
    match res {
      case Err(TierEmptyError) =>
        r := Err(TieredVectorEmptyError);
      case Err(TierRankOutOfBoundsError(x)) =>
        r := Err(TieredVectorRankOutOfBoundsError(x));
      case Err(_) =>
        assert false;
      case Ok(removed) =>
        PackedIsChunks(c0, n);
        RankLookup(s, n, rank);
        ChunksPacked(RemoveAt(s, rank), n, n);
        assert c0[t := nc] == TierRemoved(s, n, rank);
        nb, nsps := SweepAfter(nb, os, nsps, s, numEntries, rank, t);
        r := Ok(removed);
    }
  }

  /** The pop-push loop of `insert`, from tier t to the last. */
  method FrontLoop<T>(buf: seq<Option<T>>, os: seq<ImplicitTierRingOffsets>, ghost sps: seq<Span>, ghost c0: seq<seq<T>>,
                      n: nat, t: nat)
    returns (nb: seq<Option<T>>, ghost nsps: seq<Span>)
    requires t <= |os| && Distinct(os) && Tracks(os, sps) && Holds(buf, sps, c0, n, 0)
    modifies os
    ensures |nb| == |buf| && Tracks(os, nsps) && Holds(nb, nsps, FrontCascade(c0, n, t, None), n, 0)
  {
    nb, nsps := buf, sps;
    ghost var cs := c0;
    var prev: Option<T> := None;
    var i := t;
    while i < |os|
      invariant t <= i <= |os| && |nb| == |buf| && Tracks(os, nsps) && Holds(nb, nsps, cs, n, 0)
      invariant FrontCascade(cs, n, i, prev) == FrontCascade(c0, n, t, None)
    {
      ghost var step := FrontStep(cs, n, i, prev);
      nb, nsps, prev := FrontStepAt(nb, os, nsps, cs, n, i, prev);
      cs := step.0;
      i := i + 1;
    }
  }

  /** `insert(rank, e)` on the tiers of a vector with room: they then hold the runs of n elements of `LinkedInserted`. */
  method InsertInto<T>(buf: seq<Option<T>>, os: seq<ImplicitTierRingOffsets>, ghost sps: seq<Span>, ghost c0: seq<seq<T>>,
                       rank: nat, e: T)
    returns (nb: seq<Option<T>>, ghost nsps: seq<Span>)
    requires Wellformed(buf, os, sps, c0) && rank <= |Flatten(c0)| < Start(|os|, |os|)
    modifies os
    ensures Wellformed(nb, os, nsps, Chunks(LinkedInserted(Flatten(c0), |os|, rank, e), |os|, |os|))
    ensures Flatten(Chunks(LinkedInserted(Flatten(c0), |os|, rank, e), |os|, |os|)) == LinkedInserted(Flatten(c0), |os|, rank, e)
  {
    var n := |os|;
    StartOfQuotient(n, rank);
    RankTier(n, rank, n);
    var t: nat := rank / n;
    ghost var s := Flatten(c0);
    PackedIsChunks(c0, n);
    InsertedChunks(s, n, rank, e);
    TierFacts(buf, sps, c0, n, 0, t);
    nb, nsps := buf, sps;
    if os[t].IsFull(n) {
      nb, nsps := FrontLoop(buf, os, sps, c0, n, t);
    }
    ghost var cs := if Full(c0[t], n) then FrontCascade(c0, n, t, None) else c0;
    FrontInsertByLoop(c0, n, t, rank % n, e);
    nb, nsps := InsertAtTier(nb, os, nsps, cs, n, t, rank, e);
  }

  /**
   * `insert(rank, e)` given the length: a rank past the end is refused;
   * otherwise a full vector is expanded first, then the element is inserted
   * into the tiers.
   */
  method InsertTiers<T>(buf: seq<Option<T>>, os: seq<ImplicitTierRingOffsets>, ghost sps: seq<Span>, ghost c0: seq<seq<T>>,
                        rank: nat, e: T)
    returns (r: Result<nat, TieredVectorError<T>>, nb: seq<Option<T>>, nos: seq<ImplicitTierRingOffsets>,
             ghost nsps: seq<Span>, ghost cs: seq<seq<T>>)
    requires Wellformed(buf, os, sps, c0)
    modifies os
    ensures Wellformed(nb, nos, nsps, cs)
    ensures forall j :: 0 <= j < |nos| ==> nos[j] in os || fresh(nos[j])
    ensures rank > |Flatten(c0)| ==> r == Err(TieredVectorOutofBoundsInsertionError(rank, e)) && nos == os && cs == c0
    ensures rank <= |Flatten(c0)| ==> r == Ok(rank)
    ensures rank <= |Flatten(c0)| ==> |nos| == if |Flatten(c0)| == Start(|os|, |os|) then 2 * |os| else |os|
    ensures rank <= |Flatten(c0)| ==> |Flatten(c0)| < Start(|nos|, |nos|)
    ensures rank <= |Flatten(c0)| ==> Flatten(cs) == LinkedInserted(Flatten(c0), |nos|, rank, e)
  {
    var numEntries := SumLengths(buf, os, sps, c0);
    nb, nos, nsps, cs := buf, os, sps, c0;
    if rank > numEntries {
      return Err(TieredVectorOutofBoundsInsertionError(rank, e)), nb, nos, nsps, cs;
    }
    PackedIsChunks(c0, |os|);
    StartIsProduct(|os|, |os|);
    if numEntries == |buf| {
      DoubledRoom(|os|);
      nb, nos, nsps, cs := ExpandTiers(buf, os, sps, c0);
    }
    nb, nsps := InsertInto(nb, nos, nsps, cs, rank, e);
    cs := Chunks(LinkedInserted(Flatten(c0), |nos|, rank, e), |nos|, |nos|);
    r := Ok(rank);
  }

  /**
   * `remove(rank)` given the length: a rank past the end is refused;
   * otherwise the vector may contract, then the element is removed from the
   * tiers.
   */
  method RemoveTiers<T>(buf: seq<Option<T>>, os: seq<ImplicitTierRingOffsets>, ghost sps: seq<Span>, ghost c0: seq<seq<T>>,
                        rank: nat)
    returns (r: Result<T, TieredVectorError<T>>, nb: seq<Option<T>>, nos: seq<ImplicitTierRingOffsets>,
             ghost nsps: seq<Span>, ghost cs: seq<seq<T>>)
    requires Wellformed(buf, os, sps, c0)
    requires !(rank == |Flatten(c0)| == Start(|os|, |os|))
    modifies os
    ensures Wellformed(nb, nos, nsps, cs)
    ensures forall j :: 0 <= j < |nos| ==> nos[j] in os || fresh(nos[j])
    ensures rank > |Flatten(c0)| ==> r == Err(TieredVectorRankOutOfBoundsError(rank)) && nos == os && cs == c0
    ensures rank <= |Flatten(c0)| ==> |nos| == if |Flatten(c0)| < Start(|os|, |os|) / 8 then |os| / 2 else |os|
    ensures rank == |Flatten(c0)| ==> r == Err(TieredVectorRankOutOfBoundsError(rank)) && Flatten(cs) == Flatten(c0)
    ensures rank < |Flatten(c0)| ==> r == Ok(Flatten(c0)[rank]) && Flatten(cs) == RemoveAt(Flatten(c0), rank)
  {
    var numEntries := SumLengths(buf, os, sps, c0);
    nb, nos, nsps, cs := buf, os, sps, c0;
    if rank > numEntries {
      return Err(TieredVectorRankOutOfBoundsError(rank)), nb, nos, nsps, cs;
    }
    PackedIsChunks(c0, |os|);
    StartIsProduct(|os|, |os|);
    nb, nos, nsps, cs := TryContractTiers(buf, os, sps, c0, numEntries);
    ghost var c1 := cs;
    nb, nsps, r := RemoveFrom(nb, nos, nsps, c1, numEntries, rank);
    if rank < numEntries {
      cs := Chunks(RemoveAt(Flatten(c0), rank), |nos|, |nos|);
    }
  }

  // ---------------------------------------------------------------------------
  // `expand` as the crate writes it: turn i hands `merge_neighbors` the 2n
  // slots from i * n, where old tiers 2i and 2i + 1 start at 2i * n.

  /** A tier whose slots all hold elements reads them from the masked head on. */
  lemma FullReading<T>(slots: seq<Option<T>>, head: int)
    requires |slots| > 0 && AllSome(slots)
    ensures Reading(slots, Span(head, head + |slots|)) == Some(Values(RotateLeft(slots, head % |slots|)))
  {
    var rot := RotateLeft(slots, head % |slots|);
    ByRankIsRotation(slots, head);
    assert AllSome(rot);
    assert rot + [] == rot;
    ListedAs(slots, head, |slots|, rot, []);
  }

  /**
   * Turn i of `expand`'s merging loop as written, given the cursors of old
   * tiers 2i and 2i + 1: the n slots from i * n are read with the first, the
   * n after them with the second, and the two readings are laid from slot
   * i * n on. The result is the buffer after the turn, if both halves read
   * as tiers.
   */
  ghost function ExpandTurnAsWritten<T>(buf: seq<Option<T>>, first: Span, second: Span, n: nat, i: nat): (r: Option<seq<Option<T>>>)
    requires n > 0 && i * n + 2 * n <= |buf|
    ensures r.Some? ==> |r.value| == |buf|
  {
    var slots := Region(buf, i * n, 2 * n);
    var a, b := Reading(slots[..n], first), Reading(slots[n..], second);
    if a.Some? && b.Some? && |a.value + b.value| <= 2 * n
    then Some(Overwrite(buf, i * n, Laid(a.value + b.value, 2 * n)))
    else None
  }

  /** Four full tiers of 4 holding 0 .. 15, the last stored from its second slot on: 15, 12, 13, 14. */
  ghost predicate ExpandExample(buf: seq<Option<int>>)
  {
    |buf| == 16 && (forall k :: 0 <= k < 12 ==> buf[k] == Some(k))
    && buf[12] == Some(15) && buf[13] == Some(12) && buf[14] == Some(13) && buf[15] == Some(14)
  }

  /** A full tier of four read from cursor h. */
  lemma ReadFour(t: seq<Option<int>>, h: nat, c: seq<int>)
    requires |t| == 4 && h < 4 && |c| == 4
    requires t[h] == Some(c[0]) && t[(h + 1) % 4] == Some(c[1]) && t[(h + 2) % 4] == Some(c[2]) && t[(h + 3) % 4] == Some(c[3])
    ensures Reading(t, Span(h, h + 4)) == Some(c)
  {
    var rot := RotateLeft(t, h);
    forall k | 0 <= k < 4
      ensures rot[k] == t[(h + k) % 4]
    {
      if h + k < 4 {
        assert rot[k] == t[h + k];
      } else {
        assert rot[k] == t[h + k - 4];
      }
    }
    assert rot[0] == Some(c[0]) && rot[1] == Some(c[1]) && rot[2] == Some(c[2]) && rot[3] == Some(c[3]);
    assert AllSome(t) by {
      forall k | 0 <= k < 4
        ensures t[k].Some?
      {
        if k < h {
          assert t[k] == rot[4 - h + k];
        } else {
          assert t[k] == rot[k - h];
        }
      }
    }
    FullReading(t, h);
    assert h % |t| == h;
    assert Values(rot) == c;
  }

  /** The turn merges the readings of its two halves, when both read as tiers. */
  lemma TurnReads<T>(buf: seq<Option<T>>, first: Span, second: Span, n: nat, i: nat, a: seq<T>, b: seq<T>)
    requires n > 0 && i * n + 2 * n <= |buf| && |a + b| <= 2 * n
    requires Reading(Region(buf, i * n, n), first) == Some(a) && Reading(Region(buf, i * n + n, n), second) == Some(b)
    ensures ExpandTurnAsWritten(buf, first, second, n, i) == Some(Overwrite(buf, i * n, Laid(a + b, 2 * n)))
  {
    assert Region(buf, i * n, 2 * n)[..n] == Region(buf, i * n, n);
    assert Region(buf, i * n, 2 * n)[n..] == Region(buf, i * n + n, n);
  }

  /** The four tiers of the example, each read with the cursors it is stored under. */
  lemma ExampleTiersRead(buf: seq<Option<int>>)
    requires ExpandExample(buf)
    ensures Reading(Region(buf, 0, 4), Span(0, 4)) == Some([0, 1, 2, 3])
    ensures Reading(Region(buf, 4, 4), Span(0, 4)) == Some([4, 5, 6, 7])
    ensures Reading(Region(buf, 8, 4), Span(0, 4)) == Some([8, 9, 10, 11])
    ensures Reading(Region(buf, 8, 4), Span(1, 5)) == Some([9, 10, 11, 8])
    ensures Reading(Region(buf, 12, 4), Span(1, 5)) == Some([12, 13, 14, 15])
  {
    ReadFour(Region(buf, 0, 4), 0, [0, 1, 2, 3]);
    ReadFour(Region(buf, 4, 4), 0, [4, 5, 6, 7]);
    ReadFour(Region(buf, 8, 4), 0, [8, 9, 10, 11]);
    ReadFour(Region(buf, 8, 4), 1, [9, 10, 11, 8]);
    ReadFour(Region(buf, 12, 4), 1, [12, 13, 14, 15]);
  }

  /** Turn 0 as written merges old tiers 0 and 1, whose slots already lie in order. */
  lemma ExampleTurnZero(buf: seq<Option<int>>)
    requires ExpandExample(buf)
    ensures ExpandTurnAsWritten(buf, Span(0, 4), Span(0, 4), 4, 0) == Some(buf)
  {
    ExampleTiersRead(buf);
    TurnReads(buf, Span(0, 4), Span(0, 4), 4, 0, [0, 1, 2, 3], [4, 5, 6, 7]);
    var laid := Laid([0, 1, 2, 3] + [4, 5, 6, 7], 8);
    assert laid == buf[..8] by {
      forall k | 0 <= k < 8
        ensures laid[k] == buf[k]
      {
      }
    }
    assert Overwrite(buf, 0, buf[..8]) == buf;
  }

  /** Turn 1 as written reads slots 4 .. 11 with the cursors of old tiers 2 and 3. */
  lemma ExampleTurnOne(buf: seq<Option<int>>) returns (nb: seq<Option<int>>)
    requires ExpandExample(buf)
    ensures ExpandTurnAsWritten(buf, Span(0, 4), Span(1, 5), 4, 1) == Some(nb)
    ensures Region(nb, 8, 8) == [Some(9), Some(10), Some(11), Some(8), Some(15), Some(12), Some(13), Some(14)]
  {
    ExampleTiersRead(buf);
    TurnReads(buf, Span(0, 4), Span(1, 5), 4, 1, [4, 5, 6, 7], [9, 10, 11, 8]);
    var laid := Laid([4, 5, 6, 7] + [9, 10, 11, 8], 8);
    nb := Overwrite(buf, 4, laid);
    var want := [Some(9), Some(10), Some(11), Some(8), Some(15), Some(12), Some(13), Some(14)];
    forall k | 0 <= k < 8
      ensures Region(nb, 8, 8)[k] == want[k]
    {
      if k < 4 {
        assert Region(nb, 8, 8)[k] == laid[k + 4];
      } else {
        assert Region(nb, 8, 8)[k] == buf[8 + k];
      }
    }
    assert Region(nb, 8, 8) == want;
  }

  /** The merged tier 1 of the example, read from cursor 0. */
  lemma ExampleMergedOne(m: seq<Option<int>>)
    requires m == [Some(9), Some(10), Some(11), Some(8), Some(15), Some(12), Some(13), Some(14)]
    ensures Reading(m, Span(0, 8)) == Some([9, 10, 11, 8, 15, 12, 13, 14])
  {
    FullReading(m, 0);
    assert 0 % |m| == 0 && RotateLeft(m, 0) == m;
    var v := Values(m);
    assert v[0] == 9 && v[1] == 10 && v[2] == 11 && v[3] == 8;
    assert v[4] == 15 && v[5] == 12 && v[6] == 13 && v[7] == 14;
    assert v == [9, 10, 11, 8, 15, 12, 13, 14];
  }

  /**
   * Four full tiers of 4 holding 0 .. 15, the last with its head one on.
   * Turn 0 as written merges tiers 0 and 1 in place. Turn 1 then reads slots
   * 4 .. 11, the upper half of the merged tier and the slots of old tier 2,
   * with the cursors of old tiers 2 and 3. Merged tier 1, slots 8 .. 15 read
   * from cursor 0, then holds 9, 10, 11, 8, 15, 12, 13, 14, where old tiers 2
   * and 3, which the corrected turn merges, hold 8 .. 11 and 12 .. 15.
   */
  lemma ExpandTurnScrambles(buf: seq<Option<int>>)
    requires ExpandExample(buf)
    ensures Reading(Region(buf, Start(4, 2), 4), Span(0, 4)) == Some([8, 9, 10, 11])
    ensures Reading(Region(buf, Start(4, 3), 4), Span(1, 5)) == Some([12, 13, 14, 15])
    ensures ExpandTurnAsWritten(buf, Span(0, 4), Span(0, 4), 4, 0) == Some(buf)
    ensures ExpandTurnAsWritten(buf, Span(0, 4), Span(1, 5), 4, 1).Some?
    ensures Reading(Region(ExpandTurnAsWritten(buf, Span(0, 4), Span(1, 5), 4, 1).value, 8, 8), Span(0, 8))
         == Some([9, 10, 11, 8, 15, 12, 13, 14])
  {
    assert Start(4, 2) == 8 && Start(4, 3) == 12;
    ExampleTiersRead(buf);
    ExampleTurnZero(buf);
    var nb := ExampleTurnOne(buf);
    ExampleMergedOne(Region(nb, 8, 8));
  }

  // ---------------------------------------------------------------------------
  // `try_contract` as the crate writes it: turn i, for even i, hands
  // `split_half` the n slots from i * n with the offsets of old tier i / 2,
  // whose slots start at (i / 2) * n.

  /** Where turn i of the splitting loop takes its slots, as written. */
  function ContractStartAsWritten(n: nat, i: nat): nat
  {
    i * n
  }

  /** Slots that hold an empty tier are all free, so no cursors with elements between them read them as a tier. */
  lemma FreeSlotsReadNothing<T>(slots: seq<Option<T>>, sp: Span, other: Span)
    requires SlotsHold(slots, sp, []) && other.tail - other.head > 0
    ensures Reading(slots, other) == None
  {
    ByRankIsRotation(slots, sp.head);
    var m := sp.head % |slots|;
    assert AllNone(RotateLeft(slots, m));
    var k := other.head % |slots|;
    assert slots[k] == None by {
      if k < m {
        assert slots[k] == RotateLeft(slots, m)[|slots| - m + k];
      } else {
        assert slots[k] == RotateLeft(slots, m)[k - m];
      }
    }
    var len := other.tail - other.head;
    if len <= |slots| {
      ByRankSlot(slots, other.head, 0);
      assert Window(slots, other.head, len)[0] == None;
    }
  }

  /**
   * Turn 2 of the splitting loop as written, on tiers of n where tier 1
   * holds elements and tier 2 none (17 to 31 elements when n is 16, below
   * the eighth of the capacity at which `try_contract` fires): it hands
   * `split_half` the free slots of old tier 2 with the cursors of old tier
   * 1, which do not read as a tier; the slots of old tier 1, which the
   * corrected turn takes, hold its elements.
   */
  lemma ContractTurnReadsFreeSlots<T>(buf: seq<Option<T>>, sps: seq<Span>, cs: seq<seq<T>>, n: nat)
    requires n >= 3 && |cs| >= 3 && Holds(buf, sps, cs, n, 0) && cs[1] != [] && cs[2] == []
    ensures ContractStartAsWritten(n, 2) + n <= |buf| && Start(n, 2 / 2) + n <= |buf|
    ensures Reading(Region(buf, ContractStartAsWritten(n, 2), n), sps[1]) == None
    ensures Reading(Region(buf, Start(n, 2 / 2), n), sps[1]) == Some(cs[1])
  {
    TierFacts(buf, sps, cs, n, 0, 1);
    TierFacts(buf, sps, cs, n, 0, 2);
    StartIsProduct(n, 2);
    FreeSlotsReadNothing(Region(buf, 2 * n, n), sps[2], sps[1]);
  }
}
