// The tiered vector's operations stated on its elements.
//
// A valid vector of tier size n holding s has the tiers Chunks(s, n, n): the
// runs of n elements of s. Each operation below is written as the new tiers
// it leaves, computed from s the way the crate's loops compute them, and the
// lemmas say what that means for the vector's elements. The vector classes
// prove that their loops produce exactly these tiers.
module Layout {
  import opened Wrappers
  import opened Seqs
  import opened Tiers
  import opened Ring

  // ---------------------------------------------------------------------------
  // Arithmetic on run starts.

  lemma {:induction false} StartAdd(n: nat, a: nat, b: nat)
    ensures Start(n, a + b) == Start(n, a) + Start(n, b)
  {
    if b > 0 {
      StartAdd(n, a, b - 1);
    }
  }

  /** A rank below the first m runs lies in one of them: `tier_idx` stays below m. */
  lemma RankTier(n: nat, k: nat, m: nat)
    requires n > 0 && k < Start(n, m)
    ensures k / n < m
  {
    StartOfQuotient(n, k);
    if k / n >= m {
      StartMonotone(n, m, k / n);
    }
  }

  // ---------------------------------------------------------------------------
  // Packing, piece by piece.

  predicate AllFull<T>(ts: seq<seq<T>>, n: nat)
  {
    forall j :: 0 <= j < |ts| ==> |ts[j]| == n
  }

  predicate AllEmpty<T>(ts: seq<seq<T>>)
  {
    forall j :: 0 <= j < |ts| ==> ts[j] == []
  }

  /** Packed tiers stay packed after full tiers or before empty ones. */
  lemma PackedAppend<T>(a: seq<seq<T>>, b: seq<seq<T>>, n: nat)
    requires Packed(a, n) && Packed(b, n) && (AllFull(a, n) || AllEmpty(b))
    ensures Packed(a + b, n)
  {
    forall i, j | 0 <= i < j < |a + b| && (a + b)[j] != []
      ensures |(a + b)[i]| == n
    {
      if j < |a| {
        assert (a + b)[i] == a[i] && (a + b)[j] == a[j];
      } else if i >= |a| {
        assert (a + b)[i] == b[i - |a|] && (a + b)[j] == b[j - |a|];
      } else {
        assert (a + b)[j] == b[j - |a|];
      }
    }
  }

  /** In packed tiers, the tiers before a non-empty one are full and those after a tier with room are empty. */
  lemma PackedAround<T>(ts: seq<seq<T>>, n: nat, t: nat)
    requires Packed(ts, n) && t < |ts|
    ensures ts[t] != [] ==> AllFull(ts[..t], n)
    ensures |ts[t]| < n ==> AllEmpty(ts[t + 1..])
  {
  }

  /** The runs of s: full before a rank of s, empty from the end of s on. */
  lemma ChunksAround<T>(s: seq<T>, n: nat, count: nat)
    requires |s| <= Start(n, count)
    ensures Packed(Chunks(s, n, count), n) && Flatten(Chunks(s, n, count)) == s
    ensures forall j :: 0 <= j <= count ==> |Flatten(Chunks(s, n, count)[..j])| == Min(Start(n, j), |s|)
  {
    ChunksPacked(s, n, count);
    var cs := Chunks(s, n, count);
    forall j | 0 <= j <= count
      ensures |Flatten(cs[..j])| == Min(Start(n, j), |s|)
    {
      assert cs[..j] == Chunks(s, n, j);
      FlattenChunks(s, n, j);
    }
  }

  // ---------------------------------------------------------------------------
  // Insertion.

  /** What a full tier keeps when the order-keeping cascade takes its last element. */
  function Dropped<T>(t: seq<T>, n: nat): seq<T>
  {
    if Full(t, n) then t[..|t| - 1] else t
  }

  /**
   * Insertion into tier t of the tiers c0 as the linked vector does it: when
   * tier t is full, the front-first cascade runs from it (tier t hands its
   * first element to the next tier's back, and so on while tiers are full),
   * then `e` goes in at offset r of tier t.
   */
  function FrontInsert<T>(c0: seq<seq<T>>, n: nat, t: nat, r: nat, e: T): (cs: seq<seq<T>>)
    requires t < |c0| && r <= |Kept(c0[t], n)|
    ensures |cs| == |c0|
  {
    if Full(c0[t], n) then
      c0[..t] + [InsertAt(Kept(c0[t], n), r, e)] + FrontCarry(c0[t + 1..], n, Pass(c0[t], n)).0
    else c0[..t] + [InsertAt(c0[t], r, e)] + c0[t + 1..]
  }

  /**
   * Insertion into tier t as the order-keeping variant does it: when tier t
   * is full, the back-first cascade runs from it (tier t hands its last
   * element to the next tier's front, and so on up to the first tier with
   * room), then `e` goes in at offset r of tier t.
   */
  function BackInsert<T>(c0: seq<seq<T>>, n: nat, t: nat, r: nat, e: T): (cs: seq<seq<T>>)
    requires t < |c0| && r <= |Dropped(c0[t], n)|
    ensures |cs| == |c0|
  {
    if Full(c0[t], n) then
      c0[..t] + [InsertAt(Dropped(c0[t], n), r, e)] + BackCarry(c0[t + 1..], n, Some(c0[t][|c0[t]| - 1])).0
    else c0[..t] + [InsertAt(c0[t], r, e)] + c0[t + 1..]
  }

  /**
   * Where rank `rank` of s sits among the tiers Chunks(s, n, n): in tier
   * t = rank / n at offset rank mod n, after t full tiers.
   */
  lemma InsertionPoint<T>(s: seq<T>, n: nat, rank: nat)
    requires n > 0 && rank <= |s| < Start(n, n)
    ensures 0 <= rank / n < n && rank % n < n
    ensures Packed(Chunks(s, n, n), n) && Flatten(Chunks(s, n, n)) == s
    ensures AllFull(Chunks(s, n, n)[..rank / n], n)
    ensures |Flatten(Chunks(s, n, n)[..rank / n])| == Start(n, rank / n)
    ensures rank == Start(n, rank / n) + rank % n
    ensures rank % n <= |Chunks(s, n, n)[rank / n]|
    ensures rank < |s| ==> rank % n < |Chunks(s, n, n)[rank / n]|
  {
    StartOfQuotient(n, rank);
    RankTier(n, rank, n);
    ChunkAt(s, n, rank);
    ChunksPacked(s, n, n);
    ChunksBefore(s, n, n, rank / n);
  }

  /** The runs of s that start no later than the end of s, but the last, are full. */
  lemma ChunksBefore<T>(s: seq<T>, n: nat, count: nat, t: nat)
    requires t <= count && Start(n, t) <= |s|
    ensures AllFull(Chunks(s, n, count)[..t], n)
    ensures |Flatten(Chunks(s, n, count)[..t])| == Start(n, t)
  {
    var c0 := Chunks(s, n, count);
    assert c0[..t] == Chunks(s, n, t);
    FlattenChunks(s, n, t);
    forall j | 0 <= j < t
      ensures |c0[..t][j]| == n
    {
      StartMonotone(n, j + 1, t);
      ChunkHasLength(s, n, j);
    }
  }

  /** The elements after the linked `insert(rank, e)` on a vector of tier size n holding s. */
  function LinkedInserted<T>(s: seq<T>, n: nat, rank: nat, e: T): seq<T>
    requires n > 0 && rank <= |s| < Start(n, n)
  {
    InsertionPoint(s, n, rank);
    Flatten(FrontInsert(Chunks(s, n, n), n, rank / n, rank % n, e))
  }

  /** The packed tiers after a full tier t: they have room when the whole vector has. */
  lemma RoomBehind<T>(c0: seq<seq<T>>, n: nat, t: nat)
    requires t < |c0| && AllFull(c0[..t], n) && |c0[t]| == n && |Flatten(c0)| < Start(n, |c0|)
    ensures HasRoom(c0[t + 1..], n)
  {
    assert c0[..t + 1] == c0[..t] + [c0[t]];
    FlattenSplit(c0, t + 1);
    FlattenFull(c0[..t + 1], n);
    StartAdd(n, t + 1, |c0| - t - 1);
  }

  /** Full tiers, then a full tier, then packed tiers, are packed. */
  lemma PackedThreeFull<T>(a: seq<seq<T>>, v: seq<T>, b: seq<seq<T>>, n: nat)
    requires AllFull(a, n) && |v| == n && Packed(b, n)
    ensures Packed(a + [v] + b, n)
  {
    PackedCons(v, b, n);
    PackedAppend(a, [v] + b, n);
    assert a + [v] + b == a + ([v] + b);
  }

  /** Full tiers, then a tier with at most n elements, then empty tiers, are packed. */
  lemma PackedThreeRoom<T>(a: seq<seq<T>>, v: seq<T>, b: seq<seq<T>>, n: nat)
    requires AllFull(a, n) && |v| <= n && AllEmpty(b)
    ensures Packed(a + [v] + b, n)
  {
    PackedCons(v, b, n);
    PackedAppend(a, [v] + b, n);
    assert a + [v] + b == a + ([v] + b);
  }

  /** Inserting into a tier with room: packed tiers stay packed and the order is kept. */
  lemma InsertWithRoom<T>(c0: seq<seq<T>>, n: nat, t: nat, r: nat, e: T)
    requires n > 0 && Packed(c0, n) && t < |c0| && AllFull(c0[..t], n) && |c0[t]| < n && r <= |c0[t]|
    ensures |Flatten(c0[..t])| + r <= |Flatten(c0)|
    ensures Packed(c0[..t] + [InsertAt(c0[t], r, e)] + c0[t + 1..], n)
    ensures Flatten(c0[..t] + [InsertAt(c0[t], r, e)] + c0[t + 1..]) == InsertAt(Flatten(c0), |Flatten(c0[..t])| + r, e)
  {
    var v := InsertAt(c0[t], r, e);
    assert Packed(c0[..t] + [v] + c0[t + 1..], n) by {
      PackedAround(c0, n, t);
      PackedThreeRoom(c0[..t], v, c0[t + 1..], n);
    }
    InsertInPlace(c0, t, r, e);
  }

  /** Inserting into tier t alone inserts into the concatenation, after the tiers before t. */
  lemma InsertInPlace<T>(c0: seq<seq<T>>, t: nat, r: nat, e: T)
    requires t < |c0| && r <= |c0[t]|
    ensures |Flatten(c0[..t])| + r <= |Flatten(c0)|
    ensures Flatten(c0[..t] + [InsertAt(c0[t], r, e)] + c0[t + 1..]) == InsertAt(Flatten(c0), |Flatten(c0[..t])| + r, e)
  {
    var a, b := Flatten(c0[..t]), Flatten(c0[t + 1..]);
    FlattenAt(c0, t);
    calc {
      Flatten(c0[..t] + [InsertAt(c0[t], r, e)] + c0[t + 1..]);
      { FlattenThree(c0[..t], InsertAt(c0[t], r, e), c0[t + 1..]); }
      a + InsertAt(c0[t], r, e) + b;
      { InsertAtMiddle(a, c0[t], b, r, e); }
      InsertAt(a + c0[t] + b, |a| + r, e);
    }
  }

  /** The front-first insert leaves packed tiers packed. */
  lemma FrontInsertPacked<T>(c0: seq<seq<T>>, n: nat, t: nat, r: nat, e: T)
    requires n > 0 && Packed(c0, n) && |Flatten(c0)| < Start(n, |c0|)
    requires t < |c0| && AllFull(c0[..t], n) && r <= |Kept(c0[t], n)|
    ensures Packed(FrontInsert(c0, n, t, r, e), n)
  {
    if Full(c0[t], n) {
      var v := InsertAt(Kept(c0[t], n), r, e);
      var fc := FrontCarry(c0[t + 1..], n, Some(c0[t][0]));
      assert Packed(fc.0, n) by {
        RoomBehind(c0, n, t);
        FrontCarryPacked(c0[t + 1..], n, c0[t][0]);
      }
      PackedThreeFull(c0[..t], v, fc.0, n);
    } else {
      InsertWithRoom(c0, n, t, r, e);
    }
  }

  /** Multiset bookkeeping for one tier giving up c and the next run of tiers taking it in. */
  lemma Regroup<T>(a: seq<T>, k: seq<T>, x: seq<T>, b: seq<T>, b2: seq<T>, c: seq<T>, v: seq<T>, e: T)
    requires multiset(v) == multiset(k) + multiset{e}
    requires multiset(b2) == multiset(b) + multiset(c)
    requires multiset(x) == multiset(c) + multiset(k)
    ensures multiset(a + v + b2) == multiset(a + x + b) + multiset{e}
  {
    calc {
      multiset(a + v + b2);
      multiset(a) + multiset(v) + multiset(b2);
      multiset(a) + (multiset(c) + multiset(k)) + multiset(b) + multiset{e};
      multiset(a) + multiset(x) + multiset(b) + multiset{e};
      multiset(a + x + b) + multiset{e};
    }
  }

  /** Inserting before the last element of a tier whose last element moves on into the next run. */
  lemma ShiftedInsert<T>(x: seq<T>, a: seq<T>, k: seq<T>, d: seq<T>, last: T, b: seq<T>, r: nat, e: T)
    requires r <= |d| && k == d + [last] && x == a + k + b
    ensures |a| + r <= |x|
    ensures a + InsertAt(d, r, e) + ([last] + b) == InsertAt(x, |a| + r, e)
  {
    InsertAtMiddle(a, d, [last] + b, r, e);
    assert a + d + ([last] + b) == x;
  }

  /** The front-first insert adds `e` and keeps every other element, though not in order. */
  lemma FrontInsertConserves<T>(c0: seq<seq<T>>, n: nat, t: nat, r: nat, e: T)
    requires n > 0 && Packed(c0, n) && |Flatten(c0)| < Start(n, |c0|)
    requires t < |c0| && AllFull(c0[..t], n) && r <= |Kept(c0[t], n)|
    ensures multiset(Flatten(FrontInsert(c0, n, t, r, e))) == multiset(Flatten(c0)) + multiset{e}
  {
    var k := Kept(c0[t], n);
    var v := InsertAt(k, r, e);
    assert multiset(v) == multiset(k) + multiset{e} by {
      assert v == k[..r] + [e] + k[r..];
      assert k == k[..r] + k[r..];
    }
    FlattenUpdate(c0, t, v);
    var a, b := Flatten(c0[..t]), Flatten(c0[t + 1..]);
    if Full(c0[t], n) {
      var fc := FrontCarry(c0[t + 1..], n, Pass(c0[t], n));
      var c := CarryList(Pass(c0[t], n));
      assert fc.1 == None by {
        RoomBehind(c0, n, t);
        FrontCarryPacked(c0[t + 1..], n, c0[t][0]);
      }
      assert multiset(Flatten(fc.0)) == multiset(b) + multiset(c) by {
        FrontCarryConserves(c0[t + 1..], n, Pass(c0[t], n));
      }
      assert multiset(c0[t]) == multiset(c) + multiset(k) by {
        PassKept(c0[t], n);
      }
      FlattenThree(c0[..t], v, fc.0);
      Regroup(a, k, c0[t], b, Flatten(fc.0), c, v, e);
    } else {
      FlattenThree(c0[..t], v, c0[t + 1..]);
      Regroup(a, k, c0[t], b, b, [], v, e);
    }
  }

  /** The back-first insert leaves packed tiers packed. */
  lemma BackInsertPacked<T>(c0: seq<seq<T>>, n: nat, t: nat, r: nat, e: T)
    requires n > 0 && Packed(c0, n) && |Flatten(c0)| < Start(n, |c0|)
    requires t < |c0| && AllFull(c0[..t], n) && r <= |Dropped(c0[t], n)|
    ensures Packed(BackInsert(c0, n, t, r, e), n)
  {
    if Full(c0[t], n) {
      var v := InsertAt(Dropped(c0[t], n), r, e);
      var bc := BackCarry(c0[t + 1..], n, Some(c0[t][|c0[t]| - 1]));
      assert Packed(bc.0, n) by {
        RoomBehind(c0, n, t);
        BackCarryPacked(c0[t + 1..], n, c0[t][|c0[t]| - 1]);
      }
      PackedThreeFull(c0[..t], v, bc.0, n);
    } else {
      InsertWithRoom(c0, n, t, r, e);
    }
  }

  /** The back-first insert puts `e` at its rank and keeps the order of the rest. */
  lemma BackInsertInOrder<T>(c0: seq<seq<T>>, n: nat, t: nat, r: nat, e: T)
    requires n > 0 && Packed(c0, n) && |Flatten(c0)| < Start(n, |c0|)
    requires t < |c0| && AllFull(c0[..t], n) && r <= |Dropped(c0[t], n)|
    ensures |Flatten(c0[..t])| + r <= |Flatten(c0)|
    ensures Flatten(BackInsert(c0, n, t, r, e)) == InsertAt(Flatten(c0), |Flatten(c0[..t])| + r, e)
  {
    if Full(c0[t], n) {
      BackInsertFull(c0, n, t, r, e);
    } else {
      InsertWithRoom(c0, n, t, r, e);
    }
  }

  /** The case of `BackInsertInOrder` where the target tier is full and hands its last element on. */
  lemma BackInsertFull<T>(c0: seq<seq<T>>, n: nat, t: nat, r: nat, e: T)
    requires n > 0 && Packed(c0, n) && |Flatten(c0)| < Start(n, |c0|)
    requires t < |c0| && AllFull(c0[..t], n) && Full(c0[t], n) && r <= |Dropped(c0[t], n)|
    ensures |Flatten(c0[..t])| + r <= |Flatten(c0)|
    ensures Flatten(BackInsert(c0, n, t, r, e)) == InsertAt(Flatten(c0), |Flatten(c0[..t])| + r, e)
  {
    assert |Flatten(c0[..t])| + r <= |Flatten(c0)| by {
      FlattenAt(c0, t);
    }
    BackFlatten(c0, n, t, r, e);
    BackPiecesInOrder(c0, n, t, r, e);
  }

  /** The tiers after the back-first insert into a full tier, read in order. */
  lemma BackFlatten<T>(c0: seq<seq<T>>, n: nat, t: nat, r: nat, e: T)
    requires n > 0 && Packed(c0, n) && |Flatten(c0)| < Start(n, |c0|)
    requires t < |c0| && AllFull(c0[..t], n) && Full(c0[t], n) && r <= |Dropped(c0[t], n)|
    ensures Flatten(BackInsert(c0, n, t, r, e)) ==
      Flatten(c0[..t]) + InsertAt(Dropped(c0[t], n), r, e) + ([c0[t][|c0[t]| - 1]] + Flatten(c0[t + 1..]))
  {
    var last := c0[t][|c0[t]| - 1];
    var v := InsertAt(Dropped(c0[t], n), r, e);
    var bc := BackCarry(c0[t + 1..], n, Some(last));
    assert Flatten(bc.0) == [last] + Flatten(c0[t + 1..]) by {
      RoomBehind(c0, n, t);
      BackCarryPacked(c0[t + 1..], n, last);
      BackCarryShifts(c0[t + 1..], n, Some(last));
    }
    FlattenThree(c0[..t], v, bc.0);
  }

  /** The pieces of `BackFlatten`, put back together, are the vector's elements with `e` inserted. */
  lemma BackPiecesInOrder<T>(c0: seq<seq<T>>, n: nat, t: nat, r: nat, e: T)
    requires t < |c0| && Full(c0[t], n) && r <= |Dropped(c0[t], n)|
    ensures |Flatten(c0[..t])| + r <= |Flatten(c0)|
    ensures Flatten(c0[..t]) + InsertAt(Dropped(c0[t], n), r, e) + ([c0[t][|c0[t]| - 1]] + Flatten(c0[t + 1..]))
      == InsertAt(Flatten(c0), |Flatten(c0[..t])| + r, e)
  {
    FlattenAt(c0, t);
    DroppedLast(c0[t], n);
    ShiftedInsert(Flatten(c0), Flatten(c0[..t]), c0[t], Dropped(c0[t], n), c0[t][|c0[t]| - 1], Flatten(c0[t + 1..]), r, e);
  }

  /** A full tier is what it keeps followed by the element it hands on at the back. */
  lemma DroppedLast<T>(t: seq<T>, n: nat)
    requires Full(t, n)
    ensures t == Dropped(t, n) + [t[|t| - 1]]
  {
  }

  // ---------------------------------------------------------------------------
  // Removal.

  /** The carry out of the reverse loop is an element exactly when one went in or a tier held one. */
  lemma {:induction false} RefillRunOut<T>(ts: seq<seq<T>>, carry: Option<T>)
    ensures RefillRun(ts, carry).1.Some? <==> carry.Some? || !AllEmpty(ts)
  {
    if ts != [] {
      var k := |ts| - 1;
      RefillRunOut(ts[..k], Handed(ts[k], carry));
      assert ts == ts[..k] + [ts[k]];
      assert AllEmpty(ts) <==> AllEmpty(ts[..k]) && ts[k] == [];
    }
  }

  /** Over empty tiers with nothing carried in, the reverse loop changes nothing. */
  lemma {:induction false} RefillRunIdle<T>(ts: seq<seq<T>>)
    requires AllEmpty(ts)
    ensures RefillRun(ts, None).0 == ts
  {
    if ts != [] {
      var k := |ts| - 1;
      RefillRunIdle(ts[..k]);
      assert ts == ts[..k] + [ts[k]];
    }
  }

  /**
   * The reverse loop over packed tiers keeps them packed. (The carry only
   * goes in from above when the tiers below are full.)
   */
  lemma {:induction false} RefillRunPacked<T>(ts: seq<seq<T>>, n: nat, carry: Option<T>)
    requires n > 0 && Packed(ts, n) && (carry.Some? ==> AllFull(ts, n))
    ensures Packed(RefillRun(ts, carry).0, n)
  {
    if ts != [] {
      var k := |ts| - 1;
      var last := ts[k];
      var init := ts[..k];
      var c2 := Handed(last, carry);
      var rc := RefillRun(init, c2);
      var v := Refilled(last, carry);
      assert ts == init + [last];
      assert Packed(init, n) && (c2.Some? ==> AllFull(init, n));
      RefillRunPacked(init, n, c2);
      if last != [] && init != [] {
        RefillRunLengths(init, c2);
      }
      PackedAppend(rc.0, [v], n);
    }
  }

  /**
   * Removal at offset r of tier t, then the reverse loop over tiers hi - 1
   * down to t + 1, then the carried element pushed at the back of tier t:
   * what `remove` does to the tiers c0.
   */
  function RemoveRefilled<T>(c0: seq<seq<T>>, t: nat, r: nat, hi: nat): (cs: seq<seq<T>>)
    requires t < hi <= |c0| && r < |c0[t]|
    ensures |cs| == |c0|
  {
    var c1 := c0[t := RemoveAt(c0[t], r)];
    var rc := Refill(c1, t + 1, hi, None);
    rc.0[t := rc.0[t] + CarryList(rc.1)]
  }

  /** The same tiers, written with the run of the reverse loop in one piece. */
  function RemoveClosed<T>(c0: seq<seq<T>>, t: nat, r: nat, hi: nat): (cs: seq<seq<T>>)
    requires t < hi <= |c0| && r < |c0[t]|
  {
    var run := RefillRun(c0[t + 1..hi], None);
    c0[..t] + [RemoveAt(c0[t], r) + CarryList(run.1)] + (run.0 + c0[hi..])
  }

  lemma RemoveRefilledIsClosed<T>(c0: seq<seq<T>>, t: nat, r: nat, hi: nat)
    requires t < hi <= |c0| && r < |c0[t]|
    ensures RemoveRefilled(c0, t, r, hi) == RemoveClosed(c0, t, r, hi)
  {
    var c1 := c0[t := RemoveAt(c0[t], r)];
    RefillIsRun(c1, t + 1, hi, None);
    assert c1[t + 1..hi] == c0[t + 1..hi];
    assert c1[hi..] == c0[hi..];
    assert c1[..t + 1] == c0[..t] + [RemoveAt(c0[t], r)];
  }

  /** Regrouping the flattened pieces of `RemoveClosed`. */
  lemma RemoveRegroup<T>(x: seq<T>, a: seq<T>, k: seq<T>, c: seq<T>, f: seq<T>, g: seq<T>, r: nat)
    requires r < |k| && x == a + k + g && c + f == g
    ensures |a| + r < |x|
    ensures a + (RemoveAt(k, r) + c) + f == RemoveAt(x, |a| + r)
  {
    RemoveAtMiddle(a, k, g, r);
  }

  /** The reverse loop over tiers t + 1 .. hi - 1, when the tiers from hi on are empty, shifts all elements after tier t. */
  lemma RunFlatten<T>(c0: seq<seq<T>>, t: nat, hi: nat)
    requires t < hi <= |c0| && AllEmpty(c0[hi..])
    ensures CarryList(RefillRun(c0[t + 1..hi], None).1) + Flatten(RefillRun(c0[t + 1..hi], None).0) == Flatten(c0[t + 1..])
    ensures Flatten(RefillRun(c0[t + 1..hi], None).0 + c0[hi..]) == Flatten(RefillRun(c0[t + 1..hi], None).0)
  {
    var run := RefillRun(c0[t + 1..hi], None);
    RefillRunShifts(c0[t + 1..hi], None);
    assert c0[t + 1..] == c0[t + 1..hi] + c0[hi..];
    FlattenConcat(c0[t + 1..hi], c0[hi..]);
    FlattenConcat(run.0, c0[hi..]);
    FlattenEmpty(c0[hi..]);
  }

  lemma ClosedFlatten<T>(c0: seq<seq<T>>, t: nat, r: nat, hi: nat)
    requires t < hi <= |c0| && r < |c0[t]| && AllEmpty(c0[hi..])
    ensures Flatten(RemoveClosed(c0, t, r, hi)) ==
      Flatten(c0[..t]) + (RemoveAt(c0[t], r) + CarryList(RefillRun(c0[t + 1..hi], None).1))
      + Flatten(RefillRun(c0[t + 1..hi], None).0)
  {
    var run := RefillRun(c0[t + 1..hi], None);
    RunFlatten(c0, t, hi);
    FlattenThree(c0[..t], RemoveAt(c0[t], r) + CarryList(run.1), run.0 + c0[hi..]);
  }

  /** The pieces of `RemoveClosed`, put back together, are the vector's elements without the removed one. */
  lemma RemovePiecesInOrder<T>(c0: seq<seq<T>>, t: nat, r: nat, hi: nat)
    requires t < hi <= |c0| && r < |c0[t]| && AllEmpty(c0[hi..])
    ensures |Flatten(c0[..t])| + r < |Flatten(c0)|
    ensures Flatten(c0[..t]) + (RemoveAt(c0[t], r) + CarryList(RefillRun(c0[t + 1..hi], None).1))
      + Flatten(RefillRun(c0[t + 1..hi], None).0) == RemoveAt(Flatten(c0), |Flatten(c0[..t])| + r)
  {
    RunFlatten(c0, t, hi);
    RemovePieces(c0, t, r, CarryList(RefillRun(c0[t + 1..hi], None).1), Flatten(RefillRun(c0[t + 1..hi], None).0));
  }

  /** Removing at offset r of tier t, with the elements after tier t written as c + f. */
  lemma RemovePieces<T>(c0: seq<seq<T>>, t: nat, r: nat, c: seq<T>, f: seq<T>)
    requires t < |c0| && r < |c0[t]| && c + f == Flatten(c0[t + 1..])
    ensures |Flatten(c0[..t])| + r < |Flatten(c0)|
    ensures Flatten(c0[..t]) + (RemoveAt(c0[t], r) + c) + f == RemoveAt(Flatten(c0), |Flatten(c0[..t])| + r)
  {
    FlattenAt(c0, t);
    RemoveRegroup(Flatten(c0), Flatten(c0[..t]), c0[t], c, f, Flatten(c0[t + 1..]), r);
  }

  /** `remove` drops the element at offset r of tier t from the vector's elements, when the tiers from hi on are empty. */
  lemma RemoveClosedInOrder<T>(c0: seq<seq<T>>, t: nat, r: nat, hi: nat)
    requires t < hi <= |c0| && r < |c0[t]| && AllEmpty(c0[hi..])
    ensures |Flatten(c0[..t])| + r < |Flatten(c0)|
    ensures Flatten(RemoveClosed(c0, t, r, hi)) == RemoveAt(Flatten(c0), |Flatten(c0[..t])| + r)
  {
    var run := RefillRun(c0[t + 1..hi], None);
    assert |Flatten(c0[..t])| + r < |Flatten(c0)| by {
      FlattenAt(c0, t);
    }
    ClosedFlatten(c0, t, r, hi);
    RemovePiecesInOrder(c0, t, r, hi);
  }

  /** `remove` leaves packed tiers packed, when the tiers from hi on are empty. */
  lemma RemoveClosedPacked<T>(c0: seq<seq<T>>, n: nat, t: nat, r: nat, hi: nat)
    requires n > 0 && Packed(c0, n) && t < hi <= |c0| && r < |c0[t]| && AllEmpty(c0[hi..])
    ensures Packed(RemoveClosed(c0, t, r, hi), n)
  {
    var seg := c0[t + 1..hi];
    var run := RefillRun(seg, None);
    var v := RemoveAt(c0[t], r) + CarryList(run.1);
    PackedAround(c0, n, t);
    assert Packed(seg, n) && Packed(c0[hi..], n);
    RefillRunPacked(seg, n, None);
    RefillRunOut(seg, None);
    if run.1.Some? {
      assert |c0[t]| == n by {
        var j :| 0 <= j < |seg| && seg[j] != [];
        assert c0[t + 1 + j] != [];
      }
      assert Packed(run.0 + c0[hi..], n) by {
        PackedAppend(run.0, c0[hi..], n);
      }
      PackedThreeFull(c0[..t], v, run.0 + c0[hi..], n);
    } else {
      RefillRunIdle(seg);
      assert AllEmpty(run.0 + c0[hi..]);
      PackedThreeRoom(c0[..t], v, run.0 + c0[hi..], n);
    }
  }

  // ---------------------------------------------------------------------------
  // The vector's elements. A vector of tier size n holding s has the tiers
  // Chunks(s, n, n); the functions below give its elements after each
  // operation, and the lemmas say what the crate promises of them.

  /** `get_by_rank`: rank `rank` is found in tier rank / n at offset rank mod n, exactly when it is a rank of s. */
  lemma RankLookup<T>(s: seq<T>, n: nat, rank: nat)
    requires n > 0 && |s| <= Start(n, n)
    ensures rank / n < n ==> (rank < |s| <==> rank % n < |Chunks(s, n, n)[rank / n]|)
    ensures rank / n < n && rank < |s| ==> Chunks(s, n, n)[rank / n][rank % n] == s[rank]
    ensures rank / n >= n ==> rank >= |s|
  {
    StartOfQuotient(n, rank);
    ChunkAt(s, n, rank);
    var t: nat := rank / n;
    if t >= n {
      StartMonotone(n, n, t);
    }
  }

  /** The linked insert adds `e` and keeps every other element. */
  lemma LinkedInsertedConserves<T>(s: seq<T>, n: nat, rank: nat, e: T)
    requires n > 0 && rank <= |s| < Start(n, n)
    ensures multiset(LinkedInserted(s, n, rank, e)) == multiset(s) + multiset{e}
  {
    InsertionPoint(s, n, rank);
    var c0 := Chunks(s, n, n);
    FrontInsertConserves(c0, n, rank / n, rank % n, e);
  }

  /** When the target tier has room, the linked insert puts `e` at rank `rank` and keeps the order of the rest. */
  lemma LinkedInsertedWithRoom<T>(s: seq<T>, n: nat, rank: nat, e: T)
    requires n > 0 && rank <= |s| < Start(n, n) && |Chunk(s, n, rank / n)| < n
    ensures LinkedInserted(s, n, rank, e) == InsertAt(s, rank, e)
  {
    InsertionPoint(s, n, rank);
    var t: nat, r: nat, c0 := rank / n, rank % n, Chunks(s, n, n);
    assert |c0[t]| < n;
    calc {
      LinkedInserted(s, n, rank, e);
      Flatten(FrontInsert(c0, n, t, r, e));
      Flatten(c0[..t] + [InsertAt(c0[t], r, e)] + c0[t + 1..]);
      { InsertWithRoom(c0, n, t, r, e); }
      InsertAt(Flatten(c0), |Flatten(c0[..t])| + r, e);
      InsertAt(s, rank, e);
    }
  }

  /** Appending: the linked insert at rank |s| puts `e` last. */
  lemma LinkedAppend<T>(s: seq<T>, n: nat, e: T)
    requires n > 0 && |s| < Start(n, n)
    ensures LinkedInserted(s, n, |s|, e) == s + [e]
  {
    ChunkAt(s, n, |s|);
    LinkedInsertedWithRoom(s, n, |s|, e);
  }

  /**
   * The linked insert does not keep the order: with tiers of 2 holding
   * [0, 1], inserting 9 at rank 1 sends 0 to the next tier and reads back
   * [1, 9, 0], where [0, 9, 1] was meant.
   */
  lemma LinkedInsertReorders()
    ensures LinkedInserted([0, 1], 2, 1, 9) == [1, 9, 0]
    ensures InsertAt([0, 1], 1, 9) == [0, 9, 1]
  {
    var s := [0, 1];
    var c0 := Chunks(s, 2, 2);
    assert Start(2, 1) == 2;
    assert c0[0] == [0, 1] && c0[1] == [];
    var rest: seq<seq<int>> := c0[1..];
    assert rest == [[]];
    var none: seq<seq<int>> := [];
    assert rest[1..] == none;
    assert FrontCarry(none, 2, None) == (none, None);
    assert Pass(rest[0], 2) == None && Kept(rest[0], 2) == [];
    var fc := FrontCarry(rest, 2, Some(0));
    assert fc.0 == [Kept(rest[0], 2) + CarryList(Some(0))] + FrontCarry(rest[1..], 2, Pass(rest[0], 2)).0;
    assert Kept(rest[0], 2) + CarryList(Some(0)) == [0];
    assert fc.0 == [[0]] + none;
    assert fc.0 == [[0]];
    assert Kept(c0[0], 2) == [1] && Pass(c0[0], 2) == Some(0);
    assert InsertAt([1], 1, 9) == [1, 9];
    var tiers := FrontInsert(c0, 2, 0, 1, 9);
    assert tiers == [[1, 9], [0]];
    FlattenOne([0]);
    assert Flatten(tiers) == [1, 9] + Flatten([[0]]);
  }

  /** The elements after the order-keeping insert of the flat vector. */
  function OrderedInserted<T>(s: seq<T>, n: nat, rank: nat, e: T): seq<T>
    requires n > 0 && rank <= |s| < Start(n, n)
  {
    InsertionPoint(s, n, rank);
    Flatten(BackInsert(Chunks(s, n, n), n, rank / n, rank % n, e))
  }

  /** The order-keeping insert puts `e` at rank `rank` and keeps the order of the rest. */
  lemma OrderedInsertedInOrder<T>(s: seq<T>, n: nat, rank: nat, e: T)
    requires n > 0 && rank <= |s| < Start(n, n)
    ensures OrderedInserted(s, n, rank, e) == InsertAt(s, rank, e)
  {
    InsertionPoint(s, n, rank);
    var t: nat, r: nat, c0 := rank / n, rank % n, Chunks(s, n, n);
    assert r <= |Dropped(c0[t], n)|;
    calc {
      OrderedInserted(s, n, rank, e);
      Flatten(BackInsert(c0, n, t, r, e));
      { BackInsertInOrder(c0, n, t, r, e); }
      InsertAt(Flatten(c0), |Flatten(c0[..t])| + r, e);
      InsertAt(s, rank, e);
    }
  }

  /**
   * `insert` of the order-keeping variant runs the pop-push loop from tier t
   * (it passes over tier t when tier t has room), then inserts at offset r of
   * tier t: that is `BackInsert`.
   */
  lemma BackInsertByLoop<T>(c0: seq<seq<T>>, n: nat, t: nat, r: nat, e: T)
    requires t < |c0| && r <= |Dropped(c0[t], n)|
    ensures var c1 := BackCascade(c0, n, t, None);
      |c1| == |c0| && c1[t] == Dropped(c0[t], n) && c1[t := InsertAt(c1[t], r, e)] == BackInsert(c0, n, t, r, e)
  {
    BackCascadeIsCarry(c0, n, t, None);
    var rest := BackAfter(c0[t..], n);
    BackCarryFromFirst(c0[t..], n);
    assert c0[t..][0] == c0[t] && c0[t..][1..] == c0[t + 1..];
    SpliceAt(c0[..t], Dropped(c0[t], n), InsertAt(Dropped(c0[t], n), r, e), rest);
  }

  /** What the order-keeping loop leaves after its first tier. */
  function BackAfter<T>(ts: seq<seq<T>>, n: nat): seq<seq<T>>
    requires ts != []
  {
    if Full(ts[0], n) then BackCarry(ts[1..], n, Some(ts[0][|ts[0]| - 1])).0 else ts[1..]
  }

  /** The order-keeping loop's first turn from an empty carry: the first tier keeps what it does not pass on. */
  lemma BackCarryFromFirst<T>(ts: seq<seq<T>>, n: nat)
    requires ts != []
    ensures BackCarry(ts, n, None).0 == [Dropped(ts[0], n)] + BackAfter(ts, n)
  {
    if Full(ts[0], n) {
      assert CarryList<T>(None) + ts[0][..|ts[0]| - 1] == Dropped(ts[0], n);
    } else {
      assert CarryList<T>(None) + ts[0] == ts[0];
    }
  }

  /** After the order-keeping `insert`, the tiers are again the runs of n elements, now of `InsertAt`. */
  lemma OrderedInsertedChunks<T>(s: seq<T>, n: nat, rank: nat, e: T)
    requires n > 0 && rank <= |s| < Start(n, n)
    ensures rank / n < n && rank % n <= |Dropped(Chunks(s, n, n)[rank / n], n)|
    ensures BackInsert(Chunks(s, n, n), n, rank / n, rank % n, e) == Chunks(InsertAt(s, rank, e), n, n)
  {
    InsertionPoint(s, n, rank);
    var c0 := Chunks(s, n, n);
    BackInsertPacked(c0, n, rank / n, rank % n, e);
    OrderedInsertedInOrder(s, n, rank, e);
    PackedIsChunks(BackInsert(c0, n, rank / n, rank % n, e), n);
  }

  /**
   * `push` and `pop` work on the tier of the last rank alone: appending `e`
   * to s appends it to run |s| / n of s and leaves the other runs as they
   * are.
   */
  lemma AppendChunks<T>(s: seq<T>, n: nat, e: T)
    requires n > 0 && |s| < Start(n, n)
    ensures |s| / n < n && |Chunks(s, n, n)[|s| / n]| == |s| % n < n
    ensures Chunks(s + [e], n, n) == Chunks(s, n, n)[|s| / n := Chunks(s, n, n)[|s| / n] + [e]]
  {
    var t := |s| / n;
    EndPoint(s, n);
    var c0, c1 := Chunks(s, n, n), Chunks(s + [e], n, n);
    StartOfQuotient(n, |s|);
    forall j | 0 <= j < n
      ensures c1[j] == c0[t := c0[t] + [e]][j]
    {
      AppendChunk(s, n, e, j, t);
    }
  }

  /** Appending `e` to s, whose last run is run t, changes run t alone, by appending `e` to it. */
  lemma AppendChunk<T>(s: seq<T>, n: nat, e: T, j: nat, t: nat)
    requires n > 0 && Start(n, t) <= |s| < Start(n, t) + n
    ensures Chunk(s + [e], n, j) == if j == t then Chunk(s, n, j) + [e] else Chunk(s, n, j)
  {
    var u := s + [e];
    StartShift(n, t);
    if j < t {
      StartMonotone(n, j + 1, t);
      StartShift(n, j);
      assert Chunk(u, n, j) == u[Start(n, j)..Start(n, j) + n];
    } else if j == t {
      assert Chunk(u, n, j) == u[Start(n, t)..|u|];
    } else {
      StartMonotone(n, t + 1, j);
    }
  }

  /**
   * One past the last tier the reverse loop of `remove` visits, with the
   * bound kept inside the vector: the tier of rank |s|, or the last tier when
   * the vector is full.
   */
  function CascadeEnd(total: nat, n: nat): (hi: nat)
    requires n > 0
    ensures 1 <= hi <= n
  {
    Min(total / n, n - 1) + 1
  }

  /**
   * One past the first tier the reverse loop of `remove` visits as the crate
   * writes it: the tier of rank `total`, plus one.
   */
  function RemoveEndAsWritten(total: nat, n: nat): nat
    requires n > 0
  {
    total / n + 1
  }

  /** Below n·n elements the bound as written is the intended one; on a full vector it is one past the tier count. */
  lemma RemoveEndAsWrittenBound(total: nat, n: nat)
    requires n > 0
    ensures total < Start(n, n) ==> RemoveEndAsWritten(total, n) == CascadeEnd(total, n)
    ensures total == Start(n, n) ==> RemoveEndAsWritten(total, n) == n + 1
  {
    if total < Start(n, n) {
      RankTier(n, total, n);
    } else if total == Start(n, n) {
      QuotientOfStart(n, n, 0);
    }
  }

  /**
   * On a full vector every removal reaches tier n, which does not exist: for
   * any rank the loop's range from the rank's tier + 1 up to
   * RemoveEndAsWritten is not empty, and the tier it visits first is n.
   */
  lemma FullRemoveOverruns(n: nat, rank: nat)
    requires n > 0 && rank < Start(n, n)
    ensures rank / n + 1 < RemoveEndAsWritten(Start(n, n), n) && RemoveEndAsWritten(Start(n, n), n) - 1 == n
  {
    RankTier(n, rank, n);
    RemoveEndAsWrittenBound(Start(n, n), n);
  }

  /** A rank written as a run start plus an offset below n has that run as quotient and that offset as remainder. */
  lemma QuotientOfStart(n: nat, q: nat, r: nat)
    requires r < n
    ensures (Start(n, q) + r) / n == q && (Start(n, q) + r) % n == r
  {
    var k := Start(n, q) + r;
    StartOfQuotient(n, k);
    var q': nat := k / n;
    if q' < q {
      StartMonotone(n, q' + 1, q);
      StartShift(n, q');
    } else if q' > q {
      StartMonotone(n, q + 1, q');
      StartShift(n, q);
    }
  }

  /** Division by n is monotone: a lower rank is in the same tier or an earlier one. */
  lemma QuotientMonotone(n: nat, a: nat, b: nat)
    requires n > 0 && a <= b
    ensures a / n <= b / n
  {
    StartOfQuotient(n, a);
    StartOfQuotient(n, b);
    var qa: nat, qb: nat := a / n, b / n;
    if qa > qb {
      StartMonotone(n, qb + 1, qa);
      StartShift(n, qb);
    }
  }

  /** The tiers of a vector of tier size n holding s after `remove(rank)`. */
  function LinkedRemovedTiers<T>(s: seq<T>, n: nat, rank: nat): seq<seq<T>>
    requires n > 0 && rank < |s| <= Start(n, n)
  {
    RankTier(n, rank, n);
    ChunkAt(s, n, rank);
    QuotientMonotone(n, rank, |s|);
    RemoveClosed(Chunks(s, n, n), rank / n, rank % n, CascadeEnd(|s|, n))
  }

  /** The reverse loop only meets empty tiers from `CascadeEnd` on. */
  lemma AfterCascadeEnd<T>(s: seq<T>, n: nat)
    requires n > 0 && |s| <= Start(n, n)
    ensures AllEmpty(Chunks(s, n, n)[CascadeEnd(|s|, n)..])
  {
    var hi := CascadeEnd(|s|, n);
    var c0 := Chunks(s, n, n);
    forall j | hi <= j < n
      ensures c0[j] == []
    {
      StartOfQuotient(n, |s|);
      StartShift(n, |s| / n);
      StartMonotone(n, |s| / n + 1, j);
    }
  }

  /** Where `remove(rank)` works: tier rank / n at offset rank mod n, after full tiers, with empty tiers from `CascadeEnd` on. */
  lemma RemovalPoint<T>(s: seq<T>, n: nat, rank: nat)
    requires n > 0 && rank < |s| <= Start(n, n)
    ensures rank / n < CascadeEnd(|s|, n) <= |Chunks(s, n, n)| && rank % n < |Chunks(s, n, n)[rank / n]|
    ensures AllEmpty(Chunks(s, n, n)[CascadeEnd(|s|, n)..]) && AllFull(Chunks(s, n, n)[..rank / n], n)
    ensures Packed(Chunks(s, n, n), n) && Flatten(Chunks(s, n, n)) == s
    ensures |Flatten(Chunks(s, n, n)[..rank / n])| + rank % n == rank
  {
    StartOfQuotient(n, rank);
    RankTier(n, rank, n);
    ChunkAt(s, n, rank);
    QuotientMonotone(n, rank, |s|);
    ChunksPacked(s, n, n);
    AfterCascadeEnd(s, n);
    ChunksBefore(s, n, n, rank / n);
  }

  /** `remove(rank)` drops the element of rank `rank` and keeps the tiers packed. */
  lemma LinkedRemovedInOrder<T>(s: seq<T>, n: nat, rank: nat)
    requires n > 0 && rank < |s| <= Start(n, n)
    ensures Packed(LinkedRemovedTiers(s, n, rank), n)
    ensures Flatten(LinkedRemovedTiers(s, n, rank)) == RemoveAt(s, rank)
  {
    RemovalPoint(s, n, rank);
    var c0 := Chunks(s, n, n);
    var t: nat, r: nat, hi := rank / n, rank % n, CascadeEnd(|s|, n);
    RemoveClosedPacked(c0, n, t, r, hi);
    calc {
      Flatten(LinkedRemovedTiers(s, n, rank));
      Flatten(RemoveClosed(c0, t, r, hi));
      { RemoveClosedInOrder(c0, t, r, hi); }
      RemoveAt(Flatten(c0), |Flatten(c0[..t])| + r);
      RemoveAt(s, rank);
    }
  }

  // ---------------------------------------------------------------------------
  // The vector's queries on packed tiers.

  /** The tiers before tier i hold tier i's predecessors' elements followed by tier i's. */
  lemma FlattenPrefix<T>(c: seq<seq<T>>, i: nat)
    requires i < |c|
    ensures Flatten(c[..i + 1]) == Flatten(c[..i]) + c[i]
  {
    assert c[..i + 1] == c[..i] + [c[i]];
    FlattenConcat(c[..i], [c[i]]);
    FlattenOne(c[i]);
  }

  /** `len` stops at the first empty tier: packed tiers hold nothing after it. */
  lemma LengthUpToEmpty<T>(c: seq<seq<T>>, n: nat, i: nat)
    requires n > 0 && Packed(c, n) && i < |c| && c[i] == []
    ensures Flatten(c[..i]) == Flatten(c)
  {
    PackedAround(c, n, i);
    FlattenAt(c, i);
    FlattenEmpty(c[i + 1..]);
  }

  /** `is_empty` looks at the first tier only: packed tiers are empty exactly when it is. */
  lemma FirstTierEmpty<T>(c: seq<seq<T>>, n: nat)
    requires n > 0 && Packed(c, n) && c != []
    ensures c[0] == [] <==> Flatten(c) == []
  {
    if c[0] == [] {
      LengthUpToEmpty(c, n, 0);
    }
  }

  /** `is_full` looks at the last tier only: packed tiers are full exactly when it is. */
  lemma LastTierFull<T>(c: seq<seq<T>>, n: nat)
    requires n > 0 && Packed(c, n) && c != []
    ensures |c[|c| - 1]| == n <==> |Flatten(c)| == Start(n, |c|)
  {
    var k := |c| - 1;
    FlattenSplit(c, k);
    assert c[k..] == [c[k]];
    FlattenOne(c[k]);
    assert Packed(c[..k], n);
    PackedIsChunks(c[..k], n);
    if |c[k]| == n {
      FlattenFull(c[..k], n);
    }
    StartShift(n, k);
  }

  /** `get_by_rank` on packed tiers: the rank's tier and offset hold the element of that rank, when there is one. */
  lemma PackedLookup<T>(c: seq<seq<T>>, n: nat, rank: nat)
    requires n > 0 && Packed(c, n) && |c| == n
    ensures rank / n < n ==> (rank < |Flatten(c)| <==> rank % n < |c[rank / n]|)
    ensures rank / n < n && rank < |Flatten(c)| ==> c[rank / n][rank % n] == Flatten(c)[rank]
    ensures rank / n >= n ==> rank >= |Flatten(c)|
  {
    PackedIsChunks(c, n);
    RankLookup(Flatten(c), n, rank);
  }

  /** At rank |s| on a vector with room, the rank's tier holds |s| mod n elements. */
  lemma EndPoint<T>(s: seq<T>, n: nat)
    requires n > 0 && |s| < Start(n, n)
    ensures |s| / n < n && |Chunks(s, n, n)[|s| / n]| == |s| % n
  {
    RankTier(n, |s|, n);
    ChunkAt(s, n, |s|);
  }

  // ---------------------------------------------------------------------------
  // The loops of `insert` and `remove` give the closed forms above.

  /**
   * `insert` runs the pop-push loop from tier t when tier t is full, then
   * inserts at offset r of tier t: that is `FrontInsert`.
   */
  lemma FrontInsertByLoop<T>(c0: seq<seq<T>>, n: nat, t: nat, r: nat, e: T)
    requires t < |c0| && r <= |Kept(c0[t], n)|
    ensures var c1 := if Full(c0[t], n) then FrontCascade(c0, n, t, None) else c0;
      |c1| == |c0| && c1[t] == Kept(c0[t], n) && c1[t := InsertAt(c1[t], r, e)] == FrontInsert(c0, n, t, r, e)
  {
    if Full(c0[t], n) {
      FrontCascadeIsCarry(c0, n, t, None);
      var fc := FrontCarry(c0[t + 1..], n, Pass(c0[t], n)).0;
      FrontCarryFromFirst(c0[t..], n);
      assert c0[t..][0] == c0[t] && c0[t..][1..] == c0[t + 1..];
      SpliceAt(c0[..t], Kept(c0[t], n), InsertAt(Kept(c0[t], n), r, e), fc);
    } else {
      assert c0 == c0[..t] + [c0[t]] + c0[t + 1..];
      SpliceAt(c0[..t], c0[t], InsertAt(c0[t], r, e), c0[t + 1..]);
    }
  }

  /** The loop's first turn from an empty carry: the first tier keeps what it does not pass on. */
  lemma FrontCarryFromFirst<T>(ts: seq<seq<T>>, n: nat)
    requires ts != []
    ensures FrontCarry(ts, n, None).0 == [Kept(ts[0], n)] + FrontCarry(ts[1..], n, Pass(ts[0], n)).0
  {
    assert Kept(ts[0], n) + CarryList(None) == Kept(ts[0], n);
  }

  /** Where `insert(rank, e)` works on a vector with room, and the tiers its loop and tier insert leave. */
  lemma LinkedInsertedTiers<T>(s: seq<T>, n: nat, rank: nat, e: T)
    requires n > 0 && rank <= |s| < Start(n, n)
    ensures rank / n < n && rank % n <= |Kept(Chunks(s, n, n)[rank / n], n)|
    ensures Packed(FrontInsert(Chunks(s, n, n), n, rank / n, rank % n, e), n)
    ensures Flatten(FrontInsert(Chunks(s, n, n), n, rank / n, rank % n, e)) == LinkedInserted(s, n, rank, e)
  {
    InsertionPoint(s, n, rank);
    FrontInsertPacked(Chunks(s, n, n), n, rank / n, rank % n, e);
  }

  /** After `insert`, the tiers are again the runs of n elements, now of `LinkedInserted`. */
  lemma InsertedChunks<T>(s: seq<T>, n: nat, rank: nat, e: T)
    requires n > 0 && rank <= |s| < Start(n, n)
    ensures rank / n < n && rank % n <= |Kept(Chunks(s, n, n)[rank / n], n)|
    ensures FrontInsert(Chunks(s, n, n), n, rank / n, rank % n, e) == Chunks(LinkedInserted(s, n, rank, e), n, n)
    ensures Packed(Chunks(LinkedInserted(s, n, rank, e), n, n), n)
    ensures Flatten(Chunks(LinkedInserted(s, n, rank, e), n, n)) == LinkedInserted(s, n, rank, e)
  {
    DivModNat(rank, n);
    var t: nat, r: nat := rank / n, rank % n;
    LinkedInsertedTiers(s, n, rank, e);
    var f := FrontInsert(Chunks(s, n, n), n, t, r, e);
    var l := LinkedInserted(s, n, rank, e);
    assert l == Flatten(f);
    PackedIsChunks(f, n);
    assert f == Chunks(l, n, n);
  }

  /** Replacing the tier after a run of tiers a. */
  lemma SpliceAt<T>(a: seq<seq<T>>, v: seq<T>, w: seq<T>, b: seq<seq<T>>)
    ensures (a + [v] + b)[|a|] == v
    ensures (a + [v] + b)[|a| := w] == a + [w] + b
    ensures a + ([v] + b) == a + [v] + b
  {
  }

  /** `remove`'s loop, then the carried element pushed back at tier t, gives the tiers `LinkedRemovedTiers` names. */
  lemma RemoveByLoop<T>(s: seq<T>, n: nat, rank: nat)
    requires n > 0 && rank < |s| <= Start(n, n)
    ensures rank / n < CascadeEnd(|s|, n) <= n && rank % n < |Chunks(s, n, n)[rank / n]|
    ensures RemoveRefilled(Chunks(s, n, n), rank / n, rank % n, CascadeEnd(|s|, n)) == LinkedRemovedTiers(s, n, rank)
  {
    RemovalPoint(s, n, rank);
    RemoveRefilledIsClosed(Chunks(s, n, n), rank / n, rank % n, CascadeEnd(|s|, n));
  }

  /** After `remove` of an element, the tiers are again the runs of n elements, now of `RemoveAt`. */
  lemma RemovedChunks<T>(s: seq<T>, n: nat, rank: nat)
    requires n > 0 && rank < |s| <= Start(n, n)
    ensures rank / n < CascadeEnd(|s|, n) <= n && rank % n < |Chunks(s, n, n)[rank / n]|
    ensures Chunks(s, n, n)[rank / n][rank % n] == s[rank]
    ensures RemoveRefilled(Chunks(s, n, n), rank / n, rank % n, CascadeEnd(|s|, n)) == Chunks(RemoveAt(s, rank), n, n)
  {
    RemoveByLoop(s, n, rank);
    RankLookup(s, n, rank);
    LinkedRemovedInOrder(s, n, rank);
    PackedIsChunks(LinkedRemovedTiers(s, n, rank), n);
  }

  /** The reverse loop over tiers hi - 1 down to lo leaves the tiers before lo alone. */
  lemma RefillBefore<T>(ts: seq<seq<T>>, lo: nat, hi: nat, carry: Option<T>, k: nat)
    requires k < lo <= hi <= |ts|
    ensures Refill(ts, lo, hi, carry).0[k] == ts[k]
  {
    RefillIsRun(ts, lo, hi, carry);
  }

  // ---------------------------------------------------------------------------
  // Growing and shrinking the tier size.

  /**
   * `expand` on tiers of size n holding s: new tier j is old tiers 2j and
   * 2j + 1 merged, for j < n / 2, and the 2n - n / 2 tiers pushed after them
   * are empty. Those are the runs of 2n elements of s, so the elements keep
   * their order.
   */
  lemma ExpandedChunks<T>(s: seq<T>, n: nat, cs: seq<seq<T>>)
    requires n > 0 && n % 2 == 0 && |s| <= Start(n, n) && |cs| == 2 * n
    requires forall j :: 0 <= j < n / 2 ==> cs[j] == Chunk(s, n, 2 * j) + Chunk(s, n, 2 * j + 1)
    requires forall j :: n / 2 <= j < 2 * n ==> cs[j] == []
    ensures cs == Chunks(s, 2 * n, 2 * n)
  {
    StartDouble(n, n / 2);
    assert 2 * (n / 2) == n;
    forall j | 0 <= j < 2 * n
      ensures cs[j] == Chunk(s, 2 * n, j)
    {
      if j < n / 2 {
        ChunkPair(s, n, j);
      } else {
        StartMonotone(2 * n, n / 2, j);
      }
    }
  }

  /** k empty tiers' worth of contents. */
  function Empties<T>(k: nat): (es: seq<seq<T>>)
    ensures |es| == k && AllEmpty(es)
  {
    seq(k, _ => [])
  }

  /** Empty tiers are packed and hold nothing. */
  lemma EmptyTiers<T>(c: seq<seq<T>>, n: nat)
    requires forall j :: 0 <= j < |c| ==> c[j] == []
    ensures Packed(c, n) && Flatten(c) == []
  {
    FlattenEmpty(c);
  }

  /** After `expand`: the merged pairs of the old tiers, then empty tiers, hold the same elements packed in tiers of 2n. */
  lemma ExpandedContents<T>(c0: seq<seq<T>>, n: nat, cs: seq<seq<T>>)
    requires n > 0 && n % 2 == 0 && |c0| == n && Packed(c0, n)
    requires |cs| == 2 * n && cs[..n / 2] == Pairs(c0) && forall j :: n / 2 <= j < 2 * n ==> cs[j] == []
    ensures cs == Chunks(Flatten(c0), 2 * n, 2 * n) && Packed(cs, 2 * n) && Flatten(cs) == Flatten(c0)
  {
    PackedIsChunks(c0, n);
    var s := Flatten(c0);
    forall j | 0 <= j < n / 2
      ensures cs[j] == Chunk(s, n, 2 * j) + Chunk(s, n, 2 * j + 1)
    {
      assert cs[j] == Pairs(c0)[j];
    }
    ExpandedChunks(s, n, cs);
    DoubledRoom(n);
    ChunksPacked(s, 2 * n, 2 * n);
  }

  /** After `expand` of the runs of n elements of s: the merged pairs, then empty tiers, are the runs of 2n elements of s. */
  lemma ExpandedRuns<T>(s: seq<T>, n: nat, cs: seq<seq<T>>)
    requires n > 0 && n % 2 == 0 && |s| <= Start(n, n)
    requires |cs| == 2 * n && cs[..n / 2] == Pairs(Chunks(s, n, n)) && forall j :: n / 2 <= j < 2 * n ==> cs[j] == []
    ensures cs == Chunks(s, 2 * n, 2 * n)
  {
    forall j | 0 <= j < n / 2
      ensures cs[j] == Chunk(s, n, 2 * j) + Chunk(s, n, 2 * j + 1)
    {
      assert cs[j] == Pairs(Chunks(s, n, n))[j];
    }
    ExpandedChunks(s, n, cs);
  }

  /** No elements make empty runs. */
  lemma NoChunks<T>(n: nat, count: nat)
    ensures Chunks<T>([], n, count) == Empties(count)
  {
    forall j | 0 <= j < count
      ensures Chunks<T>([], n, count)[j] == []
    {
    }
  }

  /** `pop` works on the tier of the last rank alone: the last element comes off run (|s| - 1) / n. */
  lemma PopChunks<T>(s: seq<T>, n: nat)
    requires n > 0 && 0 < |s| <= Start(n, n)
    ensures var t, c0 := (|s| - 1) / n, Chunks(s, n, n);
      t < n && c0[t] != [] && c0[t][|c0[t]| - 1] == s[|s| - 1]
      && c0[t := c0[t][..|c0[t]| - 1]] == Chunks(s[..|s| - 1], n, n)
  {
    var p := s[..|s| - 1];
    assert p + [s[|s| - 1]] == s;
    AppendChunks(p, n, s[|s| - 1]);
    var t, c0, c1 := |p| / n, Chunks(s, n, n), Chunks(p, n, n);
    assert c0[t] == c1[t] + [s[|s| - 1]];
    assert c0[t][..|c0[t]| - 1] == c1[t];
    assert c0[t := c1[t]] == c1;
  }

  /** Room for a doubled tier size: n * n elements fit in 2n tiers of 2n with room to spare. */
  lemma DoubledRoom(n: nat)
    requires n >= 1
    ensures Start(n, n) < Start(2 * n, 2 * n)
  {
    StartIsProduct(n, n);
    StartIsProduct(2 * n, 2 * n);
    assert (2 * n) * (2 * n) == 4 * (n * n);
  }

  /**
   * `split_half` on the j-th run of 2h elements of s: the first min(len, h)
   * elements it keeps are the run 2j of h elements, the rest the run 2j + 1.
   */
  lemma ChunkHalves<T>(s: seq<T>, h: nat, j: nat)
    ensures Chunk(s, 2 * h, j)[..Min(|Chunk(s, 2 * h, j)|, h)] == Chunk(s, h, 2 * j)
    ensures Chunk(s, 2 * h, j)[Min(|Chunk(s, 2 * h, j)|, h)..] == Chunk(s, h, 2 * j + 1)
  {
    ChunkPair(s, h, j);
    StartDouble(h, j);
    var a, b := Chunk(s, h, 2 * j), Chunk(s, h, 2 * j + 1);
    assert |a| == Min(|Chunk(s, 2 * h, j)|, h);
    assert (a + b)[..|a|] == a && (a + b)[|a|..] == b;
  }

  /**
   * `try_contract` fires when fewer than (n * n) / 8 elements are held: then
   * n is at least 4, and the elements fit in the runs of the first n / 4
   * tiers and in n / 2 tiers of n / 2.
   */
  lemma ContractFits(n: nat, total: nat)
    requires IsPowerOfTwo(n) && total < (n * n) / 8
    ensures n >= 4 && total <= Start(n, n / 4) && total < Start(n / 2, n / 2)
  {
    SmallSquare(n);
    assert n >= 4;
    var h := n / 2;
    PowerOfTwoHalf(n);
    PowerOfTwoHalf(h);
    var q := h / 2;
    assert n == 4 * q;
    assert n * n == n * (4 * q);
    assert n * (4 * q) == 4 * (n * q);
    var m := n * q;
    assert (n * n) / 8 == m / 2;
    StartIsProduct(n, q);
    assert n / 4 == q && Start(n, q) == m;
    StartDouble(2 * q, q);
    assert 2 * (2 * q) == n;
  }

  /** Tier counts of at most 2 never hold (n * n) / 8 or more. */
  lemma SmallSquare(n: nat)
    ensures n <= 2 ==> (n * n) / 8 == 0
  {
    if n <= 2 {
      assert n * n <= 2 * n;
    }
  }

  /** Tiers that hold the runs of h elements of s, when h tiers of h hold all of s: packed and in order. */
  lemma ContractedChunks<T>(s: seq<T>, h: nat, cs: seq<seq<T>>)
    requires |s| <= Start(h, h) && |cs| == h
    requires forall j :: 0 <= j < h ==> cs[j] == Chunk(s, h, j)
    ensures Packed(cs, h) && Flatten(cs) == s
  {
    forall j | 0 <= j < h
      ensures cs[j] == Chunks(s, h, h)[j]
    {
    }
    assert cs == Chunks(s, h, h);
    ChunksPacked(s, h, h);
  }
}
