// The tiers of a `LinkedTieredVec` (src/linked/tiered_vec.rs) as a sequence
// of separately allocated ring buffers. `Holds(ts, cs)` ties each tier to its
// elements cs[j]; each loop of the vector's operations is a method here,
// proved against the closed forms of module Layout.
module LinkedTiers {
  import opened Wrappers
  import opened Errors
  import opened Seqs
  import opened Ring
  import opened Tier
  import opened Tiers
  import opened Layout
  import opened Sizing

  /** No tier appears twice. */
  ghost predicate Distinct<T>(ts: seq<RawTier<T>>)
  {
    forall a, b :: 0 <= a < b < |ts| ==> ts[a] != ts[b]
  }

  /** Each tier is a valid ring buffer holding the matching entry of cs. */
  ghost predicate Holds<T>(ts: seq<RawTier<T>>, cs: seq<seq<T>>)
    reads ts
  {
    |ts| == |cs| && forall j :: 0 <= j < |ts| ==> ts[j].Valid() && ts[j].Elements() == cs[j]
  }

  /** The first k tiers have lo slots, the others hi. */
  ghost predicate SizedFrom<T>(ts: seq<RawTier<T>>, k: nat, lo: nat, hi: nat)
    reads ts
  {
    forall j :: 0 <= j < |ts| ==> |ts[j].buffer| == if j < k then lo else hi
  }

  /** Every tier has n slots. */
  ghost predicate Sized<T>(ts: seq<RawTier<T>>, n: nat)
    reads ts
  {
    forall j :: 0 <= j < |ts| ==> |ts[j].buffer| == n
  }

  /** The invariant of a linked vector: n tiers of n slots, n a power of two of at least 2, holding packed contents. */
  ghost predicate Wellformed<T>(ts: seq<RawTier<T>>, cs: seq<seq<T>>)
    reads ts
  {
    |ts| >= 2 && IsPowerOfTwo(|ts|) && Distinct(ts) && Holds(ts, cs) && Sized(ts, |ts|) && Packed(cs, |ts|)
  }

  // ---------------------------------------------------------------------------
  // Sequences of tiers: what survives a change to some of them.

  lemma HoldsAppend<T>(a: seq<RawTier<T>>, ca: seq<seq<T>>, b: seq<RawTier<T>>, cb: seq<seq<T>>)
    requires Holds(a, ca) && Holds(b, cb)
    ensures Holds(a + b, ca + cb)
  {
    forall j | 0 <= j < |a + b|
      ensures (a + b)[j].Valid() && (a + b)[j].Elements() == (ca + cb)[j]
    {
      if j >= |a| {
        assert (a + b)[j] == b[j - |a|];
      }
    }
  }

  lemma DistinctAppend<T>(a: seq<RawTier<T>>, b: seq<RawTier<T>>)
    requires Distinct(a) && Distinct(b) && forall j, k :: 0 <= j < |a| && 0 <= k < |b| ==> a[j] != b[k]
    ensures Distinct(a + b)
  {
  }

  lemma DistinctRemove<T>(ts: seq<RawTier<T>>, k: nat)
    requires Distinct(ts) && k < |ts|
    ensures Distinct(ts[..k] + ts[k + 1..])
    ensures forall x :: x in ts[..k] + ts[k + 1..] ==> x in ts
  {
  }

  lemma DistinctInsert<T>(ts: seq<RawTier<T>>, k: nat, x: RawTier<T>)
    requires Distinct(ts) && k <= |ts| && x !in ts
    ensures Distinct(ts[..k] + [x] + ts[k..])
  {
  }

  /** Tier i + 1 merged into tier i and dropped from the sequence, as `expand` does at its i-th turn. */
  lemma PairMerged<T>(ts: seq<RawTier<T>>, cs: seq<seq<T>>, i: nat, n: nat)
    requires i + 1 < |ts| == |cs| && ts[i].Valid() && |ts[i].buffer| == 2 * n
    requires forall j :: 0 <= j < |ts| && j != i && j != i + 1 ==>
      (ts[j].Valid() && ts[j].Elements() == cs[j] && |ts[j].buffer| == if j < i then 2 * n else n)
    ensures Holds(ts[..i + 1] + ts[i + 2..], cs[..i] + [ts[i].Elements()] + cs[i + 2..])
    ensures SizedFrom(ts[..i + 1] + ts[i + 2..], i + 1, 2 * n, n)
  {
    var u := ts[..i + 1] + ts[i + 2..];
    var want := cs[..i] + [ts[i].Elements()] + cs[i + 2..];
    forall j | 0 <= j < |u|
      ensures u[j].Valid() && u[j].Elements() == want[j] && |u[j].buffer| == if j < i + 1 then 2 * n else n
    {
      if j < i {
        assert u[j] == ts[j];
      } else if j > i {
        assert u[j] == ts[j + 1];
      }
    }
  }

  /** The upper half of tier i inserted after it, as `try_contract` does at its turn on tier i. */
  lemma HalfInserted<T>(ts: seq<RawTier<T>>, cs: seq<seq<T>>, i: nat, h: nat, half: RawTier<T>)
    requires i < |ts| == |cs| && ts[i].Valid() && |ts[i].buffer| == h && half.Valid() && |half.buffer| == h
    requires forall j :: 0 <= j < |ts| && j != i ==>
      (ts[j].Valid() && ts[j].Elements() == cs[j] && |ts[j].buffer| == if j < i then h else 2 * h)
    ensures Holds(ts[..i + 1] + [half] + ts[i + 1..], cs[..i] + [ts[i].Elements(), half.Elements()] + cs[i + 1..])
    ensures SizedFrom(ts[..i + 1] + [half] + ts[i + 1..], i + 2, h, 2 * h)
  {
    var u := ts[..i + 1] + [half] + ts[i + 1..];
    var want := cs[..i] + [ts[i].Elements(), half.Elements()] + cs[i + 1..];
    forall j | 0 <= j < |u|
      ensures u[j].Valid() && u[j].Elements() == want[j] && |u[j].buffer| == if j < i + 2 then h else 2 * h
    {
      if j < i {
        assert u[j] == ts[j];
      } else if j > i + 1 {
        assert u[j] == ts[j - 1];
      }
    }
  }

  /** A tier appended to distinct valid tiers of n slots. */
  lemma Snoc<T>(ts: seq<RawTier<T>>, t: RawTier<T>, n: nat)
    requires Distinct(ts) && t !in ts && Holds(ts, Empties(|ts|)) && Sized(ts, n)
    requires t.Valid() && |t.buffer| == n && t.Elements() == []
    ensures Distinct(ts + [t]) && Holds(ts + [t], Empties(|ts| + 1)) && Sized(ts + [t], n)
  {
  }

  /** `count` new empty tiers of the given capacity, as `new` and `expand` push them. */
  method NewTiers<T>(capacity: nat, count: nat) returns (ts: seq<RawTier<T>>)
    requires IsPowerOfTwo(capacity)
    ensures |ts| == count && Distinct(ts) && Holds(ts, Empties(count)) && Sized(ts, capacity)
    ensures forall j :: 0 <= j < count ==> fresh(ts[j])
  {
    ts := [];
    while |ts| < count
      invariant |ts| <= count && Distinct(ts) && Holds(ts, Empties(|ts|)) && Sized(ts, capacity)
      invariant forall j :: 0 <= j < |ts| ==> fresh(ts[j])
    {
      var t := new RawTier(capacity);
      Snoc(ts, t, capacity);
      ts := ts + [t];
    }
  }

  /** The tiers of a new vector: n empty tiers of n slots, fresh, holding nothing. */
  method EmptyVectorTiers<T>(n: nat) returns (ts: seq<RawTier<T>>, ghost cs: seq<seq<T>>)
    requires IsPowerOfTwo(n) && n >= 2
    ensures |ts| == n && Wellformed(ts, cs) && Flatten(cs) == []
    ensures forall j :: 0 <= j < |ts| ==> fresh(ts[j])
  {
    ts := NewTiers(n, n);
    cs := Empties(n);
    EmptyTiers(cs, n);
  }

  // ---------------------------------------------------------------------------
  // The contents the loops of `expand` and `try_contract` build.

  /** A turn of `expand`'s merge loop: the pair at i becomes merged tier i. */
  lemma MergeStep<T>(c0: seq<seq<T>>, c: seq<seq<T>>, i: nat)
    requires 2 * i + 2 <= |c0| && c == Pairs(c0)[..i] + c0[2 * i..]
    ensures i + 1 < |c|
    ensures c[..i] + [c[i] + c[i + 1]] + c[i + 2..] == Pairs(c0)[..i + 1] + c0[2 * (i + 1)..]
  {
    assert c[i] == c0[2 * i] && c[i + 1] == c0[2 * i + 1];
    assert c[..i] == Pairs(c0)[..i] && c[i + 2..] == c0[2 * (i + 1)..];
    assert Pairs(c0)[..i + 1] == Pairs(c0)[..i] + [c0[2 * i] + c0[2 * i + 1]];
  }

  /** A turn of `try_contract`'s split loop: old tier i / 2 becomes new tiers i and i + 1. */
  lemma SplitStep<T>(s: seq<T>, h: nat, c0: seq<seq<T>>, c: seq<seq<T>>, i: nat, m: nat, lower: seq<T>, upper: seq<T>)
    requires i == 2 * m && m < |c0| && c0[m] == Chunk(s, 2 * h, m)
    requires c == Chunks(s, h, i) + c0[m..]
    requires lower + upper == c[i] && |lower| == Min(|c[i]|, h)
    ensures c[..i] + [lower, upper] + c[i + 1..] == Chunks(s, h, i + 2) + c0[m + 1..]
  {
    assert c[i] == c0[m];
    ChunkHalves(s, h, m);
    assert lower == c[i][..|lower|] && upper == c[i][|lower|..];
    assert c[..i] == Chunks(s, h, i) && c[i + 1..] == c0[m + 1..];
    assert Chunks(s, h, i + 2) == Chunks(s, h, i) + [Chunk(s, h, i), Chunk(s, h, i + 1)];
  }

  // ---------------------------------------------------------------------------
  // One turn of the loops of `insert` and `remove`, on the tier it touches.

  /**
   * One turn of the pop-push loop of `insert`, on one tier: a full tier gives
   * up its front element and takes the carried one at its back; any other
   * tier takes the carried one and the carry ends.
   */
  method PassFront<T>(tier: RawTier<T>, n: nat, carry: Option<T>) returns (next: Option<T>)
    requires n > 0 && tier.Valid() && |tier.buffer| == n
    modifies tier
    ensures tier.Valid() && |tier.buffer| == n
    ensures tier.Elements() == Kept(old(tier.Elements()), n) + CarryList(carry)
    ensures next == Pass(old(tier.Elements()), n)
  {
    next := carry;
    if tier.IsFull() {
      var popped := tier.PopFront();
      if popped.Ok? {
        if next.Some? {
          var pushed := tier.PushBack(next.value);
          assert pushed.Ok?;
        }
        next := Some(popped.value);
      }
    } else {
      if next.Some? {
        var taken := tier.PushBack(next.value);
        assert taken.Ok?;
      }
      next := None;
    }
  }

  /**
   * One turn of the reverse loop of `remove`, on one tier: a non-empty tier
   * gives up its front element and takes the carried one at its back; an
   * empty tier is left alone and the carry passes over it.
   */
  method PassBack<T>(tier: RawTier<T>, n: nat, carry: Option<T>) returns (next: Option<T>)
    requires n > 0 && tier.Valid() && |tier.buffer| == n
    modifies tier
    ensures tier.Valid() && |tier.buffer| == n
    ensures tier.Elements() == Refilled(old(tier.Elements()), carry)
    ensures next == Handed(old(tier.Elements()), carry)
  {
    next := carry;
    var popped := tier.PopFront();
    if popped.Ok? {
      if next.Some? {
        var pushed := tier.PushBack(next.value);
        assert pushed.Ok?;
      }
      next := Some(popped.value);
    }
  }

  /** `PassFront` at tier i of the vector's tiers: the contents take `FrontStep`. */
  method FrontStepAt<T>(ts: seq<RawTier<T>>, ghost cs: seq<seq<T>>, n: nat, i: nat, carry: Option<T>) returns (next: Option<T>)
    requires n > 0 && i < |ts| && Distinct(ts) && Holds(ts, cs) && Sized(ts, n)
    modifies ts[i]
    ensures Holds(ts, FrontStep(cs, n, i, carry).0) && Sized(ts, n)
    ensures next == FrontStep(cs, n, i, carry).1
  {
    next := PassFront(ts[i], n, carry);
    forall j | 0 <= j < |ts| && j != i
      ensures ts[j].Valid() && ts[j].Elements() == cs[j] && |ts[j].buffer| == n
    {
    }
  }

  /** `PassBack` at tier i of the vector's tiers: the contents take `RefillStep`. */
  method RefillStepAt<T>(ts: seq<RawTier<T>>, ghost cs: seq<seq<T>>, n: nat, i: nat, carry: Option<T>) returns (next: Option<T>)
    requires n > 0 && i < |ts| && Distinct(ts) && Holds(ts, cs) && Sized(ts, n)
    modifies ts[i]
    ensures Holds(ts, RefillStep(cs, i, carry).0) && Sized(ts, n)
    ensures next == RefillStep(cs, i, carry).1
  {
    next := PassBack(ts[i], n, carry);
    forall j | 0 <= j < |ts| && j != i
      ensures ts[j].Valid() && ts[j].Elements() == cs[j] && |ts[j].buffer| == n
    {
    }
  }

  /** `expand`'s i-th turn: tier i + 1 is removed from the sequence and merged into tier i. */
  method MergeAt<T>(ts: seq<RawTier<T>>, ghost cs: seq<seq<T>>, i: nat, n: nat) returns (u: seq<RawTier<T>>)
    requires i + 1 < |ts| && IsPowerOfTwo(n) && Distinct(ts) && Holds(ts, cs) && SizedFrom(ts, i, 2 * n, n)
    modifies ts[i], ts[i + 1]
    ensures u == ts[..i + 1] + ts[i + 2..] && Distinct(u) && forall x :: x in u ==> x in ts
    ensures Holds(u, cs[..i] + [cs[i] + cs[i + 1]] + cs[i + 2..]) && SizedFrom(u, i + 1, 2 * n, n)
  {
    var second := ts[i + 1];
    PowerOfTwoDouble(n);
    ts[i].Merge(second);
    forall j | 0 <= j < |ts| && j != i && j != i + 1
      ensures ts[j].Valid() && ts[j].Elements() == cs[j] && |ts[j].buffer| == if j < i then 2 * n else n
    {
    }
    PairMerged(ts, cs, i, n);
    DistinctRemove(ts, i + 1);
    u := ts[..i + 1] + ts[i + 2..];
  }

  /** `try_contract`'s turn on tier i: the tier is split and its upper half inserted after it. */
  method SplitAt<T>(ts: seq<RawTier<T>>, ghost cs: seq<seq<T>>, i: nat, h: nat) returns (u: seq<RawTier<T>>)
    requires i < |ts| && h >= 1 && Distinct(ts) && Holds(ts, cs) && SizedFrom(ts, i, h, 2 * h)
    modifies ts[i]
    ensures |u| == |ts| + 1 && u == ts[..i + 1] + [u[i + 1]] + ts[i + 1..] && fresh(u[i + 1]) && Distinct(u)
    ensures u[i].Valid() && u[i + 1].Valid()
    ensures u[i].Elements() + u[i + 1].Elements() == cs[i] && |u[i].Elements()| == Min(|cs[i]|, h)
    ensures Holds(u, cs[..i] + [u[i].Elements(), u[i + 1].Elements()] + cs[i + 1..])
    ensures SizedFrom(u, i + 2, h, 2 * h)
  {
    var half := ts[i].SplitHalf();
    u := ts[..i + 1] + [half] + ts[i + 1..];
    forall j | 0 <= j < |ts| && j != i
      ensures ts[j].Valid() && ts[j].Elements() == cs[j] && |ts[j].buffer| == if j < i then h else 2 * h
    {
    }
    HalfInserted(ts, cs, i, h, half);
    DistinctInsert(ts, i + 1, half);
  }

  /** Truncating distinct valid tiers of n slots keeps them so. */
  lemma Truncated<T>(ts: seq<RawTier<T>>, cs: seq<seq<T>>, k: nat, n: nat)
    requires Distinct(ts) && Holds(ts, cs) && Sized(ts, n) && k <= |ts|
    ensures Distinct(ts[..k]) && Holds(ts[..k], cs[..k]) && Sized(ts[..k], n)
  {
  }

  /** `tiers[t].insert(rank, e)` on a tier with room, at an offset it reaches: the element goes in at offset rank mod n. */
  method InsertAtTier<T>(ts: seq<RawTier<T>>, ghost cs: seq<seq<T>>, n: nat, t: nat, rank: nat, e: T)
    requires n > 0 && t < |ts| && Distinct(ts) && Holds(ts, cs) && Sized(ts, n)
    requires |cs[t]| < n && rank % n <= |cs[t]|
    modifies ts[t]
    ensures Holds(ts, cs[t := InsertAt(cs[t], rank % n, e)]) && Sized(ts, n)
  {
    var res := ts[t].InsertCorrected(rank, e);
    forall j | 0 <= j < |ts| && j != t
      ensures ts[j].Valid() && ts[j].Elements() == cs[j] && |ts[j].buffer| == n
    {
    }
  }

  /**
   * `tiers[t].remove(rank)`: an empty tier reports that it is empty, a rank
   * past its end is out of bounds, otherwise the element at offset rank mod n
   * comes out.
   */
  method RemoveAtTier<T>(ts: seq<RawTier<T>>, ghost cs: seq<seq<T>>, n: nat, t: nat, rank: nat) returns (res: Result<T, TierError<T>>)
    requires n > 0 && t < |ts| && Distinct(ts) && Holds(ts, cs) && Sized(ts, n)
    modifies ts[t]
    ensures cs[t] == [] ==> res == Err(TierEmptyError)
    ensures 0 < |cs[t]| <= rank % n ==> res == Err(TierRankOutOfBoundsError(rank))
    ensures rank % n < |cs[t]| ==> res == Ok(cs[t][rank % n])
    ensures Holds(ts, if res.Ok? then cs[t := RemoveAt(cs[t], rank % n)] else cs) && Sized(ts, n)
  {
    res := ts[t].RemoveCorrected(rank);
    forall j | 0 <= j < |ts| && j != t
      ensures ts[j].Valid() && ts[j].Elements() == cs[j] && |ts[j].buffer| == n
    {
    }
  }

  /** `tiers[t].push_back(x)` on a tier with room. */
  method PushBackAtTier<T>(ts: seq<RawTier<T>>, ghost cs: seq<seq<T>>, n: nat, t: nat, x: T)
    requires n > 0 && t < |ts| && Distinct(ts) && Holds(ts, cs) && Sized(ts, n) && |cs[t]| < n
    modifies ts[t]
    ensures Holds(ts, cs[t := cs[t] + [x]]) && Sized(ts, n)
  {
    var pushed := ts[t].PushBack(x);
    forall j | 0 <= j < |ts| && j != t
      ensures ts[j].Valid() && ts[j].Elements() == cs[j] && |ts[j].buffer| == n
    {
    }
  }

  /** The loop of `len`: tier lengths are added up to the first empty tier. */
  method SumLengths<T>(ts: seq<RawTier<T>>, ghost cs: seq<seq<T>>, n: nat) returns (l: nat)
    requires n > 0 && Holds(ts, cs) && Packed(cs, n)
    ensures l == |Flatten(cs)|
  {
    l := 0;
    var i := 0;
    while i < |ts|
      invariant 0 <= i <= |ts| && l == |Flatten(cs[..i])|
    {
      var currLen := ts[i].Len();
      if currLen == 0 {
        LengthUpToEmpty(cs, n, i);
        return;
      }
      FlattenPrefix(cs, i);
      l := l + currLen;
      i := i + 1;
    }
    assert cs[..i] == cs;
  }

  /** What a tier inserted after position i leaves in the sequence: the old tiers and the new one. */
  lemma InsertedMembers<T>(ts: seq<RawTier<T>>, i: nat, y: RawTier<T>)
    requires i < |ts|
    ensures forall x :: x in ts[..i + 1] + [y] + ts[i + 1..] ==> x in ts || x == y
  {
  }

  lemma NothingCarried<T>(cs: seq<seq<T>>, t: nat)
    requires t < |cs|
    ensures cs[t := cs[t] + CarryList(None)] == cs
  {
    assert cs[t] + [] == cs[t];
  }

  /** The contents after the first i turns of `expand`'s merging loop: the first i pairs merged, the rest untouched. */
  ghost function MergedUpTo<T>(c0: seq<seq<T>>, i: nat): (c: seq<seq<T>>)
    requires 2 * i <= |c0|
    ensures |c| == |c0| - i
    decreases i
  {
    if i == 0 then c0
    else
      var c := MergedUpTo(c0, i - 1);
      c[..i - 1] + [c[i - 1] + c[i]] + c[i + 1..]
  }

  /** After i turns the first i tiers hold the first i pairs and the others the tiers not yet merged. */
  lemma {:induction false} MergedUpToPairs<T>(c0: seq<seq<T>>, i: nat)
    requires 2 * i <= |c0|
    ensures MergedUpTo(c0, i) == Pairs(c0)[..i] + c0[2 * i..]
  {
    if i == 0 {
      assert Pairs(c0)[..0] + c0[0..] == c0;
    } else {
      MergedUpToPairs(c0, i - 1);
      MergeStep(c0, MergedUpTo(c0, i - 1), i - 1);
    }
  }

  /** The merging loop of `expand`: tiers 2j and 2j + 1 become one tier of 2n slots, for j < n / 2. */
  method MergePairs<T>(ts: seq<RawTier<T>>, ghost c0: seq<seq<T>>, n: nat) returns (us: seq<RawTier<T>>)
    requires n >= 2 && n % 2 == 0 && IsPowerOfTwo(n) && |ts| == n && Distinct(ts) && Holds(ts, c0) && Sized(ts, n)
    modifies ts
    ensures |us| == n / 2 && Distinct(us) && Holds(us, Pairs(c0)) && Sized(us, 2 * n)
    ensures forall x :: x in us ==> x in ts
  {
    us := ts;
    var half := n / 2;
    var i := 0;
    while i < half
      invariant 0 <= i <= half && |us| == n - i
      invariant Distinct(us) && forall x :: x in us ==> x in ts
      invariant Holds(us, MergedUpTo(c0, i)) && SizedFrom(us, i, 2 * n, n)
    {
      assert us[i] in us && us[i + 1] in us;
      us := MergeAt(us, MergedUpTo(c0, i), i, n);
      i := i + 1;
    }
    MergedUpToPairs(c0, half);
    assert Pairs(c0)[..half] + c0[2 * half..] == Pairs(c0);
  }

  /**
   * `expand` on the tiers: pairs merged, then empty tiers of 2n slots pushed
   * up to 2n tiers, which then hold the runs of 2n elements.
   */
  method ExpandTiers<T>(ts: seq<RawTier<T>>, ghost c0: seq<seq<T>>) returns (us: seq<RawTier<T>>, ghost cs: seq<seq<T>>)
    requires Wellformed(ts, c0)
    modifies ts
    ensures |us| == 2 * |ts| && Wellformed(us, cs)
    ensures Flatten(cs) == Flatten(c0)
    ensures forall j :: 0 <= j < |us| ==> us[j] in ts || fresh(us[j])
  {
    var n := |ts|;
    var merged := MergePairs(ts, c0, n);
    var count := 2 * n - n / 2;
    PowerOfTwoDouble(n);
    var pushed := NewTiers(2 * n, count);
    HoldsAppend(merged, Pairs(c0), pushed, Empties(count));
    forall j, k | 0 <= j < |merged| && 0 <= k < |pushed|
      ensures merged[j] != pushed[k]
    {
      assert merged[j] in merged;
    }
    DistinctAppend(merged, pushed);
    ExpandedContents(c0, n, Pairs(c0) + Empties(count));
    us := merged + pushed;
    cs := Pairs(c0) + Empties(count);
    forall j | 0 <= j < |us|
      ensures us[j] in ts || fresh(us[j])
    {
      if j < |merged| {
        assert us[j] == merged[j] && merged[j] in merged;
      } else {
        assert us[j] == pushed[j - |merged|];
      }
    }
  }

  /** One turn of the splitting loop: tier i, holding chunk m of the old layout, becomes tiers i and i + 1. */
  method SplitTurn<T>(us: seq<RawTier<T>>, ghost cs: seq<seq<T>>, ghost c1: seq<seq<T>>, ghost s: seq<T>, i: nat, ghost m: nat, h: nat)
    returns (vs: seq<RawTier<T>>, ghost ds: seq<seq<T>>)
    requires i == 2 * m && i < |us| && h >= 1 && m < |c1| && c1[m] == Chunk(s, 2 * h, m)
    requires Distinct(us) && Holds(us, cs) && SizedFrom(us, i, h, 2 * h) && cs == Chunks(s, h, i) + c1[m..]
    modifies us[i]
    ensures |vs| == |us| + 1 && Distinct(vs) && forall x :: x in vs ==> x in us || fresh(x)
    ensures ds == Chunks(s, h, i + 2) + c1[m + 1..] && Holds(vs, ds) && SizedFrom(vs, i + 2, h, 2 * h)
  {
    vs := SplitAt(us, cs, i, h);
    InsertedMembers(us, i, vs[i + 1]);
    SplitStep(s, h, c1, cs, i, m, vs[i].Elements(), vs[i + 1].Elements());
    ds := cs[..i] + [vs[i].Elements(), vs[i + 1].Elements()] + cs[i + 1..];
  }

  /** The splitting loop of `try_contract`: each kept tier, of 2h slots, becomes two tiers of h slots. */
  method SplitTiers<T>(ts: seq<RawTier<T>>, ghost c1: seq<seq<T>>, ghost s: seq<T>, h: nat) returns (us: seq<RawTier<T>>)
    requires h >= 2 && h % 2 == 0 && |ts| == h / 2 && Distinct(ts) && Holds(ts, c1) && Sized(ts, 2 * h)
    requires forall k :: 0 <= k < |c1| ==> c1[k] == Chunk(s, 2 * h, k)
    modifies ts
    ensures |us| == h && Distinct(us) && Holds(us, Chunks(s, h, h)) && Sized(us, h)
    ensures forall x :: x in us ==> x in ts || fresh(x)
  {
    ghost var cs := c1;
    us := ts;
    assert Chunks(s, h, 0) + c1[0..] == c1;
    var i := 0;
    ghost var m := 0;
    while i < h
      invariant i == 2 * m && 0 <= i <= h && |us| == |ts| + m
      invariant Distinct(us) && forall x :: x in us ==> x in ts || fresh(x)
      invariant cs == Chunks(s, h, i) + c1[m..]
      invariant Holds(us, cs) && SizedFrom(us, i, h, 2 * h)
    {
      assert us[i] in us;
      us, cs := SplitTurn(us, cs, c1, s, i, m, h);
      i, m := i + 2, m + 1;
    }
    assert cs == Chunks(s, h, i);
  }

  /**
   * `try_contract` on the tiers once it fires: the first n / 4 tiers are kept
   * and each is split in two; the tiers then hold the runs of n / 2 elements.
   */
  method ContractTiers<T>(ts: seq<RawTier<T>>, ghost c0: seq<seq<T>>) returns (us: seq<RawTier<T>>, ghost cs: seq<seq<T>>)
    requires Wellformed(ts, c0) && |Flatten(c0)| < (|ts| * |ts|) / 8
    modifies ts
    ensures |us| == |ts| / 2 && Wellformed(us, cs) && |Flatten(c0)| < Start(|us|, |us|)
    ensures Flatten(cs) == Flatten(c0)
    ensures forall j :: 0 <= j < |us| ==> us[j] in ts || fresh(us[j])
  {
    var n := |ts|;
    ghost var s := Flatten(c0);
    ContractFits(n, |s|);
    PackedIsChunks(c0, n);
    var h := n / 2;
    PowerOfTwoHalf(n);
    PowerOfTwoHalf(h);
    Truncated(ts, c0, h / 2, n);
    us := SplitTiers(ts[..h / 2], c0[..h / 2], s, h);
    ChunksPacked(s, h, h);
    cs := Chunks(s, h, h);
    forall j | 0 <= j < |us|
      ensures us[j] in ts || fresh(us[j])
    {
      assert us[j] in us;
    }
  }

  /** `try_contract(num_entries)` on the tiers: they contract only below an eighth of the capacity. */
  method TryContractTiers<T>(ts: seq<RawTier<T>>, ghost c0: seq<seq<T>>, numEntries: nat)
    returns (us: seq<RawTier<T>>, ghost cs: seq<seq<T>>)
    requires Wellformed(ts, c0) && numEntries == |Flatten(c0)|
    modifies ts
    ensures Wellformed(us, cs) && Flatten(cs) == Flatten(c0)
    ensures |us| == if numEntries < Start(|ts|, |ts|) / 8 then |ts| / 2 else |ts|
    ensures numEntries < Start(|ts|, |ts|) / 8 ==> numEntries < Start(|us|, |us|)
    ensures forall j :: 0 <= j < |us| ==> us[j] in ts || fresh(us[j])
  {
    us, cs := ts, c0;
    StartIsProduct(|ts|, |ts|);
    if numEntries < (|ts| * |ts|) / 8 {
      us, cs := ContractTiers(ts, c0);
    }
  }

  /** The pop-push loop of `insert`, from tier t to the last. */
  method FrontLoop<T>(ts: seq<RawTier<T>>, ghost c0: seq<seq<T>>, n: nat, t: nat)
    requires n > 0 && t <= |ts| && Distinct(ts) && Holds(ts, c0) && Sized(ts, n)
    modifies ts
    ensures Holds(ts, FrontCascade(c0, n, t, None)) && Sized(ts, n)
  {
    ghost var cs := c0;
    var prev: Option<T> := None;
    var i := t;
    while i < |ts|
      invariant t <= i <= |ts| && Holds(ts, cs) && Sized(ts, n)
      invariant FrontCascade(cs, n, i, prev) == FrontCascade(c0, n, t, None)
    {
      ghost var step := FrontStep(cs, n, i, prev);
      prev := FrontStepAt(ts, cs, n, i, prev);
      cs := step.0;
      i := i + 1;
    }
  }

  /** The reverse loop of `remove`, over tiers hi - 1 down to lo. */
  method RefillLoop<T>(ts: seq<RawTier<T>>, ghost c1: seq<seq<T>>, n: nat, lo: nat, hi: nat) returns (carry: Option<T>)
    requires n > 0 && lo <= hi <= |ts| && Distinct(ts) && Holds(ts, c1) && Sized(ts, n)
    modifies ts
    ensures Holds(ts, Refill(c1, lo, hi, None).0) && Sized(ts, n) && carry == Refill(c1, lo, hi, None).1
  {
    ghost var cs := c1;
    carry := None;
    var i := hi;
    while i > lo
      invariant lo <= i <= hi && Holds(ts, cs) && Sized(ts, n)
      invariant Refill(cs, lo, i, carry) == Refill(c1, lo, hi, None)
    {
      i := i - 1;
      ghost var step := RefillStep(cs, i, carry);
      carry := RefillStepAt(ts, cs, n, i, carry);
      cs := step.0;
    }
  }

  /**
   * What `remove` does once tier t has given up its element at offset r: the
   * reverse loop refills tiers hi - 1 down to t + 1, and the element it
   * carries out of tier t + 1 is pushed back onto tier t.
   */
  method RefillAfter<T>(ts: seq<RawTier<T>>, ghost c0: seq<seq<T>>, n: nat, t: nat, r: nat, hi: nat)
    requires n > 0 && t < hi <= |ts| == |c0| && r < |c0[t]| <= n
    requires Distinct(ts) && Holds(ts, c0[t := RemoveAt(c0[t], r)]) && Sized(ts, n)
    modifies ts
    ensures Holds(ts, RemoveRefilled(c0, t, r, hi)) && Sized(ts, n)
  {
    ghost var c1 := c0[t := RemoveAt(c0[t], r)];
    var carry := RefillLoop(ts, c1, n, t + 1, hi);
    ghost var rc := Refill(c1, t + 1, hi, None);
    RefillBefore(c1, t + 1, hi, None, t);
    if carry.Some? {
      PushBackAtTier(ts, rc.0, n, t, carry.value);
    } else {
      NothingCarried(rc.0, t);
    }
  }

  /** `insert(rank, e)` on the tiers of a vector with room: they then hold the runs of n elements of `LinkedInserted`. */
  method InsertInto<T>(ts: seq<RawTier<T>>, ghost c0: seq<seq<T>>, rank: nat, e: T)
    requires Wellformed(ts, c0) && rank <= |Flatten(c0)| < Start(|ts|, |ts|)
    modifies ts
    ensures Wellformed(ts, Chunks(LinkedInserted(Flatten(c0), |ts|, rank, e), |ts|, |ts|))
    ensures Flatten(Chunks(LinkedInserted(Flatten(c0), |ts|, rank, e), |ts|, |ts|)) == LinkedInserted(Flatten(c0), |ts|, rank, e)
  {
    var n := |ts|;
    ghost var s := Flatten(c0);
    PackedIsChunks(c0, n);
    InsertedChunks(s, n, rank, e);
    StartOfQuotient(n, rank);
    var t: nat := rank / n;
    if ts[t].IsFull() {
      FrontLoop(ts, c0, n, t);
    }
    ghost var cs := if Full(c0[t], n) then FrontCascade(c0, n, t, None) else c0;
    FrontInsertByLoop(c0, n, t, rank % n, e);
    InsertAtTier(ts, cs, n, t, rank, e);
  }

  /**
   * `remove(rank)` on the tiers once `try_contract` has run: the rank's tier
   * removes the element or reports the error, and on success the reverse
   * loop refills the tiers up to the tier of the last rank.
   */
  method RemoveFrom<T>(ts: seq<RawTier<T>>, ghost c0: seq<seq<T>>, numEntries: nat, rank: nat)
    returns (r: Result<T, TieredVectorError<T>>)
    requires Wellformed(ts, c0) && numEntries == |Flatten(c0)| && rank <= numEntries && rank < Start(|ts|, |ts|)
    modifies ts
    ensures rank == numEntries ==> Wellformed(ts, c0)
    ensures rank == numEntries ==>
      r == if rank % |ts| == 0 then Err(TieredVectorEmptyError) else Err(TieredVectorRankOutOfBoundsError(rank))
    ensures rank < numEntries ==> r == Ok(Flatten(c0)[rank])
    ensures rank < numEntries ==> Wellformed(ts, Chunks(RemoveAt(Flatten(c0), rank), |ts|, |ts|))
    ensures rank < numEntries ==> Flatten(Chunks(RemoveAt(Flatten(c0), rank), |ts|, |ts|)) == RemoveAt(Flatten(c0), rank)
  {
    var n := |ts|;
    ghost var s := Flatten(c0);
    PackedIsChunks(c0, n);
    StartOfQuotient(n, rank);
    RankTier(n, rank, n);
    var t: nat := rank / n;
    if rank == numEntries {
      EndPoint(s, n);
    } else {
      RemovedChunks(s, n, rank);
      ChunksPacked(RemoveAt(s, rank), n, n);
    }
    var res := RemoveAtTier(ts, c0, n, t, rank);
    match res {
      case Err(TierEmptyError) =>
        r := Err(TieredVectorEmptyError);
      case Err(TierRankOutOfBoundsError(x)) =>
        r := Err(TieredVectorRankOutOfBoundsError(x));
      case Err(_) =>
        assert false;
      case Ok(removed) =>
        RefillAfter(ts, c0, n, t, rank % n, CascadeEnd(numEntries, n));
        r := Ok(removed);
    }
  }

  /**
   * `insert(rank, e)` given the length: a rank past the end is refused;
   * otherwise a full vector is expanded first, then the element is inserted
   * into the tiers.
   */
  method InsertTiers<T>(ts: seq<RawTier<T>>, ghost c0: seq<seq<T>>, rank: nat, e: T)
    returns (r: Result<nat, TieredVectorError<T>>, us: seq<RawTier<T>>, ghost cs: seq<seq<T>>)
    requires Wellformed(ts, c0)
    modifies ts
    ensures Wellformed(us, cs)
    ensures forall j :: 0 <= j < |us| ==> us[j] in ts || fresh(us[j])
    ensures rank > |Flatten(c0)| ==> r == Err(TieredVectorOutofBoundsInsertionError(rank, e)) && us == ts && cs == c0
    ensures rank <= |Flatten(c0)| ==> r == Ok(rank)
    ensures rank <= |Flatten(c0)| ==> |us| == if |Flatten(c0)| == Start(|ts|, |ts|) then 2 * |ts| else |ts|
    ensures rank <= |Flatten(c0)| ==> |Flatten(c0)| < Start(|us|, |us|)
    ensures rank <= |Flatten(c0)| ==> Flatten(cs) == LinkedInserted(Flatten(c0), |us|, rank, e)
  {
    var numEntries := SumLengths(ts, c0, |ts|);
    us, cs := ts, c0;
    if rank > numEntries {
      return Err(TieredVectorOutofBoundsInsertionError(rank, e)), us, cs;
    }
    PackedIsChunks(c0, |ts|);
    StartIsProduct(|ts|, |ts|);
    if numEntries == |ts| * |ts| {
      DoubledRoom(|ts|);
      us, cs := ExpandTiers(ts, c0);
    }
    InsertInto(us, cs, rank, e);
    cs := Chunks(LinkedInserted(Flatten(c0), |us|, rank, e), |us|, |us|);
    r := Ok(rank);
  }

  /**
   * `remove(rank)` given the length: a rank past the end is refused;
   * otherwise the vector may contract, then the element is removed from the
   * tiers.
   */
  method RemoveTiers<T>(ts: seq<RawTier<T>>, ghost c0: seq<seq<T>>, rank: nat)
    returns (r: Result<T, TieredVectorError<T>>, us: seq<RawTier<T>>, ghost cs: seq<seq<T>>)
    requires Wellformed(ts, c0)
    requires !(rank == |Flatten(c0)| == Start(|ts|, |ts|))
    modifies ts
    ensures Wellformed(us, cs)
    ensures forall j :: 0 <= j < |us| ==> us[j] in ts || fresh(us[j])
    ensures rank > |Flatten(c0)| ==> r == Err(TieredVectorRankOutOfBoundsError(rank)) && us == ts && cs == c0
    ensures rank <= |Flatten(c0)| ==> |us| == if |Flatten(c0)| < Start(|ts|, |ts|) / 8 then |ts| / 2 else |ts|
    ensures rank == |Flatten(c0)| ==> Flatten(cs) == Flatten(c0)
    ensures rank == |Flatten(c0)| ==>
      r == if rank % |us| == 0 then Err(TieredVectorEmptyError) else Err(TieredVectorRankOutOfBoundsError(rank))
    ensures rank < |Flatten(c0)| ==> r == Ok(Flatten(c0)[rank]) && Flatten(cs) == RemoveAt(Flatten(c0), rank)
  {
    var numEntries := SumLengths(ts, c0, |ts|);
    us, cs := ts, c0;
    if rank > numEntries {
      return Err(TieredVectorRankOutOfBoundsError(rank)), us, cs;
    }
    PackedIsChunks(c0, |ts|);
    StartIsProduct(|ts|, |ts|);
    us, cs := TryContractTiers(ts, c0, numEntries);
    PackedIsChunks(cs, |us|);
    ghost var c1 := cs;
    r := RemoveFrom(us, c1, numEntries, rank);
    if rank < numEntries {
      cs := Chunks(RemoveAt(Flatten(c0), rank), |us|, |us|);
    }
  }
}
