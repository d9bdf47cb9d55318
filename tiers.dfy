// The tiered vectors seen as their tiers' element sequences.
//
// A tiered vector of tier size n keeps its elements in tiers of capacity n,
// and the vector is the concatenation of the tiers (`Flatten`). Ranks map to
// tiers by division only because the tiers are packed: every tier before the
// last non-empty one is full. Packed tiers are exactly the runs of n elements
// of the vector (`Chunks`), so a packed vector is determined by its elements
// and its tier size.
//
// The pop-push cascades of `insert` and `remove` are stated here, one loop
// turn at a time, on those sequences; the vector classes run them on tiers.
module Tiers {
  import opened Wrappers
  import opened Seqs

  /** The concatenation of the tiers, in order. */
  function Flatten<T>(ts: seq<seq<T>>): seq<T>
  {
    if ts == [] then [] else ts[0] + Flatten(ts[1..])
  }

  lemma {:induction false} FlattenConcat<T>(a: seq<seq<T>>, b: seq<seq<T>>)
    ensures Flatten(a + b) == Flatten(a) + Flatten(b)
  {
    if a == [] {
      assert a + b == b;
    } else {
      assert (a + b)[1..] == a[1..] + b;
      FlattenConcat(a[1..], b);
    }
  }

  lemma FlattenOne<T>(t: seq<T>)
    ensures Flatten([t]) == t
  {
    assert [t][1..] == [];
  }

  /** Replacing tier i changes the concatenation in that tier's place only. */
  lemma FlattenUpdate<T>(ts: seq<seq<T>>, i: nat, v: seq<T>)
    requires i < |ts|
    ensures Flatten(ts[i := v]) == Flatten(ts[..i]) + v + Flatten(ts[i + 1..])
    ensures Flatten(ts) == Flatten(ts[..i]) + ts[i] + Flatten(ts[i + 1..])
  {
    assert ts[i := v] == ts[..i] + [v] + ts[i + 1..];
    assert ts == ts[..i] + [ts[i]] + ts[i + 1..];
    FlattenConcat(ts[..i] + [v], ts[i + 1..]);
    FlattenConcat(ts[..i], [v]);
    FlattenConcat(ts[..i] + [ts[i]], ts[i + 1..]);
    FlattenConcat(ts[..i], [ts[i]]);
    FlattenOne(v);
    FlattenOne(ts[i]);
  }

  /** Tier i sits between the concatenations of the tiers before and after it. */
  lemma FlattenAt<T>(ts: seq<seq<T>>, i: nat)
    requires i < |ts|
    ensures Flatten(ts) == Flatten(ts[..i]) + ts[i] + Flatten(ts[i + 1..])
  {
    FlattenUpdate(ts, i, ts[i]);
  }

  /** A tier between two runs of tiers sits between their concatenations. */
  lemma FlattenThree<T>(a: seq<seq<T>>, v: seq<T>, b: seq<seq<T>>)
    ensures Flatten(a + [v] + b) == Flatten(a) + v + Flatten(b)
  {
    FlattenConcat(a + [v], b);
    FlattenConcat(a, [v]);
    FlattenOne(v);
  }

  lemma FlattenSplit<T>(ts: seq<seq<T>>, i: nat)
    requires i <= |ts|
    ensures Flatten(ts) == Flatten(ts[..i]) + Flatten(ts[i..])
  {
    assert ts == ts[..i] + ts[i..];
    FlattenConcat(ts[..i], ts[i..]);
  }

  /** Tiers that hold n elements each hold `Start(n, count)` together. */
  lemma {:induction false} FlattenFull<T>(ts: seq<seq<T>>, n: nat)
    requires forall j :: 0 <= j < |ts| ==> |ts[j]| == n
    ensures |Flatten(ts)| == Start(n, |ts|)
  {
    if ts != [] {
      FlattenFull(ts[1..], n);
      StartShift(n, |ts| - 1);
    }
  }

  /** Empty tiers add nothing. */
  lemma {:induction false} FlattenEmpty<T>(ts: seq<seq<T>>)
    requires forall j :: 0 <= j < |ts| ==> ts[j] == []
    ensures Flatten(ts) == []
  {
    if ts != [] {
      FlattenEmpty(ts[1..]);
    }
  }

  // ---------------------------------------------------------------------------
  // Packing and the runs of n elements.

  /** Tiers of capacity n, each of which is full if any tier after it holds an element. */
  predicate Packed<T>(ts: seq<seq<T>>, n: nat)
  {
    (forall j :: 0 <= j < |ts| ==> |ts[j]| <= n)
    && (forall i, j :: 0 <= i < j < |ts| && ts[j] != [] ==> |ts[i]| == n)
  }

  function Min(a: int, b: int): int
  {
    if a < b then a else b
  }

  /** Where the i-th run of n elements starts: i * n, spelled as repeated addition. */
  function Start(n: nat, i: nat): nat
  {
    if i == 0 then 0 else Start(n, i - 1) + n
  }

  lemma {:induction false} StartIsProduct(n: nat, i: nat)
    ensures Start(n, i) == i * n
  {
    if i > 0 {
      StartIsProduct(n, i - 1);
      assert i * n == (i - 1) * n + n;
    }
  }

  lemma {:induction false} StartMonotone(n: nat, i: nat, j: nat)
    requires i <= j
    ensures Start(n, i) <= Start(n, j)
    decreases j - i
  {
    if i < j {
      StartMonotone(n, i, j - 1);
    }
  }

  /** The run after the first starts n later: Start(n, i + 1) == n + Start(n, i). */
  lemma {:induction false} StartShift(n: nat, i: nat)
    ensures Start(n, i + 1) == n + Start(n, i)
  {
  }

  /** Runs of 2n start where every other run of n starts. */
  lemma {:induction false} StartDouble(n: nat, j: nat)
    ensures Start(n, 2 * j) == Start(2 * n, j)
  {
    if j > 0 {
      StartDouble(n, j - 1);
      assert Start(n, 2 * j) == Start(n, 2 * (j - 1)) + n + n;
    }
  }

  /** Rank k lies in the run k / n, at offset k mod n. */
  lemma StartOfQuotient(n: nat, k: nat)
    requires n > 0
    ensures 0 <= k / n && Start(n, k / n) + k % n == k
  {
    StartIsProduct(n, k / n);
  }

  /** The i-th run of n elements of s: n of them, fewer at the end of s, none past it. */
  function Chunk<T>(s: seq<T>, n: nat, i: nat): seq<T>
  {
    s[Min(Start(n, i), |s|)..Min(Start(n, i) + n, |s|)]
  }

  /** The first `count` runs of n elements of s. */
  function Chunks<T>(s: seq<T>, n: nat, count: nat): (ts: seq<seq<T>>)
    ensures |ts| == count && forall i :: 0 <= i < count ==> ts[i] == Chunk(s, n, i)
  {
    seq(count, i requires 0 <= i => Chunk(s, n, i))
  }

  /** How many elements the i-th tier holds when tiers of capacity n are packed with `total` elements. */
  function ChunkLength(total: nat, n: nat, i: nat): nat
  {
    if Start(n, i) + n <= total then n else if Start(n, i) < total then total - Start(n, i) else 0
  }

  lemma ChunkHasLength<T>(s: seq<T>, n: nat, i: nat)
    ensures |Chunk(s, n, i)| == ChunkLength(|s|, n, i)
  {
  }

  /** Reading the runs of n elements back in order gives a prefix of s. */
  lemma {:induction false} FlattenChunks<T>(s: seq<T>, n: nat, count: nat)
    ensures Flatten(Chunks(s, n, count)) == s[..Min(Start(n, count), |s|)]
  {
    if count > 0 {
      var c := count - 1;
      assert Chunks(s, n, count) == Chunks(s, n, c) + [Chunk(s, n, c)];
      FlattenConcat(Chunks(s, n, c), [Chunk(s, n, c)]);
      FlattenOne(Chunk(s, n, c));
      FlattenChunks(s, n, c);
      StartMonotone(n, c, count);
    } else {
      assert Chunks(s, n, count) == [];
    }
  }

  /** Runs of n elements are packed tiers, and enough of them hold all of s. */
  lemma ChunksPacked<T>(s: seq<T>, n: nat, count: nat)
    requires |s| <= Start(n, count)
    ensures Packed(Chunks(s, n, count), n)
    ensures Flatten(Chunks(s, n, count)) == s
  {
    var ts := Chunks(s, n, count);
    forall j | 0 <= j < count
      ensures |ts[j]| == ChunkLength(|s|, n, j)
    {
      ChunkHasLength(s, n, j);
    }
    PackedByLengths(ts, n, |s|);
    FlattenChunks(s, n, count);
  }

  /** A full tier of n elements in front of s: the runs of n after the first are the runs of s. */
  lemma ChunkAfterFull<T>(v: seq<T>, f: seq<T>, n: nat, j: nat)
    requires |v| == n
    ensures Chunk(v + f, n, j + 1) == Chunk(f, n, j)
  {
    StartShift(n, j);
    var a, b := Min(Start(n, j), |f|), Min(Start(n, j) + n, |f|);
    assert Chunk(v + f, n, j + 1) == (v + f)[a + n..b + n];
    assert (v + f)[a + n..b + n] == f[a..b];
  }

  /** With nothing after it, a tier of at most n elements is the first run of n and the only one. */
  lemma ChunkAlone<T>(v: seq<T>, n: nat, j: nat)
    requires |v| <= n
    ensures Chunk(v, n, j) == if j == 0 then v else []
  {
    if j > 0 {
      StartMonotone(n, 1, j);
    }
  }

  /** Packed tiers are the runs of n elements of their concatenation. */
  lemma {:induction false} PackedIsChunks<T>(ts: seq<seq<T>>, n: nat)
    requires Packed(ts, n)
    ensures ts == Chunks(Flatten(ts), n, |ts|)
    ensures |Flatten(ts)| <= Start(n, |ts|)
  {
    if ts != [] {
      var rest := ts[1..];
      PackedIsChunks(rest, n);
      if Flatten(rest) == [] {
        ChunksOfFirst(ts, n);
      } else {
        ChunksAfterFirst(ts, n);
      }
    }
  }

  /** Packed tiers whose first tier holds everything: that tier is the first run, the others are empty. */
  lemma ChunksOfFirst<T>(ts: seq<seq<T>>, n: nat)
    requires ts != [] && Packed(ts, n)
    requires ts[1..] == Chunks(Flatten(ts[1..]), n, |ts| - 1) && Flatten(ts[1..]) == []
    ensures ts == Chunks(Flatten(ts), n, |ts|)
    ensures |Flatten(ts)| <= Start(n, |ts|)
  {
    var rest := ts[1..];
    var s := Flatten(ts);
    assert s == ts[0];
    StartMonotone(n, 1, |ts|);
    forall j | 0 <= j < |ts|
      ensures ts[j] == Chunk(s, n, j)
    {
      ChunkAlone(ts[0], n, j);
      if j > 0 {
        assert ts[j] == rest[j - 1] == Chunk([], n, j - 1);
      }
    }
  }

  /** Packed tiers with elements after the first tier: the first tier is full and the rest are the later runs. */
  lemma ChunksAfterFirst<T>(ts: seq<seq<T>>, n: nat)
    requires ts != [] && Packed(ts, n)
    requires ts[1..] == Chunks(Flatten(ts[1..]), n, |ts| - 1) && |Flatten(ts[1..])| <= Start(n, |ts| - 1)
    requires Flatten(ts[1..]) != []
    ensures ts == Chunks(Flatten(ts), n, |ts|)
    ensures |Flatten(ts)| <= Start(n, |ts|)
  {
    var rest := ts[1..];
    var s, f := Flatten(ts), Flatten(rest);
    assert s == ts[0] + f;
    StartShift(n, |rest|);
    var k :| 0 <= k < |rest| && rest[k] != [] by {
      if forall k :: 0 <= k < |rest| ==> rest[k] == [] {
        FlattenEmpty(rest);
      }
    }
    assert ts[k + 1] != [];
    assert |ts[0]| == n;
    forall j | 0 <= j < |ts|
      ensures ts[j] == Chunk(s, n, j)
    {
      if j > 0 {
        ChunkAfterFull(ts[0], f, n, j - 1);
        assert ts[j] == rest[j - 1] == Chunk(f, n, j - 1);
      }
    }
  }

  /** The lengths of packed tiers follow from how many elements they hold. */
  lemma PackedLengths<T>(ts: seq<seq<T>>, n: nat)
    requires Packed(ts, n)
    ensures forall j :: 0 <= j < |ts| ==> |ts[j]| == ChunkLength(|Flatten(ts)|, n, j)
  {
    PackedIsChunks(ts, n);
  }

  /** Tiers with the lengths of packed tiers are packed. */
  lemma PackedByLengths<T>(ts: seq<seq<T>>, n: nat, total: nat)
    requires forall j :: 0 <= j < |ts| ==> |ts[j]| == ChunkLength(total, n, j)
    ensures Packed(ts, n)
  {
    forall i, j | 0 <= i < j < |ts| && ts[j] != []
      ensures |ts[i]| == n
    {
      StartMonotone(n, i + 1, j);
    }
  }

  /**
   * Rank k of s is in the run k / n at offset k mod n, and that run reaches
   * offset k mod n exactly when k is a rank of s; at k = |s| the run stops
   * at that offset.
   */
  lemma ChunkAt<T>(s: seq<T>, n: nat, k: nat)
    requires n > 0
    ensures k < |s| <==> k % n < |Chunk(s, n, k / n)|
    ensures k < |s| ==> Chunk(s, n, k / n)[k % n] == s[k]
    ensures k == |s| ==> |Chunk(s, n, k / n)| == k % n
  {
    StartOfQuotient(n, k);
  }

  /** Two consecutive runs of n elements make a run of 2n. */
  lemma ChunkPair<T>(s: seq<T>, n: nat, j: nat)
    ensures Chunk(s, n, 2 * j) + Chunk(s, n, 2 * j + 1) == Chunk(s, 2 * n, j)
  {
    StartDouble(n, j);
  }

  /** The concatenations of the tiers two by two: tiers 2j and 2j + 1 become tier j. */
  function Pairs<T>(ts: seq<seq<T>>): (ps: seq<seq<T>>)
    ensures |ps| == |ts| / 2
    ensures forall j :: 0 <= j < |ts| / 2 ==> ps[j] == ts[2 * j] + ts[2 * j + 1]
  {
    seq(|ts| / 2, j requires 0 <= j < |ts| / 2 => ts[2 * j] + ts[2 * j + 1])
  }

  /** Concatenating runs of n two by two gives the runs of 2n. */
  lemma PairsOfChunks<T>(s: seq<T>, n: nat, count: nat)
    ensures Pairs(Chunks(s, n, 2 * count)) == Chunks(s, 2 * n, count)
  {
    forall j | 0 <= j < count
      ensures Pairs(Chunks(s, n, 2 * count))[j] == Chunk(s, 2 * n, j)
    {
      ChunkPair(s, n, j);
    }
  }

  // ---------------------------------------------------------------------------
  // The pop-push cascades. Each is written twice: as the loop runs it, one
  // turn per tier index (the form the vector classes' loops follow), and on
  // the remaining tiers handing on a carry (the form the lemmas are about).

  /** The element a cascade carries, as a sequence of zero or one element. */
  function CarryList<T>(carry: Option<T>): (c: seq<T>)
    ensures carry.Some? ==> c == [carry.value]
    ensures carry.None? ==> c == []
  {
    if carry.Some? then [carry.value] else []
  }

  /** Packed tiers with a free slot somewhere. */
  predicate HasRoom<T>(ts: seq<seq<T>>, n: nat)
  {
    |Flatten(ts)| < Start(n, |ts|)
  }

  lemma PackedTail<T>(ts: seq<seq<T>>, n: nat, i: nat)
    requires Packed(ts, n) && i <= |ts|
    ensures Packed(ts[i..], n)
  {
  }

  /** A tier of at most n elements followed by empty tiers, or a full tier followed by packed tiers, is packed. */
  lemma PackedCons<T>(v: seq<T>, ts: seq<seq<T>>, n: nat)
    requires |v| <= n && Packed(ts, n)
    requires |v| == n || forall j :: 0 <= j < |ts| ==> ts[j] == []
    ensures Packed([v] + ts, n)
  {
  }

  /** Packed tiers after a tier with room are empty. */
  lemma PackedAfterRoom<T>(ts: seq<seq<T>>, n: nat)
    requires Packed(ts, n) && ts != [] && |ts[0]| < n
    ensures forall j :: 0 <= j < |ts[1..]| ==> ts[1..][j] == []
  {
  }

  /** Packed tiers whose first tier is full have room exactly when the rest have. */
  lemma RoomAfterFull<T>(ts: seq<seq<T>>, n: nat)
    requires ts != [] && |ts[0]| == n && HasRoom(ts, n)
    ensures HasRoom(ts[1..], n)
  {
    assert Flatten(ts) == ts[0] + Flatten(ts[1..]);
    StartShift(n, |ts| - 1);
  }

  // The pop-push loop of the linked and implicit `insert`.

  /**
   * Carrying into the remaining tiers front-first: a full tier gives up its
   * first element to the carry and takes the carried one at its back; any
   * other tier takes the carried one at its back and the carry ends. The
   * second component is the carry left over after the last tier.
   */
  function FrontCarry<T>(ts: seq<seq<T>>, n: nat, carry: Option<T>): (r: (seq<seq<T>>, Option<T>))
    ensures |r.0| == |ts|
  {
    if ts == [] then ([], carry)
    else
      var rc := FrontCarry(ts[1..], n, Pass(ts[0], n));
      ([Kept(ts[0], n) + CarryList(carry)] + rc.0, rc.1)
  }

  /** A tier holding n elements is full (and an empty tier never is). */
  predicate Full<T>(t: seq<T>, n: nat)
  {
    |t| == n && t != []
  }

  /** What a tier hands on at its front when something is pushed at its back: its first element if it is full. */
  function Pass<T>(t: seq<T>, n: nat): (c: Option<T>)
    ensures c.Some? <==> Full(t, n)
  {
    if Full(t, n) then Some(t[0]) else None
  }

  /** What a tier keeps of its own elements when something is pushed at its back. */
  function Kept<T>(t: seq<T>, n: nat): seq<T>
  {
    if Full(t, n) then t[1..] else t
  }

  /** The element handed on and the elements kept are the tier, in order. */
  lemma PassKept<T>(t: seq<T>, n: nat)
    ensures CarryList(Pass(t, n)) + Kept(t, n) == t
  {
    if Full(t, n) {
      assert t == [t[0]] + t[1..];
    }
  }

  /** One turn of the pop-push loop of the linked `insert`, at tier i. */
  function FrontStep<T>(ts: seq<seq<T>>, n: nat, i: nat, carry: Option<T>): (seq<seq<T>>, Option<T>)
    requires i < |ts|
  {
    (ts[i := Kept(ts[i], n) + CarryList(carry)], Pass(ts[i], n))
  }

  /** The pop-push loop of the linked `insert`, from tier i to the last. */
  function FrontCascade<T>(ts: seq<seq<T>>, n: nat, i: nat, carry: Option<T>): (r: seq<seq<T>>)
    requires i <= |ts|
    ensures |r| == |ts|
    decreases |ts| - i
  {
    if i == |ts| then ts
    else
      var step := FrontStep(ts, n, i, carry);
      FrontCascade(step.0, n, i + 1, step.1)
  }

  /** The loop from tier i leaves the tiers before i alone and carries into the rest. */
  lemma {:induction false} FrontCascadeIsCarry<T>(ts: seq<seq<T>>, n: nat, i: nat, carry: Option<T>)
    requires i <= |ts|
    ensures FrontCascade(ts, n, i, carry) == ts[..i] + FrontCarry(ts[i..], n, carry).0
    decreases |ts| - i
  {
    if i < |ts| {
      var u := FrontStep(ts, n, i, carry).0;
      FrontCascadeIsCarry(u, n, i + 1, Pass(ts[i], n));
      assert ts[i..][0] == ts[i] && ts[i..][1..] == ts[i + 1..] == u[i + 1..];
      assert u[..i + 1] == ts[..i] + [u[i]];
    } else {
      assert ts[i..] == [];
    }
  }

  /** The front-first carry neither makes nor loses elements: what comes in is what goes out. */
  lemma {:induction false} FrontCarryConserves<T>(ts: seq<seq<T>>, n: nat, carry: Option<T>)
    ensures multiset(Flatten(FrontCarry(ts, n, carry).0)) + multiset(CarryList(FrontCarry(ts, n, carry).1))
      == multiset(Flatten(ts)) + multiset(CarryList(carry))
  {
    if ts != [] {
      var rc := FrontCarry(ts[1..], n, Pass(ts[0], n));
      FrontCarryConserves(ts[1..], n, Pass(ts[0], n));
      FrontCarryFirst(ts, n, carry);
      PassKept(ts[0], n);
      CarryBookkeeping(Flatten(FrontCarry(ts, n, carry).0), CarryList(rc.1), Kept(ts[0], n), CarryList(carry),
        Flatten(rc.0), CarryList(Pass(ts[0], n)), ts[0], Flatten(ts[1..]), Flatten(ts));
    }
  }

  /** The first turn of `FrontCarry`, read in order. */
  lemma FrontCarryFirst<T>(ts: seq<seq<T>>, n: nat, carry: Option<T>)
    requires ts != []
    ensures Flatten(FrontCarry(ts, n, carry).0)
      == Kept(ts[0], n) + CarryList(carry) + Flatten(FrontCarry(ts[1..], n, Pass(ts[0], n)).0)
    ensures FrontCarry(ts, n, carry).1 == FrontCarry(ts[1..], n, Pass(ts[0], n)).1
    ensures Flatten(ts) == ts[0] + Flatten(ts[1..])
  {
    var r := FrontCarry(ts, n, carry).0;
    assert r[0] == Kept(ts[0], n) + CarryList(carry) && r[1..] == FrontCarry(ts[1..], n, Pass(ts[0], n)).0;
  }

  /** Multiset bookkeeping for one turn of a cascade: the tier keeps k, takes c in and hands p on. */
  lemma CarryBookkeeping<T>(all: seq<T>, out: seq<T>, k: seq<T>, c: seq<T>, rest: seq<T>, p: seq<T>,
                            t0: seq<T>, tail: seq<T>, whole: seq<T>)
    requires all == k + c + rest && whole == t0 + tail && p + k == t0
    requires multiset(rest) + multiset(out) == multiset(tail) + multiset(p)
    ensures multiset(all) + multiset(out) == multiset(whole) + multiset(c)
  {
    calc {
      multiset(all) + multiset(out);
      multiset(k) + multiset(c) + (multiset(rest) + multiset(out));
      multiset(k) + multiset(c) + multiset(tail) + multiset(p);
      multiset(p + k) + multiset(tail) + multiset(c);
      multiset(whole) + multiset(c);
    }
  }

  /** Without a carry, empty tiers come through unchanged. */
  lemma {:induction false} FrontCarryIdle<T>(ts: seq<seq<T>>, n: nat)
    requires n > 0 && forall j :: 0 <= j < |ts| ==> ts[j] == []
    ensures FrontCarry(ts, n, None) == (ts, None)
  {
    if ts != [] {
      FrontCarryIdle(ts[1..], n);
      assert ts[0] + [] == ts[0];
      assert ts == [ts[0]] + ts[1..];
    }
  }

  /** Carrying an element into packed tiers with room keeps them packed, and the carry is taken in. */
  lemma {:induction false} FrontCarryPacked<T>(ts: seq<seq<T>>, n: nat, x: T)
    requires n > 0 && Packed(ts, n) && HasRoom(ts, n)
    ensures FrontCarry(ts, n, Some(x)).1 == None && Packed(FrontCarry(ts, n, Some(x)).0, n)
  {
    if |ts[0]| == n {
      RoomAfterFull(ts, n);
      FrontCarryPacked(ts[1..], n, ts[0][0]);
      PackedCons(ts[0][1..] + [x], FrontCarry(ts[1..], n, Pass(ts[0], n)).0, n);
    } else {
      PackedAfterRoom(ts, n);
      FrontCarryIdle(ts[1..], n);
      PackedCons(ts[0] + [x], ts[1..], n);
    }
  }

  // The order-keeping pop-push loop of the flat `insert`.

  /**
   * Carrying into the remaining tiers back-first: a full tier gives up its
   * last element to the carry and takes the carried one at its front; the
   * first tier with room takes the carried one at its front and the loop
   * stops there.
   */
  function BackCarry<T>(ts: seq<seq<T>>, n: nat, carry: Option<T>): (r: (seq<seq<T>>, Option<T>))
    ensures |r.0| == |ts|
  {
    if ts == [] then ([], carry)
    else if Full(ts[0], n) then
      var rc := BackCarry(ts[1..], n, Some(ts[0][|ts[0]| - 1]));
      ([CarryList(carry) + ts[0][..|ts[0]| - 1]] + rc.0, rc.1)
    else ([CarryList(carry) + ts[0]] + ts[1..], None)
  }

  /** The order-keeping loop from tier i: full tiers pass their last element on; it stops at the first tier with room. */
  function BackCascade<T>(ts: seq<seq<T>>, n: nat, i: nat, carry: Option<T>): (r: seq<seq<T>>)
    requires i <= |ts|
    ensures |r| == |ts|
    decreases |ts| - i
  {
    if i == |ts| then ts
    else if |ts[i]| == n && ts[i] != [] then
      BackCascade(ts[i := CarryList(carry) + ts[i][..|ts[i]| - 1]], n, i + 1, Some(ts[i][|ts[i]| - 1]))
    else ts[i := CarryList(carry) + ts[i]]
  }

  lemma {:induction false} BackCascadeIsCarry<T>(ts: seq<seq<T>>, n: nat, i: nat, carry: Option<T>)
    requires i <= |ts|
    ensures BackCascade(ts, n, i, carry) == ts[..i] + BackCarry(ts[i..], n, carry).0
    decreases |ts| - i
  {
    if i < |ts| {
      assert ts[i..][0] == ts[i] && ts[i..][1..] == ts[i + 1..];
      if |ts[i]| == n && ts[i] != [] {
        var u := ts[i := CarryList(carry) + ts[i][..|ts[i]| - 1]];
        BackCascadeIsCarry(u, n, i + 1, Some(ts[i][|ts[i]| - 1]));
        assert u[i + 1..] == ts[i + 1..];
        assert u[..i + 1] == ts[..i] + [u[i]];
      } else {
        assert ts[i := CarryList(carry) + ts[i]] == ts[..i] + [CarryList(carry) + ts[i]] + ts[i + 1..];
      }
    } else {
      assert ts[i..] == [];
    }
  }

  /** The back-first carry moves every element one place on: the carry comes in first and the left-over goes out last. */
  lemma {:induction false} BackCarryShifts<T>(ts: seq<seq<T>>, n: nat, carry: Option<T>)
    ensures Flatten(BackCarry(ts, n, carry).0) + CarryList(BackCarry(ts, n, carry).1) == CarryList(carry) + Flatten(ts)
  {
    if ts != [] {
      var r := BackCarry(ts, n, carry);
      var f := Flatten(ts[1..]);
      assert Flatten(ts) == ts[0] + f;
      if Full(ts[0], n) {
        var last := ts[0][|ts[0]| - 1];
        var rc := BackCarry(ts[1..], n, Some(last));
        var init := ts[0][..|ts[0]| - 1];
        assert Flatten(r.0) + CarryList(r.1) == (CarryList(carry) + init) + Flatten(rc.0) + CarryList(rc.1) by {
          assert r.0[0] == CarryList(carry) + init && r.0[1..] == rc.0 && r.1 == rc.1;
        }
        assert Flatten(rc.0) + CarryList(rc.1) == [last] + f by {
          BackCarryShifts(ts[1..], n, Some(last));
        }
        assert ts[0] == init + [last];
        ShiftedThrough(CarryList(carry), init, last, f, Flatten(rc.0), CarryList(rc.1));
      } else {
        assert r.0[0] == CarryList(carry) + ts[0] && r.0[1..] == ts[1..] && r.1 == None;
        assert Flatten(r.0) == (CarryList(carry) + ts[0]) + f;
      }
    }
  }

  /** Regrouping for one full tier of the back-first carry. */
  lemma ShiftedThrough<T>(c: seq<T>, init: seq<T>, last: T, f: seq<T>, g: seq<T>, out: seq<T>)
    requires g + out == [last] + f
    ensures (c + init) + g + out == c + (init + [last]) + f
  {
    calc {
      (c + init) + g + out;
      (c + init) + (g + out);
      (c + init) + ([last] + f);
      c + (init + [last]) + f;
    }
  }

  /** Carrying an element back-first into packed tiers with room keeps them packed, and the carry is taken in. */
  lemma {:induction false} BackCarryPacked<T>(ts: seq<seq<T>>, n: nat, x: T)
    requires n > 0 && Packed(ts, n) && HasRoom(ts, n)
    ensures BackCarry(ts, n, Some(x)).1 == None && Packed(BackCarry(ts, n, Some(x)).0, n)
  {
    if |ts[0]| == n {
      RoomAfterFull(ts, n);
      BackCarryPacked(ts[1..], n, ts[0][|ts[0]| - 1]);
      PackedCons([x] + ts[0][..|ts[0]| - 1], BackCarry(ts[1..], n, Some(ts[0][|ts[0]| - 1])).0, n);
    } else {
      PackedAfterRoom(ts, n);
      PackedCons([x] + ts[0], ts[1..], n);
    }
  }

  // The reverse pop-push loop of `remove`.

  /**
   * The reverse loop over the given tiers, last to first: a tier with
   * elements gives up its first one to the carry and takes the carried one at
   * its back; an empty tier is passed over with the carry unchanged. The
   * second component is the carry that comes out of the first tier.
   */
  function RefillRun<T>(ts: seq<seq<T>>, carry: Option<T>): (r: (seq<seq<T>>, Option<T>))
    ensures |r.0| == |ts|
  {
    if ts == [] then ([], carry)
    else
      var last := ts[|ts| - 1];
      var rc := RefillRun(ts[..|ts| - 1], Handed(last, carry));
      (rc.0 + [Refilled(last, carry)], rc.1)
  }

  /** What a tier hands on in the reverse loop: its first element, or the carry itself when it is empty. */
  function Handed<T>(t: seq<T>, carry: Option<T>): Option<T>
  {
    if t == [] then carry else Some(t[0])
  }

  /** What a tier holds after a turn of the reverse loop: an empty tier stays empty. */
  function Refilled<T>(t: seq<T>, carry: Option<T>): seq<T>
  {
    if t == [] then t else t[1..] + CarryList(carry)
  }

  /** A turn of the reverse loop moves the tier's elements and the carry one place toward the front. */
  lemma HandedRefilled<T>(t: seq<T>, carry: Option<T>)
    ensures CarryList(Handed(t, carry)) + Refilled(t, carry) == t + CarryList(carry)
  {
    if t != [] {
      assert t == [t[0]] + t[1..];
    }
  }

  /** One turn of the reverse loop of `remove`, at tier i. */
  function RefillStep<T>(ts: seq<seq<T>>, i: nat, carry: Option<T>): (seq<seq<T>>, Option<T>)
    requires i < |ts|
  {
    (ts[i := Refilled(ts[i], carry)], Handed(ts[i], carry))
  }

  /** The reverse loop of `remove` over tiers hi - 1 down to lo. */
  function Refill<T>(ts: seq<seq<T>>, lo: nat, hi: nat, carry: Option<T>): (r: (seq<seq<T>>, Option<T>))
    requires lo <= hi <= |ts|
    ensures |r.0| == |ts|
    decreases hi - lo
  {
    if hi == lo then (ts, carry)
    else
      var step := RefillStep(ts, hi - 1, carry);
      Refill(step.0, lo, hi - 1, step.1)
  }

  lemma {:induction false} RefillIsRun<T>(ts: seq<seq<T>>, lo: nat, hi: nat, carry: Option<T>)
    requires lo <= hi <= |ts|
    ensures Refill(ts, lo, hi, carry).1 == RefillRun(ts[lo..hi], carry).1
    ensures Refill(ts, lo, hi, carry).0 == ts[..lo] + RefillRun(ts[lo..hi], carry).0 + ts[hi..]
    decreases hi - lo
  {
    if hi == lo {
      assert ts == ts[..lo] + [] + ts[hi..];
    } else {
      var u := RefillStep(ts, hi - 1, carry).0;
      RefillIsRun(u, lo, hi - 1, Handed(ts[hi - 1], carry));
      UpdateSlices(ts, u, lo, hi, Refilled(ts[hi - 1], carry));
    }
  }

  /** How the slices around tier hi - 1 relate before and after it is replaced by v. */
  lemma UpdateSlices<T>(ts: seq<seq<T>>, u: seq<seq<T>>, lo: nat, hi: nat, v: seq<T>)
    requires lo < hi <= |ts| && u == ts[hi - 1 := v]
    ensures ts[lo..hi][|ts[lo..hi]| - 1] == ts[hi - 1]
    ensures ts[lo..hi][..|ts[lo..hi]| - 1] == u[lo..hi - 1]
    ensures u[..lo] == ts[..lo]
    ensures u[hi - 1..] == [v] + ts[hi..]
  {
  }

  /**
   * The reverse loop moves the elements of its tiers one place toward the
   * front: the carry that comes out of the first tier, then the tiers, are
   * the tiers followed by the carry taken in.
   */
  lemma {:induction false} RefillRunShifts<T>(ts: seq<seq<T>>, carry: Option<T>)
    ensures CarryList(RefillRun(ts, carry).1) + Flatten(RefillRun(ts, carry).0) == Flatten(ts) + CarryList(carry)
  {
    if ts != [] {
      var k := |ts| - 1;
      var last := ts[k];
      var rc := RefillRun(ts[..k], Handed(last, carry));
      RefillRunShifts(ts[..k], Handed(last, carry));
      var v := Refilled(last, carry);
      FlattenConcat(rc.0, [v]);
      FlattenOne(v);
      assert ts == ts[..k] + [last];
      FlattenConcat(ts[..k], [last]);
      FlattenOne(last);
      HandedRefilled(last, carry);
      calc {
        CarryList(rc.1) + Flatten(rc.0 + [v]);
        (CarryList(rc.1) + Flatten(rc.0)) + v;
        (Flatten(ts[..k]) + CarryList(Handed(last, carry))) + v;
        Flatten(ts[..k]) + (CarryList(Handed(last, carry)) + v);
        Flatten(ts[..k]) + (last + CarryList(carry));
      }
    }
  }

  /**
   * When every tier of the run holds an element, the first tier's first
   * element comes out, the last tier loses one and gains the carry, and the
   * tiers in between keep their length.
   */
  lemma {:induction false} RefillRunLengths<T>(ts: seq<seq<T>>, carry: Option<T>)
    requires ts != [] && forall j :: 0 <= j < |ts| ==> ts[j] != []
    ensures RefillRun(ts, carry).1 == Some(ts[0][0])
    ensures |RefillRun(ts, carry).0[|ts| - 1]| == |ts[|ts| - 1]| - 1 + |CarryList(carry)|
    ensures forall j :: 0 <= j < |ts| - 1 ==> |RefillRun(ts, carry).0[j]| == |ts[j]|
  {
    var k := |ts| - 1;
    if k > 0 {
      RefillRunLengths(ts[..k], Some(ts[k][0]));
    }
  }
}
