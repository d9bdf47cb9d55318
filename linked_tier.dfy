// The tier of src/linked/tier.rs: the same ring buffer as the canonical tier
// with a panicking API. What the crate asserts (not full before a push, not
// empty before a pop, full before a pop-push) becomes a precondition, and
// so does what an unchecked read of an uninitialised slot would need (a
// rank inside the window for `remove` and `Index`).
//
// Its `insert` always shifts toward the tail with the wrap-safe loop, it has
// the two pop-push operations, its `merge` does not rotate the tier to slot
// 0 before growing the buffer, and its `drop` pops from the back `len`
// times.
module LinkedTier {
  import opened Ring
  import opened Wrappers
  import opened Seqs
  import opened Slots

  /** Reading every slot from a cursor depends only on the cursor's slot. */
  lemma SameHeadSlot<T>(buf: seq<Option<T>>, h1: int, h2: int)
    requires |buf| > 0 && h1 % |buf| == h2 % |buf|
    ensures ByRank(buf, h1) == ByRank(buf, h2)
  {
    ByRankIsRotation(buf, h1);
    ByRankIsRotation(buf, h2);
  }

  /** A window whose slots all hold elements has no free slot at any of its ranks. */
  lemma LiveSlot<T>(buf: seq<Option<T>>, head: int, len: nat, j: nat)
    requires j < len <= |buf|
    ensures Live(buf, head, len) ==> buf[SlotOf(head, j, |buf|)].Some?
  {
    if Live(buf, head, len) {
      SlotOfElement(buf, head, len, j);
    }
  }

  /**
   * A cursor below slot c of a power-of-two ring of capacity cap is at the
   * same slot of the smaller power-of-two ring of capacity c.
   */
  lemma SameSlotOfSmaller(head: int, c: nat, cap: nat)
    requires IsPowerOfTwo(c) && IsPowerOfTwo(cap) && c <= cap && head % cap < c
    ensures head % c == head % cap
  {
    PowerOfTwoDivides(c, cap);
    ResidueOfResidue(head, c, cap);
    ModSmall(head % cap, c);
  }

  /**
   * A buffer grown at its end by `n` free slots, read from a cursor whose
   * slot is the same in both buffers and whose window ends at or before the
   * old end, lists the elements it listed before; so does an empty window
   * wherever it starts.
   */
  lemma GrownInPlace<T>(buf: seq<Option<T>>, head: int, len: nat, n: nat)
    requires 0 < |buf| && len <= |buf| && Live(buf, head, len) && Dead(buf, head, len)
    requires len == 0 || (head % |buf| == head % (|buf| + n) && head % |buf| + len <= |buf|)
    ensures Live(buf + Uninit(n), head, len) && Dead(buf + Uninit(n), head, len)
    ensures Contents(buf + Uninit(n), head, len) == Contents(buf, head, len)
  {
    if len == 0 {
      GrownEmptyWindow(buf, head, n);
    } else {
      GrownLiveWindow(buf, head, len, n);
    }
  }

  /** An empty window stays empty, and every slot free, when free slots are appended. */
  lemma GrownEmptyWindow<T>(buf: seq<Option<T>>, head: int, n: nat)
    requires 0 < |buf| && Live(buf, head, 0) && Dead(buf, head, 0)
    ensures Live(buf + Uninit(n), head, 0) && Dead(buf + Uninit(n), head, 0)
    ensures Contents(buf + Uninit(n), head, 0) == Contents(buf, head, 0)
  {
    var nb := buf + Uninit(n);
    var c := |buf|;
    var m := head % c;
    ByRankIsRotation(buf, head);
    ByRankIsRotation(nb, head);
    Split(buf, head, 0);
    var free := ByRank(buf, head)[0..];
    forall i | 0 <= i < c ensures buf[i] == None {
      if i >= m {
        assert buf[i] == free[i - m];
      } else {
        assert buf[i] == free[c - m + i];
      }
    }
    var mn := head % |nb|;
    assert ByRank(nb, head) == [] + (nb[mn..] + nb[..mn]);
    ListedAs(nb, head, 0, [], nb[mn..] + nb[..mn]);
  }

  /** A window that ends at or before the old end keeps its slots when free slots are appended. */
  lemma GrownLiveWindow<T>(buf: seq<Option<T>>, head: int, len: nat, n: nat)
    requires 0 < len <= |buf| && Live(buf, head, len) && Dead(buf, head, len)
    requires head % |buf| == head % (|buf| + n) && head % |buf| + len <= |buf|
    ensures Live(buf + Uninit(n), head, len) && Dead(buf + Uninit(n), head, len)
    ensures Contents(buf + Uninit(n), head, len) == Contents(buf, head, len)
  {
    var nb := buf + Uninit(n);
    var c := |buf|;
    var m := head % c;
    ByRankIsRotation(buf, head);
    ByRankIsRotation(nb, head);
    Split(buf, head, len);
    var free := ByRank(buf, head)[len..];
    var live := buf[m..m + len];
    var rest := buf[m + len..] + Uninit(n) + buf[..m];
    assert buf[m..] == live + buf[m + len..];
    assert ByRank(buf, head) == live + (buf[m + len..] + buf[..m]);
    assert ByRank(buf, head)[..len] == live;
    assert free == buf[m + len..] + buf[..m];
    GrownRestFree(buf, free, m, len, n);
    assert nb[m..] == buf[m..] + Uninit(n) && nb[..m] == buf[..m];
    assert ByRank(nb, head) == live + rest;
    ListedAs(nb, head, len, live, rest);
  }

  /** The free slots after the window, the new slots and the free slots before it are all free. */
  lemma GrownRestFree<T>(buf: seq<Option<T>>, free: seq<Option<T>>, m: nat, len: nat, n: nat)
    requires m + len <= |buf| && free == buf[m + len..] + buf[..m] && AllNone(free)
    ensures AllNone(buf[m + len..] + Uninit(n) + buf[..m])
  {
    var c := |buf|;
    var rest := buf[m + len..] + Uninit(n) + buf[..m];
    forall i | 0 <= i < |rest| ensures rest[i] == None {
      if i < c - m - len {
        assert rest[i] == free[i];
      } else if i >= c - m - len + n {
        assert rest[i] == free[i - n];
      }
    }
  }

  /**
   * The first rank of a window starting at grown-buffer slot `head % cap`
   * whose slot is at or past the old capacity c: rank 0 if the head slot is
   * already there, else the rank that reaches slot c.
   */
  function HoleRank(head: int, c: nat, cap: nat): nat
    requires cap > 0
  {
    if head % cap >= c then 0 else c - head % cap
  }

  /** The slot the back cursor writes at is never the slot of an earlier rank. */
  lemma TailSlotMisses(h: int, j: nat, len: nat, k: nat, cap: nat)
    requires 0 < cap && len + k < cap
    ensures j < len ==> SlotOf(h, j, cap) != Mask(h + len + k, cap)
  {
    if j < len {
      SlotsDistinct(h, j, len + k, cap);
    }
  }

  /**
   * After n free slots are appended to a buffer of c slots, a window of len
   * elements that starts at grown-buffer slot m with m + len > c has a rank
   * below len whose slot is one of the new, free ones.
   */
  lemma GrownHole<T>(buf: seq<Option<T>>, head: int, len: nat, n: nat)
    requires 0 < |buf| && 0 < len <= |buf| && n > 0
    requires head % (|buf| + n) + len > |buf|
    ensures HoleRank(head, |buf|, |buf| + n) < len
    ensures (buf + Uninit(n))[SlotOf(head, HoleRank(head, |buf|, |buf| + n), |buf| + n)] == None
  {
    var c, cap := |buf|, |buf| + n;
    var m := head % cap;
    if m < c {
      assert head + (c - m) == c + cap * (head / cap);
      ModAddMultiple(c, head / cap, cap);
      ModSmall(c, cap);
    }
  }

  // ---------------------------------------------------------------------------
  // The slot-level steps of the tier's operations. Each takes the slots and
  // the cursors and returns them as the operation leaves them.

  /** `pop_push_front(x)` on the slots of a full tier. */
  method PopPushFrontSlots<T>(buf: seq<Option<T>>, head: int, tail: int, x: T)
    returns (y: T, nb: seq<Option<T>>, nhead: int, ntail: int)
    requires 0 < tail - head == |buf| && Live(buf, head, tail - head) && Dead(buf, head, tail - head)
    ensures nhead == head - 1 && ntail == tail - 1 && nb == buf[Mask(head - 1, |buf|) := Some(x)]
    ensures Live(nb, nhead, ntail - nhead) && Dead(nb, nhead, ntail - nhead)
    ensures var s := Contents(buf, head, tail - head);
      y == s[|s| - 1] && Contents(nb, nhead, ntail - nhead) == [x] + s[..|s| - 1]
  {
    var slot, nb1, nt := PopBackSlots(buf, head, tail);
    ModAddMultiple(head - 1, 1, |buf|);
    var nb2, nh, _ := PushFrontSlots(nb1, head, nt, x);
    y, nb, nhead, ntail := slot.value, nb2, nh, nt;
  }

  /** `pop_push_back(x)` on the slots of a full tier. */
  method PopPushBackSlots<T>(buf: seq<Option<T>>, head: int, tail: int, x: T)
    returns (y: T, nb: seq<Option<T>>, nhead: int, ntail: int)
    requires 0 < tail - head == |buf| && Live(buf, head, tail - head) && Dead(buf, head, tail - head)
    ensures nhead == head + 1 && ntail == tail + 1 && nb == buf[Mask(tail, |buf|) := Some(x)]
    ensures Live(nb, nhead, ntail - nhead) && Dead(nb, nhead, ntail - nhead)
    ensures var s := Contents(buf, head, tail - head);
      y == s[0] && Contents(nb, nhead, ntail - nhead) == s[1..] + [x]
  {
    var slot, nb1, nh := PopFrontSlots(buf, head, tail);
    ModAddMultiple(head, 1, |buf|);
    var nb2, nt, _ := PushBackSlots(nb1, nh, tail, x);
    y, nb, nhead, ntail := slot.value, nb2, nh, nt;
  }

  /**
   * The branches of `insert(rank, x)` on the slots: at the masked tail
   * `push_back`, at the masked head `push_front`, otherwise the wrap-safe
   * shift toward the tail and a write at the masked rank.
   */
  method InsertSlots<T>(buf: seq<Option<T>>, head: int, tail: int, rank: nat, x: T)
    returns (nb: seq<Option<T>>, nhead: int, ntail: int)
    requires 0 <= tail - head < |buf| && Live(buf, head, tail - head) && Dead(buf, head, tail - head)
    requires rank % |buf| <= tail - head
    ensures |nb| == |buf| && ntail - nhead == tail - head + 1
    ensures Live(nb, nhead, ntail - nhead) && Dead(nb, nhead, ntail - nhead)
    ensures Contents(nb, nhead, ntail - nhead) == InsertAt(Contents(buf, head, tail - head), rank % |buf|, x)
  {
    var cap := |buf|;
    var mh, mt, mr := Mask(head, cap), Mask(tail, cap), Mask(head + rank, cap);
    ghost var rr, len, s := rank % cap, tail - head, Contents(buf, head, tail - head);
    SlotOfReduces(head, rank, cap);
    if mt == mr {
      assert rr == len by {
        if rr != len { SlotsDistinct(head, rr, len, cap); }
      }
      assert InsertAt(s, len, x) == s + [x];
      var idx;
      nb, ntail, idx := PushBackSlots(buf, head, tail, x);
      nhead := head;
    } else if mh == mr {
      assert rr == 0 by {
        if rr != 0 { SlotsDistinct(head, rr, 0, cap); }
      }
      assert InsertAt(s, 0, x) == [x] + s;
      var idx;
      nb, nhead, idx := PushFrontSlots(buf, head, tail, x);
      ntail := tail;
    } else {
      nb, ntail := ShiftAroundToTailAndSet(buf, head, tail, mr, rr, x);
      nhead := head;
    }
  }

  /**
   * The branches of `remove(rank)` on the slots: take the element; at the
   * masked head move the head on, otherwise close the gap with the loop
   * guard `i > gap`, which leaves the gap open when the window wraps below
   * it. A rank inside the window is never at the masked tail.
   */
  method RemoveSlots<T>(buf: seq<Option<T>>, head: int, tail: int, rank: nat)
    returns (x: T, nb: seq<Option<T>>, nhead: int, ntail: int)
    requires 0 < tail - head <= |buf| && Live(buf, head, tail - head) && Dead(buf, head, tail - head)
    requires rank % |buf| < tail - head
    ensures |nb| == |buf| && x == Contents(buf, head, tail - head)[rank % |buf|]
    ensures !GapWraps(head, tail - head, |buf|, rank % |buf|) ==>
      ntail - nhead == tail - head - 1 && Live(nb, nhead, ntail - nhead) && Dead(nb, nhead, ntail - nhead)
      && Contents(nb, nhead, ntail - nhead) == RemoveAt(Contents(buf, head, tail - head), rank % |buf|)
    ensures GapWraps(head, tail - head, |buf|, rank % |buf|) ==>
      nhead == head && ntail == tail - 1 && nb == buf[SlotOf(head, rank % |buf|, |buf|) := None]
      && !Live(nb, nhead, ntail - nhead)
  {
    var cap := |buf|;
    var mr := Mask(head + rank, cap);
    ghost var rr: nat, s := rank % cap, Contents(buf, head, tail - head);
    SlotOfReduces(head, rank, cap);
    assert SlotOf(head, tail - head, cap) == Mask(tail, cap);
    if tail - head < cap {
      SlotsDistinct(head, rr, tail - head, cap);
    } else {
      ModAddMultiple(head, 1, cap);
    }
    assert mr == Mask(tail, cap) ==> mr == Mask(head, cap);
    if mr == Mask(head, cap) {
      assert rr == 0 by {
        if rr != 0 { SlotsDistinct(head, rr, 0, cap); }
      }
      assert RemoveAt(s, 0) == s[1..] && !GapWraps(head, tail - head, cap, rr);
      var slot;
      slot, nb, nhead := PopFrontSlots(buf, head, tail);
      x, ntail := slot.value, tail;
    } else if mr == Mask(tail, cap) {
      assert false;
    } else {
      var slot;
      slot, nb, ntail := TakeAndCloseGap(buf, head, tail, mr, rr);
      x, nhead := slot.value, head;
    }
  }

  /** `remove(rank)` on the slots with the gap always closed. */
  method RemoveSlotsCorrected<T>(buf: seq<Option<T>>, head: int, tail: int, rank: nat)
    returns (x: T, nb: seq<Option<T>>, nhead: int, ntail: int)
    requires 0 < tail - head <= |buf| && Live(buf, head, tail - head) && Dead(buf, head, tail - head)
    requires rank % |buf| < tail - head
    ensures |nb| == |buf| && ntail - nhead == tail - head - 1
    ensures Live(nb, nhead, ntail - nhead) && Dead(nb, nhead, ntail - nhead)
    ensures x == Contents(buf, head, tail - head)[rank % |buf|]
    ensures Contents(nb, nhead, ntail - nhead) == RemoveAt(Contents(buf, head, tail - head), rank % |buf|)
  {
    var cap := |buf|;
    var mr := Mask(head + rank, cap);
    ghost var rr: nat, s := rank % cap, Contents(buf, head, tail - head);
    SlotOfReduces(head, rank, cap);
    if mr == Mask(head, cap) {
      assert rr == 0 by {
        if rr != 0 { SlotsDistinct(head, rr, 0, cap); }
      }
      assert RemoveAt(s, 0) == s[1..];
      var slot;
      slot, nb, nhead := PopFrontSlots(buf, head, tail);
      x, ntail := slot.value, tail;
    } else {
      var slot;
      slot, nb, ntail := TakeAndCloseGapWrapSafe(buf, head, tail, mr, rr);
      x, nhead := slot.value, head;
    }
  }

  /**
   * `push_back`'s two steps on any slots: store `x` at the masked tail and
   * move the tail on. On a live window over dead slots this appends `x`.
   */
  method PushBackAnySlots<T>(buf: seq<Option<T>>, head: int, tail: int, x: T) returns (nb: seq<Option<T>>, ntail: int)
    requires 0 <= tail - head < |buf|
    ensures ntail == tail + 1 && nb == buf[Mask(tail, |buf|) := Some(x)]
    ensures Live(buf, head, tail - head) && Dead(buf, head, tail - head) ==>
      Live(nb, head, ntail - head) && Dead(nb, head, ntail - head)
      && Contents(nb, head, ntail - head) == Contents(buf, head, tail - head) + [x]
  {
    nb := buf[Mask(tail, |buf|) := Some(x)];
    ntail := tail + 1;
    if Live(buf, head, tail - head) && Dead(buf, head, tail - head) {
      PushBackListing(buf, head, tail - head, x, nb, ntail - head);
    }
  }

  /**
   * Two windows, each live over dead slots, that list `all` between them,
   * this one's elements first.
   */
  ghost predicate Conserved<T>(buf: seq<Option<T>>, head: int, tail: int, obuf: seq<Option<T>>, ohead: int, otail: int, all: seq<T>)
  {
    0 <= tail - head <= |buf| && 0 < |buf| && 0 <= otail - ohead <= |obuf| && 0 < |obuf|
    && Live(buf, head, tail - head) && Dead(buf, head, tail - head)
    && Live(obuf, ohead, otail - ohead) && Dead(obuf, ohead, otail - ohead)
    && Contents(buf, head, tail - head) + Contents(obuf, ohead, otail - ohead) == all
  }

  /**
   * One turn of the loop of `merge` on the slots of two tiers:
   * `push_back(other.pop_front())`. The element moves from the front of
   * the other window to the back of this one, so the two windows together
   * list the same elements.
   */
  method MoveSlots<T>(buf: seq<Option<T>>, head: int, tail: int, obuf: seq<Option<T>>, ohead: int, otail: int, ghost all: seq<T>)
    returns (nb: seq<Option<T>>, ntail: int, nob: seq<Option<T>>, nohead: int)
    requires 0 <= tail - head < |buf| && 0 < otail - ohead <= |obuf|
    requires Live(obuf, ohead, otail - ohead) && Dead(obuf, ohead, otail - ohead)
    ensures ntail == tail + 1 && nohead == ohead + 1 && |nob| == |obuf|
    ensures Live(nob, nohead, otail - nohead) && Dead(nob, nohead, otail - nohead)
    ensures nb == buf[Mask(tail, |buf|) := Some(Contents(obuf, ohead, otail - ohead)[0])]
    ensures Conserved(buf, head, tail, obuf, ohead, otail, all) ==> Conserved(nb, head, ntail, nob, nohead, otail, all)
  {
    ghost var o := Contents(obuf, ohead, otail - ohead);
    var x;
    x, nob, nohead := PopFrontSlots(obuf, ohead, otail);
    nb, ntail := PushBackAnySlots(buf, head, tail, x.value);
    if Live(buf, head, tail - head) && Dead(buf, head, tail - head) {
      ghost var e := Contents(buf, head, tail - head);
      assert e + o == (e + [o[0]]) + o[1..];
    }
  }

  /** Once the other window is empty, this one lists everything. */
  lemma Drained<T>(buf: seq<Option<T>>, head: int, tail: int, obuf: seq<Option<T>>, otail: int, all: seq<T>)
    requires Conserved(buf, head, tail, obuf, otail, otail, all)
    ensures Live(buf, head, tail - head) && Dead(buf, head, tail - head) && Contents(buf, head, tail - head) == all
  {
    assert Contents(obuf, otail, 0) == [];
    assert Contents(buf, head, tail - head) + [] == Contents(buf, head, tail - head);
  }

  /**
   * The loop of `merge` on slots: `push_back(other.pop_front())` as many
   * times as the other tier had elements. The two windows together keep
   * listing the same elements, and the slot of rank `j` of this window,
   * which the loop never writes, keeps what it held.
   */
  method MoveAllSlots<T>(buf: seq<Option<T>>, head: int, tail: int, obuf: seq<Option<T>>, ohead: int, otail: int, ghost j: nat, ghost all: seq<T>)
    returns (nb: seq<Option<T>>, ntail: int, nob: seq<Option<T>>, nohead: int)
    requires 0 <= tail - head && tail - head + (otail - ohead) <= |buf| && j < |buf|
    requires 0 < |obuf| && 0 <= otail - ohead <= |obuf| && Live(obuf, ohead, otail - ohead) && Dead(obuf, ohead, otail - ohead)
    ensures |nb| == |buf| && ntail == tail + (otail - ohead)
    ensures |nob| == |obuf| && nohead == otail && Live(nob, nohead, 0) && Dead(nob, nohead, 0)
    ensures Conserved(buf, head, tail, obuf, ohead, otail, all) ==> Conserved(nb, head, ntail, nob, nohead, otail, all)
    ensures j < tail - head ==> nb[SlotOf(head, j, |buf|)] == buf[SlotOf(head, j, |buf|)]
  {
    ghost var cap, len := |buf|, tail - head;
    ghost var p := SlotOf(head, j, cap);
    nb, ntail, nob, nohead := buf, tail, obuf, ohead;
    var n := otail - ohead;
    var k := 0;
    while k < n
      invariant 0 <= k <= n && ntail == tail + k && nohead == ohead + k && |nob| == |obuf| && |nb| == cap
      invariant Live(nob, nohead, otail - nohead) && Dead(nob, nohead, otail - nohead)
      invariant Conserved(buf, head, tail, obuf, ohead, otail, all) ==> Conserved(nb, head, ntail, nob, nohead, otail, all)
      invariant j < len ==> nb[p] == buf[p]
    {
      TailSlotMisses(head, j, len, k, cap);
      nb, ntail, nob, nohead := MoveSlots(nb, head, ntail, nob, nohead, otail, all);
      k := k + 1;
    }
  }

  /**
   * The window of `len` ranks from `head`, read in a buffer of `cap` slots,
   * is empty or lies within its first `c` slots.
   */
  predicate WindowFits(head: int, len: int, c: nat, cap: nat)
    requires cap > 0
  {
    len == 0 || Mask(head, cap) + len <= c
  }

  /**
   * Growing the buffer keeps a window that fits in the old slots as it was,
   * and puts a free slot under some rank of any other window.
   */
  lemma GrownWindow<T>(buf: seq<Option<T>>, head: int, len: nat, n: nat)
    requires IsPowerOfTwo(|buf|) && IsPowerOfTwo(|buf| + n) && n > 0
    requires len <= |buf| && Live(buf, head, len) && Dead(buf, head, len)
    ensures WindowFits(head, len, |buf|, |buf| + n) ==>
      Live(buf + Uninit(n), head, len) && Dead(buf + Uninit(n), head, len)
      && Contents(buf + Uninit(n), head, len) == Contents(buf, head, len)
    ensures !WindowFits(head, len, |buf|, |buf| + n) ==>
      HoleRank(head, |buf|, |buf| + n) < len
      && (buf + Uninit(n))[SlotOf(head, HoleRank(head, |buf|, |buf| + n), |buf| + n)] == None
  {
    PowerOfTwoPositive(|buf|);
    if WindowFits(head, len, |buf|, |buf| + n) {
      if len > 0 {
        SameSlotOfSmaller(head, |buf|, |buf| + n);
      }
      GrownInPlace(buf, head, len, n);
    } else {
      GrownHole(buf, head, len, n);
    }
  }

  /**
   * `merge` as written, on slots: the buffer grows by the other tier's
   * capacity (`reserve_exact` and `set_len`: new slots uninitialised) and
   * then the other tier's elements are moved over one by one. The cursors
   * are not rotated first. When the window, read in the grown buffer, fits
   * in the old slots, the result lists this tier's elements followed by the
   * other's; otherwise one of its ranks now reads a new, uninitialised slot
   * and the window is no longer live.
   */
  method MergeSlots<T>(buf: seq<Option<T>>, head: int, tail: int, obuf: seq<Option<T>>, ohead: int, otail: int)
    returns (nb: seq<Option<T>>, ntail: int, nob: seq<Option<T>>, nohead: int)
    requires IsPowerOfTwo(|buf|) && IsPowerOfTwo(|buf| + |obuf|)
    requires 0 <= tail - head <= |buf| && Live(buf, head, tail - head) && Dead(buf, head, tail - head)
    requires 0 < |obuf| && 0 <= otail - ohead <= |obuf| && Live(obuf, ohead, otail - ohead) && Dead(obuf, ohead, otail - ohead)
    ensures |nb| == |buf| + |obuf| && ntail == tail + (otail - ohead) && 0 <= ntail - head <= |nb|
    ensures |nob| == |obuf| && nohead == otail && Live(nob, nohead, 0) && Dead(nob, nohead, 0)
    ensures WindowFits(head, tail - head, |buf|, |nb|) ==>
      Live(nb, head, ntail - head) && Dead(nb, head, ntail - head)
      && Contents(nb, head, ntail - head) == Contents(buf, head, tail - head) + Contents(obuf, ohead, otail - ohead)
    ensures !WindowFits(head, tail - head, |buf|, |nb|) ==>
      nb[SlotOf(head, HoleRank(head, |buf|, |nb|), |nb|)] == None && !Live(nb, head, ntail - head)
  {
    var grown := buf + Uninit(|obuf|);
    ghost var len := tail - head;
    ghost var fits := WindowFits(head, len, |buf|, |grown|);
    ghost var j := if fits then 0 else HoleRank(head, |buf|, |grown|);
    GrownWindow(buf, head, len, |obuf|);
    ghost var all := Contents(buf, head, len) + Contents(obuf, ohead, otail - ohead);
    nb, ntail, nob, nohead := MoveAllSlots(grown, head, tail, obuf, ohead, otail, j, all);
    if fits {
      Drained(nb, head, ntail, nob, otail, all);
    } else {
      assert nb[SlotOf(head, j, |nb|)] == None;
      LiveSlot(nb, head, ntail - head, j);
    }
  }

  class Tier<T> {
    var buffer: seq<Option<T>>
    var head: int
    var tail: int

    /** A power-of-two buffer; the window's slots hold elements and no other slot does. */
    ghost predicate Valid()
      reads this
    {
      IsPowerOfTwo(|buffer|) && 0 <= tail - head <= |buffer|
      && Live(buffer, head, tail - head) && Dead(buffer, head, tail - head)
    }

    /** The elements, by rank. */
    function Elements(): seq<T>
      reads this
      requires Valid()
    {
      Contents(buffer, head, tail - head)
    }

    /** `Tier::new`: an empty tier; the capacity must be a power of two. */
    constructor(capacity: nat)
      requires IsPowerOfTwo(capacity)
      ensures Valid() && Elements() == [] && |buffer| == capacity && head == 0 && tail == 0
    {
      buffer := Uninit(capacity);
      head, tail := 0, 0;
      new;
      ByRankIsRotation(buffer, 0);
      ListedAs(buffer, 0, 0, [], buffer);
    }

    /** A tier assembled from its parts, as `split_half` and `clone` build theirs. */
    constructor FromParts(buf: seq<Option<T>>, h: int, t: int)
      ensures buffer == buf && head == h && tail == t
    {
      buffer, head, tail := buf, h, t;
    }

    /** `capacity`: the number of slots, a power of two that bounds the length. */
    function Capacity(): (c: nat)
      reads this
      ensures Valid() ==> IsPowerOfTwo(c) && |Elements()| <= c
    {
      |buffer|
    }

    /** `len`: the number of elements, `tail - head`. */
    function Len(): (n: int)
      reads this
      requires Valid()
      ensures n == |Elements()|
    {
      tail - head
    }

    function IsEmpty(): (b: bool)
      reads this
      requires Valid()
      ensures b <==> Elements() == []
    {
      head == tail
    }

    function IsFull(): (b: bool)
      reads this
      requires Valid()
      ensures b <==> |Elements()| == Capacity()
    {
      Len() == Capacity()
    }

    /** `masked_rank`: the slot of rank `rank`, which is taken modulo the capacity. */
    function MaskedRank(rank: nat): (m: nat)
      reads this
      requires Valid()
      ensures m < Capacity() && m == SlotOf(head, rank % Capacity(), Capacity())
      ensures rank % Capacity() < Len() ==> buffer[m] == Some(Elements()[rank % Capacity()])
    {
      SlotOfReduces(head, rank, |buffer|);
      if rank % |buffer| < tail - head then
        SlotOfElement(buffer, head, tail - head, rank % |buffer|);
        Mask(head + rank, |buffer|)
      else
        Mask(head + rank, |buffer|)
    }

    /**
     * `contains_masked_rank`: always when full, inside [masked_head,
     * masked_tail) when those are in order, outside [masked_tail,
     * masked_head) otherwise. On an empty tier the two coincide and the
     * in-order case holds nothing.
     */
    function ContainsMaskedRank(m: nat): (b: bool)
      reads this
      requires Valid() && m < Capacity()
      ensures b <==> RankOf(head, m, Capacity()) < |Elements()|
    {
      WindowByMaskedCursors(head, tail, |buffer|, m);
      var mh, mt := Mask(head, |buffer|), Mask(tail, |buffer|);
      if IsFull() then true
      else if mh <= mt then mh <= m < mt
      else m >= mh || m < mt
    }

    /** `contains_rank`: rank `rank` (modulo the capacity) holds an element. */
    function ContainsRank(rank: nat): (b: bool)
      reads this
      requires Valid()
      ensures b <==> rank % Capacity() < |Elements()|
    {
      SlotRankRoundTrip(head, rank % |buffer|, |buffer|);
      ContainsMaskedRank(MaskedRank(rank))
    }

    /** `get`: the element in slot `idx`, if the slot holds one. */
    function Get(idx: nat): (r: Option<T>)
      reads this
      requires Valid() && idx < Capacity()
      ensures r.Some? <==> RankOf(head, idx, Capacity()) < |Elements()|
      ensures r.Some? ==> r.value == Elements()[RankOf(head, idx, Capacity())]
    {
      if !ContainsMaskedRank(idx) then None
      else
        RankSlotRoundTrip(head, idx, |buffer|);
        SlotOfElement(buffer, head, tail - head, RankOf(head, idx, |buffer|));
        Some(buffer[idx].value)
    }

    /** `get_by_rank`: the element of rank `rank` (modulo the capacity), if there is one. */
    function GetByRank(rank: nat): (r: Option<T>)
      reads this
      requires Valid()
      ensures r == if rank % Capacity() < |Elements()| then Some(Elements()[rank % Capacity()]) else None
    {
      SlotRankRoundTrip(head, rank % |buffer|, |buffer|);
      Get(MaskedRank(rank))
    }

    /** `Index`: the slot of rank `rank` read without a check, so the rank must hold an element. */
    function Index(rank: nat): (x: T)
      reads this
      requires Valid() && rank % Capacity() < |Elements()|
      ensures x == Elements()[rank % Capacity()]
    {
      buffer[MaskedRank(rank)].value
    }

    // -------------------------------------------------------------------------
    // Deque operations at both ends.

    /**
     * `push_back`: store `e` at the masked tail and move the tail on. The
     * crate asserts only that the tier is not full; on a tier whose window
     * is intact the element is appended.
     */
    method PushBack(e: T)
      requires 0 <= tail - head < |buffer|
      modifies this
      ensures head == old(head) && tail == old(tail) + 1
      ensures buffer == old(buffer)[Mask(old(tail), old(|buffer|)) := Some(e)]
      ensures old(Valid()) ==> Valid() && Elements() == old(Elements()) + [e]
    {
      buffer, tail := PushBackAnySlots(buffer, head, tail, e);
    }

    /** `push_front`: move the head back one slot and store `e` there. */
    method PushFront(e: T)
      requires Valid() && !IsFull()
      modifies this
      ensures Valid() && |buffer| == old(|buffer|) && head == old(head) - 1 && tail == old(tail)
      ensures Elements() == [e] + old(Elements())
    {
      var nb, nh, _ := PushFrontSlots(buffer, head, tail, e);
      buffer, head := nb, nh;
    }

    /** `pop_front`: take the first element and move the head on. */
    method PopFront() returns (x: T)
      requires Valid() && !IsEmpty()
      modifies this
      ensures Valid() && |buffer| == old(|buffer|) && head == old(head) + 1 && tail == old(tail)
      ensures x == old(Elements())[0] && Elements() == old(Elements())[1..]
    {
      var slot;
      slot, buffer, head := PopFrontSlots(buffer, head, tail);
      x := slot.value;
    }

    /** `pop_back`: move the tail back and take the element it then points at. */
    method PopBack() returns (x: T)
      requires Valid() && !IsEmpty()
      modifies this
      ensures Valid() && |buffer| == old(|buffer|) && head == old(head) && tail == old(tail) - 1
      ensures x == old(Elements())[old(Len()) - 1] && Elements() == old(Elements())[..old(Len()) - 1]
    {
      var slot;
      slot, buffer, tail := PopBackSlots(buffer, head, tail);
      x := slot.value;
    }

    /**
     * `pop_push_front(e)` on a full tier: both cursors move back one, and
     * the slot the head lands on, which held the last element, gets `e`. The
     * last element is handed back and `e` becomes the first.
     */
    method PopPushFront(e: T) returns (x: T)
      requires Valid() && IsFull()
      modifies this
      ensures Valid() && |buffer| == old(|buffer|) && head == old(head) - 1 && tail == old(tail) - 1
      ensures buffer == old(buffer)[Mask(old(head) - 1, old(|buffer|)) := Some(e)]
      ensures x == old(Elements())[old(Len()) - 1] && Elements() == [e] + old(Elements())[..old(Len()) - 1]
    {
      x, buffer, head, tail := PopPushFrontSlots(buffer, head, tail, e);
    }

    /**
     * `pop_push_back(e)` on a full tier: the slot at the masked tail, which
     * is the first element's, gets `e` and both cursors move on one. The
     * first element is handed back and `e` becomes the last.
     */
    method PopPushBack(e: T) returns (x: T)
      requires Valid() && IsFull()
      modifies this
      ensures Valid() && |buffer| == old(|buffer|) && head == old(head) + 1 && tail == old(tail) + 1
      ensures buffer == old(buffer)[Mask(old(tail), old(|buffer|)) := Some(e)]
      ensures x == old(Elements())[0] && Elements() == old(Elements())[1..] + [e]
    {
      x, buffer, head, tail := PopPushBackSlots(buffer, head, tail, e);
    }

    /** `rotate_reset`: rotate the buffer so that the first element sits in slot 0, and restart the cursors there. */
    method RotateReset()
      requires Valid()
      modifies this
      ensures Valid() && Elements() == old(Elements()) && |buffer| == old(|buffer|)
      ensures head == 0 && tail == old(tail - head)
    {
      tail := tail - head;
      buffer := RotatedToFront(buffer, head, tail);
      head := 0;
    }

    // -------------------------------------------------------------------------
    // Insertion and removal at a rank.

    /**
     * `insert(rank, e)`: at the masked tail it is `push_back`, at the masked
     * head `push_front`; anywhere else the ranks from `rank` on move one slot
     * toward the tail with the wrap-safe loop and `e` fills the slot so
     * vacated. Every insertion puts `e` at rank `rank`.
     */
    method Insert(rank: nat, e: T)
      requires Valid() && !IsFull() && rank % Capacity() <= |Elements()|
      modifies this
      ensures Valid() && |buffer| == old(|buffer|)
      ensures Elements() == InsertAt(old(Elements()), rank % |buffer|, e)
    {
      buffer, head, tail := InsertSlots(buffer, head, tail, rank, e);
    }

    /**
     * Removing rank `rank` leaves a gap: the window wraps past the end of the
     * buffer between that rank and the last.
     */
    ghost predicate RemoveLeavesGap(rank: nat)
      reads this
      requires Valid()
    {
      GapWraps(head, tail - head, |buffer|, rank % |buffer|)
    }

    /**
     * `remove(rank)` as written: the element of rank `rank` is taken; at the
     * masked head the head moves on, otherwise the gap is closed from the
     * tail side by a loop that runs while the slot index is above the gap.
     * When the window wraps between the gap and the last element that loop
     * does not run, the tail still moves back, and the tier is left with a
     * vacated slot inside its window. The branch for a rank at the masked
     * tail cannot be reached for a rank inside the window.
     */
    method Remove(rank: nat) returns (x: T)
      requires Valid() && rank % Capacity() < |Elements()|
      modifies this
      ensures |buffer| == old(|buffer|) && x == old(Elements())[rank % old(|buffer|)]
      ensures !old(RemoveLeavesGap(rank)) ==>
        Valid() && Elements() == RemoveAt(old(Elements()), rank % old(|buffer|))
      ensures old(RemoveLeavesGap(rank)) ==>
        !Valid() && head == old(head) && tail == old(tail) - 1
        && buffer == old(buffer)[SlotOf(old(head), rank % old(|buffer|), old(|buffer|)) := None]
    {
      var nb, nh, nt;
      x, nb, nh, nt := RemoveSlots(buffer, head, tail, rank);
      buffer, head, tail := nb, nh, nt;
    }

    /** `remove(rank)` with the gap always closed: the element of rank `rank` is taken out and the rest keep their order. */
    method RemoveCorrected(rank: nat) returns (x: T)
      requires Valid() && rank % Capacity() < |Elements()|
      modifies this
      ensures Valid() && |buffer| == old(|buffer|)
      ensures x == old(Elements())[rank % |buffer|] && Elements() == RemoveAt(old(Elements()), rank % |buffer|)
    {
      x, buffer, head, tail := RemoveSlotsCorrected(buffer, head, tail, rank);
    }

    // -------------------------------------------------------------------------
    // Merging, splitting, cloning and dropping.

    /**
     * `merge` as written: the buffer grows by the other tier's capacity
     * without first rotating this tier to slot 0, then the other tier's
     * elements are popped from its front and pushed at this tier's back.
     * The cursors are now masked by the larger capacity. When this tier is
     * empty or its window, read in the grown buffer, ends at or before the
     * old capacity, the result is this tier's elements followed by the
     * other's; otherwise the window runs past the old capacity, one of its
     * ranks reads a new, uninitialised slot and the tier is no longer
     * valid. `other` is taken by value and dropped, so only this tier's
     * new state is observable.
     */
    method Merge(other: Tier<T>)
      requires Valid() && other.Valid() && other != this
      requires IsPowerOfTwo(|buffer| + |other.buffer|)
      modifies this
      ensures |buffer| == old(|buffer| + |other.buffer|)
      ensures head == old(head) && tail == old(tail + other.tail - other.head)
      ensures WindowFits(old(head), old(tail - head), old(|buffer|), |buffer|) ==>
        Valid() && Elements() == old(Elements()) + old(other.Elements())
      ensures !WindowFits(old(head), old(tail - head), old(|buffer|), |buffer|) ==>
        !Valid() && buffer[SlotOf(old(head), HoleRank(old(head), old(|buffer|), |buffer|), |buffer|)] == None
    {
      var nb, nt, _, _ := MergeSlots(buffer, head, tail, other.buffer, other.head, other.tail);
      buffer, tail := nb, nt;
    }

    /**
     * `merge` as evidently intended, after `rotate_reset` as the canonical
     * tier does it: always this tier's elements followed by the other's.
     */
    method MergeCorrected(other: Tier<T>)
      requires Valid() && other.Valid() && other != this
      requires IsPowerOfTwo(|buffer| + |other.buffer|)
      modifies this
      ensures Valid() && |buffer| == old(|buffer| + |other.buffer|)
      ensures Elements() == old(Elements()) + old(other.Elements())
    {
      RotateReset();
      Merge(other);
    }

    /**
     * `split_half`: rotate so the head is at slot 0 and cut the buffer in
     * two at half the capacity. This tier keeps the lower half and the first
     * min(len, capacity / 2) elements; the returned tier gets the upper half,
     * with its head at 0 and the remaining elements.
     */
    method SplitHalf() returns (upper: Tier<T>)
      requires Valid() && |buffer| >= 2
      modifies this
      ensures fresh(upper) && Valid() && upper.Valid()
      ensures |buffer| == old(|buffer|) / 2 && |upper.buffer| == old(|buffer|) / 2
      ensures Elements() + upper.Elements() == old(Elements())
      ensures |Elements()| == if old(tail - head) < old(|buffer|) / 2 then old(tail - head) else old(|buffer|) / 2
    {
      RotateReset();
      var lower, newBuffer, newTail, remainingTail := SplitHalfSlots(buffer, tail - head);
      buffer, tail := lower, newTail;
      upper := new Tier.FromParts(newBuffer, 0, remainingTail);
    }

    /**
     * `clone`: a buffer of the same capacity into which the slot of each
     * cursor from head to tail gets a copy of the element `get` finds there;
     * the cursors are copied. The copy is slot for slot the original.
     */
    method Clone() returns (c: Tier<T>)
      requires Valid()
      ensures fresh(c) && c.buffer == buffer && c.head == head && c.tail == tail
      ensures c.Valid() && c.Elements() == Elements()
    {
      var nb := CopyWindow(buffer, head, tail);
      c := new Tier.FromParts(nb, head, tail);
    }

    /**
     * `drop`: `pop_back` `len` times, finalising every element once, last
     * to first, on a full tier too. The finalised elements are returned in
     * the order they were dropped.
     */
    method Drop() returns (dropped: seq<T>)
      requires Valid()
      modifies this
      ensures Valid() && Elements() == []
      ensures dropped == Reversed(old(Elements()))
    {
      ghost var s := Elements();
      var n := tail - head;
      dropped := [];
      var k := 0;
      while k < n
        invariant 0 <= k <= n == |s| && Valid() && Elements() == s[..n - k]
        invariant dropped == Reversed(s)[..k]
      {
        var x := PopBack();
        assert s[..n - k][..n - k - 1] == s[..n - (k + 1)];
        assert Reversed(s)[..k + 1] == Reversed(s)[..k] + [x];
        dropped := dropped + [x];
        k := k + 1;
      }
    }
  }

  // ---------------------------------------------------------------------------
  // Scenarios: the tier tests of src/linked/tier.rs and the input that shows
  // where `merge` as written parts from its evident intent.

  /** A tier of capacity `cap` filled with `xs` by `push_back`. */
  method Filled(cap: nat, xs: seq<int>) returns (t: Tier<int>)
    requires IsPowerOfTwo(cap) && |xs| <= cap
    ensures fresh(t) && t.Valid() && t.Elements() == xs && |t.buffer| == cap && t.head == 0 && t.tail == |xs|
  {
    t := new Tier(cap);
    var i := 0;
    while i < |xs|
      invariant i <= |xs| && t.Valid() && t.Elements() == xs[..i] && |t.buffer| == cap && t.head == 0 && t.tail == i
    {
      t.PushBack(xs[i]);
      assert xs[..i + 1] == xs[..i] + [xs[i]];
      i := i + 1;
    }
  }

  /** Test `insert_at_rank_shift_tail`: inserting 3 at rank 2 of [0, 1, 2] reads back 0, 1, 3, 2. */
  method InsertShiftTailExample() returns (got: seq<int>)
    ensures got == [0, 1, 3, 2]
  {
    SmallPowersOfTwo();
    var t := Filled(4, [0, 1, 2]);
    assert InsertAt([0, 1, 2], 2, 3) == [0, 1, 3, 2];
    t.Insert(2, 3);
    got := t.Elements();
  }

  /** Inserting 3 at rank 1 of [0, 1, 2]: the linked tier puts it at rank 1. */
  method InsertRankOneExample() returns (got: seq<int>)
    ensures got == [0, 3, 1, 2]
  {
    SmallPowersOfTwo();
    var t := Filled(4, [0, 1, 2]);
    assert InsertAt([0, 1, 2], 1, 3) == [0, 3, 1, 2];
    t.Insert(1, 3);
    got := t.Elements();
  }

  /** Test `remove_at_rank_1`: removing rank 1 of the full tier [0, 1, 2, 3] leaves 0, 2, 3. */
  method RemoveRankOneExample() returns (removed: int, got: seq<int>)
    ensures removed == 1 && got == [0, 2, 3]
  {
    SmallPowersOfTwo();
    var t := Filled(4, [0, 1, 2, 3]);
    assert SlotOf(0, 1, 4) == 1 && SlotOf(0, 3, 4) == 3;
    assert !GapWraps(0, 4, 4, 1);
    assert RemoveAt([0, 1, 2, 3], 1) == [0] + [2, 3];
    removed := t.Remove(1);
    got := t.Elements();
  }

  /** Pop-push on the full tier [0, 1, 2, 3] at either end. */
  method PopPushExample() returns (fromBack: int, front: seq<int>, fromFront: int, back: seq<int>)
    ensures fromBack == 3 && front == [9, 0, 1, 2]
    ensures fromFront == 9 && back == [0, 1, 2, 8]
  {
    SmallPowersOfTwo();
    var t := Filled(4, [0, 1, 2, 3]);
    assert t.IsFull();
    assert [0, 1, 2, 3][..3] == [0, 1, 2];
    fromBack := t.PopPushFront(9);
    front := t.Elements();
    assert front == [9, 0, 1, 2] && t.IsFull();
    assert front[1..] + [8] == [0, 1, 2, 8];
    fromFront := t.PopPushBack(8);
    back := t.Elements();
  }

  /** `drop` of a full tier of capacity 2 finalises both elements, the last first. */
  method DropFullExample() returns (dropped: seq<int>)
    ensures dropped == [6, 5]
  {
    SmallPowersOfTwo();
    var t := Filled(2, [5, 6]);
    dropped := t.Drop();
  }

  /**
   * A tier of capacity 2 that has taken two elements and given them back,
   * so that both cursors are at 2, then holds 7 in slot 0.
   */
  method Unrotated() returns (t: Tier<int>)
    ensures fresh(t) && t.Valid() && |t.buffer| == 2 && t.head == 2 && t.tail == 3 && t.Elements() == [7]
  {
    SmallPowersOfTwo();
    t := Filled(2, [0, 0]);
    var x := t.PopFront();
    x := t.PopFront();
    t.PushBack(7);
  }

  /**
   * That tier merged as written with an empty tier of capacity 2: its head
   * is now masked by 4 and reads slot 2, one of the new, uninitialised slots.
   */
  method MergeUnrotatedExample() returns (first: Option<int>)
    ensures first == None
  {
    var t := Unrotated();
    SmallPowersOfTwo();
    var o := Filled(2, []);
    t.Merge(o);
    assert HoleRank(2, 2, 4) == 0;
    first := t.buffer[Mask(t.head, |t.buffer|)];
  }

  /** The same merge after `rotate_reset` keeps the 7. */
  method MergeRotatedExample() returns (intended: seq<int>)
    ensures intended == [7]
  {
    var t := Unrotated();
    SmallPowersOfTwo();
    var o := Filled(2, []);
    t.MergeCorrected(o);
    intended := t.Elements();
  }
}
