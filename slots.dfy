// The slot buffer of a tier seen through its cursors, and the element-moving
// loops every tier variant shares.
//
// A buffer is a sequence of slots; `None` is an uninitialised (or moved-out)
// slot. Read from the head cursor onward, wrapping past the end of the
// buffer, the slots are listed by rank (ByRank): ranks 0 to len - 1 are the
// window holding the tier's elements, the ranks from len on are free.
//
// The loops here are written once and called by each tier: shift_to_head,
// the two versions of shift_to_tail (the one that stops at `i < masked_tail`
// and the wrap-safe one that stops at `i != masked_tail`), close_gap as the
// crate writes it (`i > gap`) and close_gap with the wrap-safe stop
// (`i != gap`). Each is specified by what it does to the slots listed by rank.
module Slots {
  import opened Ring
  import opened Wrappers
  import opened Seqs

  /** Every slot of the buffer, listed by rank from cursor `head`. */
  function ByRank<T>(buf: seq<Option<T>>, head: int): (w: seq<Option<T>>)
    requires |buf| > 0
    ensures |w| == |buf|
  {
    FirstRanks(buf, head, |buf|)
  }

  /** The slots of ranks 0 to n - 1. */
  function FirstRanks<T>(buf: seq<Option<T>>, head: int, n: nat): (w: seq<Option<T>>)
    requires 0 < |buf| && n <= |buf|
    ensures |w| == n
  {
    if n == 0 then [] else FirstRanks(buf, head, n - 1) + [buf[SlotOf(head, n - 1, |buf|)]]
  }

  lemma {:induction false} FirstRanksAt<T>(buf: seq<Option<T>>, head: int, n: nat, k: nat)
    requires 0 < |buf| && k < n <= |buf|
    ensures FirstRanks(buf, head, n)[k] == buf[SlotOf(head, k, |buf|)]
  {
    if k < n - 1 {
      FirstRanksAt(buf, head, n - 1, k);
    }
  }

  lemma ByRankSlot<T>(buf: seq<Option<T>>, head: int, k: nat)
    requires k < |buf|
    ensures ByRank(buf, head)[k] == buf[SlotOf(head, k, |buf|)]
  {
    FirstRanksAt(buf, head, |buf|, k);
  }

  /** Rank k of the listing is the slot `SlotOf(head, k)`. */
  lemma ByRankAt<T>(buf: seq<Option<T>>, head: int)
    requires |buf| > 0
    ensures forall k :: 0 <= k < |buf| ==> ByRank(buf, head)[k] == buf[SlotOf(head, k, |buf|)]
  {
    forall k | 0 <= k < |buf| ensures ByRank(buf, head)[k] == buf[SlotOf(head, k, |buf|)] {
      FirstRanksAt(buf, head, |buf|, k);
    }
  }

  /** The slots of the `len` elements, by rank. */
  function Window<T>(buf: seq<Option<T>>, head: int, len: nat): (w: seq<Option<T>>)
    requires 0 < |buf| && len <= |buf|
    ensures |w| == len
  {
    ByRank(buf, head)[..len]
  }

  predicate AllSome<T>(w: seq<Option<T>>)
  {
    forall k :: 0 <= k < |w| ==> w[k].Some?
  }

  predicate AllNone<T>(w: seq<Option<T>>)
  {
    forall k :: 0 <= k < |w| ==> w[k].None?
  }

  /** The elements held by a sequence of initialised slots. */
  function Values<T>(w: seq<Option<T>>): (v: seq<T>)
    requires AllSome(w)
    ensures |v| == |w| && forall k :: 0 <= k < |w| ==> w[k] == Some(v[k])
  {
    seq(|w|, k requires 0 <= k < |w| => w[k].value)
  }

  /** Every slot of the window holds an element. */
  predicate Live<T>(buf: seq<Option<T>>, head: int, len: nat)
    requires 0 < |buf| && len <= |buf|
  {
    AllSome(Window(buf, head, len))
  }

  /** Every slot outside the window is uninitialised. */
  predicate Dead<T>(buf: seq<Option<T>>, head: int, len: nat)
    requires 0 < |buf| && len <= |buf|
  {
    AllNone(ByRank(buf, head)[len..])
  }

  /** The elements of the window, first to last. */
  function Contents<T>(buf: seq<Option<T>>, head: int, len: nat): (s: seq<T>)
    requires 0 < |buf| && len <= |buf| && Live(buf, head, len)
    ensures |s| == len
  {
    Values(Window(buf, head, len))
  }

  /** The window has exactly one vacated slot, at rank `r`. */
  predicate LiveExceptAt<T>(buf: seq<Option<T>>, head: int, len: nat, r: nat)
    requires 0 < |buf| && len <= |buf|
  {
    var w := ByRank(buf, head);
    r < len && w[r] == None && forall k :: 0 <= k < len && k != r ==> w[k].Some?
  }

  /**
   * A listing made of `len` initialised slots followed by free slots is a
   * live window over dead slots, holding the values of the initialised ones.
   */
  lemma ListedAs<T>(buf: seq<Option<T>>, head: int, len: nat, live: seq<Option<T>>, free: seq<Option<T>>)
    requires 0 < |buf| && ByRank(buf, head) == live + free && |live| == len
    requires AllSome(live) && AllNone(free)
    ensures len <= |buf| && Live(buf, head, len) && Dead(buf, head, len)
    ensures Contents(buf, head, len) == Values(live)
  {
    assert Window(buf, head, len) == live;
    assert ByRank(buf, head)[len..] == free;
  }

  lemma ValuesAppend<T>(w: seq<Option<T>>, x: T)
    requires AllSome(w)
    ensures AllSome(w + [Some(x)]) && Values(w + [Some(x)]) == Values(w) + [x]
  {
    assert AllSome(w + [Some(x)]);
  }

  lemma ValuesPrepend<T>(w: seq<Option<T>>, x: T)
    requires AllSome(w)
    ensures AllSome([Some(x)] + w) && Values([Some(x)] + w) == [x] + Values(w)
  {
    assert AllSome([Some(x)] + w);
  }

  lemma ValuesSlice<T>(w: seq<Option<T>>, i: nat, j: nat)
    requires AllSome(w) && i <= j <= |w|
    ensures AllSome(w[i..j]) && Values(w[i..j]) == Values(w)[i..j]
  {
    assert AllSome(w[i..j]);
  }

  lemma ValuesConcat<T>(a: seq<Option<T>>, b: seq<Option<T>>)
    requires AllSome(a) && AllSome(b)
    ensures AllSome(a + b) && Values(a + b) == Values(a) + Values(b)
  {
    assert AllSome(a + b);
  }

  /** Initialised slots with one more slot put in at rank i hold the values with its value put in at i. */
  lemma ValuesInsert<T>(w: seq<Option<T>>, i: nat, x: T)
    requires AllSome(w) && i <= |w|
    ensures AllSome(w[..i] + [Some(x)] + w[i..])
    ensures Values(w[..i] + [Some(x)] + w[i..]) == InsertAt(Values(w), i, x)
  {
    assert AllSome(w[..i] + [Some(x)] + w[i..]);
  }

  /** Initialised slots without rank i hold the values without the value at i. */
  lemma ValuesRemove<T>(w: seq<Option<T>>, i: nat)
    requires AllSome(w) && i < |w|
    ensures AllSome(w[..i] + w[i + 1..])
    ensures Values(w[..i] + w[i + 1..]) == RemoveAt(Values(w), i)
  {
    assert AllSome(w[..i] + w[i + 1..]);
  }

  // ---------------------------------------------------------------------------
  // How the listing by rank changes when a slot is written or a cursor moves.

  /** Writing the slot of rank `k` changes rank `k` and nothing else. */
  lemma ByRankUpdate<T>(buf: seq<Option<T>>, head: int, k: nat, x: Option<T>)
    requires k < |buf|
    ensures ByRank(buf[SlotOf(head, k, |buf|) := x], head) == ByRank(buf, head)[k := x]
  {
    var cap := |buf|;
    var nb := buf[SlotOf(head, k, cap) := x];
    ByRankAt(buf, head);
    ByRankAt(nb, head);
    forall m | 0 <= m < cap ensures ByRank(nb, head)[m] == ByRank(buf, head)[k := x][m] {
      if m != k {
        SlotsDistinct(head, m, k, cap);
      }
    }
  }

  /** Moving the head back one slot makes the last rank the first. */
  lemma ByRankBack<T>(buf: seq<Option<T>>, head: int)
    requires |buf| > 0
    ensures var w := ByRank(buf, head);
      ByRank(buf, head - 1) == [w[|buf| - 1]] + w[..|buf| - 1]
  {
    var cap := |buf|;
    var w := ByRank(buf, head);
    ModAddMultiple(head - 1, 1, cap);
    var back := ByRank(buf, head - 1);
    ByRankAt(buf, head);
    ByRankAt(buf, head - 1);
    forall k | 0 <= k < cap ensures back[k] == ([w[cap - 1]] + w[..cap - 1])[k] {
      if k > 0 {
        assert head - 1 + k == head + (k - 1);
      }
    }
  }

  /** Moving the head forward one slot makes the first rank the last. */
  lemma ByRankForward<T>(buf: seq<Option<T>>, head: int)
    requires |buf| > 0
    ensures var w := ByRank(buf, head);
      ByRank(buf, head + 1) == w[1..] + [w[0]]
  {
    var cap := |buf|;
    var w := ByRank(buf, head);
    ModAddMultiple(head, 1, cap);
    var fwd := ByRank(buf, head + 1);
    ByRankAt(buf, head);
    ByRankAt(buf, head + 1);
    forall k | 0 <= k < cap ensures fwd[k] == (w[1..] + [w[0]])[k] {
      if k < cap - 1 {
        assert head + 1 + k == head + (k + 1);
      }
    }
  }

  // ---------------------------------------------------------------------------
  // rotate_reset: `Vec::rotate_left` by the masked head, then head = 0.

  function RotateLeft<T>(s: seq<T>, k: nat): (r: seq<T>)
    requires k <= |s|
    ensures |r| == |s|
  {
    s[k..] + s[..k]
  }

  /**
   * Listing the slots by rank is rotating the buffer left by the masked
   * head; a buffer read from cursor 0 is listed as it is stored.
   */
  lemma {:induction false} ByRankIsRotation<T>(buf: seq<Option<T>>, head: int)
    requires |buf| > 0
    ensures ByRank(buf, head) == RotateLeft(buf, head % |buf|)
    ensures ByRank(buf, 0) == buf
  {
    var cap := |buf|;
    var mh := head % cap;
    var rot := RotateLeft(buf, mh);
    ByRankAt(buf, head);
    ByRankAt(buf, 0);
    forall k | 0 <= k < cap ensures ByRank(buf, head)[k] == rot[k] {
      ModOfSum(head, k, cap);
      if mh + k < cap {
        ModSmall(mh + k, cap);
      } else {
        ModAddMultiple(mh + k - cap, 1, cap);
        ModSmall(mh + k - cap, cap);
      }
    }
    forall k | 0 <= k < cap ensures ByRank(buf, 0)[k] == buf[k] {
      ModSmall(k, cap);
    }
  }

  // ---------------------------------------------------------------------------
  // One step of each loop, as a fact about the slots listed by rank.

  /** Writing rank j of a tailward shift in progress extends the shifted run by one rank. */
  lemma TailwardStep<T>(w: seq<Option<T>>, v: seq<Option<T>>, r: nat, j: nat)
    requires r <= j < |w|
    requires j == r ==> v == w
    requires j > r ==> v == w[..r] + [None] + w[r..j - 1] + w[j..]
    ensures v[j := if j == r then None else w[j - 1]] == w[..r] + [None] + w[r..j] + w[j + 1..]
  {
    var u := v[j := if j == r then None else w[j - 1]];
    var t := w[..r] + [None] + w[r..j] + w[j + 1..];
    assert |u| == |t|;
    forall k | 0 <= k < |t| ensures u[k] == t[k] {
      if k < r {
      } else if k == r {
      } else if k <= j {
        assert t[k] == w[k - 1];
      } else {
        assert t[k] == w[k];
      }
    }
  }

  /**
   * Writing rank j (counted from the moved-back head) of a headward shift in
   * progress extends the shifted run by one rank.
   */
  lemma HeadwardStep<T>(w: seq<Option<T>>, v: seq<Option<T>>, r: nat, j: nat)
    requires j <= r + 1 < |w|
    requires j == r + 1 ==> v == w
    requires j <= r ==> v == w[..j + 1] + w[j + 2..r + 2] + [None] + w[r + 2..]
    ensures v[j := if j == r + 1 then None else w[j + 1]] == w[..j] + w[j + 1..r + 2] + [None] + w[r + 2..]
  {
    var u := v[j := if j == r + 1 then None else w[j + 1]];
    var t := w[..j] + w[j + 1..r + 2] + [None] + w[r + 2..];
    assert |u| == |t|;
    forall k | 0 <= k < |t| ensures u[k] == t[k] {
      if k < j {
      } else if k < r + 1 {
        assert t[k] == w[k + 1];
      } else if k == r + 1 {
      } else {
        assert t[k] == w[k];
      }
    }
  }

  /**
   * The last write of a headward shift, at the moved-back head, finishes it:
   * seen from the old head, the vacated slot sits just after rank r.
   */
  lemma HeadwardDone<T>(w: seq<Option<T>>, w0: seq<Option<T>>, v: seq<Option<T>>, r: nat)
    requires r + 1 < |w| && w0 == [w[|w| - 1]] + w[..|w| - 1]
    requires v == w0[..1] + w0[2..r + 2] + [None] + w0[r + 2..]
    ensures v[0 := w[0]] == w[..r + 1] + [None] + w[r + 1..|w| - 1]
  {
    var u := v[0 := w[0]];
    var t := w[..r + 1] + [None] + w[r + 1..|w| - 1];
    assert |u| == |t|;
    forall k | 0 <= k < |t| ensures u[k] == t[k] {
      if 0 < k <= r {
        assert u[k] == w0[k + 1];
      } else if k > r + 1 {
        assert u[k] == w0[k];
      }
    }
  }

  /** Writing rank j of a gap closing in progress moves one more element down. */
  lemma GapStep<T>(w: seq<Option<T>>, v: seq<Option<T>>, len: nat, j: nat)
    requires j < len <= |w|
    requires j == len - 1 ==> v == w
    requires j < len - 1 ==> v == w[..j + 1] + w[j + 2..len] + [None] + w[len..]
    ensures v[j := if j == len - 1 then None else w[j + 1]] == w[..j] + w[j + 1..len] + [None] + w[len..]
  {
    var u := v[j := if j == len - 1 then None else w[j + 1]];
    var t := w[..j] + w[j + 1..len] + [None] + w[len..];
    assert |u| == |t|;
    forall k | 0 <= k < |t| ensures u[k] == t[k] {
      if k < j {
      } else if k < len - 1 {
        assert t[k] == w[k + 1];
      } else if k == len - 1 {
      } else {
        assert t[k] == w[k];
      }
    }
  }

  // ---------------------------------------------------------------------------
  // The shared loops.

  /**
   * `shift_to_head(from)`: the head moves back one slot and every element from
   * slot `from` down to the old head moves one slot toward the head; slot
   * `from` is left vacated. With `from` the slot of rank `r`, the ranks 0..r
   * keep their elements and the vacated slot becomes rank r + 1; the free
   * slot just before the old head is used up.
   */
  method ShiftToHead<T>(buf: seq<Option<T>>, head: int, tail: int, from: nat, ghost r: nat)
    returns (nbuf: seq<Option<T>>, nhead: int)
    requires 0 <= r < tail - head < |buf| && from == SlotOf(head, r, |buf|)
    requires Live(buf, head, tail - head)
    ensures |nbuf| == |buf| && nhead == head - 1
    ensures var w := ByRank(buf, head);
      ByRank(nbuf, nhead) == w[..r + 1] + [None] + w[r + 1..|buf| - 1]
  {
    var cap := |buf|;
    nbuf, nhead := buf, head - 1;
    ghost var w0 := ByRank(buf, nhead);
    ByRankBack(buf, head);
    var maskedHead := Mask(nhead, cap);
    var cursor: Option<T> := None;
    var i: int := from;
    assert head + r == nhead + (r + 1);
    ghost var j := r + 1;
    while i != maskedHead
      invariant 0 <= j <= r + 1 && i == SlotOf(nhead, j, cap) && |nbuf| == cap
      invariant j == r + 1 ==> nbuf == buf && cursor == None
      invariant j <= r ==> cursor == w0[j + 1] && ByRank(nbuf, nhead) == w0[..j + 1] + w0[j + 2..r + 2] + [None] + w0[r + 2..]
      decreases j
    {
      if j == 0 {
        assert false;
      }
      HeadwardStep(w0, ByRank(nbuf, nhead), r, j);
      ByRankSlot(nbuf, nhead, j);
      ByRankUpdate(nbuf, nhead, j, cursor);
      if cursor.Some? {
        var e := nbuf[i];
        nbuf := nbuf[i := cursor];
        cursor := e;
      } else {
        cursor := nbuf[i];
        nbuf := nbuf[i := None];
      }
      SlotStep(nhead, j, cap);
      i := Mask(i - 1, cap);
      j := j - 1;
    }
    if j != 0 {
      SlotsDistinct(nhead, j, 0, cap);
    }
    HeadwardDone(ByRank(buf, head), w0, ByRank(nbuf, nhead), r);
    ByRankUpdate(nbuf, nhead, 0, cursor);
    if cursor.Some? {
      nbuf := nbuf[i := cursor];
    }
  }

  /**
   * `shift_to_tail(from)` with the loop guard `i < masked_tail`: every element
   * from slot `from` up to the last moves one slot toward the tail and the tail
   * moves forward; slot `from` is left vacated. The run from `from` to the tail
   * must not wrap past the end of the buffer (Ring.TailwardRunIsLinear shows
   * the callers only take this branch then).
   */
  method ShiftToTailBelowTail<T>(buf: seq<Option<T>>, head: int, tail: int, from: nat, ghost r: nat)
    returns (nbuf: seq<Option<T>>, ntail: int)
    requires 0 <= r < tail - head < |buf| && from == SlotOf(head, r, |buf|)
    requires from + (tail - head - r) < |buf|
    requires Live(buf, head, tail - head)
    ensures |nbuf| == |buf| && ntail == tail + 1
    ensures var w, len := ByRank(buf, head), tail - head;
      ByRank(nbuf, head) == w[..r] + [None] + w[r..len] + w[len + 1..]
  {
    var cap := |buf|;
    ghost var len := tail - head;
    ghost var w := ByRank(buf, head);
    nbuf, ntail := buf, tail;
    var maskedTail := Mask(tail, cap);
    ModSmall(from + (len - r), cap);
    ModOfSum(head + r, len - r, cap);
    assert maskedTail == from + (len - r);
    var cursor: Option<T> := None;
    var i: int := from;
    ghost var j := r;
    while i < maskedTail
      invariant r <= j <= len && i == from + (j - r) && i == SlotOf(head, j, cap) && |nbuf| == cap
      invariant j == r ==> nbuf == buf && cursor == None
      invariant j > r ==> cursor == w[j - 1] && ByRank(nbuf, head) == w[..r] + [None] + w[r..j - 1] + w[j..]
      decreases maskedTail - i
    {
      TailwardStep(w, ByRank(nbuf, head), r, j);
      ByRankSlot(nbuf, head, j);
      ByRankUpdate(nbuf, head, j, cursor);
      if cursor.Some? {
        var e := nbuf[i];
        nbuf := nbuf[i := cursor];
        cursor := e;
      } else {
        cursor := nbuf[i];
        nbuf := nbuf[i := None];
      }
      SlotStep(head, j, cap);
      ModSmall(i + 1, cap);
      i := Mask(i + 1, cap);
      j := j + 1;
    }
    assert j == len;
    TailwardStep(w, ByRank(nbuf, head), r, len);
    ByRankUpdate(nbuf, head, len, cursor);
    if cursor.Some? {
      nbuf := nbuf[i := cursor];
      ntail := ntail + 1;
    }
  }

  /**
   * `shift_to_tail(from)` with the wrap-safe loop guard `i != masked_tail`
   * and an unconditional `tail_forward`: the same effect as
   * ShiftToTailBelowTail for any slot of the window, wrapped or not.
   */
  method ShiftToTail<T>(buf: seq<Option<T>>, head: int, tail: int, from: nat, ghost r: nat)
    returns (nbuf: seq<Option<T>>, ntail: int)
    requires 0 <= r < tail - head < |buf| && from == SlotOf(head, r, |buf|)
    requires Live(buf, head, tail - head)
    ensures |nbuf| == |buf| && ntail == tail + 1
    ensures var w, len := ByRank(buf, head), tail - head;
      ByRank(nbuf, head) == w[..r] + [None] + w[r..len] + w[len + 1..]
  {
    var cap := |buf|;
    ghost var len := tail - head;
    ghost var w := ByRank(buf, head);
    nbuf, ntail := buf, tail;
    var maskedTail := Mask(tail, cap);
    assert tail == head + len;
    var cursor: Option<T> := None;
    var i: int := from;
    ghost var j := r;
    while i != maskedTail
      invariant r <= j <= len && i == SlotOf(head, j, cap) && |nbuf| == cap
      invariant j == r ==> nbuf == buf && cursor == None
      invariant j > r ==> cursor == w[j - 1] && ByRank(nbuf, head) == w[..r] + [None] + w[r..j - 1] + w[j..]
      decreases len - j
    {
      if j == len {
        assert false;
      }
      TailwardStep(w, ByRank(nbuf, head), r, j);
      ByRankSlot(nbuf, head, j);
      ByRankUpdate(nbuf, head, j, cursor);
      if cursor.Some? {
        var e := nbuf[i];
        nbuf := nbuf[i := cursor];
        cursor := e;
      } else {
        cursor := nbuf[i];
        nbuf := nbuf[i := None];
      }
      SlotStep(head, j, cap);
      i := Mask(i + 1, cap);
      j := j + 1;
    }
    if j != len {
      SlotsDistinct(head, j, len, cap);
    }
    TailwardStep(w, ByRank(nbuf, head), r, len);
    ByRankUpdate(nbuf, head, len, cursor);
    if cursor.Some? {
      nbuf := nbuf[i := cursor];
    }
    ntail := ntail + 1;
  }

  /**
   * `close_gap(gap)` as the crate writes it: the tail moves back one slot and,
   * walking down from the last slot while `i > gap`, every element above the
   * gap moves one slot toward the head. When the gap's slot is at or below the
   * last element's slot the gap is closed. When the window wraps between the
   * gap and the last element (the gap's slot is above the last one) the loop
   * does not run: the buffer is left as it was, so the vacated slot stays
   * inside the shortened window and the last element falls outside it.
   */
  method CloseGap<T>(buf: seq<Option<T>>, head: int, tail: int, gap: nat, ghost r: nat)
    returns (nbuf: seq<Option<T>>, ntail: int)
    requires 0 < tail - head <= |buf| && gap == SlotOf(head, r, |buf|)
    requires LiveExceptAt(buf, head, tail - head, r)
    ensures |nbuf| == |buf| && ntail == tail - 1
    ensures var w, len := ByRank(buf, head), tail - head;
      gap <= SlotOf(head, len - 1, |buf|) ==> ByRank(nbuf, head) == w[..r] + w[r + 1..len] + [None] + w[len..]
    ensures gap > SlotOf(head, tail - head - 1, |buf|) ==> nbuf == buf
  {
    var cap := |buf|;
    ghost var len := tail - head;
    ghost var w := ByRank(buf, head);
    ghost var linear := gap <= SlotOf(head, len - 1, cap);
    RunIsLinear(head, r, len - 1, cap);
    nbuf, ntail := buf, tail - 1;
    var cursor: Option<T> := None;
    var i: int := Mask(ntail, cap);
    assert ntail == head + (len - 1);
    ghost var j := len - 1;
    while i > gap
      invariant r <= j <= len - 1 && i == SlotOf(head, j, cap) && |nbuf| == cap
      invariant linear ==> i == gap + (j - r)
      invariant !linear ==> j == len - 1
      invariant j == len - 1 ==> nbuf == buf && cursor == None
      invariant j < len - 1 ==> cursor == w[j + 1] && ByRank(nbuf, head) == w[..j + 1] + w[j + 2..len] + [None] + w[len..]
      decreases j
    {
      GapStep(w, ByRank(nbuf, head), len, j);
      ByRankSlot(nbuf, head, j);
      ByRankUpdate(nbuf, head, j, cursor);
      if cursor.Some? {
        var e := nbuf[i];
        nbuf := nbuf[i := cursor];
        cursor := e;
      } else {
        cursor := nbuf[i];
        nbuf := nbuf[i := None];
      }
      SlotStep(head, j, cap);
      ModSmall(i - 1, cap);
      i := Mask(i - 1, cap);
      j := j - 1;
    }
    if linear {
      assert j == r;
    }
    GapStep(w, ByRank(nbuf, head), len, j);
    ByRankUpdate(nbuf, head, j, cursor);
    if cursor.Some? {
      nbuf := nbuf[i := cursor];
    }
  }

  /**
   * close_gap with the wrap-safe guard `i != gap`: closes the gap whether or
   * not the window wraps between the gap and the last element.
   */
  method CloseGapWrapSafe<T>(buf: seq<Option<T>>, head: int, tail: int, gap: nat, ghost r: nat)
    returns (nbuf: seq<Option<T>>, ntail: int)
    requires 0 < tail - head <= |buf| && gap == SlotOf(head, r, |buf|)
    requires LiveExceptAt(buf, head, tail - head, r)
    ensures |nbuf| == |buf| && ntail == tail - 1
    ensures var w, len := ByRank(buf, head), tail - head;
      ByRank(nbuf, head) == w[..r] + w[r + 1..len] + [None] + w[len..]
  {
    var cap := |buf|;
    ghost var len := tail - head;
    ghost var w := ByRank(buf, head);
    nbuf, ntail := buf, tail - 1;
    var cursor: Option<T> := None;
    var i: int := Mask(ntail, cap);
    assert ntail == head + (len - 1);
    ghost var j := len - 1;
    while i != gap
      invariant r <= j <= len - 1 && i == SlotOf(head, j, cap) && |nbuf| == cap
      invariant j == len - 1 ==> nbuf == buf && cursor == None
      invariant j < len - 1 ==> cursor == w[j + 1] && ByRank(nbuf, head) == w[..j + 1] + w[j + 2..len] + [None] + w[len..]
      decreases j
    {
      if j == r {
        assert false;
      }
      GapStep(w, ByRank(nbuf, head), len, j);
      ByRankSlot(nbuf, head, j);
      ByRankUpdate(nbuf, head, j, cursor);
      if cursor.Some? {
        var e := nbuf[i];
        nbuf := nbuf[i := cursor];
        cursor := e;
      } else {
        cursor := nbuf[i];
        nbuf := nbuf[i := None];
      }
      SlotStep(head, j, cap);
      i := Mask(i - 1, cap);
      j := j - 1;
    }
    if j != r {
      SlotsDistinct(head, j, r, cap);
    }
    GapStep(w, ByRank(nbuf, head), len, j);
    ByRankUpdate(nbuf, head, r, cursor);
    if cursor.Some? {
      nbuf := nbuf[i := cursor];
    }
  }

  /**
   * The run of ranks r..s does not wrap past the end of the buffer exactly
   * when the slot of rank r is at or below the slot of rank s.
   */
  lemma RunIsLinear(head: int, r: nat, s: nat, cap: nat)
    requires cap > 0 && r <= s && s - r < cap
    ensures SlotOf(head, r, cap) <= SlotOf(head, s, cap) <==> SlotOf(head, r, cap) + (s - r) < cap
    ensures SlotOf(head, r, cap) + (s - r) < cap ==> SlotOf(head, s, cap) == SlotOf(head, r, cap) + (s - r)
  {
    var a := SlotOf(head, r, cap);
    ModOfSum(head + r, s - r, cap);
    if a + (s - r) < cap {
      ModSmall(a + (s - r), cap);
    } else {
      ModAddMultiple(a + (s - r) - cap, 1, cap);
      ModSmall(a + (s - r) - cap, cap);
    }
  }

  // ---------------------------------------------------------------------------
  // The window after one slot at either end is written or cleared.

  /** Splits the listing of a well-formed buffer into its window and the free slots. */
  lemma Split<T>(buf: seq<Option<T>>, head: int, len: nat)
    requires 0 < |buf| && len <= |buf| && Live(buf, head, len) && Dead(buf, head, len)
    ensures ByRank(buf, head) == ByRank(buf, head)[..len] + ByRank(buf, head)[len..]
    ensures AllSome(ByRank(buf, head)[..len]) && AllNone(ByRank(buf, head)[len..])
    ensures Values(ByRank(buf, head)[..len]) == Contents(buf, head, len)
  {
    assert Window(buf, head, len) == ByRank(buf, head)[..len];
  }

  /** Two buffers listing the same slots by rank have the same window. */
  lemma SameListing<T>(b1: seq<Option<T>>, h1: int, b2: seq<Option<T>>, h2: int, len: nat)
    requires 0 < |b1| && len <= |b1| && |b1| == |b2| && ByRank(b1, h1) == ByRank(b2, h2)
    requires Live(b1, h1, len) && Dead(b1, h1, len)
    ensures Live(b2, h2, len) && Dead(b2, h2, len)
    ensures Contents(b2, h2, len) == Contents(b1, h1, len)
  {
    assert Window(b1, h1, len) == Window(b2, h2, len);
  }

  /** Filling the slot of rank `len` appends to the window. */
  lemma PushBackListing<T>(buf: seq<Option<T>>, head: int, len: nat, x: T, nb: seq<Option<T>>, nlen: nat)
    requires 0 < |buf| && len < |buf| && Live(buf, head, len) && Dead(buf, head, len)
    requires nb == buf[SlotOf(head, len, |buf|) := Some(x)] && nlen == len + 1
    ensures Live(nb, head, nlen) && Dead(nb, head, nlen)
    ensures Contents(nb, head, nlen) == Contents(buf, head, len) + [x]
  {
    var w := ByRank(buf, head);
    Split(buf, head, len);
    ByRankUpdate(buf, head, len, Some(x));
    assert w[len := Some(x)] == (w[..len] + [Some(x)]) + w[len + 1..];
    ValuesAppend(w[..len], x);
    assert AllNone(w[len..][1..]);
    ListedAs(nb, head, nlen, w[..len] + [Some(x)], w[len + 1..]);
  }

  /** Moving the head back one slot and filling that slot prepends to the window. */
  lemma PushFrontListing<T>(buf: seq<Option<T>>, head: int, len: nat, x: T, nb: seq<Option<T>>, nhead: int, nlen: nat)
    requires 0 < |buf| && len < |buf| && Live(buf, head, len) && Dead(buf, head, len)
    requires nhead == head - 1 && nb == buf[Mask(nhead, |buf|) := Some(x)] && nlen == len + 1
    ensures Live(nb, nhead, nlen) && Dead(nb, nhead, nlen)
    ensures Contents(nb, nhead, nlen) == [x] + Contents(buf, head, len)
  {
    var w, cap := ByRank(buf, head), |buf|;
    Split(buf, head, len);
    ByRankBack(buf, head);
    ByRankUpdate(buf, head - 1, 0, Some(x));
    assert ([w[cap - 1]] + w[..cap - 1])[0 := Some(x)] == ([Some(x)] + w[..len]) + w[len..cap - 1];
    ValuesPrepend(w[..len], x);
    assert AllNone(w[len..][..cap - 1 - len]);
    ListedAs(nb, nhead, nlen, [Some(x)] + w[..len], w[len..cap - 1]);
  }

  /** Clearing the slot of rank 0 and moving the head on drops the first element. */
  lemma PopFrontListing<T>(buf: seq<Option<T>>, head: int, len: nat, nb: seq<Option<T>>, nhead: int, nlen: nat)
    requires 0 < len <= |buf| && Live(buf, head, len) && Dead(buf, head, len)
    requires nb == buf[SlotOf(head, 0, |buf|) := None] && nhead == head + 1 && nlen == len - 1
    ensures Live(nb, nhead, nlen) && Dead(nb, nhead, nlen)
    ensures Contents(nb, nhead, nlen) == Contents(buf, head, len)[1..]
  {
    var w := ByRank(buf, head);
    Split(buf, head, len);
    ByRankUpdate(buf, head, 0, None);
    ByRankForward(nb, head);
    assert w[0 := None][1..] + [w[0 := None][0]] == w[1..len] + (w[len..] + [None]);
    ValuesSlice(w[..len], 1, len);
    assert w[..len][1..len] == w[1..len];
    ListedAs(nb, nhead, nlen, w[1..len], w[len..] + [None]);
  }

  /** Clearing the slot of rank `len - 1` drops the last element. */
  lemma PopBackListing<T>(buf: seq<Option<T>>, head: int, len: nat, nb: seq<Option<T>>, nlen: nat)
    requires 0 < len <= |buf| && Live(buf, head, len) && Dead(buf, head, len)
    requires nb == buf[SlotOf(head, len - 1, |buf|) := None] && nlen == len - 1
    ensures Live(nb, head, nlen) && Dead(nb, head, nlen)
    ensures Contents(nb, head, nlen) == Contents(buf, head, len)[..len - 1]
  {
    var w := ByRank(buf, head);
    Split(buf, head, len);
    ByRankUpdate(buf, head, len - 1, None);
    assert w[len - 1 := None] == w[..len - 1] + ([None] + w[len..]);
    ValuesSlice(w[..len], 0, len - 1);
    assert w[..len][0..len - 1] == w[..len - 1];
    ListedAs(nb, head, nlen, w[..len - 1], [None] + w[len..]);
  }

  /** `push_back` on the slots: store `x` at the masked tail and move the tail on. */
  method PushBackSlots<T>(buf: seq<Option<T>>, head: int, tail: int, x: T) returns (nb: seq<Option<T>>, ntail: int, idx: nat)
    requires 0 <= tail - head < |buf| && Live(buf, head, tail - head) && Dead(buf, head, tail - head)
    ensures idx == Mask(tail, |buf|) && ntail == tail + 1 && nb == buf[idx := Some(x)]
    ensures Live(nb, head, ntail - head) && Dead(nb, head, ntail - head)
    ensures Contents(nb, head, ntail - head) == Contents(buf, head, tail - head) + [x]
  {
    idx := Mask(tail, |buf|);
    ntail := tail + 1;
    nb := buf[idx := Some(x)];
    PushBackListing(buf, head, tail - head, x, nb, ntail - head);
  }

  /** `push_front` on the slots: move the head back one and store `x` at its slot. */
  method PushFrontSlots<T>(buf: seq<Option<T>>, head: int, tail: int, x: T) returns (nb: seq<Option<T>>, nhead: int, idx: nat)
    requires 0 <= tail - head < |buf| && Live(buf, head, tail - head) && Dead(buf, head, tail - head)
    ensures nhead == head - 1 && idx == Mask(nhead, |buf|) && nb == buf[idx := Some(x)]
    ensures Live(nb, nhead, tail - nhead) && Dead(nb, nhead, tail - nhead)
    ensures Contents(nb, nhead, tail - nhead) == [x] + Contents(buf, head, tail - head)
  {
    nhead := head - 1;
    idx := Mask(nhead, |buf|);
    nb := buf[idx := Some(x)];
    PushFrontListing(buf, head, tail - head, x, nb, nhead, tail - nhead);
  }

  /** `pop_front` on the slots: take the element at the masked head and move the head on. */
  method PopFrontSlots<T>(buf: seq<Option<T>>, head: int, tail: int) returns (x: Option<T>, nb: seq<Option<T>>, nhead: int)
    requires 0 < tail - head <= |buf| && Live(buf, head, tail - head) && Dead(buf, head, tail - head)
    ensures x == Some(Contents(buf, head, tail - head)[0]) && nhead == head + 1 && nb == buf[Mask(head, |buf|) := None]
    ensures Live(nb, nhead, tail - nhead) && Dead(nb, nhead, tail - nhead)
    ensures Contents(nb, nhead, tail - nhead) == Contents(buf, head, tail - head)[1..]
  {
    var idx := Mask(head, |buf|);
    SlotOfElement(buf, head, tail - head, 0);
    nhead := head + 1;
    x := buf[idx];
    nb := buf[idx := None];
    PopFrontListing(buf, head, tail - head, nb, nhead, tail - nhead);
  }

  /** `pop_back` on the slots: move the tail back and take the element it then points at. */
  method PopBackSlots<T>(buf: seq<Option<T>>, head: int, tail: int) returns (x: Option<T>, nb: seq<Option<T>>, ntail: int)
    requires 0 < tail - head <= |buf| && Live(buf, head, tail - head) && Dead(buf, head, tail - head)
    ensures x == Some(Contents(buf, head, tail - head)[tail - head - 1]) && ntail == tail - 1 && nb == buf[Mask(ntail, |buf|) := None]
    ensures Live(nb, head, ntail - head) && Dead(nb, head, ntail - head)
    ensures Contents(nb, head, ntail - head) == Contents(buf, head, tail - head)[..tail - head - 1]
  {
    SlotOfElement(buf, head, tail - head, tail - head - 1);
    ntail := tail - 1;
    var idx := Mask(ntail, |buf|);
    x := buf[idx];
    nb := buf[idx := None];
    PopBackListing(buf, head, tail - head, nb, ntail - head);
  }

  /** `rotate_left(masked_head)`: the buffer rotated so that the slot of rank 0 comes first. */
  method RotatedToFront<T>(buf: seq<Option<T>>, head: int, len: nat) returns (nb: seq<Option<T>>)
    requires 0 < |buf| && len <= |buf| && Live(buf, head, len) && Dead(buf, head, len)
    ensures nb == ByRank(buf, head) && Live(nb, 0, len) && Dead(nb, 0, len)
    ensures Contents(nb, 0, len) == Contents(buf, head, len)
  {
    var mh := Mask(head, |buf|);
    ByRankIsRotation(buf, head);
    ByRankIsRotation(RotateLeft(buf, mh), 0);
    SameListing(buf, head, RotateLeft(buf, mh), 0, len);
    nb := RotateLeft(buf, mh);
  }

  // ---------------------------------------------------------------------------
  // The window after a shift has opened or closed a gap inside it.

  /**
   * A head-ward shift has moved ranks 0 .. p - 1 one slot back (the head cursor
   * with them) and left rank `p` vacated: filling it inserts at `p`.
   */
  lemma HeadwardInsertListing<T>(buf: seq<Option<T>>, head: int, len: nat, nbuf: seq<Option<T>>, p: nat, x: T,
                                  nb: seq<Option<T>>, nhead: int, nlen: nat)
    requires 0 < p <= len < |buf| == |nbuf| && Live(buf, head, len) && Dead(buf, head, len)
    requires ByRank(nbuf, head - 1) == ByRank(buf, head)[..p] + [None] + ByRank(buf, head)[p..|buf| - 1]
    requires nhead == head - 1 && nb == nbuf[SlotOf(nhead, p, |buf|) := Some(x)] && nlen == len + 1
    ensures Live(nb, nhead, nlen) && Dead(nb, nhead, nlen)
    ensures Contents(nb, nhead, nlen) == InsertAt(Contents(buf, head, len), p, x)
  {
    var w, cap := ByRank(buf, head), |buf|;
    Split(buf, head, len);
    ByRankUpdate(nbuf, head - 1, p, Some(x));
    var live := w[..len];
    assert (w[..p] + [None] + w[p..cap - 1])[p := Some(x)] == (live[..p] + [Some(x)] + live[p..]) + w[len..cap - 1];
    ValuesInsert(live, p, x);
    assert AllNone(w[len..][..cap - 1 - len]);
    ListedAs(nb, nhead, nlen, live[..p] + [Some(x)] + live[p..], w[len..cap - 1]);
  }

  /**
   * A tail-ward shift has moved ranks p .. len - 1 one slot on and left rank `p`
   * vacated: filling it inserts at `p`.
   */
  lemma TailwardInsertListing<T>(buf: seq<Option<T>>, head: int, len: nat, nbuf: seq<Option<T>>, p: nat, x: T,
                                  nb: seq<Option<T>>, nlen: nat)
    requires p <= len < |buf| == |nbuf| && Live(buf, head, len) && Dead(buf, head, len)
    requires ByRank(nbuf, head) == ByRank(buf, head)[..p] + [None] + ByRank(buf, head)[p..len] + ByRank(buf, head)[len + 1..]
    requires nb == nbuf[SlotOf(head, p, |buf|) := Some(x)] && nlen == len + 1
    ensures Live(nb, head, nlen) && Dead(nb, head, nlen)
    ensures Contents(nb, head, nlen) == InsertAt(Contents(buf, head, len), p, x)
  {
    var w := ByRank(buf, head);
    Split(buf, head, len);
    ByRankUpdate(nbuf, head, p, Some(x));
    var live := w[..len];
    assert (w[..p] + [None] + w[p..len] + w[len + 1..])[p := Some(x)] == (live[..p] + [Some(x)] + live[p..]) + w[len + 1..];
    ValuesInsert(live, p, x);
    assert AllNone(w[len..][1..]);
    ListedAs(nb, head, nlen, live[..p] + [Some(x)] + live[p..], w[len + 1..]);
  }

  /** Taking the element of rank `r` leaves the window with one vacated slot. */
  lemma TakeListing<T>(buf: seq<Option<T>>, head: int, len: nat, r: nat)
    requires r < len <= |buf| && Live(buf, head, len)
    ensures LiveExceptAt(buf[SlotOf(head, r, |buf|) := None], head, len, r)
  {
    ByRankUpdate(buf, head, r, None);
    assert forall k :: 0 <= k < len ==> ByRank(buf, head)[k] == Window(buf, head, len)[k];
  }

  /**
   * After the gap at rank `r` was closed by moving ranks r + 1 .. len - 1 one
   * slot back, the shorter window holds the elements without rank `r`.
   */
  lemma CloseGapListing<T>(buf: seq<Option<T>>, head: int, len: nat, r: nat, nbuf: seq<Option<T>>, nlen: nat)
    requires r < len <= |buf| == |nbuf| && Live(buf, head, len) && Dead(buf, head, len)
    requires var w := ByRank(buf, head)[r := None];
      ByRank(nbuf, head) == w[..r] + w[r + 1..len] + [None] + w[len..]
    requires nlen == len - 1
    ensures Live(nbuf, head, nlen) && Dead(nbuf, head, nlen)
    ensures Contents(nbuf, head, nlen) == RemoveAt(Contents(buf, head, len), r)
  {
    var w := ByRank(buf, head);
    var w1 := w[r := None];
    Split(buf, head, len);
    var live := w[..len];
    assert w1[..r] + w1[r + 1..len] + [None] + w1[len..] == (live[..r] + live[r + 1..]) + ([None] + w[len..]);
    ValuesRemove(live, r);
    ListedAs(nbuf, head, nlen, live[..r] + live[r + 1..], [None] + w[len..]);
  }

  /** A vacated slot before the last rank leaves the shorter window with a hole. */
  lemma HoleListing<T>(buf: seq<Option<T>>, head: int, len: nat, r: nat, nlen: nat)
    requires r + 1 < len <= |buf| && LiveExceptAt(buf, head, len, r) && nlen == len - 1
    ensures !Live(buf, head, nlen)
  {
    assert Window(buf, head, nlen)[r] == None;
  }

  // ---------------------------------------------------------------------------
  // A shift followed by the write into the slot it vacated, stated on the window.

  /**
   * `shift_to_head(from)` then `set(from, x)`: ranks 0 .. p - 1 move one
   * slot back with the head and `x` fills slot `from`, which then holds rank p.
   */
  method ShiftToHeadAndSet<T>(buf: seq<Option<T>>, head: int, tail: int, from: nat, ghost p: nat, x: T)
    returns (nb: seq<Option<T>>, nhead: int)
    requires 0 < p <= tail - head < |buf| && from == SlotOf(head, p - 1, |buf|)
    requires Live(buf, head, tail - head) && Dead(buf, head, tail - head)
    ensures |nb| == |buf| && nhead == head - 1 && nb[from] == Some(x)
    ensures Live(nb, nhead, tail - nhead) && Dead(nb, nhead, tail - nhead)
    ensures Contents(nb, nhead, tail - nhead) == InsertAt(Contents(buf, head, tail - head), p, x)
  {
    var shifted;
    shifted, nhead := ShiftToHead(buf, head, tail, from, p - 1);
    assert from == SlotOf(nhead, p, |buf|);
    nb := shifted[from := Some(x)];
    HeadwardInsertListing(buf, head, tail - head, shifted, p, x, nb, nhead, tail - nhead);
  }

  /**
   * `shift_to_tail(from)` then `set(from, x)`: ranks q .. len - 1 move one
   * slot on with the tail and `x` fills slot `from` at rank q. The run from
   * `from` to the tail must not wrap.
   */
  method ShiftToTailAndSet<T>(buf: seq<Option<T>>, head: int, tail: int, from: nat, ghost q: nat, x: T)
    returns (nb: seq<Option<T>>, ntail: int)
    requires 0 <= q < tail - head < |buf| && from == SlotOf(head, q, |buf|)
    requires from + (tail - head - q) < |buf|
    requires Live(buf, head, tail - head) && Dead(buf, head, tail - head)
    ensures |nb| == |buf| && ntail == tail + 1 && nb[from] == Some(x)
    ensures Live(nb, head, ntail - head) && Dead(nb, head, ntail - head)
    ensures Contents(nb, head, ntail - head) == InsertAt(Contents(buf, head, tail - head), q, x)
  {
    var shifted;
    shifted, ntail := ShiftToTailBelowTail(buf, head, tail, from, q);
    nb := shifted[from := Some(x)];
    TailwardInsertListing(buf, head, tail - head, shifted, q, x, nb, ntail - head);
  }

  /**
   * `shift_to_tail(from)` with the guard `i != masked_tail`, then
   * `set(from, x)`: ranks q .. len - 1 move one slot on with the tail,
   * wrapping past the end of the buffer if need be, and `x` fills slot
   * `from` at rank q.
   */
  method ShiftAroundToTailAndSet<T>(buf: seq<Option<T>>, head: int, tail: int, from: nat, ghost q: nat, x: T)
    returns (nb: seq<Option<T>>, ntail: int)
    requires 0 <= q < tail - head < |buf| && from == SlotOf(head, q, |buf|)
    requires Live(buf, head, tail - head) && Dead(buf, head, tail - head)
    ensures |nb| == |buf| && ntail == tail + 1 && nb[from] == Some(x)
    ensures Live(nb, head, ntail - head) && Dead(nb, head, ntail - head)
    ensures Contents(nb, head, ntail - head) == InsertAt(Contents(buf, head, tail - head), q, x)
  {
    var shifted;
    shifted, ntail := ShiftToTail(buf, head, tail, from, q);
    nb := shifted[from := Some(x)];
    TailwardInsertListing(buf, head, tail - head, shifted, q, x, nb, ntail - head);
  }

  /** The slot of rank `r` inside the window holds the element of rank `r`. */
  lemma SlotOfElement<T>(buf: seq<Option<T>>, head: int, len: nat, r: nat)
    requires r < len <= |buf| && Live(buf, head, len)
    ensures buf[SlotOf(head, r, |buf|)] == Some(Contents(buf, head, len)[r])
  {
    ByRankSlot(buf, head, r);
    assert Window(buf, head, len)[r] == ByRank(buf, head)[r];
  }

  /**
   * `take(gap)` then `close_gap(gap)` with the loop guard `i > gap`, for a
   * rank r strictly after the first. When the window does not wrap between
   * rank r and the last rank, the element of rank r is gone and the rest
   * close up; when it does, the loop does not run: the tail still moves back
   * but the vacated slot stays inside the shortened window.
   */
  method TakeAndCloseGap<T>(buf: seq<Option<T>>, head: int, tail: int, gap: nat, ghost r: nat)
    returns (x: Option<T>, nb: seq<Option<T>>, ntail: int)
    requires 0 < r < tail - head <= |buf| && gap == SlotOf(head, r, |buf|)
    requires Live(buf, head, tail - head) && Dead(buf, head, tail - head)
    ensures |nb| == |buf| && ntail == tail - 1
    ensures x == Some(Contents(buf, head, tail - head)[r])
    ensures gap <= SlotOf(head, tail - head - 1, |buf|) ==>
      Live(nb, head, ntail - head) && Dead(nb, head, ntail - head)
      && Contents(nb, head, ntail - head) == RemoveAt(Contents(buf, head, tail - head), r)
    ensures gap > SlotOf(head, tail - head - 1, |buf|) ==>
      nb == buf[gap := None] && !Live(nb, head, ntail - head)
  {
    ghost var len := tail - head;
    SlotOfElement(buf, head, len, r);
    x := buf[gap];
    var taken := buf[gap := None];
    TakeListing(buf, head, len, r);
    ByRankUpdate(buf, head, r, None);
    nb, ntail := CloseGap(taken, head, tail, gap, r);
    if gap <= SlotOf(head, len - 1, |buf|) {
      CloseGapListing(buf, head, len, r, nb, ntail - head);
    } else {
      HoleListing(taken, head, len, r, ntail - head);
    }
  }

  /** `take(gap)` then `close_gap(gap)` with the guard `i != gap`: the rest always close up. */
  method TakeAndCloseGapWrapSafe<T>(buf: seq<Option<T>>, head: int, tail: int, gap: nat, ghost r: nat)
    returns (x: Option<T>, nb: seq<Option<T>>, ntail: int)
    requires 0 < r < tail - head <= |buf| && gap == SlotOf(head, r, |buf|)
    requires Live(buf, head, tail - head) && Dead(buf, head, tail - head)
    ensures |nb| == |buf| && ntail == tail - 1
    ensures x == Some(Contents(buf, head, tail - head)[r])
    ensures Live(nb, head, ntail - head) && Dead(nb, head, ntail - head)
    ensures Contents(nb, head, ntail - head) == RemoveAt(Contents(buf, head, tail - head), r)
  {
    ghost var len := tail - head;
    SlotOfElement(buf, head, len, r);
    x := buf[gap];
    var taken := buf[gap := None];
    TakeListing(buf, head, len, r);
    ByRankUpdate(buf, head, r, None);
    nb, ntail := CloseGapWrapSafe(taken, head, tail, gap, r);
    CloseGapListing(buf, head, len, r, nb, ntail - head);
  }

  // ---------------------------------------------------------------------------
  // Buffers read from cursor 0, grown or cut in two.

  /**
   * Removing rank r (neither the first nor the last) leaves a gap whose slot
   * lies above the slot of the last rank: the window wraps past the end of
   * the buffer between the two.
   */
  predicate GapWraps(head: int, len: nat, cap: nat, r: nat)
    requires cap > 0
  {
    0 < r < len && SlotOf(head, r, cap) > SlotOf(head, len - 1, cap)
  }

  /** `n` uninitialised slots. */
  function Uninit<T>(n: nat): (w: seq<Option<T>>)
    ensures |w| == n && AllNone(w)
  {
    seq(n, _ => None)
  }

  /** Free slots added after a buffer read from cursor 0 leave its window as it was. */
  lemma GrowListing<T>(buf: seq<Option<T>>, len: nat, n: nat)
    requires 0 < |buf| && len <= |buf| && Live(buf, 0, len) && Dead(buf, 0, len)
    ensures Live(buf + Uninit(n), 0, len) && Dead(buf + Uninit(n), 0, len)
    ensures Contents(buf + Uninit(n), 0, len) == Contents(buf, 0, len)
  {
    var nb := buf + Uninit(n);
    ByRankIsRotation(buf, 0);
    ByRankIsRotation(nb, 0);
    Split(buf, 0, len);
    assert nb == buf[..len] + (buf[len..] + Uninit(n));
    ListedAs(nb, 0, len, buf[..len], buf[len..] + Uninit(n));
  }

  /** A buffer read from cursor 0 with `n` free slots appended. */
  method Grown<T>(buf: seq<Option<T>>, len: nat, n: nat) returns (nb: seq<Option<T>>)
    requires 0 < |buf| && len <= |buf| && Live(buf, 0, len) && Dead(buf, 0, len)
    ensures |nb| == |buf| + n && Live(nb, 0, len) && Dead(nb, 0, len)
    ensures Contents(nb, 0, len) == Contents(buf, 0, len)
  {
    GrowListing(buf, len, n);
    nb := buf + Uninit(n);
  }

  /** The slots below `half` of a buffer read from cursor 0 keep its first k = min(len, half) elements. */
  lemma SplitLow<T>(buf: seq<Option<T>>, len: nat, half: nat, k: nat)
    requires 0 < half < |buf| && len <= |buf| && Live(buf, 0, len) && Dead(buf, 0, len)
    requires k == if len < half then len else half
    ensures Live(buf[..half], 0, k) && Dead(buf[..half], 0, k)
    ensures Contents(buf[..half], 0, k) == Contents(buf, 0, len)[..k]
  {
    var lo := buf[..half];
    ByRankIsRotation(buf, 0);
    ByRankIsRotation(lo, 0);
    Split(buf, 0, len);
    var live := buf[..len];
    assert lo == live[..k] + buf[k..half];
    ValuesSlice(live, 0, k);
    ListedAs(lo, 0, k, live[..k], buf[k..half]);
  }

  /** The slots from `half` on of a buffer read from cursor 0 hold its elements after the first min(len, half). */
  lemma SplitHigh<T>(buf: seq<Option<T>>, len: nat, half: nat, k: nat)
    requires 0 < half < |buf| && len <= |buf| && Live(buf, 0, len) && Dead(buf, 0, len)
    requires k == if len < half then len else half
    ensures len - k <= |buf| - half
    ensures Live(buf[half..], 0, len - k) && Dead(buf[half..], 0, len - k)
    ensures Contents(buf[half..], 0, len - k) == Contents(buf, 0, len)[k..]
  {
    var hi := buf[half..];
    ByRankIsRotation(buf, 0);
    ByRankIsRotation(hi, 0);
    Split(buf, 0, len);
    var live := buf[..len];
    if len <= half {
      assert hi == [] + hi;
      ListedAs(hi, 0, 0, [], hi);
    } else {
      assert hi == live[half..] + buf[len..];
      ValuesSlice(live, half, len);
      ListedAs(hi, 0, len - k, live[half..], buf[len..]);
    }
  }

  /**
   * `split_half` on slots whose window starts at cursor 0: the lower half
   * keeps min(count, half) elements, the upper half gets the rest, each half
   * with its window from 0, the tails computed with saturating subtraction.
   */
  method SplitHalfSlots<T>(buf: seq<Option<T>>, count: nat)
    returns (lo: seq<Option<T>>, hi: seq<Option<T>>, loTail: nat, hiTail: nat)
    requires IsPowerOfTwo(|buf|) && |buf| >= 2 && count <= |buf| && Live(buf, 0, count) && Dead(buf, 0, count)
    ensures IsPowerOfTwo(|lo|) && |lo| == |buf| / 2 && |hi| == |buf| / 2
    ensures loTail == (if count < |buf| / 2 then count else |buf| / 2) && loTail <= |lo| && hiTail <= |hi|
    ensures Live(lo, 0, loTail) && Dead(lo, 0, loTail) && Live(hi, 0, hiTail) && Dead(hi, 0, hiTail)
    ensures Contents(lo, 0, loTail) + Contents(hi, 0, hiTail) == Contents(buf, 0, count)
  {
    var newCapacity := |buf| / 2;
    PowerOfTwoHalf(|buf|);
    assert |buf| - newCapacity == newCapacity;
    lo, hi := SplitOff(buf, count, newCapacity);
    hiTail := if count > newCapacity then count - newCapacity else 0;
    loTail := if count > hiTail then count - hiTail else 0;
  }

  /**
   * `split_off(half)` on a buffer read from cursor 0 holding `len` elements:
   * the lower part keeps k = min(len, half) of them, the upper part the
   * rest, each read from its own slot 0.
   */
  method SplitOff<T>(buf: seq<Option<T>>, len: nat, half: nat) returns (lo: seq<Option<T>>, hi: seq<Option<T>>)
    requires 0 < half < |buf| && len <= |buf| && Live(buf, 0, len) && Dead(buf, 0, len)
    ensures |lo| == half && |hi| == |buf| - half
    ensures var k := if len < half then len else half;
      len - k <= |hi| && Live(lo, 0, k) && Dead(lo, 0, k) && Live(hi, 0, len - k) && Dead(hi, 0, len - k)
      && Contents(lo, 0, k) + Contents(hi, 0, len - k) == Contents(buf, 0, len)
  {
    var k := if len < half then len else half;
    SplitLow(buf, len, half, k);
    SplitHigh(buf, len, half, k);
    ghost var s := Contents(buf, 0, len);
    assert s == s[..k] + s[k..];
    lo, hi := buf[..half], buf[half..];
  }

  /**
   * The loop of `clone`: into an uninitialised buffer of the same capacity,
   * copy the element in the slot of each cursor from head to tail. The
   * result is slot for slot the original, free slots included.
   */
  method CopyWindow<T>(buf: seq<Option<T>>, head: int, tail: int) returns (nb: seq<Option<T>>)
    requires 0 < |buf| && 0 <= tail - head <= |buf|
    requires Live(buf, head, tail - head) && Dead(buf, head, tail - head)
    ensures nb == buf
  {
    var cap := |buf|;
    ghost var len := tail - head;
    nb := Uninit(cap);
    var i := head;
    while i != tail
      invariant head <= i <= tail && |nb| == cap
      invariant forall k :: 0 <= k < cap ==> nb[k] == if RankOf(head, k, cap) < i - head then buf[k] else None
      decreases tail - i
    {
      var idx := Mask(i, cap);
      SlotRankRoundTrip(head, i - head, cap);
      SlotOfElement(buf, head, len, i - head);
      forall k | 0 <= k < cap && RankOf(head, k, cap) == i - head
        ensures k == idx
      {
        RankSlotRoundTrip(head, k, cap);
      }
      nb := nb[idx := Some(buf[idx].value)];
      i := i + 1;
    }
    forall k | 0 <= k < cap
      ensures nb[k] == buf[k]
    {
      var r := RankOf(head, k, cap);
      if r >= len {
        RankSlotRoundTrip(head, k, cap);
        ByRankSlot(buf, head, r);
        assert ByRank(buf, head)[len..][r - len] == ByRank(buf, head)[r];
      }
    }
  }
}
