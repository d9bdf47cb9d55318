// Sequence operations the tiers and vectors are specified with: inserting an
// element before a rank and removing the element at a rank.
module Seqs {

  /** `s` with `x` placed at rank `i`; the elements from `i` on move one rank up. */
  function InsertAt<T>(s: seq<T>, i: nat, x: T): (r: seq<T>)
    requires i <= |s|
    ensures |r| == |s| + 1 && r[i] == x
  {
    s[..i] + [x] + s[i..]
  }

  /** `s` without the element at rank `i`; the elements after it move one rank down. */
  function RemoveAt<T>(s: seq<T>, i: nat): (r: seq<T>)
    requires i < |s|
    ensures |r| == |s| - 1
  {
    s[..i] + s[i + 1..]
  }

  /** Removing what was just inserted gives back the original sequence. */
  lemma RemoveUndoesInsert<T>(s: seq<T>, i: nat, x: T)
    requires i <= |s|
    ensures RemoveAt(InsertAt(s, i, x), i) == s
  {
    var t := RemoveAt(InsertAt(s, i, x), i);
    assert |t| == |s|;
    forall k | 0 <= k < |s| ensures t[k] == s[k] {
    }
  }

  /** Putting a removed element back where it was gives back the original sequence. */
  lemma InsertUndoesRemove<T>(s: seq<T>, i: nat)
    requires i < |s|
    ensures InsertAt(RemoveAt(s, i), i, s[i]) == s
  {
    var t := InsertAt(RemoveAt(s, i), i, s[i]);
    assert |t| == |s|;
    forall k | 0 <= k < |s| ensures t[k] == s[k] {
    }
  }

  /** Inserting inside the middle part of a concatenation inserts into that part. */
  lemma InsertAtMiddle<T>(a: seq<T>, b: seq<T>, c: seq<T>, i: nat, x: T)
    requires i <= |b|
    ensures InsertAt(a + b + c, |a| + i, x) == a + InsertAt(b, i, x) + c
  {
    assert (a + b + c)[..|a| + i] == a + b[..i];
    assert (a + b + c)[|a| + i..] == b[i..] + c;
  }

  /** Removing inside the middle part of a concatenation removes from that part. */
  lemma RemoveAtMiddle<T>(a: seq<T>, b: seq<T>, c: seq<T>, i: nat)
    requires i < |b|
    ensures RemoveAt(a + b + c, |a| + i) == a + RemoveAt(b, i) + c
  {
    assert (a + b + c)[..|a| + i] == a + b[..i];
    assert (a + b + c)[|a| + i + 1..] == b[i + 1..] + c;
  }

  function Reversed<T>(s: seq<T>): (r: seq<T>)
    ensures |r| == |s|
    ensures forall k :: 0 <= k < |s| ==> r[k] == s[|s| - 1 - k]
  {
    seq(|s|, k requires 0 <= k < |s| => s[|s| - 1 - k])
  }
}
