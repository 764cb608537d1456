/** The two list edits the editors perform by copying an array (`[...xs]`)
    and then calling `splice` on the copy: taking one element out, and
    putting one element in. */
module Splice {
  import opened Seqs

  /** The list `splice(index, 1)` leaves: the element at the position
      `index` denotes taken out, or the same list when that position is past
      the end. */
  function RemovedAt<T>(s: seq<T>, index: int): seq<T> {
    var start := ClampIndex(index, |s|);
    if start < |s| then s[..start] + s[start + 1..] else s
  }

  /** The list `splice(at, 0, x)` leaves. */
  function InsertedAt<T>(s: seq<T>, at: nat, x: T): seq<T>
    requires at <= |s|
  {
    s[..at] + [x] + s[at..]
  }

  /** `const copy = [...s]; copy.splice(index, 1)`: the copy is shifted left
      over the removed slot, one element at a time. */
  method SpliceOut<T>(s: seq<T>, index: int) returns (r: seq<T>)
    ensures r == RemovedAt(s, index)
  {
    var a := new T[|s|](i requires 0 <= i < |s| => s[i]);
    var start := ClampIndex(index, |s|);
    if start == |s| {
      return a[..];
    }
    var i := start;
    while i < a.Length - 1
      invariant start <= i <= a.Length - 1
      invariant forall k :: 0 <= k < start ==> a[k] == s[k]
      invariant forall k :: start <= k < i ==> a[k] == s[k + 1]
      invariant forall k :: i <= k < a.Length ==> a[k] == s[k]
      modifies a
    {
      a[i] := a[i + 1];
      i := i + 1;
    }
    r := a[..a.Length - 1];
    assert forall k :: 0 <= k < |r| ==> r[k] == (s[..start] + s[start + 1..])[k];
  }

  /** `const copy = [...s]; copy.splice(at, 0, x)`: the tail of the copy is
      shifted right by one and `x` is written into the gap. */
  method SpliceIn<T>(s: seq<T>, at: nat, x: T) returns (r: seq<T>)
    requires at <= |s|
    ensures r == InsertedAt(s, at, x)
  {
    var a := new T[|s| + 1](i requires 0 <= i < |s| + 1 => if i < |s| then s[i] else x);
    var i := |s|;
    while i > at
      invariant at <= i <= |s|
      invariant forall k :: 0 <= k < i ==> a[k] == s[k]
      invariant forall k :: i < k <= |s| ==> a[k] == s[k - 1]
      modifies a
    {
      a[i] := a[i - 1];
      i := i - 1;
    }
    a[at] := x;
    r := a[..];
    assert forall k :: 0 <= k < |r| ==> r[k] == (s[..at] + [x] + s[at..])[k];
  }

  /** Removing takes out exactly one copy of the element at the position, or
      nothing for a position past the end. */
  lemma RemovedAtSpec<T>(s: seq<T>, index: int)
    ensures var start := ClampIndex(index, |s|);
      && (start < |s| ==>
            |RemovedAt(s, index)| == |s| - 1 && multiset(RemovedAt(s, index)) == multiset(s) - multiset{s[start]})
      && (start == |s| ==> RemovedAt(s, index) == s)
  {
    var start := ClampIndex(index, |s|);
    if start < |s| {
      RemoveAtMultiset(s, start);
    }
  }

  /** Inserting adds one copy of `x`, at the position asked for, and keeps
      everything before and after it in place. */
  lemma InsertedAtSpec<T>(s: seq<T>, at: nat, x: T)
    requires at <= |s|
    ensures |InsertedAt(s, at, x)| == |s| + 1
    ensures InsertedAt(s, at, x)[at] == x
    ensures InsertedAt(s, at, x)[..at] == s[..at] && InsertedAt(s, at, x)[at + 1..] == s[at..]
    ensures multiset(InsertedAt(s, at, x)) == multiset(s) + multiset{x}
  {
    assert s == s[..at] + s[at..];
  }

  /** Removing what was just inserted gives back the original list; so does
      removing the element `addFilter` has just appended. */
  lemma RemoveUndoesInsert<T>(s: seq<T>, at: nat, x: T)
    requires at <= |s|
    ensures RemovedAt(InsertedAt(s, at, x), at) == s
    ensures RemovedAt(s + [x], |s|) == s
  {
    var t := InsertedAt(s, at, x);
    assert t[..at] == s[..at] && t[at + 1..] == s[at..];
    assert s == s[..at] + s[at..];
    assert (s + [x])[..|s|] == s;
  }
}
