/** Sequence combinators that several parts of the application use:
    `Array.prototype.filter` (Keep), the subsequence relation it yields,
    duplicate-freedom, and removal of every occurrence of a value. */
module Seqs {

  /** `s.filter(p)`: the elements that satisfy `p`, in their original order. */
  function Keep<T>(s: seq<T>, p: T -> bool): seq<T>
  {
    if s == [] then [] else (if p(s[0]) then [s[0]] else []) + Keep(s[1..], p)
  }

  /** `a` is obtained from `b` by deleting some elements. */
  ghost predicate Subsequence<T>(a: seq<T>, b: seq<T>)
    decreases |b|
  {
    if b == [] then a == []
    else Subsequence(a, b[1..]) || (a != [] && a[0] == b[0] && Subsequence(a[1..], b[1..]))
  }

  predicate NoDups<T(==)>(s: seq<T>) {
    forall i, j :: 0 <= i < j < |s| ==> s[i] != s[j]
  }

  /** The test `x => x !== v`. */
  function Other<T(==)>(v: T): T -> bool {
    x => x != v
  }

  /** `s.filter(x => x !== v)`. */
  function RemoveAll<T(==,!new)>(s: seq<T>, v: T): (r: seq<T>)
    ensures v !in r
    ensures forall x :: x != v ==> multiset(r)[x] == multiset(s)[x]
    ensures Subsequence(r, s)
  {
    KeepMultiset(s, Other(v));
    KeepMembers(s, Other(v));
    KeepIsSubsequence(s, Other(v));
    Keep(s, Other(v))
  }

  lemma {:induction false} KeepMultiset<T>(s: seq<T>, p: T -> bool)
    ensures forall x :: multiset(Keep(s, p))[x] == if p(x) then multiset(s)[x] else 0
  {
    if s != [] {
      KeepMultiset(s[1..], p);
      assert s == [s[0]] + s[1..];
    }
  }

  lemma {:induction false} KeepMembers<T>(s: seq<T>, p: T -> bool)
    ensures forall x :: x in Keep(s, p) <==> x in s && p(x)
  {
    KeepMultiset(s, p);
    forall x ensures x in Keep(s, p) <==> x in s && p(x) {
      assert x in Keep(s, p) <==> multiset(Keep(s, p))[x] > 0;
      assert x in s <==> multiset(s)[x] > 0;
    }
  }

  lemma {:induction false} KeepConcat<T>(a: seq<T>, b: seq<T>, p: T -> bool)
    ensures Keep(a + b, p) == Keep(a, p) + Keep(b, p)
  {
    if a != [] {
      assert (a + b)[1..] == a[1..] + b;
      KeepConcat(a[1..], b, p);
    } else {
      assert a + b == b;
    }
  }

  lemma {:induction false} KeepIsSubsequence<T>(s: seq<T>, p: T -> bool)
    ensures Subsequence(Keep(s, p), s)
  {
    if s != [] {
      KeepIsSubsequence(s[1..], p);
      var k := Keep(s, p);
      if p(s[0]) {
        assert k[0] == s[0] && k[1..] == Keep(s[1..], p);
      } else {
        assert k == Keep(s[1..], p);
      }
    }
  }

  lemma {:induction false} KeepAll<T>(s: seq<T>, p: T -> bool)
    requires forall i :: 0 <= i < |s| ==> p(s[i])
    ensures Keep(s, p) == s
  {
    if s != [] {
      KeepAll(s[1..], p);
    }
  }

  lemma {:induction false} SubsequenceRefl<T>(s: seq<T>)
    ensures Subsequence(s, s)
  {
    if s != [] {
      SubsequenceRefl(s[1..]);
    }
  }

  lemma {:induction false} SubsequenceTrans<T>(a: seq<T>, b: seq<T>, c: seq<T>)
    requires Subsequence(a, b) && Subsequence(b, c)
    ensures Subsequence(a, c)
    decreases |c|
  {
    if c == [] {
    } else if Subsequence(b, c[1..]) {
      SubsequenceTrans(a, b, c[1..]);
    } else {
      // b[0] == c[0] and b[1..] is a subsequence of c[1..]
      if Subsequence(a, b[1..]) {
        SubsequenceTrans(a, b[1..], c[1..]);
      } else {
        SubsequenceTrans(a[1..], b[1..], c[1..]);
      }
    }
  }

  /** A subsequence keeps every element it has, with no more copies. */
  lemma {:induction false} SubsequenceMultiset<T>(a: seq<T>, b: seq<T>)
    requires Subsequence(a, b)
    ensures multiset(a) <= multiset(b)
    decreases |b|
  {
    if b != [] {
      assert b == [b[0]] + b[1..];
      if Subsequence(a, b[1..]) {
        SubsequenceMultiset(a, b[1..]);
      } else {
        SubsequenceMultiset(a[1..], b[1..]);
        assert a == [a[0]] + a[1..];
      }
    }
  }

  /** No element occurs twice exactly when every count is at most one. */
  lemma {:induction false} NoDupsCounts<T>(s: seq<T>)
    ensures NoDups(s) <==> forall x :: multiset(s)[x] <= 1
  {
    if s != [] {
      NoDupsCounts(s[1..]);
      assert s == [s[0]] + s[1..];
      if NoDups(s) {
        assert s[0] !in s[1..];
      } else {
        var i, j :| 0 <= i < j < |s| && s[i] == s[j];
        if i == 0 {
          assert s[1..][j - 1] == s[0];
          assert s[0] in s[1..];
          assert multiset(s)[s[0]] >= 2;
        } else {
          assert s[1..][i - 1] == s[1..][j - 1];
          assert !NoDups(s[1..]);
          var x :| multiset(s[1..])[x] > 1;
          assert multiset(s)[x] > 1;
        }
      }
    }
  }

  /** Duplicate-freedom depends only on the multiset of elements. */
  lemma NoDupsPermutation<T>(a: seq<T>, b: seq<T>)
    requires multiset(a) == multiset(b) && NoDups(a)
    ensures NoDups(b)
  {
    NoDupsCounts(a);
    NoDupsCounts(b);
  }

  /** Keeping by `q` what was kept by `p` keeps what satisfies both. */
  lemma {:induction false} KeepKeep<T>(s: seq<T>, p: T -> bool, q: T -> bool, pq: T -> bool)
    requires forall x :: pq(x) == (p(x) && q(x))
    ensures Keep(Keep(s, p), q) == Keep(s, pq)
  {
    if s != [] {
      KeepKeep(s[1..], p, q, pq);
      if p(s[0]) {
        var k := Keep(s, p);
        assert k[0] == s[0] && k[1..] == Keep(s[1..], p);
        assert k != [] && k == [s[0]] + Keep(s[1..], p);
        assert Keep(k, q) == (if q(s[0]) then [s[0]] else []) + Keep(Keep(s[1..], p), q);
        assert pq(s[0]) == q(s[0]);
        assert Keep(s, pq) == (if q(s[0]) then [s[0]] else []) + Keep(s[1..], pq);
      } else {
        assert !pq(s[0]);
        assert Keep(s, p) == [] + Keep(s[1..], p) == Keep(s[1..], p);
        assert Keep(s, pq) == [] + Keep(s[1..], pq) == Keep(s[1..], pq);
      }
    }
  }

  /** Two tests that agree on every element keep the same elements. */
  lemma {:induction false} KeepAgree<T>(s: seq<T>, p: T -> bool, q: T -> bool)
    requires forall i :: 0 <= i < |s| ==> p(s[i]) == q(s[i])
    ensures Keep(s, p) == Keep(s, q)
  {
    if s != [] {
      KeepAgree(s[1..], p, q);
    }
  }

  lemma RemoveAllMembers<T(!new)>(s: seq<T>, v: T)
    ensures forall x :: x in RemoveAll(s, v) <==> x in s && x != v
  {
    forall x ensures x in RemoveAll(s, v) <==> x in s && x != v {
      assert x in RemoveAll(s, v) <==> multiset(RemoveAll(s, v))[x] > 0;
      assert x in s <==> multiset(s)[x] > 0;
    }
  }

  /** A sequence is what lies before position `i`, the element there, and the rest. */
  lemma SplitAround<T>(s: seq<T>, i: nat)
    requires i < |s|
    ensures s == s[..i] + ([s[i]] + s[i + 1..])
  {
    assert s[..i] + ([s[i]] + s[i + 1..]) == s[..i] + [s[i]] + s[i + 1..];
  }

  /** Taking the first element out of one permutation and the same element out
      of the other leaves permutations. */
  lemma RemoveFirstPermutation<T>(a: seq<T>, b: seq<T>, i: nat)
    requires a != [] && i < |b| && b[i] == a[0] && multiset(a) == multiset(b)
    ensures multiset(a[1..]) == multiset(b[..i] + b[i + 1..])
  {
    RemoveAtMultiset(a, 0);
    RemoveAtMultiset(b, i);
    assert a[..0] + a[1..] == a[1..];
  }

  /** Taking out the element at `i` takes one copy of it out of the multiset. */
  lemma RemoveAtMultiset<T>(s: seq<T>, i: nat)
    requires i < |s|
    ensures multiset(s[..i] + s[i + 1..]) == multiset(s) - multiset{s[i]}
  {
    assert s == s[..i] + [s[i]] + s[i + 1..];
  }

  /** How `slice` and `splice` read a position: negative counts from the end. */
  function ClampIndex(i: int, len: nat): (r: nat)
    ensures r <= len
  {
    if i < 0 then (if len + i < 0 then 0 else len + i) else if i > len then len else i
  }


  /** Keeping some elements of a duplicate-free list leaves it duplicate-free. */
  lemma KeepNoDups<T>(s: seq<T>, p: T -> bool)
    requires NoDups(s)
    ensures NoDups(Keep(s, p))
  {
    NoDupsCounts(s);
    KeepMultiset(s, p);
    NoDupsCounts(Keep(s, p));
  }

  /** Two duplicate-free lists with no element in common join into one. */
  lemma NoDupsConcat<T>(a: seq<T>, b: seq<T>)
    requires NoDups(a) && NoDups(b)
    requires forall x :: x in a ==> x !in b
    ensures NoDups(a + b)
  {
    forall i, j | 0 <= i < j < |a + b| ensures (a + b)[i] != (a + b)[j] {
      if j < |a| {
        assert (a + b)[i] == a[i] && (a + b)[j] == a[j];
      } else if i >= |a| {
        assert (a + b)[i] == b[i - |a|] && (a + b)[j] == b[j - |a|];
      } else {
        assert (a + b)[i] == a[i] && (a + b)[j] == b[j - |a|];
        assert a[i] in a && b[j - |a|] in b;
      }
    }
  }

  lemma RemoveAllNoDups<T(!new)>(s: seq<T>, v: T)
    requires NoDups(s)
    ensures NoDups(RemoveAll(s, v))
  {
    KeepNoDups(s, Other(v));
  }
}
