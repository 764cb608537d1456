/** A stable sort over a total preorder. Both `_.orderBy` (records by one
    field) and `Array.prototype.sort` (paths, group keys by size, columns)
    are stable since ES2019, so one definition serves every caller. */
module Sorting {
  import opened Seqs

  /** `le` is total (so also reflexive) and transitive; ties are allowed. */
  ghost predicate TotalPreorder<T(!new)>(le: (T, T) -> bool) {
    && (forall a, b :: le(a, b) || le(b, a))
    && (forall a, b, c :: le(a, b) && le(b, c) ==> le(a, c))
  }

  predicate Equivalent<T>(le: (T, T) -> bool, a: T, b: T) {
    le(a, b) && le(b, a)
  }

  ghost predicate Sorted<T>(s: seq<T>, le: (T, T) -> bool) {
    forall i, j :: 0 <= i < j < |s| ==> le(s[i], s[j])
  }

  /** Places `x` after every element of `s` that is not strictly greater. */
  function Insert<T>(x: T, s: seq<T>, le: (T, T) -> bool): seq<T>
  {
    if s == [] then [x]
    else if !le(s[0], x) then [x] + s
    else [s[0]] + Insert(x, s[1..], le)
  }

  /** Insertion sort: each element goes behind the ones already placed that tie with it. */
  function SortBy<T>(s: seq<T>, le: (T, T) -> bool): seq<T>
  {
    if s == [] then [] else Insert(s[|s| - 1], SortBy(s[..|s| - 1], le), le)
  }

  function SameClass<T>(le: (T, T) -> bool, k: T): T -> bool {
    x => Equivalent(le, x, k)
  }

  /** The elements of `s` that tie with `k`, in their order in `s`. */
  function ClassOf<T>(s: seq<T>, le: (T, T) -> bool, k: T): seq<T> {
    Keep(s, SameClass(le, k))
  }

  lemma {:induction false} InsertMultiset<T>(x: T, s: seq<T>, le: (T, T) -> bool)
    ensures multiset(Insert(x, s, le)) == multiset(s) + multiset{x}
  {
    if s != [] && le(s[0], x) {
      InsertMultiset(x, s[1..], le);
      assert s == [s[0]] + s[1..];
    }
  }

  lemma {:induction false} InsertSorted<T(!new)>(x: T, s: seq<T>, le: (T, T) -> bool)
    requires TotalPreorder(le) && Sorted(s, le)
    ensures Sorted(Insert(x, s, le), le)
  {
    if s == [] {
    } else if !le(s[0], x) {
      assert le(x, s[0]);
    } else {
      var t := Insert(x, s[1..], le);
      InsertSorted(x, s[1..], le);
      InsertMultiset(x, s[1..], le);
      forall j | 0 <= j < |t| ensures le(s[0], t[j]) {
        assert t[j] in multiset(s[1..]) + multiset{x};
        if t[j] != x {
          assert t[j] in s[1..];
          var m :| 0 <= m < |s[1..]| && s[1..][m] == t[j];
          assert s[m + 1] == t[j];
        }
      }
    }
  }

  lemma {:induction false} ClassOfEmpty<T>(s: seq<T>, le: (T, T) -> bool, k: T)
    requires forall i :: 0 <= i < |s| ==> !Equivalent(le, s[i], k)
    ensures ClassOf(s, le, k) == []
  {
    if s != [] {
      ClassOfEmpty(s[1..], le, k);
    }
  }

  lemma {:induction false} InsertClass<T(!new)>(x: T, s: seq<T>, le: (T, T) -> bool, k: T)
    requires TotalPreorder(le) && Sorted(s, le)
    ensures ClassOf(Insert(x, s, le), le, k) == ClassOf(s, le, k) + (if Equivalent(le, x, k) then [x] else [])
  {
    if s == [] {
      assert [x][1..] == [];
      assert ClassOf([x], le, k) == (if Equivalent(le, x, k) then [x] else []) + ClassOf([], le, k);
    } else if !le(s[0], x) {
      if Equivalent(le, x, k) {
        forall i | 0 <= i < |s| ensures !Equivalent(le, s[i], k) {
          assert i == 0 || le(s[0], s[i]);
          assert !le(s[i], x);
        }
        ClassOfEmpty(s, le, k);
      }
      assert ClassOf([x] + s, le, k) == (if Equivalent(le, x, k) then [x] else []) + ClassOf(s, le, k);
    } else {
      InsertClass(x, s[1..], le, k);
      var head := if Equivalent(le, s[0], k) then [s[0]] else [];
      assert ClassOf(Insert(x, s, le), le, k) == head + ClassOf(Insert(x, s[1..], le), le, k);
      assert ClassOf(s, le, k) == head + ClassOf(s[1..], le, k);
    }
  }

  /** SortBy is a stable sort: it permutes its input into `le` order and
      keeps the input order among elements that tie. */
  lemma {:induction false} SortByCorrect<T(!new)>(s: seq<T>, le: (T, T) -> bool)
    requires TotalPreorder(le)
    ensures multiset(SortBy(s, le)) == multiset(s)
    ensures Sorted(SortBy(s, le), le)
    ensures forall k :: ClassOf(SortBy(s, le), le, k) == ClassOf(s, le, k)
  {
    if s != [] {
      var init, last := s[..|s| - 1], s[|s| - 1];
      assert s == init + [last];
      SortByCorrect(init, le);
      InsertMultiset(last, SortBy(init, le), le);
      InsertSorted(last, SortBy(init, le), le);
      forall k ensures ClassOf(SortBy(s, le), le, k) == ClassOf(s, le, k) {
        InsertClass(last, SortBy(init, le), le, k);
        KeepConcat(init, [last], SameClass(le, k));
      }
    }
  }
}
