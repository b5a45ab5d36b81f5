/**
 * Stable sorting, as a function: what the library's calls to Go's `sort` package return. Sorting permutes,
 * and under an antisymmetric order the sorted sequence of a multiset is unique.
 */
module Sorting {

  /** `le` is reflexive, transitive and total. */
  ghost predicate TotalPreorder<T(!new)>(le: (T, T) -> bool) {
    && (forall x, y :: le(x, y) || le(y, x))
    && (forall x, y, z :: le(x, y) && le(y, z) ==> le(x, z))
  }

  ghost predicate SortedBy<T>(s: seq<T>, le: (T, T) -> bool) {
    forall i, j :: 0 <= i < j < |s| ==> le(s[i], s[j])
  }

  /** Puts `x` behind everything that may stand before it. */
  function Insert<T>(s: seq<T>, x: T, le: (T, T) -> bool): seq<T> {
    if s == [] then [x]
    else if le(s[|s| - 1], x) then s + [x]
    else Insert(s[..|s| - 1], x, le) + [s[|s| - 1]]
  }

  function Sort<T>(s: seq<T>, le: (T, T) -> bool): seq<T> {
    if s == [] then [] else Insert(Sort(s[..|s| - 1], le), s[|s| - 1], le)
  }

  lemma {:induction false} InsertMembers<T>(s: seq<T>, x: T, le: (T, T) -> bool)
    ensures multiset(Insert(s, x, le)) == multiset(s) + multiset{x}
  {
    if s != [] {
      assert s == s[..|s| - 1] + [s[|s| - 1]];
      if !le(s[|s| - 1], x) {
        InsertMembers(s[..|s| - 1], x, le);
      }
    }
  }

  /** What is inserted into a list stays before whatever stood behind all of it. */
  lemma InsertBefore<T>(s: seq<T>, x: T, le: (T, T) -> bool, last: T, i: nat)
    requires i < |Insert(s, x, le)| && le(x, last) && forall k :: 0 <= k < |s| ==> le(s[k], last)
    ensures le(Insert(s, x, le)[i], last)
  {
    InsertMembers(s, x, le);
    var r := Insert(s, x, le);
    assert r[i] in multiset(r);
    if r[i] != x {
      assert r[i] in s;
    }
  }

  lemma AppendSorted<T>(s: seq<T>, x: T, le: (T, T) -> bool)
    requires SortedBy(s, le) && forall k :: 0 <= k < |s| ==> le(s[k], x)
    ensures SortedBy(s + [x], le)
  {
  }

  lemma {:induction false} InsertSorted<T(!new)>(s: seq<T>, x: T, le: (T, T) -> bool)
    requires TotalPreorder(le) && SortedBy(s, le)
    ensures SortedBy(Insert(s, x, le), le)
  {
    if s != [] {
      var front, last := s[..|s| - 1], s[|s| - 1];
      if le(last, x) {
        assert forall k :: 0 <= k < |s| - 1 ==> le(s[k], last);
        AppendSorted(s, x, le);
      } else {
        InsertSorted(front, x, le);
        forall i | 0 <= i < |Insert(front, x, le)| ensures le(Insert(front, x, le)[i], last) {
          InsertBefore(front, x, le, last, i);
        }
        AppendSorted(Insert(front, x, le), last, le);
      }
    }
  }

  /** Sorting yields a sorted permutation. */
  lemma {:induction false} SortKeeps<T(!new)>(s: seq<T>, le: (T, T) -> bool)
    requires TotalPreorder(le)
    ensures multiset(Sort(s, le)) == multiset(s)
    ensures SortedBy(Sort(s, le), le)
  {
    if s != [] {
      var front, last := s[..|s| - 1], s[|s| - 1];
      assert s == front + [last];
      SortKeeps(front, le);
      InsertMembers(Sort(front, le), last, le);
      InsertSorted(Sort(front, le), last, le);
    }
  }

  lemma SameMembers<T>(a: seq<T>, b: seq<T>)
    requires multiset(a) == multiset(b)
    ensures |a| == |b| && forall x :: x in a <==> x in b
  {
    assert |multiset(a)| == |a| && |multiset(b)| == |b|;
    forall x ensures x in a <==> x in b {
      assert x in a <==> x in multiset(a);
      assert x in b <==> x in multiset(b);
    }
  }

  predicate Distinct<T(==)>(s: seq<T>) {
    forall i, j :: 0 <= i < j < |s| ==> s[i] != s[j]
  }

  lemma {:induction false} DistinctByCount<T>(s: seq<T>)
    ensures Distinct(s) <==> forall x :: multiset(s)[x] <= 1
  {
    if s != [] {
      var front, last := s[..|s| - 1], s[|s| - 1];
      assert s == front + [last];
      DistinctByCount(front);
      if Distinct(s) {
        assert last !in front;
        assert multiset(front)[last] == 0;
      }
      if forall x :: multiset(s)[x] <= 1 {
        assert multiset(s)[last] == multiset(front)[last] + 1;
        assert last !in multiset(front);
        assert last !in front;
        forall x ensures multiset(front)[x] <= 1 {
          assert multiset(front)[x] <= multiset(s)[x];
        }
      }
    }
  }

  /** A permutation of distinct items has distinct items. */
  lemma DistinctPermutation<T>(a: seq<T>, b: seq<T>)
    requires multiset(a) == multiset(b) && Distinct(a)
    ensures Distinct(b)
  {
    DistinctByCount(a);
    DistinctByCount(b);
  }

  lemma LastIsGreatest<T>(s: seq<T>, le: (T, T) -> bool, x: T)
    requires SortedBy(s, le) && x in s
    ensures x == s[|s| - 1] || le(x, s[|s| - 1])
  {
  }

  /** Two sorted sequences with the same members end alike. */
  lemma SameLast<T(!new)>(a: seq<T>, b: seq<T>, le: (T, T) -> bool)
    requires forall x, y :: le(x, y) && le(y, x) ==> x == y
    requires SortedBy(a, le) && SortedBy(b, le) && a != [] && b != [] && forall x :: x in a <==> x in b
    ensures a[|a| - 1] == b[|b| - 1]
  {
    assert a[|a| - 1] in a && b[|b| - 1] in b;
    LastIsGreatest(a, le, b[|b| - 1]);
    LastIsGreatest(b, le, a[|a| - 1]);
  }

  lemma DropLast<T>(s: seq<T>)
    requires s != []
    ensures multiset(s[..|s| - 1]) == multiset(s) - multiset{s[|s| - 1]}
  {
    assert s == s[..|s| - 1] + [s[|s| - 1]];
  }

  lemma SameFront<T>(a: seq<T>, b: seq<T>)
    requires a != [] && b != [] && multiset(a) == multiset(b) && a[|a| - 1] == b[|b| - 1]
    ensures multiset(a[..|a| - 1]) == multiset(b[..|b| - 1])
    ensures a[..|a| - 1] == b[..|b| - 1] ==> a == b
  {
    DropLast(a);
    DropLast(b);
    assert a == a[..|a| - 1] + [a[|a| - 1]] && b == b[..|b| - 1] + [b[|b| - 1]];
  }

  lemma FrontSorted<T>(s: seq<T>, le: (T, T) -> bool)
    requires SortedBy(s, le) && s != []
    ensures SortedBy(s[..|s| - 1], le)
  {
  }

  /** Under an antisymmetric order a multiset has one sorted sequence. */
  lemma {:induction false} SortedIsUnique<T(!new)>(a: seq<T>, b: seq<T>, le: (T, T) -> bool)
    requires forall x, y :: le(x, y) && le(y, x) ==> x == y
    requires SortedBy(a, le) && SortedBy(b, le) && multiset(a) == multiset(b)
    ensures a == b
  {
    SameMembers(a, b);
    if a != [] {
      SameLast(a, b, le);
      SameFront(a, b);
      FrontSorted(a, le);
      FrontSorted(b, le);
      SortedIsUnique(a[..|a| - 1], b[..|b| - 1], le);
    }
  }
}
