/** Ordering by a caller-supplied comparator: the `ORDER BY` clauses of the
    routers and the `Array.prototype.sort` calls of the pages. */
module Sorting {

  /** `le` relates every pair one way or the other. */
  ghost predicate Total<T(!new)>(le: (T, T) -> bool)
  {
    forall x, y :: le(x, y) || le(y, x)
  }

  ghost predicate Transitive<T(!new)>(le: (T, T) -> bool)
  {
    forall x, y, z :: le(x, y) && le(y, z) ==> le(x, z)
  }

  /** Every neighbouring pair is in order. */
  predicate Sorted<T>(s: seq<T>, le: (T, T) -> bool)
  {
    forall i :: 0 < i < |s| ==> le(s[i - 1], s[i])
  }

  /** Every pair, not only the neighbouring ones, is in order. */
  ghost predicate SortedAll<T>(s: seq<T>, le: (T, T) -> bool)
  {
    forall i, j :: 0 <= i < j < |s| ==> le(s[i], s[j])
  }

  /** For a transitive comparator, ordered neighbours give an ordered sequence. */
  lemma {:induction false} SortedIsSortedAll<T(!new)>(s: seq<T>, le: (T, T) -> bool)
    requires Transitive(le)
    requires Sorted(s, le)
    ensures SortedAll(s, le)
  {
    if |s| > 1 {
      SortedIsSortedAll(s[..|s| - 1], le);
      forall i | 0 <= i < |s| - 1
        ensures le(s[i], s[|s| - 1])
      {
        if i < |s| - 2 {
          assert le(s[i], s[|s| - 2]);
        }
      }
    }
  }

  /** Sorts `a` in place: the result is ordered by `le` and a permutation of
      the input. */
  method SortBy<T(!new)>(a: array<T>, le: (T, T) -> bool)
    requires Total(le)
    modifies a
    ensures Sorted(a[..], le)
    ensures multiset(a[..]) == old(multiset(a[..]))
  {
    var i := 0;
    while i < a.Length
      invariant 0 <= i <= a.Length
      invariant Sorted(a[..i], le)
      invariant multiset(a[..]) == old(multiset(a[..]))
    {
      if 0 < i {
        InsertLast(a, i, le);
      }
      i := i + 1;
    }
  }

  /** Moves `a[i]` left into the sorted prefix `a[..i]`. */
  method InsertLast<T(!new)>(a: array<T>, i: nat, le: (T, T) -> bool)
    requires Total(le)
    requires 0 < i < a.Length
    requires Sorted(a[..i], le)
    modifies a
    ensures Sorted(a[..i + 1], le)
    ensures a[i + 1..] == old(a[i + 1..])
    ensures multiset(a[..]) == old(multiset(a[..]))
  {
    var j := i;
    while 0 < j && !le(a[j - 1], a[j])
      invariant 0 <= j <= i
      invariant SortedExcept(a[..i + 1], j, le)
      invariant a[i + 1..] == old(a[i + 1..])
      invariant multiset(a[..]) == old(multiset(a[..]))
    {
      ghost var before := a[..];
      a[j - 1], a[j] := a[j], a[j - 1];
      SwapStep(before, a[..], i, j, le);
      j := j - 1;
    }
  }

  /** `s` is in order at every neighbouring pair except across position `j`,
      and the neighbours of `j` are in order with each other. */
  ghost predicate SortedExcept<T>(s: seq<T>, j: nat, le: (T, T) -> bool)
  {
    && (forall k :: 0 < k < |s| && k != j ==> le(s[k - 1], s[k]))
    && (0 < j < |s| - 1 ==> le(s[j - 1], s[j + 1]))
  }

  /** Swapping the out-of-order pair at `j - 1`, `j` moves the exception one
      place left and keeps the elements. */
  lemma SwapStep<T(!new)>(before: seq<T>, after: seq<T>, i: nat, j: nat, le: (T, T) -> bool)
    requires Total(le)
    requires 0 < j <= i < |before| == |after|
    requires SortedExcept(before[..i + 1], j, le)
    requires !le(before[j - 1], before[j])
    requires after == before[j - 1 := before[j]][j := before[j - 1]]
    ensures SortedExcept(after[..i + 1], j - 1, le)
    ensures after[i + 1..] == before[i + 1..]
    ensures multiset(after) == multiset(before)
  {
    assert le(before[j], before[j - 1]);
    var s, t := before[..i + 1], after[..i + 1];
    forall k | 0 < k < |t| && k != j - 1
      ensures le(t[k - 1], t[k])
    {
      if k == j + 1 {
        assert t[k - 1] == s[j - 1] && t[k] == s[j + 1];
      } else if k != j {
        assert t[k - 1] == s[k - 1] && t[k] == s[k];
      }
    }
    if 0 < j - 1 {
      assert le(s[j - 2], s[j - 1]);
      assert t[j - 2] == s[j - 2] && t[j] == s[j - 1];
    }
  }

  /** No element occurs twice. */
  predicate Distinct<T(==)>(s: seq<T>)
  {
    forall i, j :: 0 <= i < j < |s| ==> s[i] != s[j]
  }

  lemma {:induction false} DistinctCountsOnce<T>(s: seq<T>)
    requires Distinct(s)
    ensures forall x :: multiset(s)[x] <= 1
  {
    if s != [] {
      assert s == [s[0]] + s[1..];
      DistinctCountsOnce(s[1..]);
      assert s[0] !in s[1..];
    }
  }

  /** Reordering keeps a sequence free of repetitions. */
  lemma PermutationKeepsDistinct<T>(s: seq<T>, t: seq<T>)
    requires Distinct(s)
    requires multiset(s) == multiset(t)
    ensures Distinct(t)
  {
    DistinctCountsOnce(s);
    forall i, j | 0 <= i < j < |t|
      ensures t[i] != t[j]
    {
      var x := t[j];
      assert t == t[..j] + t[j..];
      assert t[j..][0] == x;
      assert multiset(t)[x] == multiset(t[..j])[x] + multiset(t[j..])[x];
      assert x !in multiset(t[..j]);
      assert t[..j][i] == t[i];
    }
  }
}
