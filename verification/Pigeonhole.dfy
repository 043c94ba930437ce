/** Counting facts behind the bounded tables. */
module Pigeonhole {
  function Elements<T(==)>(s: seq<T>): set<T> {
    set x | x in s
  }

  ghost predicate AllDistinct<T>(s: seq<T>) {
    forall a, b :: 0 <= a < b < |s| ==> s[a] != s[b]
  }

  function Below(n: nat): (r: set<int>)
    ensures forall i :: i in r <==> 0 <= i < n
    ensures |r| == n
  {
    if n == 0 then {} else Below(n - 1) + {n - 1}
  }

  lemma {:induction false} DistinctElements<T>(s: seq<T>)
    requires AllDistinct(s)
    ensures |Elements(s)| == |s|
  {
    if s == [] {
    } else {
      var front, last := s[..|s| - 1], s[|s| - 1];
      DistinctElements(front);
      assert s == front + [last];
      assert Elements(s) == Elements(front) + {last};
    }
  }

  lemma {:induction false} ElementsFit<T>(s: seq<T>)
    ensures |Elements(s)| <= |s|
  {
    if s == [] {
    } else {
      var front, last := s[..|s| - 1], s[|s| - 1];
      ElementsFit(front);
      assert s == front + [last];
      assert Elements(s) == Elements(front) + {last};
    }
  }

  lemma {:induction false} SubsetSize<T>(a: set<T>, b: set<T>)
    requires a <= b
    ensures |a| <= |b|
  {
    if a == {} {
    } else {
      var x :| x in a;
      SubsetSize(a - {x}, b - {x});
    }
  }

  /** Different elements of a set: the sequence is no longer than the set is large. */
  lemma {:induction false} DistinctFits<T>(s: seq<T>, within: set<T>)
    requires AllDistinct(s) && forall x :: x in s ==> x in within
    ensures |s| <= |within|
  {
    DistinctElements(s);
    SubsetSize(Elements(s), within);
  }

  /** Different indices below n: there are at most n of them. */
  lemma {:induction false} DistinctIndicesFit(s: seq<int>, n: nat)
    requires AllDistinct(s) && forall x :: x in s ==> 0 <= x < n
    ensures |s| <= n
  {
    DistinctFits(s, Below(n));
  }

  /** Slots holding -1, or else different indices of other slots than w: one of them holds -1. */
  lemma {:induction false} SomeSlotIsFree(ids: seq<int>, w: int)
    requires 0 <= w < |ids|
    requires forall i :: 0 <= i < |ids| && ids[i] != -1 ==> 0 <= ids[i] < |ids| && ids[i] != w
    requires forall i, j :: 0 <= i < j < |ids| && ids[i] != -1 ==> ids[i] != ids[j]
    ensures -1 in ids
  {
    if -1 !in ids {
      DistinctFits(ids, Below(|ids|) - {w});
    }
  }
}
