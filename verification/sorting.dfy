/** Ascending numeric sort of a roll, and the facts about sorted sequences and
    face counts that the scoring rules rely on. */
module Sorting {

  predicate Sorted(s: seq<int>) {
    forall i, j :: 0 <= i < j < |s| ==> s[i] <= s[j]
  }

  /** No face value occurs at two positions. */
  predicate PairwiseDistinct(s: seq<int>) {
    forall i, j :: 0 <= i < j < |s| ==> s[i] != s[j]
  }

  /** Inserts `x` into a sorted sequence, keeping it sorted. */
  function Insert(x: int, s: seq<int>): (r: seq<int>)
    requires Sorted(s)
    ensures Sorted(r)
    ensures multiset(r) == multiset(s) + multiset{x}
  {
    if |s| == 0 then [x]
    else if x <= s[0] then
      PrependSorted(x, s);
      [x] + s
    else
      var rest := Insert(x, s[1..]);
      LowerBoundOfInsert(x, s, rest);
      PrependSorted(s[0], rest);
      [s[0]] + rest
  }

  lemma PrependSorted(h: int, s: seq<int>)
    requires Sorted(s)
    requires forall k :: 0 <= k < |s| ==> h <= s[k]
    ensures Sorted([h] + s)
  {
  }

  lemma LowerBoundOfInsert(x: int, s: seq<int>, rest: seq<int>)
    requires Sorted(s) && |s| > 0 && s[0] < x
    requires multiset(rest) == multiset(s[1..]) + multiset{x}
    ensures forall k :: 0 <= k < |rest| ==> s[0] <= rest[k]
    ensures multiset([s[0]] + rest) == multiset(s) + multiset{x}
  {
    assert s == [s[0]] + s[1..];
    forall k | 0 <= k < |rest|
      ensures s[0] <= rest[k]
    {
      assert rest[k] in multiset(rest);
      if rest[k] != x {
        assert rest[k] in multiset(s[1..]);
      }
    }
  }

  /** The ascending sort `calcPoints` applies to its copy of the roll. */
  function Sort(s: seq<int>): (r: seq<int>)
    ensures Sorted(r)
    ensures multiset(r) == multiset(s)
  {
    if |s| == 0 then []
    else
      assert s == [s[0]] + s[1..];
      Insert(s[0], Sort(s[1..]))
  }

  /** Two sorted sequences holding the same faces are the same sequence. */
  lemma {:induction false} SortedUnique(a: seq<int>, b: seq<int>)
    requires Sorted(a) && Sorted(b)
    requires multiset(a) == multiset(b)
    ensures a == b
  {
    assert |a| == |multiset(a)| == |multiset(b)| == |b|;
    if |a| > 0 {
      assert a[0] in multiset(b);
      assert b[0] in multiset(a);
      assert b[0] <= a[0];
      assert a[0] <= b[0];
      assert a == [a[0]] + a[1..];
      assert b == [b[0]] + b[1..];
      assert multiset(a[1..]) == multiset(a) - multiset{a[0]};
      assert multiset(b[1..]) == multiset(b) - multiset{b[0]};
      SortedUnique(a[1..], b[1..]);
    }
  }

  /** The sorted copy depends only on which faces were rolled, not on their order. */
  lemma SortIgnoresOrder(a: seq<int>, b: seq<int>)
    requires multiset(a) == multiset(b)
    ensures Sort(a) == Sort(b)
  {
    SortedUnique(Sort(a), Sort(b));
  }

  /** A face seen at two positions is counted at least twice. */
  lemma RepeatCountsTwice(s: seq<int>, i: int, j: int)
    requires 0 <= i < j < |s| && s[i] == s[j]
    ensures multiset(s)[s[i]] >= 2
  {
    assert s == s[..j] + s[j..];
    assert s[i] in multiset(s[..j]);
    assert s[j] in multiset(s[j..]);
  }

  /** Distinct positions hold distinct faces exactly when every face is counted at most once. */
  lemma {:induction false} DistinctIffSingleCounts(s: seq<int>)
    ensures PairwiseDistinct(s) <==> forall x :: multiset(s)[x] <= 1
  {
    if PairwiseDistinct(s) {
      if |s| > 0 {
        assert s == [s[0]] + s[1..];
        DistinctIffSingleCounts(s[1..]);
        assert s[0] !in multiset(s[1..]);
      }
    }
    if !PairwiseDistinct(s) {
      var i, j :| 0 <= i < j < |s| && s[i] == s[j];
      RepeatCountsTwice(s, i, j);
    }
  }

  /** A sorted sequence with no repeated face rises by at least one per position. */
  lemma {:induction false} IncreasingGap(s: seq<int>, i: int, j: int)
    requires Sorted(s) && PairwiseDistinct(s)
    requires 0 <= i <= j < |s|
    ensures s[j] - s[i] >= j - i
    decreases j - i
  {
    if i < j {
      IncreasingGap(s, i, j - 1);
    }
  }

  /** When every face is `a` or `b`, their two counts make up the whole roll. */
  lemma {:induction false} TwoValueCounts(s: seq<int>, a: int, b: int)
    requires a != b
    requires forall i :: 0 <= i < |s| ==> s[i] == a || s[i] == b
    ensures multiset(s)[a] + multiset(s)[b] == |s|
  {
    if |s| > 0 {
      assert s == s[..|s| - 1] + [s[|s| - 1]];
      TwoValueCounts(s[..|s| - 1], a, b);
    }
  }

  /** A roll whose faces all equal `v` counts `v` once per die. */
  lemma {:induction false} ConstantCount(s: seq<int>, v: int)
    requires forall i :: 0 <= i < |s| ==> s[i] == v
    ensures multiset(s)[v] == |s|
  {
    if |s| > 0 {
      assert s == s[..|s| - 1] + [s[|s| - 1]];
      ConstantCount(s[..|s| - 1], v);
    }
  }

  /** A set is no larger than any set containing it. */
  lemma {:induction false} SubsetCardinality(a: set<int>, b: set<int>)
    requires a <= b
    ensures |a| <= |b|
  {
    if a != {} {
      assert exists x :: x in a by {
        if forall x :: x !in a {
          assert false;
        }
      }
      var x :| x in a;
      SubsetCardinality(a - {x}, b - {x});
    }
  }
}
