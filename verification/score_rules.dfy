/** The round-scoring engine: the four pattern predicates applied, in a fixed
    priority order, to a sorted copy of the roll. Each predicate is given as
    the property its loop decides, and as a method that runs the loop. */
module ScoreRules {
  import opened Wrappers
  import opened Sorting

  const AllSameBonus := 60
  const NMinusOneBonus := 40
  const RunBonus := 20

  /** JavaScript's default `sort` orders values by their decimal strings;
      on single-digit faces that order is the numeric one. */
  predicate SingleDigitFaces(roll: seq<int>) {
    forall i :: 0 <= i < |roll| ==> 0 <= roll[i] <= 9
  }

  /** The set of face values present in a roll. */
  function Faces(s: seq<int>): set<int> {
    set x | x in s
  }

  /** Reading position `i` of an array: `undefined` (None) past either end. */
  function At(s: seq<int>, i: int): Option<int> {
    if 0 <= i < |s| then Some(s[i]) else None
  }

  /** `allTheSame`: each die equals the next one. */
  predicate AllTheSame(s: seq<int>) {
    forall i :: 0 <= i < |s| - 1 ==> s[i] == s[i + 1]
  }

  /** `nMinusOne`: at least two dice, at most two distinct faces, and the
      first die's face is counted once or once less than the number of dice. */
  predicate NMinusOne(s: seq<int>) {
    |s| >= 2 && |Faces(s)| <= 2
    && (multiset(s)[s[0]] == 1 || multiset(s)[s[0]] == |s| - 1)
  }

  /** `sequentialDice`: each die is exactly one more than the one before. */
  predicate Sequential(s: seq<int>) {
    forall i :: 0 <= i < |s| - 1 ==> s[i + 1] - s[i] == 1
  }

  /** `allDifferent`: for every index, including the last, the next entry
      differs from this one; reading past the end yields `undefined`. */
  predicate AllDifferent(s: seq<int>) {
    forall i :: 0 <= i < |s| ==> At(s, i + 1) != Some(s[i])
  }

  /** The rule cascade of `calcPoints`, applied to the sorted copy: the first
      rule that holds decides the points. */
  function ScoreSorted(sorted: seq<int>, sum: int): (points: int)
    ensures points in {AllSameBonus + sum, NMinusOneBonus + sum, RunBonus + sum, sum, 0}
  {
    if AllTheSame(sorted) then AllSameBonus + sum
    else if NMinusOne(sorted) then NMinusOneBonus + sum
    else if Sequential(sorted) then RunBonus + sum
    else if AllDifferent(sorted) then sum
    else 0
  }

  /** `calcPoints`: sort a copy of the roll, then score the copy. */
  function CalcPoints(roll: seq<int>, sum: int): (points: int)
    requires SingleDigitFaces(roll)
    ensures points in {AllSameBonus + sum, NMinusOneBonus + sum, RunBonus + sum, sum, 0}
  {
    ScoreSorted(Sort(roll), sum)
  }

  /** The `allTheSame` loop: stops at the first unequal neighbour. */
  method AllTheSameScan(s: seq<int>) returns (same: bool)
    ensures same <==> forall i, j :: 0 <= i < |s| && 0 <= j < |s| ==> s[i] == s[j]
  {
    var i := 0;
    while i < |s| - 1
      invariant 0 <= i <= |s|
      invariant forall k :: 0 <= k <= i && k < |s| ==> s[k] == s[0]
    {
      if s[i] != s[i + 1] {
        return false;
      }
      i := i + 1;
    }
    return true;
  }

  /** The `nMinusOne` loop: counts each face in a table, giving up as soon
      as a third distinct face appears, then inspects the first die's count. */
  method NMinusOneScan(s: seq<int>) returns (holds: bool)
    ensures holds == NMinusOne(s)
  {
    var len := |s|;
    if len < 2 {
      return false;
    }
    var counts: map<int, nat> := map[];
    var entries := 0;
    var i := 0;
    while i < len
      invariant 0 <= i <= len
      invariant counts.Keys == Faces(s[..i])
      invariant forall x :: x in counts ==> counts[x] == multiset(s[..i])[x] > 0
      invariant entries == |counts.Keys| <= 2
    {
      assert s[..i + 1] == s[..i] + [s[i]];
      var key := s[i];
      if key !in counts {
        counts := counts[key := 1];
        entries := entries + 1;
        assert counts.Keys == Faces(s[..i + 1]);
        if entries > 2 {
          SubsetCardinality(Faces(s[..i + 1]), Faces(s));
          return false;
        }
      } else {
        counts := counts[key := counts[key] + 1];
      }
      i := i + 1;
    }
    assert forall x :: x in counts ==> counts[x] == multiset(s[..i])[x] > 0;
    assert s[..i] == s;
    assert s[0] in counts;
    var keyCount := counts[s[0]];
    assert keyCount == multiset(s[..i])[s[0]];
    assert |Faces(s)| <= 2;
    return keyCount == 1 || keyCount == len - 1;
  }

  /** The `sequentialDice` loop: stops at the first step that is not +1. */
  method SequentialScan(s: seq<int>) returns (run: bool)
    ensures run <==> forall i :: 0 <= i < |s| ==> s[i] == s[0] + i
  {
    var i := 0;
    while i < |s| - 1
      invariant 0 <= i <= |s|
      invariant forall k :: 0 <= k <= i && k < |s| ==> s[k] == s[0] + k
    {
      if s[i + 1] - s[i] != 1 {
        return false;
      }
      i := i + 1;
    }
    return true;
  }

  /** The `allDifferent` loop, including its last pass that compares the
      final die with the entry past the end. */
  method AllDifferentScan(s: seq<int>) returns (different: bool)
    ensures different <==> forall i :: 0 <= i < |s| - 1 ==> s[i] != s[i + 1]
  {
    var i := 0;
    while i < |s|
      invariant 0 <= i <= |s|
      invariant forall k :: 0 <= k < i && k < |s| - 1 ==> s[k] != s[k + 1]
    {
      if At(s, i + 1) == Some(s[i]) {
        return false;
      }
      i := i + 1;
    }
    return true;
  }

  /** The last pass of `allDifferent` reads `undefined`, which never equals a
      face, so the predicate only ever rejects on a pair of real neighbours. */
  lemma AllDifferentIffNeighboursDiffer(s: seq<int>)
    ensures AllDifferent(s) <==> forall i :: 0 <= i < |s| - 1 ==> s[i] != s[i + 1]
  {
  }
}
