/** What each scoring rule means for the dice rolled, stated on the multiset
    of faces alone (so it cannot depend on the order of the dice), and the
    proof that `calcPoints` on its sorted copy awards exactly that. */
module ScoreReference {
  import opened Wrappers
  import opened Sorting
  import opened ScoreRules

  /** Every die shows the same face. */
  ghost predicate Uniform(m: multiset<int>) {
    forall x, y :: x in m && y in m ==> x == y
  }

  /** Exactly two faces occur, and one of them is on a single die. */
  ghost predicate OneOddOut(m: multiset<int>) {
    exists odd, common :: odd in m && common in m && odd != common && m[odd] == 1
      && forall z :: z in m ==> z == odd || z == common
  }

  /** No face occurs on two dice. */
  ghost predicate NoRepeats(m: multiset<int>) {
    forall x :: m[x] <= 1
  }

  /** The faces are distinct and consecutive: n distinct integers whose
      largest and smallest differ by less than n. */
  ghost predicate Run(m: multiset<int>) {
    NoRepeats(m) && forall x, y :: x in m && y in m ==> x - y < |m|
  }

  /** The points a roll earns, by the first category it falls into. */
  ghost function ReferenceScore(m: multiset<int>, sum: int): int {
    if Uniform(m) then AllSameBonus + sum
    else if OneOddOut(m) then NMinusOneBonus + sum
    else if Run(m) then RunBonus + sum
    else if NoRepeats(m) then sum
    else 0
  }

  lemma {:induction false} NeighboursEqualFirst(s: seq<int>)
    requires AllTheSame(s)
    ensures forall i :: 0 <= i < |s| ==> s[i] == s[0]
  {
    if |s| > 1 {
      var init := s[..|s| - 1];
      assert AllTheSame(init);
      NeighboursEqualFirst(init);
      assert s[|s| - 2] == init[|s| - 2] == s[0];
    }
  }

  /** `allTheSame` says every pair of dice agree, not only neighbours. */
  lemma AllTheSameIffConstant(s: seq<int>)
    ensures AllTheSame(s) <==> forall i, j :: 0 <= i < |s| && 0 <= j < |s| ==> s[i] == s[j]
  {
    if AllTheSame(s) {
      NeighboursEqualFirst(s);
    }
  }

  /** `allTheSame` holds exactly when one face is shown by every die
      (vacuously for no dice or one die). */
  lemma AllTheSameIffUniform(s: seq<int>)
    ensures AllTheSame(s) <==> Uniform(multiset(s))
  {
    if AllTheSame(s) {
      NeighboursEqualFirst(s);
    }
    if Uniform(multiset(s)) {
      forall i | 0 <= i < |s| - 1
        ensures s[i] == s[i + 1]
      {
        assert s[i] in multiset(s) && s[i + 1] in multiset(s);
      }
    }
  }

  /** `nMinusOne` holds exactly when two faces occur and one of them is on a
      single die: looking only at the first die's count loses nothing, since
      with two faces one count is 1 exactly when the other is n - 1. */
  lemma NMinusOneIffOneOddOut(s: seq<int>)
    ensures NMinusOne(s) <==> OneOddOut(multiset(s))
  {
    if NMinusOne(s) {
      var a := s[0];
      if forall i :: 0 <= i < |s| ==> s[i] == a {
        ConstantCount(s, a);
        assert false;
      }
      var j :| 0 <= j < |s| && s[j] != a;
      var b := s[j];
      forall i | 0 <= i < |s|
        ensures s[i] == a || s[i] == b
      {
        if s[i] != a && s[i] != b {
          SubsetCardinality({a, b, s[i]}, Faces(s));
          assert false;
        }
      }
      TwoValueCounts(s, a, b);
      assert a in multiset(s) && b in multiset(s);
      if multiset(s)[a] == 1 {
        assert forall z :: z in multiset(s) ==> z == a || z == b;
      } else {
        assert forall z :: z in multiset(s) ==> z == b || z == a;
      }
    }
    if OneOddOut(multiset(s)) {
      var odd, common :| odd in multiset(s) && common in multiset(s) && odd != common
        && multiset(s)[odd] == 1 && forall z :: z in multiset(s) ==> z == odd || z == common;
      forall i | 0 <= i < |s|
        ensures s[i] == odd || s[i] == common
      {
        assert s[i] in multiset(s);
      }
      TwoValueCounts(s, odd, common);
      SubsetCardinality(Faces(s), {odd, common});
    }
  }

  lemma {:induction false} StepsOfOne(s: seq<int>)
    requires Sequential(s)
    ensures forall i :: 0 <= i < |s| ==> s[i] == s[0] + i
  {
    if |s| > 1 {
      var init := s[..|s| - 1];
      assert Sequential(init);
      StepsOfOne(init);
      assert s[|s| - 2] == init[|s| - 2] == s[0] + |s| - 2;
    }
  }

  /** `sequentialDice` says the dice count up by one from the first. */
  lemma SequentialIffConsecutive(s: seq<int>)
    ensures Sequential(s) <==> forall i :: 0 <= i < |s| ==> s[i] == s[0] + i
  {
    if Sequential(s) {
      StepsOfOne(s);
    }
  }

  /** On a sorted roll, `sequentialDice` holds exactly when the faces are
      distinct and consecutive. */
  lemma SequentialIffRun(t: seq<int>)
    requires Sorted(t)
    ensures Sequential(t) <==> Run(multiset(t))
  {
    DistinctIffSingleCounts(t);
    if Sequential(t) {
      StepsOfOne(t);
      forall x, y | x in multiset(t) && y in multiset(t)
        ensures x - y < |multiset(t)|
      {
        var i :| 0 <= i < |t| && t[i] == x;
        var j :| 0 <= j < |t| && t[j] == y;
      }
    }
    if Run(multiset(t)) {
      forall k | 0 <= k < |t| - 1
        ensures t[k + 1] - t[k] == 1
      {
        assert t[|t| - 1] in multiset(t) && t[0] in multiset(t);
        if t[k + 1] - t[k] != 1 {
          IncreasingGap(t, 0, k);
          IncreasingGap(t, k + 1, |t| - 1);
          assert false;
        }
      }
    }
  }

  /** On a sorted roll, `allDifferent` holds exactly when no face repeats. */
  lemma AllDifferentIffNoRepeats(t: seq<int>)
    requires Sorted(t)
    ensures AllDifferent(t) <==> NoRepeats(multiset(t))
  {
    AllDifferentIffNeighboursDiffer(t);
    DistinctIffSingleCounts(t);
    if AllDifferent(t) {
      forall i, j | 0 <= i < j < |t|
        ensures t[i] != t[j]
      {
        assert t[i] < t[i + 1] <= t[j];
      }
    }
  }

  /** `calcPoints` awards what the reference awards for the same faces. */
  lemma CalcPointsMatchesReference(roll: seq<int>, sum: int)
    requires SingleDigitFaces(roll)
    ensures CalcPoints(roll, sum) == ReferenceScore(multiset(roll), sum)
  {
    var sorted := Sort(roll);
    AllTheSameIffUniform(sorted);
    NMinusOneIffOneOddOut(sorted);
    SequentialIffRun(sorted);
    AllDifferentIffNoRepeats(sorted);
  }

  /** `calcPoints` evaluated with the loops of the four predicates, in the
      same order, awards the reference points. */
  method CalcPointsByScans(roll: seq<int>, sum: int) returns (points: int)
    requires SingleDigitFaces(roll)
    ensures points == CalcPoints(roll, sum)
    ensures points == ReferenceScore(multiset(roll), sum)
  {
    var sorted := Sort(roll);
    AllTheSameIffConstant(sorted);
    SequentialIffConsecutive(sorted);
    AllDifferentIffNeighboursDiffer(sorted);
    CalcPointsMatchesReference(roll, sum);
    var same := AllTheSameScan(sorted);
    if same {
      return AllSameBonus + sum;
    }
    var oddOut := NMinusOneScan(sorted);
    if oddOut {
      return NMinusOneBonus + sum;
    }
    var run := SequentialScan(sorted);
    if run {
      return RunBonus + sum;
    }
    var different := AllDifferentScan(sorted);
    if different {
      return sum;
    }
    return 0;
  }

  /** Reordering single-digit faces leaves them single-digit faces. */
  lemma SingleDigitsIgnoreOrder(a: seq<int>, b: seq<int>)
    requires SingleDigitFaces(a)
    requires multiset(a) == multiset(b)
    ensures SingleDigitFaces(b)
  {
    forall i | 0 <= i < |b|
      ensures 0 <= b[i] <= 9
    {
      assert b[i] in multiset(a);
    }
  }

  /** Reordering the dice never changes the points. */
  lemma PermutationInvariant(a: seq<int>, b: seq<int>, sum: int)
    requires SingleDigitFaces(a)
    requires multiset(a) == multiset(b)
    ensures SingleDigitFaces(b) && CalcPoints(a, sum) == CalcPoints(b, sum)
  {
    SingleDigitsIgnoreOrder(a, b);
    SortIgnoresOrder(a, b);
  }

  /** The points are fixed by any sorted arrangement of the rolled faces. */
  lemma ScoreFromSortedArrangement(roll: seq<int>, sum: int, t: seq<int>)
    requires Sorted(t) && SingleDigitFaces(t)
    requires multiset(t) == multiset(roll)
    ensures SingleDigitFaces(roll) && CalcPoints(roll, sum) == ScoreSorted(t, sum)
  {
    SingleDigitsIgnoreOrder(t, roll);
    SortedUnique(Sort(roll), t);
  }

  /** Sorted copy of a worked round: three equal faces earn 60 plus the sum. */
  lemma CascadeAllSame()
    ensures ScoreSorted([4, 4, 4], 12) == 72
  {
  }

  /** Worked round, in any order of the dice: three equal faces earn 60 plus the sum. */
  lemma ExampleAllSame(roll: seq<int>)
    requires multiset(roll) == multiset{4, 4, 4}
    ensures SingleDigitFaces(roll) && CalcPoints(roll, 12) == 72
  {
    CascadeAllSame();
    ScoreFromSortedArrangement(roll, 12, [4, 4, 4]);
  }

  /** Sorted copy of a worked round: a pair and a higher single face earn 40 plus the sum. */
  lemma CascadeOddOutAbove()
    ensures ScoreSorted([2, 2, 5], 9) == 49
  {
    var t := [2, 2, 5];
    assert !AllTheSame(t) by { assert t[1] != t[2]; }
    assert Faces(t) == {2, 5};
    assert t == [2] + [2] + [5];
  }

  /** Worked round, in any order of the dice: a pair and a higher single face earn 40 plus the sum. */
  lemma ExampleOddOutAbove(roll: seq<int>)
    requires multiset(roll) == multiset{2, 2, 5}
    ensures SingleDigitFaces(roll) && CalcPoints(roll, 9) == 49
  {
    CascadeOddOutAbove();
    ScoreFromSortedArrangement(roll, 9, [2, 2, 5]);
  }

  /** Sorted copy of a worked round: a single face below a pair earns 40 plus the sum. */
  lemma CascadeOddOutBelow()
    ensures ScoreSorted([1, 3, 3], 7) == 47
  {
    var t := [1, 3, 3];
    assert !AllTheSame(t) by { assert t[0] != t[1]; }
    assert Faces(t) == {1, 3};
    assert t == [1] + [3] + [3];
  }

  /** Worked round, in any order of the dice: a single face below a pair earns 40 plus the sum. */
  lemma ExampleOddOutBelow(roll: seq<int>)
    requires multiset(roll) == multiset{1, 3, 3}
    ensures SingleDigitFaces(roll) && CalcPoints(roll, 7) == 47
  {
    CascadeOddOutBelow();
    ScoreFromSortedArrangement(roll, 7, [1, 3, 3]);
  }

  /** Sorted copy of a worked round: a run earns 20 plus the sum. */
  lemma CascadeRun()
    ensures ScoreSorted([2, 3, 4], 9) == 29
  {
    var t := [2, 3, 4];
    assert !AllTheSame(t) by { assert t[0] != t[1]; }
    assert !NMinusOne(t) by { assert Faces(t) == {2, 3, 4}; }
  }

  /** Worked round, in any order of the dice: a run earns 20 plus the sum. */
  lemma ExampleRun(roll: seq<int>)
    requires multiset(roll) == multiset{2, 3, 4}
    ensures SingleDigitFaces(roll) && CalcPoints(roll, 9) == 29
  {
    CascadeRun();
    ScoreFromSortedArrangement(roll, 9, [2, 3, 4]);
  }

  /** Sorted copy of a worked round: distinct faces that are not a run earn just the sum. */
  lemma CascadeDistinct()
    ensures ScoreSorted([1, 3, 5], 9) == 9
  {
    var t := [1, 3, 5];
    assert !AllTheSame(t) by { assert t[0] != t[1]; }
    assert !NMinusOne(t) by { assert Faces(t) == {1, 3, 5}; }
    assert !Sequential(t) by { assert t[1] - t[0] != 1; }
  }

  /** Worked round, in any order of the dice: distinct faces that are not a run earn just the sum. */
  lemma ExampleDistinct(roll: seq<int>)
    requires multiset(roll) == multiset{1, 3, 5}
    ensures SingleDigitFaces(roll) && CalcPoints(roll, 9) == 9
  {
    CascadeDistinct();
    ScoreFromSortedArrangement(roll, 9, [1, 3, 5]);
  }

  /** Sorted copy of a worked round: two pairs among four dice earn nothing. */
  lemma CascadeTwoPairs()
    ensures ScoreSorted([1, 1, 2, 2], 6) == 0
  {
    var t := [1, 1, 2, 2];
    assert !AllTheSame(t) by { assert t[1] != t[2]; }
    assert !NMinusOne(t) by {
        assert t == [1] + [1] + [2, 2];
        assert multiset(t)[1] == 2;
      }
    assert !Sequential(t) by { assert t[1] - t[0] != 1; }
    assert !AllDifferent(t) by { assert At(t, 1) == Some(t[0]); }
  }

  /** Worked round, in any order of the dice: two pairs among four dice earn nothing. */
  lemma ExampleTwoPairs(roll: seq<int>)
    requires multiset(roll) == multiset{1, 1, 2, 2}
    ensures SingleDigitFaces(roll) && CalcPoints(roll, 6) == 0
  {
    CascadeTwoPairs();
    ScoreFromSortedArrangement(roll, 6, [1, 1, 2, 2]);
  }

  /** Sorted copy of a worked round: two dice with different faces always count as one odd die out, so with two dice the run rule is never reached. */
  lemma CascadeTwoDice()
    ensures ScoreSorted([1, 2], 3) == 43
  {
    var t := [1, 2];
    assert !AllTheSame(t) by { assert t[0] != t[1]; }
    assert Faces(t) == {1, 2};
    assert t == [1] + [2];
  }

  /** Worked round, in any order of the dice: two dice with different faces always count as one odd die out, so with two dice the run rule is never reached. */
  lemma ExampleTwoDice(roll: seq<int>)
    requires multiset(roll) == multiset{1, 2}
    ensures SingleDigitFaces(roll) && CalcPoints(roll, 3) == 43
  {
    CascadeTwoDice();
    ScoreFromSortedArrangement(roll, 3, [1, 2]);
  }

  /** The cascade on two ascending faces: one odd die out. */
  lemma CascadeTwoAscending(a: int, b: int, sum: int)
    requires a < b
    ensures ScoreSorted([a, b], sum) == NMinusOneBonus + sum
  {
    var t := [a, b];
    assert !AllTheSame(t) by { assert t[0] != t[0 + 1]; }
    assert t == [a] + [b];
    assert Faces(t) == {a, b};
    assert multiset(t)[a] == 1;
  }

  /** With two dice, two different faces always count as one odd die out,
      so the run rule and the all-different rule are never reached. */
  lemma TwoDiceNeverReachRun(roll: seq<int>, sum: int)
    requires |roll| == 2 && SingleDigitFaces(roll) && roll[0] != roll[1]
    ensures CalcPoints(roll, sum) == NMinusOneBonus + sum
  {
    var a, b := roll[0], roll[1];
    var t := if a < b then [a, b] else [b, a];
    assert roll == [a] + [b];
    assert multiset(t) == multiset(roll);
    CascadeTwoAscending(t[0], t[1], sum);
    ScoreFromSortedArrangement(roll, sum, t);
  }
}
