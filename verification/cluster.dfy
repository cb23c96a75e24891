/** A cluster of dice sharing one pair of bounds: construction, rolling all
    of them, and the sum of the last roll. */
module Cluster {
  import opened Wrappers
  import opened Dies

  /** The dice, their shared bounds, and the last roll (`undefined` before
      the first `rollAll`). `getLastRoll` reads `lastRoll`. */
  datatype Dice = Dice(dice: seq<Die>, lb: int, ub: int, lastRoll: Option<seq<int>>)

  /** Sum of the faces, accumulated left to right. */
  function Sum(s: seq<int>): int {
    if |s| == 0 then 0 else Sum(s[..|s| - 1]) + s[|s| - 1]
  }

  /** Each die carries the cluster's bounds, and a stored roll holds one face
      per die, within those bounds. */
  predicate Valid(c: Dice) {
    c.lb <= c.ub
    && (|c.dice| > 0 ==> c.lb < c.ub)
    && (forall i :: 0 <= i < |c.dice| ==> c.dice[i] == Die(c.lb, c.ub))
    && (c.lastRoll.Some? ==>
          |c.lastRoll.value| == |c.dice|
          && forall i :: 0 <= i < |c.dice| ==> c.lb <= c.lastRoll.value[i] <= c.ub)
  }

  /** The loop of `build`: `n` dice made one after another with `new Die`,
      the first failure ending construction. */
  function BuildDice(n: nat, lb: int, ub: int): (r: Result<seq<Die>, BoundsError>)
    ensures r.Success? <==> n == 0 || lb < ub
    ensures r.Failure? ==> r.error == DieBoundsError
    ensures r.Success? ==> |r.value| == n && forall i :: 0 <= i < n ==> r.value[i] == Die(lb, ub)
  {
    if n == 0 then Success([])
    else
      match BuildDice(n - 1, lb, ub)
      case Failure(e) => Failure(e)
      case Success(built) =>
        match NewDie(lb, ub)
        case Failure(e) => Failure(e)
        case Success(die) => Success(built + [die])
  }

  /** `new Dice(count, lb, ub)`: `validBounds` allows equal bounds, but then
      the first `new Die` refuses them, so equal bounds succeed only with no
      dice. A count below one builds no dice. */
  function NewDice(count: int, lb: int, ub: int): (r: Result<Dice, BoundsError>)
    ensures r.Failure? <==> lb > ub || (lb == ub && count > 0)
    ensures r.Failure? ==> r.error == (if lb > ub then DiceBoundsError else DieBoundsError)
    ensures r.Success? ==>
              Valid(r.value) && r.value.lastRoll.None?
              && r.value.lb == lb && r.value.ub == ub
              && |r.value.dice| == (if count > 0 then count else 0)
  {
    if lb > ub then Failure(DiceBoundsError)
    else
      match BuildDice(if count > 0 then count else 0, lb, ub)
      case Failure(e) => Failure(e)
      case Success(dice) => Success(Dice(dice, lb, ub, None))
  }

  /** `rollAll`: a fresh roll with one face per die, in die order, each die
      rolled with its own injected draw. Only the roll changes. */
  method RollAll(c: Dice, draws: seq<int>) returns (rolled: Dice)
    requires Valid(c)
    requires |draws| == |c.dice|
    requires forall i :: 0 <= i < |draws| ==> FairDraw(c.dice[i], draws[i])
    ensures Valid(rolled)
    ensures rolled.dice == c.dice && rolled.lb == c.lb && rolled.ub == c.ub
    ensures rolled.lastRoll.Some? && |rolled.lastRoll.value| == |c.dice|
    ensures forall i :: 0 <= i < |c.dice| ==> rolled.lastRoll.value[i] == FairRoll(c.dice[i], draws[i])
  {
    var roll: seq<int> := [];
    var i := 0;
    while i < |c.dice|
      invariant 0 <= i <= |c.dice|
      invariant |roll| == i
      invariant forall j :: 0 <= j < i ==> roll[j] == FairRoll(c.dice[j], draws[j])
    {
      roll := roll + [FairRoll(c.dice[i], draws[i])];
      i := i + 1;
    }
    rolled := c.(lastRoll := Some(roll));
  }

  /** `getSumValues`: the running total of the last roll; before any roll
      the source fails reading the length of `undefined`, modelled as None. */
  method SumValues(c: Dice) returns (total: Option<int>)
    ensures c.lastRoll.None? <==> total.None?
    ensures c.lastRoll.Some? ==> total == Some(Sum(c.lastRoll.value))
  {
    if c.lastRoll.None? {
      return None;
    }
    var roll := c.lastRoll.value;
    var playSum := 0;
    var i := 0;
    while i < |roll|
      invariant 0 <= i <= |roll|
      invariant playSum == Sum(roll[..i])
    {
      assert roll[..i + 1][..i] == roll[..i];
      playSum := playSum + roll[i];
      i := i + 1;
    }
    assert roll[..i] == roll;
    return Some(playSum);
  }

  /** A roll of faces between `lo` and `hi` sums to between n * lo and n * hi. */
  lemma {:induction false} SumWithin(s: seq<int>, lo: int, hi: int)
    requires forall i :: 0 <= i < |s| ==> lo <= s[i] <= hi
    ensures |s| * lo <= Sum(s) <= |s| * hi
  {
    if |s| > 0 {
      SumWithin(s[..|s| - 1], lo, hi);
    }
  }
}
