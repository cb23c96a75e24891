/** The game's use of the core: choosing the dice count at setup, and one
    round of play (roll, score, accumulate). Page updates are left out. */
module Session {
  import opened Wrappers
  import opened Dies
  import opened Cluster
  import opened ScoreRules
  import opened ScoreReference

  /** The game's die faces run from 1 to 6. */
  const DieFaceLb := 1
  const DieFaceUb := 6

  /** The dice count allowed when the game is created without bounds. */
  const DefaultCountLb := 3
  const DefaultCountUb := 6

  /** The dice and the running totals of a session. */
  datatype Game = Game(dice: Dice, rounds: nat, totalPoints: int)

  /** `new Game(lb, ub)` and `setup`: missing count bounds default to 3 and
      6; a dice count outside them is refused (the page shows an alert and
      builds nothing); otherwise the dice get faces 1 to 6. */
  function Setup(diceCount: int, countLb: Option<int>, countUb: Option<int>): (g: Option<Game>)
    ensures var lo := if countLb.None? || countUb.None? then DefaultCountLb else countLb.value;
            var hi := if countLb.None? || countUb.None? then DefaultCountUb else countUb.value;
            g.Some? <==> lo <= diceCount <= hi
    ensures g.Some? ==>
              Valid(g.value.dice) && g.value.dice.lastRoll.None?
              && g.value.dice.lb == DieFaceLb && g.value.dice.ub == DieFaceUb
              && |g.value.dice.dice| == (if diceCount > 0 then diceCount else 0)
              && g.value.rounds == 0 && g.value.totalPoints == 0
  {
    var defaults := countLb.None? || countUb.None?;
    var lo := if defaults then DefaultCountLb else countLb.value;
    var hi := if defaults then DefaultCountUb else countUb.value;
    if diceCount < lo || diceCount > hi then None
    else
      match NewDice(diceCount, DieFaceLb, DieFaceUb)
      case Failure(_) => None
      case Success(dice) => Some(Game(dice, 0, 0))
  }

  /** `play`: count the round, roll every die, score the roll with its sum,
      and add the points to the total. */
  method Play(g: Game, draws: seq<int>) returns (next: Game, points: int)
    requires Valid(g.dice)
    requires 0 <= g.dice.lb && g.dice.ub <= 9
    requires |draws| == |g.dice.dice|
    requires forall i :: 0 <= i < |draws| ==> FairDraw(g.dice.dice[i], draws[i])
    ensures next.rounds == g.rounds + 1
    ensures next.totalPoints == g.totalPoints + points
    ensures Valid(next.dice) && next.dice.dice == g.dice.dice
    ensures next.dice.lb == g.dice.lb && next.dice.ub == g.dice.ub
    ensures next.dice.lastRoll.Some? && |next.dice.lastRoll.value| == |draws|
    ensures forall i :: 0 <= i < |draws| ==> next.dice.lastRoll.value[i] == FairRoll(g.dice.dice[i], draws[i])
    ensures SingleDigitFaces(next.dice.lastRoll.value)
    ensures points == CalcPoints(next.dice.lastRoll.value, Sum(next.dice.lastRoll.value))
    ensures points == ReferenceScore(multiset(next.dice.lastRoll.value), Sum(next.dice.lastRoll.value))
    ensures 0 <= points <= AllSameBonus + |g.dice.dice| * g.dice.ub
  {
    var dice := RollAll(g.dice, draws);
    var roll := dice.lastRoll.value;
    var total := SumValues(dice);
    assert SingleDigitFaces(roll);
    SumWithin(roll, dice.lb, dice.ub);
    assert 0 <= |roll| * dice.lb;
    points := CalcPoints(roll, total.value);
    CalcPointsMatchesReference(roll, total.value);
    next := Game(dice, g.rounds + 1, g.totalPoints + points);
  }
}
