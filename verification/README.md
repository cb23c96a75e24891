# Dice game scoring engine, in Dafny

This project models the rules engine of a browser dice game (`game.pretty.js`).

- **ScoreRules** and **ScoreReference** cover `calcPoints`. It copies the roll and sorts the copy. Then the first rule that holds, in this order, decides the points:
  1. all the same: 60 + sum;
  2. exactly one die differs (`nMinusOne`): 40 + sum;
  3. a run (`sequentialDice`): 20 + sum;
  4. all different: the sum alone;
  5. otherwise: 0.
- **Sorting** is the ascending sort of that copy, with the proof that a sorted arrangement is unique.
- **Dies** is a single die. It checks its bounds when built, and its `roll` takes an injected integer draw in place of `Math.random()`.
- **Cluster** is the `Dice` object. It builds one die per count, `rollAll` stores one face per die in die order, and `getSumValues` sums the stored roll.
- **Session** covers the game's setup (choosing the dice count) and one round of `play`.

The four rule predicates appear twice. First as the property each loop decides (`AllTheSame`, `NMinusOne`, `Sequential`, `AllDifferent`). Then as methods that run the loops (`…Scan`).

Each predicate is tied to an order-free reference on the multiset of faces (`ScoreReference.ReferenceScore`). So `calcPoints` is proved to award what the rules mean, and to ignore the order of the dice.

Behaviours of the code that are easy to misread, which the model keeps:

- `new Dice(n, 3, 3)` with `n >= 1` fails. `validBounds` accepts equal bounds, but the first `new Die(3, 3)` then throws. Only a count of zero succeeds with equal bounds (`Cluster.NewDice`).
- A dice count below one is not refused by `Dice`; it builds no dice.
- The `nMinusOne` rule inspects only the count of the first sorted face, and it loses nothing by doing so. With exactly two faces, one count is 1 exactly when the other is n - 1 (`ScoreReference.NMinusOneIffOneOddOut`). So `[1,1,2,2]` scores 0, and `[1,3,3]` and `[1,1,3]` score 40 + sum.
- For a positive `ub`, the roll as written gives faces `lb .. lb + ub - 1`: they overshoot `ub` when `lb > 1` and never reach `ub` when `lb < 1`. For `ub <= 0` (a die such as (-5, -2) can be built) it gives faces `lb + ub .. lb`, which undershoot `lb` when `ub < 0`; for `ub = 0` the only face is `lb` (`Dies.SourceRoll`).

With two dice, any two different faces satisfy `nMinusOne`, so the run rule is never reached (`ScoreReference.TwoDiceNeverReachRun`, which follows the reasoning of `ScoreReference.NMinusOneIffOneOddOut`).

## Model

The predicates `ScoreRules.AllTheSame`, `ScoreRules.NMinusOne`, `ScoreRules.Sequential` and `ScoreRules.AllDifferent` are what `ScoreRules.ScoreSorted` evaluates. Each one is stated by the row of its loop (`…Scan`, whose ensures is the predicate or its meaning) and by the rows tying it to the reference.

| member | source | states |
|---|---|---|
| ScoreRules.CalcPoints | game.pretty.js:154-188 | The points are always one of 60 + sum, 40 + sum, 20 + sum, sum or 0 |
| ScoreRules.ScoreSorted | game.pretty.js:162-187 | The cascade on the sorted copy yields one of the five point values |
| ScoreReference.CalcPointsMatchesReference | game.pretty.js:154-188 | For single-digit faces, the points equal the order-free reference: one face for all dice gives 60 + sum; else two faces with one of them on a single die gives 40 + sum; else distinct consecutive faces give 20 + sum; else distinct faces give the sum; else 0 |
| ScoreReference.CalcPointsByScans | game.pretty.js:154-188 | Running the four predicate loops in the source's order, on the sorted copy, gives the same points as `calcPoints` and as the reference |
| ScoreReference.PermutationInvariant | game.pretty.js:159-160 | Any reordering of single-digit faces keeps them single-digit and gives the same points |
| ScoreReference.ScoreFromSortedArrangement | game.pretty.js:159-187 | Any sorted arrangement of the rolled faces determines the points |
| Sorting.Sort | game.pretty.js:160 | The sorted copy is in ascending order and holds exactly the rolled faces |
| Sorting.SortedUnique | game.pretty.js:160 | Two sorted sequences with the same faces are equal |
| Sorting.SortIgnoresOrder | game.pretty.js:159-160 | Rolls with the same faces, in any order, have the same sorted copy |
| ScoreRules.AllTheSameScan | game.pretty.js:191-203 | The loop returns true exactly when every pair of dice shows the same face, so it returns true for zero or one die |
| ScoreReference.AllTheSameIffConstant | game.pretty.js:191-203 | Equal neighbours hold exactly when all dice are pairwise equal |
| ScoreReference.AllTheSameIffUniform | game.pretty.js:191-203 | `allTheSame` holds exactly when the multiset of faces holds a single value |
| ScoreRules.NMinusOneScan | game.pretty.js:206-243 | The counting loop decides `NMinusOne`. It fails for fewer than two dice and as soon as a third distinct face appears. Otherwise it holds exactly when the first die's face is counted once or n - 1 times |
| ScoreReference.NMinusOneIffOneOddOut | game.pretty.js:206-243 | `nMinusOne` holds exactly when two faces occur and one of them is on a single die; with one face it fails |
| ScoreRules.SequentialScan | game.pretty.js:246-258 | The loop returns true exactly when die i shows the first face plus i |
| ScoreReference.SequentialIffConsecutive | game.pretty.js:246-258 | Steps of exactly one between neighbours hold exactly when die i shows the first face plus i |
| ScoreReference.SequentialIffRun | game.pretty.js:246-258 | On a sorted roll, `sequentialDice` holds exactly when the faces are distinct and the spread between any two is less than the number of dice |
| ScoreRules.AllDifferentScan | game.pretty.js:261-274 | The loop, including its pass that reads past the end, returns true exactly when no two neighbours are equal |
| ScoreRules.AllDifferentIffNeighboursDiffer | game.pretty.js:261-274 | The final comparison with the `undefined` entry past the end never rejects |
| ScoreReference.AllDifferentIffNoRepeats | game.pretty.js:261-274 | On a sorted roll, `allDifferent` holds exactly when no face occurs twice |
| ScoreReference.CascadeAllSame | game.pretty.js:162-166 | Sorted `[4,4,4]` with sum 12 scores 72 |
| ScoreReference.ExampleAllSame | game.pretty.js:154-188 | Every arrangement of 4, 4, 4 with sum 12 scores 72 |
| ScoreReference.CascadeOddOutAbove | game.pretty.js:168-172 | Sorted `[2,2,5]` with sum 9 scores 49 |
| ScoreReference.ExampleOddOutAbove | game.pretty.js:154-188 | Every arrangement of 2, 2, 5 with sum 9 scores 49 |
| ScoreReference.CascadeOddOutBelow | game.pretty.js:168-172 | Sorted `[1,3,3]` with sum 7 scores 47 |
| ScoreReference.ExampleOddOutBelow | game.pretty.js:154-188 | Every arrangement of 1, 3, 3 with sum 7 scores 47 |
| ScoreReference.CascadeRun | game.pretty.js:174-178 | Sorted `[2,3,4]` with sum 9 scores 29 |
| ScoreReference.ExampleRun | game.pretty.js:154-188 | Every arrangement of 2, 3, 4 with sum 9 scores 29 |
| ScoreReference.CascadeDistinct | game.pretty.js:180-184 | Sorted `[1,3,5]` with sum 9 scores 9 |
| ScoreReference.ExampleDistinct | game.pretty.js:154-188 | Every arrangement of 1, 3, 5 with sum 9 scores 9 |
| ScoreReference.CascadeTwoPairs | game.pretty.js:186-187 | Sorted `[1,1,2,2]` with sum 6 falls through every rule and scores 0 |
| ScoreReference.ExampleTwoPairs | game.pretty.js:154-188 | Every arrangement of 1, 1, 2, 2 scores 0 |
| ScoreReference.CascadeTwoDice | game.pretty.js:168-172 | Sorted `[1,2]` with sum 3 scores 43: the odd-die-out rule takes precedence over the run rule |
| ScoreReference.ExampleTwoDice | game.pretty.js:154-188 | Every arrangement of 1, 2 with sum 3 scores 43 |
| ScoreReference.CascadeTwoAscending | game.pretty.js:162-172 | Two ascending different faces fail the all-same rule and pass the odd-die-out rule, scoring 40 + sum |
| ScoreReference.TwoDiceNeverReachRun | game.pretty.js:154-188 | Any roll of two different single-digit faces, in either order, scores 40 + sum, so with two dice the run and all-different rules never decide |
| Dies.NewDie | game.pretty.js:504-523 | Building a die succeeds exactly when lb < ub. A one-faced die such as (5, 5) is refused with the Die bounds error |
| Dies.SourceRoll | game.pretty.js:526-533 | The roll as written gives `lb + k` for a draw k = floor(sample * ub). That is within `lb .. lb + ub - 1` for a positive ub, and within `lb + ub .. lb` otherwise |
| Dies.SourceRollExactIff | game.pretty.js:526-533 | The faces of the roll as written are exactly `lb .. ub` if and only if lb = 1 |
| Dies.SourceRollSeven | game.pretty.js:528-531 | A die with faces 2 to 6 rolls a 7 for draw 5 |
| Dies.FairRoll | game.pretty.js:526-533 | The corrected roll `lb + floor(sample * (ub - lb + 1))` always lies within `lb .. ub` |
| Dies.FairRollUniform | game.pretty.js:526-533 | Every face in `lb .. ub` comes from exactly one draw, so the corrected roll is uniform |
| Dies.FairRollAgreesWhenLbIsOne | game.pretty.js:38-39 | For faces starting at 1, as in the game, the corrected roll and the roll as written accept the same draws and give the same face |
| Cluster.BuildDice | game.pretty.js:440-444 | Building n dice succeeds exactly when n = 0 or lb < ub. It yields n dice with the given bounds; otherwise it fails with the Die bounds error |
| Cluster.NewDice | game.pretty.js:420-456 | Construction fails with the Dice bounds error when lb > ub. With equal bounds it fails with the Die bounds error when at least one die is asked for. Otherwise it holds max(count, 0) dice and no roll |
| Cluster.RollAll | game.pretty.js:459-468 | The stored roll has one face per die, in die order, each within the bounds. The dice and bounds are unchanged |
| Cluster.SumValues | game.pretty.js:477-488 | The running total equals the sum of the last roll; before any roll there is no sum |
| Cluster.SumWithin | game.pretty.js:477-488 | A roll of n faces in `lo .. hi` sums to between n * lo and n * hi |
| Session.Setup | game.pretty.js:45-76 | Missing count bounds default to 3 and 6, and a count outside the bounds builds nothing. Otherwise the game starts with dice of faces 1 to 6, zero rounds and zero points |
| Session.Play | game.pretty.js:106-117 | Rounds go up by one and the total goes up by the round's points. The dice and bounds are kept, and die i shows the corrected roll of its draw. The points are `calcPoints` of that roll and its sum, equal to the reference score, and between 0 and 60 + n * ub |

## Left out

- Page handling is not modelled: `document` lookups, alerts, buttons, tables, dice images and `end` (game.pretty.js:63-103, 125-149, 279-401). It has no algorithmic content.
- The average of `end` (`Math.round(totalPoints / rounds * 10) / 10`) is left out because it is floating-point arithmetic.
- `Math.random()` becomes an injected integer draw `k = floor(sample * m)`. The model does not treat rounding of the floating-point product.
- Module-level closure variables are shared across instances in the source. A second `Dice` would append to the same die list, and every `Die` rolls with the bounds of the last one built. The model keeps this state per instance instead; within one game all dice share bounds, so the results agree.
- The dice count typed on the page may be fractional or not a number; `setup` refuses those. The model takes an integer count.
- `nMinusOne` counts faces in an array of size `dieFaces` indexed by face - 1. The model counts in a map keyed by the face, since the offset does not affect the counts.
- Passing a copy to the sort is implicit, because sequences are values. The caller's roll cannot change.
- The error strings thrown by the two bounds checks are not modelled; the two errors are the variants of `Dies.BoundsError`.
- ScoreRules.CalcPoints: requires every face to be a single decimal digit. JavaScript's default `sort` compares the decimal strings of the faces, which matches numeric order only for 0 to 9. Multi-digit faces (10 sorts before 9) are not modelled. The game's faces are 1 to 6.
- Session.Play: requires the die bounds to lie within 0 to 9, for the same reason. The game always builds dice with faces 1 to 6. It rolls through `Cluster.RollAll`, so each face is the corrected roll `Dies.FairRoll` of its draw.
- Cluster.RollAll: rolls each die with the corrected roll `Dies.FairRoll`, not the roll as written. The two agree for the game's faces 1 to 6 (`Dies.FairRollAgreesWhenLbIsOne`).

## Findings

| source | as written | input that shows it | evidently intended | confidence | as-written member | corrected member |
|---|---|---|---|---|---|---|
| game.pretty.js:528-531 | `Math.floor(Math.random() * ub + lb)` scales the sample by `ub` rather than by the number of faces | a die with faces 2 to 6 and a sample in [5/6, 1) rolls 7 (`Dies.SourceRollSeven`) | `lb + floor(sample * (ub - lb + 1))`, uniform over `lb .. ub` | high; not executed | Dies.SourceRollExactIff | Dies.FairRoll |
