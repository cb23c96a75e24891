/** A single die: its bounds check at construction, and its roll with the
    random sample replaced by an injected integer draw. */
module Dies {
  import opened Wrappers

  /** The two construction errors: the die's bounds check, and the check of
      the whole set's bounds. */
  datatype BoundsError = DieBoundsError | DiceBoundsError

  /** A die with faces from `lb` upwards; a constructed die has `lb < ub`. */
  datatype Die = Die(lb: int, ub: int)

  /** `new Die(lb, ub)`: `areBoundsOK` refuses a lower bound that is not
      strictly below the upper one, so a one-faced die cannot be built. */
  function NewDie(lb: int, ub: int): (r: Result<Die, BoundsError>)
    ensures r.Success? <==> lb < ub
    ensures r.Success? ==> r.value == Die(lb, ub)
    ensures r.Failure? ==> r.error == DieBoundsError
  {
    if lb >= ub then Failure(DieBoundsError) else Success(Die(lb, ub))
  }

  /** The values `Math.floor(Math.random() * ub)` can take for a sample in
      [0, 1): 0 to ub - 1 when ub is positive, ub to 0 otherwise. */
  predicate SourceDraw(ub: int, k: int) {
    if ub > 0 then 0 <= k < ub else ub <= k <= 0
  }

  /** `roll` as written: `floor(sample * ub + lb)`, which is `lb` plus the
      draw because `lb` is an integer. */
  function SourceRoll(d: Die, k: int): (face: int)
    requires SourceDraw(d.ub, k)
    ensures d.ub > 0 ==> d.lb <= face <= d.lb + d.ub - 1
    ensures d.ub <= 0 ==> d.lb + d.ub <= face <= d.lb
  {
    d.lb + k
  }

  /** Some draw makes `roll` as written show face `f`. */
  ghost predicate SourceReaches(d: Die, f: int) {
    exists k :: SourceDraw(d.ub, k) && SourceRoll(d, k) == f
  }

  /** The faces `roll` produces are exactly `lb` to `ub` only when `lb` is 1:
      a higher `lb` yields faces above `ub`, a lower one never reaches `ub`. */
  lemma SourceRollExactIff(d: Die)
    requires d.lb < d.ub
    ensures ((forall k :: SourceDraw(d.ub, k) ==> d.lb <= SourceRoll(d, k) <= d.ub)
             && (forall f :: d.lb <= f <= d.ub ==> SourceReaches(d, f)))
            <==> d.lb == 1
  {
    if d.lb == 1 {
      forall f | d.lb <= f <= d.ub
        ensures SourceReaches(d, f)
      {
        assert SourceDraw(d.ub, f - 1) && SourceRoll(d, f - 1) == f;
      }
    } else if d.lb > 1 {
      assert SourceDraw(d.ub, d.ub - 1) && SourceRoll(d, d.ub - 1) > d.ub;
    } else {
      assert !SourceReaches(d, d.ub);
    }
  }

  /** A die with faces 2 to 6 rolls a 7 when the sample is at least 5/6. */
  lemma SourceRollSeven()
    ensures SourceDraw(6, 5) && SourceRoll(Die(2, 6), 5) == 7
  {
  }

  /** The draw `floor(sample * (ub - lb + 1))`: 0 to ub - lb. */
  predicate FairDraw(d: Die, k: int) {
    0 <= k <= d.ub - d.lb
  }

  /** The corrected roll, `lb + floor(sample * (ub - lb + 1))`. */
  function FairRoll(d: Die, k: int): (face: int)
    requires FairDraw(d, k)
    ensures d.lb <= face <= d.ub
  {
    d.lb + k
  }

  /** Some draw makes the corrected roll show face `f`. */
  ghost predicate FairReaches(d: Die, f: int) {
    exists k :: FairDraw(d, k) && FairRoll(d, k) == f
  }

  /** Every face from `lb` to `ub` comes from exactly one draw, so equally
      likely draws give equally likely faces. */
  lemma FairRollUniform(d: Die)
    requires d.lb < d.ub
    ensures forall f :: d.lb <= f <= d.ub ==> FairReaches(d, f)
    ensures forall k1, k2 :: FairDraw(d, k1) && FairDraw(d, k2) && FairRoll(d, k1) == FairRoll(d, k2) ==> k1 == k2
  {
    forall f | d.lb <= f <= d.ub
      ensures FairReaches(d, f)
    {
      assert FairDraw(d, f - d.lb) && FairRoll(d, f - d.lb) == f;
    }
  }

  /** With faces starting at 1, as in the game, the corrected roll and the
      roll as written accept the same draws and give the same face. */
  lemma FairRollAgreesWhenLbIsOne(d: Die, k: int)
    requires d.lb == 1 < d.ub
    ensures SourceDraw(d.ub, k) <==> FairDraw(d, k)
    ensures FairDraw(d, k) ==> SourceRoll(d, k) == FairRoll(d, k)
  {
  }
}
