/** Score statistics: the likelihood behind `get_point` (ubm.h:587-598), the
    cohort mean and deviation of `ScoreNormalization` (ubm.h:623-628) and the
    z-normalised score of `get_normal_point` (ubm.h:632-636). */
module Scoring {
  import opened Sums
  import opened Mixture
  import opened Em
  import opened Framing

  /** `normal_mean` after its division: the average cohort score. */
  function ScoreMean(scores: seq<real>): real
    requires 0 < |scores|
  {
    Sum(scores) / (|scores| as real)
  }

  /** Σ (s - m)² over the first `n` scores. */
  function SquaredDeviations(scores: seq<real>, m: real, n: nat): (r: real)
    requires n <= |scores|
    ensures 0.0 <= r
  {
    if n == 0 then 0.0
    else
      var d := scores[n - 1] - m;
      SquaredDeviations(scores, m, n - 1) + d * d
  }

  /** `normal_var` before its square root: the population variance. */
  function PopVariance(scores: seq<real>): (v: real)
    requires 0 < |scores|
    ensures 0.0 <= v
  {
    var d := SquaredDeviations(scores, ScoreMean(scores), |scores|);
    assert 0.0 <= d / (|scores| as real) by {
      FractionInUnit(0.0, |scores| as real);
    }
    d / (|scores| as real)
  }

  /** Σ (s - m) over the first `n` scores. */
  function Deviations(scores: seq<real>, m: real, n: nat): real
    requires n <= |scores|
  {
    if n == 0 then 0.0 else Deviations(scores, m, n - 1) + (scores[n - 1] - m)
  }

  lemma {:induction false} DeviationsAreShifted(scores: seq<real>, m: real, n: nat)
    requires n <= |scores|
    ensures Deviations(scores, m, n) == Sum(scores[..n]) - (n as real) * m
  {
    if n > 0 {
      DeviationsAreShifted(scores, m, n - 1);
      SumPrefixStep(scores, n - 1);
    }
  }

  /** The deviations from the cohort mean cancel out. */
  lemma DeviationsCancel(scores: seq<real>)
    requires 0 < |scores|
    ensures Deviations(scores, ScoreMean(scores), |scores|) == 0.0
  {
    DeviationsAreShifted(scores, ScoreMean(scores), |scores|);
    assert scores[..|scores|] == scores;
    var n := |scores| as real;
    assert ScoreMean(scores) * n == Sum(scores);
  }

  lemma {:induction false} ConstantSum(scores: seq<real>, c: real, n: nat)
    requires n <= |scores| && forall i :: 0 <= i < |scores| ==> scores[i] == c
    ensures Sum(scores[..n]) == (n as real) * c
    ensures SquaredDeviations(scores, c, n) == 0.0
  {
    if n > 0 {
      ConstantSum(scores, c, n - 1);
      SumPrefixStep(scores, n - 1);
      assert ((n - 1) as real) * c + c == (n as real) * c;
    }
  }

  /** A cohort whose scores all agree has that score as its mean and no spread. */
  lemma ConstantCohort(scores: seq<real>, c: real)
    requires 0 < |scores| && forall i :: 0 <= i < |scores| ==> scores[i] == c
    ensures ScoreMean(scores) == c
    ensures PopVariance(scores) == 0.0
  {
    ConstantSum(scores, c, |scores|);
    assert scores[..|scores|] == scores;
    var n := |scores| as real;
    assert Sum(scores) == n * c;
    assert ScoreMean(scores) == c;
  }

  /** `ans` of `get_point` before its logarithm: the mixture likelihood of each
      test row, averaged over the rows. */
  function AverageLikelihood(gauss: Density, test: seq<seq<real>>, gs: seq<Gsm>): real
    requires 0 < |test| && forall j :: 0 <= j < |gs| ==> 0.0 <= gs[j].weight
  {
    Likelihoods(gauss, test, gs, |test|) / (|test| as real)
  }

  function Likelihoods(gauss: Density, test: seq<seq<real>>, gs: seq<Gsm>, n: nat): (r: real)
    requires n <= |test| && forall j :: 0 <= j < |gs| ==> 0.0 <= gs[j].weight
    ensures 0.0 <= r
  {
    if n == 0 then 0.0 else Likelihoods(gauss, test, gs, n - 1) + Denominator(gauss, test[n - 1], gs, |gs|)
  }

  lemma {:induction false} LikelihoodsPositive(gauss: Density, test: seq<seq<real>>, gs: seq<Gsm>, n: nat)
    requires 0 < n <= |test| && Weighted(gs)
    ensures 0.0 < Likelihoods(gauss, test, gs, n)
  {
    DenominatorPositive(gauss, test[n - 1], gs);
    if n > 1 {
      LikelihoodsPositive(gauss, test, gs, n - 1);
    }
  }

  /** With at least one test row and a positive weight, the average
      likelihood is positive, so the logarithm `get_point` takes is defined. */
  lemma AverageLikelihoodPositive(gauss: Density, test: seq<seq<real>>, gs: seq<Gsm>)
    requires 0 < |test| && Weighted(gs)
    ensures 0.0 < AverageLikelihood(gauss, test, gs)
  {
    LikelihoodsPositive(gauss, test, gs, |test|);
    FractionInUnit(0.0, |test| as real);
    assert 0.0 < Likelihoods(gauss, test, gs, |test|) / (|test| as real);
  }

  /** The cohort scores of `ScoreNormalization`: `get_point` of the rows
      kept from each cohort file, `ln` standing for the logarithm. */
  function CohortScores(gauss: Density, ln: real -> real, files: seq<seq<real>>, dim: nat, gs: seq<Gsm>): (r: seq<real>)
    requires forall k :: 0 <= k < |files| ==> Whole(files[k], dim) && 0 < |Frames(files[k], dim)|
    requires forall j :: 0 <= j < |gs| ==> 0.0 <= gs[j].weight
    ensures |r| == |files|
  {
    seq(|files|, k requires 0 <= k < |files| => ln(AverageLikelihood(gauss, Frames(files[k], dim), gs)))
  }

  /** `get_normal_point`: a score measured in cohort deviations from the cohort mean. */
  function NormalPoint(score: real, normalMean: real, normalVar: real): real
    requires normalVar != 0.0
  {
    (score - normalMean) / normalVar
  }

  /** Normalisation is undone by scaling back and shifting back, and a positive
      deviation keeps the order of scores. */
  lemma NormalPointInverse(score: real, other: real, normalMean: real, normalVar: real)
    requires normalVar != 0.0
    ensures NormalPoint(score, normalMean, normalVar) * normalVar + normalMean == score
    ensures 0.0 < normalVar && score <= other ==>
      NormalPoint(score, normalMean, normalVar) <= NormalPoint(other, normalMean, normalVar)
  {
    if 0.0 < normalVar && score <= other {
      var a, b := NormalPoint(score, normalMean, normalVar), NormalPoint(other, normalMean, normalVar);
      assert b - a == (other - score) / normalVar;
      FractionInUnit(0.0, normalVar);
    }
  }
}
