/** Specification of EM training (`E_step`, `M_step`, `EM`, ubm.h:417-510):
    the density with its underflow guard, the responsibility matrix and the
    re-estimation of every component from it. */
module Em {
  import opened Sums
  import opened Mixture

  /** `cnt`: at most this many E/M rounds. */
  const MaxRounds: nat := 4000
  /** `threshold_EM`: EM stops once a round changes the parameters by less. */
  const ThresholdEm: real := 0.002
  /** `DBL_MIN`, substituted for a density that underflowed to zero. */
  const DblMin: real := 2.2250738585072014e-308

  /** The Gaussian density of `cal_gsm` before its underflow guard, left
      abstract: a function of (row, mean, variance) that is never negative. */
  type Density = f: (seq<real>, seq<real>, seq<real>) -> real
    | forall x, m, v :: 0.0 <= f(x, m, v)
    witness (x: seq<real>, m: seq<real>, v: seq<real>) => 0.0

  /** `cal_gsm`: the density, with zero replaced by `DBL_MIN`, so always positive. */
  function CalGsm(gauss: Density, x: seq<real>, mean: seq<real>, variance: seq<real>): (r: real)
    ensures 0.0 < r
    ensures gauss(x, mean, variance) != 0.0 ==> r == gauss(x, mean, variance)
    ensures gauss(x, mean, variance) == 0.0 ==> r == DblMin
  {
    var output := gauss(x, mean, variance);
    if output == 0.0 then DblMin else output
  }

  /** `cal_gsm(j, x) * gsm[j].weight`: the unnormalised responsibility. */
  function Joint(gauss: Density, x: seq<real>, g: Gsm): real {
    CalGsm(gauss, x, g.mean, g.variance) * g.weight
  }

  /** Non-negative weights, at least one of them positive: what keeps the
      E-step's `denominator` away from zero. */
  ghost predicate Weighted(gs: seq<Gsm>) {
    (forall j :: 0 <= j < |gs| ==> 0.0 <= gs[j].weight) &&
    (exists j :: 0 <= j < |gs| && 0.0 < gs[j].weight)
  }

  /** `denominator` after the first `n` components. */
  function Denominator(gauss: Density, x: seq<real>, gs: seq<Gsm>, n: nat): (r: real)
    requires n <= |gs| && forall j :: 0 <= j < |gs| ==> 0.0 <= gs[j].weight
    ensures 0.0 <= r
  {
    if n == 0 then 0.0 else Denominator(gauss, x, gs, n - 1) + Joint(gauss, x, gs[n - 1])
  }

  lemma {:induction false} DenominatorCovers(gauss: Density, x: seq<real>, gs: seq<Gsm>, n: nat, j: nat)
    requires n <= |gs| && forall i :: 0 <= i < |gs| ==> 0.0 <= gs[i].weight
    requires j < n
    ensures Joint(gauss, x, gs[j]) <= Denominator(gauss, x, gs, n)
  {
    if j < n - 1 {
      DenominatorCovers(gauss, x, gs, n - 1, j);
    }
  }

  lemma DenominatorPositive(gauss: Density, x: seq<real>, gs: seq<Gsm>)
    requires Weighted(gs)
    ensures 0.0 < Denominator(gauss, x, gs, |gs|)
  {
    var j :| 0 <= j < |gs| && 0.0 < gs[j].weight;
    DenominatorCovers(gauss, x, gs, |gs|, j);
  }

  /** `pr[j][i]` after normalisation: component j's share of row x. */
  function Posterior(gauss: Density, x: seq<real>, gs: seq<Gsm>, j: nat): (r: real)
    requires Weighted(gs) && j < |gs|
    ensures 0.0 <= r <= 1.0
    ensures 0.0 < gs[j].weight ==> 0.0 < r
  {
    DenominatorPositive(gauss, x, gs);
    DenominatorCovers(gauss, x, gs, |gs|, j);
    FractionInUnit(Joint(gauss, x, gs[j]), Denominator(gauss, x, gs, |gs|));
    Joint(gauss, x, gs[j]) / Denominator(gauss, x, gs, |gs|)
  }

  /** The responsibility matrix the E-step leaves in `pr` (component by row). */
  function Responsibilities(gauss: Density, rows: seq<seq<real>>, gs: seq<Gsm>): (p: seq<seq<real>>)
    requires Weighted(gs)
    ensures |p| == |gs| && forall j :: 0 <= j < |gs| ==> |p[j]| == |rows|
    ensures forall j, i :: 0 <= j < |gs| && 0 <= i < |rows| ==> p[j][i] == Posterior(gauss, rows[i], gs, j)
  {
    seq(|gs|, j requires 0 <= j < |gs| =>
      seq(|rows|, i requires 0 <= i < |rows| => Posterior(gauss, rows[i], gs, j)))
  }

  /** A matrix of `m` rows of `n` entries each. */
  ghost predicate Matrix(p: seq<seq<real>>, m: nat, n: nat) {
    |p| == m && forall j :: 0 <= j < m ==> |p[j]| == n
  }

  /** Column `i` of `p`, summed over its first `m` rows. */
  function ColumnTotal(p: seq<seq<real>>, i: nat, m: nat): real
    requires m <= |p| && forall j :: 0 <= j < m ==> i < |p[j]|
  {
    if m == 0 then 0.0 else ColumnTotal(p, i, m - 1) + p[m - 1][i]
  }

  lemma {:induction false} PosteriorsAddUp(gauss: Density, x: seq<real>, gs: seq<Gsm>, n: nat)
    requires Weighted(gs) && n <= |gs|
    requires 0.0 < Denominator(gauss, x, gs, |gs|)
    ensures SumPosteriors(gauss, x, gs, n) == Denominator(gauss, x, gs, n) / Denominator(gauss, x, gs, |gs|)
  {
    DenominatorPositive(gauss, x, gs);
    if n > 0 {
      PosteriorsAddUp(gauss, x, gs, n - 1);
      AddFractions(Denominator(gauss, x, gs, n - 1), Joint(gauss, x, gs[n - 1]), Denominator(gauss, x, gs, |gs|));
    }
  }

  function SumPosteriors(gauss: Density, x: seq<real>, gs: seq<Gsm>, n: nat): real
    requires Weighted(gs) && n <= |gs|
  {
    if n == 0 then 0.0 else SumPosteriors(gauss, x, gs, n - 1) + Posterior(gauss, x, gs, n - 1)
  }

  lemma {:induction false} ColumnIsPosteriors(gauss: Density, rows: seq<seq<real>>, gs: seq<Gsm>, i: nat, m: nat)
    requires Weighted(gs) && i < |rows| && m <= |gs|
    ensures ColumnTotal(Responsibilities(gauss, rows, gs), i, m) == SumPosteriors(gauss, rows[i], gs, m)
  {
    if m > 0 {
      ColumnIsPosteriors(gauss, rows, gs, i, m - 1);
    }
  }

  /** E-step invariant: every row's responsibilities are in [0, 1] and sum to 1. */
  lemma ResponsibilitiesSumToOne(gauss: Density, rows: seq<seq<real>>, gs: seq<Gsm>)
    requires Weighted(gs)
    ensures forall i :: 0 <= i < |rows| ==> ColumnTotal(Responsibilities(gauss, rows, gs), i, |gs|) == 1.0
    ensures forall j, i :: 0 <= j < |gs| && 0 <= i < |rows| ==>
      0.0 <= Responsibilities(gauss, rows, gs)[j][i] <= 1.0
  {
    var p := Responsibilities(gauss, rows, gs);
    forall i | 0 <= i < |rows|
      ensures ColumnTotal(p, i, |gs|) == 1.0
    {
      ColumnIsPosteriors(gauss, rows, gs, i, |gs|);
      DenominatorPositive(gauss, rows[i], gs);
      PosteriorsAddUp(gauss, rows[i], gs, |gs|);
      WholeOverItself(Denominator(gauss, rows[i], gs, |gs|));
    }
    forall j, i | 0 <= j < |gs| && 0 <= i < |rows|
      ensures 0.0 <= p[j][i] <= 1.0
    {
      assert p[j][i] == Posterior(gauss, rows[i], gs, j);
    }
  }

  // ----- M-step -----

  /** `sum1`: a component's responsibility mass over the first `n` rows. */
  function Mass(p: seq<real>, n: nat): real
    requires n <= |p|
  {
    if n == 0 then 0.0 else Mass(p, n - 1) + p[n - 1]
  }

  lemma {:induction false} MassPositive(p: seq<real>, n: nat)
    requires 0 < n <= |p|
    requires forall k :: 0 <= k < |p| ==> 0.0 < p[k]
    ensures 0.0 < Mass(p, n)
  {
    if n > 1 {
      MassPositive(p, n - 1);
    }
  }

  /** `sum2`: coordinate `j` of the first `n` rows, weighted by responsibility. */
  function WeightedSum(rows: seq<seq<real>>, dim: nat, p: seq<real>, j: nat, n: nat): real
    requires Rows(rows, dim) && j < dim && n <= |rows| && n <= |p|
  {
    if n == 0 then 0.0 else WeightedSum(rows, dim, p, j, n - 1) + rows[n - 1][j] * p[n - 1]
  }

  /** `sum3`: squared deviations of coordinate `j` from `m`, weighted by responsibility. */
  function WeightedDev(rows: seq<seq<real>>, dim: nat, p: seq<real>, j: nat, m: real, n: nat): (r: real)
    requires Rows(rows, dim) && j < dim && n <= |rows| && n <= |p|
    ensures (forall k :: 0 <= k < n ==> 0.0 <= p[k]) ==> 0.0 <= r
  {
    if n == 0 then 0.0
    else
      var d := rows[n - 1][j] - m;
      WeightedSquare(p[n - 1], d);
      WeightedDev(rows, dim, p, j, m, n - 1) + p[n - 1] * d * d
  }

  /** `new_mean` as `M_step` declares it: `num_GSM` slots, while the
      coordinate loop writes slots 0 to `dim - 1`. Every write stays inside
      the array exactly when `dim <= num_GSM`. */
  predicate NewMeanFits(numGsm: nat, dim: nat) {
    dim <= numGsm
  }

  /** The default shape (100 components of 12 coordinates) fits; a mixture of
      8 components over 12 coordinates writes past the end of `new_mean`. */
  lemma NewMeanOverrun()
    ensures NewMeanFits(100, 12) && !NewMeanFits(8, 12)
  {
  }

  /** A responsibility column for every row, with positive total mass. */
  ghost predicate Massive(rows: seq<seq<real>>, p: seq<real>) {
    |p| == |rows| && 0.0 < Mass(p, |p|) && forall k :: 0 <= k < |p| ==> 0.0 <= p[k]
  }

  /** `new_mean` of the M-step (and `Ex` of the adaptation): the
      responsibility-weighted average of the rows. */
  function WeightedMean(rows: seq<seq<real>>, dim: nat, p: seq<real>): (m: seq<real>)
    requires Rows(rows, dim) && Massive(rows, p)
    ensures |m| == dim
    ensures forall j :: 0 <= j < dim ==> m[j] * Mass(p, |p|) == WeightedSum(rows, dim, p, j, |rows|)
  {
    seq(dim, j requires 0 <= j < dim => WeightedSum(rows, dim, p, j, |rows|) / Mass(p, |p|))
  }

  /** `new_var` of the M-step: the responsibility-weighted mean squared
      deviation from the new mean; never negative. */
  function WeightedVar(rows: seq<seq<real>>, dim: nat, p: seq<real>): (v: seq<real>)
    requires Rows(rows, dim) && Massive(rows, p)
    ensures |v| == dim
    ensures forall j :: 0 <= j < dim ==> 0.0 <= v[j]
  {
    var m := WeightedMean(rows, dim, p);
    seq(dim, j requires 0 <= j < dim => WeightedDev(rows, dim, p, j, m[j], |rows|) / Mass(p, |p|))
  }

  /** What the M-step makes of one component from its responsibility row. */
  function Reestimate(rows: seq<seq<real>>, dim: nat, p: seq<real>, g: Gsm): (r: Gsm)
    requires Rows(rows, dim) && Massive(rows, p)
    ensures r.sample == g.sample && r.tolNum == g.tolNum
    ensures 0.0 < r.weight && r.weight * (|rows| as real) == Mass(p, |p|)
  {
    var w := Mass(p, |p|) / (|rows| as real);
    g.(mean := WeightedMean(rows, dim, p), variance := WeightedVar(rows, dim, p), weight := w)
  }

  /** Every row of the responsibility matrix has positive mass. */
  ghost predicate Estimable(rows: seq<seq<real>>, p: seq<seq<real>>) {
    forall i :: 0 <= i < |p| ==> Massive(rows, p[i])
  }

  /** The components after `M_step`. */
  function MUpdate(rows: seq<seq<real>>, dim: nat, p: seq<seq<real>>, gs: seq<Gsm>): (r: seq<Gsm>)
    requires Rows(rows, dim) && |p| == |gs| && Estimable(rows, p)
    ensures |r| == |gs| && forall i :: 0 <= i < |gs| ==> r[i] == Reestimate(rows, dim, p[i], gs[i])
  {
    seq(|gs|, i requires 0 <= i < |gs| => Reestimate(rows, dim, p[i], gs[i]))
  }

  function Abs(x: real): (r: real)
    ensures 0.0 <= r && (r == x || r == -x)
  {
    if x < 0.0 then -x else x
  }

  /** The sum of `fabs(b[j] - a[j])` over the first `n` coordinates. */
  function AbsDist(a: seq<real>, b: seq<real>, n: nat): (r: real)
    requires n <= |a| && n <= |b|
    ensures 0.0 <= r
  {
    if n == 0 then 0.0 else AbsDist(a, b, n - 1) + Abs(b[n - 1] - a[n - 1])
  }

  /** `change_weight` after the first `m` components. */
  function WeightShift(rows: seq<seq<real>>, dim: nat, p: seq<seq<real>>, gs: seq<Gsm>, m: nat): (r: real)
    requires Rows(rows, dim) && |p| == |gs| && Estimable(rows, p) && m <= |gs|
    ensures 0.0 <= r
  {
    if m == 0 then 0.0
    else WeightShift(rows, dim, p, gs, m - 1) + Abs(Reestimate(rows, dim, p[m - 1], gs[m - 1]).weight - gs[m - 1].weight)
  }

  /** `change_mean` after the first `m` components. */
  function MeanShift(rows: seq<seq<real>>, dim: nat, p: seq<seq<real>>, gs: seq<Gsm>, m: nat): (r: real)
    requires Rows(rows, dim) && Shaped(gs, dim) && |p| == |gs| && Estimable(rows, p) && m <= |gs|
    ensures 0.0 <= r
  {
    if m == 0 then 0.0
    else MeanShift(rows, dim, p, gs, m - 1) + AbsDist(gs[m - 1].mean, WeightedMean(rows, dim, p[m - 1]), dim)
  }

  /** `change_var` after the first `m` components. */
  function VarShift(rows: seq<seq<real>>, dim: nat, p: seq<seq<real>>, gs: seq<Gsm>, m: nat): (r: real)
    requires Rows(rows, dim) && Shaped(gs, dim) && |p| == |gs| && Estimable(rows, p) && m <= |gs|
    ensures 0.0 <= r
  {
    if m == 0 then 0.0
    else VarShift(rows, dim, p, gs, m - 1) + AbsDist(gs[m - 1].variance, WeightedVar(rows, dim, p[m - 1]), dim)
  }

  /** The total change `M_step` returns: weight, mean and variance changes together. */
  function MChange(rows: seq<seq<real>>, dim: nat, p: seq<seq<real>>, gs: seq<Gsm>): (r: real)
    requires Rows(rows, dim) && Shaped(gs, dim) && |p| == |gs| && Estimable(rows, p)
    ensures 0.0 <= r
  {
    WeightShift(rows, dim, p, gs, |gs|) + MeanShift(rows, dim, p, gs, |gs|) + VarShift(rows, dim, p, gs, |gs|)
  }

  /** The masses of the first `m` rows of `p`, over `n` columns, added up. */
  function RowsMass(p: seq<seq<real>>, m: nat, n: nat): real
    requires m <= |p| && forall i :: 0 <= i < m ==> n <= |p[i]|
  {
    if m == 0 then 0.0 else RowsMass(p, m - 1, n) + Mass(p[m - 1], n)
  }

  /** The totals of the first `n` columns of `p`, over `m` rows, added up. */
  function ColumnsTotal(p: seq<seq<real>>, m: nat, n: nat): real
    requires m <= |p| && forall i :: 0 <= i < m ==> n <= |p[i]|
  {
    if n == 0 then 0.0 else ColumnsTotal(p, m, n - 1) + ColumnTotal(p, n - 1, m)
  }

  lemma {:induction false} ColumnsTotalAddRow(p: seq<seq<real>>, m: nat, n: nat)
    requires 0 < m <= |p| && forall i :: 0 <= i < m ==> n <= |p[i]|
    ensures ColumnsTotal(p, m, n) == ColumnsTotal(p, m - 1, n) + Mass(p[m - 1], n)
  {
    if n > 0 {
      ColumnsTotalAddRow(p, m, n - 1);
    }
  }

  /** Adding a matrix up row by row or column by column gives the same total. */
  lemma {:induction false} RowsMassIsColumnsTotal(p: seq<seq<real>>, m: nat, n: nat)
    requires m <= |p| && forall i :: 0 <= i < m ==> n <= |p[i]|
    ensures RowsMass(p, m, n) == ColumnsTotal(p, m, n)
  {
    if m > 0 {
      RowsMassIsColumnsTotal(p, m - 1, n);
      ColumnsTotalAddRow(p, m, n);
    } else {
      ColumnsTotalOfNoRows(p, n);
    }
  }

  lemma {:induction false} ColumnsTotalOfNoRows(p: seq<seq<real>>, n: nat)
    ensures ColumnsTotal(p, 0, n) == 0.0
  {
    if n > 0 {
      ColumnsTotalOfNoRows(p, n - 1);
    }
  }

  lemma {:induction false} ColumnsOfOne(p: seq<seq<real>>, m: nat, n: nat)
    requires m <= |p| && forall i :: 0 <= i < m ==> n <= |p[i]|
    requires forall k :: 0 <= k < n ==> ColumnTotal(p, k, m) == 1.0
    ensures ColumnsTotal(p, m, n) == n as real
  {
    if n > 0 {
      ColumnsOfOne(p, m, n - 1);
    }
  }

  lemma {:induction false} WeightSumIsMass(rows: seq<seq<real>>, dim: nat, p: seq<seq<real>>, gs: seq<Gsm>, m: nat)
    requires Rows(rows, dim) && |p| == |gs| && Estimable(rows, p) && m <= |gs| && 0 < |rows|
    ensures WeightSum(MUpdate(rows, dim, p, gs), m) == RowsMass(p, m, |rows|) / (|rows| as real)
  {
    if m > 0 {
      WeightSumIsMass(rows, dim, p, gs, m - 1);
      AddFractions(RowsMass(p, m - 1, |rows|), Mass(p[m - 1], |rows|), |rows| as real);
    }
  }

  /** When every row's responsibilities sum to 1, the weights `M_step`
      computes (`sum1 / N`) sum to 1. */
  lemma MStepWeightsSumToOne(rows: seq<seq<real>>, dim: nat, p: seq<seq<real>>, gs: seq<Gsm>)
    requires Rows(rows, dim) && |p| == |gs| && Estimable(rows, p) && 0 < |rows|
    requires forall k :: 0 <= k < |rows| ==> ColumnTotal(p, k, |gs|) == 1.0
    ensures WeightSum(MUpdate(rows, dim, p, gs), |gs|) == 1.0
  {
    WeightSumIsMass(rows, dim, p, gs, |gs|);
    RowsMassIsColumnsTotal(p, |gs|, |rows|);
    ColumnsOfOne(p, |gs|, |rows|);
    WholeOverItself(|rows| as real);
  }

  /** With every weight positive, every responsibility is positive, so every
      component keeps a positive mass and `M_step` never divides by zero. */
  lemma PositiveWeightsGiveMass(gauss: Density, rows: seq<seq<real>>, gs: seq<Gsm>)
    requires 0 < |rows| && 0 < |gs|
    requires forall j :: 0 <= j < |gs| ==> 0.0 < gs[j].weight
    ensures Weighted(gs)
    ensures Estimable(rows, Responsibilities(gauss, rows, gs))
  {
    assert 0.0 < gs[0].weight;
    var p := Responsibilities(gauss, rows, gs);
    forall i | 0 <= i < |p|
      ensures Massive(rows, p[i])
    {
      assert forall k :: 0 <= k < |p[i]| ==> 0.0 < p[i][k];
      MassPositive(p[i], |p[i]|);
    }
  }

  // ----- the EM loop -----

  /** Every weight positive: what `EM` keeps from round to round. */
  ghost predicate Positive(gs: seq<Gsm>) {
    forall j :: 0 <= j < |gs| ==> 0.0 < gs[j].weight
  }

  /** What `EM` needs to start from `g`: rows of `dim` coordinates, at
      least one of them, and components of that shape with positive weights. */
  ghost predicate Trainable(rows: seq<seq<real>>, dim: nat, g: seq<Gsm>) {
    Rows(rows, dim) && 0 < |rows| && Shaped(g, dim) && 0 < |g| && Positive(g)
  }

  /** One round of `EM` from components `g`: `E_step`, then `M_step`, with
      the change `M_step` returns. The new weights are positive and sum to 1. */
  ghost function EmStep(gauss: Density, rows: seq<seq<real>>, dim: nat, g: seq<Gsm>): (r: (seq<Gsm>, real))
    requires Trainable(rows, dim, g)
    ensures |r.0| == |g| && Trainable(rows, dim, r.0)
    ensures WeightSum(r.0, |g|) == 1.0 && 0.0 <= r.1
  {
    PositiveWeightsGiveMass(gauss, rows, g);
    ResponsibilitiesSumToOne(gauss, rows, g);
    var p := Responsibilities(gauss, rows, g);
    MStepWeightsSumToOne(rows, dim, p, g);
    (MUpdate(rows, dim, p, g), MChange(rows, dim, p, g))
  }

  /** The components and the change after `k` rounds of `EM` from `g`,
      which starts with change `INF`. */
  ghost function EmRun(gauss: Density, rows: seq<seq<real>>, dim: nat, g: seq<Gsm>, k: nat): (r: (seq<Gsm>, real))
    requires Trainable(rows, dim, g)
    ensures |r.0| == |g| && Trainable(rows, dim, r.0)
    ensures 0 < k ==> WeightSum(r.0, |g|) == 1.0 && 0.0 <= r.1
  {
    if k == 0 then (g, Inf) else EmStep(gauss, rows, dim, EmRun(gauss, rows, dim, g, k - 1).0)
  }

  /** Rounds 1 .. n - 1 of `EM` from `g` each changed the model by at least
      `threshold_EM`: the loop ran on after each. */
  ghost predicate EmContinued(gauss: Density, rows: seq<seq<real>>, dim: nat, g: seq<Gsm>, n: nat)
    requires Trainable(rows, dim, g)
    decreases n
  {
    n <= 1 || (EmContinued(gauss, rows, dim, g, n - 1) && ThresholdEm <= EmRun(gauss, rows, dim, g, n - 1).1)
  }

  /** `EmContinued` is the `while` guard's test held over the changes of
      rounds 1 .. n - 1. */
  lemma {:induction false} EmContinuedHeld(gauss: Density, rows: seq<seq<real>>, dim: nat, g: seq<Gsm>, n: nat)
    requires Trainable(rows, dim, g)
    ensures EmContinued(gauss, rows, dim, g, n) <==>
      HeldFrom((k: nat) => EmRun(gauss, rows, dim, g, k).1, ThresholdEm, n)
    decreases n
  {
    if 1 < n {
      EmContinuedHeld(gauss, rows, dim, g, n - 1);
    }
  }

  /** `EmContinued` round by round: every round 1 .. n - 1 changed the model
      by at least `threshold_EM`. */
  lemma EmContinuedRounds(gauss: Density, rows: seq<seq<real>>, dim: nat, g: seq<Gsm>, n: nat)
    requires Trainable(rows, dim, g)
    ensures EmContinued(gauss, rows, dim, g, n) <==>
      forall k: nat :: 1 <= k < n ==> ThresholdEm <= EmRun(gauss, rows, dim, g, k).1
  {
    var c := (k: nat) => EmRun(gauss, rows, dim, g, k).1;
    EmContinuedHeld(gauss, rows, dim, g, n);
    HeldFromAll(c, ThresholdEm, n);
    if EmContinued(gauss, rows, dim, g, n) {
      forall k: nat | 1 <= k < n
        ensures ThresholdEm <= EmRun(gauss, rows, dim, g, k).1
      {
        assert c(k) == EmRun(gauss, rows, dim, g, k).1;
      }
    } else {
      var k: nat :| 1 <= k < n && c(k) < ThresholdEm;
      assert EmRun(gauss, rows, dim, g, k).1 < ThresholdEm;
    }
  }

  /** After `n` rounds of `EM` from `g`, the loop having gone on after rounds
      1 .. n - 1: the model is `h` and the last change `c`; after at least one
      round, that round started from `prior` and `p` holds its
      responsibilities. */
  ghost predicate EmAt(gauss: Density, rows: seq<seq<real>>, dim: nat, g: seq<Gsm>, n: nat,
                       h: seq<Gsm>, c: real, prior: seq<Gsm>, p: seq<seq<real>>)
    requires Trainable(rows, dim, g)
  {
    EmContinued(gauss, rows, dim, g, n) && (h, c) == EmRun(gauss, rows, dim, g, n) &&
    (0 < n ==>
      prior == EmRun(gauss, rows, dim, g, n - 1).0 && Weighted(prior) && p == Responsibilities(gauss, rows, prior))
  }

  /** `EmAt`, stated for every round index equal to `n`, so that a proof
      unfolds the run only where it names round `n`. */
  ghost predicate EmRanTo(gauss: Density, rows: seq<seq<real>>, dim: nat, g: seq<Gsm>, n: nat,
                          h: seq<Gsm>, c: real, prior: seq<Gsm>, p: seq<seq<real>>)
    requires Trainable(rows, dim, g)
  {
    forall k: nat {:trigger EmRun(gauss, rows, dim, g, k)} :: k == n ==> EmAt(gauss, rows, dim, g, k, h, c, prior, p)
  }

  lemma EmRanToRound(gauss: Density, rows: seq<seq<real>>, dim: nat, g: seq<Gsm>, n: nat,
                     h: seq<Gsm>, c: real, prior: seq<Gsm>, p: seq<seq<real>>)
    requires Trainable(rows, dim, g)
    ensures EmRanTo(gauss, rows, dim, g, n, h, c, prior, p) <==> EmAt(gauss, rows, dim, g, n, h, c, prior, p)
  {
    var r := EmRun(gauss, rows, dim, g, n);
    if EmAt(gauss, rows, dim, g, n, h, c, prior, p) {
      forall k: nat | k == n
        ensures EmAt(gauss, rows, dim, g, k, h, c, prior, p)
      {
      }
    }
  }

  /** Before the first round the model is `g` and the change `INF`. */
  lemma EmRanToStart(gauss: Density, rows: seq<seq<real>>, dim: nat, g: seq<Gsm>, prior: seq<Gsm>, p: seq<seq<real>>)
    requires Trainable(rows, dim, g)
    ensures EmRanTo(gauss, rows, dim, g, 0, g, Inf, prior, p)
  {
    EmRanToRound(gauss, rows, dim, g, 0, g, Inf, prior, p);
  }

  /** One more round, after a change of at least `threshold_EM` (or before
      any), moves `EmRanTo` on by one round. */
  lemma EmRanToStep(gauss: Density, rows: seq<seq<real>>, dim: nat, g: seq<Gsm>, n: nat,
                    h: seq<Gsm>, c: real, prior: seq<Gsm>, p: seq<seq<real>>,
                    h': seq<Gsm>, c': real, p': seq<seq<real>>)
    requires Trainable(rows, dim, g)
    requires EmRanTo(gauss, rows, dim, g, n, h, c, prior, p) && (0 < n ==> ThresholdEm <= c)
    requires Trainable(rows, dim, h) && Weighted(h)
    requires (h', c') == EmStep(gauss, rows, dim, h) && p' == Responsibilities(gauss, rows, h)
    ensures EmRanTo(gauss, rows, dim, g, n + 1, h', c', h, p')
  {
    EmRanToRound(gauss, rows, dim, g, n, h, c, prior, p);
    assert EmRun(gauss, rows, dim, g, n + 1) == EmStep(gauss, rows, dim, h);
    EmRanToRound(gauss, rows, dim, g, n + 1, h', c', h, p');
  }
}
