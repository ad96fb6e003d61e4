/** Specification of MAP mean adaptation (`Self_adaption`, ubm.h:540-584):
    soft counts, weighted means and the convex blend with relevance factor 16. */
module Adaptation {
  import opened Sums
  import opened Mixture
  import opened Em

  /** `Rro`: the relevance factor. */
  const Relevance: real := 16.0

  /** `coef = n / (n + r)`: how far a component moves towards its data. */
  function Coef(n: real, r: real): (c: real)
    requires 0.0 <= n && 0.0 <= r && 0.0 < n + r
    ensures 0.0 <= c <= 1.0
    ensures c * (n + r) == n
  {
    FractionInUnit(n, n + r);
    n / (n + r)
  }

  /** The relevance factor 16 keeps the coefficient strictly below 1, and at 0
      exactly when the soft count is 0. */
  lemma CoefBelowOne(n: real)
    requires 0.0 <= n
    ensures 0.0 <= Coef(n, Relevance) < 1.0
    ensures Coef(n, Relevance) == 0.0 <==> n == 0.0
  {
    FractionInUnit(n, n + Relevance);
  }

  /** `coef * ex + (1 - coef) * prior`. */
  function Blend(c: real, ex: real, prior: real): real {
    c * ex + (1.0 - c) * prior
  }

  /** Arithmetic helper for `BlendOrdered`: a product of non-negatives. */
  lemma ProductNonNegative(a: real, b: real)
    requires 0.0 <= a && 0.0 <= b
    ensures 0.0 <= a * b
  {
  }

  /** Arithmetic helper for `BlendOrdered`: multiplication over a difference. */
  lemma Distribute(a: real, x: real, y: real)
    ensures a * (x - y) == a * x - a * y
  {
  }

  /** Arithmetic helper for `BlendOrdered`: expanding `(1 - coef) * a`. */
  lemma Complement(c: real, a: real)
    ensures (1.0 - c) * a == a - c * a
  {
  }

  /** A blend with a coefficient in [0, 1] of a lower and a higher end stays
      between them. */
  lemma BlendOrdered(c: real, lo: real, hi: real)
    requires 0.0 <= c <= 1.0 && lo <= hi
    ensures lo <= Blend(c, lo, hi) <= hi
  {
    ProductNonNegative(c, hi - lo);
    Distribute(c, hi, lo);
    Complement(c, hi);
    ProductNonNegative(1.0 - c, hi - lo);
    Distribute(1.0 - c, hi, lo);
    Complement(c, lo);
  }

  /** A blend with a coefficient in [0, 1] lies between its two ends,
      whichever is larger. */
  lemma BlendBetween(c: real, ex: real, prior: real)
    requires 0.0 <= c <= 1.0
    ensures ex <= prior ==> ex <= Blend(c, ex, prior) <= prior
    ensures prior <= ex ==> prior <= Blend(c, ex, prior) <= ex
  {
    if ex <= prior {
      BlendOrdered(c, ex, prior);
    }
    if prior <= ex {
      BlendOrdered(1.0 - c, prior, ex);
      assert Blend(1.0 - c, prior, ex) == Blend(c, ex, prior);
    }
  }

  /** The adapted mean of one component: every coordinate blended. */
  function AdaptMean(n: real, ex: seq<real>, prior: seq<real>): (m: seq<real>)
    requires 0.0 <= n && |ex| == |prior|
    ensures |m| == |prior|
  {
    seq(|prior|, j requires 0 <= j < |prior| => Blend(Coef(n, Relevance), ex[j], prior[j]))
  }

  /** `n[i]` for every component: the soft counts. */
  function SoftCounts(p: seq<seq<real>>): (n: seq<real>)
    ensures |n| == |p| && forall i :: 0 <= i < |p| ==> n[i] == Mass(p[i], |p[i]|)
  {
    seq(|p|, i requires 0 <= i < |p| => Mass(p[i], |p[i]|))
  }

  /** `Ex[i]` for every component: the responsibility-weighted means. */
  function DataMeans(rows: seq<seq<real>>, dim: nat, p: seq<seq<real>>): (ex: seq<seq<real>>)
    requires Rows(rows, dim) && Estimable(rows, p)
    ensures |ex| == |p| && forall i :: 0 <= i < |p| ==> ex[i] == WeightedMean(rows, dim, p[i])
  {
    seq(|p|, i requires 0 <= i < |p| => WeightedMean(rows, dim, p[i]))
  }

  /** The components after adaptation: only the means move. */
  function Adapted(gs: seq<Gsm>, n: seq<real>, ex: seq<seq<real>>, dim: nat): (r: seq<Gsm>)
    requires Shaped(gs, dim) && |n| == |gs| && |ex| == |gs|
    requires forall i :: 0 <= i < |gs| ==> 0.0 <= n[i] && |ex[i]| == dim
    ensures |r| == |gs| && Shaped(r, dim)
    ensures forall i :: 0 <= i < |gs| ==>
      r[i] == gs[i].(mean := AdaptMean(n[i], ex[i], gs[i].mean))
  {
    seq(|gs|, i requires 0 <= i < |gs| => gs[i].(mean := AdaptMean(n[i], ex[i], gs[i].mean)))
  }

  /** Every adapted coordinate lies between the data mean and the background
      mean; variances, weights and the K-means bookkeeping are untouched. */
  lemma AdaptedBetween(gs: seq<Gsm>, n: seq<real>, ex: seq<seq<real>>, dim: nat)
    requires Shaped(gs, dim) && |n| == |gs| && |ex| == |gs|
    requires forall i :: 0 <= i < |gs| ==> 0.0 <= n[i] && |ex[i]| == dim
    ensures var r := Adapted(gs, n, ex, dim);
      forall i, j :: 0 <= i < |gs| && 0 <= j < dim ==>
        (ex[i][j] <= gs[i].mean[j] ==> ex[i][j] <= r[i].mean[j] <= gs[i].mean[j]) &&
        (gs[i].mean[j] <= ex[i][j] ==> gs[i].mean[j] <= r[i].mean[j] <= ex[i][j])
    ensures var r := Adapted(gs, n, ex, dim);
      forall i :: 0 <= i < |gs| ==>
        r[i].variance == gs[i].variance && r[i].weight == gs[i].weight &&
        r[i].sample == gs[i].sample && r[i].tolNum == gs[i].tolNum
  {
    var r := Adapted(gs, n, ex, dim);
    forall i, j | 0 <= i < |gs| && 0 <= j < dim
      ensures (ex[i][j] <= gs[i].mean[j] ==> ex[i][j] <= r[i].mean[j] <= gs[i].mean[j]) &&
        (gs[i].mean[j] <= ex[i][j] ==> gs[i].mean[j] <= r[i].mean[j] <= ex[i][j])
    {
      BlendBetween(Coef(n[i], Relevance), ex[i][j], gs[i].mean[j]);
    }
  }
}
