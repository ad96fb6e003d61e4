/** The parts of a Gaussian mixture that every phase shares: one component
    (`struct GSM` in ubm.h), distances, and the shape a trained model has. */
module Mixture {

  /** `INF` (1e+32): the starting minimum of the nearest-centre search. */
  const Inf: real := 1.0e32

  /** A value that may be missing: a file that could not be opened. */
  datatype Option<T> = None | Some(value: T)

  /** One Gaussian component. `sample` and `tolNum` are the K-means
      bookkeeping: the indices of the rows assigned to it and their count. */
  datatype Gsm = Gsm(mean: seq<real>, variance: seq<real>, sample: seq<int>, weight: real, tolNum: int)

  /** A value-initialised component, as `vector<GSM>::resize` creates one. */
  const Blank: Gsm := Gsm([], [], [], 0.0, 0)

  /** `vector::resize(n)`: keep the first `n` elements, pad with `pad`. */
  function Resize<T>(s: seq<T>, n: nat, pad: T): (r: seq<T>)
    ensures |r| == n
    ensures forall i :: 0 <= i < n ==> r[i] == if i < |s| then s[i] else pad
  {
    if n <= |s| then s[..n] else s + seq(n - |s|, _ => pad)
  }

  /** Squared Euclidean distance over the first `n` coordinates,
      summing `(y[k] - x[k])^2` for k = 0, 1, ..., n - 1. */
  function SqDist(x: seq<real>, y: seq<real>, n: nat): (r: real)
    requires n <= |x| && n <= |y|
    ensures 0.0 <= r
  {
    if n == 0 then 0.0 else SqDist(x, y, n - 1) + (y[n - 1] - x[n - 1]) * (y[n - 1] - x[n - 1])
  }

  lemma {:induction false} SqDistSelf(x: seq<real>, n: nat)
    requires n <= |x|
    ensures SqDist(x, x, n) == 0.0
  {
    if n > 0 {
      SqDistSelf(x, n - 1);
    }
  }

  /** Every row has `dim` coordinates. */
  ghost predicate Rows(rows: seq<seq<real>>, dim: nat) {
    forall t :: 0 <= t < |rows| ==> |rows[t]| == dim
  }

  /** Every component has a mean and a variance of `dim` coordinates. */
  ghost predicate Shaped(g: seq<Gsm>, dim: nat) {
    forall i :: 0 <= i < |g| ==> |g[i].mean| == dim && |g[i].variance| == dim
  }

  function Means(g: seq<Gsm>): (r: seq<seq<real>>)
    ensures |r| == |g| && forall i :: 0 <= i < |g| ==> r[i] == g[i].mean
  {
    seq(|g|, i requires 0 <= i < |g| => g[i].mean)
  }

  function Variances(g: seq<Gsm>): (r: seq<seq<real>>)
    ensures |r| == |g| && forall i :: 0 <= i < |g| ==> r[i] == g[i].variance
  {
    seq(|g|, i requires 0 <= i < |g| => g[i].variance)
  }

  function Weights(g: seq<Gsm>): (r: seq<real>)
    ensures |r| == |g| && forall i :: 0 <= i < |g| ==> r[i] == g[i].weight
  {
    seq(|g|, i requires 0 <= i < |g| => g[i].weight)
  }

  /** The sum of the first `m` weights. */
  function WeightSum(g: seq<Gsm>, m: nat): real
    requires m <= |g|
  {
    if m == 0 then 0.0 else WeightSum(g, m - 1) + g[m - 1].weight
  }

  /** The components after `Init`'s resizing: `num` of them, the missing ones
      blank, every mean and variance cut or zero-padded to `dim` coordinates. */
  function Prepared(g: seq<Gsm>, num: nat, dim: nat): (r: seq<Gsm>)
    ensures |r| == num && Shaped(r, dim)
    ensures forall i :: 0 <= i < num && |g| <= i ==> r[i] == Gsm(seq(dim, _ => 0.0), seq(dim, _ => 0.0), [], 0.0, 0)
    ensures forall i :: 0 <= i < num && i < |g| ==>
      r[i].sample == g[i].sample && r[i].weight == g[i].weight && r[i].tolNum == g[i].tolNum
    ensures forall i, k :: 0 <= i < num && i < |g| && 0 <= k < dim && k < |g[i].mean| ==> r[i].mean[k] == g[i].mean[k]
    ensures forall i, k :: 0 <= i < num && i < |g| && 0 <= k < dim && k < |g[i].variance| ==>
      r[i].variance[k] == g[i].variance[k]
  {
    var h := Resize(g, num, Blank);
    seq(num, i requires 0 <= i < num =>
      h[i].(mean := Resize(h[i].mean, dim, 0.0), variance := Resize(h[i].variance, dim, 0.0)))
  }

  /** Resizing a model that already has the shape changes nothing. */
  lemma PreparedShaped(g: seq<Gsm>, dim: nat)
    requires Shaped(g, dim)
    ensures Prepared(g, |g|, dim) == g
  {
    var r := Prepared(g, |g|, dim);
    forall i | 0 <= i < |g|
      ensures r[i] == g[i]
    {
      assert r[i].mean == g[i].mean;
      assert r[i].variance == g[i].variance;
    }
  }
}
