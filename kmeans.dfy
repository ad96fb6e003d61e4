/** Specification of the K-means bookkeeping of `UBM` (ubm.h:310-412):
    the nearest-centre search, the partition of the rows into clusters,
    and the mean, variance and weight each cluster receives. */
module KMeans {
  import opened Sums
  import opened Mixture

  /** `max_iter`: at most this many recluster / update_mean rounds. */
  const MaxIter: nat := 1000
  /** `threshold`: K-means stops once a round moves the means by less. */
  const Threshold: real := 0.0001

  /** `distance(data_id, gsm_id)`: squared distance from a row to a mean. */
  function Distance(x: seq<real>, m: seq<real>): (r: real)
    requires |x| == |m|
    ensures 0.0 <= r
    ensures x == m ==> r == 0.0
  {
    if x == m then SqDistSelf(x, |x|); SqDist(x, m, |x|) else SqDist(x, m, |x|)
  }

  ghost predicate Conformable(x: seq<real>, means: seq<seq<real>>) {
    forall i :: 0 <= i < |means| ==> |means[i]| == |x|
  }

  /** The running minimum and its index after `find_closest` has looked at
      the first `n` means. */
  datatype Nearest = Nearest(min: real, id: int)

  function Scan(x: seq<real>, means: seq<seq<real>>, n: nat): (c: Nearest)
    requires n <= |means| && Conformable(x, means)
    ensures -1 <= c.id < n
    ensures c.id == -1 ==> c.min == Inf
    ensures c.id != -1 ==> c.min == Distance(x, means[c.id]) < Inf
    ensures forall i :: 0 <= i < n ==> c.min <= Distance(x, means[i])
    ensures forall i :: 0 <= i < c.id ==> c.min < Distance(x, means[i])
  {
    if n == 0 then Nearest(Inf, -1)
    else
      var c := Scan(x, means, n - 1);
      var d := Distance(x, means[n - 1]);
      if d < c.min then Nearest(d, n - 1) else c
  }

  /** `find_closest`: the lowest index of a mean at minimal distance from `x`,
      or -1 when there is no mean closer than `Inf`. */
  function FindClosest(x: seq<real>, means: seq<seq<real>>): (r: int)
    requires Conformable(x, means)
    ensures -1 <= r < |means|
    ensures r == -1 <==> forall i :: 0 <= i < |means| ==> Inf <= Distance(x, means[i])
    ensures r != -1 ==> Distance(x, means[r]) < Inf
    ensures r != -1 ==> forall i :: 0 <= i < |means| ==> Distance(x, means[r]) <= Distance(x, means[i])
    ensures r != -1 ==> forall i :: 0 <= i < r ==> Distance(x, means[r]) < Distance(x, means[i])
  {
    Scan(x, means, |means|).id
  }

  /** The cluster `find_closest` picks for every row. */
  function Assign(data: seq<seq<real>>, means: seq<seq<real>>, dim: nat): (a: seq<int>)
    requires Rows(data, dim) && Rows(means, dim)
    ensures |a| == |data|
    ensures forall t :: 0 <= t < |data| ==> a[t] == FindClosest(data[t], means)
  {
    seq(|data|, t requires 0 <= t < |data| => FindClosest(data[t], means))
  }

  /** The indices t < n with `a[t] == c`, in increasing order: the list
      `recluster` builds for cluster `c` by `push_back`. */
  function IndicesOf(a: seq<int>, c: int, n: nat): (r: seq<int>)
    requires n <= |a|
    ensures |r| <= n
    ensures forall t :: t in r <==> 0 <= t < n && a[t] == c
    ensures forall p, q :: 0 <= p < q < |r| ==> r[p] < r[q]
  {
    if n == 0 then []
    else
      var r := IndicesOf(a, c, n - 1);
      if a[n - 1] == c then
        assert forall p :: 0 <= p < |r| ==> r[p] in r;
        r + [n - 1]
      else r
  }

  lemma IndicesStep(a: seq<int>, c: int, n: nat)
    requires n < |a|
    ensures IndicesOf(a, c, n + 1) == if a[n] == c then IndicesOf(a, c, n) + [n] else IndicesOf(a, c, n)
  {
  }

  /** The sizes of the lists for clusters 0 .. m - 1, added up. */
  function Counted(a: seq<int>, m: nat, n: nat): int
    requires n <= |a|
  {
    if m == 0 then 0 else Counted(a, m - 1, n) + |IndicesOf(a, m - 1, n)|
  }

  lemma {:induction false} CountedStep(a: seq<int>, m: nat, n: nat)
    requires 0 < n <= |a|
    ensures Counted(a, m, n) == Counted(a, m, n - 1) + (if 0 <= a[n - 1] < m then 1 else 0)
  {
    if m > 0 {
      CountedStep(a, m - 1, n);
    }
  }

  /** When every row is assigned to one of m clusters, the lists hold n rows in all. */
  lemma {:induction false} CountedAll(a: seq<int>, m: nat, n: nat)
    requires n <= |a|
    requires forall t :: 0 <= t < n ==> 0 <= a[t] < m
    ensures Counted(a, m, n) == n
  {
    if n > 0 {
      CountedAll(a, m, n - 1);
      CountedStep(a, m, n);
    } else if m > 0 {
      ZeroCounted(a, m);
    }
  }

  lemma {:induction false} ZeroCounted(a: seq<int>, m: nat)
    ensures Counted(a, m, 0) == 0
  {
    if m > 0 {
      ZeroCounted(a, m - 1);
    }
  }

  /** The sum of the first m `tolNum` counts. */
  function TotalTol(g: seq<Gsm>, m: nat): int
    requires m <= |g|
  {
    if m == 0 then 0 else TotalTol(g, m - 1) + g[m - 1].tolNum
  }

  /** The state `recluster` leaves: cluster i lists exactly the rows assigned to i. */
  ghost predicate Partitioned(g: seq<Gsm>, a: seq<int>) {
    forall i :: 0 <= i < |g| ==> g[i].sample == IndicesOf(a, i, |a|) && g[i].tolNum == |g[i].sample|
  }

  lemma {:induction false} PartitionTotal(g: seq<Gsm>, a: seq<int>, m: nat)
    requires Partitioned(g, a) && m <= |g|
    ensures TotalTol(g, m) == Counted(a, m, |a|)
  {
    if m > 0 {
      PartitionTotal(g, a, m - 1);
    }
  }

  /** After `recluster` over an assignment that picked a cluster for every row,
      every row is in exactly one list and the `tolNum` counts add up to the row count. */
  lemma PartitionCoversRows(g: seq<Gsm>, a: seq<int>)
    requires Partitioned(g, a)
    requires forall t :: 0 <= t < |a| ==> 0 <= a[t] < |g|
    ensures TotalTol(g, |g|) == |a|
    ensures forall t :: 0 <= t < |a| ==> t in g[a[t]].sample
    ensures forall t, i :: 0 <= i < |g| && t in g[i].sample ==> 0 <= t < |a| && i == a[t]
  {
    PartitionTotal(g, a, |g|);
    CountedAll(a, |g|, |a|);
  }

  // ----- cluster statistics -----

  /** The first `tol` entries of `sample` are indices of rows. */
  ghost predicate Listed(data: seq<seq<real>>, sample: seq<int>, tol: int) {
    0 <= tol <= |sample| && forall j :: 0 <= j < |sample| ==> 0 <= sample[j] < |data|
  }

  ghost predicate Members(data: seq<seq<real>>, g: Gsm) {
    Listed(data, g.sample, g.tolNum)
  }

  ghost predicate Clustered(data: seq<seq<real>>, g: seq<Gsm>) {
    forall i :: 0 <= i < |g| ==> Members(data, g[i])
  }

  /** A partition that gave every row a cluster lists only row indices, and
      its counts add up to the number of rows. */
  lemma PartitionIsClustering(data: seq<seq<real>>, g: seq<Gsm>, a: seq<int>)
    requires Partitioned(g, a) && |a| == |data|
    requires forall t :: 0 <= t < |a| ==> 0 <= a[t] < |g|
    ensures Clustered(data, g) && TotalTol(g, |g|) == |data|
    ensures forall i :: 0 <= i < |g| ==> 0 <= g[i].tolNum
  {
    PartitionCoversRows(g, a);
    forall i | 0 <= i < |g|
      ensures Members(data, g[i])
    {
      forall j | 0 <= j < |g[i].sample|
        ensures 0 <= g[i].sample[j] < |data|
      {
        assert g[i].sample[j] in g[i].sample;
      }
    }
  }

  /** `new_mean[k]` in `update_mean` after `j` of the cluster's rows:
      the sum of `data[sample[j']][k] / tolNum` for j' < j. */
  function MeanAcc(data: seq<seq<real>>, dim: nat, sample: seq<int>, tol: int, k: nat, j: nat): real
    requires Rows(data, dim) && Listed(data, sample, tol) && k < dim && j <= tol
  {
    if j == 0 then 0.0
    else MeanAcc(data, dim, sample, tol, k, j - 1) + data[sample[j - 1]][k] / (tol as real)
  }

  /** The plain sum of coordinate k over the cluster's first `j` rows. */
  function ColumnSum(data: seq<seq<real>>, dim: nat, sample: seq<int>, tol: int, k: nat, j: nat): real
    requires Rows(data, dim) && Listed(data, sample, tol) && k < dim && j <= tol
  {
    if j == 0 then 0.0 else ColumnSum(data, dim, sample, tol, k, j - 1) + data[sample[j - 1]][k]
  }

  lemma {:induction false} MeanAccIsScaledSum(data: seq<seq<real>>, dim: nat, sample: seq<int>, tol: int, k: nat, j: nat)
    requires Rows(data, dim) && Listed(data, sample, tol) && k < dim && j <= tol
    requires 0 < tol
    ensures MeanAcc(data, dim, sample, tol, k, j) == ColumnSum(data, dim, sample, tol, k, j) / (tol as real)
  {
    if j > 0 {
      MeanAccIsScaledSum(data, dim, sample, tol, k, j - 1);
    }
  }

  /** The mean `update_mean` computes for one cluster. */
  function ClusterMean(data: seq<seq<real>>, dim: nat, g: Gsm): (m: seq<real>)
    requires Rows(data, dim) && Members(data, g)
    ensures |m| == dim
  {
    seq(dim, k requires 0 <= k < dim => MeanAcc(data, dim, g.sample, g.tolNum, k, g.tolNum))
  }

  /** The mean of a cluster is the average of its rows; an empty cluster gets all zeros. */
  lemma ClusterMeanIsAverage(data: seq<seq<real>>, dim: nat, g: Gsm)
    requires Rows(data, dim) && Members(data, g)
    ensures g.tolNum == 0 ==> forall k :: 0 <= k < dim ==> ClusterMean(data, dim, g)[k] == 0.0
    ensures 0 < g.tolNum ==> forall k :: 0 <= k < dim ==>
      ClusterMean(data, dim, g)[k] * (g.tolNum as real) == ColumnSum(data, dim, g.sample, g.tolNum, k, g.tolNum)
  {
    if 0 < g.tolNum {
      forall k | 0 <= k < dim
        ensures ClusterMean(data, dim, g)[k] * (g.tolNum as real) == ColumnSum(data, dim, g.sample, g.tolNum, k, g.tolNum)
      {
        MeanAccIsScaledSum(data, dim, g.sample, g.tolNum, k, g.tolNum);
      }
    }
  }

  /** `var[k]` in `update_var` after `j` of the cluster's rows:
      the sum of `(data[sample[j']][k] - mean[k])^2 / tolNum` for j' < j. */
  function VarAcc(data: seq<seq<real>>, dim: nat, sample: seq<int>, tol: int, mean: real, k: nat, j: nat): (r: real)
    requires Rows(data, dim) && Listed(data, sample, tol) && k < dim && j <= tol
    ensures 0.0 <= r
  {
    if j == 0 then 0.0
    else VarAcc(data, dim, sample, tol, mean, k, j - 1) + Spread(data[sample[j - 1]][k], mean, tol)
  }

  /** One row's term of `update_var`: `1.0f / tol_num * (x - mean)^2`. */
  function Spread(x: real, mean: real, tol: int): (r: real)
    requires 0 < tol
    ensures 0.0 <= r
  {
    var d := x - mean;
    WeightedSquare(1.0 / (tol as real), d);
    1.0 / (tol as real) * d * d
  }

  /** The variance `update_var` computes for one cluster from its current mean. */
  function ClusterVar(data: seq<seq<real>>, dim: nat, g: Gsm): (v: seq<real>)
    requires Rows(data, dim) && Members(data, g) && |g.mean| == dim
    ensures |v| == dim
    ensures forall k :: 0 <= k < dim ==> 0.0 <= v[k]
    ensures g.tolNum == 0 ==> forall k :: 0 <= k < dim ==> v[k] == 0.0
  {
    seq(dim, k requires 0 <= k < dim => VarAcc(data, dim, g.sample, g.tolNum, g.mean[k], k, g.tolNum))
  }

  /** Every component's mean replaced by its cluster mean (the effect of `update_mean`). */
  function ApplyMeans(data: seq<seq<real>>, dim: nat, g: seq<Gsm>): (r: seq<Gsm>)
    requires Rows(data, dim) && Clustered(data, g)
    ensures |r| == |g|
    ensures forall i :: 0 <= i < |g| ==> r[i] == g[i].(mean := ClusterMean(data, dim, g[i]))
  {
    seq(|g|, i requires 0 <= i < |g| => g[i].(mean := ClusterMean(data, dim, g[i])))
  }

  /** The value `update_mean` returns: how far the first m means move, squared. */
  function MeanChange(data: seq<seq<real>>, dim: nat, g: seq<Gsm>, m: nat): (r: real)
    requires Rows(data, dim) && Clustered(data, g) && Shaped(g, dim) && m <= |g|
  {
    if m == 0 then 0.0
    else MeanChange(data, dim, g, m - 1) + SqDist(g[m - 1].mean, ClusterMean(data, dim, g[m - 1]), dim)
  }

  lemma {:induction false} MeanChangeNonNegative(data: seq<seq<real>>, dim: nat, g: seq<Gsm>, m: nat)
    requires Rows(data, dim) && Clustered(data, g) && Shaped(g, dim) && m <= |g|
    ensures 0.0 <= MeanChange(data, dim, g, m)
  {
    if m > 0 {
      MeanChangeNonNegative(data, dim, g, m - 1);
    }
  }

  /** Idempotence of `update_mean`: once the means are the cluster means,
      recomputing them (with no `recluster` in between) moves nothing. */
  lemma {:induction false} MeanChangeAtFixedPoint(data: seq<seq<real>>, dim: nat, g: seq<Gsm>, m: nat)
    requires Rows(data, dim) && Clustered(data, g) && Shaped(g, dim) && m <= |g|
    ensures MeanChange(data, dim, ApplyMeans(data, dim, g), m) == 0.0
  {
    if m > 0 {
      var h := ApplyMeans(data, dim, g);
      MeanChangeAtFixedPoint(data, dim, g, m - 1);
      assert ClusterMean(data, dim, h[m - 1]) == h[m - 1].mean;
      SqDistSelf(h[m - 1].mean, dim);
    }
  }

  /** After `update_mean` following a full `recluster`, the clusters are
      unchanged and every mean is its own cluster's average. */
  lemma MeansSettle(data: seq<seq<real>>, dim: nat, g: seq<Gsm>)
    requires Rows(data, dim) && Clustered(data, g) && Shaped(g, dim)
    requires TotalTol(g, |g|) == |data| && forall j :: 0 <= j < |g| ==> 0 <= g[j].tolNum
    ensures var h := ApplyMeans(data, dim, g);
      Clustered(data, h) && Shaped(h, dim) && TotalTol(h, |h|) == |data| &&
      forall j :: 0 <= j < |h| ==> 0 <= h[j].tolNum && h[j].mean == ClusterMean(data, dim, h[j])
  {
    var h := ApplyMeans(data, dim, g);
    TotalTolSame(h, g, |g|);
    forall j | 0 <= j < |h|
      ensures h[j].mean == ClusterMean(data, dim, h[j])
    {
      assert h[j].sample == g[j].sample && h[j].tolNum == g[j].tolNum;
    }
  }

  /** Every component's variance replaced by its cluster variance (`update_var`). */
  function ApplyVars(data: seq<seq<real>>, dim: nat, g: seq<Gsm>): (r: seq<Gsm>)
    requires Rows(data, dim) && Clustered(data, g) && Shaped(g, dim)
    ensures |r| == |g|
    ensures forall i :: 0 <= i < |g| ==> r[i] == g[i].(variance := ClusterVar(data, dim, g[i]))
  {
    seq(|g|, i requires 0 <= i < |g| => g[i].(variance := ClusterVar(data, dim, g[i])))
  }

  /** Every weight replaced by the cluster's share of the N rows (`update_weight`). */
  function ApplyWeights(g: seq<Gsm>, n: nat): (r: seq<Gsm>)
    requires 0 < n
    ensures |r| == |g|
    ensures forall i :: 0 <= i < |g| ==> r[i] == g[i].(weight := g[i].tolNum as real / n as real)
  {
    seq(|g|, i requires 0 <= i < |g| => g[i].(weight := g[i].tolNum as real / n as real))
  }

  lemma {:induction false} WeightSumIsShare(g: seq<Gsm>, n: nat, m: nat)
    requires 0 < n && m <= |g|
    ensures WeightSum(ApplyWeights(g, n), m) == TotalTol(g, m) as real / n as real
  {
    if m > 0 {
      WeightSumIsShare(g, n, m - 1);
    }
  }

  lemma {:induction false} TolBelowTotal(g: seq<Gsm>, m: nat, i: nat)
    requires i < m <= |g|
    requires forall j :: 0 <= j < |g| ==> 0 <= g[j].tolNum
    ensures g[i].tolNum <= TotalTol(g, m)
  {
    if i < m - 1 {
      TolBelowTotal(g, m - 1, i);
      TolNonNegative(g, m - 1);
    } else {
      TolNonNegative(g, m - 1);
    }
  }

  lemma {:induction false} TolNonNegative(g: seq<Gsm>, m: nat)
    requires m <= |g|
    requires forall j :: 0 <= j < |g| ==> 0 <= g[j].tolNum
    ensures 0 <= TotalTol(g, m)
  {
    if m > 0 {
      TolNonNegative(g, m - 1);
    }
  }

  /** The total only depends on the counts. */
  lemma {:induction false} TotalTolSame(g: seq<Gsm>, h: seq<Gsm>, m: nat)
    requires m <= |g| && |g| == |h|
    requires forall i :: 0 <= i < |g| ==> g[i].tolNum == h[i].tolNum
    ensures TotalTol(g, m) == TotalTol(h, m)
  {
    if m > 0 {
      TotalTolSame(g, h, m - 1);
    }
  }

  /** `update_weight` after a `recluster` that covered all n > 0 rows:
      every weight lies in [0, 1] and the weights sum to 1. */
  lemma WeightsAreDistribution(g: seq<Gsm>, n: nat)
    requires 0 < n
    requires forall i :: 0 <= i < |g| ==> 0 <= g[i].tolNum
    requires TotalTol(g, |g|) == n
    ensures WeightSum(ApplyWeights(g, n), |g|) == 1.0
    ensures forall i :: 0 <= i < |g| ==> 0.0 <= ApplyWeights(g, n)[i].weight <= 1.0
  {
    WeightSumIsShare(g, n, |g|);
    forall i | 0 <= i < |g|
      ensures 0.0 <= ApplyWeights(g, n)[i].weight <= 1.0
    {
      TolBelowTotal(g, |g|, i);
      FractionInUnit(g[i].tolNum as real, n as real);
    }
  }

  // ----- the K-means loop -----

  /** Every row has a component closer than `INF` under the means of `g`,
      so `recluster` never reaches `gsm[-1]`. */
  ghost predicate Covered(data: seq<seq<real>>, dim: nat, g: seq<Gsm>)
    requires Rows(data, dim) && Shaped(g, dim)
  {
    forall t :: 0 <= t < |data| ==> FindClosest(data[t], Means(g)) != -1
  }

  /** Row `t` is on the list of some component. */
  ghost predicate Listing(g: seq<Gsm>, t: int) {
    exists i :: 0 <= i < |g| && t in g[i].sample
  }

  /** Every row is on the list of some component. */
  ghost predicate Covers(data: seq<seq<real>>, g: seq<Gsm>) {
    forall t :: 0 <= t < |data| ==> Listing(g, t)
  }

  /** The state a K-means round leaves: every row on a list, the counts
      adding up to the number of rows, every mean its cluster's average. */
  ghost predicate Clusters(data: seq<seq<real>>, dim: nat, g: seq<Gsm>)
    requires Rows(data, dim)
  {
    Shaped(g, dim) && Clustered(data, g) && TotalTol(g, |g|) == |data| && Covers(data, g) &&
    forall j :: 0 <= j < |g| ==> 0 <= g[j].tolNum && g[j].mean == ClusterMean(data, dim, g[j])
  }

  /** `g` after `recluster`: each list rebuilt from the closest-mean
      assignment, means, variances and weights kept. When every row has a
      closest component, every row lands on exactly one list. */
  ghost function Regroup(data: seq<seq<real>>, dim: nat, g: seq<Gsm>): (r: seq<Gsm>)
    requires Rows(data, dim) && Shaped(g, dim)
    ensures |r| == |g| && Shaped(r, dim)
    ensures Partitioned(r, Assign(data, Means(g), dim))
    ensures forall i :: 0 <= i < |g| ==>
      r[i].mean == g[i].mean && r[i].variance == g[i].variance && r[i].weight == g[i].weight
    ensures Covered(data, dim, g) ==>
      Clustered(data, r) && TotalTol(r, |r|) == |data| && Covers(data, r) &&
      forall i :: 0 <= i < |r| ==> 0 <= r[i].tolNum
  {
    var a := Assign(data, Means(g), dim);
    var r := Relist(g, a);
    assert Shaped(r, dim) by {
      forall i | 0 <= i < |r|
        ensures |r[i].mean| == dim && |r[i].variance| == dim
      {
        assert r[i].mean == g[i].mean && r[i].variance == g[i].variance;
      }
    }
    if Covered(data, dim, g) then
      AssignCovered(data, dim, g);
      RegroupCovers(data, r, a);
      r
    else
      r
  }

  /** When every row has a closest component, the assignment names one for each row. */
  lemma AssignCovered(data: seq<seq<real>>, dim: nat, g: seq<Gsm>)
    requires Rows(data, dim) && Shaped(g, dim) && Covered(data, dim, g)
    ensures var a := Assign(data, Means(g), dim);
      |a| == |data| && forall t :: 0 <= t < |a| ==> 0 <= a[t] < |g|
  {
  }

  /** Every list rebuilt from the assignment `a`, all else kept. */
  ghost function Relist(g: seq<Gsm>, a: seq<int>): (r: seq<Gsm>)
    ensures |r| == |g| && Partitioned(r, a)
    ensures forall i :: 0 <= i < |g| ==>
      r[i] == g[i].(sample := r[i].sample, tolNum := r[i].tolNum) &&
      r[i].mean == g[i].mean && r[i].variance == g[i].variance && r[i].weight == g[i].weight
  {
    seq(|g|, i requires 0 <= i < |g| => g[i].(sample := IndicesOf(a, i, |a|), tolNum := |IndicesOf(a, i, |a|)|))
  }

  /** A partition by an assignment that picked a component for every row
      puts every row on a list and lists only rows. */
  lemma RegroupCovers(data: seq<seq<real>>, g: seq<Gsm>, a: seq<int>)
    requires Partitioned(g, a) && |a| == |data|
    requires forall t :: 0 <= t < |a| ==> 0 <= a[t] < |g|
    ensures Clustered(data, g) && TotalTol(g, |g|) == |data| && Covers(data, g)
    ensures forall i :: 0 <= i < |g| ==> 0 <= g[i].tolNum
  {
    PartitionIsClustering(data, g, a);
    PartitionCoversRows(g, a);
    forall t | 0 <= t < |data|
      ensures Listing(g, t)
    {
      assert t in g[a[t]].sample;
    }
  }

  /** One round of `Kmeans` from `g`: `recluster`, then `update_mean`, with
      the change `update_mean` returns; None when some row has no closest
      component. */
  ghost function KmeansStep(data: seq<seq<real>>, dim: nat, g: seq<Gsm>): (r: Option<(seq<Gsm>, real)>)
    requires Rows(data, dim) && Shaped(g, dim)
    ensures r.Some? <==> Covered(data, dim, g)
    ensures r.Some? ==> |r.value.0| == |g| && Clusters(data, dim, r.value.0) && 0.0 <= r.value.1
  {
    if Covered(data, dim, g) then
      var h := Regroup(data, dim, g);
      MeansSettle(data, dim, h);
      MeanChangeNonNegative(data, dim, h, |h|);
      MeansKeepLists(data, dim, h);
      Some((ApplyMeans(data, dim, h), MeanChange(data, dim, h, |h|)))
    else
      None
  }

  /** `update_mean` moves no row between lists. */
  lemma MeansKeepLists(data: seq<seq<real>>, dim: nat, g: seq<Gsm>)
    requires Rows(data, dim) && Clustered(data, g) && Covers(data, g)
    ensures Covers(data, ApplyMeans(data, dim, g))
  {
    var h := ApplyMeans(data, dim, g);
    forall t | 0 <= t < |data|
      ensures Listing(h, t)
    {
      assert Listing(g, t);
      var i :| 0 <= i < |g| && t in g[i].sample;
      assert h[i].sample == g[i].sample;
    }
  }

  /** The components and the change after `k` rounds of `Kmeans` from `g`,
      which starts with change `INF`; None once a round meets a row with no
      closest component. */
  ghost function KmeansRun(data: seq<seq<real>>, dim: nat, g: seq<Gsm>, k: nat): (r: Option<(seq<Gsm>, real)>)
    requires Rows(data, dim) && Shaped(g, dim)
    ensures r.Some? ==> |r.value.0| == |g| && Shaped(r.value.0, dim)
    ensures 0 < k && r.Some? ==> Clusters(data, dim, r.value.0)
  {
    if k == 0 then Some((g, Inf))
    else
      var prev := KmeansRun(data, dim, g, k - 1);
      if prev.None? then None else KmeansStep(data, dim, prev.value.0)
  }

  /** `update_var` and `update_weight` move no row between lists. */
  lemma ListsKept(data: seq<seq<real>>, g: seq<Gsm>, h: seq<Gsm>)
    requires |g| == |h| && Covers(data, g)
    requires forall i :: 0 <= i < |g| ==> h[i].sample == g[i].sample
    ensures Covers(data, h)
  {
    forall t | 0 <= t < |data|
      ensures Listing(h, t)
    {
      assert Listing(g, t);
      var i :| 0 <= i < |g| && t in g[i].sample;
      assert t in h[i].sample;
    }
  }

  /** The change of round `k` of `Kmeans` from `g`, or 0 when the run has
      failed by then. */
  ghost function RunChange(data: seq<seq<real>>, dim: nat, g: seq<Gsm>, k: nat): (c: real)
    requires Rows(data, dim) && Shaped(g, dim)
    ensures Threshold <= c ==> KmeansRun(data, dim, g, k).Some?
  {
    var r := KmeansRun(data, dim, g, k);
    if r.Some? then r.value.1 else 0.0
  }

  /** Rounds 1 .. n - 1 of `Kmeans` from `g` all succeeded and each moved
      the means by at least the threshold: the loop ran on after each. */
  ghost predicate Continued(data: seq<seq<real>>, dim: nat, g: seq<Gsm>, n: nat)
    requires Rows(data, dim) && Shaped(g, dim)
    decreases n
  {
    n <= 1 ||
    (Continued(data, dim, g, n - 1) && var r := KmeansRun(data, dim, g, n - 1); r.Some? && Threshold <= r.value.1)
  }

  /** `Continued` is the `while` guard's test held over the changes of
      rounds 1 .. n - 1. */
  lemma {:induction false} ContinuedHeld(data: seq<seq<real>>, dim: nat, g: seq<Gsm>, n: nat)
    requires Rows(data, dim) && Shaped(g, dim)
    ensures Continued(data, dim, g, n) <==> HeldFrom((k: nat) => RunChange(data, dim, g, k), Threshold, n)
    decreases n
  {
    if 1 < n {
      ContinuedHeld(data, dim, g, n - 1);
    }
  }

  /** `Continued` round by round: every round 1 .. n - 1 succeeded and moved
      the means by at least the threshold. */
  lemma ContinuedRounds(data: seq<seq<real>>, dim: nat, g: seq<Gsm>, n: nat)
    requires Rows(data, dim) && Shaped(g, dim)
    ensures Continued(data, dim, g, n) <==> forall k: nat :: 1 <= k < n ==> Threshold <= RunChange(data, dim, g, k)
  {
    var c := (k: nat) => RunChange(data, dim, g, k);
    ContinuedHeld(data, dim, g, n);
    HeldFromAll(c, Threshold, n);
    if Continued(data, dim, g, n) {
      forall k: nat | 1 <= k < n
        ensures Threshold <= RunChange(data, dim, g, k)
      {
        assert c(k) == RunChange(data, dim, g, k);
      }
    } else {
      var k: nat :| 1 <= k < n && c(k) < Threshold;
      assert RunChange(data, dim, g, k) < Threshold;
    }
  }

  /** After `n` rounds of `Kmeans` from `g`, the loop having gone on after
      rounds 1 .. n - 1: `ok` says whether the run is still alive, and if it
      is, round `n` left components `h` and change `c`. Stated for every
      round index equal to `n`, so that a proof unfolds the run only where it
      names round `n`. */
  ghost predicate RanTo(data: seq<seq<real>>, dim: nat, g: seq<Gsm>, n: nat, ok: bool, h: seq<Gsm>, c: real)
    requires Rows(data, dim) && Shaped(g, dim)
  {
    forall k: nat {:trigger KmeansRun(data, dim, g, k)} :: k == n ==>
      Continued(data, dim, g, k) && (ok <==> KmeansRun(data, dim, g, k).Some?) &&
      (ok ==> KmeansRun(data, dim, g, k) == Some((h, c)))
  }

  /** `RanTo` at round `n`, spelled out. */
  lemma RanToRound(data: seq<seq<real>>, dim: nat, g: seq<Gsm>, n: nat, ok: bool, h: seq<Gsm>, c: real)
    requires Rows(data, dim) && Shaped(g, dim)
    ensures RanTo(data, dim, g, n, ok, h, c) <==>
      Continued(data, dim, g, n) && (ok <==> KmeansRun(data, dim, g, n).Some?) &&
      (ok ==> KmeansRun(data, dim, g, n) == Some((h, c)))
  {
    var r := KmeansRun(data, dim, g, n);
    if Continued(data, dim, g, n) && (ok <==> r.Some?) && (ok ==> r == Some((h, c))) {
      forall k: nat | k == n
        ensures Continued(data, dim, g, k) && (ok <==> KmeansRun(data, dim, g, k).Some?) &&
          (ok ==> KmeansRun(data, dim, g, k) == Some((h, c)))
      {
      }
    }
  }

  /** Before the first round the run is alive, at `g`, with change `INF`. */
  lemma RanToStart(data: seq<seq<real>>, dim: nat, g: seq<Gsm>)
    requires Rows(data, dim) && Shaped(g, dim)
    ensures RanTo(data, dim, g, 0, true, g, Inf)
  {
    RanToRound(data, dim, g, 0, true, g, Inf);
  }

  /** One more round from a live run whose last change was at least the
      threshold (or which has not started) moves `RanTo` on by one round. */
  lemma RanToStep(data: seq<seq<real>>, dim: nat, g: seq<Gsm>, n: nat, h: seq<Gsm>, c: real,
                  ok: bool, h': seq<Gsm>, c': real)
    requires Rows(data, dim) && Shaped(g, dim) && Shaped(h, dim)
    requires RanTo(data, dim, g, n, true, h, c) && (0 < n ==> Threshold <= c)
    requires var r := KmeansStep(data, dim, h); (ok <==> r.Some?) && (ok ==> r == Some((h', c')))
    ensures RanTo(data, dim, g, n + 1, ok, h', c')
  {
    RanToRound(data, dim, g, n, true, h, c);
    assert KmeansRun(data, dim, g, n + 1) == KmeansStep(data, dim, h);
    RanToRound(data, dim, g, n + 1, ok, h', c');
  }
}
