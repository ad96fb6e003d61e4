/** The trainer object `UBM` (ubm.h:23-89): its fields are rewritten in place
    by K-means, K-means++ seeding, EM, MAP adaptation, file reading and score
    normalisation; each method is proved against the specification functions
    of the other modules. */
module Training {
  import opened Sums
  import opened Mixture
  import opened KMeans
  import opened Seeding
  import opened Em
  import opened Adaptation
  import opened Framing
  import opened Persistence
  import opened Scoring

  class Ubm {
    /** Dimension of a feature vector. */
    var dim: nat
    /** Number of Gaussian components. */
    var numGsm: nat
    /** Cohort score mean and deviation for z-normalisation. */
    var normalMean: real
    var normalVar: real
    /** The components. */
    var gsm: seq<Gsm>
    /** Training frames of the background model. */
    var data: seq<seq<real>>
    /** `pr[j][i]`: responsibility of component j for training row i. */
    var pr: seq<seq<real>>
    /** Frames of one speaker, and their responsibilities. */
    var personalData: seq<seq<real>>
    var personalPr: seq<seq<real>>
    /** Soft counts and data means of the MAP adaptation. */
    var n: seq<real>
    var ex: seq<seq<real>>

    /** `UBM()`: 12 dimensions, 100 components, no normalisation yet. */
    constructor ()
      ensures dim == 12 && numGsm == 100 && normalMean == 0.0 && normalVar == 0.0
      ensures gsm == [] && data == [] && pr == []
      ensures personalData == [] && personalPr == [] && n == [] && ex == []
    {
      dim, numGsm := 12, 100;
      normalMean, normalVar := 0.0, 0.0;
      gsm, data, pr := [], [], [];
      personalData, personalPr, n, ex := [], [], [], [];
    }

    /** The frame loop shared by `read_data` and `read_personal_data`. */
    method ReadFrames(tokens: seq<real>) returns (rows: seq<seq<real>>)
      requires Whole(tokens, dim)
      ensures rows == Frames(tokens, dim)
    {
      rows := [];
      var rest := tokens;
      while |rest| > 0
        invariant Whole(rest, dim)
        invariant rows + Frames(rest, dim) == Frames(tokens, dim)
        decreases |rest|
      {
        var group := rest[..dim];
        if group[0] != 0.0 {
          rows := rows + [group];
        }
        rest := rest[dim..];
      }
    }

    /** `read_data`: `data` is cleared even when the file is missing (status 0);
        otherwise it holds the kept frames (status 1). */
    method ReadData(file: Option<seq<real>>) returns (status: int)
      requires file.Some? ==> Whole(file.value, dim)
      modifies this`data
      ensures file.None? ==> status == 0 && data == []
      ensures file.Some? ==> status == 1 && data == Frames(file.value, dim)
    {
      data := [];
      if file.None? {
        return 0;
      }
      data := ReadFrames(file.value);
      status := 1;
    }

    /** `read_personal_data`: status 1 for a missing file, 0 on success. */
    method ReadPersonalData(file: Option<seq<real>>) returns (status: int)
      requires file.Some? ==> Whole(file.value, dim)
      modifies this`personalData
      ensures file.None? ==> status == 1 && personalData == []
      ensures file.Some? ==> status == 0 && personalData == Frames(file.value, dim)
    {
      personalData := [];
      if file.None? {
        return 1;
      }
      personalData := ReadFrames(file.value);
      status := 0;
    }

    /** The first loop of `recluster`: every sample list emptied, every count 0. */
    method ClearSamples()
      requires |gsm| == numGsm
      modifies this`gsm
      ensures |gsm| == |old(gsm)|
      ensures forall j :: 0 <= j < |gsm| ==> gsm[j] == old(gsm[j]).(sample := [], tolNum := 0)
    {
      var i := 0;
      while i < numGsm
        invariant 0 <= i <= numGsm && |gsm| == numGsm
        invariant forall j :: 0 <= j < i ==> gsm[j] == old(gsm[j]).(sample := [], tolNum := 0)
        invariant forall j :: i <= j < numGsm ==> gsm[j] == old(gsm[j])
      {
        gsm := gsm[i := gsm[i].(sample := [], tolNum := 0)];
        i := i + 1;
      }
    }

    /** The second loop of `recluster`: each row index appended to the list of
        the component `find_closest` picks; stops when it picks none. */
    method DistributeRows(means: seq<seq<real>>) returns (ok: bool)
      requires Rows(data, dim) && Rows(means, dim) && |means| == |gsm| == numGsm
      requires forall j :: 0 <= j < |gsm| ==> gsm[j].sample == [] && gsm[j].tolNum == 0
      modifies this`gsm
      ensures |gsm| == |old(gsm)|
      ensures ok <==> -1 !in Assign(data, means, dim)
      ensures ok ==> forall j :: 0 <= j < |gsm| ==>
        var s := IndicesOf(Assign(data, means, dim), j, |data|);
        gsm[j] == old(gsm[j]).(sample := s, tolNum := |s|)
      ensures forall j :: 0 <= j < |gsm| ==>
        gsm[j].mean == old(gsm[j].mean) && gsm[j].variance == old(gsm[j].variance) &&
        gsm[j].weight == old(gsm[j].weight)
    {
      ghost var a := Assign(data, means, dim);
      var t := 0;
      while t < |data|
        invariant 0 <= t <= |data| && |gsm| == numGsm
        invariant forall j :: 0 <= j < numGsm ==>
          gsm[j] == old(gsm[j]).(sample := IndicesOf(a, j, t), tolNum := |IndicesOf(a, j, t)|)
        invariant -1 !in a[..t]
      {
        var c := FindClosest(data[t], means);
        if c == -1 {
          assert a[t] == -1;
          return false;
        }
        assert a[..t + 1] == a[..t] + [c];
        gsm := gsm[c := gsm[c].(sample := gsm[c].sample + [t], tolNum := gsm[c].tolNum + 1)];
        forall j | 0 <= j < numGsm
          ensures gsm[j] == old(gsm[j]).(sample := IndicesOf(a, j, t + 1), tolNum := |IndicesOf(a, j, t + 1)|)
        {
          IndicesStep(a, j, t);
        }
        t := t + 1;
      }
      assert a[..t] == a;
      ok := true;
    }

    /** `recluster`: empty every sample list, then append each row index to the
        list of its closest component. `ok` is false when some row has no
        component closer than `INF` (the source would then index `gsm[-1]`). */
    method Recluster() returns (ok: bool)
      requires Rows(data, dim) && Shaped(gsm, dim) && |gsm| == numGsm
      modifies this`gsm
      ensures |gsm| == |old(gsm)| && Shaped(gsm, dim)
      ensures forall i :: 0 <= i < |gsm| ==>
        gsm[i].mean == old(gsm[i].mean) && gsm[i].variance == old(gsm[i].variance) &&
        gsm[i].weight == old(gsm[i].weight)
      ensures ok <==> forall t :: 0 <= t < |data| ==> FindClosest(data[t], Means(old(gsm))) != -1
      ensures ok ==> Partitioned(gsm, Assign(data, Means(old(gsm)), dim))
    {
      var means := Means(gsm);
      ClearSamples();
      ok := DistributeRows(means);
      ghost var a := Assign(data, means, dim);
      assert (-1 !in a) <==> forall t :: 0 <= t < |data| ==> a[t] != -1;
    }

    /** `new_mean` of `update_mean` for one component: its rows, each divided
        by the count, added up coordinate by coordinate. */
    method NewMean(g: Gsm) returns (m: seq<real>)
      requires Rows(data, dim) && Members(data, g)
      ensures m == ClusterMean(data, dim, g)
    {
      m := seq(dim, _ => 0.0);
      var j := 0;
      while j < g.tolNum
        invariant 0 <= j <= g.tolNum && |m| == dim
        invariant forall k :: 0 <= k < dim ==> m[k] == MeanAcc(data, dim, g.sample, g.tolNum, k, j)
      {
        m := AddRowShare(m, g, j);
        j := j + 1;
      }
    }

    /** The `k` loop of `update_mean` for row `j` of a cluster. */
    method AddRowShare(acc: seq<real>, g: Gsm, j: nat) returns (next: seq<real>)
      requires Rows(data, dim) && Members(data, g) && j < g.tolNum && |acc| == dim
      requires forall k :: 0 <= k < dim ==> acc[k] == MeanAcc(data, dim, g.sample, g.tolNum, k, j)
      ensures |next| == dim
      ensures forall k :: 0 <= k < dim ==> next[k] == MeanAcc(data, dim, g.sample, g.tolNum, k, j + 1)
    {
      var id := g.sample[j];
      next := acc;
      var k := 0;
      while k < dim
        invariant 0 <= k <= dim && |next| == dim
        invariant forall k' :: 0 <= k' < k ==> next[k'] == MeanAcc(data, dim, g.sample, g.tolNum, k', j + 1)
        invariant forall k' :: k <= k' < dim ==> next[k'] == acc[k']
      {
        next := next[k := next[k] + data[id][k] / (g.tolNum as real)];
        k := k + 1;
      }
    }

    /** The `t` loop of `update_mean`: squared distance between two means. */
    method SquaredShift(x: seq<real>, y: seq<real>) returns (t: real)
      requires |x| == dim && |y| == dim
      ensures t == SqDist(x, y, dim)
    {
      t := 0.0;
      var k := 0;
      while k < dim
        invariant 0 <= k <= dim && t == SqDist(x, y, k)
      {
        t := t + (y[k] - x[k]) * (y[k] - x[k]);
        k := k + 1;
      }
    }

    /** `update_mean`: every mean becomes its cluster's average; the result is
        the total squared movement. */
    method UpdateMean() returns (change: real)
      requires Rows(data, dim) && Shaped(gsm, dim) && Clustered(data, gsm) && |gsm| == numGsm
      modifies this`gsm
      ensures gsm == ApplyMeans(data, dim, old(gsm))
      ensures change == MeanChange(data, dim, old(gsm), |gsm|)
    {
      ghost var g0 := gsm;
      change := 0.0;
      var i := 0;
      while i < numGsm
        invariant 0 <= i <= numGsm && |gsm| == numGsm
        invariant forall j :: 0 <= j < i ==> gsm[j] == g0[j].(mean := ClusterMean(data, dim, g0[j]))
        invariant forall j :: i <= j < numGsm ==> gsm[j] == g0[j]
        invariant change == MeanChange(data, dim, g0, i)
      {
        var m := NewMean(gsm[i]);
        var t := SquaredShift(gsm[i].mean, m);
        gsm := gsm[i := gsm[i].(mean := m)];
        change := change + t;
        i := i + 1;
      }
      assert gsm == ApplyMeans(data, dim, g0);
    }

    /** The variance of `update_var` for one component, about its current mean. */
    method NewVar(g: Gsm) returns (v: seq<real>)
      requires Rows(data, dim) && Members(data, g) && |g.mean| == dim
      ensures v == ClusterVar(data, dim, g)
    {
      v := seq(dim, _ => 0.0);
      var j := 0;
      while j < g.tolNum
        invariant 0 <= j <= g.tolNum && |v| == dim
        invariant forall k :: 0 <= k < dim ==> v[k] == VarAcc(data, dim, g.sample, g.tolNum, g.mean[k], k, j)
      {
        v := AddRowSpread(v, g, j);
        j := j + 1;
      }
    }

    /** The `k` loop of `update_var` for row `j` of a cluster. */
    method AddRowSpread(acc: seq<real>, g: Gsm, j: nat) returns (next: seq<real>)
      requires Rows(data, dim) && Members(data, g) && |g.mean| == dim && j < g.tolNum && |acc| == dim
      requires forall k :: 0 <= k < dim ==> acc[k] == VarAcc(data, dim, g.sample, g.tolNum, g.mean[k], k, j)
      ensures |next| == dim
      ensures forall k :: 0 <= k < dim ==> next[k] == VarAcc(data, dim, g.sample, g.tolNum, g.mean[k], k, j + 1)
    {
      var id := g.sample[j];
      next := acc;
      var k := 0;
      while k < dim
        invariant 0 <= k <= dim && |next| == dim
        invariant forall k' :: 0 <= k' < k ==> next[k'] == VarAcc(data, dim, g.sample, g.tolNum, g.mean[k'], k', j + 1)
        invariant forall k' :: k <= k' < dim ==> next[k'] == acc[k']
      {
        var d := data[id][k] - g.mean[k];
        var term := 1.0 / (g.tolNum as real) * d * d;
        assert term == Spread(data[id][k], g.mean[k], g.tolNum);
        next := next[k := next[k] + term];
        k := k + 1;
      }
    }

    /** `update_var`: every variance becomes its cluster's mean squared deviation. */
    method UpdateVar()
      requires Rows(data, dim) && Shaped(gsm, dim) && Clustered(data, gsm) && |gsm| == numGsm
      modifies this`gsm
      ensures gsm == ApplyVars(data, dim, old(gsm))
    {
      ghost var g0 := gsm;
      var i := 0;
      while i < numGsm
        invariant 0 <= i <= numGsm && |gsm| == numGsm
        invariant forall j :: 0 <= j < i ==> gsm[j] == g0[j].(variance := ClusterVar(data, dim, g0[j]))
        invariant forall j :: i <= j < numGsm ==> gsm[j] == g0[j]
      {
        var v := NewVar(gsm[i]);
        gsm := gsm[i := gsm[i].(variance := v)];
        i := i + 1;
      }
      assert gsm == ApplyVars(data, dim, g0);
    }

    /** `update_weight`: every weight becomes the cluster's share of the rows. */
    method UpdateWeight()
      requires 0 < |data| && |gsm| == numGsm
      modifies this`gsm
      ensures gsm == ApplyWeights(old(gsm), |data|)
    {
      ghost var g0 := gsm;
      var i := 0;
      while i < numGsm
        invariant 0 <= i <= numGsm && |gsm| == numGsm
        invariant forall j :: 0 <= j < i ==> gsm[j] == g0[j].(weight := g0[j].tolNum as real / |data| as real)
        invariant forall j :: i <= j < numGsm ==> gsm[j] == g0[j]
      {
        gsm := gsm[i := gsm[i].(weight := 1.0 * (gsm[i].tolNum as real) / (|data| as real))];
        i := i + 1;
      }
      assert gsm == ApplyWeights(g0, |data|);
    }

    /** The state a K-means round leaves, on the fields of the object. */
    ghost predicate Settled()
      reads this
    {
      Rows(data, dim) && |gsm| == numGsm && Clusters(data, dim, gsm)
    }

    /** One iteration of the `Kmeans` loop: `recluster`, then `update_mean`.
        `ok` is false exactly when some row has no closest component. */
    method KmeansRound() returns (ok: bool, change: real)
      requires Rows(data, dim) && Shaped(gsm, dim) && |gsm| == numGsm
      modifies this`gsm
      ensures |gsm| == numGsm && Shaped(gsm, dim)
      ensures ok <==> Covered(data, dim, old(gsm))
      ensures var r := KmeansStep(data, dim, old(gsm));
        ok ==> gsm == r.value.0 && change == r.value.1
      ensures ok ==> Settled()
    {
      ghost var before := gsm;
      ok := Recluster();
      if !ok {
        return ok, Inf;
      }
      ghost var h := Regroup(data, dim, before);
      forall i | 0 <= i < |gsm|
        ensures gsm[i] == h[i]
      {
        assert gsm[i].sample == h[i].sample;
      }
      assert gsm == h;
      change := UpdateMean();
    }

    /** The tail of `Kmeans`: `update_var`, then `update_weight`. */
    method FinishClusters()
      requires Settled() && 0 < |data|
      modifies this`gsm
      ensures gsm == ApplyWeights(ApplyVars(data, dim, old(gsm)), |data|)
      ensures Settled()
      ensures forall i :: 0 <= i < |gsm| ==> gsm[i].variance == ClusterVar(data, dim, gsm[i])
      ensures WeightSum(gsm, |gsm|) == 1.0 && forall i :: 0 <= i < |gsm| ==> 0.0 <= gsm[i].weight <= 1.0
    {
      ghost var moved := gsm;
      UpdateVar();
      ghost var spread := gsm;
      TotalTolSame(spread, moved, |gsm|);
      UpdateWeight();
      WeightsAreDistribution(spread, |data|);
      TotalTolSame(gsm, spread, |gsm|);
      ListsKept(data, moved, gsm);
    }

    /** The state after `n` K-means rounds from `g0`: rounds 1 .. n - 1 moved
        the means by at least the threshold, `ok` says whether the run is
        still alive, and if it is, the components are round `n`'s. */
    ghost predicate Ran(g0: seq<Gsm>, n: nat, ok: bool, change: real)
      reads this
    {
      Rows(data, dim) && Shaped(g0, dim) && |gsm| == numGsm && Shaped(gsm, dim) &&
      RanTo(data, dim, g0, n, ok, gsm, change)
    }

    /** One pass of the `Kmeans` loop, with the rounds so far carried along. */
    method KmeansPass(ghost g0: seq<Gsm>, n: nat, change: real) returns (ok: bool, change': real)
      requires Ran(g0, n, true, change) && (0 < n ==> Threshold <= change)
      modifies this`gsm
      ensures Ran(g0, n + 1, ok, change')
    {
      ghost var before := gsm;
      ok, change' := KmeansRound();
      RanToStep(data, dim, g0, n, before, change, ok, gsm, change');
    }

    /** `Kmeans`: rounds of `recluster` and `update_mean` while fewer than 1000
        have run and the last one moved the means by at least the threshold;
        then `update_var` and `update_weight` once. `rounds` is the number of
        rounds run: every round before the last moved the means by at least
        the threshold, and the final state is the last round's, with cluster
        variances and `tol_num / N` weights. `ok` is false when a round met a
        row with no closest component, where the source indexes `gsm[-1]`. */
    method Kmeans() returns (ok: bool, rounds: nat, change: real)
      requires Rows(data, dim) && 0 < |data| && Shaped(gsm, dim) && |gsm| == numGsm
      modifies this`gsm
      ensures |gsm| == numGsm && Shaped(gsm, dim)
      ensures 1 <= rounds <= MaxIter
      ensures ok <==> KmeansRun(data, dim, old(gsm), rounds).Some?
      ensures Continued(data, dim, old(gsm), rounds)
      ensures ok ==> rounds == MaxIter || change < Threshold
      ensures ok ==> var r := KmeansRun(data, dim, old(gsm), rounds).value;
        change == r.1 && gsm == ApplyWeights(ApplyVars(data, dim, r.0), |data|)
      ensures ok ==> Covers(data, gsm) && Clustered(data, gsm) && TotalTol(gsm, |gsm|) == |data|
      ensures ok ==> forall i :: 0 <= i < |gsm| ==>
        gsm[i].mean == ClusterMean(data, dim, gsm[i]) && gsm[i].variance == ClusterVar(data, dim, gsm[i])
      ensures ok ==> WeightSum(gsm, |gsm|) == 1.0 && forall i :: 0 <= i < |gsm| ==> 0.0 <= gsm[i].weight <= 1.0
    {
      ghost var g0 := gsm;
      ok, rounds, change := KmeansLoop();
      RanToRound(data, dim, g0, rounds, ok, gsm, change);
      if ok {
        FinishClusters();
      }
    }

    /** The loop of `Kmeans`, up to its first failing round. */
    method KmeansLoop() returns (ok: bool, rounds: nat, change: real)
      requires Rows(data, dim) && Shaped(gsm, dim) && |gsm| == numGsm
      modifies this`gsm
      ensures 1 <= rounds <= MaxIter && Ran(old(gsm), rounds, ok, change)
      ensures ok ==> rounds == MaxIter || change < Threshold
    {
      ghost var g0 := gsm;
      rounds := 0;
      change := Inf;
      ok := true;
      RanToStart(data, dim, g0);
      while ok && rounds < MaxIter && change >= Threshold
        invariant rounds <= MaxIter && (rounds == 0 ==> ok && change == Inf)
        invariant Ran(g0, rounds, ok, change)
      {
        ok, change := KmeansPass(g0, rounds, change);
        rounds := rounds + 1;
      }
    }

    /** `distance_p(i, j)`: the root of the squared distance between two rows. */
    method DistanceP(root: Root, i: nat, j: nat) returns (r: real)
      requires Rows(data, dim) && i < |data| && j < |data|
      ensures r == DistP(data, dim, root, i, j)
    {
      var t := SquaredShift(data[i], data[j]);
      r := root(t);
    }

    /** The `dist` loop of `Init`: each row's distance to the first centre,
        and their running total `sum0`. */
    method FirstDistances(root: Root, index: nat) returns (dist: seq<real>, sum0: real)
      requires Rows(data, dim) && index < |data|
      ensures dist == FirstDist(data, dim, root, index) && sum0 == Sum(dist)
    {
      dist := seq(|data|, _ => 0.0);
      sum0 := 0.0;
      var i := 0;
      while i < |dist|
        invariant 0 <= i <= |dist| == |data|
        invariant dist[..i] == FirstDist(data, dim, root, index)[..i]
        invariant sum0 == Sum(dist[..i])
      {
        var d := DistanceP(root, i, index);
        dist := dist[i := d];
        SumPrefixStep(dist, i);
        assert dist[..i + 1][..i] == dist[..i];
        sum0 := sum0 + dist[i];
        i := i + 1;
      }
      assert dist[..i] == dist;
    }

    /** The threshold scan of one trial: the index where the running
        subtraction of `dist` first brings `thres` to zero or below. */
    method Scan(dist: seq<real>, thres: real) returns (i: nat)
      ensures i == Pick(dist, thres, 0)
    {
      var t := thres;
      i := 0;
      while i < |dist|
        invariant 0 <= i <= |dist|
        invariant Pick(dist, t, i) == Pick(dist, thres, 0)
        decreases |dist| - i
      {
        t := t - dist[i];
        if t <= 0.0 {
          return;
        }
        i := i + 1;
      }
    }

    /** The `dist2_c` loop of one trial, writing over the buffer `trial`: the
        pointwise minimum of `dist` and the distances to candidate `id`, and
        its sum `s`. */
    method FillTrial(root: Root, dist: seq<real>, trial: seq<real>, id: nat) returns (out: seq<real>, s: real)
      requires Rows(data, dim) && id < |data| && |dist| == |data| && |trial| == |data|
      ensures out == Trial(data, dim, root, dist, id) && s == Sum(out)
    {
      out := trial;
      s := 0.0;
      var i := 0;
      while i < |out|
        invariant 0 <= i <= |out| == |data|
        invariant out[..i] == Trial(data, dim, root, dist, id)[..i]
        invariant s == Sum(out[..i])
      {
        var d := DistanceP(root, i, id);
        out := out[i := Min(d, dist[i])];
        SumPrefixStep(out, i);
        assert out[..i + 1][..i] == out[..i];
        s := s + out[i];
        i := i + 1;
      }
      assert out[..i] == out;
    }

    /** One trial: threshold `raw % (int)sum0`, the scan, the trial array
        written over `trial`, and its sum. */
    method RunTrial(root: Root, raw: nat, sum0: real, dist: seq<real>, trial: seq<real>) returns (id: nat, out: seq<real>, s: real)
      requires Drawable(data, dim, dist) && sum0 == Sum(dist) && |trial| == |data|
      ensures Candidate(id, s) == Draw(data, dim, root, dist, raw) && out == Trial(data, dim, root, dist, id)
    {
      var thres := (raw % sum0.Floor) as real;
      id := Scan(dist, thres);
      PickFirstReaching(dist, thres);
      out, s := FillTrial(root, dist, trial, id);
    }

    /** The three trials of one seeding round: each draws a threshold below
        `(int)sum0`, scans for a candidate and fills `dist2_c`; a trial with a
        smaller sum than the best so far becomes the best, and `dist2_c` and
        `dist2` trade places. */
    method BestTrial(root: Root, raws: seq<nat>, sum0: real, dist: seq<real>, dist2: seq<real>, dist2c: seq<real>)
      returns (id: nat, maxSum: real, best: seq<real>, spare: seq<real>)
      requires Drawable(data, dim, dist) && sum0 == Sum(dist) && 0 < |raws|
      requires |dist2| == |data| && |dist2c| == |data|
      ensures var c := Round(data, dim, root, dist, raws);
        id == c.id && maxSum == c.sum && best == Trial(data, dim, root, dist, id)
      ensures |spare| == |data|
    {
      ghost var cs := Draws(data, dim, root, dist, raws);
      best, spare := dist2, dist2c;
      id, maxSum := 0, 0.0;
      var j := 0;
      while j < |raws|
        invariant 0 <= j <= |raws|
        invariant |best| == |data| && |spare| == |data|
        invariant 0 < j ==> id < |data| && Candidate(id, maxSum) == Kept(cs, j) && best == Trial(data, dim, root, dist, id)
      {
        var i, s;
        i, spare, s := RunTrial(root, raws[j], sum0, dist, spare);
        assert cs[j] == Candidate(i, s);
        KeptStep(cs, j);
        if j == 0 || s < maxSum {
          id, maxSum := i, s;
          best, spare := spare, best;
        }
        j := j + 1;
      }
    }

    /** `Init`: K-means++ seeding. The component list is resized to `numGsm`
        with every mean and variance of `dim` coordinates; the first mean is
        row `first % N`, and each later mean is the row the best of that
        round's trials picks. `raws[k - 1]` holds the raw random numbers of
        round k. `ok` is false when some round finds `(int)sum0` below 1,
        where the source's `rand() % (int)sum0` divides by zero. */
    method Init(root: Root, first: nat, raws: seq<seq<nat>>) returns (ok: bool)
      requires Rows(data, dim) && 0 < |data| && 1 <= numGsm
      requires |raws| == numGsm - 1 && forall k :: 0 <= k < |raws| ==> |raws[k]| == Trials
      modifies this`gsm
      ensures |gsm| == numGsm && Shaped(gsm, dim)
      ensures forall i :: 0 <= i < numGsm ==> gsm[i] == Prepared(old(gsm), numGsm, dim)[i].(mean := gsm[i].mean)
      ensures gsm[0].mean == data[first % |data|]
      ensures var seeds := Centres(data, dim, root, FirstDist(data, dim, root, first % |data|), raws, 0);
        (ok <==> seeds.Some?) &&
        (ok ==> forall k :: 1 <= k < numGsm ==> seeds.value[k - 1] < |data| && gsm[k].mean == data[seeds.value[k - 1]])
    {
      Reshape();
      var index := first % |data|;
      gsm := gsm[0 := gsm[0].(mean := data[index])];
      var dist, sum0 := FirstDistances(root, index);
      ok := SeedRest(root, raws, sum0, dist);
    }

    /** One seeding round of the k-means++ loop: the chosen row, the distances it leaves, and their sum. */
    method SeedNext(root: Root, raws: seq<seq<nat>>, from: nat, sum: real, dist: seq<real>, dist2: seq<real>,
                    dist2c: seq<real>, ghost seeds: Option<seq<nat>>, ghost ids: seq<nat>)
      returns (id: nat, sum': real, best: seq<real>, spare: seq<real>)
      requires Drawable(data, dim, dist) && sum == Sum(dist) && Rounds(raws) && from < |raws|
      requires |dist2| == |data| && |dist2c| == |data|
      requires Continues(seeds, ids, Centres(data, dim, root, dist, raws, from))
      ensures id < |data| && |best| == |data| && |spare| == |data| && sum' == Sum(best)
      ensures Continues(seeds, ids + [id], Centres(data, dim, root, best, raws, from + 1))
    {
      id, sum', best, spare := BestTrial(root, raws[from], sum, dist, dist2, dist2c);
      SeedsExtend(data, dim, root, dist, raws, from, seeds, ids);
    }

    /** The rounds of `Init` after the first centre, round k placing mean k;
        only means change. */
    method SeedRest(root: Root, raws: seq<seq<nat>>, sum0: real, dist0: seq<real>) returns (ok: bool)
      requires Rows(data, dim) && Shaped(gsm, dim) && |raws| + 1 == |gsm| && Rounds(raws)
      requires |dist0| == |data| && sum0 == Sum(dist0)
      modifies this`gsm
      ensures |gsm| == |old(gsm)| && Shaped(gsm, dim)
      ensures forall i :: 0 <= i < |gsm| ==> gsm[i] == old(gsm[i]).(mean := gsm[i].mean)
      ensures gsm[0] == old(gsm[0])
      ensures var seeds := Centres(data, dim, root, dist0, raws, 0);
        (ok <==> seeds.Some?) &&
        (ok ==> forall k :: 0 <= k < |raws| ==> seeds.value[k] < |data|) &&
        (ok ==> forall k :: 1 <= k < |gsm| ==> gsm[k].mean == data[seeds.value[k - 1]])
    {
      var ids;
      ok, ids := ChooseSeeds(root, raws, sum0, dist0);
      PlaceSeeds(ids);
    }

    /** The rows picked as centres 1, 2, ... by the k-means++ rounds, up to the round that gives up. */
    method ChooseSeeds(root: Root, raws: seq<seq<nat>>, sum0: real, dist0: seq<real>) returns (ok: bool, ids: seq<nat>)
      requires Rows(data, dim) && Rounds(raws)
      requires |dist0| == |data| && sum0 == Sum(dist0)
      ensures |ids| <= |raws| && forall j :: 0 <= j < |ids| ==> ids[j] < |data|
      ensures var seeds := Centres(data, dim, root, dist0, raws, 0);
        (ok <==> seeds.Some?) && (ok ==> seeds.value == ids)
    {
      ghost var seeds := Centres(data, dim, root, dist0, raws, 0);
      ids := [];
      ContinuesStart(seeds);
      var dist, sum := dist0, sum0;
      var dist2, dist2c := seq(|data|, _ => 0.0), seq(|data|, _ => 0.0);
      while |ids| < |raws|
        invariant |ids| <= |raws| && forall j :: 0 <= j < |ids| ==> ids[j] < |data|
        invariant |dist| == |data| && |dist2| == |data| && |dist2c| == |data|
        invariant sum == Sum(dist)
        invariant Continues(seeds, ids, Centres(data, dim, root, dist, raws, |ids|))
        decreases |raws| - |ids|
      {
        if sum.Floor < 1 {
          CentresStop(data, dim, root, dist, raws, |ids|);
          return false, ids;
        }
        var id, best;
        id, sum, best, dist2c := SeedNext(root, raws, |ids|, sum, dist, dist2, dist2c, seeds, ids);
        dist, dist2 := best, dist;
        ids := ids + [id];
      }
      assert Centres(data, dim, root, dist, raws, |ids|) == Some([]);
      ok := true;
    }

    /** Centre k + 1 is moved onto row `ids[k]`; nothing else changes. */
    method PlaceSeeds(ids: seq<nat>)
      requires Rows(data, dim) && Shaped(gsm, dim) && |ids| < |gsm|
      requires forall j :: 0 <= j < |ids| ==> ids[j] < |data|
      modifies this`gsm
      ensures |gsm| == |old(gsm)| && Shaped(gsm, dim)
      ensures forall i :: 0 <= i < |gsm| ==> gsm[i] == old(gsm[i]).(mean := gsm[i].mean)
      ensures forall i :: 0 <= i < |gsm| ==> gsm[i].mean == if 1 <= i <= |ids| then data[ids[i - 1]] else old(gsm[i].mean)
    {
      var k := 0;
      while k < |ids|
        invariant 0 <= k <= |ids| && |gsm| == |old(gsm)| && Shaped(gsm, dim)
        invariant forall i :: 0 <= i < |gsm| ==> gsm[i] == old(gsm[i]).(mean := gsm[i].mean)
        invariant forall i :: 0 <= i < |gsm| ==> gsm[i].mean == if 1 <= i <= k then data[ids[i - 1]] else old(gsm[i].mean)
      {
        gsm := gsm[k + 1 := gsm[k + 1].(mean := data[ids[k]])];
        k := k + 1;
      }
    }

    /** The resizing that opens `Init`. */
    method Reshape()
      modifies this`gsm
      ensures gsm == Prepared(old(gsm), numGsm, dim)
    {
      ghost var target := Prepared(gsm, numGsm, dim);
      gsm := Resize(gsm, numGsm, Blank);
      var i := 0;
      while i < numGsm
        invariant 0 <= i <= numGsm && |gsm| == numGsm
        invariant forall j :: 0 <= j < i ==> gsm[j] == target[j]
        invariant forall j :: i <= j < numGsm ==> gsm[j] == Resize(old(gsm), numGsm, Blank)[j]
      {
        gsm := gsm[i := gsm[i].(mean := Resize(gsm[i].mean, dim, 0.0), variance := Resize(gsm[i].variance, dim, 0.0))];
        i := i + 1;
      }
    }
    // ----- EM -----

    /** One column of the E-step (one row `rows[i]`): `pr[j][i]` first takes
        the joint density of component j while `denominator` accumulates, then
        every entry of the column is divided by it. Other columns stay. */
    method FillColumn(gauss: Density, rows: seq<seq<real>>, p: seq<seq<real>>, i: nat) returns (q: seq<seq<real>>)
      requires Weighted(gsm) && Matrix(p, |gsm|, |rows|) && i < |rows|
      ensures Matrix(q, |gsm|, |rows|)
      ensures forall j :: 0 <= j < |gsm| ==> q[j][i] == Posterior(gauss, rows[i], gsm, j)
      ensures forall j, c :: 0 <= j < |gsm| && 0 <= c < |rows| && c != i ==> q[j][c] == p[j][c]
    {
      q := p;
      var denominator := 0.0;
      var j := 0;
      while j < |gsm|
        invariant 0 <= j <= |gsm| && Matrix(q, |gsm|, |rows|)
        invariant forall k :: 0 <= k < j ==> q[k][i] == Joint(gauss, rows[i], gsm[k])
        invariant forall k, c :: 0 <= k < |gsm| && 0 <= c < |rows| && c != i ==> q[k][c] == p[k][c]
        invariant denominator == Denominator(gauss, rows[i], gsm, j)
      {
        q := q[j := q[j][i := CalGsm(gauss, rows[i], gsm[j].mean, gsm[j].variance) * gsm[j].weight]];
        denominator := denominator + q[j][i];
        j := j + 1;
      }
      DenominatorPositive(gauss, rows[i], gsm);
      j := 0;
      while j < |gsm|
        invariant 0 <= j <= |gsm| && Matrix(q, |gsm|, |rows|)
        invariant forall k :: 0 <= k < j ==> q[k][i] == Posterior(gauss, rows[i], gsm, k)
        invariant forall k :: j <= k < |gsm| ==> q[k][i] == Joint(gauss, rows[i], gsm[k])
        invariant forall k, c :: 0 <= k < |gsm| && 0 <= c < |rows| && c != i ==> q[k][c] == p[k][c]
      {
        q := q[j := q[j][i := q[j][i] / denominator]];
        j := j + 1;
      }
    }

    /** The E-step loop over rows, writing over the buffer `p`: the result is
        the responsibility matrix of the current components. */
    method Normalise(gauss: Density, rows: seq<seq<real>>, p: seq<seq<real>>) returns (q: seq<seq<real>>)
      requires Weighted(gsm) && Matrix(p, |gsm|, |rows|)
      ensures q == Responsibilities(gauss, rows, gsm)
    {
      q := p;
      var i := 0;
      while i < |rows|
        invariant 0 <= i <= |rows| && Matrix(q, |gsm|, |rows|)
        invariant forall j, c :: 0 <= j < |gsm| && 0 <= c < i ==> q[j][c] == Posterior(gauss, rows[c], gsm, j)
      {
        q := FillColumn(gauss, rows, q, i);
        i := i + 1;
      }
      ghost var r := Responsibilities(gauss, rows, gsm);
      forall j | 0 <= j < |gsm|
        ensures q[j] == r[j]
      {
      }
    }

    /** `E_step`: `pr` becomes the responsibilities of the training rows. */
    method EStep(gauss: Density)
      requires Weighted(gsm) && Matrix(pr, |gsm|, |data|)
      modifies this`pr
      ensures pr == Responsibilities(gauss, data, gsm)
    {
      pr := Normalise(gauss, data, pr);
    }

    /** `sum1`: the mass of one responsibility row. */
    method MassOf(p: seq<real>) returns (s: real)
      ensures s == Mass(p, |p|)
    {
      s := 0.0;
      var k := 0;
      while k < |p|
        invariant 0 <= k <= |p| && s == Mass(p, k)
      {
        s := s + p[k];
        k := k + 1;
      }
    }

    /** `sum2` (and `Ex[i][j]` before the division): coordinate `j` of the
        rows weighted by the responsibility row `p`. */
    method WeightedSumOf(rows: seq<seq<real>>, p: seq<real>, j: nat) returns (s: real)
      requires Rows(rows, dim) && j < dim && |p| == |rows|
      ensures s == WeightedSum(rows, dim, p, j, |rows|)
    {
      s := 0.0;
      var k := 0;
      while k < |rows|
        invariant 0 <= k <= |rows| && s == WeightedSum(rows, dim, p, j, k)
      {
        s := s + rows[k][j] * p[k];
        k := k + 1;
      }
    }

    /** `sum3`: the weighted squared deviations of coordinate `j` from `m`. */
    method WeightedDevOf(p: seq<real>, j: nat, m: real) returns (s: real)
      requires Rows(data, dim) && j < dim && |p| == |data|
      ensures s == WeightedDev(data, dim, p, j, m, |data|)
    {
      s := 0.0;
      var k := 0;
      while k < |data|
        invariant 0 <= k <= |data| && s == WeightedDev(data, dim, p, j, m, k)
      {
        s := s + p[k] * (data[k][j] - m) * (data[k][j] - m);
        k := k + 1;
      }
    }

    /** The new mean and variance of one coordinate `j`: `sum2 / sum1` and
        `sum3 / sum1`, the deviations taken from the new mean. */
    method NewCoordinate(p: seq<real>, sum1: real, j: nat) returns (m: real, v: real)
      requires Rows(data, dim) && Massive(data, p) && sum1 == Mass(p, |p|) && j < dim
      ensures m == WeightedMean(data, dim, p)[j] && v == WeightedVar(data, dim, p)[j]
    {
      var sum2 := WeightedSumOf(data, p, j);
      m := sum2 / sum1;
      var sum3 := WeightedDevOf(p, j, m);
      v := sum3 / sum1;
    }

    /** The coordinate loop of one `M_step` pass, writing over `mean` and
        `variance`: the new mean and variance of the component, and the summed
        absolute changes of each. */
    method NewMoments(p: seq<real>, sum1: real, mean0: seq<real>, variance0: seq<real>)
      returns (mean: seq<real>, variance: seq<real>, dm: real, dv: real)
      requires Rows(data, dim) && Massive(data, p) && sum1 == Mass(p, |p|)
      requires |mean0| == dim && |variance0| == dim
      ensures mean == WeightedMean(data, dim, p) && variance == WeightedVar(data, dim, p)
      ensures dm == AbsDist(mean0, mean, dim) && dv == AbsDist(variance0, variance, dim)
    {
      ghost var targetMean, targetVar := WeightedMean(data, dim, p), WeightedVar(data, dim, p);
      mean, variance := mean0, variance0;
      dm, dv := 0.0, 0.0;
      var j := 0;
      while j < dim
        invariant 0 <= j <= dim && |mean| == dim && |variance| == dim
        invariant forall k :: 0 <= k < j ==> mean[k] == targetMean[k] && variance[k] == targetVar[k]
        invariant forall k :: j <= k < dim ==> mean[k] == mean0[k] && variance[k] == variance0[k]
        invariant dm == AbsDist(mean0, targetMean, j) && dv == AbsDist(variance0, targetVar, j)
      {
        var m, v := NewCoordinate(p, sum1, j);
        dm := dm + Abs(m - mean[j]);
        mean := mean[j := m];
        dv := dv + Abs(v - variance[j]);
        variance := variance[j := v];
        j := j + 1;
      }
      assert mean == targetMean && variance == targetVar;
    }

    /** One pass of the `M_step` loop: component `i` gets its new mean,
        variance and weight, and the absolute changes are returned. */
    method ReestimateOne(i: nat) returns (dw: real, dm: real, dv: real)
      requires Rows(data, dim) && Shaped(gsm, dim) && i < |gsm| && i < |pr| && Massive(data, pr[i])
      modifies this`gsm
      ensures gsm == old(gsm)[i := Reestimate(data, dim, pr[i], old(gsm)[i])]
      ensures dw == Abs(gsm[i].weight - old(gsm)[i].weight)
      ensures dm == AbsDist(old(gsm)[i].mean, WeightedMean(data, dim, pr[i]), dim)
      ensures dv == AbsDist(old(gsm)[i].variance, WeightedVar(data, dim, pr[i]), dim)
    {
      var g := gsm[i];
      var sum1 := MassOf(pr[i]);
      var mean, variance;
      mean, variance, dm, dv := NewMoments(pr[i], sum1, g.mean, g.variance);
      var w := sum1 / (|data| as real);
      dw := Abs(w - g.weight);
      gsm := gsm[i := g.(mean := mean, variance := variance, weight := w)];
    }

    /** The running totals of `M_step` after its first `i` components. */
    ghost predicate Reestimated(g0: seq<Gsm>, i: nat, changeWeight: real, changeMean: real, changeVar: real)
      reads this
    {
      Rows(data, dim) && Shaped(g0, dim) && |pr| == |g0| && Estimable(data, pr) &&
      i <= |g0| == |gsm| && Shaped(gsm, dim) &&
      (forall k :: 0 <= k < i ==> gsm[k] == Reestimate(data, dim, pr[k], g0[k])) &&
      (forall k :: i <= k < |gsm| ==> gsm[k] == g0[k]) &&
      changeWeight == WeightShift(data, dim, pr, g0, i) &&
      changeMean == MeanShift(data, dim, pr, g0, i) &&
      changeVar == VarShift(data, dim, pr, g0, i)
    }

    /** One pass of the `M_step` loop with the change totals carried along. */
    method MStepPass(ghost g0: seq<Gsm>, i: nat, changeWeight: real, changeMean: real, changeVar: real)
      returns (nextWeight: real, nextMean: real, nextVar: real)
      requires Reestimated(g0, i, changeWeight, changeMean, changeVar) && i < |gsm|
      modifies this`gsm
      ensures Reestimated(g0, i + 1, nextWeight, nextMean, nextVar)
    {
      var dw, dm, dv := ReestimateOne(i);
      nextWeight, nextMean, nextVar := changeWeight + dw, changeMean + dm, changeVar + dv;
    }

    /** `M_step`: every component re-estimated from its responsibility row;
        the result is the total absolute change of weights, means and
        variances. */
    method MStep() returns (change: real)
      requires Rows(data, dim) && Shaped(gsm, dim) && |pr| == |gsm| && Estimable(data, pr)
      modifies this`gsm
      ensures gsm == MUpdate(data, dim, pr, old(gsm))
      ensures change == MChange(data, dim, pr, old(gsm))
    {
      ghost var g0 := gsm;
      var changeWeight, changeMean, changeVar := 0.0, 0.0, 0.0;
      var i := 0;
      while i < |gsm|
        invariant Reestimated(g0, i, changeWeight, changeMean, changeVar) && pr == old(pr)
      {
        changeWeight, changeMean, changeVar := MStepPass(g0, i, changeWeight, changeMean, changeVar);
        i := i + 1;
      }
      assert gsm == MUpdate(data, dim, pr, g0);
      change := changeWeight + changeMean + changeVar;
    }

    /** What EM needs before every round: training rows, a shaped model with
        positive weights, and a `pr` buffer of one row per component. */
    ghost predicate EmReady()
      reads this
    {
      Rows(data, dim) && 0 < |data| && |gsm| == numGsm && 0 < numGsm && Shaped(gsm, dim) &&
      Matrix(pr, |gsm|, |data|) && forall j :: 0 <= j < |gsm| ==> 0.0 < gsm[j].weight
    }

    /** The state after a round that started from `prior`. */
    ghost predicate AfterRound(gauss: Density, prior: seq<Gsm>, change: real)
      reads this
    {
      Rows(data, dim) && Weighted(prior) && |prior| == |gsm| && Shaped(prior, dim) &&
      pr == Responsibilities(gauss, data, prior) && Estimable(data, pr) &&
      gsm == MUpdate(data, dim, pr, prior) && change == MChange(data, dim, pr, prior) &&
      WeightSum(gsm, |gsm|) == 1.0
    }

    /** One EM round: `E_step` then `M_step`, from the model it starts with. */
    method EmRound(gauss: Density) returns (change: real, ghost prior: seq<Gsm>)
      requires EmReady()
      modifies this`pr, this`gsm
      ensures prior == old(gsm)
      ensures EmReady() && AfterRound(gauss, prior, change)
      ensures (gsm, change) == EmStep(gauss, data, dim, prior)
    {
      PositiveWeightsGiveMass(gauss, data, gsm);
      ResponsibilitiesSumToOne(gauss, data, gsm);
      prior := gsm;
      EStep(gauss);
      change := MStep();
      MStepWeightsSumToOne(data, dim, pr, prior);
    }

    /** The state after `n` EM rounds from `g0`, the last of them started
        from `prior` and changed the model by `change`. */
    ghost predicate EmRan(gauss: Density, g0: seq<Gsm>, n: nat, change: real, prior: seq<Gsm>)
      reads this
    {
      EmReady() && Trainable(data, dim, g0) && EmRanTo(gauss, data, dim, g0, n, gsm, change, prior, pr)
    }

    /** One pass of the `EM` loop, with the rounds so far carried along. */
    method EmPass(gauss: Density, ghost g0: seq<Gsm>, n: nat, change: real, ghost prior: seq<Gsm>)
      returns (change': real, ghost prior': seq<Gsm>)
      requires EmRan(gauss, g0, n, change, prior) && (0 < n ==> ThresholdEm <= change)
      modifies this`pr, this`gsm
      ensures EmRan(gauss, g0, n + 1, change', prior')
    {
      ghost var p := pr;
      change', prior' := EmRound(gauss);
      EmRanToStep(gauss, data, dim, g0, n, prior', change, prior, p, gsm, change', pr);
    }

    /** `EM`: `pr` gets `num_GSM` zero rows, then E- and M-steps alternate
        while fewer than 4000 rounds have run and the last one changed the
        model by at least `threshold_EM`. `rounds` is the number of rounds
        run; the model is the one those rounds produce from the initial one,
        every round before the last changed it by at least the threshold,
        and the last changed it by less unless the cap was reached. The
        result is one M-step away from the responsibilities of the model
        `prior` that the last round started from, and the weights are
        positive and sum to 1. */
    method EM(gauss: Density) returns (rounds: nat, change: real, ghost prior: seq<Gsm>)
      requires pr == [] && Rows(data, dim) && 0 < |data|
      requires Shaped(gsm, dim) && |gsm| == numGsm && 0 < numGsm && Positive(gsm)
      modifies this`pr, this`gsm
      ensures 1 <= rounds <= MaxRounds
      ensures (gsm, change) == EmRun(gauss, data, dim, old(gsm), rounds)
      ensures EmContinued(gauss, data, dim, old(gsm), rounds)
      ensures rounds < MaxRounds ==> change < ThresholdEm
      ensures prior == EmRun(gauss, data, dim, old(gsm), rounds - 1).0
      ensures |gsm| == numGsm && Shaped(gsm, dim) && WeightSum(gsm, |gsm|) == 1.0 && Positive(gsm)
      ensures Weighted(prior) && |prior| == |gsm| && Shaped(prior, dim)
      ensures pr == Responsibilities(gauss, data, prior) && Estimable(data, pr)
      ensures gsm == MUpdate(data, dim, pr, prior) && change == MChange(data, dim, pr, prior)
    {
      ghost var g0 := gsm;
      var t := seq(|data|, _ => 0.0);
      var i := 0;
      while i < numGsm
        invariant 0 <= i <= numGsm && Matrix(pr, i, |data|) && gsm == old(gsm)
      {
        pr := pr + [t];
        i := i + 1;
      }
      rounds, change, prior := EmLoop(gauss);
      EmRanToRound(gauss, data, dim, g0, rounds, gsm, change, prior, pr);
      assert (gsm, change) == EmStep(gauss, data, dim, prior);
      PositiveWeightsGiveMass(gauss, data, prior);
    }

    /** The loop of `EM`, once `pr` has its rows. */
    method EmLoop(gauss: Density) returns (rounds: nat, change: real, ghost prior: seq<Gsm>)
      requires EmReady()
      modifies this`pr, this`gsm
      ensures 1 <= rounds <= MaxRounds && (rounds < MaxRounds ==> change < ThresholdEm)
      ensures EmRan(gauss, old(gsm), rounds, change, prior)
    {
      ghost var g0 := gsm;
      change := Inf;
      var iter := 1;
      prior := gsm;
      EmRanToStart(gauss, data, dim, g0, prior, pr);
      while iter <= MaxRounds && change >= ThresholdEm
        invariant 1 <= iter <= MaxRounds + 1 && (iter == 1 ==> change == Inf)
        invariant EmRan(gauss, g0, iter - 1, change, prior)
        decreases MaxRounds + 1 - iter
      {
        change, prior := EmPass(gauss, g0, iter - 1, change, prior);
        iter := iter + 1;
      }
      rounds := iter - 1;
    }

    // ----- MAP adaptation -----

    /** `Ex[i]` written over the buffer `e0`: each coordinate the weighted sum
        of the speaker's rows divided by the soft count `mass`. */
    method MeanOf(rows: seq<seq<real>>, p: seq<real>, mass: real, e0: seq<real>) returns (e: seq<real>)
      requires Rows(rows, dim) && Massive(rows, p) && mass == Mass(p, |p|) && |e0| == dim
      ensures e == WeightedMean(rows, dim, p)
    {
      ghost var target := WeightedMean(rows, dim, p);
      e := e0;
      var j := 0;
      while j < dim
        invariant 0 <= j <= dim && |e| == dim
        invariant forall k :: 0 <= k < j ==> e[k] == target[k]
      {
        var s := WeightedSumOf(rows, p, j);
        e := e[j := s / mass];
        j := j + 1;
      }
    }

    /** The second loop of `Self_adaption`: soft counts `n` and data means
        `Ex` of the speaker's rows, one component at a time. */
    method CountAndAverage()
      requires Rows(personalData, dim) && Estimable(personalData, personalPr)
      requires |n| == |personalPr| && |ex| == |personalPr| && forall k :: 0 <= k < |ex| ==> |ex[k]| == dim
      modifies this`n, this`ex
      ensures n == SoftCounts(personalPr) && ex == DataMeans(personalData, dim, personalPr)
    {
      ghost var counts, means := SoftCounts(personalPr), DataMeans(personalData, dim, personalPr);
      var i := 0;
      while i < |personalPr|
        invariant 0 <= i <= |personalPr| == |n| == |ex| && forall k :: 0 <= k < |ex| ==> |ex[k]| == dim
        invariant forall k :: 0 <= k < i ==> n[k] == counts[k] && ex[k] == means[k]
      {
        var count := MassOf(personalPr[i]);
        n := n[i := count];
        var e := MeanOf(personalData, personalPr[i], count, ex[i]);
        ex := ex[i := e];
        i := i + 1;
      }
    }

    /** One component's adapted mean, coordinate by coordinate:
        `coef * Ex + (1 - coef) * old_mean` with `coef = n / (n + 16)`. */
    method BlendMean(count: real, e: seq<real>, prior: seq<real>) returns (m: seq<real>)
      requires 0.0 <= count && |e| == |prior|
      ensures m == AdaptMean(count, e, prior)
    {
      var coef := count / (count + Relevance);
      m := prior;
      var j := 0;
      while j < |prior|
        invariant 0 <= j <= |prior| == |m|
        invariant forall k :: 0 <= k < j ==> m[k] == AdaptMean(count, e, prior)[k]
        invariant forall k :: j <= k < |m| ==> m[k] == prior[k]
      {
        var oldMean := m[j];
        m := m[j := coef * e[j] + (1.0 - coef) * oldMean];
        j := j + 1;
      }
    }

    /** The last loop of `Self_adaption`: only the means move. */
    method AdaptMeans()
      requires Shaped(gsm, dim) && |n| == |gsm| && |ex| == |gsm|
      requires forall i :: 0 <= i < |gsm| ==> 0.0 <= n[i] && |ex[i]| == dim
      modifies this`gsm
      ensures gsm == Adapted(old(gsm), n, ex, dim)
    {
      ghost var target := Adapted(gsm, n, ex, dim);
      var i := 0;
      while i < |gsm|
        invariant 0 <= i <= |gsm| == |target|
        invariant forall k :: 0 <= k < i ==> gsm[k] == target[k]
        invariant forall k :: i <= k < |gsm| ==> gsm[k] == old(gsm)[k]
      {
        var m := BlendMean(n[i], ex[i], gsm[i].mean);
        gsm := gsm[i := gsm[i].(mean := m)];
        i := i + 1;
      }
    }

    /** `Self_adaption`: `personal_pr` gets the responsibilities of the
        speaker's rows under the background model, then the soft counts and
        data means, and every mean is pulled towards its data mean with
        relevance factor 16; variances and weights stay. */
    method SelfAdaption(gauss: Density)
      requires personalPr == [] && ex == [] && Rows(personalData, dim) && 0 < |personalData|
      requires Shaped(gsm, dim) && |gsm| == numGsm && 0 < numGsm
      requires forall j :: 0 <= j < |gsm| ==> 0.0 < gsm[j].weight
      modifies this`personalPr, this`ex, this`n, this`gsm
      ensures Weighted(old(gsm)) && personalPr == Responsibilities(gauss, personalData, old(gsm))
      ensures Estimable(personalData, personalPr)
      ensures n == SoftCounts(personalPr) && ex == DataMeans(personalData, dim, personalPr)
      ensures gsm == Adapted(old(gsm), n, ex, dim)
    {
      var temp := seq(|personalData|, _ => 0.0);
      var i := 0;
      while i < numGsm
        invariant 0 <= i <= numGsm && Matrix(personalPr, i, |personalData|)
        invariant |ex| == i && forall k :: 0 <= k < i ==> |ex[k]| == dim
        invariant gsm == old(gsm)
      {
        personalPr := personalPr + [temp];
        ex := ex + [seq(dim, _ => 0.0)];
        i := i + 1;
      }
      n := Resize(n, numGsm, 0.0);
      PositiveWeightsGiveMass(gauss, personalData, gsm);
      personalPr := Normalise(gauss, personalData, personalPr);
      CountAndAverage();
      AdaptMeans();
    }

    // ----- scoring -----

    /** `temp` of `get_point`: the mixture density of one row. */
    method MixtureDensity(gauss: Density, x: seq<real>) returns (temp: real)
      requires |gsm| == numGsm && forall j :: 0 <= j < |gsm| ==> 0.0 <= gsm[j].weight
      ensures temp == Denominator(gauss, x, gsm, |gsm|)
    {
      temp := 0.0;
      var j := 0;
      while j < numGsm
        invariant 0 <= j <= numGsm && temp == Denominator(gauss, x, gsm, j)
      {
        temp := temp + CalGsm(gauss, x, gsm[j].mean, gsm[j].variance) * gsm[j].weight;
        j := j + 1;
      }
    }

    /** `get_point`: the logarithm (`ln`) of the average mixture likelihood of
        the test rows. */
    method GetPoint(gauss: Density, ln: real -> real, test: seq<seq<real>>) returns (score: real)
      requires 0 < |test| && |gsm| == numGsm && forall j :: 0 <= j < |gsm| ==> 0.0 <= gsm[j].weight
      ensures score == ln(AverageLikelihood(gauss, test, gsm))
    {
      var ans := 0.0;
      var i := 0;
      while i < |test|
        invariant 0 <= i <= |test| && ans == Likelihoods(gauss, test, gsm, i)
      {
        var temp := MixtureDensity(gauss, test[i]);
        ans := ans + temp;
        i := i + 1;
      }
      ans := ans / (|test| as real);
      score := ln(ans);
    }

    /** `get_normal_point`: the score of the test rows in cohort deviations
        from the cohort mean. */
    method GetNormalPoint(gauss: Density, ln: real -> real, test: seq<seq<real>>) returns (score: real)
      requires 0 < |test| && |gsm| == numGsm && forall j :: 0 <= j < |gsm| ==> 0.0 <= gsm[j].weight
      requires normalVar != 0.0
      ensures score == NormalPoint(ln(AverageLikelihood(gauss, test, gsm)), normalMean, normalVar)
    {
      var ans := GetPoint(gauss, ln, test);
      score := (ans - normalMean) / normalVar;
    }

    /** The file loop of `ScoreNormalization`: each cohort file is read into
        `personal_data` and scored; the scores and their running sum. */
    method ScoreCohort(gauss: Density, ln: real -> real, files: seq<seq<real>>) returns (scores: seq<real>, total: real)
      requires 0 < |files| && forall k :: 0 <= k < |files| ==> Whole(files[k], dim) && 0 < |Frames(files[k], dim)|
      requires |gsm| == numGsm && forall j :: 0 <= j < |gsm| ==> 0.0 <= gsm[j].weight
      modifies this`personalData
      ensures scores == CohortScores(gauss, ln, files, dim, gsm) && total == Sum(scores)
      ensures personalData == Frames(files[|files| - 1], dim)
    {
      ghost var target := CohortScores(gauss, ln, files, dim, gsm);
      scores, total := [], 0.0;
      var k := 0;
      while k < |files|
        invariant 0 <= k <= |files| && scores == target[..k] && total == Sum(scores)
        invariant 0 < k ==> personalData == Frames(files[k - 1], dim)
      {
        var status := ReadPersonalData(Some(files[k]));
        var score := GetPoint(gauss, ln, personalData);
        total := total + score;
        assert (scores + [score])[..k] == scores;
        scores := scores + [score];
        k := k + 1;
      }
      assert scores == target;
    }

    /** The deviation loop of `ScoreNormalization`: Σ (s - m)². */
    method SquaredDeviationsOf(scores: seq<real>, m: real) returns (v: real)
      ensures v == SquaredDeviations(scores, m, |scores|)
    {
      v := 0.0;
      var i := 0;
      while i < |scores|
        invariant 0 <= i <= |scores| && v == SquaredDeviations(scores, m, i)
      {
        v := v + (scores[i] - m) * (scores[i] - m);
        i := i + 1;
      }
    }

    /** `ScoreNormalization` over the cohort files (the directory's entries,
        in listing order): `normal_mean` becomes the mean of their scores and
        `normal_var` the square root (`root`) of their population variance. */
    method ScoreNormalization(gauss: Density, ln: real -> real, root: Root, files: seq<seq<real>>)
      requires 0 < |files| && forall k :: 0 <= k < |files| ==> Whole(files[k], dim) && 0 < |Frames(files[k], dim)|
      requires |gsm| == numGsm && forall j :: 0 <= j < |gsm| ==> 0.0 <= gsm[j].weight
      modifies this`personalData, this`normalMean, this`normalVar
      ensures normalMean == ScoreMean(CohortScores(gauss, ln, files, dim, gsm))
      ensures normalVar == root(PopVariance(CohortScores(gauss, ln, files, dim, gsm)))
      ensures personalData == Frames(files[|files| - 1], dim)
    {
      normalMean, normalVar := 0.0, 0.0;
      var scores, total := ScoreCohort(gauss, ln, files);
      normalMean := normalMean + total;
      normalMean := normalMean / (|scores| as real);
      var spread := SquaredDeviationsOf(scores, normalMean);
      normalVar := normalVar + spread;
      normalVar := normalVar / (|scores| as real);
      normalVar := root(normalVar);
    }

    // ----- model file -----

    /** The fields the model file carries. */
    function Snapshot(): Saved
      reads this
    {
      Saved(dim, numGsm, normalMean, normalVar, Weights(gsm), Means(gsm), Variances(gsm))
    }

    /** A block of rows written row by row, value by value. */
    method WriteRows(rows: seq<seq<real>>) returns (t: seq<Token>)
      ensures t == Flat(rows)
    {
      t := [];
      var i := 0;
      while i < |rows|
        invariant 0 <= i <= |rows| && t == Flat(rows[..i])
      {
        var j := 0;
        while j < |rows[i]|
          invariant 0 <= j <= |rows[i]| && t == Flat(rows[..i]) + Nums(rows[i][..j])
        {
          assert Nums(rows[i][..j + 1]) == Nums(rows[i][..j]) + [Num(rows[i][j])];
          t := t + [Num(rows[i][j])];
          j := j + 1;
        }
        assert rows[i][..j] == rows[i];
        FlatAppend(rows[..i], [rows[i]]);
        assert rows[..i + 1] == rows[..i] + [rows[i]];
        assert Flat([rows[i]]) == Nums(rows[i]) + Flat([]);
        i := i + 1;
      }
      assert rows[..i] == rows;
    }

    /** `save_to_file`: the tokens written are the encoding of the model's
        saved fields. */
    method SaveToFile() returns (tokens: seq<Token>)
      requires |gsm| == numGsm && Shaped(gsm, dim)
      ensures WellShaped(Snapshot()) && tokens == Encode(Snapshot())
    {
      tokens := [Int(dim), Int(numGsm), Num(normalMean), Num(normalVar)];
      ghost var head := tokens;
      var i := 0;
      while i < numGsm
        invariant 0 <= i <= numGsm && tokens == head + Nums(Weights(gsm)[..i])
      {
        assert Nums(Weights(gsm)[..i + 1]) == Nums(Weights(gsm)[..i]) + [Num(gsm[i].weight)];
        tokens := tokens + [Num(gsm[i].weight)];
        i := i + 1;
      }
      assert Weights(gsm)[..i] == Weights(gsm);
      var means := WriteRows(Means(gsm));
      var variances := WriteRows(Variances(gsm));
      tokens := tokens + means + variances;
    }

    /** The weight loop of `recover_from_file`. */
    method StoreWeights(w: seq<real>)
      requires |w| == |gsm|
      modifies this`gsm
      ensures |gsm| == |old(gsm)| && forall k :: 0 <= k < |gsm| ==> gsm[k] == old(gsm)[k].(weight := w[k])
    {
      var i := 0;
      while i < |gsm|
        invariant 0 <= i <= |gsm| == |old(gsm)|
        invariant forall k :: 0 <= k < i ==> gsm[k] == old(gsm)[k].(weight := w[k])
        invariant forall k :: i <= k < |gsm| ==> gsm[k] == old(gsm)[k]
      {
        gsm := gsm[i := gsm[i].(weight := w[i])];
        i := i + 1;
      }
    }

    /** The mean loop of `recover_from_file`, a row of `dim` values per component. */
    method StoreMeans(rows: seq<seq<real>>)
      requires |rows| == |gsm|
      modifies this`gsm
      ensures |gsm| == |old(gsm)| && forall k :: 0 <= k < |gsm| ==> gsm[k] == old(gsm)[k].(mean := rows[k])
    {
      var i := 0;
      while i < |gsm|
        invariant 0 <= i <= |gsm| == |old(gsm)|
        invariant forall k :: 0 <= k < i ==> gsm[k] == old(gsm)[k].(mean := rows[k])
        invariant forall k :: i <= k < |gsm| ==> gsm[k] == old(gsm)[k]
      {
        gsm := gsm[i := gsm[i].(mean := rows[i])];
        i := i + 1;
      }
    }

    /** The variance loop of `recover_from_file`. */
    method StoreVariances(rows: seq<seq<real>>)
      requires |rows| == |gsm|
      modifies this`gsm
      ensures |gsm| == |old(gsm)| && forall k :: 0 <= k < |gsm| ==> gsm[k] == old(gsm)[k].(variance := rows[k])
    {
      var i := 0;
      while i < |gsm|
        invariant 0 <= i <= |gsm| == |old(gsm)|
        invariant forall k :: 0 <= k < i ==> gsm[k] == old(gsm)[k].(variance := rows[k])
        invariant forall k :: i <= k < |gsm| ==> gsm[k] == old(gsm)[k]
      {
        gsm := gsm[i := gsm[i].(variance := rows[i])];
        i := i + 1;
      }
    }

    /** `recover_from_file`: a missing file (`None`) leaves everything and
        gives status 0; otherwise the saved fields are read back, the
        components resized to `num_GSM` with `dim` coordinates (K-means
        bookkeeping of surviving components kept), and the status is 1. */
    method RecoverFromFile(file: Option<seq<Token>>) returns (status: int)
      requires file.Some? ==> Decode(file.value).Some?
      modifies this`dim, this`numGsm, this`normalMean, this`normalVar, this`gsm
      ensures file.None? ==> (status == 0 && dim == old(dim) && numGsm == old(numGsm) &&
        normalMean == old(normalMean) && normalVar == old(normalVar) && gsm == old(gsm))
      ensures file.Some? ==> status == 1 && Snapshot() == Decode(file.value).value
      ensures file.Some? ==> (|gsm| == numGsm && Shaped(gsm, dim) &&
        forall i :: 0 <= i < numGsm ==>
          gsm[i].sample == Resize(old(gsm), numGsm, Blank)[i].sample &&
          gsm[i].tolNum == Resize(old(gsm), numGsm, Blank)[i].tolNum)
    {
      if file.None? {
        return 0;
      }
      var s := Decode(file.value).value;
      dim, numGsm := s.dim, s.numGsm;
      normalMean, normalVar := s.normalMean, s.normalVar;
      Reshape();
      StoreWeights(s.weights);
      StoreMeans(s.means);
      StoreVariances(s.variances);
      assert Weights(gsm) == s.weights && Means(gsm) == s.means && Variances(gsm) == s.variances;
      status := 1;
    }
}
}
