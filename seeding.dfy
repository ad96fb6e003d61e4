/** Specification of the K-means++ seeding in `UBM::Init` (ubm.h:252-305):
    the cumulative-threshold pick, the trial distance arrays and the choice
    of the best of three trials. */
module Seeding {
  import opened Sums
  import opened Mixture

  /** Trials scored per new centre (the `3` at ubm.h:278). */
  const Trials: nat := 3

  /** `distance_p(i, j)`: the root of the squared distance between rows i and j. */
  function DistP(data: seq<seq<real>>, dim: nat, root: Root, i: nat, j: nat): (r: real)
    requires Rows(data, dim) && i < |data| && j < |data|
    ensures NeverNegative(root) ==> 0.0 <= r
  {
    root(SqDist(data[i], data[j], dim))
  }

  /** `std::min(a, b)`. */
  function Min(a: real, b: real): (r: real)
    ensures r <= a && r <= b && (r == a || r == b)
  {
    if b < a then b else a
  }

  /** The index where `thres -= dist[i]; if (thres <= 0) break;` stops when it
      is at index `i` with `thres` left, or `|dist|` when it runs off the end. */
  function Pick(dist: seq<real>, thres: real, i: nat): (r: nat)
    requires i <= |dist|
    ensures i <= r <= |dist|
    decreases |dist| - i
  {
    if i == |dist| then i
    else if thres - dist[i] <= 0.0 then i
    else Pick(dist, thres - dist[i], i + 1)
  }

  /** The running total of `dist` up to and including index `j`. */
  function SumThrough(dist: seq<real>, j: nat): real
    requires j < |dist|
  {
    Sum(dist[..j + 1])
  }

  lemma {:induction false} PickFrom(dist: seq<real>, t0: real, i: nat)
    requires i <= |dist|
    requires forall j :: 0 <= j < i ==> SumThrough(dist, j) < t0
    ensures var r := Pick(dist, t0 - Sum(dist[..i]), i);
      (forall j :: 0 <= j < r ==> SumThrough(dist, j) < t0) &&
      (r < |dist| ==> t0 <= SumThrough(dist, r))
    decreases |dist| - i
  {
    if i < |dist| {
      SumPrefixStep(dist, i);
      if t0 - Sum(dist[..i]) - dist[i] > 0.0 {
        PickFrom(dist, t0, i + 1);
      }
    }
  }

  /** The scan stops at the first index whose prefix sum of `dist` reaches
      `thres`; when `thres` is below the total it stops inside the array. */
  lemma PickFirstReaching(dist: seq<real>, thres: real)
    requires 0.0 <= thres
    ensures var r := Pick(dist, thres, 0);
      (forall j :: 0 <= j < r ==> SumThrough(dist, j) < thres) &&
      (r < |dist| ==> thres <= SumThrough(dist, r)) &&
      (thres < Sum(dist) ==> r < |dist|)
  {
    assert dist[..0] == [];
    PickFrom(dist, thres, 0);
    var r := Pick(dist, thres, 0);
    if r == |dist| && 0 < |dist| {
      assert dist[..(r - 1) + 1] == dist;
      assert SumThrough(dist, r - 1) < thres;
    }
  }

  /** The trial array `dist2_c` for candidate `id`: the pointwise minimum of the
      current `dist` and the candidate's distances. */
  function Trial(data: seq<seq<real>>, dim: nat, root: Root, dist: seq<real>, id: nat): (c: seq<real>)
    requires Rows(data, dim) && |dist| == |data| && id < |data|
    ensures |c| == |dist|
  {
    seq(|dist|, i requires 0 <= i < |dist| => Min(DistP(data, dim, root, i, id), dist[i]))
  }

  /** Each trial entry is the smaller of the old entry and the distance to the
      candidate, so the trial array stays non-negative and below `dist`. */
  lemma TrialBounds(data: seq<seq<real>>, dim: nat, root: Root, dist: seq<real>, id: nat)
    requires Rows(data, dim) && |dist| == |data| && id < |data|
    ensures var c := Trial(data, dim, root, dist, id);
      (forall i :: 0 <= i < |c| ==> c[i] <= dist[i] && c[i] <= DistP(data, dim, root, i, id)) &&
      (forall i :: 0 <= i < |c| ==> c[i] == dist[i] || c[i] == DistP(data, dim, root, i, id)) &&
      (NonNegative(dist) && NeverNegative(root) ==> NonNegative(c))
  {
  }

  /** One trial: the candidate index, its trial array and that array's sum. */
  datatype Candidate = Candidate(id: nat, sum: real)

  /** The state a round starts from: `sum0` is the sum of `dist` and
      `(int)sum0` is a usable modulus. */
  ghost predicate Drawable(data: seq<seq<real>>, dim: nat, dist: seq<real>) {
    Rows(data, dim) && |dist| == |data| && 1 <= Sum(dist).Floor
  }

  /** A trial driven by the raw random number `raw`: the threshold is
      `raw % (int)sum0`, the candidate is where the scan stops. */
  function Draw(data: seq<seq<real>>, dim: nat, root: Root, dist: seq<real>, raw: nat): (c: Candidate)
    requires Drawable(data, dim, dist)
    ensures c.id < |data| && c.sum == Sum(Trial(data, dim, root, dist, c.id))
  {
    var m := Sum(dist).Floor;
    var thres := (raw % m) as real;
    PickFirstReaching(dist, thres);
    var id := Pick(dist, thres, 0);
    var c := Trial(data, dim, root, dist, id);
    Candidate(id, Sum(c))
  }

  /** The trial kept after the first `n` trials of a round: a later trial
      replaces the kept one only when its sum is strictly smaller, as
      `if (sum < maxSum)` does when `maxSum` starts above every sum. */
  function Kept(cs: seq<Candidate>, n: nat): (c: Candidate)
    requires 0 < n <= |cs|
  {
    if n == 1 then cs[0]
    else
      var kept := Kept(cs, n - 1);
      if cs[n - 1].sum < kept.sum then cs[n - 1] else kept
  }

  /** One more trial: it is kept when it is the first or its sum is strictly
      below the kept one's. */
  lemma KeptStep(cs: seq<Candidate>, j: nat)
    requires j < |cs|
    ensures Kept(cs, j + 1) == if j == 0 || cs[j].sum < Kept(cs, j).sum then cs[j] else Kept(cs, j)
  {
  }

  /** The kept trial is one of the first `n`, no trial has a smaller sum, and
      every trial before it has a strictly larger one: the first smallest. */
  lemma {:induction false} KeptIsFirstSmallest(cs: seq<Candidate>, n: nat)
    requires 0 < n <= |cs|
    ensures var c := Kept(cs, n);
      (exists j :: 0 <= j < n && c == cs[j] && forall i :: 0 <= i < j ==> c.sum < cs[i].sum) &&
      (forall j :: 0 <= j < n ==> c.sum <= cs[j].sum)
  {
    if n == 1 {
      assert Kept(cs, n) == cs[0];
    } else {
      KeptIsFirstSmallest(cs, n - 1);
      var kept := Kept(cs, n - 1);
      if cs[n - 1].sum < kept.sum {
        assert Kept(cs, n) == cs[n - 1];
      } else {
        assert Kept(cs, n) == kept;
      }
    }
  }

  /** The trials of one round, driven by the raw random numbers `raws`. */
  function Draws(data: seq<seq<real>>, dim: nat, root: Root, dist: seq<real>, raws: seq<nat>): (cs: seq<Candidate>)
    requires Drawable(data, dim, dist)
    ensures |cs| == |raws| && forall j :: 0 <= j < |raws| ==> cs[j] == Draw(data, dim, root, dist, raws[j])
  {
    seq(|raws|, j requires 0 <= j < |raws| => Draw(data, dim, root, dist, raws[j]))
  }

  /** One round of seeding: of the trials driven by `raws`, the one with the
      smallest sum, the earliest on a tie. */
  function Round(data: seq<seq<real>>, dim: nat, root: Root, dist: seq<real>, raws: seq<nat>): (c: Candidate)
    requires Drawable(data, dim, dist) && 0 < |raws|
    ensures c.id < |data| && c.sum == Sum(Trial(data, dim, root, dist, c.id))
  {
    var cs := Draws(data, dim, root, dist, raws);
    KeptIsFirstSmallest(cs, |cs|);
    Kept(cs, |cs|)
  }

  /** The committed trial is one of the round's draws, no draw has a smaller
      sum, and every draw before it has a larger one. */
  lemma RoundIsBest(data: seq<seq<real>>, dim: nat, root: Root, dist: seq<real>, raws: seq<nat>)
    requires Drawable(data, dim, dist) && 0 < |raws|
    ensures var c := Round(data, dim, root, dist, raws);
      (exists j :: 0 <= j < |raws| && c == Draw(data, dim, root, dist, raws[j]) &&
         forall i :: 0 <= i < j ==> c.sum < Draw(data, dim, root, dist, raws[i]).sum) &&
      (forall j :: 0 <= j < |raws| ==> c.sum <= Draw(data, dim, root, dist, raws[j]).sum)
  {
    var cs := Draws(data, dim, root, dist, raws);
    KeptIsFirstSmallest(cs, |cs|);
  }

  /** The `dist` array after the first centre `first` is chosen. */
  function FirstDist(data: seq<seq<real>>, dim: nat, root: Root, first: nat): (d: seq<real>)
    requires Rows(data, dim) && first < |data|
    ensures |d| == |data| && (NeverNegative(root) ==> NonNegative(d))
  {
    seq(|data|, i requires 0 <= i < |data| => DistP(data, dim, root, i, first))
  }

  /** The committed array of a round is pointwise no larger than the previous
      `dist`, so the seeding potential `sum0` never grows from round to round,
      and with a square root that is never negative it stays non-negative. */
  lemma RoundShrinks(data: seq<seq<real>>, dim: nat, root: Root, dist: seq<real>, raws: seq<nat>)
    requires Drawable(data, dim, dist) && 0 < |raws|
    ensures var c := Round(data, dim, root, dist, raws);
      c.sum <= Sum(dist) &&
      (NonNegative(dist) && NeverNegative(root) ==> NonNegative(Trial(data, dim, root, dist, c.id)))
  {
    var c := Round(data, dim, root, dist, raws);
    var next := Trial(data, dim, root, dist, c.id);
    TrialBounds(data, dim, root, dist, c.id);
    SumMonotone(next, dist);
  }

  /** Round `k` of seeding has at least one trial. */
  ghost predicate Rounds(raws: seq<seq<nat>>) {
    forall k :: 0 <= k < |raws| ==> 0 < |raws[k]|
  }

  /** The centres chosen by rounds `from`, `from + 1`, ... of seeding:
      `raws[k]` holds the raw random numbers of round k, and every round
      starts from the array the previous one committed. `None` when some
      round finds `(int)sum0` below 1, where `rand() % (int)sum0` has no value. */
  function Centres(data: seq<seq<real>>, dim: nat, root: Root, dist: seq<real>, raws: seq<seq<nat>>, from: nat): (r: Option<seq<nat>>)
    requires Rows(data, dim) && |dist| == |data|
    requires Rounds(raws) && from <= |raws|
    ensures r.Some? ==> |r.value| == |raws| - from
    decreases |raws| - from, 1
  {
    if from == |raws| then Some([])
    else if Sum(dist).Floor < 1 then None
    else Advance(data, dim, root, dist, raws, from)
  }

  /** Round `from` commits its best trial; the rounds after it start from
      that trial's array. */
  function Advance(data: seq<seq<real>>, dim: nat, root: Root, dist: seq<real>, raws: seq<seq<nat>>, from: nat): (r: Option<seq<nat>>)
    requires Drawable(data, dim, dist) && Rounds(raws) && from < |raws|
    ensures r.Some? ==> |r.value| == |raws| - from
    decreases |raws| - from, 0
  {
    var c := Round(data, dim, root, dist, raws[from]);
    Chain(c.id, Centres(data, dim, root, Trial(data, dim, root, dist, c.id), raws, from + 1))
  }

  /** Proof helper for `SeedsExtend`: one round of `Centres` unfolded. */
  lemma CentresStep(data: seq<seq<real>>, dim: nat, root: Root, dist: seq<real>, raws: seq<seq<nat>>, from: nat)
    requires Drawable(data, dim, dist) && Rounds(raws) && from < |raws|
    ensures var c := Round(data, dim, root, dist, raws[from]);
      Centres(data, dim, root, dist, raws, from) ==
      Chain(c.id, Centres(data, dim, root, Trial(data, dim, root, dist, c.id), raws, from + 1))
  {
  }

  /** Proof helper for `ChooseSeeds`: the stopping branch of `Centres`. */
  lemma CentresStop(data: seq<seq<real>>, dim: nat, root: Root, dist: seq<real>, raws: seq<seq<nat>>, from: nat)
    requires Rows(data, dim) && |dist| == |data| && Rounds(raws) && from < |raws|
    requires Sum(dist).Floor < 1
    ensures Centres(data, dim, root, dist, raws, from) == None
  {
  }

  /** `seeds` is `ids` followed by whatever `rest` picks, and fails exactly when `rest` fails. */
  ghost predicate Continues(seeds: Option<seq<nat>>, ids: seq<nat>, rest: Option<seq<nat>>) {
    (seeds.Some? <==> rest.Some?) && (seeds.Some? ==> seeds.value == ids + rest.value)
  }

  /** Before any round, nothing is picked and everything is pending. */
  lemma ContinuesStart(seeds: Option<seq<nat>>)
    ensures Continues(seeds, [], seeds)
  {
    if seeds.Some? {
      assert [] + seeds.value == seeds.value;
    }
  }

  /** One more committed round moves its centre from the pending part to the picked part. */
  lemma SeedsExtend(data: seq<seq<real>>, dim: nat, root: Root, dist: seq<real>, raws: seq<seq<nat>>, from: nat,
                    seeds: Option<seq<nat>>, ids: seq<nat>)
    requires Drawable(data, dim, dist) && Rounds(raws) && from < |raws|
    requires Continues(seeds, ids, Centres(data, dim, root, dist, raws, from))
    ensures var c := Round(data, dim, root, dist, raws[from]);
      Continues(seeds, ids + [c.id], Centres(data, dim, root, Trial(data, dim, root, dist, c.id), raws, from + 1))
  {
    var c := Round(data, dim, root, dist, raws[from]);
    CentresStep(data, dim, root, dist, raws, from);
    var rest := Centres(data, dim, root, Trial(data, dim, root, dist, c.id), raws, from + 1);
    if seeds.Some? {
      assert seeds.value == ids + ([c.id] + rest.value);
      assert ids + ([c.id] + rest.value) == (ids + [c.id]) + rest.value;
    }
  }

  /** `id` followed by the later centres, if the later rounds all ran. */
  function Chain(id: nat, later: Option<seq<nat>>): (r: Option<seq<nat>>)
    ensures r.Some? <==> later.Some?
    ensures r.Some? ==> r.value == [id] + later.value
  {
    match later
    case None => None
    case Some(rest) => Some([id] + rest)
  }

  /** The centre a round picks is the best of its trials, and the potential
      it leaves is no larger than the one it started from. */
  lemma CentresFirst(data: seq<seq<real>>, dim: nat, root: Root, dist: seq<real>, raws: seq<seq<nat>>, from: nat)
    requires Drawable(data, dim, dist) && Rounds(raws) && from < |raws|
    requires Centres(data, dim, root, dist, raws, from).Some?
    ensures var id := Centres(data, dim, root, dist, raws, from).value[0];
      var c := Round(data, dim, root, dist, raws[from]);
      id == c.id && c.sum <= Sum(dist) &&
      forall j :: 0 <= j < |raws[from]| ==> Sum(Trial(data, dim, root, dist, id)) <= Draw(data, dim, root, dist, raws[from][j]).sum
  {
    RoundShrinks(data, dim, root, dist, raws[from]);
    RoundIsBest(data, dim, root, dist, raws[from]);
  }
}
