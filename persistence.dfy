/** The model file of `save_to_file` and `recover_from_file` (ubm.h:92-151),
    at the level of whitespace-separated tokens. */
module Persistence {
  import opened Mixture

  /** One token of the model file: the two counts are integers, everything
      else is a floating-point value. */
  datatype Token = Int(i: int) | Num(r: real)

  /** The fields the model file carries. */
  datatype Saved = Saved(dim: nat, numGsm: nat, normalMean: real, normalVar: real,
                         weights: seq<real>, means: seq<seq<real>>, variances: seq<seq<real>>)

  /** `numGsm` weights and `numGsm` mean and variance rows of `dim` values. */
  ghost predicate WellShaped(s: Saved) {
    |s.weights| == s.numGsm && Rows(s.means, s.dim) && Rows(s.variances, s.dim) &&
    |s.means| == s.numGsm && |s.variances| == s.numGsm
  }

  function Nums(xs: seq<real>): (t: seq<Token>)
    ensures |t| == |xs| && forall k :: 0 <= k < |xs| ==> t[k] == Num(xs[k])
  {
    seq(|xs|, k requires 0 <= k < |xs| => Num(xs[k]))
  }

  /** Rows written one after the other, as the mean and variance blocks are. */
  function Flat(rows: seq<seq<real>>): seq<Token> {
    if rows == [] then [] else Nums(rows[0]) + Flat(rows[1..])
  }

  /** Writing two blocks of rows one after the other writes their
      concatenation. */
  lemma {:induction false} FlatAppend(a: seq<seq<real>>, b: seq<seq<real>>)
    ensures Flat(a + b) == Flat(a) + Flat(b)
    decreases |a|
  {
    if a == [] {
      assert a + b == b;
    } else {
      assert (a + b)[1..] == a[1..] + b;
      FlatAppend(a[1..], b);
    }
  }

  /** The token order of `save_to_file`: `dim`, `num_GSM`, `normal_mean`,
      `normal_var`, the weights, the means row by row, the variances row by row. */
  function Encode(s: Saved): seq<Token>
    requires WellShaped(s)
  {
    [Int(s.dim), Int(s.numGsm), Num(s.normalMean), Num(s.normalVar)] +
    Nums(s.weights) + Flat(s.means) + Flat(s.variances)
  }

  /** `n` floating-point tokens from the front of `t`, and what follows them. */
  function ReadNums(t: seq<Token>, n: nat): (r: Option<(seq<real>, seq<Token>)>)
    ensures r.Some? ==> |r.value.0| == n && |r.value.1| <= |t|
  {
    if n == 0 then Some(([], t))
    else if t == [] || !t[0].Num? then None
    else match ReadNums(t[1..], n - 1)
      case None => None
      case Some((xs, rest)) => Some(([t[0].r] + xs, rest))
  }

  /** `n` rows of `dim` floating-point tokens each. */
  function ReadRows(t: seq<Token>, n: nat, dim: nat): (r: Option<(seq<seq<real>>, seq<Token>)>)
    ensures r.Some? ==> |r.value.0| == n && Rows(r.value.0, dim) && |r.value.1| <= |t|
    decreases n
  {
    if n == 0 then Some(([], t))
    else match ReadNums(t, dim)
      case None => None
      case Some((row, rest)) =>
        match ReadRows(rest, n - 1, dim)
          case None => None
          case Some((rows, tail)) => Some(([row] + rows, tail))
  }

  /** The reading order of `recover_from_file`; tokens after the variance block
      are ignored, and a stream that does not have the layout gives `None`. */
  function Decode(t: seq<Token>): (r: Option<Saved>)
    ensures r.Some? ==> WellShaped(r.value)
  {
    if |t| < 4 || !t[0].Int? || !t[1].Int? || !t[2].Num? || !t[3].Num? || t[0].i < 0 || t[1].i < 0 then None
    else
      var dim, n := t[0].i as nat, t[1].i as nat;
      match ReadNums(t[4..], n)
        case None => None
        case Some((weights, rest)) =>
          match ReadRows(rest, n, dim)
            case None => None
            case Some((means, rest2)) =>
              match ReadRows(rest2, n, dim)
                case None => None
                case Some((variances, _)) =>
                  Some(Saved(dim, n, t[2].r, t[3].r, weights, means, variances))
  }

  lemma {:induction false} ReadNumsOfNums(xs: seq<real>, tail: seq<Token>)
    ensures ReadNums(Nums(xs) + tail, |xs|) == Some((xs, tail))
    decreases |xs|
  {
    if xs != [] {
      assert (Nums(xs) + tail)[1..] == Nums(xs[1..]) + tail;
      ReadNumsOfNums(xs[1..], tail);
      assert [xs[0]] + xs[1..] == xs;
    } else {
      assert Nums(xs) + tail == tail;
    }
  }

  lemma {:induction false} ReadRowsOfFlat(rows: seq<seq<real>>, dim: nat, tail: seq<Token>)
    requires Rows(rows, dim)
    ensures ReadRows(Flat(rows) + tail, |rows|, dim) == Some((rows, tail))
    decreases |rows|
  {
    if rows != [] {
      assert Flat(rows) + tail == Nums(rows[0]) + (Flat(rows[1..]) + tail);
      ReadNumsOfNums(rows[0], Flat(rows[1..]) + tail);
      ReadRowsOfFlat(rows[1..], dim, tail);
      assert [rows[0]] + rows[1..] == rows;
    } else {
      assert Flat(rows) + tail == tail;
    }
  }

  /** Reading back what was saved restores every saved field, whatever
      follows the saved tokens. */
  lemma RoundTrip(s: Saved, tail: seq<Token>)
    requires WellShaped(s)
    ensures Decode(Encode(s) + tail) == Some(s)
  {
    var head := [Int(s.dim), Int(s.numGsm), Num(s.normalMean), Num(s.normalVar)];
    var body := Nums(s.weights) + (Flat(s.means) + (Flat(s.variances) + tail));
    var t := Encode(s) + tail;
    assert t == head + body;
    assert t[4..] == body;
    ReadNumsOfNums(s.weights, Flat(s.means) + (Flat(s.variances) + tail));
    ReadRowsOfFlat(s.means, s.dim, Flat(s.variances) + tail);
    ReadRowsOfFlat(s.variances, s.dim, tail);
  }
}
