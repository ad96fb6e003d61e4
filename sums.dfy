/** Finite sums of reals, accumulated left to right as the source's loops do. */
module Sums {

  /** A square root left abstract (`sqrt` in `distance_p` and in
      `ScoreNormalization`). */
  type Root = real -> real

  /** What the model assumes of `sqrt` where it needs it: no result is negative. */
  ghost predicate NeverNegative(root: Root) {
    forall x :: 0.0 <= root(x)
  }

  /** The sum of `s`, added from the first element to the last. */
  function Sum(s: seq<real>): real
    decreases |s|
  {
    if |s| == 0 then 0.0 else Sum(s[..|s| - 1]) + s[|s| - 1]
  }

  ghost predicate NonNegative(s: seq<real>) {
    forall i :: 0 <= i < |s| ==> 0.0 <= s[i]
  }

  /** One more step of a running total: the prefix sum of `i + 1` elements. */
  lemma SumPrefixStep(s: seq<real>, i: nat)
    requires i < |s|
    ensures Sum(s[..i + 1]) == Sum(s[..i]) + s[i]
  {
    assert s[..i + 1][..i] == s[..i];
  }

  lemma {:induction false} SumNonNegative(s: seq<real>)
    requires NonNegative(s)
    ensures 0.0 <= Sum(s)
  {
    if |s| > 0 {
      SumNonNegative(s[..|s| - 1]);
    }
  }

  /** A sequence that is pointwise no larger has no larger sum. */
  lemma {:induction false} SumMonotone(a: seq<real>, b: seq<real>)
    requires |a| == |b|
    requires forall i :: 0 <= i < |a| ==> a[i] <= b[i]
    ensures Sum(a) <= Sum(b)
  {
    if |a| > 0 {
      SumMonotone(a[..|a| - 1], b[..|b| - 1]);
    }
  }

  /** A non-negative part of a positive whole is a fraction in [0, 1]. */
  lemma FractionInUnit(a: real, d: real)
    requires 0.0 <= a <= d && 0.0 < d
    ensures 0.0 <= a / d <= 1.0
    ensures a < d ==> a / d < 1.0
  {
    assert a / d * d == a;
  }

  /** Arithmetic helper: fractions over one denominator add up. */
  lemma AddFractions(a: real, b: real, d: real)
    requires d != 0.0
    ensures a / d + b / d == (a + b) / d
  {
  }

  /** Arithmetic helper: a non-zero quantity divided by itself is 1. */
  lemma WholeOverItself(d: real)
    requires d != 0.0
    ensures d / d == 1.0
  {
  }

  /** A square scaled by a non-negative weight is non-negative. */
  lemma WeightedSquare(w: real, d: real)
    ensures 0.0 <= w ==> 0.0 <= w * d * d
  {
    assert 0.0 <= d * d;
    assert w * d * d == w * (d * d);
  }

  /** A fraction `c` of a non-negative quantity is between 0 and the whole. */
  lemma ScaleWithin(c: real, d: real)
    requires 0.0 <= c <= 1.0 && 0.0 <= d
    ensures 0.0 <= c * d <= d
  {
    assert 0.0 <= (1.0 - c) * d;
  }

  /** `c(1), ..., c(n - 1)` are all at least `t`, checked one round after
      another as a `while` guard checks them. */
  ghost predicate HeldFrom(c: nat -> real, t: real, n: nat)
    decreases n
  {
    n <= 1 || (HeldFrom(c, t, n - 1) && t <= c(n - 1))
  }

  /** `HeldFrom` spelled out round by round. */
  lemma {:induction false} HeldFromAll(c: nat -> real, t: real, n: nat)
    ensures HeldFrom(c, t, n) <==> forall k :: 1 <= k < n ==> t <= c(k)
    decreases n
  {
    if 1 < n {
      HeldFromAll(c, t, n - 1);
    }
  }
}
