/** Frame grouping of `read_data` and `read_personal_data` (ubm.h:226-235 and
    ubm.h:526-535): the token stream is cut into groups of `dim` values, and a
    group becomes a data row exactly when its first value is not 0. */
module Framing {
  /** The stream holds whole groups of `dim` tokens, `dim` being positive. */
  ghost predicate Whole(tokens: seq<real>, dim: nat)
    decreases |tokens|
  {
    0 < dim && (|tokens| == 0 || (dim <= |tokens| && Whole(tokens[dim..], dim)))
  }

  /** What one group contributes: itself when its first value is not 0. */
  function Keep(group: seq<real>): (r: seq<seq<real>>)
    requires 0 < |group|
    ensures r == [] <==> group[0] == 0.0
  {
    if group[0] != 0.0 then [group] else []
  }

  /** The rows kept from a whole stream, in stream order. */
  function Frames(tokens: seq<real>, dim: nat): (rows: seq<seq<real>>)
    requires Whole(tokens, dim)
    decreases |tokens|
  {
    if |tokens| == 0 then []
    else
      Keep(tokens[..dim]) + Frames(tokens[dim..], dim)
  }

  /** Every kept row has `dim` values, a non-zero first value, and there are
      at most as many rows as groups. */
  lemma {:induction false} FramesShape(tokens: seq<real>, dim: nat)
    requires Whole(tokens, dim)
    ensures forall t :: 0 <= t < |Frames(tokens, dim)| ==>
      |Frames(tokens, dim)[t]| == dim && Frames(tokens, dim)[t][0] != 0.0
    ensures |Frames(tokens, dim)| * dim <= |tokens|
    decreases |tokens|
  {
    if |tokens| > 0 {
      FramesShape(tokens[dim..], dim);
    }
  }

  /** Reading two streams one after the other keeps the rows of the first,
      then those of the second. */
  lemma {:induction false} FramesAppend(a: seq<real>, b: seq<real>, dim: nat)
    requires Whole(a, dim) && Whole(b, dim)
    ensures Whole(a + b, dim)
    ensures Frames(a + b, dim) == Frames(a, dim) + Frames(b, dim)
    decreases |a|
  {
    if |a| > 0 {
      assert (a + b)[..dim] == a[..dim];
      assert (a + b)[dim..] == a[dim..] + b;
      FramesAppend(a[dim..], b, dim);
    } else {
      assert a + b == b;
    }
  }

  /** A single group is kept exactly when its first value is not 0. */
  lemma FramesOfGroup(group: seq<real>, dim: nat)
    requires 0 < dim && |group| == dim
    ensures Whole(group, dim)
    ensures group[0] != 0.0 ==> Frames(group, dim) == [group]
    ensures group[0] == 0.0 ==> Frames(group, dim) == []
  {
    assert group[dim..] == [];
    assert group[..dim] == group;
  }
}
