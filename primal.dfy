/** Primal values of the reduction nodes: what `var_sum`, `var_dot_self` and `var_dot` compute. */
module Primal {
  import opened Adjoint

  /** The values of the nodes hs, in order. */
  function Gather(vals: seq<real>, hs: seq<nat>): (r: seq<real>)
    requires InRange(hs, |vals|)
    ensures |r| == |hs| && forall i :: 0 <= i < |hs| ==> r[i] == vals[hs[i]]
  {
    seq(|hs|, i requires 0 <= i < |hs| => vals[hs[i]])
  }

  /** x[0] + ... + x[n-1], added left to right. */
  function Sum(xs: seq<real>): real
    decreases |xs|
  {
    if |xs| == 0 then 0.0 else Sum(xs[..|xs| - 1]) + xs[|xs| - 1]
  }

  /** x[0]*y[0] + ... + x[n-1]*y[n-1], added left to right. */
  function Dot(xs: seq<real>, ys: seq<real>): real
    requires |xs| == |ys|
    decreases |xs|
  {
    if |xs| == 0 then 0.0
    else
      var n := |xs| - 1;
      Dot(xs[..n], ys[..n]) + xs[n] * ys[n]
  }

  /** The order of the operands of a dot product does not change its value. */
  lemma {:induction false} DotComm(xs: seq<real>, ys: seq<real>)
    requires |xs| == |ys|
    ensures Dot(xs, ys) == Dot(ys, xs)
    decreases |xs|
  {
    if |xs| > 0 {
      DotComm(xs[..|xs| - 1], ys[..|ys| - 1]);
    }
  }

  /** A dot-self value is never negative. */
  lemma {:induction false} DotSelfNonnegative(xs: seq<real>)
    ensures Dot(xs, xs) >= 0.0
    decreases |xs|
  {
    if |xs| > 0 {
      DotSelfNonnegative(xs[..|xs| - 1]);
    }
  }

  /** One more term of a left-to-right sum. */
  lemma {:induction false} SumPrefix(xs: seq<real>, i: nat)
    requires i < |xs|
    ensures Sum(xs[..i + 1]) == Sum(xs[..i]) + xs[i]
  {
    assert xs[..i + 1][..i] == xs[..i];
  }

  /** One more term of a left-to-right dot product. */
  lemma {:induction false} DotPrefix(xs: seq<real>, ys: seq<real>, i: nat)
    requires |xs| == |ys| && i < |xs|
    ensures Dot(xs[..i + 1], ys[..i + 1]) == Dot(xs[..i], ys[..i]) + xs[i] * ys[i]
  {
    assert xs[..i + 1][..i] == xs[..i];
    assert ys[..i + 1][..i] == ys[..i];
  }

  /** The values of a prefix of hs are a prefix of the values of hs. */
  lemma {:induction false} GatherPrefix(vals: seq<real>, hs: seq<nat>, l: nat)
    requires InRange(hs, |vals|) && l <= |hs|
    ensures InRange(hs[..l], |vals|) && Gather(vals, hs[..l]) == Gather(vals, hs)[..l]
  {
  }

  /** Terms whose second factor is zero add nothing: the dot product stops at i. */
  lemma {:induction false} DotZeroTail(xs: seq<real>, ys: seq<real>, i: nat)
    requires |xs| == |ys| && i <= |xs|
    requires forall k :: i <= k < |ys| ==> ys[k] == 0.0
    ensures Dot(xs, ys) == Dot(xs[..i], ys[..i])
    decreases |xs|
  {
    if |xs| > i {
      var n := |xs| - 1;
      DotZeroTail(xs[..n], ys[..n], i);
      assert xs[..n][..i] == xs[..i] && ys[..n][..i] == ys[..i];
    } else {
      assert xs[..i] == xs && ys[..i] == ys;
    }
  }
}
