/**
 * Small tapes worked through by hand: the gradients the reverse pass yields
 * for them hold whatever the dense kernels are, since none of these nodes
 * calls one.
 */
module Worked {
  import opened Adjoint
  import opened Primal
  import opened Dense
  import opened Graph
  import opened Reverse

  /** Leaves x0, x1, y0, y1 and dot_product([x0, x1], [y0, y1]). */
  function DotTape(x0: real, x1: real, y0: real, y1: real): (g: Graph)
    ensures GraphOk(g)
  {
    var g := Graph([x0, x1, y0, y1, Dot([x0, x1], [y0, y1])], [Leaf, Leaf, Leaf, Leaf, DotVV(Slice(0, 2), Slice(2, 2))], [0, 1, 2, 3], []);
    assert SliceOf(g.refs, Slice(0, 2)) == [0, 1];
    assert SliceOf(g.refs, Slice(2, 2)) == [2, 3];
    assert NodeOk(g.kinds[4], 4, 5, g.refs, 0);
    g
  }

  /** d(x . y) = (y, x): x gets y and y gets x. */
  lemma {:induction false} DotGrad(be: Backend, x0: real, x1: real, y0: real, y1: real)
    requires Conforms(be)
    ensures Grad(be, DotTape(x0, x1, y0, y1), 4) == [y0, y1, x0, x1, 1.0]
  {
    var g := DotTape(x0, x1, y0, y1);
    DotStep(be, x0, x1, y0, y1);
    GradNewest(be, g, 4);
    LeavesIdle(be, g, [y0, y1, x0, x1, 1.0], 4);
  }

  lemma {:induction false} DotStep(be: Backend, x0: real, x1: real, y0: real, y1: real)
    requires Conforms(be)
    ensures ChainSpec(be, DotTape(x0, x1, y0, y1), Seed(5, 4), 4) == [y0, y1, x0, x1, 1.0]
  {
    var g := DotTape(x0, x1, y0, y1);
    var seed := Seed(5, 4);
    assert seed == [0.0, 0.0, 0.0, 0.0, 1.0];
    assert SliceOf(g.refs, Slice(0, 2)) == [0, 1] && SliceOf(g.refs, Slice(2, 2)) == [2, 3];
    DotVVChain(be, g, seed, 4);
    DotUpdate(g.vals);
  }

  lemma {:induction false} DotUpdate(vals: seq<real>)
    requires |vals| == 5
    ensures PairwiseAdd([0.0, 0.0, 0.0, 0.0, 1.0], vals, [0, 1], [2, 3], 1.0) == [vals[2], vals[3], vals[0], vals[1], 1.0]
  {
    var a, s1, s2 := [0.0, 0.0, 0.0, 0.0, 1.0], [0, 1], [2, 3];
    DistinctIntro(s1);
    DistinctIntro(s2);
    assert Disjoint(s1, s2[..1]);
    assert Separate(s1, s2);
    PairwiseAddAt(a, vals, s1, s2, 1.0, 0);
    PairwiseAddAt(a, vals, s1, s2, 1.0, 1);
    PairwiseAddUntouched(a, vals, s1, s2, 1.0, 4);
  }

  /** Leaf x and sum([x, x]): an operand listed twice. */
  function SumTape(x: real): (g: Graph)
    ensures GraphOk(g)
  {
    var g := Graph([x, Sum([x, x])], [Leaf, SumV(Slice(0, 2))], [0, 0], []);
    assert SliceOf(g.refs, Slice(0, 2)) == [0, 0];
    assert NodeOk(g.kinds[1], 1, 2, g.refs, 0);
    g
  }

  /** d(x + x) = 2: the repeated operand receives the adjoint once per occurrence. */
  lemma {:induction false} SumGrad(be: Backend, x: real)
    requires Conforms(be)
    ensures Grad(be, SumTape(x), 1) == [2.0, 1.0]
  {
    var g := SumTape(x);
    SumStep(be, x);
    GradNewest(be, g, 1);
    LeavesIdle(be, g, [2.0, 1.0], 1);
  }

  lemma {:induction false} SumStep(be: Backend, x: real)
    requires Conforms(be)
    ensures ChainSpec(be, SumTape(x), Seed(2, 1), 1) == [2.0, 1.0]
  {
    var g := SumTape(x);
    var seed := Seed(2, 1);
    assert seed == [0.0, 1.0];
    assert SliceOf(g.refs, Slice(0, 2)) == [0, 0];
    SumVChain(be, g, seed, 1, 0);
    SumVChain(be, g, seed, 1, 1);
    CountTwice();
  }

  lemma {:induction false} CountTwice()
    ensures Count([0, 0], 0) == 2 && Count([0, 0], 1) == 0
  {
    assert [0, 0][..1] == [0];
    assert [0][..0] == [];
  }

  /** Leaves do nothing: the sweep over the first n nodes, all leaves, is the identity. */
  lemma {:induction false} LeavesIdle(be: Backend, g: Graph, adjs: seq<real>, n: nat)
    requires Conforms(be) && GraphOk(g) && |adjs| == |g.vals| && n <= |g.kinds|
    requires forall k :: 0 <= k < n ==> g.kinds[k] == Leaf
    ensures Sweep(Chain(be, g), adjs, n) == adjs
  {
    forall k | 0 <= k < n ensures Chain(be, g)(adjs, k) == adjs {
      assert Fits(g, k);
      assert Targets(g, k) == [];
    }
    assert Idle(Chain(be, g), adjs, 0, n);
    SweepSkip(Chain(be, g), adjs, 0, n);
  }
}
