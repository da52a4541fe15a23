/**
 * The reverse pass of `grad()`: seed the output's adjoint with 1 and every
 * other with 0, then run the nodes' `chain()` from the newest down to the
 * oldest. The pass is stated for any step function first, so that its
 * properties rest only on what a step may touch; `Chain` is the step of a
 * recorded graph.
 */
module Reverse {
  import opened Graph

  /** One node's `chain()`: the adjoints after node k has run, given those before. */
  type Step = (seq<real>, nat) -> seq<real>

  /** Running nodes n-1, n-2, ..., 0 in turn. */
  ghost function Sweep(step: Step, adjs: seq<real>, n: nat): seq<real>
    decreases n
  {
    if n == 0 then adjs else Sweep(step, step(adjs, n - 1), n - 1)
  }

  /** Every step keeps the number of adjoints. */
  ghost predicate KeepsLength(step: Step)
  {
    forall b: seq<real>, k: nat :: |step(b, k)| == |b|
  }

  /** Node k never changes its own adjoint or a later one. */
  ghost predicate WritesBelow(step: Step)
    requires KeepsLength(step)
  {
    forall b: seq<real>, k: nat, j: nat :: k <= j < |b| ==> step(b, k)[j] == b[j]
  }

  lemma {:induction false} SweepLength(step: Step, adjs: seq<real>, n: nat)
    requires KeepsLength(step)
    ensures |Sweep(step, adjs, n)| == |adjs|
    decreases n
  {
    if n > 0 {
      SweepLength(step, step(adjs, n - 1), n - 1);
    }
  }

  /** The nodes below n leave the adjoints from n-1 upwards alone. */
  lemma {:induction false} SweepAbove(step: Step, adjs: seq<real>, n: nat, h: nat)
    requires KeepsLength(step) && WritesBelow(step)
    requires h < |adjs| && n <= h + 1
    ensures |Sweep(step, adjs, n)| == |adjs|
    ensures Sweep(step, adjs, n)[h] == adjs[h]
    decreases n
  {
    SweepLength(step, adjs, n);
    if n > 0 {
      SweepAbove(step, step(adjs, n - 1), n - 1, h);
    }
  }

  lemma {:induction false} SweepTop(step: Step, adjs: seq<real>, n: nat)
    requires 0 < n
    ensures Sweep(step, adjs, n) == Sweep(step, step(adjs, n - 1), n - 1)
  {
  }

  /** Nodes lo..n-1 leave the adjoints adjs as they are. */
  ghost predicate Idle(step: Step, adjs: seq<real>, lo: nat, n: nat)
  {
    forall k :: lo <= k < n ==> step(adjs, k) == adjs
  }

  /** Nodes lo..n-1 that leave the adjoints as they are can be skipped. */
  lemma {:induction false} SweepSkip(step: Step, adjs: seq<real>, lo: nat, n: nat)
    requires lo <= n && Idle(step, adjs, lo, n)
    ensures Sweep(step, adjs, n) == Sweep(step, adjs, lo)
    decreases n
  {
    if lo < n {
      SweepSkip(step, adjs, lo, n - 1);
    }
  }

  /** An adjoint no node below n writes into keeps its value through the pass. */
  lemma {:induction false} SweepUntouched(step: Step, adjs: seq<real>, n: nat, h: nat)
    requires KeepsLength(step) && h < |adjs|
    requires forall b: seq<real>, k: nat :: k < n && h < |b| ==> step(b, k)[h] == b[h]
    ensures |Sweep(step, adjs, n)| == |adjs|
    ensures Sweep(step, adjs, n)[h] == adjs[h]
    decreases n
  {
    SweepLength(step, adjs, n);
    if n > 0 {
      SweepUntouched(step, step(adjs, n - 1), n - 1, h);
    }
  }

  // ---------------------------------------------------------------------------
  // The pass over a recorded graph.

  /** The step of graph g: node k's `chain()` on adjoints of the graph's size. */
  ghost function Chain(be: Backend, g: Graph): Step
  {
    (a: seq<real>, k: nat) =>
      if Conforms(be) && Fits(g, k) && |a| == |g.vals| then ChainSpec(be, g, a, k) else a
  }

  lemma {:induction false} ChainIs(be: Backend, g: Graph, a: seq<real>, k: nat)
    requires Conforms(be) && Fits(g, k) && |a| == |g.vals|
    ensures Chain(be, g)(a, k) == ChainSpec(be, g, a, k)
  {
  }

  /** A graph's nodes only add into earlier nodes' adjoints. */
  lemma {:induction false} ChainWritesBelow(be: Backend, g: Graph)
    ensures KeepsLength(Chain(be, g)) && WritesBelow(Chain(be, g))
  {
    var step := Chain(be, g);
    forall b: seq<real>, k: nat ensures |step(b, k)| == |b| {
      if Conforms(be) && Fits(g, k) && |b| == |g.vals| {
        assert step(b, k) == ChainSpec(be, g, b, k);
      }
    }
    forall b: seq<real>, k: nat, j: nat | k <= j < |b| ensures step(b, k)[j] == b[j] {
      if Conforms(be) && Fits(g, k) && |b| == |g.vals| {
        ChainAdds(be, g, b, k, j);
      }
    }
  }

  /** The pass over a graph keeps one adjoint per node. */
  lemma {:induction false} ChainSweepLength(be: Backend, g: Graph, adjs: seq<real>, n: nat)
    ensures |Sweep(Chain(be, g), adjs, n)| == |adjs|
    decreases n
  {
    if n > 0 {
      var b := Chain(be, g)(adjs, n - 1);
      assert |b| == |adjs|;
      ChainSweepLength(be, g, b, n - 1);
    }
  }

  /** The pass over a graph leaves the adjoints from n-1 upwards alone. */
  lemma {:induction false} ChainSweepAbove(be: Backend, g: Graph, adjs: seq<real>, n: nat, h: nat)
    requires h < |adjs| && n <= h + 1
    ensures |Sweep(Chain(be, g), adjs, n)| == |adjs|
    ensures Sweep(Chain(be, g), adjs, n)[h] == adjs[h]
  {
    ChainWritesBelow(be, g);
    SweepAbove(Chain(be, g), adjs, n, h);
  }

  /** `grad(out)` over graph g: the adjoint of every node afterwards. */
  ghost function Grad(be: Backend, g: Graph, out: nat): (r: seq<real>)
    ensures |r| == |g.kinds|
  {
    ChainSweepLength(be, g, Seed(|g.kinds|, out), |g.kinds|);
    Sweep(Chain(be, g), Seed(|g.kinds|, out), |g.kinds|)
  }

  /** Only the nodes up to the output do any work: every adjoint above it is still zero when they run. */
  lemma {:induction false} GradFromOut(be: Backend, g: Graph, out: nat)
    requires Conforms(be) && GraphOk(g) && out < |g.kinds|
    ensures Grad(be, g, out) == Sweep(Chain(be, g), Seed(|g.kinds|, out), out + 1)
  {
    IdleAboveOut(be, g, out);
    GradSkip(be, g, out);
  }

  lemma {:induction false} GradSkip(be: Backend, g: Graph, out: nat)
    requires out < |g.kinds| && Idle(Chain(be, g), Seed(|g.kinds|, out), out + 1, |g.kinds|)
    ensures Grad(be, g, out) == Sweep(Chain(be, g), Seed(|g.kinds|, out), out + 1)
  {
    SweepSkip(Chain(be, g), Seed(|g.kinds|, out), out + 1, |g.kinds|);
  }

  lemma {:induction false} IdleAboveOut(be: Backend, g: Graph, out: nat)
    requires Conforms(be) && GraphOk(g) && out < |g.kinds|
    ensures Idle(Chain(be, g), Seed(|g.kinds|, out), out + 1, |g.kinds|)
  {
    var seed := Seed(|g.kinds|, out);
    forall k | out + 1 <= k < |g.kinds| ensures Chain(be, g)(seed, k) == seed {
      assert Fits(g, k);
      ChainIs(be, g, seed, k);
      ChainIdle(be, g, seed, k);
    }
  }

  /** The gradient of the newest node starts with that node's own `chain()` on the seed. */
  lemma {:induction false} GradNewest(be: Backend, g: Graph, out: nat)
    requires Conforms(be) && GraphOk(g) && out + 1 == |g.kinds|
    ensures Fits(g, out)
    ensures Grad(be, g, out) == Sweep(Chain(be, g), ChainSpec(be, g, Seed(out + 1, out), out), out)
  {
    assert Fits(g, out);
    SweepTop(Chain(be, g), Seed(out + 1, out), out + 1);
    ChainIs(be, g, Seed(out + 1, out), out);
  }

  /**
   * The output's own derivative is 1, and nothing recorded after the output
   * gets an adjoint.
   */
  lemma {:induction false} GradSelf(be: Backend, g: Graph, out: nat)
    requires Conforms(be) && GraphOk(g) && out < |g.kinds|
    ensures Grad(be, g, out)[out] == 1.0
    ensures forall h :: out < h < |g.kinds| ==> Grad(be, g, out)[h] == 0.0
  {
    GradAtOrAbove(be, g, out, out);
    forall h | out < h < |g.kinds| ensures Grad(be, g, out)[h] == 0.0 {
      GradAtOrAbove(be, g, out, h);
    }
  }

  lemma {:induction false} GradAtOrAbove(be: Backend, g: Graph, out: nat, h: nat)
    requires Conforms(be) && GraphOk(g) && out <= h < |g.kinds|
    ensures Grad(be, g, out)[h] == Seed(|g.kinds|, out)[h]
  {
    GradFromOut(be, g, out);
    GradAbove(be, g, out, h);
  }

  lemma {:induction false} GradAbove(be: Backend, g: Graph, out: nat, h: nat)
    requires out <= h < |g.kinds| && Grad(be, g, out) == Sweep(Chain(be, g), Seed(|g.kinds|, out), out + 1)
    ensures Grad(be, g, out)[h] == Seed(|g.kinds|, out)[h]
  {
    ChainSweepAbove(be, g, Seed(|g.kinds|, out), out + 1, h);
  }

  /** A handle no node writes into, other than the output, gets derivative 0. */
  lemma {:induction false} GradUntouched(be: Backend, g: Graph, out: nat, h: nat)
    requires Conforms(be) && GraphOk(g) && out < |g.kinds| && h < |g.kinds| && h != out
    requires forall k :: 0 <= k < |g.kinds| ==> h !in Targets(g, k)
    ensures Grad(be, g, out)[h] == 0.0
  {
    var step, n := Chain(be, g), |g.kinds|;
    ChainWritesBelow(be, g);
    forall b: seq<real>, k: nat | k < n && h < |b| ensures step(b, k)[h] == b[h] {
      if Fits(g, k) && |b| == |g.vals| {
        ChainUntouched(be, g, b, k, h);
      }
    }
    SweepUntouched(step, Seed(n, out), n, h);
  }
}
