/**
 * The expression graph that the reverse-mode matrix nodes record, as a value.
 *
 * A node is identified by its position on the tape (its handle). Its kind says
 * which `*_vari` class it is and where its operand arrays live: `refs` is the
 * arena of `vari*` arrays (handles), `dbls` the arena of `double` arrays. Two
 * nodes that share an operand array hold the same slice of `refs` (the row and
 * column sharing of `multiply`). `ChainSpec` is what one node's `chain()` does
 * to the adjoints.
 */
module Graph {
  import opened Wrappers
  import opened Adjoint
  import opened Primal
  import opened Layout
  import opened Dense

  /** An array of `len` entries starting at `start` in an arena. */
  datatype Slice = Slice(start: nat, len: nat)

  predicate Within(s: Slice, size: nat)
  {
    s.start + s.len <= size
  }

  function SliceOf<T>(xs: seq<T>, s: Slice): (r: seq<T>)
    requires Within(s, |xs|)
    ensures |r| == s.len && forall i {:trigger r[i]} :: 0 <= i < s.len ==> r[i] == xs[s.start + i]
  {
    seq(s.len, i requires 0 <= i < s.len => xs[s.start + i])
  }

  /** The middle part of a three-part arena is the slice that starts after the first. */
  lemma {:induction false} SliceOfMiddle<T>(xs: seq<T>, ys: seq<T>, zs: seq<T>)
    ensures Within(Slice(|xs|, |ys|), |xs + ys + zs|)
    ensures SliceOf(xs + ys + zs, Slice(|xs|, |ys|)) == ys
  {
  }

  /** A slice of the handle arena whose handles all lie below `bound`. */
  predicate Below(refs: seq<nat>, s: Slice, bound: nat)
  {
    Within(s, |refs|) && InRange(SliceOf(refs, s), bound)
  }

  /** first, first + 1, ..., first + len - 1. */
  function Range(first: nat, len: nat): (r: seq<nat>)
    ensures |r| == len && forall p :: 0 <= p < len ==> r[p] == first + p
  {
    seq(len, p requires 0 <= p => first + p)
  }

  /**
   * The node classes. Operand handle arrays are slices of `refs`, stored
   * double arrays slices of `dbls`.
   *  - Leaf: an input, a constant, or a result node of a solve (`new vari(x)`).
   *  - SumV: `sum_v_vari`; DotSelf: `dot_self_vari`;
   *    DotVV: `dot_product_vv_vari`; DotVD: `dot_product_vd_vari` (v2 in `dbls`).
   *  - Solve: the six `mdivide_left_*_vari` / `mdivide_left_tri_*_vari` classes:
   *    `a` is `_A` (m*m doubles), `c` is `_C` (the m*n solution), `refA` the packed
   *    `_variRefA` (absent for a double A), `refB` the `_variRefB` (absent for a
   *    double B), `refC` the result nodes `_variRefC`.
   *  - Det / LogDet: `determinant_vari` / `log_determinant_vari`.
   */
  datatype Kind =
    | Leaf
    | SumV(v: Slice)
    | DotSelf(v: Slice)
    | DotVV(v1: Slice, v2: Slice)
    | DotVD(v1: Slice, v2: Slice)
    | Solve(view: View, m: nat, n: nat, a: Slice, c: Slice,
            refA: Option<Slice>, refB: Option<Slice>, refC: Slice)
    | Det(m: nat, a: Slice, adjARef: Slice)
    | LogDet(m: nat, a: Slice, adjARef: Slice)

  /**
   * The dense double kernels the nodes call: `solve(view, m, A, B)` solves
   * A X = B for an m-by-m A (Full: a pivoted QR solve; Lower / Upper: a
   * triangular solve), `inverse`, `determinant`, `logAbsDeterminant`.
   * Their numerics are not modelled.
   */
  datatype Backend = Backend(
    solve: (View, nat, seq<real>, seq<real>) -> seq<real>,
    inverse: (nat, seq<real>) -> seq<real>,
    determinant: (nat, seq<real>) -> real,
    logAbsDeterminant: (nat, seq<real>) -> real)

  /**
   * What the model relies on of the kernels: a solve returns a matrix of the
   * right-hand side's shape and maps a zero right-hand side to zero (it is
   * linear), and an inverse has its argument's shape.
   */
  ghost predicate Conforms(be: Backend)
  {
    (forall view, m, a, b :: |be.solve(view, m, a, b)| == |b|)
    && (forall view, m, a, n :: be.solve(view, m, a, Zeros(n)) == Zeros(n))
    && (forall m, a :: |be.inverse(m, a)| == |a|)
  }

  /** The triangle a transposed triangular view keeps. */
  function Mirror(view: View): (r: View)
    ensures r == Full <==> view == Full
  {
    match view
    case Full => Full
    case Lower => Upper
    case Upper => Lower
  }

  /** `A.transpose().solve(rhs)` (Full) or `A.triangularView<view>().transpose().solve(rhs)`. */
  function SolveT(be: Backend, view: View, m: nat, a: seq<real>, rhs: seq<real>): (r: seq<real>)
    requires Conforms(be) && |a| == m * m
    ensures |r| == |rhs|
  {
    be.solve(Mirror(view), m, Transpose(Mat(m, m, a)).data, rhs)
  }

  /** `A.inverse().transpose()`. */
  function InverseT(be: Backend, m: nat, a: seq<real>): (r: seq<real>)
    requires Conforms(be) && |a| == m * m
    ensures |r| == m * m
  {
    Transpose(Mat(m, m, be.inverse(m, a))).data
  }

  /** The recorded state of the tape apart from the adjoints. */
  datatype Graph = Graph(vals: seq<real>, kinds: seq<Kind>, refs: seq<nat>, dbls: seq<real>)

  /**
   * Node k of n is well formed: its arrays lie in the arenas with the lengths
   * its class allocates, and every operand it writes into was recorded before
   * it (handles below k). The result nodes of a solve are the m*n nodes
   * recorded right after it.
   */
  ghost predicate NodeOk(kind: Kind, k: nat, n: nat, refs: seq<nat>, nd: nat)
  {
    k < n &&
    match kind
    case Leaf => true
    case SumV(v) => Below(refs, v, k)
    case DotSelf(v) => Below(refs, v, k)
    case DotVV(v1, v2) => v1.len == v2.len && Below(refs, v1, k) && Below(refs, v2, k)
    case DotVD(v1, v2) => v1.len == v2.len && Below(refs, v1, k) && Within(v2, nd)
    case Solve(view, m, cols, a, c, refA, refB, refC) =>
      && a.len == m * m && c.len == m * cols && Within(a, nd) && Within(c, nd)
      && (refA.Some? || refB.Some?)
      && (refA.Some? ==> refA.value.len == PackedSize(view, m) && Below(refs, refA.value, k))
      && (refB.Some? ==> refB.value.len == m * cols && Below(refs, refB.value, k))
      && refC.len == m * cols && Within(refC, |refs|) && SliceOf(refs, refC) == Range(k + 1, m * cols)
      && k + 1 + m * cols <= n
    case Det(m, a, refA) => a.len == m * m && Within(a, nd) && refA.len == m * m && Below(refs, refA, k)
    case LogDet(m, a, refA) => a.len == m * m && Within(a, nd) && refA.len == m * m && Below(refs, refA, k)
  }

  ghost predicate GraphOk(g: Graph)
  {
    && |g.vals| == |g.kinds|
    && forall k :: 0 <= k < |g.kinds| ==> Fits(g, k)
  }

  /** g2 is g with more nodes and arena entries appended, and nothing earlier changed. */
  ghost predicate Grows(g: Graph, g2: Graph)
  {
    && |g.vals| <= |g2.vals| && g2.vals[..|g.vals|] == g.vals
    && |g.kinds| <= |g2.kinds| && g2.kinds[..|g.kinds|] == g.kinds
    && |g.refs| <= |g2.refs| && g2.refs[..|g.refs|] == g.refs
    && |g.dbls| <= |g2.dbls| && g2.dbls[..|g.dbls|] == g.dbls
  }

  /** A slice reads the same once more entries are appended to its arena. */
  lemma {:induction false} SliceOfGrows<T>(xs: seq<T>, xs2: seq<T>, s: Slice)
    requires Within(s, |xs|) && |xs| <= |xs2| && xs2[..|xs|] == xs
    ensures SliceOf(xs2, s) == SliceOf(xs, s)
  {
    forall i | 0 <= i < s.len ensures SliceOf(xs2, s)[i] == SliceOf(xs, s)[i] {
      assert xs2[s.start + i] == xs2[..|xs|][s.start + i];
    }
  }

  lemma {:induction false} BelowGrows(refs: seq<nat>, refs2: seq<nat>, s: Slice, bound: nat)
    requires Within(s, |refs|) && |refs| <= |refs2| && refs2[..|refs|] == refs
    ensures SliceOf(refs2, s) == SliceOf(refs, s)
    ensures Below(refs, s, bound) ==> Below(refs2, s, bound)
  {
    forall i | 0 <= i < s.len ensures SliceOf(refs2, s)[i] == SliceOf(refs, s)[i] {
      assert refs2[s.start + i] == refs2[..|refs|][s.start + i];
    }
  }

  /** A node stays well formed when later nodes and arena entries are appended. */
  lemma {:induction false} NodeOkGrows(kind: Kind, k: nat, n: nat, refs: seq<nat>, nd: nat, n2: nat, refs2: seq<nat>, nd2: nat)
    requires NodeOk(kind, k, n, refs, nd)
    requires n <= n2 && nd <= nd2 && |refs| <= |refs2| && refs2[..|refs|] == refs
    ensures NodeOk(kind, k, n2, refs2, nd2)
  {
    match kind
    case Leaf =>
    case SumV(v) => BelowGrows(refs, refs2, v, k);
    case DotSelf(v) => BelowGrows(refs, refs2, v, k);
    case DotVV(v1, v2) =>
      BelowGrows(refs, refs2, v1, k);
      BelowGrows(refs, refs2, v2, k);
    case DotVD(v1, v2) => BelowGrows(refs, refs2, v1, k);
    case Solve(view, m, cols, a, c, refA, refB, refC) =>
      if refA.Some? { BelowGrows(refs, refs2, refA.value, k); }
      if refB.Some? { BelowGrows(refs, refs2, refB.value, k); }
      BelowGrows(refs, refs2, refC, k);
    case Det(m, a, refA) => BelowGrows(refs, refs2, refA, k);
    case LogDet(m, a, refA) => BelowGrows(refs, refs2, refA, k);
  }

  /** Appending well-formed nodes to a well-formed graph keeps it well formed. */
  lemma {:induction false} ExtendOk(g: Graph, g2: Graph)
    requires GraphOk(g) && Grows(g, g2) && |g2.vals| == |g2.kinds|
    requires forall k :: |g.kinds| <= k < |g2.kinds| ==> NodeOk(g2.kinds[k], k, |g2.kinds|, g2.refs, |g2.dbls|)
    ensures GraphOk(g2)
  {
    forall k | 0 <= k < |g2.kinds| ensures Fits(g2, k) {
      if k < |g.kinds| {
        assert Fits(g, k);
        assert g2.kinds[k] == g2.kinds[..|g.kinds|][k];
        NodeOkGrows(g.kinds[k], k, |g.kinds|, g.refs, |g.dbls|, |g2.kinds|, g2.refs, |g2.dbls|);
      }
    }
  }

  /** Node k exists and is well formed; what one node's `chain()` needs. */
  ghost predicate Fits(g: Graph, k: nat)
  {
    k < |g.kinds| && |g.vals| == |g.kinds| && NodeOk(g.kinds[k], k, |g.kinds|, g.refs, |g.dbls|)
  }

  /** The handles of an optional operand array (none for a double operand). */
  function OptSlice(refs: seq<nat>, s: Option<Slice>): (r: seq<nat>)
    requires s.Some? ==> Within(s.value, |refs|)
    ensures |r| == if s.Some? then s.value.len else 0
  {
    if s.Some? then SliceOf(refs, s.value) else []
  }

  /** The operand handles node k's `chain()` adds into, in the order it visits them. */
  function Targets(g: Graph, k: nat): (r: seq<nat>)
    requires Fits(g, k)
    ensures InRange(r, k)
  {
    match g.kinds[k]
    case Leaf => []
    case SumV(v) => SliceOf(g.refs, v)
    case DotSelf(v) => SliceOf(g.refs, v)
    case DotVV(v1, v2) =>
      InterleaveInRange(SliceOf(g.refs, v1), SliceOf(g.refs, v2), k);
      Interleave(SliceOf(g.refs, v1), SliceOf(g.refs, v2))
    case DotVD(v1, _) => SliceOf(g.refs, v1)
    case Solve(_, _, _, _, _, refA, refB, _) => OptSlice(g.refs, refA) + OptSlice(g.refs, refB)
    case Det(_, _, refA) => SliceOf(g.refs, refA)
    case LogDet(_, _, refA) => SliceOf(g.refs, refA)
  }

  /** adjB = A^-T adjC, the adjoint of the right-hand side. */
  function AdjB(be: Backend, view: View, m: nat, av: seq<real>, adjC: seq<real>): (r: seq<real>)
    requires Conforms(be) && |av| == m * m
    ensures |r| == |adjC|
  {
    SolveT(be, view, m, av, adjC)
  }

  /**
   * adjA: -adjB C^T when B is a var matrix, and -A^-T (adjC C^T) when B is
   * a double matrix (the `vd` classes).
   */
  function AdjA(be: Backend, view: View, m: nat, n: nat, av: seq<real>, cv: seq<real>, adjC: seq<real>, varB: bool): (r: seq<real>)
    requires Conforms(be) && |av| == m * m && |cv| == m * n && |adjC| == m * n
    ensures |r| == m * m
  {
    if varB then Neg(MulT(m, n, AdjB(be, view, m, av, adjC), cv))
    else Neg(SolveT(be, view, m, av, MulT(m, n, adjC, cv)))
  }

  /** The amounts node k's `chain()` adds, one per entry of Targets(g, k). */
  function Deltas(be: Backend, g: Graph, adjs: seq<real>, k: nat): (r: seq<real>)
    requires Conforms(be) && Fits(g, k) && |adjs| == |g.vals|
    ensures |r| == |Targets(g, k)|
  {
    var adj := adjs[k];
    match g.kinds[k]
    case Leaf => []
    case SumV(v) => Fill(v.len, adj)
    case DotSelf(v) => Scale(adj * 2.0, Gather(g.vals, SliceOf(g.refs, v)))
    case DotVV(v1, v2) =>
      Interleave(Scale(adj, Gather(g.vals, SliceOf(g.refs, v2))), Scale(adj, Gather(g.vals, SliceOf(g.refs, v1))))
    case DotVD(v1, v2) => Scale(adj, SliceOf(g.dbls, v2))
    case Solve(_, _, _, _, _, _, _, _) => SolveDeltas(be, g, adjs, k)
    case Det(m, a, _) => DetDeltas(adj, g.vals[k], InverseT(be, m, SliceOf(g.dbls, a)))
    case LogDet(m, a, _) => Scale(adj, InverseT(be, m, SliceOf(g.dbls, a)))
  }

  /** `(adj * val) * A^-T`: the amounts a determinant node adds. */
  function DetDeltas(adj: real, val: real, inverseT: seq<real>): (r: seq<real>)
    ensures |r| == |inverseT|
  {
    Scale(adj * val, inverseT)
  }

  /** A solve node's adjC: the adjoints of its result nodes. */
  function SolveAdjC(g: Graph, adjs: seq<real>, k: nat): (r: seq<real>)
    requires Fits(g, k) && |adjs| == |g.vals| && g.kinds[k].Solve?
    ensures |r| == g.kinds[k].m * g.kinds[k].n
  {
    assert NodeOk(g.kinds[k], k, |g.kinds|, g.refs, |g.dbls|);
    Gather(adjs, SliceOf(g.refs, g.kinds[k].refC))
  }

  /** A solve node's adjA (m*m, column-major), from its stored A and C. */
  function SolveAdjA(be: Backend, g: Graph, adjs: seq<real>, k: nat): (r: seq<real>)
    requires Conforms(be) && Fits(g, k) && |adjs| == |g.vals| && g.kinds[k].Solve?
    ensures |r| == g.kinds[k].m * g.kinds[k].m
  {
    var K := g.kinds[k];
    assert NodeOk(K, k, |g.kinds|, g.refs, |g.dbls|);
    AdjA(be, K.view, K.m, K.n, SliceOf(g.dbls, K.a), SliceOf(g.dbls, K.c), SolveAdjC(g, adjs, k), K.refB.Some?)
  }

  /** A solve node's adjB (m*n, column-major). */
  function SolveAdjB(be: Backend, g: Graph, adjs: seq<real>, k: nat): (r: seq<real>)
    requires Conforms(be) && Fits(g, k) && |adjs| == |g.vals| && g.kinds[k].Solve?
    ensures |r| == g.kinds[k].m * g.kinds[k].n
  {
    var K := g.kinds[k];
    assert NodeOk(K, k, |g.kinds|, g.refs, |g.dbls|);
    AdjB(be, K.view, K.m, SliceOf(g.dbls, K.a), SolveAdjC(g, adjs, k))
  }

  /**
   * The amounts a solve node adds: adjA's entries in the packing order of
   * `_variRefA` (all cells, or the triangle), then adjB in column-major order.
   */
  function SolveDeltas(be: Backend, g: Graph, adjs: seq<real>, k: nat): (r: seq<real>)
    requires Conforms(be) && Fits(g, k) && |adjs| == |g.vals| && g.kinds[k].Solve?
    ensures |r| == |OptSlice(g.refs, g.kinds[k].refA)| + |OptSlice(g.refs, g.kinds[k].refB)|
  {
    var K := g.kinds[k];
    assert NodeOk(K, k, |g.kinds|, g.refs, |g.dbls|);
    CellsAddressable(K.view, K.m, K.m);
    CellsSquareLength(K.view, K.m);
    (if K.refA.Some? then Pick(SolveAdjA(be, g, adjs, k), K.m, Cells(K.view, K.m, K.m)) else [])
      + (if K.refB.Some? then SolveAdjB(be, g, adjs, k) else [])
  }

  /** The adjoints after node k's `chain()`: `adj[t] += d` for each target t and amount d. */
  function ChainSpec(be: Backend, g: Graph, adjs: seq<real>, k: nat): (r: seq<real>)
    requires Conforms(be) && Fits(g, k) && |adjs| == |g.vals|
    ensures |r| == |adjs|
  {
    AddAt(adjs, Targets(g, k), Deltas(be, g, adjs, k))
  }

  /** All adjoints zero except the output's, which is one. */
  function Seed(n: nat, out: nat): (r: seq<real>)
    ensures |r| == n && forall h :: 0 <= h < n ==> r[h] == if h == out then 1.0 else 0.0
  {
    seq(n, h => if h == out then 1.0 else 0.0)
  }

  // ---------------------------------------------------------------------------
  // What one chain() does.

  /**
   * A `chain()` only adds into adjoints: every slot ends at its old value plus
   * what was aimed at it, and the node's own adjoint and every later one are
   * left alone.
   */
  lemma {:induction false} ChainAdds(be: Backend, g: Graph, adjs: seq<real>, k: nat, h: nat)
    requires Conforms(be) && Fits(g, k) && |adjs| == |g.vals| && h < |adjs|
    ensures ChainSpec(be, g, adjs, k)[h] == adjs[h] + SumWhere(Targets(g, k), Deltas(be, g, adjs, k), h)
    ensures k <= h ==> ChainSpec(be, g, adjs, k)[h] == adjs[h]
  {
    var ts, ds := Targets(g, k), Deltas(be, g, adjs, k);
    AddAtIs(adjs, ts, ds, h);
    if k <= h {
      SumWhereAbsent(ts, ds, h);
    }
  }

  /** How often h occurs among hs. */
  function Count(hs: seq<nat>, h: nat): (r: nat)
    ensures r <= |hs|
    decreases |hs|
  {
    if |hs| == 0 then 0 else Count(hs[..|hs| - 1], h) + (if hs[|hs| - 1] == h then 1 else 0)
  }

  /** w added c times. */
  function Times(c: nat, w: real): real
  {
    if c == 0 then 0.0 else Times(c - 1, w) + w
  }

  /** Adding w c times is multiplying w by c. */
  lemma {:induction false} TimesIsProduct(c: nat, w: real)
    ensures Times(c, w) == w * c as real
  {
    if c > 0 {
      TimesIsProduct(c - 1, w);
      MulSuccReal(w, (c - 1) as real, c as real);
    }
  }

  lemma {:induction false} MulSuccReal(w: real, a: real, c: real)
    requires c == a + 1.0
    ensures w * c == w * a + w
  {
  }

  /** When every amount is w, h receives w once per occurrence. */
  lemma {:induction false} SumWhereConst(hs: seq<nat>, w: real, h: nat)
    ensures SumWhere(hs, Fill(|hs|, w), h) == Times(Count(hs, h), w)
    decreases |hs|
  {
    if |hs| > 0 {
      var n := |hs| - 1;
      assert Fill(|hs|, w)[..n] == Fill(n, w);
      SumWhereConst(hs[..n], w, h);
    }
  }

  /** `sum_v_vari::chain`: each operand occurrence gets `+= adj`. */
  lemma {:induction false} SumVChain(be: Backend, g: Graph, adjs: seq<real>, k: nat, h: nat)
    requires Conforms(be) && Fits(g, k) && |adjs| == |g.vals| && h < |adjs|
    requires g.kinds[k].SumV?
    ensures Below(g.refs, g.kinds[k].v, k)
    ensures ChainSpec(be, g, adjs, k)[h] == adjs[h] + adjs[k] * Count(SliceOf(g.refs, g.kinds[k].v), h) as real
  {
    assert NodeOk(g.kinds[k], k, |g.kinds|, g.refs, |g.dbls|);
    ChainAdds(be, g, adjs, k, h);
    SumWhereConst(SliceOf(g.refs, g.kinds[k].v), adjs[k], h);
    TimesIsProduct(Count(SliceOf(g.refs, g.kinds[k].v), h), adjs[k]);
  }

  /** With no repeated target, target i receives exactly amount i. */
  lemma {:induction false} ChainAt(be: Backend, g: Graph, adjs: seq<real>, k: nat, i: nat)
    requires Conforms(be) && Fits(g, k) && |adjs| == |g.vals|
    requires i < |Targets(g, k)| && Distinct(Targets(g, k))
    ensures ChainSpec(be, g, adjs, k)[Targets(g, k)[i]] == adjs[Targets(g, k)[i]] + Deltas(be, g, adjs, k)[i]
  {
    AddAtDistinct(adjs, Targets(g, k), Deltas(be, g, adjs, k), i);
  }

  /** A handle that is not a target keeps its adjoint. */
  lemma {:induction false} ChainUntouched(be: Backend, g: Graph, adjs: seq<real>, k: nat, h: nat)
    requires Conforms(be) && Fits(g, k) && |adjs| == |g.vals| && h < |adjs|
    requires h !in Targets(g, k)
    ensures ChainSpec(be, g, adjs, k)[h] == adjs[h]
  {
    AddAtUntouched(adjs, Targets(g, k), Deltas(be, g, adjs, k), h);
  }

  /**
   * Walking targets s with amounts `c * 2 * value`, as `dot_self_vari::chain`
   * does with its own adjoint c.
   */
  function SquareAdd(a: seq<real>, vals: seq<real>, s: seq<nat>, c: real): (r: seq<real>)
    requires InRange(s, |a|) && InRange(s, |vals|)
    ensures |r| == |a|
  {
    AddAt(a, s, Scale(c * 2.0, Gather(vals, s)))
  }

  /** With no operand repeated, operand i gets `+= c * 2 * value`. */
  lemma {:induction false} SquareAddAt(a: seq<real>, vals: seq<real>, s: seq<nat>, c: real, i: nat)
    requires InRange(s, |a|) && InRange(s, |vals|) && i < |s| && Distinct(s)
    ensures SquareAdd(a, vals, s, c)[s[i]] == a[s[i]] + c * 2.0 * vals[s[i]]
  {
    var d := Scale(c * 2.0, Gather(vals, s));
    assert d[i] == c * 2.0 * vals[s[i]];
    AddAtDistinct(a, s, d, i);
  }

  /** A handle that is no operand keeps its adjoint. */
  lemma {:induction false} SquareAddUntouched(a: seq<real>, vals: seq<real>, s: seq<nat>, c: real, h: nat)
    requires InRange(s, |a|) && InRange(s, |vals|) && h < |a| && h !in s
    ensures SquareAdd(a, vals, s, c)[h] == a[h]
  {
    AddAtUntouched(a, s, Scale(c * 2.0, Gather(vals, s)), h);
  }

  /** `dot_self_vari::chain`: the operands get `+= adj * 2 * value` in turn. */
  lemma {:induction false} DotSelfChain(be: Backend, g: Graph, adjs: seq<real>, k: nat)
    requires Conforms(be) && Fits(g, k) && |adjs| == |g.vals|
    requires g.kinds[k].DotSelf?
    ensures Below(g.refs, g.kinds[k].v, k) && InRange(SliceOf(g.refs, g.kinds[k].v), |adjs|)
    ensures ChainSpec(be, g, adjs, k) == SquareAdd(adjs, g.vals, SliceOf(g.refs, g.kinds[k].v), adjs[k])
  {
    assert NodeOk(g.kinds[k], k, |g.kinds|, g.refs, |g.dbls|);
  }


  /** Two operand arrays with no handle repeated within or between them. */
  predicate Separate(s1: seq<nat>, s2: seq<nat>)
  {
    Distinct(s1) && Distinct(s2) && Disjoint(s1, s2)
  }

  /**
   * Walking two operand arrays pairwise, as `dot_product_vv_vari::chain` does:
   * operand i of side one gets `+= c * vals[s2[i]]`, then operand i of side
   * two gets `+= c * vals[s1[i]]`.
   */
  function PairwiseAdd(a: seq<real>, vals: seq<real>, s1: seq<nat>, s2: seq<nat>, c: real): (r: seq<real>)
    requires |s1| == |s2| && InRange(s1, |a|) && InRange(s2, |a|) && InRange(s1, |vals|) && InRange(s2, |vals|)
    ensures |r| == |a|
  {
    InterleaveInRange(s1, s2, |a|);
    AddAt(a, Interleave(s1, s2), Interleave(Scale(c, Gather(vals, s2)), Scale(c, Gather(vals, s1))))
  }

  /**
   * With no handle repeated within or between the two arrays, operand i of
   * each side gets c times operand i of the other side.
   */
  lemma {:induction false} PairwiseAddAt(a: seq<real>, vals: seq<real>, s1: seq<nat>, s2: seq<nat>, c: real, i: nat)
    requires |s1| == |s2| && InRange(s1, |a|) && InRange(s2, |a|) && InRange(s1, |vals|) && InRange(s2, |vals|)
    requires i < |s1| && Separate(s1, s2)
    ensures PairwiseAdd(a, vals, s1, s2, c)[s1[i]] == a[s1[i]] + c * vals[s2[i]]
    ensures PairwiseAdd(a, vals, s1, s2, c)[s2[i]] == a[s2[i]] + c * vals[s1[i]]
  {
    var d1, d2 := Scale(c, Gather(vals, s2)), Scale(c, Gather(vals, s1));
    assert d1[i] == c * vals[s2[i]];
    assert d2[i] == c * vals[s1[i]];
    PairedAt(a, s1, s2, d1, d2, i);
  }

  /** A handle on neither side keeps its adjoint. */
  lemma {:induction false} PairwiseAddUntouched(a: seq<real>, vals: seq<real>, s1: seq<nat>, s2: seq<nat>, c: real, h: nat)
    requires |s1| == |s2| && InRange(s1, |a|) && InRange(s2, |a|) && InRange(s1, |vals|) && InRange(s2, |vals|)
    requires h < |a| && h !in s1 && h !in s2
    ensures PairwiseAdd(a, vals, s1, s2, c)[h] == a[h]
  {
    InterleaveInRange(s1, s2, |a|);
    InterleaveAbsent(s1, s2, h);
    AddAtUntouched(a, Interleave(s1, s2), Interleave(Scale(c, Gather(vals, s2)), Scale(c, Gather(vals, s1))), h);
  }

  /**
   * `dot_product_vv_vari::chain` is the pairwise walk over its two operand
   * arrays with c = adj.
   */
  lemma {:induction false} DotVVChain(be: Backend, g: Graph, adjs: seq<real>, k: nat)
    requires Conforms(be) && Fits(g, k) && |adjs| == |g.vals|
    requires g.kinds[k].DotVV?
    ensures g.kinds[k].v1.len == g.kinds[k].v2.len
    ensures Below(g.refs, g.kinds[k].v1, k) && Below(g.refs, g.kinds[k].v2, k)
    ensures InRange(SliceOf(g.refs, g.kinds[k].v1), |adjs|) && InRange(SliceOf(g.refs, g.kinds[k].v2), |adjs|)
    ensures ChainSpec(be, g, adjs, k) == PairwiseAdd(adjs, g.vals, SliceOf(g.refs, g.kinds[k].v1), SliceOf(g.refs, g.kinds[k].v2), adjs[k])
  {
    assert NodeOk(g.kinds[k], k, |g.kinds|, g.refs, |g.dbls|);
  }

  /**
   * `dot_product_vd_vari::chain`: only the var side receives adjoint; with no
   * operand repeated, operand i gets `+= adj * d[i]` for the stored double d[i].
   */
  lemma {:induction false} DotVDChain(be: Backend, g: Graph, adjs: seq<real>, k: nat, i: nat, h: nat)
    requires Conforms(be) && Fits(g, k) && |adjs| == |g.vals| && h < |adjs|
    requires g.kinds[k].DotVD? && i < g.kinds[k].v1.len
    ensures Below(g.refs, g.kinds[k].v1, k) && Within(g.kinds[k].v2, |g.dbls|)
    ensures g.kinds[k].v1.len == g.kinds[k].v2.len
    ensures h !in SliceOf(g.refs, g.kinds[k].v1) ==> ChainSpec(be, g, adjs, k)[h] == adjs[h]
    ensures
      var s := SliceOf(g.refs, g.kinds[k].v1);
      Distinct(s) ==> ChainSpec(be, g, adjs, k)[s[i]] == adjs[s[i]] + adjs[k] * g.dbls[g.kinds[k].v2.start + i]
  {
    assert NodeOk(g.kinds[k], k, |g.kinds|, g.refs, |g.dbls|);
    var s := SliceOf(g.refs, g.kinds[k].v1);
    var d := Scale(adjs[k], SliceOf(g.dbls, g.kinds[k].v2));
    assert Targets(g, k) == s;
    assert Deltas(be, g, adjs, k) == d;
    if h !in s {
      ChainUntouched(be, g, adjs, k, h);
    }
    if Distinct(s) {
      assert d[i] == adjs[k] * g.dbls[g.kinds[k].v2.start + i];
      ChainAt(be, g, adjs, k, i);
    }
  }

  /**
   * `refs[s]` holds the handles of the m-by-m var matrix ah packed in the
   * view's visiting order: the layout of a solve's `_variRefA`.
   */
  ghost predicate Packs(refs: seq<nat>, s: Slice, view: View, ah: Mat<nat>)
  {
    && Shaped(ah) && ah.rows == ah.cols && Within(s, |refs|)
    && (CellsAddressable(view, ah.rows, ah.rows);
        SliceOf(refs, s) == Pick(ah.data, ah.rows, Cells(view, ah.rows, ah.rows)))
  }

  /** Packing a matrix with distinct handles gives distinct handles. */
  lemma {:induction false} PackedDistinct(view: View, ah: Mat<nat>)
    requires Shaped(ah) && ah.rows == ah.cols && Distinct(ah.data)
    ensures Addressable(Cells(view, ah.rows, ah.rows), ah.rows, |ah.data|)
    ensures Distinct(Pick(ah.data, ah.rows, Cells(view, ah.rows, ah.rows)))
  {
    var m := ah.rows;
    var cells := Cells(view, m, m);
    CellsAddressable(view, m, m);
    var sa := Pick(ah.data, m, cells);
    forall x, y | 0 <= x < y < |sa| ensures sa[x] != sa[y] {
      CellsDistinct(view, m, m, x, y);
      CellsInside(view, m, m, x);
      CellsInside(view, m, m, y);
      var ix, iy := Idx(m, cells[x].i, cells[x].j), Idx(m, cells[y].i, cells[y].j);
      if ix == iy {
        IdxInjective(m, cells[x].i, cells[x].j, cells[y].i, cells[y].j);
      } else if ix < iy {
        DistinctAt(ah.data, ix, iy);
      } else {
        DistinctAt(ah.data, iy, ix);
      }
      assert sa[x] == ah.data[ix] && sa[y] == ah.data[iy];
    }
    DistinctIntro(sa);
  }

  /** A cell outside the view's triangle is not packed: its handle is absent. */
  lemma {:induction false} PackedOmits(view: View, ah: Mat<nat>, i: nat, j: nat)
    requires Shaped(ah) && ah.rows == ah.cols && Distinct(ah.data)
    requires i < ah.rows && j < ah.rows && !InView(view, Cell(i, j))
    ensures Addressable(Cells(view, ah.rows, ah.rows), ah.rows, |ah.data|)
    ensures At(ah, i, j) !in Pick(ah.data, ah.rows, Cells(view, ah.rows, ah.rows))
  {
    var m := ah.rows;
    var cells := Cells(view, m, m);
    CellsAddressable(view, m, m);
    IdxBound(m, m, i, j);
    var sa := Pick(ah.data, m, cells);
    forall p | 0 <= p < |sa| ensures sa[p] != ah.data[Idx(m, i, j)] {
      CellsInside(view, m, m, p);
      var ip := Idx(m, cells[p].i, cells[p].j);
      var iq := Idx(m, i, j);
      if ip == iq {
        IdxInjective(m, cells[p].i, cells[p].j, i, j);
      } else if ip < iq {
        DistinctAt(ah.data, ip, iq);
      } else {
        DistinctAt(ah.data, iq, ip);
      }
      assert sa[p] == ah.data[ip];
    }
  }

  /** A cell inside the view's triangle is packed at some position p. */
  lemma {:induction false} PackedHolds(view: View, ah: Mat<nat>, i: nat, j: nat) returns (p: nat)
    requires Shaped(ah) && ah.rows == ah.cols
    requires i < ah.rows && j < ah.rows && InView(view, Cell(i, j))
    ensures Addressable(Cells(view, ah.rows, ah.rows), ah.rows, |ah.data|)
    ensures p < |Cells(view, ah.rows, ah.rows)| && Cells(view, ah.rows, ah.rows)[p] == Cell(i, j)
    ensures Pick(ah.data, ah.rows, Cells(view, ah.rows, ah.rows))[p] == At(ah, i, j)
  {
    var m := ah.rows;
    CellsAddressable(view, m, m);
    CellsCover(view, m, m, Cell(i, j));
    p :| 0 <= p < |Cells(view, m, m)| && Cells(view, m, m)[p] == Cell(i, j);
  }

  /**
   * The A side of the solve `chain()`s: for a var A with distinct handles, a
   * cell inside the view's triangle gets `+= adjA(i, j)`, and a cell outside
   * it (the triangle the triangular classes never read) gets nothing, for any
   * handle that is not also a B operand.
   */
  lemma {:induction false} SolveChainA(be: Backend, g: Graph, adjs: seq<real>, k: nat, ah: Mat<nat>, i: nat, j: nat)
    requires Conforms(be) && Fits(g, k) && |adjs| == |g.vals|
    requires g.kinds[k].Solve? && g.kinds[k].refA.Some?
    requires Packs(g.refs, g.kinds[k].refA.value, g.kinds[k].view, ah) && ah.rows == g.kinds[k].m
    requires Distinct(ah.data) && InRange(ah.data, |adjs|)
    requires i < ah.rows && j < ah.rows
    requires g.kinds[k].refB.Some? ==> Within(g.kinds[k].refB.value, |g.refs|)
    requires At(ah, i, j) !in OptSlice(g.refs, g.kinds[k].refB)
    ensures Idx(ah.rows, i, j) < ah.rows * ah.rows
    ensures InView(g.kinds[k].view, Cell(i, j))
            ==> ChainSpec(be, g, adjs, k)[At(ah, i, j)] == adjs[At(ah, i, j)] + SolveAdjA(be, g, adjs, k)[Idx(ah.rows, i, j)]
    ensures !InView(g.kinds[k].view, Cell(i, j)) ==> ChainSpec(be, g, adjs, k)[At(ah, i, j)] == adjs[At(ah, i, j)]
  {
    var K := g.kinds[k];
    var m := K.m;
    assert NodeOk(K, k, |g.kinds|, g.refs, |g.dbls|);
    IdxBound(m, m, i, j);
    CellsAddressable(K.view, m, m);
    CellsSquareLength(K.view, m);
    var sa, sb := OptSlice(g.refs, K.refA), OptSlice(g.refs, K.refB);
    var ds := SolveDeltas(be, g, adjs, k);
    var da := Pick(SolveAdjA(be, g, adjs, k), m, Cells(K.view, m, m));
    var db := if K.refB.Some? then SolveAdjB(be, g, adjs, k) else [];
    assert Targets(g, k) == sa + sb;
    assert Deltas(be, g, adjs, k) == da + db;
    ChainAdds(be, g, adjs, k, At(ah, i, j));
    PackedSumA(K.view, ah, i, j, SolveAdjA(be, g, adjs, k), sa, da, sb, db);
  }

  /**
   * Where the packed A handles sa, with amounts da picked from the m-by-m
   * adjA by the same cells, followed by B handles sb that miss A(i, j), send
   * A(i, j): its cell of adjA inside the view, nothing outside it.
   */
  lemma {:induction false} PackedSumA(view: View, ah: Mat<nat>, i: nat, j: nat, adjA: seq<real>,
                                      sa: seq<nat>, da: seq<real>, sb: seq<nat>, db: seq<real>)
    requires Shaped(ah) && ah.rows == ah.cols && Distinct(ah.data) && i < ah.rows && j < ah.rows
    requires |adjA| == ah.rows * ah.rows && Addressable(Cells(view, ah.rows, ah.rows), ah.rows, |adjA|)
    requires Addressable(Cells(view, ah.rows, ah.rows), ah.rows, |ah.data|)
    requires sa == Pick(ah.data, ah.rows, Cells(view, ah.rows, ah.rows))
    requires da == Pick(adjA, ah.rows, Cells(view, ah.rows, ah.rows))
    requires |sb| == |db| && At(ah, i, j) !in sb
    ensures Idx(ah.rows, i, j) < |adjA|
    ensures SumWhere(sa + sb, da + db, At(ah, i, j)) == if InView(view, Cell(i, j)) then adjA[Idx(ah.rows, i, j)] else 0.0
  {
    var h := At(ah, i, j);
    IdxBound(ah.rows, ah.rows, i, j);
    SumWhereConcat(sa, da, sb, db, h);
    SumWhereAbsent(sb, db, h);
    if InView(view, Cell(i, j)) {
      var p := PackedHolds(view, ah, i, j);
      PackedDistinct(view, ah);
      SumWhereDistinct(sa, da, p);
    } else {
      PackedOmits(view, ah, i, j);
      SumWhereAbsent(sa, da, h);
    }
  }

  /**
   * The B side of the solve `chain()`s: for a var B with distinct handles,
   * entry p of `_variRefB` gets `+= adjB[p]` (column-major), for any handle
   * that is not also an A operand.
   */
  lemma {:induction false} SolveChainB(be: Backend, g: Graph, adjs: seq<real>, k: nat, p: nat)
    requires Conforms(be) && Fits(g, k) && |adjs| == |g.vals|
    requires g.kinds[k].Solve? && g.kinds[k].refB.Some? && Within(g.kinds[k].refB.value, |g.refs|)
    requires g.kinds[k].refA.Some? ==> Within(g.kinds[k].refA.value, |g.refs|)
    requires p < g.kinds[k].refB.value.len && Distinct(SliceOf(g.refs, g.kinds[k].refB.value))
    requires SliceOf(g.refs, g.kinds[k].refB.value)[p] !in OptSlice(g.refs, g.kinds[k].refA)
    ensures p < |SolveAdjB(be, g, adjs, k)|
    ensures var h := SliceOf(g.refs, g.kinds[k].refB.value)[p];
            h < |adjs| && ChainSpec(be, g, adjs, k)[h] == adjs[h] + SolveAdjB(be, g, adjs, k)[p]
  {
    var K := g.kinds[k];
    assert NodeOk(K, k, |g.kinds|, g.refs, |g.dbls|);
    CellsAddressable(K.view, K.m, K.m);
    CellsSquareLength(K.view, K.m);
    var sa, sb := OptSlice(g.refs, K.refA), OptSlice(g.refs, K.refB);
    var da := if K.refA.Some? then Pick(SolveAdjA(be, g, adjs, k), K.m, Cells(K.view, K.m, K.m)) else [];
    var db := SolveAdjB(be, g, adjs, k);
    assert Targets(g, k) == sa + sb;
    assert Deltas(be, g, adjs, k) == da + db;
    var h := sb[p];
    ChainAdds(be, g, adjs, k, h);
    SumWhereConcat(sa, da, sb, db, h);
    SumWhereAbsent(sa, da, h);
    SumWhereDistinct(sb, db, p);
  }

  /** Walking targets s with amounts c * d[i], as the `chain()`s that scale a stored array do. */
  function ScaledAdd(a: seq<real>, s: seq<nat>, c: real, d: seq<real>): (r: seq<real>)
    requires |s| == |d| && InRange(s, |a|)
    ensures |r| == |a|
  {
    AddAt(a, s, Scale(c, d))
  }

  /** With no target repeated, target i gets `+= c * d[i]`. */
  lemma {:induction false} ScaledAddAt(a: seq<real>, s: seq<nat>, c: real, d: seq<real>, i: nat)
    requires |s| == |d| && InRange(s, |a|) && i < |s| && Distinct(s)
    ensures ScaledAdd(a, s, c, d)[s[i]] == a[s[i]] + c * d[i]
  {
    AddAtDistinct(a, s, Scale(c, d), i);
  }

  /** A handle that is no target keeps its adjoint. */
  lemma {:induction false} ScaledAddUntouched(a: seq<real>, s: seq<nat>, c: real, d: seq<real>, h: nat)
    requires |s| == |d| && InRange(s, |a|) && h < |a| && h !in s
    ensures ScaledAdd(a, s, c, d)[h] == a[h]
  {
    AddAtUntouched(a, s, Scale(c, d), h);
  }

  /**
   * `determinant_vari::chain`: cell i (column-major) of A gets
   * `+= (adj * val) * A^-T[i]`, the derivative of the determinant.
   */
  lemma {:induction false} DetChain(be: Backend, g: Graph, adjs: seq<real>, k: nat)
    requires Conforms(be) && Fits(g, k) && |adjs| == |g.vals|
    requires g.kinds[k].Det?
    ensures Below(g.refs, g.kinds[k].adjARef, k) && InRange(SliceOf(g.refs, g.kinds[k].adjARef), |adjs|)
    ensures Within(g.kinds[k].a, |g.dbls|) && g.kinds[k].a.len == g.kinds[k].m * g.kinds[k].m
    ensures g.kinds[k].adjARef.len == g.kinds[k].m * g.kinds[k].m
    ensures ChainSpec(be, g, adjs, k)
            == AddAt(adjs, SliceOf(g.refs, g.kinds[k].adjARef),
                     DetDeltas(adjs[k], g.vals[k], InverseT(be, g.kinds[k].m, SliceOf(g.dbls, g.kinds[k].a))))
  {
    assert NodeOk(g.kinds[k], k, |g.kinds|, g.refs, |g.dbls|);
  }

  /** `log_determinant_vari::chain`: cell i of A gets `+= adj * A^-T[i]`. */
  lemma {:induction false} LogDetChain(be: Backend, g: Graph, adjs: seq<real>, k: nat)
    requires Conforms(be) && Fits(g, k) && |adjs| == |g.vals|
    requires g.kinds[k].LogDet?
    ensures Below(g.refs, g.kinds[k].adjARef, k) && InRange(SliceOf(g.refs, g.kinds[k].adjARef), |adjs|)
    ensures Within(g.kinds[k].a, |g.dbls|) && g.kinds[k].a.len == g.kinds[k].m * g.kinds[k].m
    ensures g.kinds[k].adjARef.len == g.kinds[k].m * g.kinds[k].m
    ensures ChainSpec(be, g, adjs, k)
            == ScaledAdd(adjs, SliceOf(g.refs, g.kinds[k].adjARef), adjs[k],
                         InverseT(be, g.kinds[k].m, SliceOf(g.dbls, g.kinds[k].a)))
  {
    assert NodeOk(g.kinds[k], k, |g.kinds|, g.refs, |g.dbls|);
  }

  /**
   * A determinant node adds exactly what a log-determinant node over the same
   * `_A` and `_adjARef` adds when its adjoint is scaled by det A:
   * d det(A) = det(A) d log|det(A)|.
   */
  lemma {:induction false} DetAsLogDet(be: Backend, g: Graph, adjs: seq<real>, k: nat)
    requires Conforms(be) && Fits(g, k) && |adjs| == |g.vals|
    requires g.kinds[k].Det?
    ensures Below(g.refs, g.kinds[k].adjARef, k) && InRange(SliceOf(g.refs, g.kinds[k].adjARef), |adjs|)
    ensures Within(g.kinds[k].a, |g.dbls|) && g.kinds[k].a.len == g.kinds[k].m * g.kinds[k].m
    ensures g.kinds[k].adjARef.len == g.kinds[k].m * g.kinds[k].m
    ensures ChainSpec(be, g, adjs, k)
            == ScaledAdd(adjs, SliceOf(g.refs, g.kinds[k].adjARef), adjs[k] * g.vals[k],
                         InverseT(be, g.kinds[k].m, SliceOf(g.dbls, g.kinds[k].a)))
  {
    DetChain(be, g, adjs, k);
  }

  // ---------------------------------------------------------------------------
  // Nodes above the output do nothing.

  predicate AllZero(xs: seq<real>)
  {
    forall i :: 0 <= i < |xs| ==> xs[i] == 0.0
  }

  /** A solve node whose result nodes have zero adjoints passes down only zeros. */
  lemma {:induction false} SolveIdle(be: Backend, g: Graph, adjs: seq<real>, k: nat)
    requires Conforms(be) && Fits(g, k) && |adjs| == |g.vals| && g.kinds[k].Solve?
    requires forall h :: k < h < |adjs| ==> adjs[h] == 0.0
    ensures AllZero(SolveDeltas(be, g, adjs, k))
  {
    var K := g.kinds[k];
    assert NodeOk(K, k, |g.kinds|, g.refs, |g.dbls|);
    var m, n := K.m, K.n;
    var av, cv := SliceOf(g.dbls, K.a), SliceOf(g.dbls, K.c);
    var adjC := SolveAdjC(g, adjs, k);
    assert adjC == Zeros(m * n) by {
      var rc := SliceOf(g.refs, K.refC);
      forall i | 0 <= i < m * n ensures adjC[i] == 0.0 {
        assert rc[i] == k + 1 + i;
      }
    }
    var adjB := SolveAdjB(be, g, adjs, k);
    assert adjB == Zeros(m * n);
    var adjA := SolveAdjA(be, g, adjs, k);
    assert AllZero(adjA) by {
      if K.refB.Some? {
        MulTZero(m, n, cv);
        assert adjA == Neg(MulT(m, n, adjB, cv));
      } else {
        MulTZero(m, n, cv);
        assert MulT(m, n, adjC, cv) == Zeros(m * m);
        assert adjA == Neg(SolveT(be, K.view, m, av, Zeros(m * m)));
      }
    }
    CellsAddressable(K.view, m, m);
    CellsSquareLength(K.view, m);
    var picked := if K.refA.Some? then Pick(adjA, m, Cells(K.view, m, m)) else [];
    var tail := if K.refB.Some? then adjB else [];
    assert AllZero(picked);
    assert SolveDeltas(be, g, adjs, k) == picked + tail;
  }

  lemma {:induction false} ScaleZero(c: real, xs: seq<real>)
    requires c == 0.0
    ensures AllZero(Scale(c, xs))
  {
  }

  lemma {:induction false} InterleaveZero(x: seq<real>, y: seq<real>)
    requires |x| == |y| && AllZero(x) && AllZero(y)
    ensures AllZero(Interleave(x, y))
  {
    forall p | 0 <= p < 2 * |x| ensures Interleave(x, y)[p] == 0.0 {
      InterleaveFrom(x, y, p);
    }
  }

  /** Node k passes down only zeros when its adjoint, and every later one, is zero. */
  lemma {:induction false} DeltasIdle(be: Backend, g: Graph, adjs: seq<real>, k: nat)
    requires Conforms(be) && Fits(g, k) && |adjs| == |g.vals|
    requires forall h :: k <= h < |adjs| ==> adjs[h] == 0.0
    ensures AllZero(Deltas(be, g, adjs, k))
  {
    var K := g.kinds[k];
    if K.DotVV? {
      DotVVIdle(be, g, adjs, k);
    } else if K.Solve? {
      SolveIdle(be, g, adjs, k);
    } else if K.SumV? {
      SumVIdle(be, g, adjs, k);
    } else if K.DotSelf? {
      DotSelfIdle(be, g, adjs, k);
    } else if K.DotVD? {
      DotVDIdle(be, g, adjs, k);
    } else if K.Det? {
      DetIdle(be, g, adjs, k);
    } else if K.LogDet? {
      LogDetIdle(be, g, adjs, k);
    }
  }

  lemma {:induction false} DotVVIdle(be: Backend, g: Graph, adjs: seq<real>, k: nat)
    requires Conforms(be) && Fits(g, k) && |adjs| == |g.vals| && g.kinds[k].DotVV? && adjs[k] == 0.0
    ensures AllZero(Deltas(be, g, adjs, k))
  {
    var K := g.kinds[k];
    assert NodeOk(K, k, |g.kinds|, g.refs, |g.dbls|);
    InterleaveZero(Scale(0.0, Gather(g.vals, SliceOf(g.refs, K.v2))), Scale(0.0, Gather(g.vals, SliceOf(g.refs, K.v1))));
  }

  lemma {:induction false} SumVIdle(be: Backend, g: Graph, adjs: seq<real>, k: nat)
    requires Conforms(be) && Fits(g, k) && |adjs| == |g.vals| && g.kinds[k].SumV? && adjs[k] == 0.0
    ensures AllZero(Deltas(be, g, adjs, k))
  {
  }

  lemma {:induction false} DotSelfIdle(be: Backend, g: Graph, adjs: seq<real>, k: nat)
    requires Conforms(be) && Fits(g, k) && |adjs| == |g.vals| && g.kinds[k].DotSelf? && adjs[k] == 0.0
    ensures AllZero(Deltas(be, g, adjs, k))
  {
    var K := g.kinds[k];
    assert NodeOk(K, k, |g.kinds|, g.refs, |g.dbls|);
    ScaleZero(adjs[k] * 2.0, Gather(g.vals, SliceOf(g.refs, K.v)));
  }

  lemma {:induction false} DotVDIdle(be: Backend, g: Graph, adjs: seq<real>, k: nat)
    requires Conforms(be) && Fits(g, k) && |adjs| == |g.vals| && g.kinds[k].DotVD? && adjs[k] == 0.0
    ensures AllZero(Deltas(be, g, adjs, k))
  {
  }

  lemma {:induction false} DetIdle(be: Backend, g: Graph, adjs: seq<real>, k: nat)
    requires Conforms(be) && Fits(g, k) && |adjs| == |g.vals| && g.kinds[k].Det? && adjs[k] == 0.0
    ensures AllZero(Deltas(be, g, adjs, k))
  {
  }

  lemma {:induction false} LogDetIdle(be: Backend, g: Graph, adjs: seq<real>, k: nat)
    requires Conforms(be) && Fits(g, k) && |adjs| == |g.vals| && g.kinds[k].LogDet? && adjs[k] == 0.0
    ensures AllZero(Deltas(be, g, adjs, k))
  {
  }

  /**
   * A `chain()` is a no-op when the node's adjoint and every later one are
   * zero, as they are above the output when a sweep starts.
   */
  lemma {:induction false} ChainIdle(be: Backend, g: Graph, adjs: seq<real>, k: nat)
    requires Conforms(be) && Fits(g, k) && |adjs| == |g.vals|
    requires forall h :: k <= h < |adjs| ==> adjs[h] == 0.0
    ensures ChainSpec(be, g, adjs, k) == adjs
  {
    DeltasIdle(be, g, adjs, k);
    AddAtZeros(adjs, Targets(g, k), Deltas(be, g, adjs, k));
  }
}
