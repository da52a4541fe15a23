/**
 * The tape the matrix nodes are recorded on, as a mutable object: every
 * node's value, adjoint and class by handle, and the two arenas (the
 * `memalloc_` blocks) holding the nodes' `vari*` and `double` arrays.
 * Recording a node appends to them; `chain()` and `grad()` update the
 * adjoints in place.
 */
module Vari {
  import opened Wrappers
  import opened Adjoint
  import opened Primal
  import opened Layout
  import opened Dense
  import opened Graph
  import opened Reverse

  /** An operand matrix of a solve node, flattened column-major: vars (handles) or doubles. */
  datatype Operand = Vars(hs: seq<nat>) | Consts(xs: seq<real>)

  function Size(op: Operand): nat
  {
    if op.Vars? then |op.hs| else |op.xs|
  }

  /** Every handle of a var operand names one of n nodes. */
  predicate OnTape(op: Operand, n: nat)
  {
    op.Vars? ==> InRange(op.hs, n)
  }

  /** The operand's values: the nodes' values for vars, the entries for doubles. */
  function Values(vals: seq<real>, op: Operand): (r: seq<real>)
    requires OnTape(op, |vals|)
    ensures |r| == Size(op)
  {
    if op.Vars? then Gather(vals, op.hs) else op.xs
  }

  /** `_variRefA`: the handles of the cells of A the view keeps, column by column. */
  function PackedRefs(view: View, m: nat, a: Operand): (r: seq<nat>)
    requires Size(a) == m * m
    ensures |r| == if a.Vars? then PackedSize(view, m) else 0
  {
    CellsAddressable(view, m, m);
    CellsSquareLength(view, m);
    if a.Vars? then Pick(a.hs, m, Cells(view, m, m)) else []
  }

  /** `_variRefB`: the handles of a var right-hand side, none for a double one. */
  function RhsRefs(b: Operand): (r: seq<nat>)
  {
    if b.Vars? then b.hs else []
  }

  /** n result nodes: `new vari(x, false)` has nothing to propagate. */
  function Leaves(n: nat): (r: seq<Kind>)
    ensures |r| == n && forall i :: 0 <= i < n ==> r[i] == Leaf
  {
    seq(n, _ => Leaf)
  }

  /**
   * The class of a solve node recorded when the arenas held r0 handles and
   * d0 doubles: `_A` and `_C` follow at d0, `_variRefA`, `_variRefB` and
   * `_variRefC` at r0, in that order.
   */
  function SolveKind(view: View, m: nat, n: nat, a: Operand, b: Operand, r0: nat, d0: nat): Kind
    requires Size(a) == m * m
  {
    var pa := |PackedRefs(view, m, a)|;
    var pb := |RhsRefs(b)|;
    Solve(view, m, n, Slice(d0, m * m), Slice(d0 + m * m, m * n),
          if a.Vars? then Some(Slice(r0, pa)) else None,
          if b.Vars? then Some(Slice(r0 + pa, pb)) else None,
          Slice(r0 + pa + pb, m * n))
  }

  /**
   * The packing loop of a solve node's constructor: the handles of A's cells
   * in the view, column by column, rows top to bottom.
   */
  method Pack(view: View, m: nat, a: seq<nat>) returns (r: seq<nat>)
    requires |a| == m * m
    ensures Addressable(Cells(view, m, m), m, |a|)
    ensures r == Pick(a, m, Cells(view, m, m))
  {
    CellsAddressable(view, m, m);
    ghost var cells := Cells(view, m, m);
    ghost var full := Pick(a, m, cells);
    r := [];
    var j := 0;
    while j < m
      invariant 0 <= j <= m
      invariant |r| == |Cells(view, m, j)| <= |cells|
      invariant r == full[..|r|]
    {
      PackColumn(view, m, j);
      var i := Lo(view, j);
      while i < Hi(view, m, j)
        invariant Lo(view, j) <= i <= Hi(view, m, j)
        invariant |r| == |Cells(view, m, j)| + (i - Lo(view, j))
        invariant r == full[..|r|]
      {
        PackNext(view, m, a, j, i, r);
        r := r + [a[Idx(m, i, j)]];
        i := i + 1;
      }
      j := j + 1;
    }
    assert full[..|cells|] == full;
  }

  /** Appending cell (i, j)'s handle extends the packed prefix by one entry. */
  lemma {:induction false} PackNext(view: View, m: nat, a: seq<nat>, j: nat, i: nat, r: seq<nat>)
    requires |a| == m * m && j < m && Lo(view, j) <= i < Hi(view, m, j)
    requires Addressable(Cells(view, m, m), m, |a|)
    requires |r| == |Cells(view, m, j)| + (i - Lo(view, j)) <= |Cells(view, m, m)|
    requires r == Pick(a, m, Cells(view, m, m))[..|r|]
    ensures Idx(m, i, j) < |a| && |r| < |Cells(view, m, m)|
    ensures r + [a[Idx(m, i, j)]] == Pick(a, m, Cells(view, m, m))[..|r| + 1]
  {
    PackCell(view, m, j, i);
    IdxBound(m, m, i, j);
    var full := Pick(a, m, Cells(view, m, m));
    assert full[|r|] == a[Idx(m, i, j)];
    assert full[..|r| + 1] == full[..|r|] + [full[|r|]];
  }

  /** Column j adds Hi - Lo cells to the packing, and its cells come before the end. */
  lemma {:induction false} PackColumn(view: View, m: nat, j: nat)
    requires j < m
    ensures Lo(view, j) <= Hi(view, m, j)
    ensures |Cells(view, m, j + 1)| == |Cells(view, m, j)| + (Hi(view, m, j) - Lo(view, j)) <= |Cells(view, m, m)|
  {
    CellsPrefix(view, m, j + 1, m);
  }

  /** Row i of column j is the packing's cell number |Cells(view, m, j)| + (i - Lo). */
  lemma {:induction false} PackCell(view: View, m: nat, j: nat, i: nat)
    requires j < m && Lo(view, j) <= i < Hi(view, m, j)
    ensures |Cells(view, m, j)| + (i - Lo(view, j)) < |Cells(view, m, m)|
    ensures Cells(view, m, m)[|Cells(view, m, j)| + (i - Lo(view, j))] == Cell(i, j)
  {
    CellsPrefix(view, m, j + 1, m);
    var p := |Cells(view, m, j)| + (i - Lo(view, j));
    assert Cells(view, m, m)[..|Cells(view, m, j + 1)|] == Cells(view, m, j + 1);
    assert Cells(view, m, j + 1)[p] == ColCells(view, m, j)[i - Lo(view, j)];
  }

  class Tape {
    /** Each node's `val_`, `adj_` and class, by handle. */
    var vals: seq<real>
    var adjs: seq<real>
    var kinds: seq<Kind>
    /** The arena of `vari*` arrays and the arena of `double` arrays. */
    var refs: seq<nat>
    var dbls: seq<real>

    /** What the tape has recorded, apart from the adjoints. */
    function G(): Graph
      reads this
    {
      Graph(vals, kinds, refs, dbls)
    }

    /** Every node is well formed and has an adjoint. */
    ghost predicate Valid()
      reads this
    {
      GraphOk(G()) && |adjs| == |vals|
    }

    /** An empty tape. */
    constructor ()
      ensures Valid()
      ensures vals == [] && adjs == [] && kinds == [] && refs == [] && dbls == []
    {
      vals, adjs, kinds, refs, dbls := [], [], [], [], [];
    }

    /** Appends one node; a new `vari` starts with adjoint 0. */
    method Record(x: real, kind: Kind) returns (h: nat)
      requires Valid() && NodeOk(kind, |kinds|, |kinds| + 1, refs, |dbls|)
      modifies this
      ensures Valid() && h == |old(vals)|
      ensures vals == old(vals) + [x] && kinds == old(kinds) + [kind] && adjs == old(adjs) + [0.0]
      ensures refs == old(refs) && dbls == old(dbls)
    {
      ghost var g0 := G();
      h := |vals|;
      vals, kinds, adjs := vals + [x], kinds + [kind], adjs + [0.0];
      assert Grows(g0, G());
      ExtendOk(g0, G());
    }

    /** `new vari(x)`: an input or a constant. */
    method NewLeaf(x: real) returns (h: nat)
      requires Valid()
      modifies this
      ensures Valid() && h == |old(vals)|
      ensures vals == old(vals) + [x] && kinds == old(kinds) + [Leaf] && adjs == old(adjs) + [0.0]
      ensures refs == old(refs) && dbls == old(dbls)
    {
      h := Record(x, Leaf);
    }

    /** Allocates a `vari*` array in the arena and copies the handles hs into it. */
    method PushRefs(hs: seq<nat>) returns (s: Slice)
      requires Valid()
      modifies this
      ensures Valid() && s == Slice(|old(refs)|, |hs|)
      ensures refs == old(refs) + hs && SliceOf(refs, s) == hs
      ensures vals == old(vals) && adjs == old(adjs) && kinds == old(kinds) && dbls == old(dbls)
    {
      ghost var g0 := G();
      s := Slice(|refs|, |hs|);
      var i := 0;
      while i < |hs|
        invariant 0 <= i <= |hs|
        invariant refs == old(refs) + hs[..i]
        invariant vals == old(vals) && adjs == old(adjs) && kinds == old(kinds) && dbls == old(dbls)
      {
        refs := refs + [hs[i]];
        assert hs[..i + 1] == hs[..i] + [hs[i]];
        i := i + 1;
      }
      assert hs[..|hs|] == hs;
      assert Grows(g0, G());
      ExtendOk(g0, G());
    }

    /** Allocates a `double` array in the arena and copies xs into it. */
    method PushDbls(xs: seq<real>) returns (s: Slice)
      requires Valid()
      modifies this
      ensures Valid() && s == Slice(|old(dbls)|, |xs|)
      ensures dbls == old(dbls) + xs && SliceOf(dbls, s) == xs
      ensures vals == old(vals) && adjs == old(adjs) && kinds == old(kinds) && refs == old(refs)
    {
      ghost var g0 := G();
      s := Slice(|dbls|, |xs|);
      var i := 0;
      while i < |xs|
        invariant 0 <= i <= |xs|
        invariant dbls == old(dbls) + xs[..i]
        invariant vals == old(vals) && adjs == old(adjs) && kinds == old(kinds) && refs == old(refs)
      {
        dbls := dbls + [xs[i]];
        assert xs[..i + 1] == xs[..i] + [xs[i]];
        i := i + 1;
      }
      assert xs[..|xs|] == xs;
      assert Grows(g0, G());
      ExtendOk(g0, G());
    }

    /**
     * The copying loop of the determinant nodes' constructors: `_A[pos]`
     * gets the value and `_adjARef[pos]` the handle of operand pos.
     */
    method PushOperands(a: seq<nat>) returns (sd: Slice, sr: Slice)
      requires Valid() && InRange(a, |vals|)
      modifies this
      ensures Valid() && sd == Slice(|old(dbls)|, |a|) && sr == Slice(|old(refs)|, |a|)
      ensures vals == old(vals) && adjs == old(adjs) && kinds == old(kinds)
      ensures dbls == old(dbls) + Gather(old(vals), a) && refs == old(refs) + a
    {
      ghost var g0 := G();
      sd, sr := Slice(|dbls|, |a|), Slice(|refs|, |a|);
      ghost var xs := Gather(vals, a);
      var pos := 0;
      while pos < |a|
        invariant 0 <= pos <= |a|
        invariant dbls == old(dbls) + xs[..pos] && refs == old(refs) + a[..pos]
        invariant vals == old(vals) && adjs == old(adjs) && kinds == old(kinds)
      {
        dbls := dbls + [vals[a[pos]]];
        refs := refs + [a[pos]];
        assert xs[..pos + 1] == xs[..pos] + [xs[pos]];
        assert a[..pos + 1] == a[..pos] + [a[pos]];
        pos := pos + 1;
      }
      assert xs[..|a|] == xs && a[..|a|] == a;
      assert Grows(g0, G());
      ExtendOk(g0, G());
    }

    /** `var_sum`: the operands' values added left to right, starting from 0. */
    method ValueSum(s: Slice) returns (r: real)
      requires Below(refs, s, |vals|)
      ensures r == Sum(Gather(vals, SliceOf(refs, s)))
    {
      ghost var xs := Gather(vals, SliceOf(refs, s));
      r := 0.0;
      var i := 0;
      while i < s.len
        invariant 0 <= i <= s.len
        invariant r == Sum(xs[..i])
      {
        SumPrefix(xs, i);
        r := r + vals[refs[s.start + i]];
        i := i + 1;
      }
      assert xs[..s.len] == xs;
    }

    /** `var_dot_self`: the squares of the operands' values added left to right. */
    method ValueDotSelf(s: Slice) returns (r: real)
      requires Below(refs, s, |vals|)
      ensures r == Dot(Gather(vals, SliceOf(refs, s)), Gather(vals, SliceOf(refs, s)))
    {
      ghost var xs := Gather(vals, SliceOf(refs, s));
      r := 0.0;
      var i := 0;
      while i < s.len
        invariant 0 <= i <= s.len
        invariant r == Dot(xs[..i], xs[..i])
      {
        DotPrefix(xs, xs, i);
        var x := vals[refs[s.start + i]];
        r := r + x * x;
        i := i + 1;
      }
      assert xs[..s.len] == xs;
    }

    /** `var_dot` of two handle arrays: the products of the values added left to right. */
    method ValueDot(s1: Slice, s2: Slice) returns (r: real)
      requires s1.len == s2.len && Below(refs, s1, |vals|) && Below(refs, s2, |vals|)
      ensures r == Dot(Gather(vals, SliceOf(refs, s1)), Gather(vals, SliceOf(refs, s2)))
    {
      ghost var xs := Gather(vals, SliceOf(refs, s1));
      ghost var ys := Gather(vals, SliceOf(refs, s2));
      r := 0.0;
      var i := 0;
      while i < s1.len
        invariant 0 <= i <= s1.len
        invariant r == Dot(xs[..i], ys[..i])
      {
        DotPrefix(xs, ys, i);
        r := r + vals[refs[s1.start + i]] * vals[refs[s2.start + i]];
        i := i + 1;
      }
      assert xs[..s1.len] == xs && ys[..s1.len] == ys;
    }

    /** `var_dot` of a handle array and a double array. */
    method ValueDotD(s1: Slice, s2: Slice) returns (r: real)
      requires s1.len == s2.len && Below(refs, s1, |vals|) && Within(s2, |dbls|)
      ensures r == Dot(Gather(vals, SliceOf(refs, s1)), SliceOf(dbls, s2))
    {
      ghost var xs := Gather(vals, SliceOf(refs, s1));
      ghost var ys := SliceOf(dbls, s2);
      r := 0.0;
      var i := 0;
      while i < s1.len
        invariant 0 <= i <= s1.len
        invariant r == Dot(xs[..i], ys[..i])
      {
        DotPrefix(xs, ys, i);
        r := r + vals[refs[s1.start + i]] * dbls[s2.start + i];
        i := i + 1;
      }
      assert xs[..s1.len] == xs && ys[..s1.len] == ys;
    }

    /** `new sum_v_vari` over the handle array s. */
    method NewSumV(s: Slice) returns (h: nat)
      requires Valid() && Below(refs, s, |vals|)
      modifies this
      ensures Valid() && h == |old(vals)|
      ensures refs == old(refs) && dbls == old(dbls)
      ensures vals == old(vals) + [Sum(Gather(old(vals), SliceOf(old(refs), s)))]
      ensures kinds == old(kinds) + [SumV(s)] && adjs == old(adjs) + [0.0]
    {
      var x := ValueSum(s);
      h := Record(x, SumV(s));
    }

    /** `new dot_self_vari` over the handle array s. */
    method NewDotSelf(s: Slice) returns (h: nat)
      requires Valid() && Below(refs, s, |vals|)
      modifies this
      ensures Valid() && h == |old(vals)|
      ensures refs == old(refs) && dbls == old(dbls)
      ensures vals == old(vals) + [Dot(Gather(old(vals), SliceOf(old(refs), s)), Gather(old(vals), SliceOf(old(refs), s)))]
      ensures kinds == old(kinds) + [DotSelf(s)] && adjs == old(adjs) + [0.0]
    {
      var x := ValueDotSelf(s);
      h := Record(x, DotSelf(s));
    }

    /** `new dot_product_vv_vari` over the handle arrays s1 and s2 (fresh or shared). */
    method NewDotVV(s1: Slice, s2: Slice) returns (h: nat)
      requires Valid() && s1.len == s2.len && Below(refs, s1, |vals|) && Below(refs, s2, |vals|)
      modifies this
      ensures Valid() && h == |old(vals)|
      ensures refs == old(refs) && dbls == old(dbls)
      ensures vals == old(vals) + [Dot(Gather(old(vals), SliceOf(old(refs), s1)), Gather(old(vals), SliceOf(old(refs), s2)))]
      ensures kinds == old(kinds) + [DotVV(s1, s2)] && adjs == old(adjs) + [0.0]
    {
      var x := ValueDot(s1, s2);
      h := Record(x, DotVV(s1, s2));
    }

    /** `new dot_product_vd_vari` over the handle array s1 and the double array s2. */
    method NewDotVD(s1: Slice, s2: Slice) returns (h: nat)
      requires Valid() && s1.len == s2.len && Below(refs, s1, |vals|) && Within(s2, |dbls|)
      modifies this
      ensures Valid() && h == |old(vals)|
      ensures refs == old(refs) && dbls == old(dbls)
      ensures vals == old(vals) + [Dot(Gather(old(vals), SliceOf(old(refs), s1)), SliceOf(old(dbls), s2))]
      ensures kinds == old(kinds) + [DotVD(s1, s2)] && adjs == old(adjs) + [0.0]
    {
      var x := ValueDotD(s1, s2);
      h := Record(x, DotVD(s1, s2));
    }

    /** `new determinant_vari(A)` for the m-by-m var matrix a (column-major handles). */
    method NewDeterminant(be: Backend, m: nat, a: seq<nat>) returns (h: nat)
      requires Valid() && |a| == m * m && InRange(a, |vals|)
      modifies this
      ensures Valid() && h == |old(vals)|
      ensures vals == old(vals) + [be.determinant(m, Gather(old(vals), a))]
      ensures kinds == old(kinds) + [Det(m, Slice(|old(dbls)|, m * m), Slice(|old(refs)|, m * m))]
      ensures dbls == old(dbls) + Gather(old(vals), a) && refs == old(refs) + a
      ensures adjs == old(adjs) + [0.0]
    {
      var x := be.determinant(m, Gather(vals, a));
      var sd, sr := PushOperands(a);
      h := Record(x, Det(m, sd, sr));
    }

    /** `new log_determinant_vari(A)`: log |det A|. */
    method NewLogDeterminant(be: Backend, m: nat, a: seq<nat>) returns (h: nat)
      requires Valid() && |a| == m * m && InRange(a, |vals|)
      modifies this
      ensures Valid() && h == |old(vals)|
      ensures vals == old(vals) + [be.logAbsDeterminant(m, Gather(old(vals), a))]
      ensures kinds == old(kinds) + [LogDet(m, Slice(|old(dbls)|, m * m), Slice(|old(refs)|, m * m))]
      ensures dbls == old(dbls) + Gather(old(vals), a) && refs == old(refs) + a
      ensures adjs == old(adjs) + [0.0]
    {
      var x := be.logAbsDeterminant(m, Gather(vals, a));
      var sd, sr := PushOperands(a);
      h := Record(x, LogDet(m, sd, sr));
    }

    /**
     * `new mdivide_left_*_vari(A, B)` or `new mdivide_left_tri_*_vari<view>(A, B)`:
     * a solve node of value 0 followed by its m*n result nodes, which hold C,
     * the solution of A C = B, column-major. At least one operand is a var matrix.
     */
    method NewSolve(be: Backend, view: View, m: nat, n: nat, a: Operand, b: Operand) returns (k: nat)
      requires Valid() && Conforms(be)
      requires Size(a) == m * m && Size(b) == m * n && OnTape(a, |vals|) && OnTape(b, |vals|)
      requires a.Vars? || b.Vars?
      modifies this
      ensures Valid() && k == |old(vals)|
      ensures vals == old(vals) + [0.0] + be.solve(view, m, Values(old(vals), a), Values(old(vals), b))
      ensures kinds == old(kinds) + [SolveKind(view, m, n, a, b, |old(refs)|, |old(dbls)|)] + Leaves(m * n)
      ensures refs == old(refs) + PackedRefs(view, m, a) + RhsRefs(b) + Range(k + 1, m * n)
      ensures dbls == old(dbls) + Values(old(vals), a) + be.solve(view, m, Values(old(vals), a), Values(old(vals), b))
      ensures adjs == old(adjs) + Zeros(1 + m * n)
    {
      k := |vals|;
      var av, bv := Values(vals, a), Values(vals, b);
      var c := be.solve(view, m, av, bv);
      assert |c| == m * n;
      var node := PushSolveArrays(view, m, n, a, b, c);
      SolveNodeOk(view, m, n, a, b, k, old(refs), refs, |old(dbls)|, dbls);
      RecordSolve(node, c);
    }

    /**
     * The allocations of a solve node's constructor: `_variRefA` (packed), `_A`,
     * `_variRefB`, `_C` (the solution c) and `_variRefC`, the handles the result
     * nodes will get. Returns the node's class.
     */
    method PushSolveArrays(view: View, m: nat, n: nat, a: Operand, b: Operand, c: seq<real>) returns (node: Kind)
      requires Valid() && Size(a) == m * m && Size(b) == m * n && OnTape(a, |vals|) && |c| == m * n
      modifies this
      ensures Valid() && node == SolveKind(view, m, n, a, b, |old(refs)|, |old(dbls)|)
      ensures vals == old(vals) && kinds == old(kinds) && adjs == old(adjs)
      ensures refs == old(refs) + PackedRefs(view, m, a) + RhsRefs(b) + Range(|old(vals)| + 1, m * n)
      ensures dbls == old(dbls) + Values(old(vals), a) + c
    {
      var k := |vals|;
      var refA, sa := PushMatrixA(view, m, a);
      var refB := PushRhsRefs(b);
      var sc := PushDbls(c);
      var refC := PushRefs(Range(k + 1, m * n));
      node := Solve(view, m, n, sa, sc, refA, refB, refC);
    }

    /** `_variRefA` (absent for a double A) and then `_A`, the values of A. */
    method PushMatrixA(view: View, m: nat, a: Operand) returns (refA: Option<Slice>, sa: Slice)
      requires Valid() && Size(a) == m * m && OnTape(a, |vals|)
      modifies this
      ensures Valid() && vals == old(vals) && kinds == old(kinds) && adjs == old(adjs)
      ensures refs == old(refs) + PackedRefs(view, m, a) && dbls == old(dbls) + Values(vals, a)
      ensures refA == if a.Vars? then Some(Slice(|old(refs)|, |PackedRefs(view, m, a)|)) else None
      ensures sa == Slice(|old(dbls)|, m * m)
    {
      refA := None;
      if a.Vars? {
        var packed := Pack(view, m, a.hs);
        var s := PushRefs(packed);
        refA := Some(s);
      } else {
        assert refs == old(refs) + [];
      }
      sa := PushDbls(Values(vals, a));
    }

    /** `_variRefB`, absent for a double B. */
    method PushRhsRefs(b: Operand) returns (refB: Option<Slice>)
      requires Valid()
      modifies this
      ensures Valid() && vals == old(vals) && kinds == old(kinds) && adjs == old(adjs) && dbls == old(dbls)
      ensures refs == old(refs) + RhsRefs(b)
      ensures refB == if b.Vars? then Some(Slice(|old(refs)|, |RhsRefs(b)|)) else None
    {
      refB := None;
      if b.Vars? {
        var s := PushRefs(b.hs);
        refB := Some(s);
      } else {
        assert refs == old(refs) + [];
      }
    }

    /** Appends the solve node of value 0 and then its result nodes, of values c. */
    method RecordSolve(node: Kind, c: seq<real>)
      requires Valid() && node.Solve? && |c| == node.m * node.n
      requires NodeOk(node, |kinds|, |kinds| + 1 + |c|, refs, |dbls|)
      modifies this
      ensures Valid()
      ensures vals == old(vals) + [0.0] + c && kinds == old(kinds) + [node] + Leaves(|c|)
      ensures adjs == old(adjs) + Zeros(1 + |c|) && refs == old(refs) && dbls == old(dbls)
    {
      ghost var g0 := G();
      vals, kinds, adjs := vals + [0.0], kinds + [node], adjs + [0.0];
      var p := 0;
      while p < |c|
        invariant 0 <= p <= |c|
        invariant vals == g0.vals + [0.0] + c[..p] && kinds == g0.kinds + [node] + Leaves(p)
        invariant adjs == old(adjs) + Zeros(1 + p) && refs == g0.refs && dbls == g0.dbls
      {
        vals, kinds, adjs := vals + [c[p]], kinds + [Leaf], adjs + [0.0];
        assert c[..p + 1] == c[..p] + [c[p]];
        assert Leaves(p + 1) == Leaves(p) + [Leaf];
        assert Zeros(2 + p) == Zeros(1 + p) + [0.0];
        p := p + 1;
      }
      assert c[..|c|] == c;
      SolveRecordedOk(g0, node, c);
    }

    /** `adj_[t] += d` for the targets ts and amounts ds, in order. */
    method AddInto(ts: seq<nat>, ds: seq<real>)
      requires |ts| == |ds| && InRange(ts, |adjs|)
      modifies this
      ensures adjs == AddAt(old(adjs), ts, ds)
      ensures vals == old(vals) && kinds == old(kinds) && refs == old(refs) && dbls == old(dbls)
    {
      var i := 0;
      while i < |ts|
        invariant 0 <= i <= |ts| && |adjs| == |old(adjs)|
        invariant adjs == AddAt(old(adjs), ts[..i], ds[..i])
        invariant vals == old(vals) && kinds == old(kinds) && refs == old(refs) && dbls == old(dbls)
      {
        AddAtPrefix(old(adjs), ts, ds, i);
        adjs := adjs[ts[i] := adjs[ts[i]] + ds[i]];
        i := i + 1;
      }
      assert ts[..|ts|] == ts && ds[..|ds|] == ds;
    }

    /** Node k's `chain()`: adds into its operands' adjoints what its class prescribes. */
    method Chain(be: Backend, k: nat)
      requires Valid() && Conforms(be) && k < |kinds|
      modifies this
      ensures Valid()
      ensures adjs == ChainSpec(be, old(G()), old(adjs), k)
      ensures G() == old(G())
    {
      assert Fits(G(), k);
      AddInto(Targets(G(), k), Deltas(be, G(), adjs, k));
    }

    /**
     * `grad()` from the output node out: every adjoint zero but the
     * output's, which is 1, then each node's `chain()`, newest first.
     */
    method Grad(be: Backend, out: nat)
      requires Valid() && Conforms(be) && out < |kinds|
      modifies this
      ensures Valid()
      ensures adjs == Reverse.Grad(be, old(G()), out)
      ensures G() == old(G())
    {
      ghost var step := Reverse.Chain(be, G());
      adjs := Seed(|vals|, out);
      var k := |kinds|;
      while k > 0
        invariant 0 <= k <= |kinds| && G() == old(G()) && Valid()
        invariant Sweep(step, adjs, k) == Reverse.Grad(be, G(), out)
      {
        k := k - 1;
        ChainIs(be, G(), adjs, k);
        Chain(be, k);
      }
    }
  }

  /** The handles of a packing of a var matrix are handles of the matrix. */
  lemma {:induction false} PickInRange(s: seq<nat>, rows: nat, cells: seq<Cell>, n: nat)
    requires Addressable(cells, rows, |s|) && InRange(s, n)
    ensures InRange(Pick(s, rows, cells), n)
  {
    var r := Pick(s, rows, cells);
    forall p | 0 <= p < |r| ensures r[p] < n {
      assert r[p] == s[Idx(rows, cells[p].i, cells[p].j)];
    }
  }

  /** The solve node NewSolve records is well formed at its handle k. */
  lemma {:induction false} SolveNodeOk(view: View, m: nat, n: nat, a: Operand, b: Operand, k: nat,
                                       refs0: seq<nat>, refs: seq<nat>, d0: nat, dbls: seq<real>)
    requires Size(a) == m * m && Size(b) == m * n && OnTape(a, k) && OnTape(b, k)
    requires a.Vars? || b.Vars?
    requires refs == refs0 + PackedRefs(view, m, a) + RhsRefs(b) + Range(k + 1, m * n)
    requires |dbls| == d0 + m * m + m * n
    ensures NodeOk(SolveKind(view, m, n, a, b, |refs0|, d0), k, k + 1 + m * n, refs, |dbls|)
  {
    var pa, pb, pc := PackedRefs(view, m, a), RhsRefs(b), Range(k + 1, m * n);
    var K := SolveKind(view, m, n, a, b, |refs0|, d0);
    CellsSquareLength(view, m);
    assert refs == refs0 + pa + (pb + pc);
    SliceOfMiddle(refs0, pa, pb + pc);
    SliceOfMiddle(refs0 + pa, pb, pc);
    SliceOfMiddle(refs0 + pa + pb, pc, []);
    assert refs0 + pa + pb + pc + [] == refs;
    if a.Vars? {
      CellsAddressable(view, m, m);
      PickInRange(a.hs, m, Cells(view, m, m), k);
      assert Below(refs, K.refA.value, k);
    }
    if b.Vars? {
      assert Below(refs, K.refB.value, k);
    }
  }

  /** A solve node followed by its result nodes keeps a well-formed tape well formed. */
  lemma {:induction false} SolveRecordedOk(g0: Graph, node: Kind, c: seq<real>)
    requires GraphOk(g0) && node.Solve? && |c| == node.m * node.n
    requires NodeOk(node, |g0.kinds|, |g0.kinds| + 1 + |c|, g0.refs, |g0.dbls|)
    ensures GraphOk(Graph(g0.vals + [0.0] + c, g0.kinds + [node] + Leaves(|c|), g0.refs, g0.dbls))
  {
    var g := Graph(g0.vals + [0.0] + c, g0.kinds + [node] + Leaves(|c|), g0.refs, g0.dbls);
    assert Grows(g0, g) by {
      assert g.vals[..|g0.vals|] == g0.vals;
      assert g.kinds[..|g0.kinds|] == g0.kinds;
    }
    forall k | |g0.kinds| <= k < |g.kinds|
      ensures NodeOk(g.kinds[k], k, |g.kinds|, g.refs, |g.dbls|)
    {
      if k > |g0.kinds| {
        assert g.kinds[k] == Leaves(|c|)[k - |g0.kinds| - 1];
      }
    }
    ExtendOk(g0, g);
  }
}
