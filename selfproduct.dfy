/**
 * `multiply_lower_tri_self_transpose(L)`, `tcrossprod(M)` and `crossprod(M)`.
 * The handles of the argument are copied once, row after row, into one packed
 * array; every result cell (m, n) with n <= m then becomes one node over
 * pieces of that array, a `dot_self_vari` on the diagonal and a
 * `dot_product_vv_vari` below it, whose handle is stored at both (m, n) and
 * (n, m).
 */
module SelfProduct {
  import opened Adjoint
  import opened Layout
  import opened Graph
  import opened Vari
  import opened Reductions
  import opened Dense
  import Primal

  /**
   * How the rows are packed: row m keeps its first min(J, m + 1) entries (the
   * lower triangle of an L with J columns), or all C of them.
   */
  datatype Packing = LowerHeads(J: nat) | WholeRows(C: nat)

  /** The number of entries of row m in the packed array. */
  function Len(p: Packing, m: nat): nat
  {
    match p
    case LowerHeads(J) => Min(J, m + 1)
    case WholeRows(C) => C
  }

  /** Where row m starts in the packed array: `mpos`, or `m * M.cols()`. */
  function Offset(p: Packing, m: nat): nat
  {
    match p
    case LowerHeads(J) => PackedOffset(J, m)
    case WholeRows(C) => m * C
  }

  /** The packing is the one for M's number of columns. */
  predicate Packs(p: Packing, M: Mat<nat>)
  {
    Shaped(M)
    && match p
       case LowerHeads(J) => J == M.cols
       case WholeRows(C) => C == M.cols
  }

  lemma {:induction false} OffsetSucc(p: Packing, m: nat)
    ensures Offset(p, m + 1) == Offset(p, m) + Len(p, m)
  {
    if p.WholeRows? {
      MulSucc(m, p.C);
    }
  }

  lemma {:induction false} OffsetMono(p: Packing, m: nat, K: nat)
    requires m <= K
    ensures Offset(p, m) <= Offset(p, K)
    decreases K
  {
    if m < K {
      OffsetMono(p, m, K - 1);
      OffsetSucc(p, K - 1);
    }
  }

  /** What the packing keeps of row m. */
  function Head(M: Mat<nat>, p: Packing, m: nat): (r: seq<nat>)
    requires Packs(p, M) && m < M.rows
    ensures |r| == Len(p, m)
  {
    Row(M, m)[..Len(p, m)]
  }

  /** Rows 0 to m - 1 as packed, one after the other: the array `vs` once m rows are copied. */
  function Packed(M: Mat<nat>, p: Packing, m: nat): (r: seq<nat>)
    requires Packs(p, M) && m <= M.rows
    ensures |r| == Offset(p, m)
    decreases m
  {
    if m == 0 then []
    else
      OffsetSucc(p, m - 1);
      Packed(M, p, m - 1) + Head(M, p, m - 1)
  }

  /** Row m's entries sit in the packed array from Offset(p, m) on. */
  lemma {:induction false} PackedRow(M: Mat<nat>, p: Packing, K: nat, m: nat)
    requires Packs(p, M) && m < K <= M.rows
    ensures Len(p, m) <= M.cols && Offset(p, m) + Len(p, m) <= Offset(p, K)
    ensures forall k :: 0 <= k < Len(p, m) ==> Packed(M, p, K)[Offset(p, m) + k] == At(M, m, k)
    decreases K
  {
    OffsetSucc(p, m);
    OffsetMono(p, m + 1, K);
    var q, hd := Packed(M, p, K - 1), Head(M, p, K - 1);
    assert Packed(M, p, K) == q + hd;
    if K - 1 > m {
      PackedRow(M, p, K - 1, m);
    } else {
      assert forall k :: 0 <= k < Len(p, m) ==> hd[k] == At(M, m, k);
    }
  }

  /** The packed array names only nodes the matrix names. */
  lemma {:induction false} PackedInRange(M: Mat<nat>, p: Packing, K: nat, n: nat)
    requires Packs(p, M) && VarMat(M, n) && K <= M.rows
    ensures InRange(Packed(M, p, K), n)
    decreases K
  {
    if K > 0 {
      PackedInRange(M, p, K - 1, n);
      RowInRange(M, K - 1, n);
    }
  }

  /**
   * The copy loop `vs[pos++] = M(m, n).vi_`, row by row, into an array of
   * `size` entries, the size the caller allocated.
   */
  method PackRows(M: Mat<nat>, p: Packing, size: nat) returns (packed: seq<nat>)
    requires Packs(p, M) && size == Offset(p, M.rows)
    ensures packed == Packed(M, p, M.rows)
  {
    var vs := new nat[size];
    var pos, m := 0, 0;
    while m < M.rows
      invariant 0 <= m <= M.rows && pos == Offset(p, m) && pos <= size && vs[..pos] == Packed(M, p, m)
    {
      OffsetSucc(p, m);
      OffsetMono(p, m + 1, M.rows);
      CopyRow(vs, M, p, m, pos);
      pos, m := pos + Len(p, m), m + 1;
    }
    packed := vs[..];
    assert packed == vs[..pos];
  }

  /** The inner copy loop for row m, which starts at pos. */
  method CopyRow(vs: array<nat>, M: Mat<nat>, p: Packing, m: nat, pos: nat)
    requires Packs(p, M) && m < M.rows && pos == Offset(p, m) && pos + Len(p, m) <= vs.Length
    requires vs[..pos] == Packed(M, p, m)
    modifies vs
    ensures vs[..pos + Len(p, m)] == Packed(M, p, m + 1)
  {
    var n := 0;
    while n < Len(p, m)
      invariant 0 <= n <= Len(p, m)
      invariant vs[..pos + n] == Packed(M, p, m) + Head(M, p, m)[..n]
    {
      vs[pos + n] := At(M, m, n);
      assert Head(M, p, m)[..n + 1] == Head(M, p, m)[..n] + [At(M, m, n)];
      n := n + 1;
    }
    assert Head(M, p, m)[..n] == Head(M, p, m);
  }

  /** Rows further down keep at least as many entries. */
  lemma {:induction false} LenMono(p: Packing, n: nat, m: nat)
    requires n <= m
    ensures Len(p, n) <= Len(p, m)
  {
  }

  /** The first Len(p, n) entries of row m's piece of a packed array stored at base. */
  lemma {:induction false} PackedSlice(refs: seq<nat>, M: Mat<nat>, p: Packing, base: nat, m: nat, n: nat)
    requires Packs(p, M) && n <= m < M.rows && base <= |refs| && refs[base..] == Packed(M, p, M.rows)
    ensures Len(p, n) <= M.cols && Within(Slice(base + Offset(p, m), Len(p, n)), |refs|)
    ensures SliceOf(refs, Slice(base + Offset(p, m), Len(p, n))) == Row(M, m)[..Len(p, n)]
  {
    PackedRow(M, p, M.rows, m);
    LenMono(p, n, m);
    var r := SliceOf(refs, Slice(base + Offset(p, m), Len(p, n)));
    forall k | 0 <= k < Len(p, n) ensures r[k] == Row(M, m)[..Len(p, n)][k] {
      assert refs[base + Offset(p, m) + k] == refs[base..][Offset(p, m) + k];
    }
  }

  /** A K x K result matrix. */
  predicate Square(res: Mat<nat>, K: nat)
  {
    Shaped(res) && res.rows == K && res.cols == K
  }

  /**
   * Node h is cell (m, n), n <= m, over the packed array stored at base: on
   * the diagonal a `dot_self_vari` of row m's piece, below it a dot product of
   * the first Len(p, n) entries of row m's piece and row n's piece.
   */
  ghost predicate CellNode(g: Graph, h: nat, M: Mat<nat>, p: Packing, base: nat, m: nat, n: nat)
    requires Packs(p, M) && n <= m < M.rows
  {
    var s1 := Slice(base + Offset(p, m), Len(p, n));
    if n == m then
      Records(g, h, Squared(Head(M, p, m))) && g.kinds[h] == DotSelf(s1)
    else
      Len(p, n) <= M.cols
      && Records(g, h, Paired(Row(M, m)[..Len(p, n)], Head(M, p, n)))
      && g.kinds[h] == DotVV(s1, Slice(base + Offset(p, n), Len(p, n)))
  }

  /** Cells (m, n) and (n, m) hold the same node, recorded at h0 or later, as CellNode says. */
  ghost predicate SymCell(g: Graph, res: Mat<nat>, M: Mat<nat>, p: Packing, base: nat, h0: nat, m: nat, n: nat)
    requires Packs(p, M) && Square(res, M.rows) && n <= m < M.rows
  {
    h0 <= At(res, m, n) && At(res, n, m) == At(res, m, n) && CellNode(g, At(res, m, n), M, p, base, m, n)
  }

  lemma {:induction false} CellNodeGrows(g: Graph, g2: Graph, h: nat, M: Mat<nat>, p: Packing, base: nat, m: nat, n: nat)
    requires Packs(p, M) && n <= m < M.rows && CellNode(g, h, M, p, base, m, n)
    requires Grows(g, g2) && |g2.vals| == |g2.kinds|
    ensures CellNode(g2, h, M, p, base, m, n)
  {
    assert g2.kinds[h] == g2.kinds[..|g.kinds|][h];
    if n == m {
      RecordsGrows(g, g2, h, Squared(Head(M, p, m)));
    } else {
      RecordsGrows(g, g2, h, Paired(Row(M, m)[..Len(p, n)], Head(M, p, n)));
    }
  }

  /** `res(m, n) = res(n, m) = h`. */
  function Place(res: Mat<nat>, m: nat, n: nat, h: nat): (r: Mat<nat>)
    requires Shaped(res) && res.rows == res.cols && n <= m < res.rows
    ensures Shaped(r) && r.rows == res.rows && r.cols == res.cols
  {
    if m == n then Set(res, m, m, h) else Set(Set(res, n, m, h), m, n, h)
  }

  lemma {:induction false} PlaceAt(res: Mat<nat>, m: nat, n: nat, h: nat, i: nat, j: nat)
    requires Shaped(res) && res.rows == res.cols && n <= m < res.rows && i < res.rows && j < res.rows
    ensures At(Place(res, m, n, h), i, j) == if (i == m && j == n) || (i == n && j == m) then h else At(res, i, j)
  {
    if m == n {
      SetAt(res, m, m, h, i, j);
    } else {
      SetAt(res, n, m, h, i, j);
      SetAt(Set(res, n, m, h), m, n, h, i, j);
    }
  }

  /**
   * The cells (i, j), j <= i, the loops have filled. RowWise(m, c): the rows
   * before m and the first c cells of row m, diagonal first, as
   * `multiply_lower_tri_self_transpose` visits them. DiagonalFirst(d, m, c):
   * the first d diagonal cells, and below the diagonal the rows before m and
   * the first c cells of row m, as `tcrossprod` visits them.
   */
  datatype Visit = RowWise(m: nat, c: nat) | DiagonalFirst(d: nat, m: nat, c: nat)

  predicate Visited(v: Visit, i: nat, j: nat)
  {
    match v
    case RowWise(m, c) => i < m || (i == m && (if j == i then 0 else j + 1) < c)
    case DiagonalFirst(d, m, c) => (j == i && i < d) || (j < i && (i < m || (i == m && j < c)))
  }

  /** Every visited cell holds its node. */
  ghost predicate Done(g: Graph, res: Mat<nat>, M: Mat<nat>, p: Packing, base: nat, h0: nat, v: Visit)
  {
    Packs(p, M) && Square(res, M.rows)
    && forall i, j :: 0 <= j <= i < M.rows && Visited(v, i, j) ==> SymCell(g, res, M, p, base, h0, i, j)
  }

  /** Placing the node of one more cell extends the visited part by that cell. */
  lemma {:induction false} DoneStep(g: Graph, g2: Graph, res: Mat<nat>, M: Mat<nat>, p: Packing, base: nat, h0: nat,
                                    v: Visit, v2: Visit, m: nat, n: nat, h: nat)
    requires Done(g, res, M, p, base, h0, v) && n <= m < M.rows
    requires Grows(g, g2) && |g2.vals| == |g2.kinds|
    requires h0 <= h && CellNode(g2, h, M, p, base, m, n)
    requires forall i, j :: 0 <= j <= i < M.rows && Visited(v2, i, j) ==> Visited(v, i, j) || (i == m && j == n)
    ensures Done(g2, Place(res, m, n, h), M, p, base, h0, v2)
  {
    var res2 := Place(res, m, n, h);
    forall i, j | 0 <= j <= i < M.rows && Visited(v2, i, j)
      ensures SymCell(g2, res2, M, p, base, h0, i, j)
    {
      PlaceAt(res, m, n, h, i, j);
      PlaceAt(res, m, n, h, j, i);
      if !(i == m && j == n) {
        assert SymCell(g, res, M, p, base, h0, i, j);
        CellNodeGrows(g, g2, At(res, i, j), M, p, base, i, j);
      }
    }
  }

  /** Fewer visited cells are still done. */
  lemma {:induction false} DoneWeaken(g: Graph, res: Mat<nat>, M: Mat<nat>, p: Packing, base: nat, h0: nat, v: Visit, v2: Visit)
    requires Done(g, res, M, p, base, h0, v)
    requires forall i, j :: 0 <= j <= i < M.rows && Visited(v2, i, j) ==> Visited(v, i, j)
    ensures Done(g, res, M, p, base, h0, v2)
  {
  }

  /** Every cell on and below the diagonal holds its node, and the cell above it the same node. */
  ghost predicate AllCells(g: Graph, res: Mat<nat>, M: Mat<nat>, p: Packing, base: nat, h0: nat)
  {
    Packs(p, M) && Square(res, M.rows)
    && forall m, n :: 0 <= n <= m < M.rows ==> SymCell(g, res, M, p, base, h0, m, n)
  }

  /**
   * The state of a builder's node loops: the nodes appended to g0 since (which
   * ends with the packed array), `count` of them, fill the visited cells.
   */
  ghost predicate Progress(g0: Graph, a0: seq<real>, g: Graph, a: seq<real>, res: Mat<nat>, M: Mat<nat>, p: Packing,
                           base: nat, v: Visit, count: nat)
  {
    Appended(g0, a0, g, a) && g.refs == g0.refs && |g.vals| == |g0.vals| + count
    && Done(g, res, M, p, base, |g0.vals|, v)
  }

  /** The packed array of M is stored at base, and M's handles name nodes of g0. */
  ghost predicate Stored(g0: Graph, M: Mat<nat>, p: Packing, base: nat)
  {
    Packs(p, M) && VarMat(M, |g0.vals|) && base <= |g0.refs| && g0.refs[base..] == Packed(M, p, M.rows)
  }

  /** Records the node of cell (m, n) over the stored packed array and places it at (m, n) and (n, m). */
  method RecordCell(t: Tape, res: Mat<nat>, M: Mat<nat>, p: Packing, base: nat, m: nat, n: nat, off: nat,
                    ghost g0: Graph, ghost a0: seq<real>, ghost v: Visit, ghost v2: Visit, ghost count: nat)
      returns (res2: Mat<nat>)
    requires t.Valid() && Stored(g0, M, p, base) && n <= m < M.rows && off == Offset(p, m)
    requires Progress(g0, a0, t.G(), t.adjs, res, M, p, base, v, count)
    requires forall i, j :: 0 <= j <= i < M.rows && Visited(v2, i, j) ==> Visited(v, i, j) || (i == m && j == n)
    modifies t
    ensures t.Valid() && Progress(g0, a0, t.G(), t.adjs, res2, M, p, base, v2, count + 1)
  {
    ghost var g1, a1 := t.G(), t.adjs;
    assert Stored(g1, M, p, base) by {
      assert g1.refs == g0.refs;
    }
    var h := RecordCellNode(t, M, p, base, m, n, off);
    DoneStep(g1, t.G(), res, M, p, base, |g0.vals|, v, v2, m, n, h);
    AppendedTrans(g0, a0, g1, a1, t.G(), t.adjs);
    res2 := Place(res, m, n, h);
  }

  /** The node of cell (m, n): `dot_self` of the diagonal row's piece, `dot_product` of two rows' pieces below it. */
  method RecordCellNode(t: Tape, M: Mat<nat>, p: Packing, base: nat, m: nat, n: nat, off: nat) returns (h: nat)
    requires t.Valid() && Stored(t.G(), M, p, base) && n <= m < M.rows && off == Offset(p, m)
    modifies t
    ensures t.Valid() && Appended(old(t.G()), old(t.adjs), t.G(), t.adjs) && t.refs == old(t.refs)
    ensures h == |old(t.vals)| && |t.vals| == h + 1 && CellNode(t.G(), h, M, p, base, m, n)
  {
    if n == m {
      h := RecordDiagonalNode(t, M, p, base, m, off);
    } else {
      h := RecordBelowNode(t, M, p, base, m, n, off);
    }
  }

  /** Cell (m, m): `dot_self` of row m's piece of the packed array. */
  method RecordDiagonalNode(t: Tape, M: Mat<nat>, p: Packing, base: nat, m: nat, off: nat) returns (h: nat)
    requires t.Valid() && Stored(t.G(), M, p, base) && m < M.rows && off == Offset(p, m)
    modifies t
    ensures t.Valid() && Appended(old(t.G()), old(t.adjs), t.G(), t.adjs) && t.refs == old(t.refs)
    ensures h == |old(t.vals)| && |t.vals| == h + 1 && CellNode(t.G(), h, M, p, base, m, m)
  {
    PackedSlice(t.refs, M, p, base, m, m);
    RowInRange(M, m, |t.vals|);
    assert InRange(Head(M, p, m), |t.vals|);
    h := RecordSquaresAt(t, Slice(base + off, Len(p, m)), Head(M, p, m));
  }

  /** Cell (m, n) for n < m: `dot_product` of the first Len(p, n) entries of rows m and n. */
  method RecordBelowNode(t: Tape, M: Mat<nat>, p: Packing, base: nat, m: nat, n: nat, off: nat) returns (h: nat)
    requires t.Valid() && Stored(t.G(), M, p, base) && n < m < M.rows && off == Offset(p, m)
    modifies t
    ensures t.Valid() && Appended(old(t.G()), old(t.adjs), t.G(), t.adjs) && t.refs == old(t.refs)
    ensures h == |old(t.vals)| && |t.vals| == h + 1 && CellNode(t.G(), h, M, p, base, m, n)
  {
    var s1, s2 := Slice(base + off, Len(p, n)), Slice(base + Offset(p, n), Len(p, n));
    var hs1, hs2 := Row(M, m)[..Len(p, n)], Head(M, p, n);
    BelowOperands(t.G(), M, p, base, m, n);
    h := RecordDotAt(t, s1, s2, hs1, hs2);
    BelowCellNode(t.G(), h, M, p, base, m, n);
  }

  /** The two operand arrays of cell (m, n), n < m: pieces of rows m and n in the stored packed array. */
  lemma {:induction false} BelowOperands(g: Graph, M: Mat<nat>, p: Packing, base: nat, m: nat, n: nat)
    requires Stored(g, M, p, base) && n < m < M.rows
    ensures Len(p, n) <= M.cols && |Row(M, m)[..Len(p, n)]| == |Head(M, p, n)|
    ensures InRange(Row(M, m)[..Len(p, n)], |g.vals|) && InRange(Head(M, p, n), |g.vals|)
    ensures Within(Slice(base + Offset(p, m), Len(p, n)), |g.refs|)
    ensures SliceOf(g.refs, Slice(base + Offset(p, m), Len(p, n))) == Row(M, m)[..Len(p, n)]
    ensures Within(Slice(base + Offset(p, n), Len(p, n)), |g.refs|)
    ensures SliceOf(g.refs, Slice(base + Offset(p, n), Len(p, n))) == Head(M, p, n)
  {
    PackedSlice(g.refs, M, p, base, m, n);
    RowInRange(M, m, |g.vals|);
    assert InRange(Row(M, m)[..Len(p, n)], |g.vals|);
    PackedSlice(g.refs, M, p, base, n, n);
    RowInRange(M, n, |g.vals|);
    assert InRange(Head(M, p, n), |g.vals|);
  }

  lemma {:induction false} BelowCellNode(g: Graph, h: nat, M: Mat<nat>, p: Packing, base: nat, m: nat, n: nat)
    requires Packs(p, M) && n < m < M.rows && Len(p, n) <= M.cols
    requires Records(g, h, Paired(Row(M, m)[..Len(p, n)], Head(M, p, n)))
    requires g.kinds[h] == DotVV(Slice(base + Offset(p, m), Len(p, n)), Slice(base + Offset(p, n), Len(p, n)))
    ensures CellNode(g, h, M, p, base, m, n)
  {
  }

  /**
   * Allocates the `vari*` array of `size` entries in the arena and copies the
   * packed rows of M into it; returns where it starts.
   */
  method StorePacked(t: Tape, M: Mat<nat>, p: Packing, size: nat) returns (base: nat)
    requires t.Valid() && Packs(p, M) && VarMat(M, |t.vals|) && size == Offset(p, M.rows)
    modifies t
    ensures t.Valid() && Appended(old(t.G()), old(t.adjs), t.G(), t.adjs)
    ensures base == |old(t.refs)| && t.refs == old(t.refs) + Packed(M, p, M.rows)
    ensures t.vals == old(t.vals) && t.adjs == old(t.adjs) && Stored(t.G(), M, p, base)
  {
    var vs := PackRows(M, p, size);
    ghost var g0, a0 := t.G(), t.adjs;
    var s := t.PushRefs(vs);
    base := s.start;
    AppendedBy(g0, a0, [], [], vs, []);
    assert t.G() == Graph(g0.vals + [], g0.kinds + [], g0.refs + vs, g0.dbls + []) && t.adjs == a0 + Zeros(0);
    assert t.refs[base..] == vs;
  }

  /** `Knz`: the size of the packed lower triangle, by its closed form (computed in 32-bit ints by the C++ code). */
  function Knz(K: nat, J: nat): (r: nat)
    ensures r == PackedOffset(J, K)
  {
    PackedOffsetClosedForm(J, K);
    if K >= J then (K - J) * J + (J * (J + 1)) / 2 else (K * (K + 1)) / 2
  }

  /**
   * `multiply_lower_tri_self_transpose(L)`: for K = L.rows() > 0, the lower
   * triangle of L (row m up to column min(J, m + 1)) is copied into `vs`; the
   * diagonal cell m is `dot_self` of row m's piece and cell (m, n), n < m, a
   * dot product of the first min(J, n + 1) entries of the pieces of rows m and
   * n. No validation: L need not be square.
   */
  method MultiplyLowerTriSelfTranspose(t: Tape, L: Mat<nat>) returns (LLt: Mat<nat>)
    requires t.Valid() && VarMat(L, |t.vals|)
    modifies t
    ensures t.Valid() && Appended(old(t.G()), old(t.adjs), t.G(), t.adjs) && Square(LLt, L.rows)
    ensures L.rows == 0 ==> t.G() == old(t.G())
    ensures L.rows > 0 ==> t.refs == old(t.refs) + Packed(L, LowerHeads(L.cols), L.rows)
    ensures |t.vals| == |old(t.vals)| + Tri(L.rows)
    ensures AllCells(t.G(), LLt, L, LowerHeads(L.cols), |old(t.refs)|, |old(t.vals)|)
    ensures VarMat(L, |t.vals|) && forall i, j :: 0 <= i < L.rows && 0 <= j < L.rows ==>
      At(LLt, i, j) < |t.vals| && Len(LowerHeads(L.cols), Min(i, j)) <= L.cols
      && t.vals[At(LLt, i, j)] == Primal.Dot(Row(MatValues(t.vals, L), i)[..Len(LowerHeads(L.cols), Min(i, j))],
                                             Row(MatValues(t.vals, L), j)[..Len(LowerHeads(L.cols), Min(i, j))])
  {
    var K, J := L.rows, L.cols;
    LLt := Constant(K, K, 0);
    if K == 0 {
      AppendedRefl(t.G(), t.adjs);
      return;
    }
    var p := LowerHeads(J);
    ghost var gs, ags := t.G(), t.adjs;
    var base := StorePacked(t, L, p, Knz(K, J));
    ghost var g0, a0 := t.G(), t.adjs;
    LLt := LowerRows(t, LLt, L, p, base, g0, a0);
    AppendedTrans(gs, ags, g0, a0, t.G(), t.adjs);
    MatValuesGrows(gs.vals, t.vals, L);
    PackedValues(t.G(), LLt, L, p, base, |gs.vals|);
  }

  /** The node loop of `multiply_lower_tri_self_transpose`, row by row, with `mpos` the start of row m's piece. */
  method LowerRows(t: Tape, LLt: Mat<nat>, L: Mat<nat>, p: Packing, base: nat,
                   ghost g0: Graph, ghost a0: seq<real>) returns (LLt2: Mat<nat>)
    requires t.Valid() && p == LowerHeads(L.cols) && Stored(g0, L, p, base) && Square(LLt, L.rows)
    requires t.G() == g0 && t.adjs == a0
    modifies t
    ensures t.Valid() && Progress(g0, a0, t.G(), t.adjs, LLt2, L, p, base, RowWise(L.rows, 0), Tri(L.rows))
  {
    AppendedRefl(g0, a0);
    LLt2 := LLt;
    var m, mpos := 0, 0;
    while m < L.rows
      invariant 0 <= m <= L.rows && mpos == PackedOffset(L.cols, m) && t.Valid()
      invariant Progress(g0, a0, t.G(), t.adjs, LLt2, L, p, base, RowWise(m, 0), Tri(m))
    {
      LLt2 := LowerRow(t, LLt2, L, p, base, m, mpos, g0, a0);
      m := m + 1;
      mpos := mpos + Min(L.cols, m);
    }
  }

  /**
   * Row m of `multiply_lower_tri_self_transpose`: the diagonal cell, then the
   * cells (m, n) for n < m, with `npos` the start of row n's piece.
   */
  method LowerRow(t: Tape, LLt: Mat<nat>, L: Mat<nat>, p: Packing, base: nat, m: nat, mpos: nat,
                  ghost g0: Graph, ghost a0: seq<real>) returns (LLt2: Mat<nat>)
    requires t.Valid() && p == LowerHeads(L.cols) && Stored(g0, L, p, base) && m < L.rows && mpos == Offset(p, m)
    requires Progress(g0, a0, t.G(), t.adjs, LLt, L, p, base, RowWise(m, 0), Tri(m))
    modifies t
    ensures t.Valid() && Progress(g0, a0, t.G(), t.adjs, LLt2, L, p, base, RowWise(m + 1, 0), Tri(m + 1))
  {
    LLt2 := RecordCell(t, LLt, L, p, base, m, m, mpos, g0, a0, RowWise(m, 0), RowWise(m, 1), Tri(m));
    var n, npos := 0, 0;
    while n < m
      invariant 0 <= n <= m && npos == PackedOffset(L.cols, n) && t.Valid()
      invariant Progress(g0, a0, t.G(), t.adjs, LLt2, L, p, base, RowWise(m, n + 1), Tri(m) + n + 1)
    {
      LLt2 := RecordCell(t, LLt2, L, p, base, m, n, mpos, g0, a0, RowWise(m, n + 1), RowWise(m, n + 2), Tri(m) + n + 1);
      n := n + 1;
      npos := npos + Min(L.cols, n);
    }
    DoneWeaken(t.G(), LLt2, L, p, base, |g0.vals|, RowWise(m, m + 1), RowWise(m + 1, 0));
  }

  /**
   * `tcrossprod(M)`: M times its transpose. For M.rows() >= 1 the rows of M
   * are copied whole into `vs`; first every diagonal cell m becomes
   * `dot_self` of row m's piece, then every cell (m, n), n < m, a dot product
   * of the pieces of rows m and n.
   */
  method Tcrossprod(t: Tape, M: Mat<nat>) returns (MMt: Mat<nat>)
    requires t.Valid() && VarMat(M, |t.vals|)
    modifies t
    ensures t.Valid() && Appended(old(t.G()), old(t.adjs), t.G(), t.adjs) && Square(MMt, M.rows)
    ensures M.rows == 0 ==> t.G() == old(t.G())
    ensures M.rows > 0 ==> t.refs == old(t.refs) + Packed(M, WholeRows(M.cols), M.rows)
    ensures |t.vals| == |old(t.vals)| + Tri(M.rows)
    ensures AllCells(t.G(), MMt, M, WholeRows(M.cols), |old(t.refs)|, |old(t.vals)|)
    ensures VarMat(M, |t.vals|) && forall i, j :: 0 <= i < M.rows && 0 <= j < M.rows ==>
      At(MMt, i, j) < |t.vals| && t.vals[At(MMt, i, j)] == Primal.Dot(Row(MatValues(t.vals, M), i), Row(MatValues(t.vals, M), j))
  {
    var R, C := M.rows, M.cols;
    MMt := Constant(R, R, 0);
    if R == 0 {
      AppendedRefl(t.G(), t.adjs);
      return;
    }
    var p := WholeRows(C);
    ghost var gs, ags := t.G(), t.adjs;
    var base := StorePacked(t, M, p, R * C);
    ghost var g0, a0 := t.G(), t.adjs;
    MMt := CrossDiagonal(t, MMt, M, p, base, g0, a0);
    MMt := CrossRows(t, MMt, M, p, base, g0, a0);
    AppendedTrans(gs, ags, g0, a0, t.G(), t.adjs);
    MatValuesGrows(gs.vals, t.vals, M);
    TcrossprodValues(t.G(), MMt, M, base, |gs.vals|);
  }

  /** The first loop of `tcrossprod`: the diagonal cells. */
  method CrossDiagonal(t: Tape, MMt: Mat<nat>, M: Mat<nat>, p: Packing, base: nat,
                       ghost g0: Graph, ghost a0: seq<real>) returns (MMt2: Mat<nat>)
    requires t.Valid() && p == WholeRows(M.cols) && Stored(g0, M, p, base) && Square(MMt, M.rows)
    requires t.G() == g0 && t.adjs == a0
    modifies t
    ensures t.Valid() && Progress(g0, a0, t.G(), t.adjs, MMt2, M, p, base, DiagonalFirst(M.rows, 0, 0), M.rows)
  {
    AppendedRefl(g0, a0);
    MMt2 := MMt;
    var m := 0;
    while m < M.rows
      invariant 0 <= m <= M.rows && t.Valid()
      invariant Progress(g0, a0, t.G(), t.adjs, MMt2, M, p, base, DiagonalFirst(m, 0, 0), m)
    {
      MMt2 := RecordCell(t, MMt2, M, p, base, m, m, m * M.cols, g0, a0, DiagonalFirst(m, 0, 0), DiagonalFirst(m + 1, 0, 0), m);
      m := m + 1;
    }
  }

  /** The second loop of `tcrossprod`: the cells below the diagonal, row by row. */
  method CrossRows(t: Tape, MMt: Mat<nat>, M: Mat<nat>, p: Packing, base: nat,
                   ghost g0: Graph, ghost a0: seq<real>) returns (MMt2: Mat<nat>)
    requires t.Valid() && p == WholeRows(M.cols) && Stored(g0, M, p, base)
    requires Progress(g0, a0, t.G(), t.adjs, MMt, M, p, base, DiagonalFirst(M.rows, 0, 0), M.rows)
    modifies t
    ensures t.Valid() && Progress(g0, a0, t.G(), t.adjs, MMt2, M, p, base, RowWise(M.rows, 0), Tri(M.rows))
  {
    MMt2 := MMt;
    ghost var count: nat := M.rows;
    var m := 0;
    while m < M.rows
      invariant 0 <= m <= M.rows && t.Valid() && count + m == M.rows + Tri(m)
      invariant Progress(g0, a0, t.G(), t.adjs, MMt2, M, p, base, DiagonalFirst(M.rows, m, 0), count)
    {
      MMt2 := CrossRow(t, MMt2, M, p, base, m, g0, a0, count);
      count := count + m;
      m := m + 1;
    }
    DoneWeaken(t.G(), MMt2, M, p, base, |g0.vals|, DiagonalFirst(M.rows, M.rows, 0), RowWise(M.rows, 0));
  }

  /** Row m of the second loop of `tcrossprod`: the cells (m, n) for n < m. */
  method CrossRow(t: Tape, MMt: Mat<nat>, M: Mat<nat>, p: Packing, base: nat, m: nat,
                  ghost g0: Graph, ghost a0: seq<real>, ghost count: nat) returns (MMt2: Mat<nat>)
    requires t.Valid() && p == WholeRows(M.cols) && Stored(g0, M, p, base) && m < M.rows
    requires Progress(g0, a0, t.G(), t.adjs, MMt, M, p, base, DiagonalFirst(M.rows, m, 0), count)
    modifies t
    ensures t.Valid() && Progress(g0, a0, t.G(), t.adjs, MMt2, M, p, base, DiagonalFirst(M.rows, m + 1, 0), count + m)
  {
    MMt2 := MMt;
    var n := 0;
    while n < m
      invariant 0 <= n <= m && t.Valid()
      invariant Progress(g0, a0, t.G(), t.adjs, MMt2, M, p, base, DiagonalFirst(M.rows, m, n), count + n)
    {
      MMt2 := RecordCell(t, MMt2, M, p, base, m, n, m * M.cols, g0, a0, DiagonalFirst(M.rows, m, n), DiagonalFirst(M.rows, m, n + 1), count + n);
      n := n + 1;
    }
    DoneWeaken(t.G(), MMt2, M, p, base, |g0.vals|, DiagonalFirst(M.rows, m, m), DiagonalFirst(M.rows, m + 1, 0));
  }

  /** `crossprod(M)`: the transpose of M times M, as `tcrossprod` of the transpose. */
  method Crossprod(t: Tape, M: Mat<nat>) returns (MtM: Mat<nat>)
    requires t.Valid() && VarMat(M, |t.vals|)
    modifies t
    ensures t.Valid() && Appended(old(t.G()), old(t.adjs), t.G(), t.adjs) && Square(MtM, M.cols)
    ensures |t.vals| == |old(t.vals)| + Tri(M.cols)
    ensures AllCells(t.G(), MtM, Transpose(M), WholeRows(M.rows), |old(t.refs)|, |old(t.vals)|)
    ensures VarMat(M, |t.vals|) && forall i, j :: 0 <= i < M.cols && 0 <= j < M.cols ==>
      At(MtM, i, j) < |t.vals| && t.vals[At(MtM, i, j)] == Primal.Dot(Col(MatValues(t.vals, M), i), Col(MatValues(t.vals, M), j))
  {
    VarMatTranspose(M, |t.vals|);
    MtM := Tcrossprod(t, Transpose(M));
    MatValuesGrows(old(t.vals), t.vals, M);
    CrossprodValues(t.G(), MtM, M, |old(t.refs)|, |old(t.vals)|);
  }

  /** The values of the first l handles of row m are the first l values of row m. */
  lemma {:induction false} RowPrefixValues(vals: seq<real>, M: Mat<nat>, m: nat, l: nat)
    requires VarMat(M, |vals|) && m < M.rows && l <= M.cols
    ensures InRange(Row(M, m)[..l], |vals|) && Primal.Gather(vals, Row(M, m)[..l]) == Row(MatValues(vals, M), m)[..l]
  {
    GatherRow(vals, M, m);
    Primal.GatherPrefix(vals, Row(M, m), l);
  }

  /** A cell on or below the diagonal: the dot product of the first Len(p, n) values of rows m and n. */
  lemma {:induction false} PackedCellValue(g: Graph, res: Mat<nat>, M: Mat<nat>, p: Packing, base: nat, h0: nat, m: nat, n: nat)
    requires AllCells(g, res, M, p, base, h0) && VarMat(M, |g.vals|) && n <= m < M.rows
    ensures At(res, m, n) < |g.vals| && Len(p, n) <= M.cols
    ensures g.vals[At(res, m, n)]
            == Primal.Dot(Row(MatValues(g.vals, M), m)[..Len(p, n)], Row(MatValues(g.vals, M), n)[..Len(p, n)])
  {
    assert SymCell(g, res, M, p, base, h0, m, n);
    RowPrefixValues(g.vals, M, m, Len(p, n));
    RowPrefixValues(g.vals, M, n, Len(p, n));
  }

  /**
   * Every cell (i, j): the dot product of the first Len(p, min(i, j)) values
   * of rows i and j, the same for (i, j) and (j, i).
   */
  lemma {:induction false} PackedValues(g: Graph, res: Mat<nat>, M: Mat<nat>, p: Packing, base: nat, h0: nat)
    requires AllCells(g, res, M, p, base, h0) && VarMat(M, |g.vals|)
    ensures forall i, j :: 0 <= i < M.rows && 0 <= j < M.rows ==>
      At(res, i, j) < |g.vals| && Len(p, Min(i, j)) <= M.cols
      && g.vals[At(res, i, j)]
         == Primal.Dot(Row(MatValues(g.vals, M), i)[..Len(p, Min(i, j))], Row(MatValues(g.vals, M), j)[..Len(p, Min(i, j))])
  {
    var X := MatValues(g.vals, M);
    forall i, j | 0 <= i < M.rows && 0 <= j < M.rows
      ensures At(res, i, j) < |g.vals| && Len(p, Min(i, j)) <= M.cols
      ensures g.vals[At(res, i, j)] == Primal.Dot(Row(X, i)[..Len(p, Min(i, j))], Row(X, j)[..Len(p, Min(i, j))])
    {
      if j <= i {
        PackedCellValue(g, res, M, p, base, h0, i, j);
      } else {
        assert SymCell(g, res, M, p, base, h0, j, i);
        PackedCellValue(g, res, M, p, base, h0, j, i);
        Primal.DotComm(Row(X, j)[..Len(p, i)], Row(X, i)[..Len(p, i)]);
      }
    }
  }

  /** Nothing above the diagonal: X(i, k) == 0 for k > i. */
  predicate LowerTriangular(X: Mat<real>)
  {
    Shaped(X) && forall i, k :: 0 <= i < X.rows && i < k < X.cols ==> At(X, i, k) == 0.0
  }

  /** A row of a lower-triangular matrix is zero after its diagonal entry. */
  lemma {:induction false} RowZeroTail(X: Mat<real>, a: nat, l: nat)
    requires LowerTriangular(X) && a < X.rows && a + 1 <= l <= X.cols
    ensures forall k :: l <= k < X.cols ==> Row(X, a)[k] == 0.0
  {
  }

  /**
   * For a lower-triangular L, `multiply_lower_tri_self_transpose` is L times
   * its transpose: the truncated dot products drop only zero terms.
   */
  lemma {:induction false} LowerTriSelfTransposeValues(g: Graph, LLt: Mat<nat>, L: Mat<nat>, base: nat, h0: nat)
    requires AllCells(g, LLt, L, LowerHeads(L.cols), base, h0) && VarMat(L, |g.vals|)
    requires LowerTriangular(MatValues(g.vals, L))
    ensures forall i, j :: 0 <= i < L.rows && 0 <= j < L.rows ==>
      At(LLt, i, j) < |g.vals|
      && g.vals[At(LLt, i, j)] == Primal.Dot(Row(MatValues(g.vals, L), i), Row(MatValues(g.vals, L), j))
  {
    var X := MatValues(g.vals, L);
    PackedValues(g, LLt, L, LowerHeads(L.cols), base, h0);
    forall i, j | 0 <= i < L.rows && 0 <= j < L.rows
      ensures At(LLt, i, j) < |g.vals| && g.vals[At(LLt, i, j)] == Primal.Dot(Row(X, i), Row(X, j))
    {
      var a, l := Min(i, j), Min(L.cols, Min(i, j) + 1);
      if l == L.cols {
        assert Row(X, i)[..l] == Row(X, i) && Row(X, j)[..l] == Row(X, j);
      } else if a == j {
        RowZeroTail(X, j, l);
        Primal.DotZeroTail(Row(X, i), Row(X, j), l);
      } else {
        RowZeroTail(X, i, l);
        Primal.DotZeroTail(Row(X, j), Row(X, i), l);
        Primal.DotComm(Row(X, j), Row(X, i));
        Primal.DotComm(Row(X, j)[..l], Row(X, i)[..l]);
      }
    }
  }

  /** `tcrossprod(M)` is M times its transpose: cell (i, j) is the dot product of rows i and j. */
  lemma {:induction false} TcrossprodValues(g: Graph, MMt: Mat<nat>, M: Mat<nat>, base: nat, h0: nat)
    requires AllCells(g, MMt, M, WholeRows(M.cols), base, h0) && VarMat(M, |g.vals|)
    ensures forall i, j :: 0 <= i < M.rows && 0 <= j < M.rows ==>
      At(MMt, i, j) < |g.vals|
      && g.vals[At(MMt, i, j)] == Primal.Dot(Row(MatValues(g.vals, M), i), Row(MatValues(g.vals, M), j))
  {
    var X := MatValues(g.vals, M);
    PackedValues(g, MMt, M, WholeRows(M.cols), base, h0);
    forall i, j | 0 <= i < M.rows && 0 <= j < M.rows
      ensures At(MMt, i, j) < |g.vals| && g.vals[At(MMt, i, j)] == Primal.Dot(Row(X, i), Row(X, j))
    {
      assert Row(X, i)[..M.cols] == Row(X, i) && Row(X, j)[..M.cols] == Row(X, j);
    }
  }

  /** `crossprod(M)` is the transpose of M times M: cell (i, j) is the dot product of columns i and j. */
  lemma {:induction false} CrossprodValues(g: Graph, MtM: Mat<nat>, M: Mat<nat>, base: nat, h0: nat)
    requires VarMat(M, |g.vals|) && AllCells(g, MtM, Transpose(M), WholeRows(M.rows), base, h0)
    ensures forall i, j :: 0 <= i < M.cols && 0 <= j < M.cols ==>
      At(MtM, i, j) < |g.vals|
      && g.vals[At(MtM, i, j)] == Primal.Dot(Col(MatValues(g.vals, M), i), Col(MatValues(g.vals, M), j))
  {
    var X := MatValues(g.vals, M);
    VarMatTranspose(M, |g.vals|);
    TcrossprodValues(g, MtM, Transpose(M), base, h0);
    forall i | 0 <= i < M.cols ensures Row(MatValues(g.vals, Transpose(M)), i) == Col(X, i) {
      GatherRow(g.vals, Transpose(M), i);
      RowOfTranspose(M, i);
      GatherCol(g.vals, M, i);
    }
  }
}
