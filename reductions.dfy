/**
 * What a reduction node (`sum_v_vari`, `dot_self_vari`, `dot_product_vv_vari`,
 * `dot_product_vd_vari`) records, stated against its operands, and the
 * methods that record one the way the node constructors do: copying the
 * operand handles into a fresh array, or taking over the array of an earlier
 * node (the `shared_v1` / `shared_v2` constructor arguments).
 */
module Reductions {
  import opened Wrappers
  import opened Adjoint
  import opened Primal
  import opened Layout
  import opened Dense
  import opened Graph
  import opened Vari

  /** A var matrix whose entries are nodes of a tape holding n nodes. */
  predicate VarMat(m: Mat<nat>, n: nat)
  {
    Shaped(m) && InRange(m.data, n)
  }

  /** `validate_vector`: one row or one column. */
  predicate IsVector<T>(m: Mat<T>)
  {
    m.rows == 1 || m.cols == 1
  }

  /** What a reduction node stands for, in terms of its operands. */
  datatype Reduction =
    | Summed(hs: seq<nat>)
    | Squared(hs: seq<nat>)
    | Paired(hs1: seq<nat>, hs2: seq<nat>)
    | Weighted(hs: seq<nat>, xs: seq<real>)

  /** Node h's first operand array (`v_` or `v1_`) holds the handles hs. */
  ghost predicate FirstIs(g: Graph, h: nat, hs: seq<nat>)
  {
    h < |g.kinds|
    && (g.kinds[h].SumV? || g.kinds[h].DotSelf? || g.kinds[h].DotVV? || g.kinds[h].DotVD?)
    && var s := if g.kinds[h].SumV? || g.kinds[h].DotSelf? then g.kinds[h].v else g.kinds[h].v1;
       Within(s, |g.refs|) && SliceOf(g.refs, s) == hs
  }

  /** Node h is a `dot_product_vv_vari` whose `v2_` holds the handles hs. */
  ghost predicate SecondIs(g: Graph, h: nat, hs: seq<nat>)
  {
    h < |g.kinds| && g.kinds[h].DotVV? && Within(g.kinds[h].v2, |g.refs|) && SliceOf(g.refs, g.kinds[h].v2) == hs
  }

  /** Node h is a `dot_product_vd_vari` whose `v2_` holds the doubles xs. */
  ghost predicate SecondHolds(g: Graph, h: nat, xs: seq<real>)
  {
    h < |g.kinds| && g.kinds[h].DotVD? && Within(g.kinds[h].v2, |g.dbls|) && SliceOf(g.dbls, g.kinds[h].v2) == xs
  }

  /**
   * Node h is the reduction red over operands recorded before it: its class,
   * its operand arrays and its value (Σ v, Σ v², Σ v1·v2, Σ v·x).
   */
  ghost predicate Records(g: Graph, h: nat, red: Reduction)
  {
    h < |g.kinds| && |g.vals| == |g.kinds|
    && match red
       case Summed(hs) =>
         InRange(hs, h) && g.kinds[h].SumV? && FirstIs(g, h, hs) && g.vals[h] == Sum(Gather(g.vals, hs))
       case Squared(hs) =>
         InRange(hs, h) && g.kinds[h].DotSelf? && FirstIs(g, h, hs)
         && g.vals[h] == Dot(Gather(g.vals, hs), Gather(g.vals, hs))
       case Paired(hs1, hs2) =>
         |hs1| == |hs2| && InRange(hs1, h) && InRange(hs2, h) && FirstIs(g, h, hs1) && SecondIs(g, h, hs2)
         && g.vals[h] == Dot(Gather(g.vals, hs1), Gather(g.vals, hs2))
       case Weighted(hs, xs) =>
         |hs| == |xs| && InRange(hs, h) && FirstIs(g, h, hs) && SecondHolds(g, h, xs)
         && g.vals[h] == Dot(Gather(g.vals, hs), xs)
  }

  /** The tape after a builder: g0 with nodes and arena entries appended, new adjoints 0. */
  ghost predicate Appended(g0: Graph, a0: seq<real>, g: Graph, a: seq<real>)
  {
    Grows(g0, g) && |a0| == |g0.vals| && |a| == |g.vals| && a == a0 + Zeros(|g.vals| - |g0.vals|)
  }

  lemma {:induction false} AppendedTrans(g0: Graph, a0: seq<real>, g1: Graph, a1: seq<real>, g2: Graph, a2: seq<real>)
    requires Appended(g0, a0, g1, a1) && Appended(g1, a1, g2, a2)
    ensures Appended(g0, a0, g2, a2)
  {
    assert g2.vals[..|g0.vals|] == g2.vals[..|g1.vals|][..|g0.vals|];
    assert g2.kinds[..|g0.kinds|] == g2.kinds[..|g1.kinds|][..|g0.kinds|];
    assert g2.refs[..|g0.refs|] == g2.refs[..|g1.refs|][..|g0.refs|];
    assert g2.dbls[..|g0.dbls|] == g2.dbls[..|g1.dbls|][..|g0.dbls|];
    assert Zeros(|g1.vals| - |g0.vals|) + Zeros(|g2.vals| - |g1.vals|) == Zeros(|g2.vals| - |g0.vals|);
  }

  lemma {:induction false} AppendedRefl(g: Graph, a: seq<real>)
    requires |a| == |g.vals|
    ensures Appended(g, a, g, a)
  {
    assert g.vals[..|g.vals|] == g.vals && g.kinds[..|g.kinds|] == g.kinds;
    assert g.refs[..|g.refs|] == g.refs && g.dbls[..|g.dbls|] == g.dbls;
    assert a + Zeros(0) == a;
  }

  /** Values of earlier nodes stay as they were when more nodes are appended. */
  lemma {:induction false} GatherGrows(vals: seq<real>, vals2: seq<real>, hs: seq<nat>)
    requires InRange(hs, |vals|) && |vals| <= |vals2| && vals2[..|vals|] == vals
    ensures InRange(hs, |vals2|) && Gather(vals2, hs) == Gather(vals, hs)
  {
    forall i | 0 <= i < |hs| ensures Gather(vals2, hs)[i] == Gather(vals, hs)[i] {
      assert vals2[hs[i]] == vals2[..|vals|][hs[i]];
    }
  }

  /** A recorded reduction stays what it is when the tape grows. */
  lemma {:induction false} RecordsGrows(g: Graph, g2: Graph, h: nat, red: Reduction)
    requires Records(g, h, red) && Grows(g, g2) && |g2.vals| == |g2.kinds|
    ensures Records(g2, h, red)
  {
    assert g2.kinds[h] == g2.kinds[..|g.kinds|][h];
    assert g2.vals[h] == g2.vals[..|g.vals|][h];
    var K := g.kinds[h];
    var s := if K.SumV? || K.DotSelf? then K.v else K.v1;
    BelowGrows(g.refs, g2.refs, s, h);
    if K.DotVV? {
      BelowGrows(g.refs, g2.refs, K.v2, h);
    }
    if K.DotVD? {
      SliceOfGrows(g.dbls, g2.dbls, K.v2);
    }
    match red
    case Summed(hs) => GatherGrows(g.vals, g2.vals, hs);
    case Squared(hs) => GatherGrows(g.vals, g2.vals, hs);
    case Paired(hs1, hs2) =>
      GatherGrows(g.vals, g2.vals, hs1);
      GatherGrows(g.vals, g2.vals, hs2);
    case Weighted(hs, _) => GatherGrows(g.vals, g2.vals, hs);
  }

  /** Nodes h and h2 are dot products holding the same first operand array. */
  ghost predicate SameFirst(g: Graph, h: nat, h2: nat)
  {
    h < |g.kinds| && h2 < |g.kinds|
    && (g.kinds[h].DotVV? || g.kinds[h].DotVD?) && (g.kinds[h2].DotVV? || g.kinds[h2].DotVD?)
    && g.kinds[h].v1 == g.kinds[h2].v1
  }

  /** Nodes h and h2 are dot products holding the same second operand array. */
  ghost predicate SameSecond(g: Graph, h: nat, h2: nat)
  {
    h < |g.kinds| && h2 < |g.kinds|
    && (g.kinds[h].DotVV? || g.kinds[h].DotVD?) && (g.kinds[h2].DotVV? || g.kinds[h2].DotVD?)
    && g.kinds[h].v2 == g.kinds[h2].v2
  }

  lemma {:induction false} SameGrows(g: Graph, g2: Graph, h: nat, h2: nat)
    requires Grows(g, g2)
    ensures SameFirst(g, h, h2) ==> SameFirst(g2, h, h2)
    ensures SameSecond(g, h, h2) ==> SameSecond(g2, h, h2)
  {
    if h < |g.kinds| && h2 < |g.kinds| {
      assert g2.kinds[h] == g2.kinds[..|g.kinds|][h];
      assert g2.kinds[h2] == g2.kinds[..|g.kinds|][h2];
    }
  }

  /** The tape after appending to each of its parts, with adjoint 0 for every new node. */
  lemma {:induction false} AppendedBy(g0: Graph, a0: seq<real>, vs: seq<real>, ks: seq<Kind>, rs: seq<nat>, ds: seq<real>)
    requires |a0| == |g0.vals|
    ensures Appended(g0, a0, Graph(g0.vals + vs, g0.kinds + ks, g0.refs + rs, g0.dbls + ds), a0 + Zeros(|vs|))
  {
    assert (g0.vals + vs)[..|g0.vals|] == g0.vals;
    assert (g0.kinds + ks)[..|g0.kinds|] == g0.kinds;
    assert (g0.refs + rs)[..|g0.refs|] == g0.refs;
    assert (g0.dbls + ds)[..|g0.dbls|] == g0.dbls;
  }

  /** `sum_v_vari(v)`: copies the handles hs into a fresh array and records their sum. */
  method RecordSum(t: Tape, hs: seq<nat>) returns (h: nat)
    requires t.Valid() && InRange(hs, |t.vals|)
    modifies t
    ensures t.Valid() && h == |old(t.vals)| && |t.vals| == h + 1
    ensures Appended(old(t.G()), old(t.adjs), t.G(), t.adjs)
    ensures Records(t.G(), h, Summed(hs))
  {
    ghost var g0, a0 := t.G(), t.adjs;
    var s := t.PushRefs(hs);
    h := t.NewSumV(s);
    SingleNode(g0, a0, t.G(), t.adjs, s, hs);
  }

  /** What `RecordSum` and `RecordSquares` leave behind: one node over a fresh copy of hs. */
  lemma {:induction false} SingleNode(g0: Graph, a0: seq<real>, g: Graph, a: seq<real>, s: Slice, hs: seq<nat>)
    requires |a0| == |g0.vals| == |g0.kinds| && InRange(hs, |g0.vals|)
    requires s == Slice(|g0.refs|, |hs|) && g.refs == g0.refs + hs && g.dbls == g0.dbls
    requires |g.vals| == |g.kinds| == |g0.vals| + 1 && g.vals[..|g0.vals|] == g0.vals && a == a0 + [0.0]
    requires g.kinds == g0.kinds + [SumV(s)] || g.kinds == g0.kinds + [DotSelf(s)]
    ensures Appended(g0, a0, g, a)
    ensures InRange(hs, |g.vals|) && Gather(g.vals, hs) == Gather(g0.vals, hs)
    ensures g.kinds[|g0.vals|].SumV? || g.kinds[|g0.vals|].DotSelf?
    ensures FirstIs(g, |g0.vals|, hs)
  {
    assert g.kinds[..|g0.kinds|] == g0.kinds;
    assert g.refs[..|g0.refs|] == g0.refs && g.dbls[..|g0.dbls|] == g0.dbls;
    assert a == a0 + Zeros(1);
    assert SliceOf(g.refs, s) == hs;
    GatherGrows(g0.vals, g.vals, hs);
  }

  /** `dot_self_vari(v)`: copies the handles hs into a fresh array and records their sum of squares. */
  method RecordSquares(t: Tape, hs: seq<nat>) returns (h: nat)
    requires t.Valid() && InRange(hs, |t.vals|)
    modifies t
    ensures t.Valid() && h == |old(t.vals)| && |t.vals| == h + 1
    ensures Appended(old(t.G()), old(t.adjs), t.G(), t.adjs)
    ensures Records(t.G(), h, Squared(hs))
  {
    ghost var g0, a0 := t.G(), t.adjs;
    var s := t.PushRefs(hs);
    h := t.NewDotSelf(s);
    SingleNode(g0, a0, t.G(), t.adjs, s, hs);
  }

  /**
   * `dot_product_vv_vari(v1, v2, shared_v1, shared_v2)`: the value is computed
   * from the operands; each operand array is taken over from the given earlier
   * node, or else copied afresh. A shared node must hold the same handles.
   */
  method RecordDot(t: Tape, hs1: seq<nat>, hs2: seq<nat>, share1: Option<nat>, share2: Option<nat>) returns (h: nat)
    requires t.Valid() && |hs1| == |hs2| && InRange(hs1, |t.vals|) && InRange(hs2, |t.vals|)
    requires share1.Some? ==> FirstIs(t.G(), share1.value, hs1) && t.kinds[share1.value].DotVV?
    requires share2.Some? ==> SecondIs(t.G(), share2.value, hs2)
    modifies t
    ensures t.Valid() && h == |old(t.vals)| && |t.vals| == h + 1
    ensures Appended(old(t.G()), old(t.adjs), t.G(), t.adjs)
    ensures Records(t.G(), h, Paired(hs1, hs2))
    ensures share1.Some? ==> SameFirst(t.G(), h, share1.value)
    ensures share2.Some? ==> SameSecond(t.G(), h, share2.value)
  {
    ghost var g0, a0 := t.G(), t.adjs;
    var s1 := PickFirst(t, hs1, share1);
    ghost var g1 := t.G();
    var s2 := PickSecond(t, hs2, share2);
    SliceOfGrows(g1.refs, t.refs, s1);
    h := t.NewDotVV(s1, s2);
    PairedNode(g0, a0, t.G(), t.adjs, s1, s2, hs1, hs2, share1, share2);
  }

  /** What `RecordDot` leaves behind, as a fact about the tape before and after. */
  lemma {:induction false} PairedNode(g0: Graph, a0: seq<real>, g: Graph, a: seq<real>, s1: Slice, s2: Slice,
                                      hs1: seq<nat>, hs2: seq<nat>, share1: Option<nat>, share2: Option<nat>)
    requires |a0| == |g0.vals| == |g0.kinds| && |hs1| == |hs2| && InRange(hs1, |g0.vals|) && InRange(hs2, |g0.vals|)
    requires |g0.refs| <= |g.refs| && g.refs[..|g0.refs|] == g0.refs && g.dbls == g0.dbls
    requires Within(s1, |g.refs|) && SliceOf(g.refs, s1) == hs1 && Within(s2, |g.refs|) && SliceOf(g.refs, s2) == hs2
    requires g.vals == g0.vals + [Dot(Gather(g0.vals, hs1), Gather(g0.vals, hs2))]
    requires g.kinds == g0.kinds + [DotVV(s1, s2)] && a == a0 + [0.0]
    requires share1.Some? ==> share1.value < |g0.kinds| && g0.kinds[share1.value].DotVV? && s1 == g0.kinds[share1.value].v1
    requires share2.Some? ==> share2.value < |g0.kinds| && g0.kinds[share2.value].DotVV? && s2 == g0.kinds[share2.value].v2
    ensures Appended(g0, a0, g, a) && Records(g, |g0.vals|, Paired(hs1, hs2))
    ensures share1.Some? ==> SameFirst(g, |g0.vals|, share1.value)
    ensures share2.Some? ==> SameSecond(g, |g0.vals|, share2.value)
  {
    var h := |g0.vals|;
    assert g.vals[..h] == g0.vals && g.kinds[..h] == g0.kinds;
    assert g.dbls[..|g0.dbls|] == g0.dbls;
    assert a == a0 + Zeros(1);
    GatherGrows(g0.vals, g.vals, hs1);
    GatherGrows(g0.vals, g.vals, hs2);
    if share1.Some? {
      assert g.kinds[share1.value] == g0.kinds[share1.value];
    }
    if share2.Some? {
      assert g.kinds[share2.value] == g0.kinds[share2.value];
    }
  }

  /** The first operand array of a new dot product: the shared node's, or a fresh copy. */
  method PickFirst(t: Tape, hs: seq<nat>, share: Option<nat>) returns (s: Slice)
    requires t.Valid()
    requires share.Some? ==> FirstIs(t.G(), share.value, hs) && (t.kinds[share.value].DotVV? || t.kinds[share.value].DotVD?)
    modifies t
    ensures t.Valid() && Within(s, |t.refs|) && SliceOf(t.refs, s) == hs
    ensures share.Some? ==> s == old(t.kinds[share.value].v1)
    ensures t.vals == old(t.vals) && t.kinds == old(t.kinds) && t.adjs == old(t.adjs) && t.dbls == old(t.dbls)
    ensures |old(t.refs)| <= |t.refs| && t.refs[..|old(t.refs)|] == old(t.refs)
  {
    if share.Some? {
      s := t.kinds[share.value].v1;
      assert t.refs[..|t.refs|] == t.refs;
    } else {
      s := t.PushRefs(hs);
      assert t.refs[..|old(t.refs)|] == old(t.refs);
    }
  }

  /** The second operand array of a new `dot_product_vv_vari`: the shared node's, or a fresh copy. */
  method PickSecond(t: Tape, hs: seq<nat>, share: Option<nat>) returns (s: Slice)
    requires t.Valid()
    requires share.Some? ==> SecondIs(t.G(), share.value, hs)
    modifies t
    ensures t.Valid() && Within(s, |t.refs|) && SliceOf(t.refs, s) == hs
    ensures share.Some? ==> s == old(t.kinds[share.value].v2)
    ensures t.vals == old(t.vals) && t.kinds == old(t.kinds) && t.adjs == old(t.adjs) && t.dbls == old(t.dbls)
    ensures |old(t.refs)| <= |t.refs| && t.refs[..|old(t.refs)|] == old(t.refs)
  {
    if share.Some? {
      s := t.kinds[share.value].v2;
      assert t.refs[..|t.refs|] == t.refs;
    } else {
      s := t.PushRefs(hs);
      assert t.refs[..|old(t.refs)|] == old(t.refs);
    }
  }

  /** The double array of a new `dot_product_vd_vari`: the shared node's, or a fresh copy. */
  method PickSecondD(t: Tape, xs: seq<real>, share: Option<nat>) returns (s: Slice)
    requires t.Valid()
    requires share.Some? ==> SecondHolds(t.G(), share.value, xs)
    modifies t
    ensures t.Valid() && Within(s, |t.dbls|) && SliceOf(t.dbls, s) == xs
    ensures share.Some? ==> s == old(t.kinds[share.value].v2)
    ensures t.vals == old(t.vals) && t.kinds == old(t.kinds) && t.adjs == old(t.adjs) && t.refs == old(t.refs)
    ensures |old(t.dbls)| <= |t.dbls| && t.dbls[..|old(t.dbls)|] == old(t.dbls)
  {
    if share.Some? {
      s := t.kinds[share.value].v2;
      assert t.dbls[..|t.dbls|] == t.dbls;
    } else {
      s := t.PushDbls(xs);
      assert t.dbls[..|old(t.dbls)|] == old(t.dbls);
    }
  }

  /**
   * `dot_product_vd_vari(v1, v2, shared_v1, shared_v2)`: as `RecordDot`, with
   * the doubles xs as second operand.
   */
  method RecordDotD(t: Tape, hs: seq<nat>, xs: seq<real>, share1: Option<nat>, share2: Option<nat>) returns (h: nat)
    requires t.Valid() && |hs| == |xs| && InRange(hs, |t.vals|)
    requires share1.Some? ==> FirstIs(t.G(), share1.value, hs) && t.kinds[share1.value].DotVD?
    requires share2.Some? ==> SecondHolds(t.G(), share2.value, xs)
    modifies t
    ensures t.Valid() && h == |old(t.vals)| && |t.vals| == h + 1
    ensures Appended(old(t.G()), old(t.adjs), t.G(), t.adjs)
    ensures Records(t.G(), h, Weighted(hs, xs))
    ensures share1.Some? ==> SameFirst(t.G(), h, share1.value)
    ensures share2.Some? ==> SameSecond(t.G(), h, share2.value)
  {
    ghost var g0, a0 := t.G(), t.adjs;
    var s1 := PickFirst(t, hs, share1);
    var s2 := PickSecondD(t, xs, share2);
    h := t.NewDotVD(s1, s2);
    WeightedNode(g0, a0, t.G(), t.adjs, s1, s2, hs, xs, share1, share2);
  }

  /** What `RecordDotD` leaves behind, as a fact about the tape before and after. */
  lemma {:induction false} WeightedNode(g0: Graph, a0: seq<real>, g: Graph, a: seq<real>, s1: Slice, s2: Slice,
                                        hs: seq<nat>, xs: seq<real>, share1: Option<nat>, share2: Option<nat>)
    requires |a0| == |g0.vals| == |g0.kinds| && |hs| == |xs| && InRange(hs, |g0.vals|)
    requires |g0.refs| <= |g.refs| && g.refs[..|g0.refs|] == g0.refs
    requires |g0.dbls| <= |g.dbls| && g.dbls[..|g0.dbls|] == g0.dbls
    requires Within(s1, |g.refs|) && SliceOf(g.refs, s1) == hs && Within(s2, |g.dbls|) && SliceOf(g.dbls, s2) == xs
    requires g.vals == g0.vals + [Dot(Gather(g0.vals, hs), xs)]
    requires g.kinds == g0.kinds + [DotVD(s1, s2)] && a == a0 + [0.0]
    requires share1.Some? ==> share1.value < |g0.kinds| && g0.kinds[share1.value].DotVD? && s1 == g0.kinds[share1.value].v1
    requires share2.Some? ==> share2.value < |g0.kinds| && g0.kinds[share2.value].DotVD? && s2 == g0.kinds[share2.value].v2
    ensures Appended(g0, a0, g, a) && Records(g, |g0.vals|, Weighted(hs, xs))
    ensures share1.Some? ==> SameFirst(g, |g0.vals|, share1.value)
    ensures share2.Some? ==> SameSecond(g, |g0.vals|, share2.value)
  {
    var h := |g0.vals|;
    assert g.vals[..h] == g0.vals && g.kinds[..h] == g0.kinds;
    assert a == a0 + Zeros(1);
    GatherGrows(g0.vals, g.vals, hs);
    if share1.Some? {
      assert g.kinds[share1.value] == g0.kinds[share1.value];
    }
    if share2.Some? {
      assert g.kinds[share2.value] == g0.kinds[share2.value];
    }
  }

  /** The operands of red name nodes below n and pair up in length. */
  predicate Recordable(red: Reduction, n: nat)
  {
    match red
    case Summed(hs) => InRange(hs, n)
    case Squared(hs) => InRange(hs, n)
    case Paired(hs1, hs2) => |hs1| == |hs2| && InRange(hs1, n) && InRange(hs2, n)
    case Weighted(hs, xs) => |hs| == |xs| && InRange(hs, n)
  }

  /** Records red as a new node whose operand arrays are fresh copies. */
  method RecordOne(t: Tape, red: Reduction) returns (h: nat)
    requires t.Valid() && Recordable(red, |t.vals|)
    modifies t
    ensures t.Valid() && h == |old(t.vals)| && |t.vals| == h + 1
    ensures Appended(old(t.G()), old(t.adjs), t.G(), t.adjs)
    ensures Records(t.G(), h, red)
  {
    match red
    case Summed(hs) => h := RecordSum(t, hs);
    case Squared(hs) => h := RecordSquares(t, hs);
    case Paired(hs1, hs2) => h := RecordDot(t, hs1, hs2, None, None);
    case Weighted(hs, xs) => h := RecordDotD(t, hs, xs, None, None);
  }

  /** Node data[p] records reds[p], for every p below |data|. */
  ghost predicate RecordsEach(g: Graph, data: seq<nat>, reds: seq<Reduction>)
  {
    |data| <= |reds| && forall p :: 0 <= p < |data| ==> Records(g, data[p], reds[p])
  }

  lemma {:induction false} RecordsEachGrows(g: Graph, g2: Graph, data: seq<nat>, reds: seq<Reduction>)
    requires RecordsEach(g, data, reds) && Grows(g, g2) && |g2.vals| == |g2.kinds|
    ensures RecordsEach(g2, data, reds)
  {
    forall p | 0 <= p < |data| ensures Records(g2, data[p], reds[p]) {
      RecordsGrows(g, g2, data[p], reds[p]);
    }
  }

  /** One node per reduction, recorded in order, each with fresh operand arrays. */
  method RecordEach(t: Tape, reds: seq<Reduction>) returns (data: seq<nat>)
    requires t.Valid() && forall p :: 0 <= p < |reds| ==> Recordable(reds[p], |t.vals|)
    modifies t
    ensures t.Valid() && Appended(old(t.G()), old(t.adjs), t.G(), t.adjs)
    ensures data == Range(|old(t.vals)|, |reds|) && |t.vals| == |old(t.vals)| + |reds|
    ensures forall p :: 0 <= p < |reds| ==> Records(t.G(), data[p], reds[p])
  {
    ghost var g0, a0 := t.G(), t.adjs;
    AppendedRefl(g0, a0);
    data := [];
    var j := 0;
    while j < |reds|
      invariant 0 <= j <= |reds| && t.Valid() && Appended(g0, a0, t.G(), t.adjs)
      invariant data == Range(|g0.vals|, j) && |t.vals| == |g0.vals| + j
      invariant RecordsEach(t.G(), data, reds)
    {
      ghost var g1, a1 := t.G(), t.adjs;
      RecordableGrows(reds[j], |g0.vals|, |t.vals|);
      var h := RecordOne(t, reds[j]);
      RecordsEachGrows(g1, t.G(), data, reds);
      AppendedTrans(g0, a0, g1, a1, t.G(), t.adjs);
      data := data + [h];
      j := j + 1;
    }
  }

  lemma {:induction false} RecordableGrows(red: Reduction, n: nat, n2: nat)
    requires Recordable(red, n) && n <= n2
    ensures Recordable(red, n2)
  {
  }

  /** A column of a var matrix names only nodes the matrix names. */
  lemma {:induction false} ColInRange(x: Mat<nat>, j: nat, n: nat)
    requires VarMat(x, n) && j < x.cols
    ensures InRange(Col(x, j), n)
  {
    forall k | 0 <= k < x.rows ensures Col(x, j)[k] < n {
      IdxBound(x.rows, x.cols, k, j);
    }
  }

  /** A row of a var matrix names only nodes the matrix names. */
  lemma {:induction false} RowInRange(x: Mat<nat>, i: nat, n: nat)
    requires VarMat(x, n) && i < x.rows
    ensures InRange(Row(x, i), n)
  {
    forall k | 0 <= k < x.cols ensures Row(x, i)[k] < n {
      IdxBound(x.rows, x.cols, i, k);
    }
  }

  /** `dot_self_vari(v, size)` over an operand array s already on the tape (no copy). */
  method RecordSquaresAt(t: Tape, s: Slice, hs: seq<nat>) returns (h: nat)
    requires t.Valid() && Within(s, |t.refs|) && SliceOf(t.refs, s) == hs && InRange(hs, |t.vals|)
    modifies t
    ensures t.Valid() && h == |old(t.vals)| && |t.vals| == h + 1 && t.refs == old(t.refs)
    ensures Appended(old(t.G()), old(t.adjs), t.G(), t.adjs)
    ensures Records(t.G(), h, Squared(hs)) && t.kinds[h] == DotSelf(s)
  {
    ghost var g0, a0 := t.G(), t.adjs;
    h := t.NewDotSelf(s);
    SquaresNode(g0, a0, t.G(), t.adjs, s, hs);
  }

  /** What `RecordSquaresAt` leaves behind, as a fact about the tape before and after. */
  lemma {:induction false} SquaresNode(g0: Graph, a0: seq<real>, g: Graph, a: seq<real>, s: Slice, hs: seq<nat>)
    requires |a0| == |g0.vals| == |g0.kinds| && InRange(hs, |g0.vals|)
    requires g.refs == g0.refs && g.dbls == g0.dbls && Within(s, |g.refs|) && SliceOf(g.refs, s) == hs
    requires g.vals == g0.vals + [Dot(Gather(g0.vals, hs), Gather(g0.vals, hs))]
    requires g.kinds == g0.kinds + [DotSelf(s)] && a == a0 + [0.0]
    ensures Appended(g0, a0, g, a) && Records(g, |g0.vals|, Squared(hs))
  {
    var h := |g0.vals|;
    assert g.vals[..h] == g0.vals && g.kinds[..h] == g0.kinds;
    assert g.refs[..|g0.refs|] == g0.refs && g.dbls[..|g0.dbls|] == g0.dbls;
    assert a == a0 + Zeros(1);
    GatherGrows(g0.vals, g.vals, hs);
  }

  /** `dot_product_vv_vari(v1, v2, length)` over operand arrays s1 and s2 already on the tape (no copy). */
  method RecordDotAt(t: Tape, s1: Slice, s2: Slice, hs1: seq<nat>, hs2: seq<nat>) returns (h: nat)
    requires t.Valid() && |hs1| == |hs2| && InRange(hs1, |t.vals|) && InRange(hs2, |t.vals|)
    requires Within(s1, |t.refs|) && SliceOf(t.refs, s1) == hs1 && Within(s2, |t.refs|) && SliceOf(t.refs, s2) == hs2
    modifies t
    ensures t.Valid() && h == |old(t.vals)| && |t.vals| == h + 1 && t.refs == old(t.refs)
    ensures Appended(old(t.G()), old(t.adjs), t.G(), t.adjs)
    ensures Records(t.G(), h, Paired(hs1, hs2)) && t.kinds[h] == DotVV(s1, s2)
  {
    ghost var g0, a0 := t.G(), t.adjs;
    assert t.refs[..|t.refs|] == t.refs;
    h := t.NewDotVV(s1, s2);
    PairedNode(g0, a0, t.G(), t.adjs, s1, s2, hs1, hs2, None, None);
  }

  /** The values of the nodes of a var matrix, cell by cell. */
  function MatValues(vals: seq<real>, m: Mat<nat>): (r: Mat<real>)
    requires VarMat(m, |vals|)
    ensures Shaped(r) && r.rows == m.rows && r.cols == m.cols
  {
    Mat(m.rows, m.cols, Gather(vals, m.data))
  }

  /** The values of row i of a var matrix are row i of its values. */
  lemma {:induction false} GatherRow(vals: seq<real>, m: Mat<nat>, i: nat)
    requires VarMat(m, |vals|) && i < m.rows
    ensures InRange(Row(m, i), |vals|) && Gather(vals, Row(m, i)) == Row(MatValues(vals, m), i)
  {
    RowInRange(m, i, |vals|);
    forall k | 0 <= k < m.cols ensures Gather(vals, Row(m, i))[k] == Row(MatValues(vals, m), i)[k] {
      IdxBound(m.rows, m.cols, i, k);
    }
  }

  /** The values of column j of a var matrix are column j of its values. */
  lemma {:induction false} GatherCol(vals: seq<real>, m: Mat<nat>, j: nat)
    requires VarMat(m, |vals|) && j < m.cols
    ensures InRange(Col(m, j), |vals|) && Gather(vals, Col(m, j)) == Col(MatValues(vals, m), j)
  {
    ColInRange(m, j, |vals|);
    forall k | 0 <= k < m.rows ensures Gather(vals, Col(m, j))[k] == Col(MatValues(vals, m), j)[k] {
      IdxBound(m.rows, m.cols, k, j);
    }
  }

  /** Every handle of the transpose of a var matrix names a node below n, as the matrix's own do. */
  lemma {:induction false} VarMatTranspose(m: Mat<nat>, n: nat)
    requires VarMat(m, n)
    ensures VarMat(Transpose(m), n)
  {
    var t := Transpose(m);
    forall p | 0 <= p < |t.data| ensures t.data[p] < n {
      PickFullAt(m.cols, m.rows, p);
      CellsInside(Full, m.cols, m.rows, p);
      var c := Cells(Full, m.cols, m.rows)[p];
      TransposeAt(m, c.i, c.j);
      IdxBound(m.rows, m.cols, c.j, c.i);
    }
  }

  /** The values of the transpose of a var matrix are the transpose of its values. */
  lemma {:induction false} ValuesOfTranspose(vals: seq<real>, m: Mat<nat>)
    requires VarMat(m, |vals|)
    ensures VarMat(Transpose(m), |vals|)
    ensures MatValues(vals, Transpose(m)) == Transpose(MatValues(vals, m))
  {
    VarMatTranspose(m, |vals|);
    var x := MatValues(vals, m);
    var l, r := MatValues(vals, Transpose(m)), Transpose(x);
    forall p | 0 <= p < |l.data| ensures l.data[p] == r.data[p] {
      PickFullAt(m.cols, m.rows, p);
      CellsInside(Full, m.cols, m.rows, p);
      var c := Cells(Full, m.cols, m.rows)[p];
      TransposeAt(m, c.i, c.j);
      TransposeAt(x, c.i, c.j);
      IdxBound(m.rows, m.cols, c.j, c.i);
    }
  }

  /** The values of a var matrix stay as they were when more nodes are appended. */
  lemma {:induction false} MatValuesGrows(vals: seq<real>, vals2: seq<real>, m: Mat<nat>)
    requires VarMat(m, |vals|) && |vals| <= |vals2| && vals2[..|vals|] == vals
    ensures VarMat(m, |vals2|) && MatValues(vals2, m) == MatValues(vals, m)
  {
    GatherGrows(vals, vals2, m.data);
  }
}
