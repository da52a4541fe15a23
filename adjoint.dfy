/**
 * The algebra of adjoint accumulation. A `chain()` walks a list of target
 * handles and does `adj[h] += d` for each; `AddAt` is that loop as a value,
 * and `SumWhere` is what it adds up at one handle.
 */
module Adjoint {
  /** Every handle in hs addresses one of n slots. */
  predicate InRange(hs: seq<nat>, n: nat)
  {
    forall i :: 0 <= i < |hs| ==> hs[i] < n
  }

  /** a after `a[hs[i]] += ds[i]` for i = 0, 1, ... in order. */
  function AddAt(a: seq<real>, hs: seq<nat>, ds: seq<real>): (r: seq<real>)
    requires |hs| == |ds| && InRange(hs, |a|)
    ensures |r| == |a|
    decreases |hs|
  {
    if |hs| == 0 then a
    else
      var n := |hs| - 1;
      var b := AddAt(a, hs[..n], ds[..n]);
      b[hs[n] := b[hs[n]] + ds[n]]
  }

  /** The sum of the ds[i] whose target hs[i] is h. */
  function SumWhere(hs: seq<nat>, ds: seq<real>, h: nat): real
    requires |hs| == |ds|
    decreases |hs|
  {
    if |hs| == 0 then 0.0
    else
      var n := |hs| - 1;
      SumWhere(hs[..n], ds[..n], h) + (if hs[n] == h then ds[n] else 0.0)
  }

  /** One more `+=` at the end of the walk. */
  lemma {:induction false} AddAtSnoc(a: seq<real>, hs: seq<nat>, ds: seq<real>, h: nat, d: real)
    requires |hs| == |ds| && InRange(hs, |a|) && h < |a|
    ensures InRange(hs + [h], |a|)
    ensures AddAt(a, hs + [h], ds + [d]) == AddAt(a, hs, ds)[h := AddAt(a, hs, ds)[h] + d]
  {
    assert (hs + [h])[..|hs|] == hs;
    assert (ds + [d])[..|ds|] == ds;
  }

  /** The walk over the first i + 1 targets is the walk over the first i, then target i. */
  lemma {:induction false} AddAtPrefix(a: seq<real>, hs: seq<nat>, ds: seq<real>, i: nat)
    requires |hs| == |ds| && InRange(hs, |a|) && i < |hs|
    ensures InRange(hs[..i], |a|) && InRange(hs[..i + 1], |a|)
    ensures AddAt(a, hs[..i + 1], ds[..i + 1])
         == AddAt(a, hs[..i], ds[..i])[hs[i] := AddAt(a, hs[..i], ds[..i])[hs[i]] + ds[i]]
  {
    AddAtSnoc(a, hs[..i], ds[..i], hs[i], ds[i]);
    assert hs[..i + 1] == hs[..i] + [hs[i]] && ds[..i + 1] == ds[..i] + [ds[i]];
  }

  /** Contributions accumulate: every slot ends at its old value plus all that was aimed at it. */
  lemma {:induction false} AddAtIs(a: seq<real>, hs: seq<nat>, ds: seq<real>, h: nat)
    requires |hs| == |ds| && InRange(hs, |a|) && h < |a|
    ensures AddAt(a, hs, ds)[h] == a[h] + SumWhere(hs, ds, h)
    decreases |hs|
  {
    if |hs| > 0 {
      var n := |hs| - 1;
      AddAtIs(a, hs[..n], ds[..n], h);
    }
  }

  /** Adding zeros changes nothing. */
  lemma {:induction false} AddAtZeros(a: seq<real>, hs: seq<nat>, ds: seq<real>)
    requires |hs| == |ds| && InRange(hs, |a|)
    requires forall i :: 0 <= i < |ds| ==> ds[i] == 0.0
    ensures AddAt(a, hs, ds) == a
    decreases |hs|
  {
    if |hs| > 0 {
      var n := |hs| - 1;
      AddAtZeros(a, hs[..n], ds[..n]);
    }
  }

  /** Nothing is added at a handle that is not a target. */
  lemma {:induction false} SumWhereAbsent(hs: seq<nat>, ds: seq<real>, h: nat)
    requires |hs| == |ds|
    requires forall i :: 0 <= i < |hs| ==> hs[i] != h
    ensures SumWhere(hs, ds, h) == 0.0
    decreases |hs|
  {
    if |hs| > 0 {
      var n := |hs| - 1;
      SumWhereAbsent(hs[..n], ds[..n], h);
    }
  }

  /** A slot that no `+=` targets keeps its value. */
  lemma {:induction false} AddAtUntouched(a: seq<real>, hs: seq<nat>, ds: seq<real>, h: nat)
    requires |hs| == |ds| && InRange(hs, |a|) && h < |a|
    requires forall i :: 0 <= i < |hs| ==> hs[i] != h
    ensures AddAt(a, hs, ds)[h] == a[h]
  {
    AddAtIs(a, hs, ds, h);
    SumWhereAbsent(hs, ds, h);
  }

  /** All handles differ: each one differs from every handle before it. */
  predicate Distinct(hs: seq<nat>)
    decreases |hs|
  {
    |hs| == 0 || (Distinct(hs[..|hs| - 1]) && forall i :: 0 <= i < |hs| - 1 ==> hs[i] != hs[|hs| - 1])
  }

  lemma {:induction false} DistinctAt(hs: seq<nat>, i: nat, j: nat)
    requires Distinct(hs) && i < j < |hs|
    ensures hs[i] != hs[j]
    decreases |hs|
  {
    var n := |hs| - 1;
    if j < n {
      DistinctAt(hs[..n], i, j);
    }
  }

  lemma {:induction false} DistinctIntro(hs: seq<nat>)
    requires forall i, j :: 0 <= i < j < |hs| ==> hs[i] != hs[j]
    ensures Distinct(hs)
    decreases |hs|
  {
    if |hs| > 0 {
      var n := |hs| - 1;
      forall i, j | 0 <= i < j < n ensures hs[..n][i] != hs[..n][j] {
        assert hs[..n][i] == hs[i] && hs[..n][j] == hs[j];
      }
      DistinctIntro(hs[..n]);
    }
  }

  /** With distinct targets, target hs[i] receives exactly ds[i]. */
  lemma {:induction false} SumWhereDistinct(hs: seq<nat>, ds: seq<real>, i: nat)
    requires |hs| == |ds| && i < |hs| && Distinct(hs)
    ensures SumWhere(hs, ds, hs[i]) == ds[i]
    decreases |hs|
  {
    var n := |hs| - 1;
    if i < n {
      SumWhereDistinct(hs[..n], ds[..n], i);
    } else {
      SumWhereAbsent(hs[..n], ds[..n], hs[i]);
    }
  }

  lemma {:induction false} AddAtDistinct(a: seq<real>, hs: seq<nat>, ds: seq<real>, i: nat)
    requires |hs| == |ds| && InRange(hs, |a|) && i < |hs| && Distinct(hs)
    ensures AddAt(a, hs, ds)[hs[i]] == a[hs[i]] + ds[i]
  {
    AddAtIs(a, hs, ds, hs[i]);
    SumWhereDistinct(hs, ds, i);
  }

  /** Two walks in a row add up to one walk over both lists. */
  lemma {:induction false} AddAtConcat(a: seq<real>, h1: seq<nat>, d1: seq<real>, h2: seq<nat>, d2: seq<real>)
    requires |h1| == |d1| && |h2| == |d2| && InRange(h1, |a|) && InRange(h2, |a|)
    ensures InRange(h1 + h2, |a|)
    ensures AddAt(AddAt(a, h1, d1), h2, d2) == AddAt(a, h1 + h2, d1 + d2)
    decreases |h2|
  {
    if |h2| == 0 {
      assert h1 + h2 == h1 && d1 + d2 == d1;
    } else {
      var n := |h2| - 1;
      AddAtConcat(a, h1, d1, h2[..n], d2[..n]);
      assert (h1 + h2)[..|h1| + n] == h1 + h2[..n];
      assert (d1 + d2)[..|d1| + n] == d1 + d2[..n];
    }
  }

  lemma {:induction false} SumWhereConcat(h1: seq<nat>, d1: seq<real>, h2: seq<nat>, d2: seq<real>, h: nat)
    requires |h1| == |d1| && |h2| == |d2|
    ensures SumWhere(h1 + h2, d1 + d2, h) == SumWhere(h1, d1, h) + SumWhere(h2, d2, h)
    decreases |h2|
  {
    if |h2| == 0 {
      assert h1 + h2 == h1 && d1 + d2 == d1;
    } else {
      var n := |h2| - 1;
      SumWhereConcat(h1, d1, h2[..n], d2[..n], h);
      assert (h1 + h2)[..|h1| + n] == h1 + h2[..n];
      assert (d1 + d2)[..|d1| + n] == d1 + d2[..n];
    }
  }

  /** [a0, b0, a1, b1, ...]: the order in which a two-sided chain visits its operands. */
  function Interleave<T>(a: seq<T>, b: seq<T>): (r: seq<T>)
    requires |a| == |b|
    ensures |r| == 2 * |a|
    decreases |a|
  {
    if |a| == 0 then []
    else
      var n := |a| - 1;
      Interleave(a[..n], b[..n]) + [a[n], b[n]]
  }

  lemma {:induction false} InterleaveSnoc<T>(a: seq<T>, b: seq<T>, x: T, y: T)
    requires |a| == |b|
    ensures Interleave(a + [x], b + [y]) == Interleave(a, b) + [x, y]
  {
    assert (a + [x])[..|a|] == a;
    assert (b + [y])[..|b|] == b;
  }

  /** Pair i of an interleaving: a[i] at 2i, b[i] at 2i + 1. */
  lemma {:induction false} InterleaveAt<T>(a: seq<T>, b: seq<T>, i: nat)
    requires |a| == |b| && i < |a|
    ensures Interleave(a, b)[2 * i] == a[i] && Interleave(a, b)[2 * i + 1] == b[i]
    decreases |a|
  {
    var n := |a| - 1;
    var front := Interleave(a[..n], b[..n]);
    assert Interleave(a, b) == front + [a[n], b[n]];
    if i < n {
      InterleaveAt(a[..n], b[..n], i);
      assert Interleave(a, b)[2 * i] == front[2 * i];
      assert Interleave(a, b)[2 * i + 1] == front[2 * i + 1];
    }
  }

  /** Each entry of an interleaving comes from one of the two sides. */
  lemma {:induction false} InterleaveFrom<T>(a: seq<T>, b: seq<T>, p: nat)
    requires |a| == |b| && p < 2 * |a|
    ensures Interleave(a, b)[p] in a || Interleave(a, b)[p] in b
  {
    InterleaveAt(a, b, p / 2);
    if p % 2 == 0 {
      assert p == 2 * (p / 2);
    } else {
      assert p == 2 * (p / 2) + 1;
    }
  }

  /** No handle of a occurs in b. */
  predicate Disjoint(a: seq<nat>, b: seq<nat>)
    decreases |b|
  {
    |b| == 0 || (Disjoint(a, b[..|b| - 1]) && forall p :: 0 <= p < |a| ==> a[p] != b[|b| - 1])
  }

  lemma {:induction false} DisjointAt(a: seq<nat>, b: seq<nat>, p: nat, q: nat)
    requires Disjoint(a, b) && p < |a| && q < |b|
    ensures a[p] != b[q]
    decreases |b|
  {
    var n := |b| - 1;
    if q < n {
      DisjointAt(a, b[..n], p, q);
    }
  }

  /**
   * Walking two repeat-free, disjoint target arrays pairwise: target i of
   * each side receives exactly its own amount i.
   */
  lemma {:induction false} PairedAt(a: seq<real>, h1: seq<nat>, h2: seq<nat>, d1: seq<real>, d2: seq<real>, i: nat)
    requires |h1| == |h2| == |d1| == |d2| && InRange(h1, |a|) && InRange(h2, |a|) && i < |h1|
    requires Distinct(h1) && Distinct(h2) && Disjoint(h1, h2)
    ensures InRange(Interleave(h1, h2), |a|)
    ensures AddAt(a, Interleave(h1, h2), Interleave(d1, d2))[h1[i]] == a[h1[i]] + d1[i]
    ensures AddAt(a, Interleave(h1, h2), Interleave(d1, d2))[h2[i]] == a[h2[i]] + d2[i]
  {
    InterleaveInRange(h1, h2, |a|);
    var hs, ds := Interleave(h1, h2), Interleave(d1, d2);
    AddAtIs(a, hs, ds, h1[i]);
    AddAtIs(a, hs, ds, h2[i]);
    SumWhereInterleave(h1, h2, d1, d2, h1[i]);
    SumWhereInterleave(h1, h2, d1, d2, h2[i]);
    SumWhereDistinct(h1, d1, i);
    SumWhereDistinct(h2, d2, i);
    forall q | 0 <= q < |h2| ensures h2[q] != h1[i] {
      DisjointAt(h1, h2, i, q);
    }
    forall p | 0 <= p < |h1| ensures h1[p] != h2[i] {
      DisjointAt(h1, h2, p, i);
    }
    SumWhereAbsent(h2, d2, h1[i]);
    SumWhereAbsent(h1, d1, h2[i]);
  }

  lemma {:induction false} InterleaveInRange(a: seq<nat>, b: seq<nat>, n: nat)
    requires |a| == |b| && InRange(a, n) && InRange(b, n)
    ensures InRange(Interleave(a, b), n)
  {
    forall p | 0 <= p < 2 * |a| ensures Interleave<nat>(a, b)[p] < n {
      var q := p / 2;
      InterleaveAt<nat>(a, b, q);
      if p % 2 == 0 {
        assert p == 2 * q;
      } else {
        assert p == 2 * q + 1;
      }
    }
  }

  /** A handle on neither side is nowhere in the interleaving. */
  lemma {:induction false} InterleaveAbsent(a: seq<nat>, b: seq<nat>, h: nat)
    requires |a| == |b| && h !in a && h !in b
    ensures h !in Interleave(a, b)
  {
    forall p | 0 <= p < 2 * |a| ensures Interleave<nat>(a, b)[p] != h {
      InterleaveFrom<nat>(a, b, p);
    }
  }

  /** Visiting both sides alternately adds the same as visiting one side, then the other. */
  lemma {:induction false} SumWhereInterleave(h1: seq<nat>, h2: seq<nat>, d1: seq<real>, d2: seq<real>, h: nat)
    requires |h1| == |h2| == |d1| == |d2|
    ensures SumWhere(Interleave(h1, h2), Interleave(d1, d2), h) == SumWhere(h1, d1, h) + SumWhere(h2, d2, h)
    decreases |h1|
  {
    if |h1| > 0 {
      var n := |h1| - 1;
      SumWhereInterleave(h1[..n], h2[..n], d1[..n], d2[..n], h);
      var hs, ds := Interleave(h1[..n], h2[..n]), Interleave(d1[..n], d2[..n]);
      assert Interleave(h1, h2) == (hs + [h1[n]]) + [h2[n]];
      assert Interleave(d1, d2) == (ds + [d1[n]]) + [d2[n]];
      assert (hs + [h1[n]])[..|hs|] == hs;
      assert (ds + [d1[n]])[..|ds|] == ds;
      assert ((hs + [h1[n]]) + [h2[n]])[..|hs| + 1] == hs + [h1[n]];
      assert ((ds + [d1[n]]) + [d2[n]])[..|ds| + 1] == ds + [d1[n]];
    }
  }
}
