/**
 * `head(v, n)`: the first n entries of a vector, row vector or
 * `std::vector`, or `std::out_of_range` when n exceeds its size; and its
 * element-wise forms over a `std::vector` of containers, with one length for
 * every element or one length per element.
 */
module Heads {
  import opened Wrappers
  import Layout

  /** `head(v, n)`. */
  function Head<T>(v: seq<T>, n: nat): (r: Result<seq<T>>)
    ensures r.Err? <==> n > |v|
    ensures r.Err? ==> r.error == OutOfRange
    ensures r.Ok? ==> |r.value| == n && forall i :: 0 <= i < n ==> r.value[i] == v[i]
  {
    if n > |v| then Err(OutOfRange) else Ok(v[..n])
  }

  /** `head(vs, ns)`: element i cut to ns[i] entries; out of range if any cut is. */
  function HeadEach<T>(vs: seq<seq<T>>, ns: seq<nat>): (r: Result<seq<seq<T>>>)
    requires |ns| == |vs|
    ensures r.Err? <==> exists i :: 0 <= i < |vs| && ns[i] > |vs[i]|
    ensures r.Err? ==> r.error == OutOfRange
    ensures r.Ok? ==> |r.value| == |vs| && forall i :: 0 <= i < |vs| ==> Head(vs[i], ns[i]) == Ok(r.value[i])
    decreases |vs|
  {
    if |vs| == 0 then Ok([])
    else
      var n := |vs| - 1;
      var front := HeadEach(vs[..n], ns[..n]);
      var last := Head(vs[n], ns[n]);
      if front.Err? then
        assert exists i :: 0 <= i < n && ns[..n][i] > |vs[..n][i]|;
        Err(OutOfRange)
      else if last.Err? then Err(OutOfRange)
      else
        assert forall i :: 0 <= i < n ==> vs[..n][i] == vs[i] && ns[..n][i] == ns[i];
        Ok(front.value + [last.value])
  }

  /** `head(vs, n)`: every element cut to n entries. */
  function HeadAll<T>(vs: seq<seq<T>>, n: nat): (r: Result<seq<seq<T>>>)
  {
    HeadEach(vs, Layout.Fill<nat>(|vs|, n))
  }

  /** One length for every element fails exactly when some element is shorter than it. */
  lemma HeadAllSpec<T>(vs: seq<seq<T>>, n: nat)
    ensures HeadAll(vs, n).Err? <==> exists i :: 0 <= i < |vs| && n > |vs[i]|
    ensures HeadAll(vs, n).Ok? ==>
      |HeadAll(vs, n).value| == |vs| && forall i :: 0 <= i < |vs| ==> HeadAll(vs, n).value[i] == vs[i][..n]
  {
    var r := HeadAll(vs, n);
    if r.Err? {
      var i :| 0 <= i < |vs| && Layout.Fill<nat>(|vs|, n)[i] > |vs[i]|;
    } else {
      forall i | 0 <= i < |vs| ensures r.value[i] == vs[i][..n] {
        assert Head(vs[i], n) == Ok(r.value[i]);
      }
    }
  }

  /** The whole container is its own head, and the empty head always exists. */
  lemma HeadBounds<T>(v: seq<T>)
    ensures Head(v, |v|) == Ok(v) && Head(v, 0) == Ok([])
  {
    assert v[..|v|] == v;
  }

  /** A head of a head is the shorter head. */
  lemma HeadOfHead<T>(v: seq<T>, m: nat, n: nat)
    requires m <= n <= |v|
    ensures Head(v, n).Ok? && Head(Head(v, n).value, m) == Head(v, m)
  {
    assert v[..n][..m] == v[..m];
  }

  /**
   * The single-vector cases the unit test pins down, on v = (1, 2, 3): heads
   * of length 0, 3 and 2 (the first two entries), and out of range at 4.
   */
  lemma HeadExamples()
    ensures Head([1.0, 2.0, 3.0], 0) == Ok([])
    ensures Head([1.0, 2.0, 3.0], 3) == Ok([1.0, 2.0, 3.0])
    ensures Head([1.0, 2.0, 3.0], 4) == Err(OutOfRange)
    ensures Head([1.0, 2.0, 3.0], 2) == Ok([1.0, 2.0])
  {
    var v := [1.0, 2.0, 3.0];
    assert v[..3] == v;
    assert v[..2] == [1.0, 2.0];
  }

  /**
   * The element-wise cases the unit test pins down, on three copies of
   * (1, 2, 3): lengths (1, 2, 1), and the one length 2.
   */
  lemma HeadEachExamples()
    ensures HeadEach([[1.0, 2.0, 3.0], [1.0, 2.0, 3.0], [1.0, 2.0, 3.0]], [1, 2, 1]) == Ok([[1.0], [1.0, 2.0], [1.0]])
    ensures HeadAll([[1, 2, 3], [1, 2, 3], [1, 2, 3]], 2) == Ok([[1, 2], [1, 2], [1, 2]])
  {
    var v := [1.0, 2.0, 3.0];
    var r := HeadEach([v, v, v], [1, 2, 1]);
    assert v[..1] == [1.0] && v[..2] == [1.0, 2.0];
    assert r.Ok?;
    assert r.value[0] == [1.0] && r.value[1] == [1.0, 2.0] && r.value[2] == [1.0];
    assert r.value == [[1.0], [1.0, 2.0], [1.0]];
    var w := [1, 2, 3];
    var q := HeadAll([w, w, w], 2);
    HeadAllSpec([w, w, w], 2);
    assert w[..2] == [1, 2];
    assert q.Ok?;
    assert q.value[0] == [1, 2] && q.value[1] == [1, 2] && q.value[2] == [1, 2];
    assert q.value == [[1, 2], [1, 2], [1, 2]];
  }
}
