/**
 * The vector constraint transforms: positive ordered vectors (a cumulative
 * sum of exponentials and its inverse, the logs of successive differences)
 * and the validation and freeing of simplexes.
 */
module VectorTransforms {
  import opened Wrappers
  import opened ScalarTransforms
  import Primal

  /** `CONSTRAINT_TOLERANCE`, 1E-8. */
  const Tolerance: real := 0.00000001

  function Abs(x: real): real
  {
    if x < 0.0 then -x else x
  }

  // POSITIVE ORDERED

  /** What `pos_ordered_validate` accepts: empty, or a positive head and strict increase. */
  predicate PosOrdered(y: seq<real>)
  {
    |y| == 0 || (y[0] > 0.0 && forall k :: 1 <= k < |y| ==> y[k] > y[k - 1])
  }

  /** `pos_ordered_validate`: the loop stops at the first step that does not increase. */
  method PosOrderedValidate(y: seq<real>) returns (ok: bool)
    ensures ok == PosOrdered(y)
  {
    if |y| == 0 {
      return true;
    }
    if !(y[0] > 0.0) {
      return false;
    }
    var k := 1;
    while k < |y|
      invariant 1 <= k <= |y| && forall j :: 1 <= j < k ==> y[j] > y[j - 1]
    {
      if !(y[k] > y[k - 1]) {
        return false;
      }
      k := k + 1;
    }
    return true;
  }

  /** A positive ordered vector has positive entries and increases strictly, and conversely. */
  lemma {:induction false} PosOrderedIff(y: seq<real>)
    ensures PosOrdered(y) <==>
      (forall i :: 0 <= i < |y| ==> y[i] > 0.0) && (forall i, j :: 0 <= i < j < |y| ==> y[i] < y[j])
  {
    if PosOrdered(y) {
      forall i, j | 0 <= i < j < |y| ensures y[i] < y[j] {
        Increasing(y, i, j);
      }
      forall i | 0 <= i < |y| ensures y[i] > 0.0 {
        if i > 0 {
          Increasing(y, 0, i);
        }
      }
    }
  }

  lemma {:induction false} Increasing(y: seq<real>, i: nat, j: nat)
    requires i < j < |y| && forall k :: 1 <= k < |y| ==> y[k] > y[k - 1]
    ensures y[i] < y[j]
    decreases j - i
  {
    if i + 1 < j {
      Increasing(y, i, j - 1);
    }
  }

  /**
   * What `pos_ordered_constrain` computes: y[0] = exp(x[0]) and
   * y[i] = y[i-1] + exp(x[i]).
   */
  function CumulativeExp(e: Elementary, x: seq<real>): (y: seq<real>)
    ensures |y| == |x|
    decreases |x|
  {
    if |x| == 0 then []
    else
      var p := CumulativeExp(e, x[..|x| - 1]);
      p + [(if |p| == 0 then 0.0 else p[|p| - 1]) + e.exp(x[|x| - 1])]
  }

  /** Each entry of the cumulative sum is the previous one plus the exponential of the free entry. */
  lemma {:induction false} CumulativeExpAt(e: Elementary, x: seq<real>, i: nat)
    requires i < |x|
    ensures CumulativeExp(e, x)[i] == (if i == 0 then 0.0 else CumulativeExp(e, x)[i - 1]) + e.exp(x[i])
    decreases |x|
  {
    var n := |x| - 1;
    if i < n {
      CumulativeExpAt(e, x[..n], i);
      assert x[..n][i] == x[i];
    }
  }

  /** `pos_ordered_constrain(x)`: the running sum, filled left to right. */
  method PosOrderedConstrain(e: Elementary, x: seq<real>) returns (y: seq<real>)
    ensures y == CumulativeExp(e, x)
  {
    var k := |x|;
    var ys := new real[k];
    if k > 0 {
      ys[0] := e.exp(x[0]);
      CumulativeExpAt(e, x, 0);
    }
    var i := 1;
    while i < k
      invariant 1 <= i && (k > 0 ==> i <= k) && forall j :: 0 <= j < i && j < k ==> ys[j] == CumulativeExp(e, x)[j]
    {
      ys[i] := ys[i - 1] + e.exp(x[i]);
      CumulativeExpAt(e, x, i);
      i := i + 1;
    }
    y := ys[..];
  }

  /** `pos_ordered_constrain(x, lp)`: the sum of x is added to lp. */
  method PosOrderedConstrainLp(e: Elementary, x: seq<real>, lp: real) returns (y: seq<real>, lp': real)
    ensures y == CumulativeExp(e, x) && lp' == lp + Primal.Sum(x)
  {
    lp' := lp + Primal.Sum(x);
    y := PosOrderedConstrain(e, x);
  }

  /** Every constrained vector is positive ordered. */
  lemma {:induction false} PosOrderedConstrainValid(e: Elementary, x: seq<real>)
    ensures PosOrdered(CumulativeExp(e, x))
  {
    var y := CumulativeExp(e, x);
    if |y| > 0 {
      CumulativeExpAt(e, x, 0);
      forall k | 1 <= k < |y| ensures y[k] > y[k - 1] {
        CumulativeExpAt(e, x, k);
      }
    }
  }

  /**
   * What `pos_ordered_free` returns for a valid y: log(y[0]) followed by
   * log(y[i] - y[i-1]).
   */
  function LogDifferences(e: Elementary, y: seq<real>): (x: seq<real>)
    ensures |x| == |y| && forall i :: 0 <= i < |y| ==> x[i] == e.log(Step(y, i))
  {
    seq(|y|, i requires 0 <= i < |y| => e.log(Step(y, i)))
  }

  /** The step of y at i: y[0] at the head, y[i] - y[i-1] after it. */
  function Step(y: seq<real>, i: nat): real
    requires i < |y|
  {
    if i == 0 then y[0] else y[i] - y[i - 1]
  }

  /** `pos_ordered_free(y)`: `std::domain_error` unless y is positive ordered. */
  method PosOrderedFree(e: Elementary, y: seq<real>) returns (r: Result<seq<real>>)
    ensures r.Err? <==> !PosOrdered(y)
    ensures r.Err? ==> r.error == DomainError
    ensures r.Ok? ==> r.value == LogDifferences(e, y)
  {
    var ok := PosOrderedValidate(y);
    if !ok {
      return Err(DomainError);
    }
    var k := |y|;
    var xs := new real[k];
    if k == 0 {
      return Ok(xs[..]);
    }
    xs[0] := e.log(y[0]);
    var i := 1;
    while i < k
      invariant 1 <= i <= k && forall j :: 0 <= j < i ==> xs[j] == LogDifferences(e, y)[j]
    {
      xs[i] := e.log(y[i] - y[i - 1]);
      assert xs[i] == e.log(Step(y, i));
      i := i + 1;
    }
    return Ok(xs[..]);
  }

  /** Freeing a constrained vector gives back the free vector. */
  lemma {:induction false} PosOrderedRoundTrip(e: Elementary, x: seq<real>)
    requires LogOfExp(e)
    ensures LogDifferences(e, CumulativeExp(e, x)) == x
  {
    var y := CumulativeExp(e, x);
    forall i | 0 <= i < |x| ensures LogDifferences(e, y)[i] == x[i] {
      CumulativeExpAt(e, x, i);
      assert Step(y, i) == e.exp(x[i]);
    }
  }

  /** Constraining the freed form of a positive ordered vector gives back the vector. */
  lemma {:induction false} PosOrderedFreeThenConstrain(e: Elementary, y: seq<real>)
    requires ExpOfLog(e) && PosOrdered(y)
    ensures CumulativeExp(e, LogDifferences(e, y)) == y
  {
    var x := LogDifferences(e, y);
    var c := CumulativeExp(e, x);
    forall i | 0 <= i < |y| ensures c[i] == y[i] {
      PosOrderedPrefix(e, y, i);
    }
  }

  lemma {:induction false} PosOrderedPrefix(e: Elementary, y: seq<real>, i: nat)
    requires ExpOfLog(e) && PosOrdered(y) && i < |y|
    ensures CumulativeExp(e, LogDifferences(e, y))[i] == y[i]
  {
    var x := LogDifferences(e, y);
    CumulativeExpAt(e, x, i);
    if i > 0 {
      PosOrderedPrefix(e, y, i - 1);
    }
    assert Step(y, i) > 0.0;
    assert e.exp(e.log(Step(y, i))) == Step(y, i);
  }

  // SIMPLEX

  /**
   * What `simplex_validate` accepts: a nonempty vector whose sum is within
   * the tolerance of 1 and whose entries are all nonnegative.
   */
  predicate Simplex(y: seq<real>)
  {
    |y| > 0 && Abs(1.0 - Primal.Sum(y)) <= Tolerance && forall i :: 0 <= i < |y| ==> y[i] >= 0.0
  }

  /** `simplex_validate`: the size test, the sum test, then the entries one by one. */
  method SimplexValidate(y: seq<real>) returns (ok: bool)
    ensures ok == Simplex(y)
  {
    if |y| == 0 {
      return false;
    }
    if Abs(1.0 - Primal.Sum(y)) > Tolerance {
      return false;
    }
    var i := 0;
    while i < |y|
      invariant 0 <= i <= |y| && forall j :: 0 <= j < i ==> y[j] >= 0.0
    {
      if !(y[i] >= 0.0) {
        return false;
      }
      i := i + 1;
    }
    return true;
  }

  /** What `simplex_free` returns for a valid simplex of K entries: log y[i] - log y[K-1] for i < K-1. */
  function LogRatios(e: Elementary, y: seq<real>): (x: seq<real>)
    requires |y| > 0
    ensures |x| == |y| - 1
    ensures forall i :: 0 <= i < |y| - 1 ==> x[i] == e.log(y[i]) - e.log(y[|y| - 1])
  {
    seq(|y| - 1, i requires 0 <= i < |y| - 1 => e.log(y[i]) - e.log(y[|y| - 1]))
  }

  /** `simplex_free(y)`: `std::domain_error` unless y is a simplex. */
  method SimplexFree(e: Elementary, y: seq<real>) returns (r: Result<seq<real>>)
    ensures r.Err? <==> !Simplex(y)
    ensures r.Err? ==> r.error == DomainError
    ensures r.Ok? ==> |y| > 0 && r.value == LogRatios(e, y)
  {
    var ok := SimplexValidate(y);
    if !ok {
      return Err(DomainError);
    }
    var kMinus1 := |y| - 1;
    var logLast := e.log(y[kMinus1]);
    var xs := new real[kMinus1];
    var i := 0;
    while i < kMinus1
      invariant 0 <= i <= kMinus1 && forall j :: 0 <= j < i ==> xs[j] == LogRatios(e, y)[j]
    {
      xs[i] := e.log(y[i]) - logLast;
      i := i + 1;
    }
    return Ok(xs[..]);
  }
}
