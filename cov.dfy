/**
 * The bookkeeping of the matrix constraint transforms: the `make_nu`
 * degrees of freedom, the `k choose 2` size checks, the order in which the
 * free vector of a covariance matrix holds its partial correlations and
 * deviations, and the transforms applied to each part.
 */
module MatrixTransforms {
  import opened Wrappers
  import opened ScalarTransforms
  import opened Layout
  import Primal

  /** k choose 2, the number of pairs of k dimensions. */
  function Choose2(k: nat): nat
  {
    if k == 0 then 0 else Choose2(k - 1) + (k - 1)
  }

  /** One more dimension adds k pairs. */
  lemma Choose2Succ(k: nat)
    ensures Choose2(k + 1) == Choose2(k) + k
  {
  }

  /** The size the source computes, `(k * (k - 1)) / 2`, is k choose 2 (in unbounded arithmetic). */
  lemma {:induction false} Choose2ClosedForm(k: nat)
    ensures (k * (k - 1)) / 2 == Choose2(k)
  {
    if k > 0 {
      Choose2ClosedForm(k - 1);
      var a := (k - 1) * (k - 2);
      assert k * (k - 1) == a + 2 * (k - 1);
      assert (a + 2 * (k - 1)) / 2 == a / 2 + (k - 1);
    }
  }

  // MAKE_NU

  /** `alpha` in group i: eta + (K - 2) / 2, lowered by 0.5 per group. */
  function Alpha(eta: real, k: nat, i: nat): real
  {
    eta + (k as real - 2.0) / 2.0 - 0.5 * i as real
  }

  /**
   * The first g groups of `make_nu`'s output: group i holds K - 1 - i copies
   * of 2 * alpha.
   */
  function NuGroups(eta: real, k: nat, g: nat): (r: seq<real>)
    requires g < k
    ensures |r| + Choose2(k - g) == Choose2(k)
  {
    if g == 0 then []
    else
      var p := NuGroups(eta, k, g - 1);
      Choose2Succ(k - g);
      p + Fill(k - g, 2.0 * Alpha(eta, k, g - 1))
  }

  /** The degrees of freedom `make_nu(eta, K)` is meant to return: all K - 1 groups. */
  function Nu(eta: real, k: nat): (r: seq<real>)
  {
    if k == 0 then [] else NuGroups(eta, k, k - 1)
  }

  /** `make_nu` returns K choose 2 entries. */
  lemma NuLength(eta: real, k: nat)
    ensures |Nu(eta, k)| == Choose2(k)
  {
    if k > 0 {
      assert Choose2(1) == 0;
    }
  }

  /** The first group: K - 1 copies of 2 (eta + (K - 2) / 2). */
  lemma {:induction false} NuHead(eta: real, k: nat)
    requires k >= 1
    ensures |Nu(eta, k)| >= k - 1 && Nu(eta, k)[..k - 1] == Fill(k - 1, 2.0 * (eta + (k as real - 2.0) / 2.0))
  {
    if k > 1 {
      NuGroupsGrow(eta, k, 1, k - 1);
      Choose2Succ(k - 1);
      assert NuGroups(eta, k, 1) == Fill(k - 1, 2.0 * Alpha(eta, k, 0));
    }
  }

  /** The groups of a prefix are a prefix of the groups. */
  lemma {:induction false} NuGroupsGrow(eta: real, k: nat, g: nat, h: nat)
    requires g <= h < k
    ensures |NuGroups(eta, k, g)| <= |NuGroups(eta, k, h)|
    ensures NuGroups(eta, k, h)[..|NuGroups(eta, k, g)|] == NuGroups(eta, k, g)
    decreases h - g
  {
    if g < h {
      NuGroupsGrow(eta, k, g, h - 1);
      var p, q := NuGroups(eta, k, g), NuGroups(eta, k, h - 1);
      assert NuGroups(eta, k, h)[..|q|] == q;
      assert NuGroups(eta, k, h)[..|p|] == q[..|p|];
    }
  }

  /** With eta > 0 every degree of freedom is at least 2 eta, so positive. */
  lemma {:induction false} NuPositive(eta: real, k: nat)
    requires eta > 0.0
    ensures forall p :: 0 <= p < |Nu(eta, k)| ==> Nu(eta, k)[p] >= 2.0 * eta > 0.0
  {
    if k > 0 {
      NuGroupsAtLeast(eta, k, k - 1);
    }
  }

  lemma {:induction false} NuGroupsAtLeast(eta: real, k: nat, g: nat)
    requires g < k
    ensures forall p :: 0 <= p < |NuGroups(eta, k, g)| ==> NuGroups(eta, k, g)[p] >= 2.0 * eta
  {
    if g > 0 {
      NuGroupsAtLeast(eta, k, g - 1);
      assert Alpha(eta, k, g - 1) >= eta;
    }
  }

  /**
   * `make_nu(eta, K)`: the first loop writes group 0, then each later group
   * lowers alpha by 0.5 and writes its K - 1 - i entries at the counter. For
   * K = 0 no entry is written (the source's loop bound K - 1 wraps there).
   */
  method MakeNu(eta: real, k: nat) returns (nu: seq<real>)
    ensures nu == Nu(eta, k) && |nu| == Choose2(k)
  {
    NuLength(eta, k);
    if k == 0 {
      return [];
    }
    var size := PairCount(k);
    var a := new real[size];
    var alpha := eta + (k as real - 2.0) / 2.0;
    var alpha2 := 2.0 * alpha;
    Choose2Succ(k - 1);
    var counter := FillGroup(a, 0, k - 1, alpha2, []);
    if k >= 2 {
      assert a[..counter] == NuGroups(eta, k, 1);
      counter := LaterGroups(a, eta, k, alpha, counter);
    }
    assert Choose2(1) == 0;
    nu := a[..];
  }

  /** The outer loop of `make_nu`: groups 1 to K - 2 after group 0. */
  method LaterGroups(a: array<real>, eta: real, k: nat, alpha0: real, counter0: nat) returns (counter: nat)
    requires k >= 2 && a.Length == Choose2(k) && alpha0 == Alpha(eta, k, 0)
    requires counter0 + Choose2(k - 1) == Choose2(k) && a[..counter0] == NuGroups(eta, k, 1)
    modifies a
    ensures counter == a.Length && a[..] == Nu(eta, k)
  {
    var alpha, alpha2 := alpha0, 2.0 * alpha0;
    counter := counter0;
    var i := 1;
    while i < k - 1
      invariant 1 <= i <= k - 1 && alpha == Alpha(eta, k, i - 1)
      invariant counter + Choose2(k - i) == Choose2(k) && a[..counter] == NuGroups(eta, k, i)
    {
      alpha := alpha - 0.5;
      alpha2 := 2.0 * alpha;
      ghost var done := a[..counter];
      var counter1 := FillGroup(a, counter, k - 1 - i, alpha2, done);
      NuGroupsNext(eta, k, i, alpha, alpha2, counter, done, counter1, a[..counter1]);
      counter, i := counter1, i + 1;
    }
    assert Choose2(1) == 0;
    assert a[..] == a[..counter];
  }

  /**
   * One turn of the outer loop: after group i, written at the counter with
   * alpha lowered by 0.5, the first i + 1 groups are in place.
   */
  lemma {:induction false} NuGroupsNext(eta: real, k: nat, i: nat, alpha: real, v: real, counter: nat,
                                        done: seq<real>, counter1: nat, now: seq<real>)
    requires 1 <= i < k - 1 && alpha + 0.5 == Alpha(eta, k, i - 1)
    requires counter + Choose2(k - i) == Choose2(k) && done == NuGroups(eta, k, i)
    requires v == 2.0 * alpha && counter1 == counter + (k - 1 - i) && now == done + Fill(k - 1 - i, v)
    ensures alpha == Alpha(eta, k, i + 1 - 1)
    ensures counter1 + Choose2(k - (i + 1)) == Choose2(k) && now == NuGroups(eta, k, i + 1)
  {
    Choose2Succ(k - i - 1);
  }

  /** `k_choose_2 = (k * (k - 1)) / 2`, as the source computes it. */
  method PairCount(k: nat) returns (n: nat)
    ensures n == Choose2(k)
  {
    Choose2ClosedForm(k);
    n := (k * (k - 1)) / 2;
  }

  /** The inner loop of `make_nu`: n copies of v at the counter. */
  method FillGroup(a: array<real>, start: nat, n: nat, v: real, ghost done: seq<real>) returns (counter: nat)
    requires start + n <= a.Length && a[..start] == done
    modifies a
    ensures counter == start + n && a[..counter] == done + Fill(n, v)
  {
    counter := start;
    while counter < start + n
      invariant start <= counter <= start + n && a[..counter] == done + Fill(counter - start, v)
    {
      a[counter] := v;
      assert a[..counter + 1] == a[..counter] + [v];
      counter := counter + 1;
    }
  }

  /** 2^32: `unsigned int` arithmetic is modulo this. */
  const Word: nat := 0x1_0000_0000

  /** `K - 1` in `unsigned int`. */
  function UnsignedPred(k: nat): nat
    requires k < Word
  {
    (k + Word - 1) % Word
  }

  /** The size `make_nu` allocates, `K * (K - 1) / 2` in `unsigned int`. */
  function NuSizeAsWritten(k: nat): nat
    requires k < Word
  {
    ((k * UnsignedPred(k)) % Word) / 2
  }

  /** `K - 1` is K's predecessor for K >= 1, and wraps to 2^32 - 1 at 0. */
  lemma UnsignedPredWraps(k: nat)
    requires k < Word
    ensures k >= 1 ==> UnsignedPred(k) == k - 1
    ensures k == 0 ==> UnsignedPred(k) == Word - 1
  {
  }

  /**
   * At K = 0, `make_nu` as written allocates no entry but its first loop,
   * `j < K - 1`, writes 2^32 - 1 of them.
   */
  lemma MakeNuOverrunsAtZero()
    ensures NuSizeAsWritten(0) == 0 && UnsignedPred(0) == Word - 1 && UnsignedPred(0) > NuSizeAsWritten(0)
    ensures |Nu(1.0, 0)| == 0
  {
  }

  // CORRELATION MATRIX

  /** tanh of each entry. */
  function MapTanh(e: Elementary, x: seq<real>): (r: seq<real>)
    ensures |r| == |x| && forall i :: 0 <= i < |x| ==> r[i] == Tanh(e, x[i])
  {
    seq(|x|, i requires 0 <= i < |x| => Tanh(e, x[i]))
  }

  /** exp of each entry. */
  function MapExp(e: Elementary, x: seq<real>): (r: seq<real>)
    ensures |r| == |x| && forall i :: 0 <= i < |x| ==> r[i] == PositiveConstrain(e, x[i])
  {
    seq(|x|, i requires 0 <= i < |x| => PositiveConstrain(e, x[i]))
  }

  /** The log Jacobians of the correlation transform of each entry. */
  function Jacobians(e: Elementary, x: seq<real>): (r: seq<real>)
    ensures |r| == |x| && forall i :: 0 <= i < |x| ==> r[i] == CorrJacobian(e, x[i])
  {
    seq(|x|, i requires 0 <= i < |x| => CorrJacobian(e, x[i]))
  }

  /**
   * The size check and the loop of `corr_matrix_constrain(x, k)`, up to the
   * `read_corr_matrix` call: `std::invalid_argument` unless x holds k choose 2
   * entries, otherwise the canonical partial correlations tanh(x[i]).
   */
  method CorrMatrixCpcs(e: Elementary, x: seq<real>, k: nat) returns (r: Result<seq<real>>)
    ensures r.Err? <==> |x| != Choose2(k)
    ensures r.Err? ==> r.error == InvalidArgument
    ensures r.Ok? ==> r.value == MapTanh(e, x)
  {
    var kChoose2 := PairCount(k);
    if kChoose2 != |x| {
      return Err(InvalidArgument);
    }
    var cpcs := new real[kChoose2];
    var i := 0;
    while i < kChoose2
      invariant 0 <= i <= kChoose2 && forall j :: 0 <= j < i ==> cpcs[j] == Tanh(e, x[j])
    {
      cpcs[i] := CorrConstrain(e, x[i]);
      i := i + 1;
    }
    return Ok(cpcs[..]);
  }

  /**
   * The same for `corr_matrix_constrain(x, k, lp)`: each `corr_constrain(x[i],
   * lp)` adds its log Jacobian to lp (before `read_corr_matrix` adds its own).
   */
  method CorrMatrixCpcsLp(e: Elementary, x: seq<real>, k: nat, lp: real) returns (r: Result<seq<real>>, lp': real)
    ensures r.Err? <==> |x| != Choose2(k)
    ensures r.Err? ==> r.error == InvalidArgument && lp' == lp
    ensures r.Ok? ==> r.value == MapTanh(e, x) && lp' == lp + Primal.Sum(Jacobians(e, x))
  {
    var kChoose2 := PairCount(k);
    if kChoose2 != |x| {
      return Err(InvalidArgument), lp;
    }
    var cpcs;
    cpcs, lp' := CpcsLp(e, x, lp);
    return Ok(cpcs), lp';
  }

  /** The loop of `corr_matrix_constrain(x, k, lp)`: `corr_constrain(x[i], lp)` for each i. */
  method CpcsLp(e: Elementary, x: seq<real>, lp: real) returns (r: seq<real>, lp': real)
    ensures r == MapTanh(e, x) && lp' == lp + Primal.Sum(Jacobians(e, x))
  {
    var cpcs := new real[|x|];
    ghost var ts, js := MapTanh(e, x), Jacobians(e, x);
    lp' := lp;
    var i := 0;
    while i < |x|
      invariant 0 <= i <= |x| && cpcs[..i] == ts[..i]
      invariant lp' == lp + Primal.Sum(js[..i])
    {
      var c;
      ghost var before := lp';
      c, lp' := CorrConstrainLp(e, x[i], lp');
      cpcs[i] := c;
      assert cpcs[..i + 1] == ts[..i + 1];
      AccumulateStep(js, i, lp, before, lp');
      i := i + 1;
    }
    r := cpcs[..];
    assert r == cpcs[..i] && ts == ts[..i] && js == js[..i];
  }

  /** Adding the next term to a running total keeps it the sum of the prefix so far. */
  lemma AccumulateStep(js: seq<real>, i: nat, lp: real, before: real, after: real)
    requires i < |js| && before == lp + Primal.Sum(js[..i]) && after == before + js[i]
    ensures after == lp + Primal.Sum(js[..i + 1])
  {
    Primal.SumPrefix(js, i);
  }

  /** Every canonical partial correlation lies strictly inside (-1, 1), and atanh recovers x. */
  lemma MapTanhValid(e: Elementary, x: seq<real>)
    requires AtanhOfTanh(e)
    ensures forall i :: 0 <= i < |x| ==> -1.0 < MapTanh(e, x)[i] < 1.0 && CorrFree(e, MapTanh(e, x)[i]) == Ok(x[i])
  {
    forall i | 0 <= i < |x| ensures CorrFree(e, MapTanh(e, x)[i]) == Ok(x[i]) {
      CorrRoundTrip(e, x[i]);
    }
  }

  // COVARIANCE MATRIX

  /** The first k choose 2 free values: unconstrained partial correlations. */
  function CovCpcs(x: seq<real>, k: nat): seq<real>
    requires Choose2(k) + k <= |x|
  {
    x[..Choose2(k)]
  }

  /** The k free values after them: unconstrained deviations. */
  function CovSds(x: seq<real>, k: nat): seq<real>
    requires Choose2(k) + k <= |x|
  {
    x[Choose2(k)..Choose2(k) + k]
  }

  /**
   * The loops of `cov_matrix_constrain(x, k)` and of its `lp` overload, up to
   * the `read_cov_matrix` call: `x[pos++]` through tanh for the k choose 2
   * partial correlations, then through exp for the k deviations.
   */
  method CovMatrixParts(e: Elementary, x: seq<real>, k: nat) returns (cpcs: seq<real>, sds: seq<real>)
    requires Choose2(k) + k <= |x|
    ensures cpcs == MapTanh(e, CovCpcs(x, k)) && sds == MapExp(e, CovSds(x, k))
  {
    var kChoose2 := PairCount(k);
    var cs := new real[kChoose2];
    var pos := 0;
    var i := 0;
    while i < kChoose2
      invariant 0 <= i <= kChoose2 && pos == i && forall j :: 0 <= j < i ==> cs[j] == Tanh(e, x[j])
    {
      cs[i] := CorrConstrain(e, x[pos]);
      pos, i := pos + 1, i + 1;
    }
    cpcs := cs[..];
    assert cpcs == MapTanh(e, CovCpcs(x, k));
    var ss := new real[k];
    i := 0;
    while i < k
      invariant 0 <= i <= k && pos == kChoose2 + i
      invariant forall j :: 0 <= j < i ==> ss[j] == PositiveConstrain(e, x[kChoose2 + j])
    {
      ss[i] := PositiveConstrain(e, x[pos]);
      pos, i := pos + 1, i + 1;
    }
    sds := ss[..];
    assert sds == MapExp(e, CovSds(x, k));
  }

  /** What `factor_cov_matrix` fills in: the partial correlations and the deviations. */
  datatype Factors = Factors(cpcs: seq<real>, sds: seq<real>)

  /**
   * `factor_cov_matrix` writes into the k choose 2 and k entries its caller
   * allocated (or reports failure).
   */
  predicate FactorShaped(factor: Mat<real> -> Option<Factors>, y: Mat<real>)
  {
    factor(y).Some? ==> |factor(y).value.cpcs| == Choose2(y.rows) && |factor(y).value.sds| == y.rows
  }

  /**
   * `cov_matrix_free(y)`: `std::domain_error` for an empty or non-square y,
   * `std::runtime_error` when `factor_cov_matrix` fails, and otherwise the
   * k choose 2 partial correlations followed by the k deviations.
   */
  method CovMatrixFree(factor: Mat<real> -> Option<Factors>, y: Mat<real>) returns (r: Result<seq<real>>)
    requires FactorShaped(factor, y)
    ensures r.Err? <==> y.cols != y.rows || y.rows == 0 || factor(y).None?
    ensures r.Err? ==> r.error == (if y.cols != y.rows || y.rows == 0 then DomainError else RuntimeError)
    ensures r.Ok? ==> |r.value| == Choose2(y.rows) + y.rows
    ensures r.Ok? ==> r.value == factor(y).value.cpcs + factor(y).value.sds
  {
    var k := y.rows;
    if y.cols != k || k == 0 {
      return Err(DomainError);
    }
    var kChoose2 := PairCount(k);
    var f := factor(y);
    if f.None? {
      return Err(RuntimeError);
    }
    var cpcs, sds := f.value.cpcs, f.value.sds;
    var x := new real[kChoose2 + k];
    var pos := 0;
    var i := 0;
    while i < kChoose2
      invariant 0 <= i <= kChoose2 && pos == i && x[..pos] == cpcs[..i]
    {
      x[pos] := cpcs[i];
      assert x[..pos + 1] == x[..pos] + [cpcs[i]] && cpcs[..i + 1] == cpcs[..i] + [cpcs[i]];
      pos, i := pos + 1, i + 1;
    }
    i := 0;
    while i < k
      invariant 0 <= i <= k && pos == kChoose2 + i && x[..pos] == cpcs + sds[..i]
    {
      x[pos] := sds[i];
      assert x[..pos + 1] == x[..pos] + [sds[i]] && sds[..i + 1] == sds[..i] + [sds[i]];
      pos, i := pos + 1, i + 1;
    }
    assert x[..] == x[..pos] && sds[..k] == sds;
    return Ok(x[..]);
  }

  /**
   * The free vector `cov_matrix_free` lays out is the one
   * `cov_matrix_constrain` reads: the partial correlations first, the
   * deviations after them.
   */
  lemma CovLayoutRoundTrip(cpcs: seq<real>, sds: seq<real>, k: nat)
    requires |cpcs| == Choose2(k) && |sds| == k
    ensures Choose2(k) + k <= |cpcs + sds|
    ensures CovCpcs(cpcs + sds, k) == cpcs && CovSds(cpcs + sds, k) == sds
  {
    assert (cpcs + sds)[..Choose2(k)] == cpcs;
    assert (cpcs + sds)[Choose2(k)..Choose2(k) + k] == sds;
  }
}
