/**
 * The scalar constraint transforms: for each kind of constraint, `*_constrain`
 * maps a free real onto the constrained set (the `lp` overload also adds the
 * log absolute Jacobian of the map to the caller's `lp`), `*_validate` tests
 * membership of that set and `*_free` maps a member back, throwing when the
 * validator rejects its argument.
 */
module ScalarTransforms {
  import opened Wrappers

  type Positive = x: real | x > 0.0 witness 1.0

  /**
   * The elementary functions the transforms call, as uninterpreted
   * functions: `exp` (whose values are positive), `log`, `log1p`, `log1m`,
   * `logit` and `atanh`.
   */
  datatype Elementary = Elementary(
    exp: real -> Positive,
    log: real -> real,
    log1p: real -> real,
    log1m: real -> real,
    logit: real -> real,
    atanh: real -> real)

  /** `inv_logit(x) = 1 / (1 + exp(-x))`, strictly between 0 and 1. */
  function InvLogit(e: Elementary, x: real): (r: real)
    ensures 0.0 < r < 1.0
  {
    Reciprocal(e.exp(-x))
  }

  /** `tanh(x) = (exp(2x) - 1) / (exp(2x) + 1)`, strictly between -1 and 1. */
  function Tanh(e: Elementary, x: real): (r: real)
    ensures -1.0 < r < 1.0
  {
    var p := e.exp(2.0 * x);
    assert p - 1.0 < p + 1.0 && -(p + 1.0) < p - 1.0;
    (p - 1.0) / (p + 1.0)
  }

  /** 1 / (1 + p) for a positive p lies strictly between 0 and 1. */
  function Reciprocal(p: Positive): (r: real)
    ensures 0.0 < r < 1.0 && r * (1.0 + p) == 1.0
  {
    1.0 / (1.0 + p)
  }

  /*
   * The identities of the elementary functions the round trips rest on, one
   * predicate each, so that a lemma states which of them it needs.
   */

  /** `log(exp(x)) == x`. */
  ghost predicate LogOfExp(e: Elementary)
  {
    forall x :: e.log(e.exp(x)) == x
  }

  /** `exp(log(z)) == z` for positive z. */
  ghost predicate ExpOfLog(e: Elementary)
  {
    forall z :: z > 0.0 ==> e.exp(e.log(z)) == z
  }

  /** `logit(inv_logit(x)) == x`. */
  ghost predicate LogitOfInvLogit(e: Elementary)
  {
    forall x :: e.logit(InvLogit(e, x)) == x
  }

  /** `inv_logit(logit(p)) == p` for p strictly between 0 and 1. */
  ghost predicate InvLogitOfLogit(e: Elementary)
  {
    forall p :: 0.0 < p < 1.0 ==> InvLogit(e, e.logit(p)) == p
  }

  /** `tanh(atanh(y)) == y` for y strictly between -1 and 1. */
  ghost predicate TanhOfAtanh(e: Elementary)
  {
    forall y :: -1.0 < y < 1.0 ==> Tanh(e, e.atanh(y)) == y
  }

  /** `atanh(tanh(x)) == x`. */
  ghost predicate AtanhOfTanh(e: Elementary)
  {
    forall x :: e.atanh(Tanh(e, x)) == x
  }

  /** `exp(x) * exp(-x) == 1`. */
  ghost predicate ExpOfNegation(e: Elementary)
  {
    forall x :: e.exp(x) * e.exp(-x) == 1.0
  }

  // IDENTITY

  /** `identity_constrain(x)`: x itself. */
  function IdentityConstrain(x: real): (y: real)
  {
    x
  }

  /** `identity_constrain(x, lp)`: the identity has Jacobian 1, so lp is left as it was. */
  method IdentityConstrainLp(x: real, lp: real) returns (y: real, lp': real)
    ensures y == IdentityConstrain(x) && lp' == lp
  {
    y, lp' := x, lp;
  }

  /** `identity_validate`: the identity imposes no constraint. */
  predicate IdentityValidate(y: real)
  {
    true
  }

  /** `identity_free(y)`: y itself. */
  function IdentityFree(y: real): (x: real)
  {
    y
  }

  /** The identity transform frees what it constrains, and every value is valid. */
  lemma IdentityRoundTrip(x: real, y: real)
    ensures IdentityValidate(IdentityConstrain(x)) && IdentityFree(IdentityConstrain(x)) == x
    ensures IdentityConstrain(IdentityFree(y)) == y
  {
  }

  // POSITIVE

  /** `positive_constrain(x)`: exp(x), always positive. */
  function PositiveConstrain(e: Elementary, x: real): (y: real)
    ensures y > 0.0
  {
    e.exp(x)
  }

  /** `positive_constrain(x, lp)`: log |d/dx exp(x)| = x is added to lp. */
  method PositiveConstrainLp(e: Elementary, x: real, lp: real) returns (y: real, lp': real)
    ensures y == PositiveConstrain(e, x) && lp' == lp + x
  {
    lp' := lp + x;
    y := e.exp(x);
  }

  /** `positive_validate` accepts zero as well as the positive reals. */
  predicate PositiveValidate(y: real)
  {
    y >= 0.0
  }

  /** `positive_free`: `log(y)`, or `std::domain_error` when the validator fails. */
  function PositiveFree(e: Elementary, y: real): (r: Result<real>)
    ensures r.Err? <==> y < 0.0
    ensures r.Err? ==> r.error == DomainError
  {
    if !PositiveValidate(y) then Err(DomainError) else Ok(e.log(y))
  }

  /** Every constrained value is valid and frees back to the free value. */
  lemma PositiveRoundTrip(e: Elementary, x: real)
    requires LogOfExp(e)
    ensures PositiveValidate(PositiveConstrain(e, x)) && PositiveFree(e, PositiveConstrain(e, x)) == Ok(x)
  {
  }

  /** Every positive value is the constrained value of what it frees to. */
  lemma PositiveFreeThenConstrain(e: Elementary, y: real)
    requires ExpOfLog(e) && y > 0.0
    ensures PositiveFree(e, y).Ok? && PositiveConstrain(e, PositiveFree(e, y).value) == y
  {
  }

  // LOWER BOUND

  /** `lb_constrain(x, lb)`: exp(x) + lb, strictly above the bound. */
  function LbConstrain(e: Elementary, x: real, lb: real): (y: real)
    ensures y > lb
  {
    e.exp(x) + lb
  }

  /** `lb_constrain(x, lb, lp)`: log |d/dx (exp(x) + lb)| = x is added to lp. */
  method LbConstrainLp(e: Elementary, x: real, lb: real, lp: real) returns (y: real, lp': real)
    ensures y == LbConstrain(e, x, lb) && lp' == lp + x
  {
    lp' := lp + x;
    y := e.exp(x) + lb;
  }

  /** `lb_validate`: y is at least the bound. */
  predicate LbValidate(y: real, lb: real)
  {
    y >= lb
  }

  /** `lb_free`: `log(y - lb)`, or `std::invalid_argument` below the bound. */
  function LbFree(e: Elementary, y: real, lb: real): (r: Result<real>)
    ensures r.Err? <==> y < lb
    ensures r.Err? ==> r.error == InvalidArgument
  {
    if !LbValidate(y, lb) then Err(InvalidArgument) else Ok(e.log(y - lb))
  }

  /** A lower-bound constrained value lies strictly above the bound and frees back. */
  lemma LbRoundTrip(e: Elementary, x: real, lb: real)
    requires LogOfExp(e)
    ensures LbConstrain(e, x, lb) > lb && LbFree(e, LbConstrain(e, x, lb), lb) == Ok(x)
  {
    assert LbConstrain(e, x, lb) - lb == e.exp(x);
  }

  /** A value strictly above the bound is the constrained value of what it frees to. */
  lemma LbFreeThenConstrain(e: Elementary, y: real, lb: real)
    requires ExpOfLog(e) && y > lb
    ensures LbFree(e, y, lb).Ok? && LbConstrain(e, LbFree(e, y, lb).value, lb) == y
  {
    assert e.exp(e.log(y - lb)) == y - lb;
  }

  // UPPER BOUND

  /** `ub_constrain(x, ub)`: ub - exp(x), strictly below the bound. */
  function UbConstrain(e: Elementary, x: real, ub: real): (y: real)
    ensures y < ub
  {
    ub - e.exp(x)
  }

  /** `ub_constrain(x, ub, lp)`: x is subtracted from lp. */
  method UbConstrainLp(e: Elementary, x: real, ub: real, lp: real) returns (y: real, lp': real)
    ensures y == UbConstrain(e, x, ub) && lp' == lp - x
  {
    lp' := lp - x;
    y := ub - e.exp(x);
  }

  /** `ub_validate`: y is at most the bound. */
  predicate UbValidate(y: real, ub: real)
  {
    y <= ub
  }

  /** `ub_free`: `log(ub - y)`, or `std::invalid_argument` above the bound. */
  function UbFree(e: Elementary, y: real, ub: real): (r: Result<real>)
    ensures r.Err? <==> y > ub
    ensures r.Err? ==> r.error == InvalidArgument
  {
    if !UbValidate(y, ub) then Err(InvalidArgument) else Ok(e.log(ub - y))
  }

  /** An upper-bound constrained value lies strictly below the bound and frees back. */
  lemma UbRoundTrip(e: Elementary, x: real, ub: real)
    requires LogOfExp(e)
    ensures UbConstrain(e, x, ub) < ub && UbFree(e, UbConstrain(e, x, ub), ub) == Ok(x)
  {
    assert ub - UbConstrain(e, x, ub) == e.exp(x);
  }

  /** A value strictly below the bound is the constrained value of what it frees to. */
  lemma UbFreeThenConstrain(e: Elementary, y: real, ub: real)
    requires ExpOfLog(e) && y < ub
    ensures UbFree(e, y, ub).Ok? && UbConstrain(e, UbFree(e, y, ub).value, ub) == y
  {
    assert e.exp(e.log(ub - y)) == ub - y;
  }

  // LOWER AND UPPER BOUNDS

  /**
   * `lub_constrain(x, lb, ub)`: lb + (ub - lb) inv_logit(x), strictly between
   * the bounds when lb < ub.
   */
  function LubConstrain(e: Elementary, x: real, lb: real, ub: real): (y: real)
    ensures lb < ub ==> lb < y < ub
  {
    var il := InvLogit(e, x);
    ScaledFraction(ub - lb, il);
    lb + (ub - lb) * il
  }

  /** A positive width w times a fraction p in (0, 1) lies strictly between 0 and w. */
  lemma ScaledFraction(w: real, p: real)
    requires 0.0 < p < 1.0
    ensures w > 0.0 ==> 0.0 < w * p < w
  {
    if w > 0.0 {
      assert w * p < w * 1.0;
    }
  }

  /**
   * `lub_constrain(x, lb, ub, lp)`: inv_logit(x) computed from exp(-x) for
   * positive x and from exp(x) otherwise, with the guards that keep it off
   * 1 and 0, and the matching form of the log Jacobian added to lp.
   */
  method LubConstrainLp(e: Elementary, x: real, lb: real, ub: real, lp: real) returns (y: real, lp': real)
    requires ExpOfNegation(e)
    ensures y == LubConstrain(e, x, lb, ub)
    ensures x > 0.0 ==> lp' == lp + e.log(ub - lb) - x - 2.0 * e.log1p(e.exp(-x))
    ensures x <= 0.0 ==> lp' == lp + e.log(ub - lb) + x - 2.0 * e.log1p(e.exp(x))
  {
    var il: real;
    if x > 0.0 {
      var expMinusX := e.exp(-x);
      il := 1.0 / (1.0 + expMinusX);
      assert il == InvLogit(e, x);
      lp' := lp + e.log(ub - lb) - x - 2.0 * e.log1p(expMinusX);
      if il == 1.0 {
        il := 1.0 - 0.000000000000001;
      }
    } else {
      var expX := e.exp(x);
      il := 1.0 - 1.0 / (1.0 + expX);
      lp' := lp + e.log(ub - lb) + x - 2.0 * e.log1p(expX);
      InvLogitOfNonpositive(e, x);
      assert il == InvLogit(e, x);
      if il == 0.0 {
        il := 0.0000000000000000000000000000000000000000000000000000000000000000000000000000000000000000000000000001;
      }
    }
    y := lb + (ub - lb) * il;
  }

  /** The form `1 - 1/(1 + exp(x))` is inv_logit(x) too, and is never 0. */
  lemma InvLogitOfNonpositive(e: Elementary, x: real)
    requires ExpOfNegation(e)
    ensures 1.0 - 1.0 / (1.0 + e.exp(x)) == InvLogit(e, x) && InvLogit(e, x) != 0.0
  {
    var p, q := e.exp(x), e.exp(-x);
    assert p * q == 1.0;
    var r := Reciprocal(p);
    assert 1.0 / (1.0 + p) == r;
    var s := Reciprocal(q);
    assert (1.0 - r) * (1.0 + p) == p;
    assert p * (1.0 + q) == p + 1.0;
    assert (1.0 - r) * (1.0 + q) * (1.0 + p) == (1.0 + p) by {
      assert (1.0 - r) * (1.0 + p) * (1.0 + q) == p * (1.0 + q);
    }
    assert (1.0 - r) * (1.0 + q) == 1.0;
    assert s * (1.0 + q) == 1.0;
    assert 1.0 - r == s;
  }

  /** `lub_validate(y, lb, ub)` holds iff lb <= y <= ub. */
  predicate LubValidate(y: real, lb: real, ub: real)
  {
    lb <= y && y <= ub
  }

  /**
   * `lub_free`: `logit((y - lb) / (ub - lb))`, or `std::invalid_argument`
   * outside [lb, ub]. The one valid point with ub - lb = 0 (y = lb = ub)
   * divides 0 by 0.
   */
  function LubFree(e: Elementary, y: real, lb: real, ub: real): (r: Result<real>)
    requires !(lb == y && y == ub)
    ensures r.Err? <==> !(lb <= y <= ub)
    ensures r.Err? ==> r.error == InvalidArgument
  {
    if !LubValidate(y, lb, ub) then Err(InvalidArgument) else Ok(e.logit((y - lb) / (ub - lb)))
  }

  /** With lb < ub a constrained value lies strictly inside (lb, ub) and frees back. */
  lemma LubRoundTrip(e: Elementary, x: real, lb: real, ub: real)
    requires LogitOfInvLogit(e) && lb < ub
    ensures lb < LubConstrain(e, x, lb, ub) < ub
    ensures LubFree(e, LubConstrain(e, x, lb, ub), lb, ub) == Ok(x)
  {
    var w, il := ub - lb, InvLogit(e, x);
    var y := LubConstrain(e, x, lb, ub);
    assert y - lb == w * il;
    Unscale(w, il);
    assert (y - lb) / w == il;
  }

  /** Dividing w * p by a nonzero w gives p back. */
  lemma Unscale(w: real, p: real)
    requires w != 0.0
    ensures (w * p) / w == p
  {
  }

  /** A value strictly inside (lb, ub) is the constrained value of what it frees to. */
  lemma LubFreeThenConstrain(e: Elementary, y: real, lb: real, ub: real)
    requires InvLogitOfLogit(e) && lb < y < ub
    ensures LubFree(e, y, lb, ub).Ok? && LubConstrain(e, LubFree(e, y, lb, ub).value, lb, ub) == y
  {
    var w := ub - lb;
    var p := (y - lb) / w;
    Fraction(y - lb, w);
    assert InvLogit(e, e.logit(p)) == p;
    assert lb + w * p == y;
  }

  /** A part strictly inside (0, w) is a fraction strictly inside (0, 1) of w. */
  lemma Fraction(part: real, w: real)
    requires 0.0 < part < w
    ensures 0.0 < part / w < 1.0 && w * (part / w) == part
  {
    var p := part / w;
    assert (1.0 - p) * w == w - part;
    PositiveFactor(1.0 - p, w);
  }

  /** A product with a positive right factor is positive only if the left factor is. */
  lemma PositiveFactor(a: real, w: real)
    requires w > 0.0 && a * w > 0.0
    ensures a > 0.0
  {
  }

  // PROBABILITY

  /** `prob_constrain(x)`: inv_logit(x), strictly between 0 and 1. */
  function ProbConstrain(e: Elementary, x: real): (y: real)
    ensures 0.0 < y < 1.0
  {
    InvLogit(e, x)
  }

  /** `prob_constrain(x, lp)`: log(inv_logit(x)) + log1m(inv_logit(x)) is added to lp. */
  method ProbConstrainLp(e: Elementary, x: real, lp: real) returns (y: real, lp': real)
    ensures y == ProbConstrain(e, x)
    ensures lp' == lp + (e.log(ProbConstrain(e, x)) + e.log1m(ProbConstrain(e, x)))
  {
    var il := InvLogit(e, x);
    lp' := lp + (e.log(il) + e.log1m(il));
    y := il;
  }

  /** `prob_validate`: y lies in [0, 1]. */
  predicate ProbValidate(y: real)
  {
    0.0 <= y && y <= 1.0
  }

  /** `prob_free`: `logit(y)`, or `std::domain_error` outside [0, 1]. */
  function ProbFree(e: Elementary, y: real): (r: Result<real>)
    ensures r.Err? <==> !(0.0 <= y <= 1.0)
    ensures r.Err? ==> r.error == DomainError
  {
    if !ProbValidate(y) then Err(DomainError) else Ok(e.logit(y))
  }

  /** A constrained probability lies strictly inside (0, 1) and frees back. */
  lemma ProbRoundTrip(e: Elementary, x: real)
    requires LogitOfInvLogit(e)
    ensures 0.0 < ProbConstrain(e, x) < 1.0 && ProbFree(e, ProbConstrain(e, x)) == Ok(x)
  {
  }

  /** A value strictly inside (0, 1) is the constrained value of what it frees to. */
  lemma ProbFreeThenConstrain(e: Elementary, y: real)
    requires InvLogitOfLogit(e) && 0.0 < y < 1.0
    ensures ProbFree(e, y).Ok? && ProbConstrain(e, ProbFree(e, y).value) == y
  {
  }

  // CORRELATION

  /** `corr_constrain(x)`: tanh(x), strictly between -1 and 1. */
  function CorrConstrain(e: Elementary, x: real): (y: real)
    ensures -1.0 < y < 1.0
  {
    Tanh(e, x)
  }

  /** `corr_constrain(x, lp)`: log1m(tanh(x)^2) is added to lp. */
  method CorrConstrainLp(e: Elementary, x: real, lp: real) returns (y: real, lp': real)
    ensures y == CorrConstrain(e, x) && lp' == lp + CorrJacobian(e, x)
  {
    lp' := lp + CorrJacobian(e, x);
    y := Tanh(e, x);
  }

  /** The log Jacobian of the correlation transform, log |d/dx tanh(x)| = log(1 - tanh(x)^2). */
  function CorrJacobian(e: Elementary, x: real): real
  {
    e.log1m(Tanh(e, x) * Tanh(e, x))
  }

  /** `corr_validate`: y lies in [-1, 1]. */
  predicate CorrValidate(y: real)
  {
    -1.0 <= y && y <= 1.0
  }

  /**
   * `corr_free` as written: it evaluates `corr_validate(y)`, discards the
   * answer and returns `atanh(y)`, so it never throws.
   */
  function CorrFreeAsWritten(e: Elementary, y: real): (x: real)
  {
    var _ := CorrValidate(y);
    e.atanh(y)
  }

  /** 2 is not a correlation, yet `corr_free` as written frees it without complaint. */
  lemma CorrFreeAcceptsInvalid(e: Elementary)
    ensures !CorrValidate(2.0) && CorrFreeAsWritten(e, 2.0) == e.atanh(2.0)
    ensures CorrFree(e, 2.0) == Err(DomainError)
  {
  }

  /**
   * `corr_free` with the check the other `*_free` functions make: `atanh(y)`,
   * or `std::domain_error` outside [-1, 1].
   */
  function CorrFree(e: Elementary, y: real): (r: Result<real>)
    ensures r.Err? <==> !(-1.0 <= y <= 1.0)
    ensures r.Err? ==> r.error == DomainError
    ensures r.Ok? ==> r.value == CorrFreeAsWritten(e, y)
  {
    if !CorrValidate(y) then Err(DomainError) else Ok(e.atanh(y))
  }

  /** A constrained correlation lies strictly inside (-1, 1) and frees back. */
  lemma CorrRoundTrip(e: Elementary, x: real)
    requires AtanhOfTanh(e)
    ensures -1.0 < CorrConstrain(e, x) < 1.0 && CorrFree(e, CorrConstrain(e, x)) == Ok(x)
  {
  }

  /** A value strictly inside (-1, 1) is the constrained value of what it frees to. */
  lemma CorrFreeThenConstrain(e: Elementary, y: real)
    requires TanhOfAtanh(e) && -1.0 < y < 1.0
    ensures CorrFree(e, y).Ok? && CorrConstrain(e, CorrFree(e, y).value) == y
  {
  }
}
