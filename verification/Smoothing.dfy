/**
  BiCGSTAB smooths the residual of BiCG by linear factors 1 - omega X: of the same system without preconditioner, of
  the right-preconditioned one with.
 */
module Smoothing {
  import opened Reals
  import opened VectorSpaces
  import opened Systems
  import opened Combinations
  import opened Polynomials
  import opened RightSystem
  import opened Squaring
  import BiCG
  import BiCGSTAB

  /** Q_k = (1 - omega_0 X) ... (1 - omega_(k-1) X), the stabilising polynomial after k passes. */
  function Smoother<V>(u: seq<BiCGSTAB.Iteration<V>>, k: nat): Poly
    requires k <= |u|
  {
    if k == 0 then One else Sum(Smoother(u, k - 1), -u[k - 1].omega, TimesX(Smoother(u, k - 1)))
  }

  /** The ratio of the leading coefficients of Q_k and P_k. */
  function Lead<V>(t: seq<BiCG.Iteration<V>>, u: seq<BiCGSTAB.Iteration<V>>, k: nat): real
    requires k <= |t| && k <= |u|
  {
    if k == 0 then 1.0 else Lead(t, u, k - 1) * Quotient(u[k - 1].omega, t[k - 1].alpha)
  }

  /** y is orthogonal to the first n shadow residuals. */
  ghost predicate Beyond<V>(P: Problem<V>, t: seq<BiCG.Iteration<V>>, n: nat, y: V)
    requires n <= |t|
  {
    forall j :: 0 <= j < n ==> P.S.dot(t[j].rt, y) == 0.0
  }

  /** With no preconditioner the shadow residual is a difference of shadow directions. */
  lemma ShadowResidual<V(!new)>(P: Problem<V>, x0: V, t: seq<BiCG.Iteration<V>>, j: nat, y: V)
    requires Valid(P) && Unpreconditioned(P) && BiCG.Begun(P, x0, t) && j < |t|
    ensures P.S.dot(t[j].rt, y) == P.S.dot(t[j].pt, y) - (if j == 0 then 0.0 else t[j].beta * P.S.dot(t[j - 1].pt, y))
  {
    hide InnerProduct, Linear, Quotient, Problem.Residual, BiCG.Course;
    BiCG.CourseAt(P, x0, t, j);
    if j > 0 {
      Expand(P.S, t[j].zt, t[j].beta, t[j - 1].pt, y);
    }
  }

  /** A shadow direction seen through A: the difference of two shadow residuals. */
  lemma ShadowDirection<V(!new)>(P: Problem<V>, x0: V, t: seq<BiCG.Iteration<V>>, j: nat, y: V)
    requires Valid(P) && HasAdjoints(P) && BiCG.Begun(P, x0, t) && j + 1 < |t|
    ensures t[j].alpha * P.S.dot(t[j].pt, P.A.mult(y)) == P.S.dot(t[j].rt, y) - P.S.dot(t[j + 1].rt, y)
  {
    hide InnerProduct, Linear, Adjoint, Quotient, Problem.Residual, BiCG.Course;
    BiCG.CourseAt(P, x0, t, j);
    BiCG.CourseAt(P, x0, t, j + 1);
    Expand(P.S, t[j].rt, -t[j].alpha, t[j].qt, y);
    Move(P.S, P.A.mult, P.A.transMult, y, t[j].pt);
    Symmetric(P.S, P.A.mult(y), t[j].pt);
    Symmetric(P.S, t[j].qt, y);
  }

  lemma NonzeroAlpha<V(!new)>(P: Problem<V>, x0: V, t: seq<BiCG.Iteration<V>>, j: nat)
    requires BiCG.Begun(P, x0, t) && j + 1 < |t|
    ensures t[j].alpha != 0.0 && t[j].rho != 0.0 && t[j].alpha * P.S.dot(t[j].pt, t[j].q) == t[j].rho
  {
    hide Quotient;
    BiCG.CourseAt(P, x0, t, j);
    BiCG.Scalars(t[j].rho, P.S.dot(t[j].pt, t[j].q), t[j].alpha);
  }

  /** Beyond the residuals 0..j, A lowers residual j to residual j+1. */
  lemma Lowered<V(!new)>(P: Problem<V>, x0: V, t: seq<BiCG.Iteration<V>>, j: nat, y: V)
    requires Valid(P) && HasAdjoints(P) && Unpreconditioned(P) && BiCG.Begun(P, x0, t) && j + 1 < |t|
    requires Beyond(P, t, j + 1, y)
    ensures t[j].alpha * P.S.dot(t[j].rt, P.A.mult(y)) == -P.S.dot(t[j + 1].rt, y)
  {
    hide Valid, HasAdjoints, Unpreconditioned, BiCG.Course;
    ShadowResidual(P, x0, t, j, P.A.mult(y));
    ShadowDirection(P, x0, t, j, y);
    if j > 0 {
      ShadowDirection(P, x0, t, j - 1, y);
      NonzeroAlpha(P, x0, t, j - 1);
      ZeroProduct(t[j - 1].alpha, P.S.dot(t[j - 1].pt, P.A.mult(y)));
    }
  }

  /** Q_k(A^T) of the shadow is Lead_k times shadow residual k, as far as y beyond the earlier ones can tell. */
  lemma {:induction false} LeadingPart<V(!new)>(P: Problem<V>, x0: V, t: seq<BiCG.Iteration<V>>,
        u: seq<BiCGSTAB.Iteration<V>>, k: nat, y: V)
    requires Valid(P) && HasAdjoints(P) && Unpreconditioned(P) && BiCG.Begun(P, x0, t) && k < |t| && k <= |u|
    requires Beyond(P, t, k, y)
    ensures P.S.dot(Eval(P.S, P.A.transMult, Smoother(u, k), P.Residual(x0)), y) == Lead(t, u, k) * P.S.dot(t[k].rt, y)
  {
    hide Valid, HasAdjoints, Unpreconditioned, BiCG.Course, Problem.Residual, Eval, Smoother, Lead, Beyond, Quotient;
    SmootherStep(P, u, k, P.Residual(x0));
    LeadStep(t, u, k);
    if k == 0 {
      StartShadow(P, x0, t);
    } else {
      var w, q, l := u[k - 1].omega, Eval(P.S, P.A.transMult, Smoother(u, k - 1), P.Residual(x0)), Lead(t, u, k - 1);
      var Ay := P.A.mult(y);
      Laws(P);
      Expand(P.S, q, -w, P.A.transMult(q), y);
      Transposed(P, q, y);
      Shorter(P, t, k, y);
      LeadingPart(P, x0, t, u, k - 1, y);
      ImageBeyond(P, x0, t, k - 1, y);
      LeadingPart(P, x0, t, u, k - 1, Ay);
      Lowered(P, x0, t, k - 1, y);
      NonzeroAlpha(P, x0, t, k - 1);
      Ratio(w, t[k - 1].alpha, l, P.S.dot(t[k - 1].rt, Ay), P.S.dot(t[k].rt, y));
    }
  }

  lemma Shorter<V(!new)>(P: Problem<V>, t: seq<BiCG.Iteration<V>>, k: nat, y: V)
    requires 0 < k <= |t| && Beyond(P, t, k, y)
    ensures Beyond(P, t, k - 1, y) && P.S.dot(t[k - 1].rt, y) == 0.0
  {
  }

  lemma SmootherStep<V>(P: Problem<V>, u: seq<BiCGSTAB.Iteration<V>>, k: nat, v: V)
    requires k <= |u|
    ensures var S, At := P.S, P.A.transMult;
      if k == 0 then Eval(S, At, Smoother(u, 0), v) == v
      else
        var q := Eval(S, At, Smoother(u, k - 1), v);
        Eval(S, At, Smoother(u, k), v) == S.axpy(q, -u[k - 1].omega, At(q))
  {
  }

  lemma LeadStep<V>(t: seq<BiCG.Iteration<V>>, u: seq<BiCGSTAB.Iteration<V>>, k: nat)
    requires k <= |t| && k <= |u|
    ensures Lead(t, u, k) == if k == 0 then 1.0 else Lead(t, u, k - 1) * Quotient(u[k - 1].omega, t[k - 1].alpha)
  {
  }

  lemma Ratio(w: real, a: real, l: real, d: real, e: real)
    requires a != 0.0 && a * d == -e
    ensures -w * (l * d) == (l * Quotient(w, a)) * e
  {
    QuotientIs(w, a);
    var q := w / a;
    assert q * a == w;
    assert (l * q) * e == -((l * q) * (a * d)) == -(l * (q * a) * d);
  }

  lemma Laws<V(!new)>(P: Problem<V>)
    requires Valid(P)
    ensures InnerProduct(P.S)
  {
  }

  lemma StartShadow<V>(P: Problem<V>, x0: V, t: seq<BiCG.Iteration<V>>)
    requires BiCG.Begun(P, x0, t) && t != []
    ensures t[0].rt == P.Residual(x0)
  {
    BiCG.CourseAt(P, x0, t, 0);
  }

  lemma Transposed<V(!new)>(P: Problem<V>, q: V, y: V)
    requires Valid(P) && HasAdjoints(P)
    ensures P.S.dot(P.A.transMult(q), y) == P.S.dot(q, P.A.mult(y))
  {
    hide InnerProduct, Linear, Adjoint;
    Move(P.S, P.A.mult, P.A.transMult, y, q);
    Symmetric(P.S, P.A.mult(y), q);
    Symmetric(P.S, P.A.transMult(q), y);
  }

  /** A takes a vector beyond j+1 residuals to one beyond j. */
  lemma ImageBeyond<V(!new)>(P: Problem<V>, x0: V, t: seq<BiCG.Iteration<V>>, n: nat, y: V)
    requires Valid(P) && HasAdjoints(P) && Unpreconditioned(P) && BiCG.Begun(P, x0, t) && n + 1 <= |t|
    requires Beyond(P, t, n + 1, y)
    ensures Beyond(P, t, n, P.A.mult(y))
  {
    hide Valid, HasAdjoints, Unpreconditioned, BiCG.Course;
    forall j | 0 <= j < n ensures P.S.dot(t[j].rt, P.A.mult(y)) == 0.0 {
      Lowered(P, x0, t, j, y);
      NonzeroAlpha(P, x0, t, j);
      ZeroProduct(t[j].alpha, P.S.dot(t[j].rt, P.A.mult(y)));
    }
  }

  /** BiCG's own residual and image lie beyond the earlier shadow residuals. */
  lemma OwnBeyond<V(!new)>(P: Problem<V>, x0: V, t: seq<BiCG.Iteration<V>>, k: nat)
    requires Valid(P) && HasAdjoints(P) && Unpreconditioned(P) && BiCG.Begun(P, x0, t) && k < |t|
    ensures Beyond(P, t, k, t[k].r) && P.S.dot(t[k].rt, t[k].r) == t[k].rho
    ensures Beyond(P, t, k, t[k].q) && P.S.dot(t[k].rt, t[k].q) == P.S.dot(t[k].pt, t[k].q)
  {
    hide InnerProduct, Linear, Adjoint, BiCG.Course, Quotient, Problem.Residual;
    BiCG.CourseAt(P, x0, t, k);
    forall j | 0 <= j < k ensures P.S.dot(t[j].rt, t[k].r) == 0.0 == P.S.dot(t[j].rt, t[k].q) {
      BiCG.Biorthogonal(P, x0, t, k, j);
      BiCG.Biorthogonal(P, x0, t, j, k);
      Symmetric(P.S, t[k].z, t[j].rt);
      ShadowResidual(P, x0, t, j, t[k].q);
      if j > 0 {
        BiCG.Biorthogonal(P, x0, t, j - 1, k);
      }
    }
    Symmetric(P.S, t[k].z, t[k].rt);
    ShadowResidual(P, x0, t, k, t[k].q);
    if k > 0 {
      BiCG.Biorthogonal(P, x0, t, k - 1, k);
    }
  }

  /** A scalar of BiCGSTAB is Lead_k times the scalar of BiCG. */
  lemma ScaledScalar<V(!new)>(P: Problem<V>, x0: V, t: seq<BiCG.Iteration<V>>, u: seq<BiCGSTAB.Iteration<V>>, k: nat,
        y: V)
    requires Valid(P) && HasAdjoints(P) && Unpreconditioned(P) && BiCG.Begun(P, x0, t) && k < |t| && k <= |u|
    requires Beyond(P, t, k, y)
    ensures P.S.dot(P.Residual(x0), Eval(P.S, P.A.mult, Smoother(u, k), y)) == Lead(t, u, k) * P.S.dot(t[k].rt, y)
  {
    hide InnerProduct, Linear, Adjoint, Unpreconditioned, BiCG.Course, Problem.Residual, Eval, Smoother, Lead, Beyond;
    var r0, Q := P.Residual(x0), Smoother(u, k);
    LeadingPart(P, x0, t, u, k, y);
    EvalAdjoint(P.S, P.A.mult, P.A.transMult, Q, y, r0);
    Symmetric(P.S, Eval(P.S, P.A.mult, Q, y), r0);
    Symmetric(P.S, Eval(P.S, P.A.transMult, Q, r0), y);
  }

  /** Pass k of BiCGSTAB, told by pass k of BiCG. */
  ghost predicate Smoothed<V>(P: Problem<V>, v: V, t: seq<BiCG.Iteration<V>>, u: seq<BiCGSTAB.Iteration<V>>, k: nat)
    requires k < |t| && k < |u|
  {
    var S, A, Q := P.S, P.A.mult, Smoother(u, k);
    && u[k].alpha == t[k].alpha && u[k].rho == Lead(t, u, k) * t[k].rho && (k > 0 ==> u[k].beta == t[k].beta)
    && S.dot(v, u[k].v) == Lead(t, u, k) * S.dot(t[k].pt, t[k].q)
    && u[k].r == Eval(S, A, Q, Eval(S, A, ResPoly(t, k), v))
    && u[k].p == Eval(S, A, Q, Eval(S, A, DirPoly(t, k), v))
    && u[k].s == Eval(S, A, Q, Eval(S, A, ResPoly(t, k + 1), v))
  }

  /** Once r and p are known, the rest of the pass follows. */
  lemma FinishSmoothed<V(!new)>(P: Problem<V>, x0: V, t: seq<BiCG.Iteration<V>>, u: seq<BiCGSTAB.Iteration<V>>, k: nat)
    requires Valid(P) && HasAdjoints(P) && Unpreconditioned(P)
    requires BiCG.Begun(P, x0, t) && BiCGSTAB.Run(P, x0, u) && k < |t| && k < |u|
    requires var S, A, Q, v := P.S, P.A.mult, Smoother(u, k), P.Residual(x0);
      && u[k].r == Eval(S, A, Q, Eval(S, A, ResPoly(t, k), v)) && u[k].p == Eval(S, A, Q, Eval(S, A, DirPoly(t, k), v))
    requires k > 0 ==> u[k].beta == t[k].beta
    ensures Smoothed(P, P.Residual(x0), t, u, k)
  {
    hide InnerProduct, Linear, HasAdjoints, Unpreconditioned, BiCG.Course, BiCGSTAB.Run, BiCGSTAB.Continues,
      Problem.Residual, Eval, Smoother, Lead, Beyond, ResPoly, DirPoly, Quotient;
    var S, A, Q, v := P.S, P.A.mult, Smoother(u, k), P.Residual(x0);
    var r, d := Eval(S, A, ResPoly(t, k), v), Eval(S, A, DirPoly(t, k), v);
    BiCGPolynomials(P, x0, t, k);
    ImageOfDirection(P, x0, t, k);
    PlainImages(P, x0, u, k);
    BiCGSTAB.PassAt(P, x0, u, k);
    OwnBeyond(P, x0, t, k);
    ScaledScalar(P, x0, t, u, k, t[k].r);
    ScaledScalar(P, x0, t, u, k, t[k].q);
    EvalShifts(S, A, Q, d);
    assert u[k].v == Eval(S, A, Q, t[k].q);
    SameQuotient(u[k].rho, S.dot(v, u[k].v), Lead(t, u, k), t[k].rho, S.dot(t[k].pt, t[k].q));
    EvalLinear(S, A, Q, r, -t[k].alpha, A(d));
    NextPolynomials(P, t, k, v);
  }

  lemma ImageOfDirection<V>(P: Problem<V>, x0: V, t: seq<BiCG.Iteration<V>>, k: nat)
    requires BiCG.Begun(P, x0, t) && k < |t|
    ensures t[k].q == P.A.mult(t[k].p) && t[k].alpha == Quotient(t[k].rho, P.S.dot(t[k].pt, t[k].q))
  {
    BiCG.CourseAt(P, x0, t, k);
  }

  /** A common factor cancels from a quotient. */
  lemma SameQuotient(a': real, b': real, l: real, a: real, b: real)
    requires a' == l * a && b' == l * b && b' != 0.0
    ensures b != 0.0 && Quotient(a', b') == Quotient(a, b)
  {
    var q, q' := a / b, a' / b';
    assert q * b == a && q' * b' == a';
    assert q * b' == l * (q * b);
    assert (q' - q) * b' == 0.0;
    ZeroProduct(q' - q, b');
  }

  lemma NextPolynomials<V>(P: Problem<V>, t: seq<BiCG.Iteration<V>>, k: nat, v: V)
    requires k < |t|
    ensures var S, A := P.S, P.A.mult;
      var r, d := Eval(S, A, ResPoly(t, k), v), Eval(S, A, DirPoly(t, k), v);
      && Eval(S, A, ResPoly(t, k + 1), v) == S.axpy(r, -t[k].alpha, A(d))
      && (k > 0 ==> d == S.axpy(r, t[k].beta, Eval(S, A, DirPoly(t, k - 1), v)))
  {
  }

  /** Without preconditioner the images of a pass are A of p and of s. */
  lemma PlainImages<V(!new)>(P: Problem<V>, x0: V, u: seq<BiCGSTAB.Iteration<V>>, k: nat)
    requires Unpreconditioned(P) && BiCGSTAB.Run(P, x0, u) && k < |u|
    ensures u[k].v == P.A.mult(u[k].p) && u[k].t == P.A.mult(u[k].s) && u[k].rho == P.S.dot(P.Residual(x0), u[k].r)
  {
    hide BiCGSTAB.Run, Quotient, Problem.Residual;
    BiCGSTAB.PassAt(P, x0, u, k);
  }

  lemma SmoothedResidual<V(!new)>(P: Problem<V>, x0: V, t: seq<BiCG.Iteration<V>>, u: seq<BiCGSTAB.Iteration<V>>,
        k: nat)
    requires Valid(P) && HasAdjoints(P) && Unpreconditioned(P)
    requires BiCG.Begun(P, x0, t) && BiCGSTAB.Run(P, x0, u) && 0 < k < |t| && k < |u|
    requires Smoothed(P, P.Residual(x0), t, u, k - 1)
    ensures u[k].r == Eval(P.S, P.A.mult, Smoother(u, k), t[k].r) && u[k].beta == t[k].beta
  {
    hide Valid, HasAdjoints, Unpreconditioned, BiCG.Course, BiCGSTAB.Run, BiCGSTAB.Consistent, BiCGSTAB.Sound,
      Problem.Residual, Eval, Smoother, Lead, Beyond, ResPoly, DirPoly, Quotient;
    PlainImages(P, x0, u, k - 1);
    PlainImages(P, x0, u, k);
    BiCGSTAB.PassAt(P, x0, u, k);
    BiCGPolynomials(P, x0, t, k);
    NextSmoother(P, u, k, t[k].r);
    OwnBeyond(P, x0, t, k);
    ScaledScalar(P, x0, t, u, k, t[k].r);
    SameBeta(P, x0, t, u, k);
  }

  lemma SmoothedStep<V(!new)>(P: Problem<V>, x0: V, t: seq<BiCG.Iteration<V>>, u: seq<BiCGSTAB.Iteration<V>>, k: nat)
    requires Valid(P) && HasAdjoints(P) && Unpreconditioned(P)
    requires BiCG.Begun(P, x0, t) && BiCGSTAB.Run(P, x0, u) && 0 < k < |t| && k < |u|
    requires Smoothed(P, P.Residual(x0), t, u, k - 1)
    ensures var S, A, Q, v := P.S, P.A.mult, Smoother(u, k), P.Residual(x0);
      && u[k].r == Eval(S, A, Q, Eval(S, A, ResPoly(t, k), v)) && u[k].p == Eval(S, A, Q, Eval(S, A, DirPoly(t, k), v))
      && u[k].beta == t[k].beta
  {
    hide InnerProduct, Linear, HasAdjoints, Unpreconditioned, BiCG.Course, BiCGSTAB.Run, BiCGSTAB.Consistent,
      BiCGSTAB.Sound, Problem.Residual, Eval, Smoother, Lead, ResPoly, DirPoly, Quotient;
    var d := Eval(P.S, P.A.mult, DirPoly(t, k - 1), P.Residual(x0));
    PlainImages(P, x0, u, k - 1);
    BiCGSTAB.PassAt(P, x0, u, k);
    BiCGPolynomials(P, x0, t, k);
    SmoothedResidual(P, x0, t, u, k);
    NextSmoother(P, u, k, d);
    EvalLinear(P.S, P.A.mult, Smoother(u, k), t[k].r, t[k].beta, d);
    NextPolynomials(P, t, k, P.Residual(x0));
  }

  lemma NextSmoother<V>(P: Problem<V>, u: seq<BiCGSTAB.Iteration<V>>, k: nat, w: V)
    requires 0 < k <= |u|
    ensures var q := Eval(P.S, P.A.mult, Smoother(u, k - 1), w);
      Eval(P.S, P.A.mult, Smoother(u, k), w) == P.S.axpy(q, -u[k - 1].omega, P.A.mult(q))
  {
  }

  lemma SameBeta<V(!new)>(P: Problem<V>, x0: V, t: seq<BiCG.Iteration<V>>, u: seq<BiCGSTAB.Iteration<V>>, k: nat)
    requires BiCG.Begun(P, x0, t) && BiCGSTAB.Run(P, x0, u) && 0 < k < |t| && k < |u|
    requires u[k].rho == Lead(t, u, k) * t[k].rho && u[k - 1].rho == Lead(t, u, k - 1) * t[k - 1].rho
    requires u[k - 1].alpha == t[k - 1].alpha
    ensures u[k].beta == t[k].beta
  {
    hide BiCG.Course, BiCGSTAB.Run, BiCG.First, BiCG.Sound, BiCG.Consistent, BiCGSTAB.Consistent, BiCGSTAB.FullStep,
      Lead, Quotient, Problem.Residual;
    NextBeta(P, x0, t, k);
    BiCGSTAB.PassAt(P, x0, u, k - 1);
    BiCGSTAB.PassAt(P, x0, u, k);
    NonzeroAlpha(P, x0, t, k - 1);
    LeadStep(t, u, k);
    BetaRatio(u[k].rho, u[k - 1].rho, t[k].rho, t[k - 1].rho, Lead(t, u, k - 1), u[k - 1].omega, u[k - 1].alpha);
  }

  lemma NextBeta<V>(P: Problem<V>, x0: V, t: seq<BiCG.Iteration<V>>, k: nat)
    requires BiCG.Begun(P, x0, t) && 0 < k < |t|
    ensures t[k].beta == Quotient(t[k].rho, t[k - 1].rho)
  {
    BiCG.CourseAt(P, x0, t, k);
  }

  lemma BetaRatio(r: real, r': real, d: real, d': real, l: real, w: real, a: real)
    requires w != 0.0 && a != 0.0 && r' != 0.0 && d' != 0.0
    requires r == (l * Quotient(w, a)) * d && r' == l * d'
    ensures Quotient(r, r') * Quotient(a, w) == Quotient(d, d')
  {
    QuotientIs(r, r');
    QuotientIs(a, w);
    QuotientIs(d, d');
    QuotientIs(w, a);
    var q, f, g, h := r / r', a / w, d / d', w / a;
    assert q * r' == r && f * w == a && g * d' == d && h * a == w;
    assert (h * f) * w == h * (f * w);
    assert (h * f - 1.0) * w == 0.0;
    ZeroProduct(h * f - 1.0, w);
    assert (q * f) * r' == f * (q * r') == f * ((l * h) * d) == (h * f) * (l * d);
    assert g * r' == l * (g * d');
    assert (q * f - g) * r' == 0.0;
    ZeroProduct(q * f - g, r');
  }

  /** The same alpha and beta in every pass, and BiCG's residual smoothed by Q_k. */
  lemma {:induction false} BiCGSTABSmoothsBiCG<V(!new)>(P: Problem<V>, x0: V, t: seq<BiCG.Iteration<V>>,
        u: seq<BiCGSTAB.Iteration<V>>, k: nat)
    requires Valid(P) && HasAdjoints(P) && Unpreconditioned(P)
    requires BiCG.Begun(P, x0, t) && BiCGSTAB.Run(P, x0, u) && k < |t| && k < |u|
    ensures Smoothed(P, P.Residual(x0), t, u, k)
  {
    hide Valid, HasAdjoints, Unpreconditioned, BiCG.Course, BiCGSTAB.Run, Problem.Residual, Eval, Smoother, ResPoly,
      DirPoly;
    if k == 0 {
      StartSmoothed(P, x0, t, u);
    } else {
      BiCGSTABSmoothsBiCG(P, x0, t, u, k - 1);
      SmoothedStep(P, x0, t, u, k);
    }
    FinishSmoothed(P, x0, t, u, k);
  }

  lemma StartSmoothed<V>(P: Problem<V>, x0: V, t: seq<BiCG.Iteration<V>>, u: seq<BiCGSTAB.Iteration<V>>)
    requires BiCGSTAB.Run(P, x0, u) && t != [] && u != []
    ensures var S, A, Q, v := P.S, P.A.mult, Smoother(u, 0), P.Residual(x0);
      && u[0].r == Eval(S, A, Q, Eval(S, A, ResPoly(t, 0), v)) && u[0].p == Eval(S, A, Q, Eval(S, A, DirPoly(t, 0), v))
  {
    BiCGSTAB.PassAt(P, x0, u, 0);
  }

  lemma SoundAt<V(!new)>(P: Problem<V>, x0: V, t: seq<BiCG.Iteration<V>>, u: seq<BiCGSTAB.Iteration<V>>, k: nat)
    requires Valid(P) && HasAdjoints(P) && Unpreconditioned(P)
    requires BiCG.Begun(P, x0, t) && BiCGSTAB.Run(P, x0, u) && k < |t| && k < |u|
    ensures BiCG.Sound(P, t[k])
  {
    hide Valid, HasAdjoints, Unpreconditioned, BiCG.Begun, BiCGSTAB.Run, BiCGSTAB.Consistent, BiCGSTAB.Continues,
      Problem.Residual, Eval, Smoother, Lead, ResPoly, DirPoly;
    BiCGSTABSmoothsBiCG(P, x0, t, u, k);
    BiCGSTAB.PassAt(P, x0, u, k);
  }

  /** Without preconditioner, wherever BiCGSTAB gets without dividing by zero, BiCG gets as well. */
  lemma {:induction false} PlainReaches<V(!new)>(P: Problem<V>, x0: V, u: seq<BiCGSTAB.Iteration<V>>, k: nat)
    requires Valid(P) && HasAdjoints(P) && Unpreconditioned(P) && BiCGSTAB.Run(P, x0, u) && k <= |u|
    ensures BiCG.Run(P, x0, BiCG.Passes(P, x0, k))
  {
    hide Valid, HasAdjoints, Unpreconditioned, BiCG.Run, BiCG.Course, BiCG.Sound, BiCG.Pending, BiCGSTAB.Run;
    var t := BiCG.Passes(P, x0, k);
    BiCG.PassesAreCourse(P, x0, k);
    BiCG.RunIsCourse(P, x0, t);
    if k > 0 {
      var s := BiCG.Passes(P, x0, k - 1);
      PlainReaches(P, x0, u, k - 1);
      BiCG.RunIsCourse(P, x0, s);
      assert t[..k - 1] == s;
      SoundAt(P, x0, t, u, k - 1);
    }
  }

  // With a preconditioner: BiCG of the right-preconditioned system

  /** A pass of the system and one of its right-preconditioned form. */
  ghost predicate Matched<V>(P: Problem<V>, x0: V, c: BiCGSTAB.Iteration<V>, d: BiCGSTAB.Iteration<V>) {
    && c.x == Back(P, x0, d.x) && c.r == d.r && c.rho == d.rho && c.beta == d.beta && c.p == d.p && c.v == d.v
    && c.alpha == d.alpha && c.s == d.s && c.t == d.t && c.omega == d.omega
  }

  lemma FinishMatched<V(!new)>(P: Problem<V>, x0: V, R: Problem<V>, rt: V, c: BiCGSTAB.Iteration<V>,
        d: BiCGSTAB.Iteration<V>)
    requires IsRight(P, x0, R) && BiCGSTAB.Consistent(P, rt, c) && BiCGSTAB.Consistent(R, rt, d)
    requires c.x == Back(P, x0, d.x) && c.r == d.r && c.beta == d.beta && c.p == d.p
    ensures Matched(P, x0, c, d)
    ensures c.phat == P.M.solve(d.p) && c.shat == P.M.solve(d.s) && d.phat == d.p && d.shat == d.s
  {
    hide IsRight, Quotient, Problem.Residual;
    RightMult(P, x0, R, d.p);
    RightMult(P, x0, R, d.s);
  }

  /** The full steps of both passes correspond. */
  lemma StepsMatch<V(!new)>(P: Problem<V>, x0: V, R: Problem<V>, c: BiCGSTAB.Iteration<V>, d: BiCGSTAB.Iteration<V>)
    requires Valid(P) && HasAdjoints(P) && R.S == P.S && Matched(P, x0, c, d)
    requires c.phat == P.M.solve(d.p) && c.shat == P.M.solve(d.s) && d.phat == d.p && d.shat == d.s
    ensures BiCGSTAB.FullStep(P, c) == Back(P, x0, BiCGSTAB.FullStep(R, d))
    ensures BiCGSTAB.HalfStep(P, c) == Back(P, x0, BiCGSTAB.HalfStep(R, d))
  {
    hide HasAdjoints, Linear, InnerProduct, Back, Space.Scale;
    var S := P.S;
    BiCGSTAB.TwoSteps(S, c.x, c.alpha, c.phat, c.omega, c.shat);
    BiCGSTAB.TwoSteps(S, d.x, d.alpha, d.phat, d.omega, d.shat);
    BackMoves(P, x0, d.x, d.alpha, d.p);
    BackMoves(P, x0, S.axpy(d.x, d.alpha, d.p), d.omega, d.s);
  }

  lemma StepMatched<V(!new)>(P: Problem<V>, x0: V, R: Problem<V>, rt: V, o: BiCGSTAB.Iteration<V>,
        o': BiCGSTAB.Iteration<V>, c: BiCGSTAB.Iteration<V>, d: BiCGSTAB.Iteration<V>)
    requires Valid(P) && HasAdjoints(P) && IsRight(P, x0, R) && Matched(P, x0, o, o')
    requires BiCGSTAB.Consistent(P, rt, o) && BiCGSTAB.Consistent(R, rt, o')
    requires BiCGSTAB.Consistent(P, rt, c) && BiCGSTAB.Consistent(R, rt, d)
    requires BiCGSTAB.Continues(P, o, c) && BiCGSTAB.Continues(R, o', d)
    ensures c.x == Back(P, x0, d.x) && c.r == d.r && c.beta == d.beta && c.p == d.p
  {
    hide Valid, HasAdjoints, IsRight, Back, Quotient, Problem.Residual, BiCGSTAB.FullStep;
    RightMult(P, x0, R, rt);
    FinishMatched(P, x0, R, rt, o, o');
    StepsMatch(P, x0, R, o, o');
    assert c.rho == d.rho;
    assert c.beta == d.beta;
  }

  /** BiCGSTAB goes through the same scalars and residuals on both systems. */
  lemma {:induction false} SameBiCGSTAB<V(!new)>(P: Problem<V>, x0: V, R: Problem<V>, u: seq<BiCGSTAB.Iteration<V>>,
        u': seq<BiCGSTAB.Iteration<V>>, k: nat)
    requires Valid(P) && HasAdjoints(P) && IsRight(P, x0, R)
    requires BiCGSTAB.Course(P, x0, u) && BiCGSTAB.Course(R, P.S.zero, u') && k < |u| && k < |u'|
    ensures Matched(P, x0, u[k], u'[k])
  {
    hide Valid, HasAdjoints, IsRight, Problem.Residual, BiCGSTAB.Course, BiCGSTAB.Consistent, BiCGSTAB.Continues,
      Matched, Back, Quotient;
    RightLaws(P, x0, R);
    BiCGSTAB.CourseAt(P, x0, u, k);
    BiCGSTAB.CourseAt(R, P.S.zero, u', k);
    if k == 0 {
      BackMoves(P, x0, P.S.zero, 0.0, P.S.zero);
    } else {
      SameBiCGSTAB(P, x0, R, u, u', k - 1);
      BiCGSTAB.CourseAt(P, x0, u, k - 1);
      BiCGSTAB.CourseAt(R, P.S.zero, u', k - 1);
      StepMatched(P, x0, R, P.Residual(x0), u[k - 1], u'[k - 1], u[k], u'[k]);
    }
    FinishMatched(P, x0, R, P.Residual(x0), u[k], u'[k]);
  }

  /** A run of BiCGSTAB on the system is one on the right-preconditioned system. */
  lemma RightRun<V(!new)>(P: Problem<V>, x0: V, R: Problem<V>, u: seq<BiCGSTAB.Iteration<V>>)
    returns (u': seq<BiCGSTAB.Iteration<V>>)
    requires Valid(P) && HasAdjoints(P) && IsRight(P, x0, R) && BiCGSTAB.Run(P, x0, u)
    ensures |u'| == |u| && BiCGSTAB.Run(R, P.S.zero, u')
    ensures forall k: nat :: k < |u| ==> Matched(P, x0, u[k], u'[k])
  {
    hide Valid, HasAdjoints, IsRight, Problem.Residual, BiCGSTAB.Course, BiCGSTAB.Run, Back;
    u' := BiCGSTAB.Passes(R, P.S.zero, |u|);
    BiCGSTAB.PassesAreCourse(R, P.S.zero, |u|);
    RightLaws(P, x0, R);
    BiCGSTAB.RunIsCourse(P, x0, u);
    BiCGSTAB.RunIsCourse(R, P.S.zero, u');
    forall k: nat | k < |u| ensures Matched(P, x0, u[k], u'[k]) {
      SameBiCGSTAB(P, x0, R, u, u', k);
    }
  }

  /** The smoother and its leading coefficient depend on the omegas alone. */
  lemma {:induction false} SameSmoother<V>(t: seq<BiCG.Iteration<V>>, u: seq<BiCGSTAB.Iteration<V>>,
        u': seq<BiCGSTAB.Iteration<V>>, k: nat)
    requires k <= |u| == |u'| && forall j :: 0 <= j < k ==> u[j].omega == u'[j].omega
    ensures Smoother(u, k) == Smoother(u', k)
    ensures k <= |t| ==> Lead(t, u, k) == Lead(t, u', k)
  {
    if k > 0 {
      SameSmoother(t, u, u', k - 1);
    }
  }

  /** LeadingPart for any preconditioner. */
  lemma PreconditionedLeadingPart<V(!new)>(P: Problem<V>, x0: V, R: Problem<V>, t: seq<BiCG.Iteration<V>>,
        u: seq<BiCGSTAB.Iteration<V>>, k: nat, y: V)
    requires Valid(P) && HasAdjoints(P) && IsRight(P, x0, R)
    requires BiCG.Begun(R, P.S.zero, t) && k < |t| && k <= |u| && Beyond(R, t, k, y)
    ensures P.S.dot(Eval(P.S, R.A.transMult, Smoother(u, k), P.Residual(x0)), y) == Lead(t, u, k) * P.S.dot(t[k].rt, y)
  {
    hide Valid, HasAdjoints, IsRight, Problem.Residual, BiCG.Begun, Eval, Smoother, Lead, Beyond;
    RightLaws(P, x0, R);
    LeadingPart(R, P.S.zero, t, u, k, y);
  }

  /** The smoothing relation for any preconditioner. */
  lemma PreconditionedSmooths<V(!new)>(P: Problem<V>, x0: V, R: Problem<V>, t: seq<BiCG.Iteration<V>>,
        u: seq<BiCGSTAB.Iteration<V>>, k: nat)
    requires Valid(P) && HasAdjoints(P) && IsRight(P, x0, R)
    requires BiCG.Begun(R, P.S.zero, t) && BiCGSTAB.Run(P, x0, u) && k < |t| && k < |u|
    ensures Smoothed(R, P.Residual(x0), t, u, k)
  {
    hide Valid, HasAdjoints, IsRight, Problem.Residual, BiCG.Begun, BiCGSTAB.Run, Eval, Smoother, Lead, ResPoly,
      DirPoly, Back;
    RightLaws(P, x0, R);
    var u' := RightRun(P, x0, R, u);
    BiCGSTABSmoothsBiCG(R, P.S.zero, t, u', k);
    SameSmoother(t, u, u', k);
  }

  /** Wherever BiCGSTAB gets without dividing by zero, BiCG gets as well on the right-preconditioned system. */
  lemma BiCGReaches<V(!new)>(P: Problem<V>, x0: V, R: Problem<V>, u: seq<BiCGSTAB.Iteration<V>>)
    requires Valid(P) && HasAdjoints(P) && IsRight(P, x0, R) && BiCGSTAB.Run(P, x0, u)
    ensures BiCG.Run(R, P.S.zero, BiCG.Passes(R, P.S.zero, |u|))
  {
    hide *;
    RightLaws(P, x0, R);
    var u' := RightRun(P, x0, R, u);
    PlainReaches(R, P.S.zero, u', |u|);
  }

  /** In dimension n no run of BiCGSTAB has more than n full passes. */
  lemma FiniteRun<V(!new)>(P: Problem<V>, x0: V, u: seq<BiCGSTAB.Iteration<V>>, n: nat)
    requires Valid(P) && HasAdjoints(P) && BiCGSTAB.Run(P, x0, u) && Dimension(P.S, n)
    ensures |u| <= n
  {
    hide *;
    var R := Right(P, x0);
    RightIs(P, x0);
    RightLaws(P, x0, R);
    BiCGReaches(P, x0, R, u);
    BiCG.FiniteRun(R, P.S.zero, BiCG.Passes(R, P.S.zero, |u|), n);
  }
}
