/**
  CGS squares the residual polynomial of BiCG: of the same system without preconditioner, of the right-preconditioned
  one with.
 */
module Squaring {
  import opened Reals
  import opened VectorSpaces
  import opened Systems
  import opened Combinations
  import opened Polynomials
  import opened RightSystem
  import BiCG
  import CGS

  /** P_k, the polynomial of BiCG's residual after k passes. */
  function ResPoly<V>(t: seq<BiCG.Iteration<V>>, k: nat): Poly
    requires k <= |t|
    decreases k, 0
  {
    if k == 0 then One else Sum(ResPoly(t, k - 1), -t[k - 1].alpha, TimesX(DirPoly(t, k - 1)))
  }

  /** T_k, the polynomial of BiCG's direction in pass k. */
  function DirPoly<V>(t: seq<BiCG.Iteration<V>>, k: nat): Poly
    requires k < |t|
    decreases k, 1
  {
    if k == 0 then One else Sum(ResPoly(t, k), t[k].beta, DirPoly(t, k - 1))
  }

  /** BiCG's vectors are its polynomials applied to the first residual. */
  lemma {:induction false} BiCGPolynomials<V(!new)>(P: Problem<V>, x0: V, t: seq<BiCG.Iteration<V>>, k: nat)
    requires Valid(P) && Unpreconditioned(P) && BiCG.Course(P, x0, t) && k < |t|
    ensures var r0, A, At := P.Residual(x0), P.A.mult, P.A.transMult;
      && t[k].r == Eval(P.S, A, ResPoly(t, k), r0) && t[k].p == Eval(P.S, A, DirPoly(t, k), r0)
      && t[k].rt == Eval(P.S, At, ResPoly(t, k), r0) && t[k].pt == Eval(P.S, At, DirPoly(t, k), r0)
  {
    hide InnerProduct, Linear, Quotient, Problem.Residual, BiCG.Course;
    BiCG.CourseAt(P, x0, t, k);
    if k > 0 {
      BiCGPolynomials(P, x0, t, k - 1);
      BiCG.CourseAt(P, x0, t, k - 1);
    }
  }

  // The recurrences of CGS, on polynomials R = P_k, T = T_k, T' = T_(k-1)

  lemma NextResidual<V(!new)>(S: Space<V>, A: V -> V, R: Poly, T: Poly, a: real, v: V)
    requires InnerProduct(S) && Linear(S, A)
    ensures var R1 := Sum(R, a, TimesX(T));
      Eval(S, A, R1, Eval(S, A, R1, v)) ==
      S.axpy(Eval(S, A, R, Eval(S, A, R, v)), a,
        A(S.axpy(Eval(S, A, R, Eval(S, A, T, v)), 1.0, Eval(S, A, R1, Eval(S, A, T, v)))))
  {
    hide InnerProduct, Linear;
    var R1 := Sum(R, a, TimesX(T));
    var w, d, e := Eval(S, A, T, v), Eval(S, A, R, Eval(S, A, T, v)), Eval(S, A, R1, Eval(S, A, T, v));
    EvalLinear(S, A, R, Eval(S, A, R, v), a, A(w));
    EvalShifts(S, A, R, w);
    EvalCommutes(S, A, T, R1, v);
    Distribute(S, A, d, 1.0, e);
    Gather(S, Eval(S, A, R, Eval(S, A, R, v)), a, A(d), A(e));
  }

  lemma Gather<V(!new)>(S: Space<V>, u: V, a: real, v: V, w: V)
    requires InnerProduct(S)
    ensures S.axpy(S.axpy(u, a, v), a, w) == S.axpy(u, a, S.axpy(v, 1.0, w))
  {
    hide InnerProduct;
    var l, r := S.axpy(S.axpy(u, a, v), a, w), S.axpy(u, a, S.axpy(v, 1.0, w));
    forall t ensures S.dot(l, t) == S.dot(r, t) {
      Expand(S, S.axpy(u, a, v), a, w, t);
      Expand(S, u, a, v, t);
      Expand(S, u, a, S.axpy(v, 1.0, w), t);
      Expand(S, v, 1.0, w, t);
      assert a * (S.dot(v, t) + S.dot(w, t)) == a * S.dot(v, t) + a * S.dot(w, t);
    }
    Same(S, l, r);
  }

  lemma NextDirection<V(!new)>(S: Space<V>, A: V -> V, R: Poly, T': Poly, b: real, v: V)
    requires InnerProduct(S) && Linear(S, A)
    ensures var T := Sum(R, b, T');
      var u := S.axpy(Eval(S, A, R, Eval(S, A, R, v)), b, Eval(S, A, R, Eval(S, A, T', v)));
      && u == Eval(S, A, R, Eval(S, A, T, v))
      && S.axpy(u, b, S.axpy(Eval(S, A, R, Eval(S, A, T', v)), b, Eval(S, A, T', Eval(S, A, T', v)))) ==
        Eval(S, A, T, Eval(S, A, T, v))
  {
    hide InnerProduct, Linear;
    var r, d := Eval(S, A, R, v), Eval(S, A, T', v);
    EvalLinear(S, A, R, r, b, d);
    EvalLinear(S, A, T', r, b, d);
    EvalCommutes(S, A, T', R, v);
  }

  lemma SameScalars<V(!new)>(S: Space<V>, A: V -> V, At: V -> V, R: Poly, T: Poly, v: V)
    requires InnerProduct(S) && Linear(S, A) && Adjoint(S, A, At)
    ensures S.dot(v, Eval(S, A, R, Eval(S, A, R, v))) == S.dot(Eval(S, A, R, v), Eval(S, At, R, v))
    ensures S.dot(v, A(Eval(S, A, T, Eval(S, A, T, v)))) == S.dot(Eval(S, At, T, v), A(Eval(S, A, T, v)))
  {
    hide InnerProduct, Linear, Adjoint;
    var r, d := Eval(S, A, R, v), Eval(S, A, T, v);
    EvalAdjoint(S, A, At, R, r, v);
    Symmetric(S, Eval(S, A, R, r), v);
    EvalShifts(S, A, T, d);
    EvalAdjoint(S, A, At, T, A(d), v);
    Symmetric(S, Eval(S, A, T, A(d)), v);
    Symmetric(S, A(d), Eval(S, At, T, v));
  }

  /** Pass k of CGS, told by pass k of BiCG. */
  ghost predicate Squared<V>(P: Problem<V>, v: V, t: seq<BiCG.Iteration<V>>, k: nat, c: CGS.Iteration<V>)
    requires k < |t|
  {
    var S, A, R, T := P.S, P.A.mult, ResPoly(t, k), DirPoly(t, k);
    && c.rho == t[k].rho && c.alpha == t[k].alpha && (k > 0 ==> c.beta == t[k].beta)
    && S.dot(v, c.vhat) == S.dot(t[k].pt, t[k].q)
    && c.r == Eval(S, A, R, Eval(S, A, R, v)) && c.u == Eval(S, A, R, Eval(S, A, T, v))
    && c.p == Eval(S, A, T, Eval(S, A, T, v)) && c.q == Eval(S, A, ResPoly(t, k + 1), Eval(S, A, T, v))
  }

  lemma NextResPoly<V>(t: seq<BiCG.Iteration<V>>, k: nat)
    requires k < |t|
    ensures ResPoly(t, k + 1) == Sum(ResPoly(t, k), -t[k].alpha, TimesX(DirPoly(t, k)))
    ensures k > 0 ==> DirPoly(t, k) == Sum(ResPoly(t, k), t[k].beta, DirPoly(t, k - 1))
  {
  }

  /** Once r, u and p are known, the rest of the pass follows. */
  lemma FinishSquared<V(!new)>(P: Problem<V>, x0: V, t: seq<BiCG.Iteration<V>>, k: nat, c: CGS.Iteration<V>)
    requires Valid(P) && HasAdjoints(P) && Unpreconditioned(P) && BiCG.Course(P, x0, t) && k < |t|
    requires CGS.Consistent(P, P.Residual(x0), c)
    requires var S, A, R, T, v := P.S, P.A.mult, ResPoly(t, k), DirPoly(t, k), P.Residual(x0);
      && c.r == Eval(S, A, R, Eval(S, A, R, v)) && c.u == Eval(S, A, R, Eval(S, A, T, v))
      && c.p == Eval(S, A, T, Eval(S, A, T, v))
    requires k > 0 && c.rho == t[k].rho ==> c.beta == t[k].beta
    ensures Squared(P, P.Residual(x0), t, k, c)
    ensures c.qhat == P.A.mult(P.S.axpy(c.u, 1.0, c.q))
  {
    hide InnerProduct, Linear, Adjoint, Problem.Residual, BiCG.Course, ResPoly, DirPoly, Quotient;
    var v := P.Residual(x0);
    BiCGPolynomials(P, x0, t, k);
    BiCG.CourseAt(P, x0, t, k);
    SameScalars(P.S, P.A.mult, P.A.transMult, ResPoly(t, k), DirPoly(t, k), v);
    NextResPoly(t, k);
    assert c.rho == t[k].rho;
    assert c.alpha == t[k].alpha;
    assert c.vhat == P.A.mult(c.p);
    assert c.q == Eval(P.S, P.A.mult, ResPoly(t, k + 1), Eval(P.S, P.A.mult, DirPoly(t, k), v));
  }

  /** The same rho, alpha and beta in every pass, and the square of the same polynomial. */
  lemma {:induction false} CGSSquaresBiCG<V(!new)>(P: Problem<V>, x0: V, t: seq<BiCG.Iteration<V>>,
        s: seq<CGS.Iteration<V>>, k: nat)
    requires Valid(P) && HasAdjoints(P) && Unpreconditioned(P)
    requires BiCG.Course(P, x0, t) && CGS.Course(P, x0, s) && k < |t| && k < |s|
    ensures Squared(P, P.Residual(x0), t, k, s[k])
  {
    hide InnerProduct, Linear, Adjoint, Problem.Residual, BiCG.Course, CGS.Course, ResPoly, DirPoly, Eval;
    CGS.CourseAt(P, x0, s, k);
    if k == 0 {
      StartPolynomials(P, P.Residual(x0), t);
    } else {
      CGSSquaresBiCG(P, x0, t, s, k - 1);
      SquaredStep(P, x0, t, s, k);
    }
    FinishSquared(P, x0, t, k, s[k]);
  }

  lemma StartPolynomials<V>(P: Problem<V>, v: V, t: seq<BiCG.Iteration<V>>)
    requires t != []
    ensures Eval(P.S, P.A.mult, ResPoly(t, 0), v) == v == Eval(P.S, P.A.mult, DirPoly(t, 0), v)
  {
  }

  lemma ResidualStep<V(!new)>(P: Problem<V>, x0: V, t: seq<BiCG.Iteration<V>>, k: nat, o: CGS.Iteration<V>,
        c: CGS.Iteration<V>)
    requires Valid(P) && HasAdjoints(P) && Unpreconditioned(P) && BiCG.Course(P, x0, t) && 0 < k < |t|
    requires Squared(P, P.Residual(x0), t, k - 1, o) && CGS.Continues(P, o, c)
    requires CGS.Consistent(P, P.Residual(x0), o) && CGS.Consistent(P, P.Residual(x0), c)
    ensures c.r == Eval(P.S, P.A.mult, ResPoly(t, k), Eval(P.S, P.A.mult, ResPoly(t, k), P.Residual(x0)))
    ensures c.rho == t[k].rho && c.beta == t[k].beta
  {
    hide InnerProduct, Linear, Adjoint, Problem.Residual, BiCG.Course, ResPoly, DirPoly, Eval, Quotient;
    var v := P.Residual(x0);
    FinishSquared(P, x0, t, k - 1, o);
    NextResPoly(t, k - 1);
    NextResidual(P.S, P.A.mult, ResPoly(t, k - 1), DirPoly(t, k - 1), -o.alpha, v);
    BiCG.CourseAt(P, x0, t, k);
    BiCGPolynomials(P, x0, t, k);
    SameScalars(P.S, P.A.mult, P.A.transMult, ResPoly(t, k), DirPoly(t, k), v);
  }

  lemma SquaredStep<V(!new)>(P: Problem<V>, x0: V, t: seq<BiCG.Iteration<V>>, s: seq<CGS.Iteration<V>>, k: nat)
    requires Valid(P) && HasAdjoints(P) && Unpreconditioned(P)
    requires BiCG.Course(P, x0, t) && CGS.Course(P, x0, s) && 0 < k < |t| && k < |s|
    requires Squared(P, P.Residual(x0), t, k - 1, s[k - 1])
    ensures var S, A, R, T, v, c := P.S, P.A.mult, ResPoly(t, k), DirPoly(t, k), P.Residual(x0), s[k];
      && c.r == Eval(S, A, R, Eval(S, A, R, v)) && c.u == Eval(S, A, R, Eval(S, A, T, v))
      && c.p == Eval(S, A, T, Eval(S, A, T, v))
      && c.beta == t[k].beta
  {
    hide InnerProduct, Linear, Adjoint, HasAdjoints, Unpreconditioned, Problem.Residual, BiCG.Course, CGS.Course,
      ResPoly, DirPoly, Eval, Quotient;
    CGS.CourseAt(P, x0, s, k - 1);
    CGS.CourseAt(P, x0, s, k);
    ResidualStep(P, x0, t, k, s[k - 1], s[k]);
    NextResPoly(t, k);
    NextDirection(P.S, P.A.mult, ResPoly(t, k), DirPoly(t, k - 1), t[k].beta, P.Residual(x0));
  }

  // With a preconditioner: BiCG of the right-preconditioned system

  /** A pass of the system and one of its right-preconditioned form. */
  ghost predicate Alike<V>(P: Problem<V>, x0: V, c: CGS.Iteration<V>, d: CGS.Iteration<V>) {
    && c.x == Back(P, x0, d.x) && c.r == d.r && c.rho == d.rho && c.beta == d.beta && c.u == d.u && c.p == d.p
    && c.vhat == d.vhat && c.alpha == d.alpha && c.q == d.q && c.qhat == d.qhat
  }

  lemma FinishAlike<V(!new)>(P: Problem<V>, x0: V, R: Problem<V>, rt: V, c: CGS.Iteration<V>, d: CGS.Iteration<V>)
    requires IsRight(P, x0, R) && CGS.Consistent(P, rt, c) && CGS.Consistent(R, rt, d)
    requires c.x == Back(P, x0, d.x) && c.r == d.r && c.beta == d.beta && c.u == d.u && c.p == d.p
    ensures Alike(P, x0, c, d)
    ensures c.uhat == P.M.solve(P.S.axpy(d.u, 1.0, d.q)) && d.uhat == P.S.axpy(d.u, 1.0, d.q)
  {
    hide IsRight, Quotient, Problem.Residual;
    RightMult(P, x0, R, d.p);
    RightMult(P, x0, R, P.S.axpy(d.u, 1.0, d.q));
  }

  lemma StepAlike<V(!new)>(P: Problem<V>, x0: V, R: Problem<V>, rt: V, o: CGS.Iteration<V>, o': CGS.Iteration<V>,
        c: CGS.Iteration<V>, d: CGS.Iteration<V>)
    requires Valid(P) && HasAdjoints(P) && IsRight(P, x0, R) && Alike(P, x0, o, o')
    requires CGS.Consistent(P, rt, o) && CGS.Consistent(R, rt, o') && CGS.Consistent(P, rt, c)
    requires CGS.Consistent(R, rt, d)
    requires CGS.Continues(P, o, c) && CGS.Continues(R, o', d)
    ensures c.x == Back(P, x0, d.x) && c.r == d.r && c.beta == d.beta && c.u == d.u && c.p == d.p
  {
    hide Valid, HasAdjoints, IsRight, Back, Quotient, Problem.Residual;
    RightMult(P, x0, R, rt);
    FinishAlike(P, x0, R, rt, o, o');
    BackMoves(P, x0, o'.x, o'.alpha, o'.uhat);
    assert c.rho == d.rho;
    assert c.beta == d.beta;
  }

  /** CGS goes through the same scalars and residuals on both systems. */
  lemma {:induction false} SameCGS<V(!new)>(P: Problem<V>, x0: V, R: Problem<V>, s: seq<CGS.Iteration<V>>,
        s': seq<CGS.Iteration<V>>, k: nat)
    requires Valid(P) && HasAdjoints(P) && IsRight(P, x0, R)
    requires CGS.Course(P, x0, s) && CGS.Course(R, P.S.zero, s') && k < |s| && k < |s'|
    ensures Alike(P, x0, s[k], s'[k])
  {
    hide Valid, HasAdjoints, IsRight, Problem.Residual, CGS.Course, CGS.Consistent, CGS.Continues, Alike, Back,
      Quotient;
    RightLaws(P, x0, R);
    CGS.CourseAt(P, x0, s, k);
    CGS.CourseAt(R, P.S.zero, s', k);
    if k == 0 {
      BackMoves(P, x0, P.S.zero, 0.0, P.S.zero);
    } else {
      SameCGS(P, x0, R, s, s', k - 1);
      CGS.CourseAt(P, x0, s, k - 1);
      CGS.CourseAt(R, P.S.zero, s', k - 1);
      StepAlike(P, x0, R, P.Residual(x0), s[k - 1], s'[k - 1], s[k], s'[k]);
    }
    FinishAlike(P, x0, R, P.Residual(x0), s[k], s'[k]);
  }

  /** The squaring relation for any preconditioner. */
  lemma PreconditionedSquares<V(!new)>(P: Problem<V>, x0: V, R: Problem<V>, t: seq<BiCG.Iteration<V>>,
        s: seq<CGS.Iteration<V>>, k: nat)
    requires Valid(P) && HasAdjoints(P) && IsRight(P, x0, R)
    requires BiCG.Course(R, P.S.zero, t) && CGS.Course(P, x0, s) && k < |t| && k < |s|
    ensures Squared(R, P.Residual(x0), t, k, s[k])
  {
    hide Valid, HasAdjoints, IsRight, Problem.Residual, BiCG.Course, CGS.Course, ResPoly, DirPoly, Eval, Back,
      Unpreconditioned;
    var s' := CGS.Passes(R, P.S.zero, |s|);
    CGS.PassesAreCourse(R, P.S.zero, |s|);
    RightLaws(P, x0, R);
    SameCGS(P, x0, R, s, s', k);
    CGSSquaresBiCG(R, P.S.zero, t, s', k);
  }

  /** CGS gets exactly as far as BiCG does on the right-preconditioned system: it divides by zero where BiCG does. */
  lemma Lockstep<V(!new)>(P: Problem<V>, x0: V, R: Problem<V>, t: seq<BiCG.Iteration<V>>, s: seq<CGS.Iteration<V>>)
    requires Valid(P) && HasAdjoints(P) && IsRight(P, x0, R)
    requires BiCG.Course(R, P.S.zero, t) && CGS.Course(P, x0, s) && |t| == |s|
    ensures BiCG.Run(R, P.S.zero, t) <==> CGS.Run(P, x0, s)
  {
    hide Valid, HasAdjoints, IsRight, Problem.Residual, BiCG.Course, CGS.Course, BiCG.Run, CGS.Run, ResPoly, DirPoly,
      Eval;
    RightLaws(P, x0, R);
    BiCG.RunIsCourse(R, P.S.zero, t);
    CGS.RunIsCourse(P, x0, s);
    forall k: nat | k < |t| ensures BiCG.Sound(R, t[k]) <==> CGS.Sound(P, P.Residual(x0), s[k]) {
      PreconditionedSquares(P, x0, R, t, s, k);
    }
  }

  /** In dimension n no run of CGS has more than n passes. */
  lemma FiniteRun<V(!new)>(P: Problem<V>, x0: V, s: seq<CGS.Iteration<V>>, n: nat)
    requires Valid(P) && HasAdjoints(P) && CGS.Run(P, x0, s) && Dimension(P.S, n)
    ensures |s| <= n
  {
    hide *;
    var R := Right(P, x0);
    var t := BiCG.Passes(R, P.S.zero, |s|);
    RightIs(P, x0);
    RightLaws(P, x0, R);
    BiCG.PassesAreCourse(R, P.S.zero, |s|);
    CGS.RunIsCourse(P, x0, s);
    Lockstep(P, x0, R, t, s);
    BiCG.FiniteRun(R, P.S.zero, t, n);
  }
}
