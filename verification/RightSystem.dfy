/**
  The system that CGS (iml/cgs.h) and BiCGSTAB (iml/bicgstab.h) really iterate on: A M^-1 y = b - A x0 from y = 0,
  without preconditioner, with x = x0 + M^-1 y.
 */
module RightSystem {
  import opened VectorSpaces
  import opened Systems

  /** R is the right-preconditioned system, whatever expressions its operators are given by. */
  ghost predicate IsRight<V(!new)>(P: Problem<V>, x0: V, R: Problem<V>) {
    && R.S == P.S && R.b == P.Residual(x0) && Unpreconditioned(R)
    && (forall u :: R.A.mult(u) == P.A.mult(P.M.solve(u)))
    && (forall u :: R.A.transMult(u) == P.M.transSolve(P.A.transMult(u)))
  }

  function After<V>(f: V -> V, g: V -> V): V -> V {
    (u: V) => f(g(u))
  }

  function Identity<V>(): V -> V {
    (u: V) => u
  }

  lemma AfterAt<V>(f: V -> V, g: V -> V, u: V)
    ensures After(f, g)(u) == f(g(u))
  {
  }

  lemma IdentityAt<V>(u: V)
    ensures Identity<V>()(u) == u
  {
  }

  function Right<V>(P: Problem<V>, x0: V): Problem<V> {
    Problem(P.S, Matrix(After(P.A.mult, P.M.solve), After(P.M.transSolve, P.A.transMult)),
            Preconditioner(Identity<V>(), Identity<V>()), P.Residual(x0))
  }

  /** There is one for every system. */
  lemma RightIs<V(!new)>(P: Problem<V>, x0: V)
    ensures IsRight(P, x0, Right(P, x0))
  {
    hide Right;
    var R := Right(P, x0);
    forall u
      ensures R.S == P.S && R.b == P.Residual(x0) && R.M.solve(u) == u && R.M.transSolve(u) == u
      ensures R.A.mult(u) == P.A.mult(P.M.solve(u)) && R.A.transMult(u) == P.M.transSolve(P.A.transMult(u))
    {
      RightAt(P, x0, u);
    }
    RightAt(P, x0, x0);
  }

  lemma RightAt<V>(P: Problem<V>, x0: V, u: V)
    ensures var R := Right(P, x0);
      && R.S == P.S && R.b == P.Residual(x0) && R.M.solve(u) == u && R.M.transSolve(u) == u
      && R.A.mult(u) == P.A.mult(P.M.solve(u)) && R.A.transMult(u) == P.M.transSolve(P.A.transMult(u))
  {
    hide After, Identity;
    AfterAt(P.A.mult, P.M.solve, u);
    AfterAt(P.M.transSolve, P.A.transMult, u);
    IdentityAt(u);
  }

  lemma RightMult<V(!new)>(P: Problem<V>, x0: V, R: Problem<V>, u: V)
    requires IsRight(P, x0, R)
    ensures R.S == P.S && R.A.mult(u) == P.A.mult(P.M.solve(u)) && R.M.solve(u) == u
    ensures R.A.transMult(u) == P.M.transSolve(P.A.transMult(u)) && R.M.transSolve(u) == u
  {
  }

  /** M^-1 is linear when it has an adjoint. */
  lemma SolveLinear<V(!new)>(P: Problem<V>)
    requires Valid(P) && HasAdjoints(P)
    ensures Linear(P.S, P.M.solve)
  {
    hide InnerProduct, Linear, Adjoint;
    Flip(P.S, P.M.solve, P.M.transSolve);
    AdjointLinear(P.S, P.M.transSolve, P.M.solve);
  }

  /** The right-preconditioned system obeys the same laws and starts from the same residual. */
  lemma RightLaws<V(!new)>(P: Problem<V>, x0: V, R: Problem<V>)
    requires Valid(P) && HasAdjoints(P) && IsRight(P, x0, R)
    ensures Valid(R) && HasAdjoints(R) && Unpreconditioned(R) && R.S == P.S
    ensures R.Residual(P.S.zero) == P.Residual(x0)
  {
    RightLinear(P, x0, R);
    RightAdjoints(P, x0, R);
    RightStart(P, x0, R);
  }

  lemma RightLinear<V(!new)>(P: Problem<V>, x0: V, R: Problem<V>)
    requires Valid(P) && HasAdjoints(P) && IsRight(P, x0, R)
    ensures Valid(R)
  {
    SolveLinear(P);
    forall u, a, v ensures R.A.mult(R.S.axpy(u, a, v)) == R.S.axpy(R.A.mult(u), a, R.A.mult(v)) {
      hide InnerProduct, Linear, Adjoint, IsRight, Problem.Residual;
      RightMult(P, x0, R, u);
      RightMult(P, x0, R, v);
      RightMult(P, x0, R, P.S.axpy(u, a, v));
      Distribute(P.S, P.M.solve, u, a, v);
      Distribute(P.S, P.A.mult, P.M.solve(u), a, P.M.solve(v));
    }
  }

  lemma RightAdjoints<V(!new)>(P: Problem<V>, x0: V, R: Problem<V>)
    requires HasAdjoints(P) && IsRight(P, x0, R)
    ensures HasAdjoints(R) && Unpreconditioned(R)
  {
    forall u, v ensures R.S.dot(R.A.mult(u), v) == R.S.dot(u, R.A.transMult(v)) {
      hide Adjoint, IsRight, Problem.Residual;
      RightMult(P, x0, R, u);
      RightMult(P, x0, R, v);
      Move(P.S, P.A.mult, P.A.transMult, P.M.solve(u), v);
      Move(P.S, P.M.solve, P.M.transSolve, u, P.A.transMult(v));
    }
  }

  lemma RightStart<V(!new)>(P: Problem<V>, x0: V, R: Problem<V>)
    requires Valid(R) && IsRight(P, x0, R)
    ensures R.Residual(P.S.zero) == P.Residual(x0)
  {
    hide InnerProduct, Linear;
    var S := R.S;
    ZeroImage(S, R.A.mult);
    forall t ensures S.dot(S.axpy(R.b, -1.0, S.zero), t) == S.dot(R.b, t) {
      Expand(S, R.b, -1.0, S.zero, t);
      Zero(S, t);
    }
    Same(S, S.axpy(R.b, -1.0, S.zero), R.b);
  }

  /** Where y is in the space of the right-preconditioned system, x is in that of the system itself. */
  function Back<V>(P: Problem<V>, x0: V, y: V): V {
    P.S.axpy(x0, 1.0, P.M.solve(y))
  }

  lemma BackMoves<V(!new)>(P: Problem<V>, x0: V, y: V, a: real, d: V)
    requires Valid(P) && HasAdjoints(P)
    ensures Back(P, x0, P.S.axpy(y, a, d)) == P.S.axpy(Back(P, x0, y), a, P.M.solve(d))
    ensures Back(P, x0, P.S.zero) == x0
  {
    hide InnerProduct, Linear, Adjoint;
    var S := P.S;
    var l, r := Back(P, x0, S.axpy(y, a, d)), S.axpy(Back(P, x0, y), a, P.M.solve(d));
    SolveLinear(P);
    Distribute(S, P.M.solve, y, a, d);
    ZeroImage(S, P.M.solve);
    forall t ensures S.dot(l, t) == S.dot(r, t) && S.dot(Back(P, x0, S.zero), t) == S.dot(x0, t) {
      Expand(S, x0, 1.0, P.M.solve(S.axpy(y, a, d)), t);
      Expand(S, P.M.solve(y), a, P.M.solve(d), t);
      Expand(S, Back(P, x0, y), a, P.M.solve(d), t);
      Expand(S, x0, 1.0, P.M.solve(y), t);
      Expand(S, x0, 1.0, S.zero, t);
      Zero(S, t);
    }
    Same(S, l, r);
    Same(S, Back(P, x0, S.zero), x0);
  }
}
