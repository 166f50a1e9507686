/** A linear system with its preconditioner, and the residual every solver keeps track of. */
module Systems {
  import opened Reals
  import opened VectorSpaces

  datatype Matrix<!V> = Matrix(mult: V -> V, transMult: V -> V)

  datatype Preconditioner<!V> = Preconditioner(solve: V -> V, transSolve: V -> V)

  /**
    How a solver ends: with a return code, in a division by zero it does not guard, or (GMRES only)
    where it would read columns of H and v that its last cycle has not computed.
   */
  datatype Exit = Code(code: int) | DivideByZero | StaleColumns

  datatype Problem<!V> = Problem(S: Space<V>, A: Matrix<V>, M: Preconditioner<V>, b: V)
  {
    function Residual(x: V): V {
      S.axpy(b, -1.0, A.mult(x))
    }

    /** The divisor of every convergence test. */
    function NormB(): (d: real)
      ensures d != 0.0
    {
      if S.norm(b) == 0.0 then 1.0 else S.norm(b)
    }

    function Relative(r: V): real {
      S.norm(r) / NormB()
    }
  }

  ghost predicate Valid<V(!new)>(P: Problem<V>) {
    && InnerProduct(P.S)
    && Linear(P.S, P.A.mult)
  }

  ghost predicate HasAdjoints<V(!new)>(P: Problem<V>) {
    && Adjoint(P.S, P.A.mult, P.A.transMult)
    && Adjoint(P.S, P.M.solve, P.M.transSolve)
  }

  ghost predicate SelfAdjoint<V(!new)>(P: Problem<V>) {
    && Adjoint(P.S, P.A.mult, P.A.mult)
    && Adjoint(P.S, P.M.solve, P.M.solve)
  }

  /** Symmetric positive definite, matrix and preconditioner alike. */
  ghost predicate SPD<V(!new)>(P: Problem<V>) {
    && SelfAdjoint(P)
    && PositiveDefinite(P.S, P.A.mult)
    && PositiveDefinite(P.S, P.M.solve)
  }

  ghost predicate Unpreconditioned<V(!new)>(P: Problem<V>) {
    forall u :: P.M.solve(u) == u && P.M.transSolve(u) == u
  }

  /** Moving x along p moves the residual along A p. */
  lemma ResidualMoves<V(!new)>(P: Problem<V>, x: V, a: real, p: V)
    requires Valid(P)
    ensures P.Residual(P.S.axpy(x, a, p)) == P.S.axpy(P.Residual(x), -a, P.A.mult(p))
  {
    hide InnerProduct, Linear;
    var S, A := P.S, P.A.mult;
    var l, r := P.Residual(S.axpy(x, a, p)), S.axpy(P.Residual(x), -a, A(p));
    forall t ensures S.dot(l, t) == S.dot(r, t) {
      Distribute(S, A, x, a, p);
      Expand(S, P.b, -1.0, A(S.axpy(x, a, p)), t);
      Expand(S, A(x), a, A(p), t);
      Expand(S, P.Residual(x), -a, A(p), t);
      Expand(S, P.b, -1.0, A(x), t);
    }
    Same(S, l, r);
  }

  /** The residual is b - A x, seen by every functional. */
  lemma ResidualIs<V(!new)>(P: Problem<V>, x: V, t: V)
    requires InnerProduct(P.S)
    ensures P.S.dot(P.Residual(x), t) == P.S.dot(P.b, t) - P.S.dot(P.A.mult(x), t)
  {
    hide InnerProduct;
    Expand(P.S, P.b, -1.0, P.A.mult(x), t);
  }

  /** What the convergence test measures vanishes at the solutions of A x = b and nowhere else. */
  lemma ResidualZero<V(!new)>(P: Problem<V>, x: V)
    requires InnerProduct(P.S)
    ensures P.Residual(x) == P.S.zero <==> P.A.mult(x) == P.b
    ensures P.Relative(P.Residual(x)) == 0.0 <==> P.A.mult(x) == P.b
  {
    hide InnerProduct;
    var S, r, y := P.S, P.Residual(x), P.A.mult(x);
    NullIsZero(S, r);
    if r == S.zero {
      forall t ensures S.dot(y, t) == S.dot(P.b, t) {
        ResidualIs(P, x, t);
        Zero(S, t);
      }
      Same(S, y, P.b);
    }
    if y == P.b {
      ResidualIs(P, x, r);
    }
  }

  lemma DivisorIs<V>(P: Problem<V>)
    ensures P.NormB() == if P.S.norm(P.b) == 0.0 then 1.0 else P.S.norm(P.b)
  {
  }

  lemma RelativeIs<V>(P: Problem<V>, r: V)
    ensures P.Relative(r) == P.S.norm(r) / P.NormB()
  {
  }

  lemma PositiveDivisor<V(!new)>(P: Problem<V>)
    requires Valid(P)
    ensures P.NormB() > 0.0
  {
    Square(P.S, P.b);
  }
}
