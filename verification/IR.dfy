/** iml/ir.h: preconditioned Richardson iteration. */
module IR {
  import opened Reals
  import opened VectorSpaces
  import opened Systems

  /** x after k passes. */
  function Iterate<V>(P: Problem<V>, x0: V, k: nat): V {
    if k == 0 then x0
    else
      var x := Iterate(P, x0, k - 1);
      P.S.axpy(x, 1.0, P.M.solve(P.Residual(x)))
  }

  /** I - A M^-1, which every pass applies to the residual. */
  function Shrink<V>(P: Problem<V>, v: V): V {
    P.S.axpy(v, -1.0, P.A.mult(P.M.solve(v)))
  }

  /** (I - A M^-1)^k v. */
  function ShrinkPower<V>(P: Problem<V>, k: nat, v: V): V {
    if k == 0 then v else Shrink(P, ShrinkPower(P, k - 1, v))
  }

  function Power(q: real, k: nat): real {
    if k == 0 then 1.0 else q * Power(q, k - 1)
  }

  /** The residual after k passes is (I - A M^-1)^k r0. */
  lemma {:induction false} ResidualPower<V(!new)>(P: Problem<V>, x0: V, k: nat)
    requires Valid(P)
    ensures P.Residual(Iterate(P, x0, k)) == ShrinkPower(P, k, P.Residual(x0))
  {
    hide Valid, Problem.Residual;
    if k > 0 {
      ResidualPower(P, x0, k - 1);
      var x := Iterate(P, x0, k - 1);
      ResidualMoves(P, x, 1.0, P.M.solve(P.Residual(x)));
    }
  }

  /** One pass is enough exactly if A undoes M^-1 on the residual; then it ends in the solution. */
  lemma OnePass<V(!new)>(P: Problem<V>, x0: V)
    requires Valid(P)
    ensures P.A.mult(P.M.solve(P.Residual(x0))) == P.Residual(x0) <==> P.A.mult(Iterate(P, x0, 1)) == P.b
  {
    hide InnerProduct, Linear, Problem.Residual;
    var S, r := P.S, P.Residual(x0);
    var y := P.A.mult(P.M.solve(r));
    var e := S.axpy(r, -1.0, y);
    ResidualPower(P, x0, 1);
    assert ShrinkPower(P, 1, r) == Shrink(P, ShrinkPower(P, 0, r)) == e;
    ResidualZero(P, Iterate(P, x0, 1));
    Expand(S, r, -1.0, y, e);
    NullIsZero(S, e);
    if e == S.zero {
      forall t ensures S.dot(r, t) == S.dot(y, t) {
        Expand(S, r, -1.0, y, t);
        Zero(S, t);
      }
      Same(S, r, y);
    }
  }

  /** Every pass shrinks the residual by q at least. */
  ghost predicate Contracts<V(!new)>(P: Problem<V>, q: real) {
    q >= 0.0 && forall v :: P.S.norm(Shrink(P, v)) <= q * P.S.norm(v)
  }

  lemma {:induction false} ResidualBound<V(!new)>(P: Problem<V>, x0: V, q: real, k: nat)
    requires Valid(P) && Contracts(P, q)
    ensures P.S.norm(P.Residual(Iterate(P, x0, k))) <= Power(q, k) * P.S.norm(P.Residual(x0))
  {
    hide Valid, Problem.Residual, Shrink;
    if k > 0 {
      ResidualBound(P, x0, q, k - 1);
      ResidualPower(P, x0, k);
      ResidualPower(P, x0, k - 1);
      var r := P.Residual(x0);
      Scaled(q, P.S.norm(ShrinkPower(P, k - 1, r)), Power(q, k - 1) * P.S.norm(r));
      assert q * (Power(q, k - 1) * P.S.norm(r)) == Power(q, k) * P.S.norm(r);
    }
  }

  lemma Scaled(q: real, a: real, b: real)
    requires q >= 0.0 && a <= b
    ensures q * a <= q * b
  {
  }

  /** The k-th iterate passes the convergence test. */
  ghost predicate Meets<V>(P: Problem<V>, x0: V, k: nat, tol: real) {
    P.Relative(P.Residual(Iterate(P, x0, k))) <= tol
  }

  lemma IterateIs<V>(P: Problem<V>, x0: V, k: nat)
    ensures k == 0 ==> Iterate(P, x0, k) == x0
    ensures k > 0 ==>
      var x := Iterate(P, x0, k - 1);
      Iterate(P, x0, k) == P.S.axpy(x, 1.0, P.M.solve(P.Residual(x)))
  {
  }

  /** A contraction meets the tolerance by the K-th pass, so no run allowed K passes misses it. */
  lemma ConvergesWithin<V(!new)>(P: Problem<V>, x0: V, q: real, K: nat, tol: real)
    requires Valid(P) && Contracts(P, q) && Power(q, K) * P.Relative(P.Residual(x0)) <= tol
    ensures Meets(P, x0, K, tol)
  {
    hide Valid, Contracts, Problem.Residual, Problem.NormB;
    ResidualBound(P, x0, q, K);
    PositiveDivisor(P);
    var a, b, c := P.S.norm(P.Residual(Iterate(P, x0, K))), P.S.norm(P.Residual(x0)), P.NormB();
    DivideOrder(a, Power(q, K) * b, c);
    assert Power(q, K) * b / c == Power(q, K) * (b / c);
  }

  lemma InTime<V(!new)>(P: Problem<V>, x0: V, i: nat, tol: real)
    requires Valid(P) && forall k: nat :: k < i ==> !Meets(P, x0, k, tol)
    ensures forall q: real, K: nat :: Contracts(P, q) && Power(q, K) * P.Relative(P.Residual(x0)) <= tol ==> i <= K
  {
    hide *;
    forall q: real, K: nat | Contracts(P, q) && Power(q, K) * P.Relative(P.Residual(x0)) <= tol ensures i <= K {
      ConvergesWithin(P, x0, q, K, tol);
    }
  }

  /** The iterates before the i-th all failed the test. */
  lemma Missed<V>(P: Problem<V>, x0: V, i: nat, tol: real)
    requires forall k: nat :: k < i ==> !Meets(P, x0, k, tol)
    ensures forall k: nat :: k < i ==> P.Relative(P.Residual(Iterate(P, x0, k))) > tol
  {
    forall k: nat | k < i ensures P.Relative(P.Residual(Iterate(P, x0, k))) > tol {
      assert !Meets(P, x0, k, tol);
    }
  }

  /** IR of iml/ir.h: it returns the first iterate within max_iter that passes the test. */
  method Solve<V(!new)>(P: Problem<V>, x0: V, maxIter0: int, tol0: real)
    returns (code: int, x: V, maxIter: int, tol: real)
    requires Valid(P)
    ensures code == 0 || code == 1
    ensures code == 0 ==>
      && 0 <= maxIter && (maxIter == 0 || maxIter <= maxIter0) && x == Iterate(P, x0, maxIter)
      && Meets(P, x0, maxIter, tol0) && (forall k: nat :: k < maxIter ==> !Meets(P, x0, k, tol0))
    ensures code == 1 ==>
      && maxIter == maxIter0 && x == Iterate(P, x0, if maxIter0 < 0 then 0 else maxIter0)
      && forall k: nat :: k == 0 || k <= maxIter0 ==> !Meets(P, x0, k, tol0)
    ensures tol == P.Relative(P.Residual(x)) && (code == 0 <==> tol <= tol0)
    ensures forall k: nat :: k < maxIter ==> P.Relative(P.Residual(Iterate(P, x0, k))) > tol0
    ensures forall q: real, K: nat ::
      Contracts(P, q) && Power(q, K) * P.Relative(P.Residual(x0)) <= tol0 && K <= maxIter0 ==> code == 0 && maxIter <= K
  {
    hide Valid, Iterate, Problem.Residual, Problem.Relative, Problem.NormB;
    x, maxIter, tol := x0, maxIter0, tol0;
    var normb := P.S.norm(P.b);
    var r := P.Residual(x);
    if normb == 0.0 {
      normb := 1.0;
    }
    DivisorIs(P);
    RelativeIs(P, r);
    IterateIs(P, x0, 0);
    var resid := P.S.norm(r) / normb;
    if resid <= tol {
      return 0, x, 0, resid;
    }
    var i := 1;
    while i <= maxIter
      invariant 1 <= i && (i <= maxIter + 1 || i == 1)
      invariant maxIter == maxIter0 && tol == tol0 && normb == P.NormB()
      invariant x == Iterate(P, x0, i - 1) && r == P.Residual(x) && resid == P.Relative(r) > tol
      invariant forall k: nat :: k < i ==> !Meets(P, x0, k, tol)
    {
      var z := P.M.solve(r);
      x := P.S.axpy(x, 1.0, z);
      r := P.Residual(x);
      IterateIs(P, x0, i);
      RelativeIs(P, r);
      resid := P.S.norm(r) / normb;
      if resid <= tol {
        InTime(P, x0, i, tol);
        Missed(P, x0, i, tol);
        return 0, x, i, resid;
      }
      i := i + 1;
    }
    InTime(P, x0, i, tol);
    Missed(P, x0, i, tol);
    return 1, x, maxIter, resid;
  }
}
