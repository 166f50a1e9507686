/** The real line as a space, and a system on it that takes iml/bicgstab.h out by its half-step return. */
module OneDimension {
  import opened Reals
  import opened VectorSpaces
  import opened Systems
  import opened BiCGSTAB

  datatype Scalar = Scalar(value: real)

  function Add(u: Scalar, a: real, v: Scalar): Scalar {
    Scalar(u.value + a * v.value)
  }

  function Multiply(u: Scalar, v: Scalar): real {
    u.value * v.value
  }

  function Size(u: Scalar): real {
    Abs(u.value)
  }

  function Same(u: Scalar): Scalar {
    u
  }

  function RealLine(): Space<Scalar> {
    Space(Scalar(0.0), Add, Multiply, Size)
  }

  lemma IsInnerProduct()
    ensures InnerProduct(RealLine())
  {
    hide Add, Multiply, Size;
    var S := RealLine();
    forall u, a, v, t ensures S.dot(S.axpy(u, a, v), t) == S.dot(u, t) + a * S.dot(v, t) {
      Distributive(u, a, v, t);
    }
    forall u, v ensures S.dot(u, v) == S.dot(v, u) && S.dot(S.zero, u) == 0.0 && S.dot(u, u) >= 0.0 {
      Distributive(u, 0.0, v, u);
      Squares(u, v);
    }
    forall u, v | S.dot(S.axpy(u, -1.0, v), S.axpy(u, -1.0, v)) == 0.0 ensures u == v {
      Squares(u, v);
    }
    forall u ensures S.norm(u) >= 0.0 && S.norm(u) * S.norm(u) == S.dot(u, u) {
      Squares(u, u);
    }
  }

  lemma Distributive(u: Scalar, a: real, v: Scalar, t: Scalar)
    ensures Multiply(Add(u, a, v), t) == Multiply(u, t) + a * Multiply(v, t)
    ensures Multiply(u, v) == Multiply(v, u) && Multiply(Scalar(0.0), t) == 0.0
  {
    assert (u.value + a * v.value) * t.value == u.value * t.value + a * (v.value * t.value);
  }

  lemma Squares(u: Scalar, v: Scalar)
    ensures Multiply(u, u) >= 0.0 && Size(u) >= 0.0 && Size(u) * Size(u) == Multiply(u, u)
    ensures Multiply(Add(u, -1.0, v), Add(u, -1.0, v)) == 0.0 ==> u == v
  {
    var d := u.value - v.value;
    assert Add(u, -1.0, v) == Scalar(d);
    if d * d == 0.0 {
      ZeroProduct(d, d);
    }
  }

  /** x = 1. */
  function One(): Problem<Scalar> {
    Problem(RealLine(), Matrix(Same, Same), Preconditioner(Same, Same), Scalar(1.0))
  }

  lemma OneIsValid()
    ensures Valid(One())
  {
    IsInnerProduct();
  }

  lemma Operations(u: Scalar, a: real, v: Scalar)
    ensures One().S.axpy(u, a, v) == Scalar(u.value + a * v.value) && One().S.dot(u, v) == u.value * v.value
    ensures One().S.norm(u) == Abs(u.value) && One().A.mult(u) == u == One().M.solve(u) && One().b == Scalar(1.0)
  {
  }

  lemma Start()
    ensures One().Residual(Scalar(0.0)) == Scalar(1.0)
  {
    hide One;
    Operations(Scalar(0.0), 0.0, Scalar(0.0));
    Operations(Scalar(1.0), -1.0, Scalar(0.0));
  }

  lemma RelativeOf(u: Scalar)
    ensures One().Relative(u) == Abs(u.value)
  {
    hide One, Abs;
    Operations(u, 0.0, u);
    Operations(Scalar(1.0), 0.0, u);
    assert Abs(1.0) == 1.0 by { AbsOfOne(); }
  }

  lemma AbsOfOne()
    ensures Abs(1.0) == 1.0 && Abs(0.0) == 0.0
  {
  }

  /** From x = 0 the half step of the first pass solves it. */
  lemma FirstPass()
    ensures var c := Pending(One(), Scalar(0.0), []);
      && c.x == Scalar(0.0) && c.r == Scalar(1.0) == One().Residual(Scalar(0.0)) && c.rho == 1.0 && c.v == Scalar(1.0)
      && c.s == Scalar(0.0) && One().S.dot(One().Residual(Scalar(0.0)), c.v) == 1.0
      && One().Relative(c.r) == 1.0 && One().Relative(c.s) == 0.0
      && HalfStep(One(), c) == Scalar(1.0)
  {
    hide One, Pending, Abs, Problem.Residual, Problem.Relative;
    var c, one := Pending(One(), Scalar(0.0), []), Scalar(1.0);
    Start();
    PendingPass(One(), Scalar(0.0), []);
    Operations(one, 0.0, one);
    assert c.rho == 1.0 && c.v == one;
    assert c.alpha == 1.0;
    Operations(one, -1.0, one);
    Operations(Scalar(0.0), 1.0, one);
    RelativeOf(one);
    RelativeOf(Scalar(0.0));
    AbsOfOne();
  }

  /** Whatever max_iter is, one pass is begun, code 0 is returned, and max_iter is still what it was. */
  method HalfStepReturn(maxIter0: int, tol0: real) returns (x: Scalar, maxIter: int)
    requires maxIter0 >= 1 && 0.0 < tol0 < 1.0
    ensures x == Scalar(1.0) && maxIter == maxIter0
  {
    hide Run, Unconverged, Pending, One, HalfStep, Problem.Relative, Problem.Residual;
    OneIsValid();
    var exit, tol;
    ghost var u, half;
    exit, x, maxIter, tol, u, half := Solve(One(), Scalar(0.0), maxIter0, tol0);
    NoFullPass(u, tol0);
    FirstPass();
    assert half;
  }

  /** No full pass fails both convergence tests. */
  lemma NoFullPass(u: seq<Iteration<Scalar>>, tol: real)
    requires Run(One(), Scalar(0.0), u) && Unconverged(One(), u, tol) && tol > 0.0
    ensures u == []
  {
    hide Pending, Problem.Residual, Problem.Relative, One, First, Next;
    if u != [] {
      FirstPass();
      FirstOfRun(u);
    }
  }

  lemma FirstOfRun(u: seq<Iteration<Scalar>>)
    requires Run(One(), Scalar(0.0), u) && u != []
    ensures u[0] == Pending(One(), Scalar(0.0), [])
  {
    hide First, Next, One, Problem.Residual;
    assert Pass(One(), Scalar(0.0), u, 0);
  }
}
