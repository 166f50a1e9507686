/** iml/cgs.h: the conjugate gradient squared method. */
module CGS {
  import opened Reals
  import opened VectorSpaces
  import opened Systems

  /** One pass through the loop: x and r as the pass finds them, then everything it computes. */
  datatype Iteration<V> = Iteration(x: V, r: V, rho: real, beta: real, u: V, p: V, phat: V, vhat: V,
                                    alpha: real, q: V, uhat: V, qhat: V)

  /** rt is the shadow residual, fixed for the whole run. */
  function First<V>(P: Problem<V>, rt: V, x0: V): Iteration<V> {
    var r := P.Residual(x0);
    Finish(P, rt, x0, r, 0.0, r, r)
  }

  function Next<V>(P: Problem<V>, rt: V, o: Iteration<V>): Iteration<V> {
    var r := P.S.axpy(o.r, -o.alpha, o.qhat);
    var beta := Quotient(P.S.dot(rt, r), o.rho);
    var u := P.S.axpy(r, beta, o.q);
    Finish(P, rt, P.S.axpy(o.x, o.alpha, o.uhat), r, beta, u, P.S.axpy(u, beta, P.S.axpy(o.q, beta, o.p)))
  }

  function Finish<V>(P: Problem<V>, rt: V, x: V, r: V, beta: real, u: V, p: V): Iteration<V> {
    var rho, phat := P.S.dot(rt, r), P.M.solve(p);
    var vhat := P.A.mult(phat);
    var alpha := Quotient(rho, P.S.dot(rt, vhat));
    var q := P.S.axpy(u, -alpha, vhat);
    var uhat := P.M.solve(P.S.axpy(u, 1.0, q));
    Iteration(x, r, rho, beta, u, p, phat, vhat, alpha, q, uhat, P.A.mult(uhat))
  }

  /** The pass that follows the passes t. */
  function Pending<V>(P: Problem<V>, x0: V, t: seq<Iteration<V>>): Iteration<V> {
    var rt := P.Residual(x0);
    if t == [] then First(P, rt, x0) else Next(P, rt, t[|t| - 1])
  }

  /** What every pass computes the same way. */
  ghost predicate Consistent<V>(P: Problem<V>, rt: V, c: Iteration<V>) {
    && c.rho == P.S.dot(rt, c.r) && c.phat == P.M.solve(c.p) && c.vhat == P.A.mult(c.phat)
    && c.alpha == Quotient(c.rho, P.S.dot(rt, c.vhat)) && c.q == P.S.axpy(c.u, -c.alpha, c.vhat)
    && c.uhat == P.M.solve(P.S.axpy(c.u, 1.0, c.q)) && c.qhat == P.A.mult(c.uhat)
  }

  /** How a pass continues the one before it. */
  ghost predicate Continues<V>(P: Problem<V>, o: Iteration<V>, c: Iteration<V>) {
    && c.x == P.S.axpy(o.x, o.alpha, o.uhat) && c.r == P.S.axpy(o.r, -o.alpha, o.qhat)
    && c.beta == Quotient(c.rho, o.rho) && c.u == P.S.axpy(c.r, c.beta, o.q)
    && c.p == P.S.axpy(c.u, c.beta, P.S.axpy(o.q, c.beta, o.p))
  }

  /** No division of the pass was by zero. */
  predicate Sound<V>(P: Problem<V>, rt: V, c: Iteration<V>) {
    c.rho != 0.0 && P.S.dot(rt, c.vhat) != 0.0
  }

  ghost predicate Follows<V>(P: Problem<V>, x0: V, t: seq<Iteration<V>>, k: nat)
    requires k < |t|
  {
    var rt := P.Residual(x0);
    t[k] == if k == 0 then First(P, rt, x0) else Next(P, rt, t[k - 1])
  }

  /** t follows the formulas of the loop from x0, whether or not one of them divides by zero. */
  ghost predicate Course<V>(P: Problem<V>, x0: V, t: seq<Iteration<V>>) {
    forall k: nat :: k < |t| ==> Follows(P, x0, t, k)
  }

  ghost predicate Pass<V>(P: Problem<V>, x0: V, t: seq<Iteration<V>>, k: nat)
    requires k < |t|
  {
    Follows(P, x0, t, k) && Sound(P, P.Residual(x0), t[k])
  }

  /** t records consecutive passes of the loop from x0, none of which divided by zero. */
  ghost predicate Run<V>(P: Problem<V>, x0: V, t: seq<Iteration<V>>) {
    forall k: nat :: k < |t| ==> Pass(P, x0, t, k)
  }

  lemma CourseAt<V>(P: Problem<V>, x0: V, t: seq<Iteration<V>>, k: nat)
    requires Course(P, x0, t) && k < |t|
    ensures Consistent(P, P.Residual(x0), t[k])
    ensures k == 0 ==> var c, r := t[k], P.Residual(x0); c.x == x0 && c.r == r && c.u == r && c.p == r && c.beta == 0.0
    ensures k > 0 ==> Continues(P, t[k - 1], t[k])
  {
    assert Follows(P, x0, t, k);
  }

  /** A run is a course in which every pass is sound. */
  lemma RunIsCourse<V>(P: Problem<V>, x0: V, t: seq<Iteration<V>>)
    ensures Run(P, x0, t) <==> Course(P, x0, t) && forall k :: 0 <= k < |t| ==> Sound(P, P.Residual(x0), t[k])
  {
    hide Follows, Sound, Problem.Residual;
    forall k: nat | k < |t| && Run(P, x0, t) ensures Follows(P, x0, t, k) && Sound(P, P.Residual(x0), t[k]) {
      assert Pass(P, x0, t, k);
    }
    forall k: nat | k < |t| && Course(P, x0, t) && Sound(P, P.Residual(x0), t[k]) ensures Pass(P, x0, t, k) {
      assert Follows(P, x0, t, k);
    }
  }

  /** The first n passes. */
  function Passes<V>(P: Problem<V>, x0: V, n: nat): (t: seq<Iteration<V>>)
    ensures |t| == n
  {
    if n == 0 then [] else
      var t := Passes(P, x0, n - 1);
      t + [Pending(P, x0, t)]
  }

  lemma {:induction false} PassesAreCourse<V>(P: Problem<V>, x0: V, n: nat)
    ensures Course(P, x0, Passes(P, x0, n))
  {
    hide First, Next, Problem.Residual;
    if n > 0 {
      var t, u := Passes(P, x0, n - 1), Passes(P, x0, n);
      PassesAreCourse(P, x0, n - 1);
      forall k: nat | k < n ensures Follows(P, x0, u, k) {
        if k < n - 1 {
          assert Follows(P, x0, t, k);
        }
      }
    }
  }

  lemma PassAt<V>(P: Problem<V>, x0: V, t: seq<Iteration<V>>, k: nat)
    requires Run(P, x0, t) && k < |t|
    ensures Consistent(P, P.Residual(x0), t[k]) && Sound(P, P.Residual(x0), t[k])
    ensures k == 0 ==> var c, r := t[k], P.Residual(x0); c.x == x0 && c.r == r && c.u == r && c.p == r
    ensures k > 0 ==> Continues(P, t[k - 1], t[k])
  {
    assert Pass(P, x0, t, k);
  }

  lemma PendingPass<V>(P: Problem<V>, x0: V, t: seq<Iteration<V>>)
    ensures Consistent(P, P.Residual(x0), Pending(P, x0, t))
    ensures t == [] ==> var c, r := Pending(P, x0, t), P.Residual(x0); c.x == x0 && c.r == r && c.u == r && c.p == r
    ensures t != [] ==> Continues(P, t[|t| - 1], Pending(P, x0, t))
  {
  }

  lemma Prefix<V>(P: Problem<V>, x0: V, t: seq<Iteration<V>>)
    requires Run(P, x0, t) && t != []
    ensures Run(P, x0, t[..|t| - 1])
    ensures t[|t| - 1] == Pending(P, x0, t[..|t| - 1])
  {
    hide First, Next, Sound, Problem.Residual;
    var s := t[..|t| - 1];
    forall k: nat | k < |s| ensures Pass(P, x0, s, k) {
      assert Pass(P, x0, t, k);
    }
    assert Pass(P, x0, t, |t| - 1);
  }

  lemma Extend<V>(P: Problem<V>, x0: V, t: seq<Iteration<V>>, c: Iteration<V>)
    requires Run(P, x0, t) && c == Pending(P, x0, t) && Sound(P, P.Residual(x0), c)
    ensures Run(P, x0, t + [c])
  {
    hide First, Next, Sound, Problem.Residual;
    var s := t + [c];
    forall k: nat | k < |s| ensures Pass(P, x0, s, k) {
      if k < |t| {
        assert Pass(P, x0, t, k);
      }
    }
  }

  /** The recurrence residual is the true residual. */
  lemma {:induction false} TrueResidual<V(!new)>(P: Problem<V>, x0: V, t: seq<Iteration<V>>)
    requires Valid(P) && Run(P, x0, t)
    ensures Pending(P, x0, t).r == P.Residual(Pending(P, x0, t).x)
    decreases |t|
  {
    hide InnerProduct, Linear, Quotient, First, Next, Pending, Run, Problem.Residual;
    PendingPass(P, x0, t);
    if t != [] {
      var o := t[|t| - 1];
      Prefix(P, x0, t);
      TrueResidual(P, x0, t[..|t| - 1]);
      PassAt(P, x0, t, |t| - 1);
      ResidualMoves(P, o.x, o.alpha, o.uhat);
    }
  }

  /** The convergence tests of a run so far all failed: the first with <=, the later ones with <. */
  /** The same for the passes recorded. */
  lemma {:induction false} PastResidual<V(!new)>(P: Problem<V>, x0: V, t: seq<Iteration<V>>, k: nat)
    requires Valid(P) && Run(P, x0, t) && k < |t|
    ensures t[k].r == P.Residual(t[k].x)
    decreases |t|
  {
    hide Valid, Run, Pending, Problem.Residual;
    Prefix(P, x0, t);
    if k == |t| - 1 {
      TrueResidual(P, x0, t[..k]);
    } else {
      PastResidual(P, x0, t[..|t| - 1], k);
    }
  }

  ghost predicate Unconverged<V(!new)>(P: Problem<V>, t: seq<Iteration<V>>, tol: real) {
    forall k: nat :: k < |t| ==> if k == 0 then P.Relative(t[k].r) > tol else P.Relative(t[k].r) >= tol
  }

  lemma StillUnconverged<V(!new)>(P: Problem<V>, t: seq<Iteration<V>>, c: Iteration<V>, tol: real)
    requires Unconverged(P, t, tol)
    requires if t == [] then P.Relative(c.r) > tol else P.Relative(c.r) >= tol
    ensures Unconverged(P, t + [c], tol)
  {
    hide Problem.Relative;
  }

  lemma EmptyRun<V(!new)>(P: Problem<V>, x0: V, tol: real)
    ensures Run(P, x0, []) && Unconverged(P, [], tol)
  {
  }

  /** No earlier x had passed the test. */
  lemma UnconvergedIs<V(!new)>(P: Problem<V>, x0: V, t: seq<Iteration<V>>, tol: real)
    requires Valid(P) && Run(P, x0, t)
    ensures Unconverged(P, t, tol) <==>
      forall k: nat :: k < |t| ==>
        if k == 0 then P.Relative(P.Residual(t[k].x)) > tol else P.Relative(P.Residual(t[k].x)) >= tol
  {
    hide Valid, Run, Problem.Residual, Problem.Relative;
    forall k: nat | k < |t| ensures t[k].r == P.Residual(t[k].x) {
      PastResidual(P, x0, t, k);
    }
  }

  /** Lines 50-65: the updates of one pass, unless the divisor of alpha is zero. */
  method Update<V>(P: Problem<V>, ghost x0: V, ghost t: seq<Iteration<V>>, first: bool, rtilde: V, x: V, r: V,
        rho1: real, rho2: real, p0: V, q0: V)
    returns (ok: bool, x': V, r': V, p: V, q: V)
    requires var c := Pending(P, x0, t); rtilde == P.Residual(x0) && x == c.x && r == c.r && rho1 == c.rho
    requires first <==> t == []
    requires !first ==> var o := t[|t| - 1]; rho2 == o.rho != 0.0 && p0 == o.p && q0 == o.q
    ensures var c := Pending(P, x0, t);
      && (ok <==> P.S.dot(P.Residual(x0), c.vhat) != 0.0) && (!ok ==> x' == c.x)
      && (ok ==> p == c.p && q == c.q && x' == P.S.axpy(c.x, c.alpha, c.uhat) && r' == P.S.axpy(c.r, -c.alpha, c.qhat))
  {
    hide First, Next, Finish, Pending, Quotient, Problem.Residual;
    PendingPass(P, x0, t);
    var S, u := P.S, r;
    if first {
      p := u;
    } else {
      QuotientIs(rho1, rho2);
      var beta := rho1 / rho2;
      u := S.axpy(r, beta, q0);
      p := S.axpy(u, beta, S.axpy(q0, beta, p0));
    }
    var phat := P.M.solve(p);
    var vhat := P.A.mult(phat);
    var divisor := S.dot(rtilde, vhat);
    ok, x', r', q := divisor != 0.0, x, r, q0;
    if ok {
      QuotientIs(rho1, divisor);
      var alpha := rho1 / divisor;
      q := S.axpy(u, -alpha, vhat);
      var uhat := P.M.solve(S.axpy(u, 1.0, q));
      x' := S.axpy(x, alpha, uhat);
      var qhat := P.A.mult(uhat);
      r' := S.axpy(r, -alpha, qhat);
    }
  }

  /** What the head of the loop finds. */
  lemma Head<V(!new)>(P: Problem<V>, x0: V, t: seq<Iteration<V>>)
    requires Valid(P) && Run(P, x0, t)
    ensures var c := Pending(P, x0, t);
      && c.rho == P.S.dot(P.Residual(x0), c.r) && Consistent(P, P.Residual(x0), c) && c.r == P.Residual(c.x)
    ensures t == [] ==> var c, r := Pending(P, x0, t), P.Residual(x0); c.x == x0 && c.r == r && c.u == r && c.p == r
    ensures t != [] ==> Continues(P, t[|t| - 1], Pending(P, x0, t))
  {
    hide Valid, Run, Quotient, Problem.Residual, Pending;
    PendingPass(P, x0, t);
    TrueResidual(P, x0, t);
  }

  /** CGS of iml/cgs.h; t is the record of its passes. */
  method Solve<V(!new)>(P: Problem<V>, x0: V, maxIter0: int, tol0: real)
    returns (exit: Exit, x: V, maxIter: int, tol: real, ghost t: seq<Iteration<V>>)
    requires Valid(P)
    ensures Run(P, x0, t) && x == Pending(P, x0, t).x && Unconverged(P, t, tol0)
    ensures |t| == 0 || |t| <= maxIter0
    ensures exit == Code(0) ==>
      maxIter == |t| && tol == P.Relative(P.Residual(x)) && (if t == [] then tol <= tol0 else tol < tol0)
    ensures exit == Code(1) ==>
      |t| >= maxIter0 == maxIter && tol == P.Relative(P.Residual(x)) && (if t == [] then tol > tol0 else tol >= tol0)
    ensures exit == Code(2) ==>
      Pending(P, x0, t).rho == 0.0 && |t| < maxIter0 == maxIter && tol == P.Relative(P.Residual(x))
    ensures exit == DivideByZero ==>
      var c := Pending(P, x0, t);
      c.rho != 0.0 && P.S.dot(P.Residual(x0), c.vhat) == 0.0 && |t| < maxIter0 == maxIter && tol == tol0
    ensures exit == Code(2) || exit == DivideByZero ==>
      if t == [] then P.Relative(P.Residual(x)) > tol0 else P.Relative(P.Residual(x)) >= tol0
    ensures if exit.Code? then 0 <= exit.code <= 2 else exit == DivideByZero
  {
    hide Valid, First, Next, Finish, Pending, Run, Unconverged, Consistent, Quotient, Problem.NormB, Problem.Relative,
      Problem.Residual;
    var S := P.S;
    x, maxIter, tol, t := x0, maxIter0, tol0, [];
    var normb := S.norm(P.b);
    var r := P.Residual(x);
    var rtilde := r;
    if normb == 0.0 {
      normb := 1.0;
    }
    DivisorIs(P);
    RelativeIs(P, r);
    EmptyRun(P, x0, tol);
    Head(P, x0, t);
    var resid := S.norm(r) / normb;
    if resid <= tol {
      return Code(0), x, 0, resid, t;
    }
    var rho2, p, q := 0.0, r, r;
    var i := 1;
    while i <= maxIter
      invariant 1 <= i && (i <= maxIter + 1 || i == 1)
      invariant |t| == i - 1 && Run(P, x0, t) && Unconverged(P, t, tol)
      invariant maxIter == maxIter0 && tol == tol0 && normb == P.NormB()
      invariant resid == P.Relative(r) && (if i == 1 then resid > tol else resid >= tol)
      invariant r == P.Residual(x)
      invariant var c := Pending(P, x0, t); x == c.x && r == c.r
      invariant i > 1 ==> var o := t[|t| - 1]; rho2 == o.rho != 0.0 && p == o.p && q == o.q
    {
      ghost var c := Pending(P, x0, t);
      Head(P, x0, t);
      var rho1 := S.dot(rtilde, r);
      if rho1 == 0.0 {
        RelativeIs(P, r);
        return Code(2), x, maxIter, S.norm(r) / normb, t;
      }
      var ok;
      ok, x, r, p, q := Update(P, x0, t, i == 1, rtilde, x, r, rho1, rho2, p, q);
      if !ok {
        return DivideByZero, x, maxIter, tol, t;
      }
      rho2 := rho1;
      Extend(P, x0, t, c);
      StillUnconverged(P, t, c, tol);
      t := t + [c];
      Head(P, x0, t);
      RelativeIs(P, r);
      resid := S.norm(r) / normb;
      if resid < tol {
        return Code(0), x, i, resid, t;
      }
      i := i + 1;
    }
    return Code(1), x, maxIter, resid, t;
  }
}
