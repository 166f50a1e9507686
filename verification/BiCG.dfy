/** iml/bicg.h: the preconditioned biconjugate gradient method. */
module BiCG {
  import opened Reals
  import opened VectorSpaces
  import opened Systems
  import opened Combinations
  import Lanczos

  /** One pass through the loop: x, r and rt as the pass finds them, then everything it computes. */
  datatype Iteration<V> = Iteration(x: V, r: V, rt: V, z: V, zt: V, rho: real, beta: real,
                                    p: V, pt: V, q: V, qt: V, alpha: real)

  function First<V>(P: Problem<V>, x0: V): Iteration<V> {
    var r := P.Residual(x0);
    var z, zt := P.M.solve(r), P.M.transSolve(r);
    Finish(P, x0, r, r, z, zt, 0.0, z, zt)
  }

  function Next<V>(P: Problem<V>, o: Iteration<V>): Iteration<V> {
    var r, rt := P.S.axpy(o.r, -o.alpha, o.q), P.S.axpy(o.rt, -o.alpha, o.qt);
    var z, zt := P.M.solve(r), P.M.transSolve(rt);
    var beta := Quotient(P.S.dot(z, rt), o.rho);
    Finish(P, P.S.axpy(o.x, o.alpha, o.p), r, rt, z, zt, beta, P.S.axpy(z, beta, o.p), P.S.axpy(zt, beta, o.pt))
  }

  function Finish<V>(P: Problem<V>, x: V, r: V, rt: V, z: V, zt: V, beta: real, p: V, pt: V): Iteration<V> {
    var rho, q := P.S.dot(z, rt), P.A.mult(p);
    Iteration(x, r, rt, z, zt, rho, beta, p, pt, q, P.A.transMult(pt), Quotient(rho, P.S.dot(pt, q)))
  }

  /** The pass that follows the passes t. */
  function Pending<V>(P: Problem<V>, x0: V, t: seq<Iteration<V>>): Iteration<V> {
    if t == [] then First(P, x0) else Next(P, t[|t| - 1])
  }

  /** What every pass computes the same way. */
  ghost predicate Consistent<V>(P: Problem<V>, c: Iteration<V>) {
    && c.z == P.M.solve(c.r) && c.zt == P.M.transSolve(c.rt) && c.rho == P.S.dot(c.z, c.rt)
    && c.q == P.A.mult(c.p) && c.qt == P.A.transMult(c.pt) && c.alpha == Quotient(c.rho, P.S.dot(c.pt, c.q))
  }

  /** No division of the pass was by zero. */
  predicate Sound<V>(P: Problem<V>, c: Iteration<V>) {
    c.rho != 0.0 && P.S.dot(c.pt, c.q) != 0.0
  }

  ghost predicate Follows<V>(P: Problem<V>, x0: V, t: seq<Iteration<V>>, k: nat)
    requires k < |t|
  {
    t[k] == if k == 0 then First(P, x0) else Next(P, t[k - 1])
  }

  /** t follows the formulas of the loop from x0, whether or not one of them divides by zero. */
  ghost predicate Course<V>(P: Problem<V>, x0: V, t: seq<Iteration<V>>) {
    forall k: nat :: k < |t| ==> Follows(P, x0, t, k)
  }

  /** A course that got as far as its last pass. */
  ghost predicate Begun<V>(P: Problem<V>, x0: V, t: seq<Iteration<V>>) {
    Course(P, x0, t) && forall k :: 0 <= k < |t| - 1 ==> Sound(P, t[k])
  }

  ghost predicate Pass<V>(P: Problem<V>, x0: V, t: seq<Iteration<V>>, k: nat)
    requires k < |t|
  {
    Follows(P, x0, t, k) && Sound(P, t[k])
  }

  /** t records consecutive passes of the loop from x0, none of which divided by zero. */
  ghost predicate Run<V>(P: Problem<V>, x0: V, t: seq<Iteration<V>>) {
    forall k: nat :: k < |t| ==> Pass(P, x0, t, k)
  }

  /** The pass as a link of the two-sided Lanczos recurrence, its residuals scaled by 1/s. */
  function Link<V>(P: Problem<V>, c: Iteration<V>, s: real): Lanczos.Pair<V> {
    Lanczos.Pair(c.r, c.rt, c.p, c.pt, s, s, c.rho, P.S.dot(c.pt, c.q), Quotient(1.0, c.alpha), -c.beta, -c.beta)
  }

  function Factor<V>(o: Iteration<V>): real {
    Quotient(-1.0, o.alpha)
  }

  function ScaleAt<V>(t: seq<Iteration<V>>, k: nat): real
    requires k < |t|
  {
    if k == 0 then 1.0 else Factor(t[k - 1])
  }

  function Links<V>(P: Problem<V>, t: seq<Iteration<V>>): (l: seq<Lanczos.Pair<V>>)
    ensures |l| == |t|
    ensures forall k :: 0 <= k < |t| ==> l[k] == Link(P, t[k], ScaleAt(t, k))
  {
    if t == [] then []
    else
      var k := |t| - 1;
      Links(P, t[..k]) + [Link(P, t[k], ScaleAt(t, k))]
  }

  function Operators<V>(P: Problem<V>): Lanczos.Operators<V> {
    Lanczos.Operators(P.A.mult, P.A.transMult, P.M.solve, P.M.transSolve)
  }

  lemma Scalars(rho: real, den: real, alpha: real)
    requires rho != 0.0 && den != 0.0 && alpha == Quotient(rho, den)
    ensures alpha != 0.0 && alpha * den == rho && Quotient(rho, alpha) == den && Quotient(1.0, alpha) * rho == den
    ensures Quotient(-1.0, alpha) != 0.0
  {
    assert alpha * den == rho;
    assert 1.0 / alpha * rho == den;
  }

  lemma Increment<V(!new)>(S: Space<V>, s: real, alpha: real, r': V, r: V, q: V)
    requires InnerProduct(S) && alpha != 0.0 && s == Quotient(-1.0, alpha) && r' == S.axpy(r, -alpha, q)
    ensures Combines(S, s, r', 1.0, q, -Quotient(1.0, alpha), r)
  {
    hide InnerProduct;
    forall t ensures s * S.dot(r', t) == 1.0 * S.dot(q, t) + -Quotient(1.0, alpha) * S.dot(r, t) {
      Expand(S, r, -alpha, q, t);
      var a, b := S.dot(r, t), S.dot(q, t);
      assert s == -1.0 / alpha;
      assert s * (a - alpha * b) == s * a - (s * alpha) * b;
    }
  }

  lemma Direction<V(!new)>(S: Space<V>, p: V, z: V, beta: real, o: V)
    requires InnerProduct(S) && p == S.axpy(z, beta, o)
    ensures Combines(S, 1.0, p, 1.0, z, -(-beta), o)
  {
    hide InnerProduct;
    forall t ensures 1.0 * S.dot(p, t) == 1.0 * S.dot(z, t) + -(-beta) * S.dot(o, t) {
      Expand(S, z, beta, o, t);
    }
  }

  lemma LinkScaled<V(!new)>(P: Problem<V>, c: Iteration<V>, s: real)
    requires InnerProduct(P.S) && Consistent(P, c)
    ensures Lanczos.Scaled(P.S, Operators(P), Link(P, c, s))
  {
    hide InnerProduct;
    Symmetric(P.S, P.M.solve(c.r), c.rt);
  }

  lemma LinkCoupled<V(!new)>(P: Problem<V>, o: Iteration<V>, c: Iteration<V>, s: real)
    requires InnerProduct(P.S) && Sound(P, o) && c == Next(P, o) && Consistent(P, o)
    ensures Lanczos.Coupled(P.S, Operators(P), Link(P, o, s), Link(P, c, Factor(o)))
  {
    hide InnerProduct, Combines, Quotient;
    Scalars(o.rho, P.S.dot(o.pt, o.q), o.alpha);
    Increment(P.S, Factor(o), o.alpha, c.r, o.r, o.q);
    Increment(P.S, Factor(o), o.alpha, c.rt, o.rt, o.qt);
    Direction(P.S, c.p, c.z, c.beta, o.p);
    Direction(P.S, c.pt, c.zt, c.beta, o.pt);
    Coefficient(c.beta, c.rho, o.rho, o.alpha, P.S.dot(o.pt, o.q));
  }

  lemma CourseAt<V>(P: Problem<V>, x0: V, t: seq<Iteration<V>>, k: nat)
    requires Course(P, x0, t) && k < |t|
    ensures Consistent(P, t[k])
    ensures k == 0 ==> t[k] == First(P, x0)
    ensures k > 0 ==> t[k] == Next(P, t[k - 1])
  {
    assert Follows(P, x0, t, k);
  }

  /** A run is a course in which every pass is sound. */
  lemma RunIsCourse<V>(P: Problem<V>, x0: V, t: seq<Iteration<V>>)
    ensures Run(P, x0, t) <==> Course(P, x0, t) && forall k :: 0 <= k < |t| ==> Sound(P, t[k])
  {
    hide Follows, Sound;
    forall k: nat | k < |t| && Run(P, x0, t) ensures Follows(P, x0, t, k) && Sound(P, t[k]) {
      assert Pass(P, x0, t, k);
    }
    forall k: nat | k < |t| && Course(P, x0, t) && Sound(P, t[k]) ensures Pass(P, x0, t, k) {
      assert Follows(P, x0, t, k);
    }
  }

  /** The first n passes. */
  function Passes<V>(P: Problem<V>, x0: V, n: nat): (t: seq<Iteration<V>>)
    ensures |t| == n
  {
    if n == 0 then [] else
      var t := Passes(P, x0, n - 1);
      t + [Pending(P, x0, t)]
  }

  lemma {:induction false} PassesAreCourse<V>(P: Problem<V>, x0: V, n: nat)
    ensures Course(P, x0, Passes(P, x0, n))
  {
    hide First, Next;
    if n > 0 {
      var t, u := Passes(P, x0, n - 1), Passes(P, x0, n);
      PassesAreCourse(P, x0, n - 1);
      forall k: nat | k < n ensures Follows(P, x0, u, k) {
        if k < n - 1 {
          assert Follows(P, x0, t, k);
        }
      }
    }
  }

  lemma PassConsistent<V>(P: Problem<V>, x0: V, t: seq<Iteration<V>>, k: nat)
    requires Run(P, x0, t) && k < |t|
    ensures Consistent(P, t[k]) && Sound(P, t[k])
    ensures k == 0 ==> t[k] == First(P, x0)
    ensures k > 0 ==> t[k] == Next(P, t[k - 1])
  {
    assert Pass(P, x0, t, k);
  }

  lemma LinkRecurrence<V(!new)>(P: Problem<V>, x0: V, t: seq<Iteration<V>>, k: nat)
    requires Valid(P) && Begun(P, x0, t) && k < |t|
    ensures Lanczos.Recurrence(P.S, Operators(P), Links(P, t), k)
  {
    hide InnerProduct, Linear, Combines, Links, Quotient, Next, Course, Lanczos.Scaled, Lanczos.Coupled, Sound;
    CourseAt(P, x0, t, k);
    LinkScaled(P, t[k], Links(P, t)[k].rho);
    if k > 0 {
      CourseAt(P, x0, t, k - 1);
      LinkCoupled(P, t[k - 1], t[k], Links(P, t)[k - 1].rho);
    }
  }

  /** The passes of the method are a run of the two-sided Lanczos recurrence. */
  lemma IsLanczos<V(!new)>(P: Problem<V>, x0: V, t: seq<Iteration<V>>)
    requires Valid(P) && Begun(P, x0, t)
    ensures Lanczos.Run(P.S, Operators(P), Links(P, t))
  {
    hide Valid, Begun, Lanczos.Recurrence;
    forall k: nat | k < |t| ensures Lanczos.Recurrence(P.S, Operators(P), Links(P, t), k) {
      LinkRecurrence(P, x0, t, k);
    }
  }

  lemma Coefficient(beta: real, rho: real, rho': real, alpha: real, eps: real)
    requires alpha != 0.0 && rho' != 0.0 && beta == Quotient(rho, rho') && alpha * eps == rho'
    ensures -beta * eps == Quotient(-1.0, alpha) * rho
  {
    assert beta * rho' == rho;
    var s := -1.0 / alpha;
    assert s * alpha == -1.0;
    assert s * rho == s * (beta * (alpha * eps)) == (s * alpha) * (beta * eps);
  }

  /** Residuals and search directions stay biorthogonal over the whole history, the pass under way included. */
  lemma Biorthogonal<V(!new)>(P: Problem<V>, x0: V, t: seq<Iteration<V>>, i: nat, k: nat)
    requires Valid(P) && HasAdjoints(P) && Begun(P, x0, t) && i < |t| && k < |t| && i != k
    ensures P.S.dot(t[i].z, t[k].rt) == 0.0
    ensures P.S.dot(t[i].pt, P.A.mult(t[k].p)) == 0.0
    ensures i < k ==> P.S.dot(t[i].pt, t[k].r) == 0.0 == P.S.dot(t[i].p, t[k].rt)
  {
    hide InnerProduct, Linear, Adjoint, Combines, Links, ScaleAt, Course, Next, First, Quotient, Sound, Lanczos.Run;
    IsLanczos(P, x0, t);
    Lanczos.Biorthogonal(P.S, Operators(P), Links(P, t), i, k);
    Lanczos.Biorthogonal(P.S, Operators(P), Links(P, t), k, i);
    CourseAt(P, x0, t, i);
    Symmetric(P.S, t[i].z, t[k].rt);
    Symmetric(P.S, t[i].p, t[k].rt);
  }

  /** In dimension n no run has more than n passes: the method converges, breaks down or divides by zero. */
  lemma FiniteRun<V(!new)>(P: Problem<V>, x0: V, t: seq<Iteration<V>>, n: nat)
    requires Valid(P) && HasAdjoints(P) && Run(P, x0, t) && Dimension(P.S, n)
    ensures |t| <= n
  {
    hide Linear, Adjoint, Links, Run, Course, Lanczos.Run, Dimension;
    RunIsCourse(P, x0, t);
    IsLanczos(P, x0, t);
    Lanczos.Short(P.S, Operators(P), Links(P, t), n);
  }

  /** The recurrence residual is the true residual, of every pass and of the one pending. */
  lemma {:induction false} TrueResidual<V(!new)>(P: Problem<V>, x0: V, t: seq<Iteration<V>>)
    requires Valid(P) && Run(P, x0, t)
    ensures Pending(P, x0, t).r == P.Residual(Pending(P, x0, t).x)
    decreases |t|
  {
    hide InnerProduct, Linear, Quotient, Sound;
    if t != [] {
      var o := t[|t| - 1];
      PassConsistent(P, x0, t, |t| - 1);
      Prefix(P, x0, t);
      assert o == Pending(P, x0, t[..|t| - 1]);
      TrueResidual(P, x0, t[..|t| - 1]);
      ResidualMoves(P, o.x, o.alpha, o.p);
    }
  }

  /** The same for the passes recorded. */
  lemma {:induction false} PastResidual<V(!new)>(P: Problem<V>, x0: V, t: seq<Iteration<V>>, k: nat)
    requires Valid(P) && Run(P, x0, t) && k < |t|
    ensures t[k].r == P.Residual(t[k].x)
    decreases |t|
  {
    hide Valid, Run, Pending, Problem.Residual;
    Prefix(P, x0, t);
    if k == |t| - 1 {
      TrueResidual(P, x0, t[..k]);
    } else {
      PastResidual(P, x0, t[..|t| - 1], k);
    }
  }

  lemma Prefix<V>(P: Problem<V>, x0: V, t: seq<Iteration<V>>)
    requires Run(P, x0, t) && t != []
    ensures Run(P, x0, t[..|t| - 1])
    ensures t[|t| - 1] == Pending(P, x0, t[..|t| - 1])
  {
    hide First, Next, Sound;
    var s := t[..|t| - 1];
    forall k: nat | k < |s| ensures Pass(P, x0, s, k) {
      assert Pass(P, x0, t, k);
    }
    assert Pass(P, x0, t, |t| - 1);
  }

  /** The pending pass, formula by formula. */
  lemma PendingPass<V>(P: Problem<V>, x0: V, t: seq<Iteration<V>>)
    ensures Consistent(P, Pending(P, x0, t))
    ensures t == [] ==>
      var c := Pending(P, x0, t);
      c.x == x0 && c.r == P.Residual(x0) == c.rt && c.p == c.z && c.pt == c.zt
    ensures t != [] ==>
      var c, o := Pending(P, x0, t), t[|t| - 1];
      && c.x == P.S.axpy(o.x, o.alpha, o.p) && c.r == P.S.axpy(o.r, -o.alpha, o.q)
      && c.rt == P.S.axpy(o.rt, -o.alpha, o.qt) && c.beta == Quotient(c.rho, o.rho)
      && c.p == P.S.axpy(c.z, c.beta, o.p) && c.pt == P.S.axpy(c.zt, c.beta, o.pt)
  {
  }

  lemma Extend<V>(P: Problem<V>, x0: V, t: seq<Iteration<V>>, c: Iteration<V>)
    requires Run(P, x0, t) && c == Pending(P, x0, t) && Sound(P, c)
    ensures Run(P, x0, t + [c]) && Pending(P, x0, t + [c]) == Next(P, c)
  {
    hide First, Next, Sound;
    var s := t + [c];
    forall k: nat | k < |s| ensures Pass(P, x0, s, k) {
      if k < |t| {
        assert Pass(P, x0, t, k);
      }
    }
  }

  /** The convergence tests of a run so far all failed: the first with <=, the later ones with <. */
  ghost predicate Unconverged<V(!new)>(P: Problem<V>, x0: V, t: seq<Iteration<V>>, tol: real)
  {
    forall k: nat :: k < |t| ==>
      if k == 0 then P.Relative(t[k].r) > tol else P.Relative(t[k].r) >= tol
  }

  lemma EmptyRun<V(!new)>(P: Problem<V>, x0: V, tol: real)
    ensures Run(P, x0, []) && Unconverged(P, x0, [], tol)
  {
  }

  lemma StillUnconverged<V(!new)>(P: Problem<V>, x0: V, t: seq<Iteration<V>>, c: Iteration<V>, tol: real)
    requires Unconverged(P, x0, t, tol)
    requires if t == [] then P.Relative(c.r) > tol else P.Relative(c.r) >= tol
    ensures Unconverged(P, x0, t + [c], tol)
  {
    hide Problem.Relative;
  }

  /** No earlier x had passed the test. */
  lemma UnconvergedIs<V(!new)>(P: Problem<V>, x0: V, t: seq<Iteration<V>>, tol: real)
    requires Valid(P) && Run(P, x0, t)
    ensures Unconverged(P, x0, t, tol) <==>
      forall k: nat :: k < |t| ==>
        if k == 0 then P.Relative(P.Residual(t[k].x)) > tol else P.Relative(P.Residual(t[k].x)) >= tol
  {
    hide Valid, Run, Problem.Residual, Problem.Relative;
    forall k: nat | k < |t| ensures t[k].r == P.Residual(t[k].x) {
      PastResidual(P, x0, t, k);
    }
  }

  /** BiCG of iml/bicg.h; t is the record of its passes. */
  method Solve<V(!new)>(P: Problem<V>, x0: V, maxIter0: int, tol0: real)
    returns (exit: Exit, x: V, maxIter: int, tol: real, ghost t: seq<Iteration<V>>)
    requires Valid(P)
    ensures Run(P, x0, t) && x == Pending(P, x0, t).x && Unconverged(P, x0, t, tol0)
    ensures |t| == 0 || |t| <= maxIter0
    ensures exit == Code(0) ==>
      maxIter == |t| && tol == P.Relative(P.Residual(x)) && (if t == [] then tol <= tol0 else tol < tol0)
    ensures exit == Code(1) ==>
      |t| >= maxIter0 == maxIter && tol == P.Relative(P.Residual(x)) && (if t == [] then tol > tol0 else tol >= tol0)
    ensures exit == Code(2) ==>
      Pending(P, x0, t).rho == 0.0 && maxIter == |t| + 1 <= maxIter0 && tol == P.Relative(P.Residual(x))
    ensures exit == DivideByZero ==>
      var c := Pending(P, x0, t);
      c.rho != 0.0 && P.S.dot(c.pt, c.q) == 0.0 && |t| < maxIter0 && maxIter == maxIter0 && tol == tol0
    ensures exit == Code(2) || exit == DivideByZero ==>
      if t == [] then P.Relative(P.Residual(x)) > tol0 else P.Relative(P.Residual(x)) >= tol0
    ensures if exit.Code? then 0 <= exit.code <= 2 else exit == DivideByZero
  {
    var S := P.S;
    hide Valid, First, Next, Finish, Pending, Run, Unconverged, Quotient, Problem.NormB, Problem.Relative,
      Problem.Residual;
    x, maxIter, tol, t := x0, maxIter0, tol0, [];
    var normb := S.norm(P.b);
    var r := P.Residual(x);
    var rtilde := r;
    if normb == 0.0 {
      normb := 1.0;
    }
    PositiveDivisor(P);
    DivisorIs(P);
    RelativeIs(P, r);
    PendingPass(P, x0, t);
    EmptyRun(P, x0, tol);
    var resid := S.norm(r) / normb;
    if resid <= tol {
      return Code(0), x, 0, resid, t;
    }
    var rho2, p, ptilde := 0.0, r, r;
    var i := 1;
    while i <= maxIter
      invariant 1 <= i && (i <= maxIter + 1 || i == 1)
      invariant |t| == i - 1 && Run(P, x0, t) && Unconverged(P, x0, t, tol)
      invariant maxIter == maxIter0 && tol == tol0 && normb == P.NormB()
      invariant resid == P.Relative(r) && (if i == 1 then resid > tol else resid >= tol)
      invariant r == P.Residual(x)
      invariant var c := Pending(P, x0, t); x == c.x && r == c.r && rtilde == c.rt
      invariant i > 1 ==> var o := t[|t| - 1]; rho2 == o.rho && p == o.p && ptilde == o.pt
    {
      var z := P.M.solve(r);
      var ztilde := P.M.transSolve(rtilde);
      var rho1 := S.dot(z, rtilde);
      ghost var c := Pending(P, x0, t);
      PendingPass(P, x0, t);
      assert c.rho == rho1;
      if rho1 == 0.0 {
        RelativeIs(P, r);
        return Code(2), x, i, S.norm(r) / normb, t;
      }
      if i == 1 {
        p, ptilde := z, ztilde;
      } else {
        assert rho2 != 0.0 by { PassConsistent(P, x0, t, |t| - 1); }
        QuotientIs(rho1, rho2);
        var beta := rho1 / rho2;
        p, ptilde := S.axpy(z, beta, p), S.axpy(ztilde, beta, ptilde);
      }
      var q := P.A.mult(p);
      var qtilde := P.A.transMult(ptilde);
      var divisor := S.dot(ptilde, q);
      if divisor == 0.0 {
        return DivideByZero, x, maxIter, tol, t;
      }
      QuotientIs(rho1, divisor);
      var alpha := rho1 / divisor;
      x := S.axpy(x, alpha, p);
      r := S.axpy(r, -alpha, q);
      rtilde := S.axpy(rtilde, -alpha, qtilde);
      rho2 := rho1;
      Extend(P, x0, t, c);
      StillUnconverged(P, x0, t, c, tol);
      t := t + [c];
      PendingPass(P, x0, t);
      TrueResidual(P, x0, t);
      RelativeIs(P, r);
      resid := S.norm(r) / normb;
      if resid < tol {
        return Code(0), x, i, resid, t;
      }
      i := i + 1;
    }
    return Code(1), x, maxIter, resid, t;
  }
}
