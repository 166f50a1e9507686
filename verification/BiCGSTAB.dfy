/** iml/bicgstab.h: the stabilised biconjugate gradient method. */
module BiCGSTAB {
  import opened Reals
  import opened VectorSpaces
  import opened Systems

  /** One pass through the loop: x and r as the pass finds them, then everything it computes. */
  datatype Iteration<V> = Iteration(x: V, r: V, rho: real, beta: real, p: V, phat: V, v: V, alpha: real,
                                    s: V, shat: V, t: V, omega: real)

  /** rt is the shadow residual, fixed for the whole run. */
  function First<V>(P: Problem<V>, rt: V, x0: V): Iteration<V> {
    var r := P.Residual(x0);
    Finish(P, rt, x0, r, 0.0, r)
  }

  function Next<V>(P: Problem<V>, rt: V, o: Iteration<V>): Iteration<V> {
    var r := P.S.axpy(o.s, -o.omega, o.t);
    var beta := Quotient(P.S.dot(rt, r), o.rho) * Quotient(o.alpha, o.omega);
    Finish(P, rt, FullStep(P, o), r, beta, P.S.axpy(r, beta, P.S.axpy(o.p, -o.omega, o.v)))
  }

  function Finish<V>(P: Problem<V>, rt: V, x: V, r: V, beta: real, p: V): Iteration<V> {
    var rho, phat := P.S.dot(rt, r), P.M.solve(p);
    var v := P.A.mult(phat);
    var alpha := Quotient(rho, P.S.dot(rt, v));
    var s := P.S.axpy(r, -alpha, v);
    var shat := P.M.solve(s);
    var t := P.A.mult(shat);
    Iteration(x, r, rho, beta, p, phat, v, alpha, s, shat, t, Quotient(P.S.dot(t, s), P.S.dot(t, t)))
  }

  /** Where the full step of a pass takes x. */
  function FullStep<V>(P: Problem<V>, c: Iteration<V>): V {
    P.S.axpy(c.x, 1.0, P.S.axpy(P.S.Scale(c.alpha, c.phat), c.omega, c.shat))
  }

  /** Where the half step, without the stabilising part, takes it. */
  function HalfStep<V>(P: Problem<V>, c: Iteration<V>): V {
    P.S.axpy(c.x, c.alpha, c.phat)
  }

  /** The pass that follows the passes u. */
  function Pending<V>(P: Problem<V>, x0: V, u: seq<Iteration<V>>): Iteration<V> {
    var rt := P.Residual(x0);
    if u == [] then First(P, rt, x0) else Next(P, rt, u[|u| - 1])
  }

  /** What every pass computes the same way. */
  ghost predicate Consistent<V>(P: Problem<V>, rt: V, c: Iteration<V>) {
    && c.rho == P.S.dot(rt, c.r) && c.phat == P.M.solve(c.p) && c.v == P.A.mult(c.phat)
    && c.alpha == Quotient(c.rho, P.S.dot(rt, c.v)) && c.s == P.S.axpy(c.r, -c.alpha, c.v)
    && c.shat == P.M.solve(c.s) && c.t == P.A.mult(c.shat) && c.omega == Quotient(P.S.dot(c.t, c.s), P.S.dot(c.t, c.t))
  }

  /** How a pass continues the one before it. */
  ghost predicate Continues<V>(P: Problem<V>, o: Iteration<V>, c: Iteration<V>) {
    && c.x == FullStep(P, o) && c.r == P.S.axpy(o.s, -o.omega, o.t)
    && c.beta == Quotient(c.rho, o.rho) * Quotient(o.alpha, o.omega)
    && c.p == P.S.axpy(c.r, c.beta, P.S.axpy(o.p, -o.omega, o.v))
  }

  /** No division of the pass was by zero. */
  predicate Sound<V>(P: Problem<V>, rt: V, c: Iteration<V>) {
    c.rho != 0.0 && P.S.dot(rt, c.v) != 0.0 && P.S.dot(c.t, c.t) != 0.0
  }

  ghost predicate Follows<V>(P: Problem<V>, x0: V, u: seq<Iteration<V>>, k: nat)
    requires k < |u|
  {
    var rt := P.Residual(x0);
    u[k] == if k == 0 then First(P, rt, x0) else Next(P, rt, u[k - 1])
  }

  /** u follows the formulas of the loop from x0, whether or not one of them divides by zero. */
  ghost predicate Course<V>(P: Problem<V>, x0: V, u: seq<Iteration<V>>) {
    forall k: nat :: k < |u| ==> Follows(P, x0, u, k)
  }

  /** A pass that is followed by another has a nonzero omega. */
  ghost predicate Pass<V>(P: Problem<V>, x0: V, u: seq<Iteration<V>>, k: nat)
    requires k < |u|
  {
    Follows(P, x0, u, k) && Sound(P, P.Residual(x0), u[k]) && (k > 0 ==> u[k - 1].omega != 0.0)
  }

  /** u records consecutive full passes of the loop from x0, none of which divided by zero. */
  ghost predicate Run<V>(P: Problem<V>, x0: V, u: seq<Iteration<V>>) {
    forall k: nat :: k < |u| ==> Pass(P, x0, u, k)
  }

  lemma CourseAt<V>(P: Problem<V>, x0: V, u: seq<Iteration<V>>, k: nat)
    requires Course(P, x0, u) && k < |u|
    ensures Consistent(P, P.Residual(x0), u[k])
    ensures k == 0 ==> var c, r := u[k], P.Residual(x0); c.x == x0 && c.r == r && c.p == r && c.beta == 0.0
    ensures k > 0 ==> Continues(P, u[k - 1], u[k])
  {
    assert Follows(P, x0, u, k);
  }

  /** A run is a course in which every pass is sound and every omega but the last is nonzero. */
  lemma RunIsCourse<V>(P: Problem<V>, x0: V, u: seq<Iteration<V>>)
    ensures Run(P, x0, u) <==>
      && Course(P, x0, u) && (forall k :: 0 <= k < |u| ==> Sound(P, P.Residual(x0), u[k]))
      && (forall k :: 0 <= k < |u| - 1 ==> u[k].omega != 0.0)
  {
    hide Follows, Sound, Problem.Residual;
    if Run(P, x0, u) {
      forall k: nat | k < |u|
        ensures Follows(P, x0, u, k) && Sound(P, P.Residual(x0), u[k]) && (k + 1 < |u| ==> u[k].omega != 0.0)
      {
        assert Pass(P, x0, u, k);
        if k + 1 < |u| {
          assert Pass(P, x0, u, k + 1);
        }
      }
    }
    if Course(P, x0, u) && (forall k :: 0 <= k < |u| ==> Sound(P, P.Residual(x0), u[k]))
      && (forall k :: 0 <= k < |u| - 1 ==> u[k].omega != 0.0)
    {
      forall k: nat | k < |u| ensures Pass(P, x0, u, k) {
        assert Follows(P, x0, u, k);
      }
    }
  }

  /** The first n passes. */
  function Passes<V>(P: Problem<V>, x0: V, n: nat): (u: seq<Iteration<V>>)
    ensures |u| == n
  {
    if n == 0 then [] else
      var u := Passes(P, x0, n - 1);
      u + [Pending(P, x0, u)]
  }

  lemma {:induction false} PassesAreCourse<V>(P: Problem<V>, x0: V, n: nat)
    ensures Course(P, x0, Passes(P, x0, n))
  {
    hide First, Next, Problem.Residual;
    if n > 0 {
      var t, u := Passes(P, x0, n - 1), Passes(P, x0, n);
      PassesAreCourse(P, x0, n - 1);
      forall k: nat | k < n ensures Follows(P, x0, u, k) {
        if k < n - 1 {
          assert Follows(P, x0, t, k);
        }
      }
    }
  }

  lemma PassAt<V>(P: Problem<V>, x0: V, u: seq<Iteration<V>>, k: nat)
    requires Run(P, x0, u) && k < |u|
    ensures Consistent(P, P.Residual(x0), u[k]) && Sound(P, P.Residual(x0), u[k])
    ensures k == 0 ==> var c, r := u[k], P.Residual(x0); c.x == x0 && c.r == r && c.p == r
    ensures k > 0 ==> Continues(P, u[k - 1], u[k]) && u[k - 1].omega != 0.0
  {
    assert Pass(P, x0, u, k);
  }

  lemma PendingPass<V>(P: Problem<V>, x0: V, u: seq<Iteration<V>>)
    ensures Consistent(P, P.Residual(x0), Pending(P, x0, u))
    ensures u == [] ==> var c, r := Pending(P, x0, u), P.Residual(x0); c.x == x0 && c.r == r && c.p == r
    ensures u != [] ==> Continues(P, u[|u| - 1], Pending(P, x0, u))
  {
  }

  lemma Prefix<V>(P: Problem<V>, x0: V, u: seq<Iteration<V>>)
    requires Run(P, x0, u) && u != []
    ensures Run(P, x0, u[..|u| - 1])
    ensures u[|u| - 1] == Pending(P, x0, u[..|u| - 1])
  {
    hide First, Next, Sound, Problem.Residual;
    var s := u[..|u| - 1];
    forall k: nat | k < |s| ensures Pass(P, x0, s, k) {
      assert Pass(P, x0, u, k);
    }
    assert Pass(P, x0, u, |u| - 1);
  }

  lemma Extend<V>(P: Problem<V>, x0: V, u: seq<Iteration<V>>, c: Iteration<V>)
    requires Run(P, x0, u) && c == Pending(P, x0, u) && Sound(P, P.Residual(x0), c)
    requires u != [] ==> u[|u| - 1].omega != 0.0
    ensures Run(P, x0, u + [c])
  {
    hide First, Next, Sound, Problem.Residual;
    var s := u + [c];
    forall k: nat | k < |s| ensures Pass(P, x0, s, k) {
      if k < |u| {
        assert Pass(P, x0, u, k);
      }
    }
  }

  /** The residual of both steps of a pass, given that the pass starts from the true residual. */
  lemma StepResiduals<V(!new)>(P: Problem<V>, rt: V, c: Iteration<V>)
    requires Valid(P) && Consistent(P, rt, c) && c.r == P.Residual(c.x)
    ensures P.Residual(HalfStep(P, c)) == c.s
    ensures P.Residual(FullStep(P, c)) == P.S.axpy(c.s, -c.omega, c.t)
  {
    hide InnerProduct, Linear, Quotient, Problem.Residual;
    ResidualMoves(P, c.x, c.alpha, c.phat);
    ResidualMoves(P, HalfStep(P, c), c.omega, c.shat);
    TwoSteps(P.S, c.x, c.alpha, c.phat, c.omega, c.shat);
  }

  lemma TwoSteps<V(!new)>(S: Space<V>, x: V, a: real, p: V, w: real, s: V)
    requires InnerProduct(S)
    ensures S.axpy(x, 1.0, S.axpy(S.Scale(a, p), w, s)) == S.axpy(S.axpy(x, a, p), w, s)
  {
    hide InnerProduct, Space.Scale;
    var l, r := S.axpy(x, 1.0, S.axpy(S.Scale(a, p), w, s)), S.axpy(S.axpy(x, a, p), w, s);
    forall y ensures S.dot(l, y) == S.dot(r, y) {
      Expand(S, x, 1.0, S.axpy(S.Scale(a, p), w, s), y);
      Expand(S, S.Scale(a, p), w, s, y);
      ExpandScale(S, a, p, y);
      Expand(S, S.axpy(x, a, p), w, s, y);
      Expand(S, x, a, p, y);
    }
    Same(S, l, r);
  }

  /** The recurrence residual is the true residual. */
  lemma {:induction false} TrueResidual<V(!new)>(P: Problem<V>, x0: V, u: seq<Iteration<V>>)
    requires Valid(P) && Run(P, x0, u)
    ensures Pending(P, x0, u).r == P.Residual(Pending(P, x0, u).x)
    decreases |u|
  {
    hide InnerProduct, Linear, Quotient, First, Next, Pending, Run, FullStep, Problem.Residual;
    PendingPass(P, x0, u);
    if u != [] {
      var o := u[|u| - 1];
      Prefix(P, x0, u);
      TrueResidual(P, x0, u[..|u| - 1]);
      PassAt(P, x0, u, |u| - 1);
      StepResiduals(P, P.Residual(x0), o);
    }
  }

  /** The stabilising step leaves a residual orthogonal to t, the shortest on its line. */
  lemma Stabilises<V(!new)>(S: Space<V>, s: V, t: V, omega: real, w: real)
    requires InnerProduct(S) && S.dot(t, t) != 0.0 && omega == Quotient(S.dot(t, s), S.dot(t, t))
    ensures var r := S.axpy(s, -omega, t);
      && S.dot(r, t) == 0.0
      && S.norm(r) <= S.norm(S.axpy(s, -w, t))
      && S.norm(r) <= S.norm(s) && (S.norm(r) == S.norm(s) <==> omega == 0.0)
  {
    hide InnerProduct, Quotient;
    QuotientIs(S.dot(t, s), S.dot(t, t));
    var r, y, d := S.axpy(s, -omega, t), S.axpy(s, -w, t), S.dot(t, t);
    assert omega * d == S.dot(t, s);
    Symmetric(S, s, t);
    Expand(S, s, -omega, t, t);
    Longer(S, s, t, omega, -w);
    Longer(S, s, t, omega, 0.0);
    AddNothing(S, s, 0.0, t);
    SmallerNorm(S, r, y);
    SmallerNorm(S, r, s);
    if omega == 0.0 {
      AddNothing(S, s, -omega, t);
    }
  }

  /** Every other step w leaves more. */
  lemma Longer<V(!new)>(S: Space<V>, s: V, t: V, omega: real, w: real)
    requires InnerProduct(S) && omega * S.dot(t, t) == S.dot(t, s) && S.dot(t, t) != 0.0
    ensures var r, y := S.axpy(s, -omega, t), S.axpy(s, w, t);
      S.dot(r, r) <= S.dot(y, y) && (omega + w != 0.0 ==> S.dot(r, r) < S.dot(y, y))
  {
    hide InnerProduct, Sqr;
    var e, d := omega + w, S.dot(t, t);
    Square(S, t);
    Lengths(S, s, t, omega, w);
    PositiveProduct(d, Sqr(e));
  }

  /** How far the residual of any other step w lies above. */
  lemma Lengths<V(!new)>(S: Space<V>, s: V, t: V, omega: real, w: real)
    requires InnerProduct(S) && omega * S.dot(t, t) == S.dot(t, s)
    ensures var r, y, e := S.axpy(s, -omega, t), S.axpy(s, w, t), omega + w;
      S.dot(y, y) == S.dot(r, r) + S.dot(t, t) * Sqr(e)
  {
    hide InnerProduct;
    var r, y, d, e, ss := S.axpy(s, -omega, t), S.axpy(s, w, t), S.dot(t, t), omega + w, S.dot(s, s);
    Symmetric(S, s, t);
    Expand(S, s, w, t, y);
    Expand(S, s, w, t, s);
    Expand(S, s, w, t, t);
    Expand(S, s, -omega, t, r);
    Expand(S, s, -omega, t, s);
    Expand(S, s, -omega, t, t);
    assert S.dot(y, y) == ss + 2.0 * (w * (omega * d)) + w * w * d;
    assert S.dot(r, r) == ss - 2.0 * (omega * (omega * d)) + omega * omega * d;
    assert d * (e * e) == omega * omega * d + 2.0 * (w * (omega * d)) + w * w * d;
  }

  // The method

  /** The convergence tests of the passes so far all failed, at their heads and after their half steps. */
  /** The same for the passes recorded. */
  lemma {:induction false} PastResidual<V(!new)>(P: Problem<V>, x0: V, u: seq<Iteration<V>>, k: nat)
    requires Valid(P) && Run(P, x0, u) && k < |u|
    ensures u[k].r == P.Residual(u[k].x)
    decreases |u|
  {
    hide Valid, Run, Pending, Problem.Residual;
    Prefix(P, x0, u);
    if k == |u| - 1 {
      TrueResidual(P, x0, u[..k]);
    } else {
      PastResidual(P, x0, u[..|u| - 1], k);
    }
  }

  ghost predicate Unconverged<V(!new)>(P: Problem<V>, u: seq<Iteration<V>>, tol: real) {
    forall k: nat :: k < |u| ==>
      && (if k == 0 then P.Relative(u[k].r) > tol else P.Relative(u[k].r) >= tol)
      && P.Relative(u[k].s) >= tol
  }

  lemma StillUnconverged<V(!new)>(P: Problem<V>, u: seq<Iteration<V>>, c: Iteration<V>, tol: real)
    requires Unconverged(P, u, tol) && P.Relative(c.s) >= tol
    requires if u == [] then P.Relative(c.r) > tol else P.Relative(c.r) >= tol
    ensures Unconverged(P, u + [c], tol)
  {
    hide Problem.Relative;
  }

  lemma EmptyRun<V(!new)>(P: Problem<V>, x0: V, tol: real)
    ensures Run(P, x0, []) && Unconverged(P, [], tol)
  {
  }

  /** A full step that passes the test after a failed half step had a nonzero omega. */
  lemma ConvergedMoved<V(!new)>(P: Problem<V>, rt: V, o: Iteration<V>)
    requires Valid(P) && Consistent(P, rt, o) && Sound(P, rt, o)
    requires P.Relative(P.S.axpy(o.s, -o.omega, o.t)) < P.Relative(o.s)
    ensures o.omega != 0.0
  {
    hide InnerProduct, Quotient;
    Stabilises(P.S, o.s, o.t, o.omega, 0.0);
  }

  /** No x had passed a test, after a half step or a full one. */
  lemma UnconvergedIs<V(!new)>(P: Problem<V>, x0: V, u: seq<Iteration<V>>, tol: real)
    requires Valid(P) && Run(P, x0, u)
    ensures Unconverged(P, u, tol) <==>
      forall k: nat :: k < |u| ==>
        && (if k == 0 then P.Relative(P.Residual(u[k].x)) > tol else P.Relative(P.Residual(u[k].x)) >= tol)
        && P.Relative(P.Residual(HalfStep(P, u[k]))) >= tol
  {
    hide Valid, Run, Problem.Residual, Problem.Relative, HalfStep, Consistent;
    forall k: nat | k < |u| ensures u[k].r == P.Residual(u[k].x) && u[k].s == P.Residual(HalfStep(P, u[k])) {
      PastResidual(P, x0, u, k);
      PassAt(P, x0, u, k);
      StepResiduals(P, P.Residual(x0), u[k]);
    }
  }

  /** Lines 51-60: the new direction p and the half-step residual s, unless the divisor of alpha is zero. */
  method FirstHalf<V>(P: Problem<V>, ghost x0: V, ghost u: seq<Iteration<V>>, first: bool, rtilde: V, r: V, rho1: real,
        rho2: real, alpha0: real, omega0: real, p0: V, v0: V)
    returns (ok: bool, p: V, phat: V, v: V, alpha: real, s: V)
    requires var c := Pending(P, x0, u); rtilde == P.Residual(x0) && r == c.r && rho1 == c.rho
    requires first <==> u == []
    requires !first ==> var o := u[|u| - 1];
      rho2 == o.rho != 0.0 && alpha0 == o.alpha && omega0 == o.omega != 0.0 && p0 == o.p && v0 == o.v
    ensures var c := Pending(P, x0, u);
      && p == c.p && phat == c.phat && v == c.v && (ok <==> P.S.dot(P.Residual(x0), c.v) != 0.0)
      && (ok ==> alpha == c.alpha && s == c.s)
  {
    hide First, Next, Finish, Pending, Quotient, FullStep, Problem.Residual;
    PendingPass(P, x0, u);
    if first {
      p := r;
    } else {
      QuotientIs(rho1, rho2);
      QuotientIs(alpha0, omega0);
      var beta := (rho1 / rho2) * (alpha0 / omega0);
      assert beta == Pending(P, x0, u).beta;
      p := P.S.axpy(r, beta, P.S.axpy(p0, -omega0, v0));
    }
    phat := P.M.solve(p);
    v := P.A.mult(phat);
    var divisor := P.S.dot(rtilde, v);
    ok, alpha, s := divisor != 0.0, 0.0, r;
    if ok {
      QuotientIs(rho1, divisor);
      alpha := rho1 / divisor;
      s := P.S.axpy(r, -alpha, v);
    }
  }

  /** Lines 66-70: the stabilising step, unless the divisor of omega is zero. */
  method SecondHalf<V(!new)>(P: Problem<V>, ghost rt: V, ghost c: Iteration<V>, x0: V, phat: V, alpha: real, s: V)
    returns (ok: bool, x: V, omega: real, r: V)
    requires Valid(P) && Consistent(P, rt, c) && c.r == P.Residual(c.x)
    requires x0 == c.x && phat == c.phat && alpha == c.alpha && s == c.s
    ensures ok <==> P.S.dot(c.t, c.t) != 0.0
    ensures ok ==> x == FullStep(P, c) && omega == c.omega && r == P.S.axpy(c.s, -c.omega, c.t) == P.Residual(x)
    ensures !ok ==> x == x0
  {
    hide Valid, Quotient, Problem.Residual;
    var shat := P.M.solve(s);
    var t := P.A.mult(shat);
    var divisor := P.S.dot(t, t);
    ok, x, omega, r := divisor != 0.0, x0, 0.0, s;
    if ok {
      QuotientIs(P.S.dot(t, s), divisor);
      omega := P.S.dot(t, s) / divisor;
      x := P.S.axpy(x, 1.0, P.S.axpy(P.S.Scale(alpha, phat), omega, shat));
      r := P.S.axpy(s, -omega, t);
      StepResiduals(P, rt, c);
    }
  }

  /** What the head of the loop finds. */
  lemma Head<V(!new)>(P: Problem<V>, x0: V, u: seq<Iteration<V>>)
    requires Valid(P) && Run(P, x0, u)
    ensures var c := Pending(P, x0, u);
      && c.rho == P.S.dot(P.Residual(x0), c.r) && Consistent(P, P.Residual(x0), c) && c.r == P.Residual(c.x)
      && P.Residual(HalfStep(P, c)) == c.s
    ensures u == [] ==> Pending(P, x0, u).x == x0
    ensures u != [] ==>
      var o := u[|u| - 1];
      Pending(P, x0, u).x == FullStep(P, o) && Pending(P, x0, u).r == P.S.axpy(o.s, -o.omega, o.t)
  {
    hide Valid, Run, Quotient, Problem.Residual, FullStep, HalfStep, Pending, First, Next;
    PendingPass(P, x0, u);
    TrueResidual(P, x0, u);
    StepResiduals(P, P.Residual(x0), Pending(P, x0, u));
  }

  /** BiCGSTAB of iml/bicgstab.h; u is the record of its full passes, half tells a return after a half step. */
  method Solve<V(!new)>(P: Problem<V>, x0: V, maxIter0: int, tol0: real)
    returns (exit: Exit, x: V, maxIter: int, tol: real, ghost u: seq<Iteration<V>>, ghost half: bool)
    requires Valid(P)
    ensures Run(P, x0, u) && Unconverged(P, u, tol0) && (u == [] || |u| <= maxIter0)
    ensures x == if half then HalfStep(P, Pending(P, x0, u)) else Pending(P, x0, u).x
    ensures exit.Code? ==> tol == P.Relative(P.Residual(x))
    ensures half ==> exit == Code(0) && maxIter == maxIter0 > |u| && tol < tol0
    ensures half ==> var c := Pending(P, x0, u); c.rho != 0.0 && P.S.dot(P.Residual(x0), c.v) != 0.0
    ensures half || exit == Code(2) || exit == DivideByZero ==>
      var r := P.Residual(Pending(P, x0, u).x);
      if u == [] then P.Relative(r) > tol0 else P.Relative(r) >= tol0
    ensures exit == Code(0) && !half ==> maxIter == |u| && (if u == [] then tol <= tol0 else tol < tol0)
    ensures exit == Code(0) ==>
      (maxIter == (if half then |u| + 1 else |u|) <==> !half || maxIter0 == |u| + 1)
    ensures exit == Code(1) ==> |u| >= maxIter0 == maxIter && (if u == [] then tol > tol0 else tol >= tol0)
    ensures exit == Code(2) ==> Pending(P, x0, u).rho == 0.0 && |u| < maxIter0 == maxIter
    ensures exit == Code(3) <==> u != [] && u[|u| - 1].omega == 0.0
    ensures exit == Code(3) ==> maxIter == maxIter0 && tol >= tol0
    ensures exit == DivideByZero ==>
      var c := Pending(P, x0, u);
      c.rho != 0.0 && |u| < maxIter0 == maxIter && tol == tol0 &&
      (P.S.dot(P.Residual(x0), c.v) == 0.0 || (P.S.dot(c.t, c.t) == 0.0 && P.Relative(c.s) >= tol0))
    ensures if exit.Code? then 0 <= exit.code <= 3 else exit == DivideByZero
  {
    hide Valid, First, Next, Finish, Pending, Run, Unconverged, Consistent, FullStep, Problem.Residual,
      Problem.Relative, Problem.NormB;
    var S := P.S;
    x, maxIter, tol, u, half := x0, maxIter0, tol0, [], false;
    var normb := S.norm(P.b);
    var r := P.Residual(x);
    var rtilde := r;
    if normb == 0.0 {
      normb := 1.0;
    }
    DivisorIs(P);
    RelativeIs(P, r);
    EmptyRun(P, x0, tol);
    Head(P, x0, u);
    var resid := S.norm(r) / normb;
    if resid <= tol {
      return Code(0), x, 0, resid, u, half;
    }
    var rho2, alpha, omega, p, v := 0.0, 0.0, 0.0, r, r;
    var i := 1;
    while i <= maxIter
      invariant 1 <= i && (i <= maxIter + 1 || i == 1)
      invariant |u| == i - 1 && Run(P, x0, u) && Unconverged(P, u, tol) && !half
      invariant maxIter == maxIter0 && tol == tol0 && normb == P.NormB()
      invariant resid == P.Relative(r) && (if i == 1 then resid > tol else resid >= tol)
      invariant var c := Pending(P, x0, u); x == c.x && r == c.r == P.Residual(x)
      invariant i > 1 ==> var o := u[|u| - 1];
        rho2 == o.rho != 0.0 && alpha == o.alpha && omega == o.omega != 0.0 && p == o.p && v == o.v
    {
      ghost var c := Pending(P, x0, u);
      Head(P, x0, u);
      var rho1 := S.dot(rtilde, r);
      if rho1 == 0.0 {
        RelativeIs(P, r);
        return Code(2), x, maxIter, S.norm(r) / normb, u, half;
      }
      var ok, phat, s;
      ok, p, phat, v, alpha, s := FirstHalf(P, x0, u, i == 1, rtilde, r, rho1, rho2, alpha, omega, p, v);
      if !ok {
        return DivideByZero, x, maxIter, tol, u, half;
      }
      RelativeIs(P, s);
      resid := S.norm(s) / normb;
      if resid < tol {
        half := true;
        x := S.axpy(x, alpha, phat);
        return Code(0), x, maxIter, resid, u, half;
      }
      ok, x, omega, r := SecondHalf(P, rtilde, c, x, phat, alpha, s);
      if !ok {
        return DivideByZero, x, maxIter, tol, u, half;
      }
      rho2 := rho1;
      Extend(P, x0, u, c);
      StillUnconverged(P, u, c, tol);
      u := u + [c];
      Head(P, x0, u);
      RelativeIs(P, r);
      resid := S.norm(r) / normb;
      if resid < tol {
        ConvergedMoved(P, rtilde, c);
        return Code(0), x, i, resid, u, half;
      }
      if omega == 0.0 {
        return Code(3), x, maxIter, S.norm(r) / normb, u, half;
      }
      i := i + 1;
    }
    return Code(1), x, maxIter, resid, u, half;
  }
}
