/** iml/qmr.h: the quasi-minimal residual method with two preconditioners. */
module QMR {
  import opened Reals
  import opened VectorSpaces
  import opened Systems
  import Combinations
  import Lanczos

  /** The system with its second preconditioner M2; P.M is the first. */
  datatype Setting<!V> = Setting(P: Problem<V>, M2: Preconditioner<V>, sqrt: real -> real)

  ghost predicate Ready<V(!new)>(Q: Setting<V>) {
    Valid(Q.P) && IsRoot(Q.sqrt)
  }

  /** What a pass finds: iterate, residual, the two unscaled Lanczos vectors and the scalars. */
  datatype Head<V> = Head(x: V, r: V, vt: V, y: V, rho: real, wt: V, z: V, xi: real, gamma: real, eta: real,
      theta: real)

  /** What a pass computes up to its last breakdown test. */
  datatype Body<V> = Body(v: V, y: V, w: V, z: V, delta: real, p: V, q: V, pt: V, ep: real, beta: real, fp: real,
      fq: real)

  /** A pass: its head, its body, the head it leaves, and the update vectors d, s with their weight f. */
  datatype Iteration<V> = Iteration(h: Head<V>, c: Body<V>, n: Head<V>, f: real, d: V, s: V)

  function FirstHead<V>(Q: Setting<V>, x0: V): Head<V> {
    var P := Q.P;
    var r := P.Residual(x0);
    var y, z := P.M.solve(r), Q.M2.transSolve(r);
    Head(x0, r, r, y, P.S.norm(y), r, z, P.S.norm(z), 1.0, -1.0, 0.0)
  }

  // The scalars

  function Coefficient(scale: real, delta: real, ep: real): real {
    Quotient(scale * delta, ep)
  }

  function Theta(rho: real, gamma1: real, beta: real): real {
    Quotient(rho, gamma1 * beta)
  }

  function Gamma(sqrt: real -> real, theta: real): real {
    Quotient(1.0, sqrt(1.0 + Sqr(theta)))
  }

  function Eta(eta: real, rho1: real, gamma: real, beta: real, gamma1: real): real {
    Quotient(-eta * rho1 * Sqr(gamma), beta * Sqr(gamma1))
  }

  function Weight(theta1: real, gamma: real): real {
    Sqr(theta1) * Sqr(gamma)
  }

  /** The pass before, if any. */
  datatype Option<T> = None | Some(value: T)

  function Last<V>(t: seq<Iteration<V>>): Option<Iteration<V>> {
    if t == [] then None else Some(t[|t| - 1])
  }

  /** Lines 82-108. */
  function Compute<V>(Q: Setting<V>, h: Head<V>, o: Option<Iteration<V>>): Body<V> {
    var S, P := Q.P.S, Q.P;
    var v, y := S.Scale(Quotient(1.0, h.rho), h.vt), S.Scale(Quotient(1.0, h.rho), h.y);
    var w, z := S.Scale(Quotient(1.0, h.xi), h.wt), S.Scale(Quotient(1.0, h.xi), h.z);
    var delta := S.dot(z, y);
    var yt, zt := Q.M2.solve(y), P.M.transSolve(z);
    var fp := if o.None? then 0.0 else Coefficient(h.xi, delta, o.value.c.ep);
    var fq := if o.None? then 0.0 else Coefficient(h.rho, delta, o.value.c.ep);
    var p := if o.None? then yt else S.axpy(yt, -fp, o.value.c.p);
    var q := if o.None? then zt else S.axpy(zt, -fq, o.value.c.q);
    var pt := P.A.mult(p);
    var ep := S.dot(q, pt);
    Body(v, y, w, z, delta, p, q, pt, ep, Quotient(ep, delta), fp, fq)
  }

  /** Lines 112-143. */
  function Carry<V>(Q: Setting<V>, h: Head<V>, c: Body<V>, o: Option<Iteration<V>>): Iteration<V> {
    var S, P := Q.P.S, Q.P;
    var vt, wt := S.axpy(c.pt, -c.beta, c.v), S.axpy(P.A.transMult(c.q), -c.beta, c.w);
    var y, z := P.M.solve(vt), Q.M2.transSolve(wt);
    var rho, xi := S.norm(y), S.norm(z);
    var theta := Theta(rho, h.gamma, c.beta);
    var gamma := Gamma(Q.sqrt, theta);
    var eta, f := Eta(h.eta, h.rho, gamma, c.beta, h.gamma), Weight(h.theta, gamma);
    var d := if o.None? then S.Scale(eta, c.p) else S.axpy(S.Scale(eta, c.p), f, o.value.d);
    var s := if o.None? then S.Scale(eta, c.pt) else S.axpy(S.Scale(eta, c.pt), f, o.value.s);
    Iteration(h, c, Head(S.axpy(h.x, 1.0, d), S.axpy(h.r, -1.0, s), vt, y, rho, wt, z, xi, gamma, eta, theta), f, d, s)
  }

  /** The head of the pass that follows the passes t. */
  function PendingHead<V>(Q: Setting<V>, x0: V, t: seq<Iteration<V>>): Head<V> {
    if t == [] then FirstHead(Q, x0) else t[|t| - 1].n
  }

  function PendingBody<V>(Q: Setting<V>, x0: V, t: seq<Iteration<V>>): Body<V> {
    Compute(Q, PendingHead(Q, x0, t), Last(t))
  }

  function Pending<V>(Q: Setting<V>, x0: V, t: seq<Iteration<V>>): Iteration<V> {
    Carry(Q, PendingHead(Q, x0, t), PendingBody(Q, x0, t), Last(t))
  }

  /** The pass got through its breakdown tests. */
  predicate Sound<V>(i: Iteration<V>) {
    i.h.rho != 0.0 && i.h.xi != 0.0 && i.c.delta != 0.0 && i.c.ep != 0.0
  }

  ghost predicate Pass<V>(Q: Setting<V>, x0: V, t: seq<Iteration<V>>, k: nat)
    requires k < |t|
  {
    t[k] == Pending(Q, x0, t[..k]) && Sound(t[k])
  }

  /** t records consecutive passes of the loop from x0, none of which broke down. */
  ghost predicate Run<V>(Q: Setting<V>, x0: V, t: seq<Iteration<V>>) {
    forall k: nat :: k < |t| ==> Pass(Q, x0, t, k)
  }

  lemma Extend<V>(Q: Setting<V>, x0: V, t: seq<Iteration<V>>, i: Iteration<V>)
    requires Run(Q, x0, t) && i == Pending(Q, x0, t) && Sound(i)
    ensures Run(Q, x0, t + [i])
  {
    hide Pending, Sound;
    var u := t + [i];
    forall k: nat | k < |u| ensures Pass(Q, x0, u, k) {
      if k < |t| {
        assert Pass(Q, x0, t, k);
        assert u[..k] == t[..k];
      } else {
        assert u[..k] == t;
      }
    }
  }

  lemma Prefix<V>(Q: Setting<V>, x0: V, t: seq<Iteration<V>>, k: nat)
    requires Run(Q, x0, t) && k < |t|
    ensures Run(Q, x0, t[..k]) && t[k] == Pending(Q, x0, t[..k]) && Sound(t[k])
  {
    hide Pending, Sound;
    var u := t[..k];
    assert Pass(Q, x0, t, k);
    forall j: nat | j < k ensures Pass(Q, x0, u, j) {
      assert Pass(Q, x0, t, j);
      assert u[..j] == t[..j];
    }
  }

  // The formulas, one by one

  ghost predicate Computed<V>(Q: Setting<V>, h: Head<V>, c: Body<V>) {
    var S := Q.P.S;
    && c.v == S.Scale(Quotient(1.0, h.rho), h.vt) && c.y == S.Scale(Quotient(1.0, h.rho), h.y)
    && c.w == S.Scale(Quotient(1.0, h.xi), h.wt) && c.z == S.Scale(Quotient(1.0, h.xi), h.z)
    && c.delta == S.dot(c.z, c.y) && c.pt == Q.P.A.mult(c.p) && c.ep == S.dot(c.q, c.pt)
    && c.beta == Quotient(c.ep, c.delta)
  }

  ghost predicate Directed<V>(Q: Setting<V>, h: Head<V>, c: Body<V>, first: bool, o: Body<V>) {
    var S, yt, zt := Q.P.S, Q.M2.solve(c.y), Q.P.M.transSolve(c.z);
    if first then c.p == yt && c.q == zt
    else
      && c.fp == Coefficient(h.xi, c.delta, o.ep) && c.fq == Coefficient(h.rho, c.delta, o.ep)
      && c.p == S.axpy(yt, -c.fp, o.p) && c.q == S.axpy(zt, -c.fq, o.q)
  }

  ghost predicate Updated<V>(Q: Setting<V>, i: Iteration<V>, first: bool, d: V, s: V) {
    var S, h, c, n := Q.P.S, i.h, i.c, i.n;
    && n.x == S.axpy(h.x, 1.0, i.d) && n.r == S.axpy(h.r, -1.0, i.s)
    && i.d == (if first then S.Scale(n.eta, c.p) else S.axpy(S.Scale(n.eta, c.p), i.f, d))
    && i.s == (if first then S.Scale(n.eta, c.pt) else S.axpy(S.Scale(n.eta, c.pt), i.f, s))
    && n.vt == S.axpy(c.pt, -c.beta, c.v) && n.wt == S.axpy(Q.P.A.transMult(c.q), -c.beta, c.w)
    && n.y == Q.P.M.solve(n.vt) && n.z == Q.M2.transSolve(n.wt) && n.rho == S.norm(n.y) && n.xi == S.norm(n.z)
  }

  ghost predicate Weighted<V>(Q: Setting<V>, i: Iteration<V>) {
    var h, c, n := i.h, i.c, i.n;
    && n.theta == Theta(n.rho, h.gamma, c.beta) && n.gamma == Gamma(Q.sqrt, n.theta)
    && n.eta == Eta(h.eta, h.rho, n.gamma, c.beta, h.gamma) && i.f == Weight(h.theta, n.gamma)
  }

  /** The head of the first pass. */
  ghost predicate Begins<V>(Q: Setting<V>, x0: V, h: Head<V>) {
    var r := Q.P.Residual(x0);
    && h.x == x0 && h.r == h.vt == h.wt == r && h.y == Q.P.M.solve(r) && h.z == Q.M2.transSolve(r)
    && h.rho == Q.P.S.norm(h.y) && h.xi == Q.P.S.norm(h.z) && h.gamma == 1.0 && h.eta == -1.0 && h.theta == 0.0
  }

  lemma PendingPass<V>(Q: Setting<V>, x0: V, t: seq<Iteration<V>>)
    ensures var i := Pending(Q, x0, t);
      && i.h == PendingHead(Q, x0, t) && i.c == PendingBody(Q, x0, t) && Computed(Q, i.h, i.c) && Weighted(Q, i)
    ensures t == [] ==>
      var i := Pending(Q, x0, t);
      Begins(Q, x0, i.h) && Directed(Q, i.h, i.c, true, i.c) && Updated(Q, i, true, i.d, i.s)
    ensures t != [] ==>
      var i, o := Pending(Q, x0, t), t[|t| - 1];
      i.h == o.n && Directed(Q, i.h, i.c, false, o.c) && Updated(Q, i, false, o.d, o.s)
  {
    hide Quotient, Coefficient, Theta, Gamma, Eta, Weight, Problem.Residual, Space.Scale;
  }

  // Divisions and residual

  /** What keeps every divisor of the scalars away from zero. */
  lemma Divisors<V(!new)>(Q: Setting<V>, i: Iteration<V>)
    requires IsRoot(Q.sqrt) && Weighted(Q, i) && i.c.delta != 0.0 && i.c.ep != 0.0
    requires i.c.beta == Quotient(i.c.ep, i.c.delta)
    requires i.h.gamma > 0.0
    ensures i.c.beta != 0.0 && i.h.gamma * i.c.beta != 0.0 && i.c.beta * Sqr(i.h.gamma) != 0.0
    ensures Q.sqrt(1.0 + Sqr(i.n.theta)) > 0.0
    ensures i.n.gamma > 0.0 && Sqr(i.n.gamma) * (1.0 + Sqr(i.n.theta)) == 1.0
  {
    hide IsRoot, Sqr, Weighted, Quotient;
    QuotientIs(i.c.ep, i.c.delta);
    NonzeroProduct(i.h.gamma, i.c.beta);
    NonzeroProduct(i.c.beta, Sqr(i.h.gamma));
    GammaIs(Q, i);
    GammaUnit(Q.sqrt, i.n.theta);
  }

  lemma GammaIs<V>(Q: Setting<V>, i: Iteration<V>)
    requires Weighted(Q, i)
    ensures i.n.gamma == Gamma(Q.sqrt, i.n.theta)
  {
  }

  lemma GammaUnit(sqrt: real -> real, theta: real)
    requires IsRoot(sqrt)
    ensures sqrt(1.0 + Sqr(theta)) > 0.0
    ensures var g := Gamma(sqrt, theta); g > 0.0 && Sqr(g) * (1.0 + Sqr(theta)) == 1.0
  {
    hide Sqr, Quotient;
    var y := 1.0 + Sqr(theta);
    var root := sqrt(y);
    assert root >= 0.0 && root * root == y;
    assert root != 0.0;
    QuotientIs(1.0, root);
    var g := 1.0 / root;
    assert g * root == 1.0;
    SqrIs(g);
    assert (g * g) * (root * root) == (g * root) * (g * root);
  }

  lemma SqrIs(x: real)
    ensures Sqr(x) == x * x
  {
  }

  /** What holds at every head. */
  ghost predicate Sane<V>(Q: Setting<V>, h: Head<V>) {
    && h.r == Q.P.Residual(h.x) && h.gamma > 0.0 && Sqr(h.gamma) * (1.0 + Sqr(h.theta)) == 1.0
    && h.y == Q.P.M.solve(h.vt) && h.z == Q.M2.transSolve(h.wt)
  }

  /** One pass keeps s = A d and the residual true. */
  lemma UpdateKeeps<V(!new)>(Q: Setting<V>, i: Iteration<V>, first: bool, d: V, s: V)
    requires Ready(Q) && i.h.r == Q.P.Residual(i.h.x) && i.c.pt == Q.P.A.mult(i.c.p) && (!first ==> s == Q.P.A.mult(d))
    requires Updated(Q, i, first, d, s)
    ensures i.s == Q.P.A.mult(i.d) && i.n.r == Q.P.Residual(i.n.x)
  {
    hide InnerProduct, Linear, IsRoot, Problem.Residual, Space.Scale;
    var S, A := Q.P.S, Q.P.A.mult;
    ScaleImage(S, A, i.n.eta, i.c.p);
    if !first {
      Distribute(S, A, S.Scale(i.n.eta, i.c.p), i.f, d);
    }
    ResidualMoves(Q.P, i.h.x, 1.0, i.d);
  }

  lemma SaneStart<V(!new)>(Q: Setting<V>, x0: V, h: Head<V>)
    requires Begins(Q, x0, h)
    ensures Sane(Q, h)
  {
  }

  lemma SaneStep<V(!new)>(Q: Setting<V>, i: Iteration<V>, first: bool, d: V, s: V)
    requires Ready(Q) && Sane(Q, i.h) && Sound(i) && Computed(Q, i.h, i.c) && Weighted(Q, i)
    requires Updated(Q, i, first, d, s)
    requires !first ==> s == Q.P.A.mult(d)
    ensures i.s == Q.P.A.mult(i.d) && Sane(Q, i.n)
  {
    hide Valid, IsRoot, Weighted, Quotient, Problem.Residual, Space.Scale;
    Divisors(Q, i);
    UpdateKeeps(Q, i, first, d, s);
  }

  /** s = A d and r = b - A x at every head. */
  lemma {:induction false} Invariants<V(!new)>(Q: Setting<V>, x0: V, t: seq<Iteration<V>>)
    requires Ready(Q) && Run(Q, x0, t)
    ensures Sane(Q, PendingHead(Q, x0, t))
    ensures t != [] ==> t[|t| - 1].s == Q.P.A.mult(t[|t| - 1].d)
    decreases |t|
  {
    hide Ready, Run, PendingBody, Pending, Computed, Weighted, Directed, Updated, Sane, Begins, Sound;
    if t == [] {
      PendingPass(Q, x0, t);
      SaneStart(Q, x0, PendingHead(Q, x0, t));
    } else {
      var k := |t| - 1;
      var u := t[..k];
      Prefix(Q, x0, t, k);
      Invariants(Q, x0, u);
      PendingPass(Q, x0, u);
      if u == [] {
        SaneStep(Q, t[k], true, t[k].d, t[k].s);
      } else {
        SaneStep(Q, t[k], false, u[k - 1].d, u[k - 1].s);
      }
    }
  }

  // Biorthogonality, by way of the two-sided Lanczos recurrence

  ghost predicate HasAdjoints<V(!new)>(Q: Setting<V>) {
    && Adjoint(Q.P.S, Q.P.A.mult, Q.P.A.transMult)
    && Adjoint(Q.P.S, Q.P.M.solve, Q.P.M.transSolve)
    && Adjoint(Q.P.S, Q.M2.solve, Q.M2.transSolve)
  }

  /** The whole preconditioner: M1, then M2. */
  function Both<V>(Q: Setting<V>): V -> V {
    (u: V) => Q.M2.solve(Q.P.M.solve(u))
  }

  function BothTransposed<V>(Q: Setting<V>): V -> V {
    (u: V) => Q.P.M.transSolve(Q.M2.transSolve(u))
  }

  function Operators<V>(Q: Setting<V>): Lanczos.Operators<V> {
    Lanczos.Operators(Q.P.A.mult, Q.P.A.transMult, Both(Q), BothTransposed(Q))
  }

  function Link<V>(i: Iteration<V>): Lanczos.Pair<V> {
    Lanczos.Pair(i.c.v, i.c.w, i.c.p, i.c.q, i.h.rho, i.h.xi, i.c.delta, i.c.ep, i.c.beta, i.c.fp, i.c.fq)
  }

  function Links<V>(t: seq<Iteration<V>>): (l: seq<Lanczos.Pair<V>>)
    ensures |l| == |t| && forall k :: 0 <= k < |t| ==> l[k] == Link(t[k])
  {
    if t == [] then [] else Links(t[..|t| - 1]) + [Link(t[|t| - 1])]
  }

  lemma BothIs<V>(Q: Setting<V>, u: V)
    ensures Both(Q)(u) == Q.M2.solve(Q.P.M.solve(u)) && BothTransposed(Q)(u) == Q.P.M.transSolve(Q.M2.transSolve(u))
  {
  }

  lemma BothAdjoint<V(!new)>(Q: Setting<V>)
    requires InnerProduct(Q.P.S) && HasAdjoints(Q)
    ensures Lanczos.Adjoints(Q.P.S, Operators(Q))
    ensures Linear(Q.P.S, Q.P.M.solve) && Linear(Q.P.S, Q.M2.transSolve)
  {
    hide InnerProduct, Adjoint, Linear, Both, BothTransposed;
    var S, M1, M2 := Q.P.S, Q.P.M, Q.M2;
    forall u ensures Both(Q)(u) == M2.solve(M1.solve(u)) && BothTransposed(Q)(u) == M1.transSolve(M2.transSolve(u)) {
      BothIs(Q, u);
    }
    Composed(S, M1.solve, M1.transSolve, M2.solve, M2.transSolve, Both(Q), BothTransposed(Q));
    Flip(S, M1.solve, M1.transSolve);
    AdjointLinear(S, M1.transSolve, M1.solve);
    AdjointLinear(S, M2.solve, M2.transSolve);
  }

  /** B after A is adjoint to At after Bt. */
  lemma Composed<V(!new)>(S: Space<V>, A: V -> V, At: V -> V, B: V -> V, Bt: V -> V, C: V -> V, Ct: V -> V)
    requires Adjoint(S, A, At) && Adjoint(S, B, Bt)
    requires forall u :: C(u) == B(A(u)) && Ct(u) == At(Bt(u))
    ensures Adjoint(S, C, Ct)
  {
    forall u, v ensures S.dot(C(u), v) == S.dot(u, Ct(v)) {
      hide Adjoint;
      Move(S, B, Bt, A(u), v);
      Move(S, A, At, u, Bt(v));
    }
  }

  /** The normalised vectors are the preconditioned normalised vectors. */
  lemma Preconditioned<V(!new)>(Q: Setting<V>, h: Head<V>, c: Body<V>)
    requires InnerProduct(Q.P.S) && Linear(Q.P.S, Q.P.M.solve) && Linear(Q.P.S, Q.M2.transSolve)
    requires Computed(Q, h, c) && Sane(Q, h)
    ensures c.y == Q.P.M.solve(c.v) && c.z == Q.M2.transSolve(c.w)
  {
    hide InnerProduct, Linear, Quotient, Space.Scale, Problem.Residual;
    ScaleImage(Q.P.S, Q.P.M.solve, Quotient(1.0, h.rho), h.vt);
    ScaleImage(Q.P.S, Q.M2.transSolve, Quotient(1.0, h.xi), h.wt);
  }

  lemma UnitLength<V(!new)>(S: Space<V>, y: V, n: real)
    requires InnerProduct(S) && n == S.norm(y) != 0.0
    ensures S.norm(S.Scale(Quotient(1.0, n), y)) == 1.0
  {
    hide InnerProduct, Space.Scale;
    var a := 1.0 / n;
    var u := S.Scale(a, y);
    Square(S, y);
    Square(S, u);
    ExpandScale(S, a, y, u);
    ExpandScale(S, a, y, y);
    assert a * n == 1.0;
    assert a * (a * (n * n)) == (a * n) * (a * n);
    SquareOrder(S.norm(u), 1.0);
  }

  lemma UpdatedNorms<V>(Q: Setting<V>, i: Iteration<V>, first: bool, d: V, s: V)
    requires Updated(Q, i, first, d, s)
    ensures HeadNorms(Q, i.n)
  {
  }

  /** What rho and xi measure. */
  ghost predicate HeadNorms<V>(Q: Setting<V>, h: Head<V>) {
    && h.y == Q.P.M.solve(h.vt) && h.rho == Q.P.S.norm(h.y)
    && h.z == Q.M2.transSolve(h.wt) && h.xi == Q.P.S.norm(h.z)
  }

  lemma PendingNorms<V>(Q: Setting<V>, x0: V, t: seq<Iteration<V>>)
    requires Run(Q, x0, t)
    ensures HeadNorms(Q, PendingHead(Q, x0, t))
  {
    hide Run, PendingBody, Pending, Weighted, Directed, Computed, Updated, Problem.Residual;
    if t != [] {
      var u, i := t[..|t| - 1], t[|t| - 1];
      Prefix(Q, x0, t, |t| - 1);
      PendingPass(Q, x0, u);
      if u == [] {
        UpdatedNorms(Q, i, true, i.d, i.s);
      } else {
        UpdatedNorms(Q, i, false, u[|u| - 1].d, u[|u| - 1].s);
      }
    }
  }

  /** The preconditioned vectors that the directions are made of have length 1, whatever the preconditioners are. */
  lemma UnitVectors<V(!new)>(Q: Setting<V>, x0: V, t: seq<Iteration<V>>, k: nat)
    requires InnerProduct(Q.P.S) && Run(Q, x0, t) && k < |t|
    ensures var S, h, c := Q.P.S, t[k].h, t[k].c;
      && h.rho == S.norm(Q.P.M.solve(h.vt)) && h.xi == S.norm(Q.M2.transSolve(h.wt))
      && S.norm(c.y) == 1.0 == S.norm(c.z)
  {
    hide InnerProduct, Run, PendingBody, Pending, PendingHead, Weighted, Directed, Updated, Begins, Space.Scale;
    var u := t[..k];
    Prefix(Q, x0, t, k);
    PendingNorms(Q, x0, u);
    PendingPass(Q, x0, u);
    UnitLength(Q.P.S, t[k].h.y, t[k].h.rho);
    UnitLength(Q.P.S, t[k].h.z, t[k].h.xi);
  }

  lemma Middle<V(!new)>(Q: Setting<V>)
    requires HasAdjoints(Q)
    ensures Adjoint(Q.P.S, Q.M2.solve, Q.M2.transSolve)
  {
  }

  lemma LinkScaled<V(!new)>(Q: Setting<V>, i: Iteration<V>)
    requires InnerProduct(Q.P.S) && HasAdjoints(Q) && Computed(Q, i.h, i.c) && Sane(Q, i.h) && Sound(i)
    ensures Lanczos.Scaled(Q.P.S, Operators(Q), Link(i))
    ensures i.c.y == Q.P.M.solve(i.c.v) && i.c.z == Q.M2.transSolve(i.c.w)
  {
    hide InnerProduct, Linear, HasAdjoints, Adjoint, Lanczos.Adjoints, Both, BothTransposed, Sane, Quotient,
      Space.Scale, Problem.Residual;
    var S, c := Q.P.S, i.c;
    BothAdjoint(Q);
    BothIs(Q, c.v);
    Middle(Q);
    Preconditioned(Q, i.h, c);
    Symmetric(S, c.z, c.y);
    Move(S, Q.M2.solve, Q.M2.transSolve, c.y, c.w);
    Symmetric(S, Q.M2.solve(c.y), c.w);
  }

  /** rho v is the vector v was scaled from. */
  lemma Unscaled<V(!new)>(S: Space<V>, rho: real, v: V, vt: V, t: V)
    requires InnerProduct(S) && rho != 0.0 && v == S.Scale(Quotient(1.0, rho), vt)
    ensures rho * S.dot(v, t) == S.dot(vt, t)
  {
    hide InnerProduct, Quotient, Space.Scale;
    var a := Quotient(1.0, rho);
    ExpandScale(S, a, vt, t);
    QuotientTimes(1.0, rho);
    assert rho * (a * S.dot(vt, t)) == (a * rho) * S.dot(vt, t);
  }

  /** rho v = A p - beta v of the pass before. */
  lemma Rescaled<V(!new)>(S: Space<V>, rho: real, v: V, vt: V, pt: V, beta: real, o: V)
    requires InnerProduct(S) && rho != 0.0 && v == S.Scale(Quotient(1.0, rho), vt) && vt == S.axpy(pt, -beta, o)
    ensures Combines(S, rho, v, 1.0, pt, -beta, o)
  {
    hide InnerProduct, Quotient, Space.Scale;
    forall t ensures rho * S.dot(v, t) == 1.0 * S.dot(pt, t) + -beta * S.dot(o, t) {
      Unscaled(S, rho, v, vt, t);
      Expand(S, pt, -beta, o, t);
    }
  }

  lemma Directions<V(!new)>(S: Space<V>, p: V, y: V, f: real, o: V)
    requires InnerProduct(S) && p == S.axpy(y, -f, o)
    ensures Combines(S, 1.0, p, 1.0, y, -f, o)
  {
    hide InnerProduct;
    forall t ensures 1.0 * S.dot(p, t) == 1.0 * S.dot(y, t) + -f * S.dot(o, t) {
      Expand(S, y, -f, o, t);
    }
  }

  lemma CoefficientIs(scale: real, delta: real, ep: real)
    requires ep != 0.0
    ensures Coefficient(scale, delta, ep) * ep == scale * delta
  {
  }

  lemma LinkCoupled<V(!new)>(Q: Setting<V>, o: Iteration<V>, i: Iteration<V>)
    requires InnerProduct(Q.P.S) && Sound(o) && Sound(i) && Computed(Q, i.h, i.c) && Directed(Q, i.h, i.c, false, o.c)
    requires o.c.beta == Quotient(o.c.ep, o.c.delta)
    requires i.h.vt == Q.P.S.axpy(Q.P.A.mult(o.c.p), -o.c.beta, o.c.v)
    requires i.h.wt == Q.P.S.axpy(Q.P.A.transMult(o.c.q), -o.c.beta, o.c.w)
    requires i.c.y == Q.P.M.solve(i.c.v) && i.c.z == Q.M2.transSolve(i.c.w)
    ensures Lanczos.Coupled(Q.P.S, Operators(Q), Link(o), Link(i))
  {
    hide InnerProduct, Combines, Quotient, Coefficient, Both, BothTransposed, Space.Scale, Problem.Residual;
    var S := Q.P.S;
    BothIs(Q, i.c.v);
    BothIs(Q, i.c.w);
    Rescaled(S, i.h.rho, i.c.v, i.h.vt, Q.P.A.mult(o.c.p), o.c.beta, o.c.v);
    Rescaled(S, i.h.xi, i.c.w, i.h.wt, Q.P.A.transMult(o.c.q), o.c.beta, o.c.w);
    Directions(S, i.c.p, Q.M2.solve(i.c.y), i.c.fp, o.c.p);
    Directions(S, i.c.q, Q.P.M.transSolve(i.c.z), i.c.fq, o.c.q);
    CoefficientIs(i.h.xi, i.c.delta, o.c.ep);
    CoefficientIs(i.h.rho, i.c.delta, o.c.ep);
    QuotientTimes(o.c.ep, o.c.delta);
  }

  /** What a recorded pass is. */
  lemma PassAt<V(!new)>(Q: Setting<V>, x0: V, t: seq<Iteration<V>>, k: nat)
    requires Ready(Q) && Run(Q, x0, t) && k < |t|
    ensures var i := t[k];
      Sound(i) && Computed(Q, i.h, i.c) && Sane(Q, i.h) && Weighted(Q, i) && i.h == PendingHead(Q, x0, t[..k])
    ensures k == 0 ==>
      Begins(Q, x0, t[0].h) && Directed(Q, t[0].h, t[0].c, true, t[0].c) && Updated(Q, t[0], true, t[0].d, t[0].s)
    ensures k > 0 ==>
      && t[k].h == t[k - 1].n && Directed(Q, t[k].h, t[k].c, false, t[k - 1].c)
      && Updated(Q, t[k], false, t[k - 1].d, t[k - 1].s)
  {
    hide Ready, Run, Pending, Sound, Computed, Weighted, Directed, Updated, Begins, Sane;
    var u := t[..k];
    Prefix(Q, x0, t, k);
    Invariants(Q, x0, u);
    PendingPass(Q, x0, u);
    if k > 0 {
      assert u[|u| - 1] == t[k - 1];
    }
  }

  lemma NextVectors<V(!new)>(Q: Setting<V>, x0: V, t: seq<Iteration<V>>, k: nat)
    requires Ready(Q) && Run(Q, x0, t) && 0 < k < |t|
    ensures var o, h := t[k - 1].c, t[k].h;
      && h.vt == Q.P.S.axpy(Q.P.A.mult(o.p), -o.beta, o.v)
      && h.wt == Q.P.S.axpy(Q.P.A.transMult(o.q), -o.beta, o.w)
  {
    hide Ready, Run, Sound, Weighted, Directed, Begins, Sane, Quotient, Space.Scale;
    PassAt(Q, x0, t, k - 1);
    PassAt(Q, x0, t, k);
  }

  lemma FirstLink<V(!new)>(Q: Setting<V>, i: Iteration<V>)
    requires Directed(Q, i.h, i.c, true, i.c) && i.c.y == Q.P.M.solve(i.c.v) && i.c.z == Q.M2.transSolve(i.c.w)
    ensures var l, O := Link(i), Operators(Q); l.p == O.solve(l.v) && l.q == O.transSolve(l.w)
  {
    hide Both, BothTransposed;
    BothIs(Q, i.c.v);
    BothIs(Q, i.c.w);
  }

  lemma ComputedBeta<V>(Q: Setting<V>, h: Head<V>, c: Body<V>)
    requires Computed(Q, h, c)
    ensures c.beta == Quotient(c.ep, c.delta)
  {
  }

  lemma LinkRecurrence<V(!new)>(Q: Setting<V>, x0: V, t: seq<Iteration<V>>, k: nat)
    requires Ready(Q) && HasAdjoints(Q) && Run(Q, x0, t) && k < |t|
    ensures Lanczos.Recurrence(Q.P.S, Operators(Q), Links(t), k)
  {
    hide InnerProduct, Linear, HasAdjoints, IsRoot, Run, Sound, Computed, Weighted, Updated, Sane, Begins, Links,
      Operators, Lanczos.Scaled, Lanczos.Coupled, PendingHead;
    PassAt(Q, x0, t, k);
    LinkScaled(Q, t[k]);
    if k == 0 {
      FirstLink(Q, t[0]);
    } else {
      PassAt(Q, x0, t, k - 1);
      NextVectors(Q, x0, t, k);
      ComputedBeta(Q, t[k - 1].h, t[k - 1].c);
      LinkCoupled(Q, t[k - 1], t[k]);
    }
  }

  /** A run of the method is a run of the two-sided Lanczos recurrence. */
  lemma IsLanczos<V(!new)>(Q: Setting<V>, x0: V, t: seq<Iteration<V>>)
    requires Ready(Q) && HasAdjoints(Q) && Run(Q, x0, t)
    ensures InnerProduct(Q.P.S) && Lanczos.Adjoints(Q.P.S, Operators(Q)) && Lanczos.Run(Q.P.S, Operators(Q), Links(t))
  {
    hide InnerProduct, Linear, HasAdjoints, Lanczos.Adjoints, IsRoot, Run, Operators, Links, Lanczos.Recurrence;
    forall j: nat | j < |t| ensures Lanczos.Recurrence(Q.P.S, Operators(Q), Links(t), j) {
      LinkRecurrence(Q, x0, t, j);
    }
    BothAdjoint(Q);
  }

  /** The Lanczos vectors and the search directions stay biorthogonal over the whole run. */
  lemma Biorthogonal<V(!new)>(Q: Setting<V>, x0: V, t: seq<Iteration<V>>, i: nat, k: nat)
    requires Ready(Q) && HasAdjoints(Q) && Run(Q, x0, t) && i < |t| && k < |t| && i != k
    ensures Q.P.S.dot(t[i].c.w, Q.M2.solve(Q.P.M.solve(t[k].c.v))) == 0.0
    ensures Q.P.S.dot(t[i].c.q, Q.P.A.mult(t[k].c.p)) == 0.0
    ensures i < k ==> Q.P.S.dot(t[i].c.q, t[k].c.v) == 0.0
  {
    hide InnerProduct, Linear, HasAdjoints, Lanczos.Adjoints, Lanczos.Run, IsRoot, Run, Both, BothTransposed, Links;
    IsLanczos(Q, x0, t);
    BothIs(Q, t[k].c.v);
    Lanczos.Biorthogonal(Q.P.S, Operators(Q), Links(t), i, k);
  }

  /** In dimension n no run has more than n passes. */
  lemma FiniteRun<V(!new)>(Q: Setting<V>, x0: V, t: seq<Iteration<V>>, n: nat)
    requires Ready(Q) && HasAdjoints(Q) && Run(Q, x0, t) && Combinations.Dimension(Q.P.S, n)
    ensures |t| <= n
  {
    hide Ready, HasAdjoints, Run, Computed, Weighted, Directed, Updated, Begins, Sane, PendingHead, Lanczos.Adjoints,
      Lanczos.Run, Operators, InnerProduct, Combinations.Dimension;
    IsLanczos(Q, x0, t);
    if t != [] {
      PassAt(Q, x0, t, |t| - 1);
    }
    Lanczos.Short(Q.P.S, Operators(Q), Links(t), n);
  }

  // The residual as a mean of residuals

  /** The step length of the Galerkin iterate that belongs to a head. */
  function StepLength<V>(h: Head<V>): real {
    Quotient(h.eta, Sqr(h.gamma))
  }

  /** The Galerkin (BiCG) iterate that QMR smooths. */
  function GalerkinX<V>(Q: Setting<V>, x0: V, t: seq<Iteration<V>>): V {
    if t == [] then x0
    else
      var i := t[|t| - 1];
      Q.P.S.axpy(GalerkinX(Q, x0, t[..|t| - 1]), StepLength(i.n), i.c.p)
  }

  lemma GalerkinStep<V(!new)>(Q: Setting<V>, i: Iteration<V>, first: bool, d: V, s: V)
    requires Ready(Q) && Sane(Q, i.h) && Sound(i) && Computed(Q, i.h, i.c) && Weighted(Q, i)
    requires Updated(Q, i, first, d, s)
    ensures StepLength(i.n) * i.c.beta == -StepLength(i.h) * i.h.rho
    ensures i.n.eta == Sqr(i.n.gamma) * StepLength(i.n)
    ensures i.f == Sqr(i.h.theta) * Sqr(i.n.gamma)
  {
    hide Valid, IsRoot, Updated, Sane, Computed, StepLength, Eta, Sqr;
    DivisorsOf(Q, i);
    StepScalars(i.h.eta, i.h.rho, i.n.gamma, i.c.beta, i.h.gamma);
    StepIs(i.h);
    StepIs(i.n);
  }

  lemma StepIs<V>(h: Head<V>)
    ensures StepLength(h) == Quotient(h.eta, Sqr(h.gamma))
  {
  }

  lemma DivisorsOf<V(!new)>(Q: Setting<V>, i: Iteration<V>)
    requires Ready(Q) && Sane(Q, i.h) && Sound(i) && Computed(Q, i.h, i.c) && Weighted(Q, i)
    ensures i.h.gamma > 0.0 && i.n.gamma > 0.0 && i.c.beta != 0.0
    ensures Sqr(i.n.gamma) * (1.0 + Sqr(i.n.theta)) == 1.0
  {
    hide Valid, IsRoot, Weighted, Quotient, Sqr, Problem.Residual, Space.Scale;
    Divisors(Q, i);
  }

  lemma StepScalars(eta: real, rho: real, g: real, beta: real, g1: real)
    requires g > 0.0 && g1 > 0.0 && beta != 0.0
    ensures var e := Eta(eta, rho, g, beta, g1);
      && Quotient(e, Sqr(g)) * beta == -Quotient(eta, Sqr(g1)) * rho
      && e == Sqr(g) * Quotient(e, Sqr(g))
  {
    hide Quotient, Sqr, Eta;
    NonzeroProduct(beta, Sqr(g1));
    EtaIs(eta, rho, g, beta, g1);
    StepScalarsAt(eta, rho, Sqr(g), beta, Sqr(g1), Eta(eta, rho, g, beta, g1));
  }

  lemma EtaIs(eta: real, rho1: real, gamma: real, beta: real, gamma1: real)
    requires beta * Sqr(gamma1) != 0.0
    ensures Eta(eta, rho1, gamma, beta, gamma1) * (beta * Sqr(gamma1)) == -eta * rho1 * Sqr(gamma)
  {
    hide Quotient, Sqr;
    QuotientTimes(-eta * rho1 * Sqr(gamma), beta * Sqr(gamma1));
  }

  lemma StepScalarsAt(eta: real, rho: real, G: real, beta: real, G1: real, e: real)
    requires G > 0.0 && G1 > 0.0 && beta != 0.0 && e * (beta * G1) == -eta * rho * G
    ensures Quotient(e, G) * beta == -Quotient(eta, G1) * rho && e == G * Quotient(e, G)
  {
    var q, u := e / G, eta / G1;
    assert q * G == e && u * G1 == eta;
    assert (q * beta + u * rho) * (G * G1) == (q * G) * (beta * G1) + (u * G1) * rho * G;
    PositiveProduct(G, G1);
    ZeroProduct(q * beta + u * rho, G * G1);
  }

  /** Lines 135-143 for a functional: what one pass makes of the residual. */
  lemma MeanStep(r: real, vt: real, g: real, sPrev: real, T: real, G: real, pt: real, v: real, vtN: real, s: real,
        gN: real, beta: real, rho: real, f: real, eta: real, TN: real)
    requires r + g * vt == T * sPrev && vtN == pt - beta * v && rho * v == vt && gN * beta == -g * rho
    requires f == T * G && eta == G * gN && s == eta * pt + f * sPrev && G * (1.0 + TN) == 1.0
    ensures s == G * (r + gN * vtN)
    ensures r - s == (1.0 - G) * r - eta * vtN
    ensures (r - s) + gN * vtN == TN * s
  {
    assert gN * vtN == gN * pt - (gN * beta) * v == gN * pt + (g * rho) * v;
    assert (g * rho) * v == g * (rho * v) == g * vt;
    assert f * sPrev == G * (T * sPrev);
    assert eta * pt == G * (gN * pt);
    assert s == G * (gN * pt) + G * (r + g * vt);
    assert G * (gN * vtN) == eta * vtN;
    var y := r + gN * vtN;
    assert s == G * y;
    assert y == (G * (1.0 + TN)) * y == G * y + TN * (G * y);
  }

  /** The residual of the head, told by its Galerkin residual: r = rB + theta^2 s. */
  ghost predicate Offset<V(!new)>(Q: Setting<V>, h: Head<V>, s: V) {
    forall t :: Q.P.S.dot(h.r, t) + StepLength(h) * Q.P.S.dot(h.vt, t) == Sqr(h.theta) * Q.P.S.dot(s, t)
  }

  lemma MeanPass<V(!new)>(Q: Setting<V>, i: Iteration<V>, first: bool, d: V, s: V)
    requires Ready(Q) && Sane(Q, i.h) && Sound(i) && Computed(Q, i.h, i.c) && Weighted(Q, i)
    requires Updated(Q, i, first, d, s)
    requires first ==> Sqr(i.h.theta) == 0.0
    requires Offset(Q, i.h, s)
    ensures Combines(Q.P.S, 1.0, i.n.r, 1.0 - Sqr(i.n.gamma), i.h.r, -i.n.eta, i.n.vt)
    ensures Offset(Q, i.n, i.s)
  {
    hide InnerProduct, Linear, IsRoot, Sane, Weighted, Computed, Updated, Quotient, Sqr, StepLength;
    GalerkinStep(Q, i, first, d, s);
    DivisorsOf(Q, i);
    forall t
      ensures 1.0 * Q.P.S.dot(i.n.r, t) ==
        (1.0 - Sqr(i.n.gamma)) * Q.P.S.dot(i.h.r, t) + -i.n.eta * Q.P.S.dot(i.n.vt, t)
      ensures Q.P.S.dot(i.n.r, t) + StepLength(i.n) * Q.P.S.dot(i.n.vt, t) == Sqr(i.n.theta) * Q.P.S.dot(i.s, t)
    {
      MeanPassAt(Q, i, first, d, s, t);
    }
  }

  /** The updates of a pass, seen by a functional. */
  lemma PassScalars<V(!new)>(Q: Setting<V>, i: Iteration<V>, first: bool, d: V, s: V, t: V)
    requires InnerProduct(Q.P.S) && i.h.rho != 0.0 && Computed(Q, i.h, i.c) && Updated(Q, i, first, d, s)
    requires first ==> i.f == 0.0
    ensures Q.P.S.dot(i.n.r, t) == Q.P.S.dot(i.h.r, t) - Q.P.S.dot(i.s, t)
    ensures Q.P.S.dot(i.n.vt, t) == Q.P.S.dot(i.c.pt, t) - i.c.beta * Q.P.S.dot(i.c.v, t)
    ensures i.h.rho * Q.P.S.dot(i.c.v, t) == Q.P.S.dot(i.h.vt, t)
    ensures Q.P.S.dot(i.s, t) == i.n.eta * Q.P.S.dot(i.c.pt, t) + i.f * Q.P.S.dot(s, t)
  {
    hide InnerProduct, Computed, Updated, Quotient, Space.Scale;
    var S, h, c, n := Q.P.S, i.h, i.c, i.n;
    UpdatedParts(Q, i, first, d, s);
    ComputedV(Q, h, c);
    Unscaled(S, h.rho, c.v, h.vt, t);
    Expand(S, h.r, -1.0, i.s, t);
    Expand(S, c.pt, -c.beta, c.v, t);
    UpdateScalars(S, i.s, n.eta, c.pt, i.f, s, first, t);
  }

  lemma UpdatedParts<V>(Q: Setting<V>, i: Iteration<V>, first: bool, d: V, s: V)
    requires Updated(Q, i, first, d, s)
    ensures i.n.r == Q.P.S.axpy(i.h.r, -1.0, i.s) && i.n.vt == Q.P.S.axpy(i.c.pt, -i.c.beta, i.c.v)
    ensures i.s == if first then Q.P.S.Scale(i.n.eta, i.c.pt) else Q.P.S.axpy(Q.P.S.Scale(i.n.eta, i.c.pt), i.f, s)
  {
  }

  lemma ComputedV<V>(Q: Setting<V>, h: Head<V>, c: Body<V>)
    requires Computed(Q, h, c)
    ensures c.v == Q.P.S.Scale(Quotient(1.0, h.rho), h.vt) && c.pt == Q.P.A.mult(c.p)
  {
  }

  lemma UpdateScalars<V(!new)>(S: Space<V>, s': V, eta: real, pt: V, f: real, s: V, first: bool, t: V)
    requires InnerProduct(S) && (first ==> f == 0.0)
    requires s' == if first then S.Scale(eta, pt) else S.axpy(S.Scale(eta, pt), f, s)
    ensures S.dot(s', t) == eta * S.dot(pt, t) + f * S.dot(s, t)
  {
    hide InnerProduct, Space.Scale;
    ExpandScale(S, eta, pt, t);
    Expand(S, S.Scale(eta, pt), f, s, t);
    if first {
      assert f * S.dot(s, t) == 0.0;
    }
  }

  lemma MeanPassAt<V(!new)>(Q: Setting<V>, i: Iteration<V>, first: bool, d: V, s: V, t: V)
    requires InnerProduct(Q.P.S) && i.h.rho != 0.0 && Computed(Q, i.h, i.c) && Updated(Q, i, first, d, s)
    requires first ==> Sqr(i.h.theta) == 0.0
    requires Q.P.S.dot(i.h.r, t) + StepLength(i.h) * Q.P.S.dot(i.h.vt, t) == Sqr(i.h.theta) * Q.P.S.dot(s, t)
    requires StepLength(i.n) * i.c.beta == -StepLength(i.h) * i.h.rho && i.n.eta == Sqr(i.n.gamma) * StepLength(i.n)
    requires i.f == Sqr(i.h.theta) * Sqr(i.n.gamma) && Sqr(i.n.gamma) * (1.0 + Sqr(i.n.theta)) == 1.0
    ensures Q.P.S.dot(i.n.r, t) == (1.0 - Sqr(i.n.gamma)) * Q.P.S.dot(i.h.r, t) - i.n.eta * Q.P.S.dot(i.n.vt, t)
    ensures Q.P.S.dot(i.n.r, t) + StepLength(i.n) * Q.P.S.dot(i.n.vt, t) == Sqr(i.n.theta) * Q.P.S.dot(i.s, t)
  {
    hide InnerProduct, Sqr, StepLength, Computed, Updated;
    var S, h, c, n := Q.P.S, i.h, i.c, i.n;
    PassScalars(Q, i, first, d, s, t);
    MeanStep(S.dot(h.r, t), S.dot(h.vt, t), StepLength(h), S.dot(s, t), Sqr(h.theta), Sqr(n.gamma), S.dot(c.pt, t),
      S.dot(c.v, t), S.dot(n.vt, t), S.dot(i.s, t), StepLength(n), c.beta, h.rho, i.f, n.eta, Sqr(n.theta));
  }

  lemma BeginsOffset<V(!new)>(Q: Setting<V>, x0: V, h: Head<V>, s: V)
    requires InnerProduct(Q.P.S) && Begins(Q, x0, h)
    ensures Offset(Q, h, s) && Sqr(h.theta) == 0.0
  {
  }

  lemma {:induction false} OffsetAt<V(!new)>(Q: Setting<V>, x0: V, t: seq<Iteration<V>>, k: nat)
    requires Ready(Q) && Run(Q, x0, t) && k < |t|
    ensures Offset(Q, t[k].n, t[k].s)
    ensures Combines(Q.P.S, 1.0, t[k].n.r, 1.0 - Sqr(t[k].n.gamma), t[k].h.r, -t[k].n.eta, t[k].n.vt)
  {
    hide Valid, IsRoot, Run, Computed, Weighted, Directed, Updated, Sane, Begins, Sound, Offset, Combines, Sqr;
    PassAt(Q, x0, t, k);
    if k == 0 {
      SettingLaws(Q);
      BeginsOffset(Q, x0, t[0].h, t[0].s);
      MeanPass(Q, t[0], true, t[0].d, t[0].s);
    } else {
      OffsetAt(Q, x0, t, k - 1);
      MeanPass(Q, t[k], false, t[k - 1].d, t[k - 1].s);
    }
  }

  lemma SettingLaws<V(!new)>(Q: Setting<V>)
    requires Ready(Q)
    ensures InnerProduct(Q.P.S) && Valid(Q.P)
  {
  }

  /** The Galerkin iterate leaves minus StepLength times the next Lanczos vector. */
  lemma {:induction false} GalerkinResidual<V(!new)>(Q: Setting<V>, x0: V, t: seq<Iteration<V>>)
    requires Ready(Q) && Run(Q, x0, t)
    ensures var h := PendingHead(Q, x0, t); Q.P.Residual(GalerkinX(Q, x0, t)) == Q.P.S.Scale(-StepLength(h), h.vt)
    decreases |t|
  {
    hide Valid, IsRoot, Run, Computed, Weighted, Directed, Updated, Sane, Begins, Sound, StepLength, Space.Scale,
      Problem.Residual, Pending;
    SettingLaws(Q);
    if t == [] {
      PendingPass(Q, x0, []);
      GalerkinStart(Q, x0, PendingHead(Q, x0, []));
    } else {
      var k := |t| - 1;
      Prefix(Q, x0, t, k);
      GalerkinResidual(Q, x0, t[..k]);
      PassAt(Q, x0, t, k);
      GalerkinPass(Q, t[k], k == 0, if k == 0 then t[0].d else t[k - 1].d, if k == 0 then t[0].s else t[k - 1].s);
      ResidualMoves(Q.P, GalerkinX(Q, x0, t[..k]), StepLength(t[k].n), t[k].c.p);
    }
  }

  lemma GalerkinStart<V(!new)>(Q: Setting<V>, x0: V, h: Head<V>)
    requires InnerProduct(Q.P.S) && Begins(Q, x0, h)
    ensures Q.P.Residual(x0) == Q.P.S.Scale(-StepLength(h), h.vt)
  {
    hide InnerProduct, Problem.Residual, Space.Scale;
    var S, r := Q.P.S, Q.P.Residual(x0);
    assert StepLength(h) == -1.0;
    forall t ensures S.dot(r, t) == S.dot(S.Scale(-StepLength(h), h.vt), t) {
      ExpandScale(S, -StepLength(h), h.vt, t);
    }
    Same(S, r, S.Scale(-StepLength(h), h.vt));
  }

  lemma GalerkinPass<V(!new)>(Q: Setting<V>, i: Iteration<V>, first: bool, d: V, s: V)
    requires Ready(Q) && Sane(Q, i.h) && Sound(i) && Computed(Q, i.h, i.c) && Weighted(Q, i)
    requires Updated(Q, i, first, d, s)
    ensures Q.P.S.axpy(Q.P.S.Scale(-StepLength(i.h), i.h.vt), -StepLength(i.n), Q.P.A.mult(i.c.p)) ==
            Q.P.S.Scale(-StepLength(i.n), i.n.vt)
  {
    hide Valid, IsRoot, Sane, Weighted, Computed, Quotient, StepLength, Space.Scale, Problem.Residual;
    SettingLaws(Q);
    GalerkinStep(Q, i, first, d, s);
    ComputedV(Q, i.h, i.c);
    GalerkinVectors(Q.P.S, StepLength(i.h), i.h.vt, i.h.rho, i.c.v, StepLength(i.n), i.c.pt, i.c.beta, i.n.vt);
  }

  lemma GalerkinVectors<V(!new)>(S: Space<V>, g: real, vt: V, rho: real, v: V, g': real, pt: V, beta: real, vt': V)
    requires InnerProduct(S) && rho != 0.0 && v == S.Scale(Quotient(1.0, rho), vt) && vt' == S.axpy(pt, -beta, v)
    requires g' * beta == -g * rho
    ensures S.axpy(S.Scale(-g, vt), -g', pt) == S.Scale(-g', vt')
  {
    hide InnerProduct, Quotient, Space.Scale;
    var l, r := S.axpy(S.Scale(-g, vt), -g', pt), S.Scale(-g', vt');
    forall t ensures S.dot(l, t) == S.dot(r, t) {
      Expand(S, S.Scale(-g, vt), -g', pt, t);
      ExpandScale(S, -g, vt, t);
      ExpandScale(S, -g', vt', t);
      Expand(S, pt, -beta, v, t);
      Unscaled(S, rho, v, vt, t);
      GalerkinReals(g, rho, S.dot(v, t), g', beta, S.dot(pt, t));
    }
    Same(S, l, r);
  }

  lemma GalerkinReals(g: real, rho: real, v: real, g': real, beta: real, p: real)
    requires g' * beta == -g * rho
    ensures -g * (rho * v) + -g' * p == -g' * (p + -beta * v)
  {
    assert -g' * (p + -beta * v) == -g' * p + (g' * beta) * v;
    assert -g * (rho * v) == (-g * rho) * v;
  }

  /** QMR's residual is the gamma^2-weighted mean of its last one and the Galerkin residual. */
  lemma ResidualMean<V(!new)>(Q: Setting<V>, x0: V, t: seq<Iteration<V>>, k: nat)
    requires Ready(Q) && Run(Q, x0, t) && k < |t|
    ensures 0.0 < Sqr(t[k].n.gamma) <= 1.0
    ensures Combines(Q.P.S, 1.0, t[k].n.r, 1.0 - Sqr(t[k].n.gamma), t[k].h.r,
                     Sqr(t[k].n.gamma), Q.P.Residual(GalerkinX(Q, x0, t[..k + 1])))
  {
    hide Valid, IsRoot, Run, Computed, Weighted, Directed, Updated, Sane, Begins, Sound, Combines, Offset, StepLength,
      Space.Scale, Problem.Residual, GalerkinX, Sqr, Pending;
    var i, S, u := t[k], Q.P.S, t[..k + 1];
    SettingLaws(Q);
    PassAt(Q, x0, t, k);
    DivisorsOf(Q, i);
    AtMostOne(Sqr(i.n.gamma), Sqr(i.n.theta));
    OffsetAt(Q, x0, t, k);
    PrefixRun(Q, x0, t, k + 1);
    GalerkinResidual(Q, x0, u);
    EtaSplit(Q, x0, t, k);
    Reweigh(S, i.n.r, 1.0 - Sqr(i.n.gamma), i.h.r, i.n.eta, i.n.vt, Sqr(i.n.gamma), StepLength(i.n));
  }

  lemma AtMostOne(G: real, T: real)
    requires G > 0.0 && T >= 0.0 && G * (1.0 + T) == 1.0
    ensures G <= 1.0
  {
    PositiveProduct(G, T);
  }

  lemma PrefixRun<V>(Q: Setting<V>, x0: V, t: seq<Iteration<V>>, k: nat)
    requires Run(Q, x0, t) && k <= |t|
    ensures Run(Q, x0, t[..k])
  {
    hide Pending, Sound;
    var u := t[..k];
    forall j: nat | j < k ensures Pass(Q, x0, u, j) {
      assert Pass(Q, x0, t, j);
      assert u[..j] == t[..j];
    }
  }

  lemma EtaSplit<V(!new)>(Q: Setting<V>, x0: V, t: seq<Iteration<V>>, k: nat)
    requires Ready(Q) && Run(Q, x0, t) && k < |t|
    ensures t[k].n.eta == Sqr(t[k].n.gamma) * StepLength(t[k].n)
  {
    hide Ready, Run, Computed, Weighted, Directed, Updated, Sane, Begins, Sound, StepLength, Sqr;
    PassAt(Q, x0, t, k);
    if k == 0 {
      GalerkinStep(Q, t[0], true, t[0].d, t[0].s);
    } else {
      GalerkinStep(Q, t[k], false, t[k - 1].d, t[k - 1].s);
    }
  }

  lemma Reweigh<V(!new)>(S: Space<V>, u: V, a: real, v: V, eta: real, w: V, G: real, g: real)
    requires InnerProduct(S) && Combines(S, 1.0, u, a, v, -eta, w) && eta == G * g
    ensures Combines(S, 1.0, u, a, v, G, S.Scale(-g, w))
  {
    hide InnerProduct, Space.Scale;
    forall t ensures 1.0 * S.dot(u, t) == a * S.dot(v, t) + G * S.dot(S.Scale(-g, w), t) {
      ExpandScale(S, -g, w, t);
      assert G * (-g * S.dot(w, t)) == -(G * g) * S.dot(w, t);
    }
  }

  // The end of the Lanczos process

  ghost predicate Injective<V(!new)>(Q: Setting<V>) {
    forall u :: Q.P.M.solve(u) == Q.P.S.zero ==> u == Q.P.S.zero
  }

  lemma NoVector<V(!new)>(Q: Setting<V>, h: Head<V>)
    requires InnerProduct(Q.P.S) && Injective(Q) && h.y == Q.P.M.solve(h.vt) && h.rho == Q.P.S.norm(h.y) && h.rho == 0.0
    ensures h.vt == Q.P.S.zero
  {
    NullIsZero(Q.P.S, h.y);
  }

  lemma OffsetVanishes<V(!new)>(Q: Setting<V>, h: Head<V>, s: V)
    requires InnerProduct(Q.P.S) && Offset(Q, h, s) && h.vt == Q.P.S.zero && Sqr(h.theta) == 0.0
    ensures h.r == Q.P.S.zero
  {
    hide InnerProduct, StepLength, Sqr;
    var S := Q.P.S;
    forall t ensures S.dot(h.r, t) == S.dot(S.zero, t) {
      Zero(S, t);
      assert S.dot(h.r, t) + StepLength(h) * S.dot(h.vt, t) == Sqr(h.theta) * S.dot(s, t);
      assert StepLength(h) * 0.0 == 0.0 == 0.0 * S.dot(s, t);
    }
    Same(S, h.r, S.zero);
  }

  lemma NoTheta<V>(Q: Setting<V>, i: Iteration<V>)
    requires Weighted(Q, i) && i.n.rho == 0.0
    ensures Sqr(i.n.theta) == 0.0
  {
  }

  lemma NextOf<V>(Q: Setting<V>, i: Iteration<V>, first: bool, d: V, s: V)
    requires Updated(Q, i, first, d, s)
    ensures i.n.y == Q.P.M.solve(i.n.vt) && i.n.rho == Q.P.S.norm(i.n.y)
  {
  }

  lemma FirstOf<V>(Q: Setting<V>, x0: V, h: Head<V>)
    requires Begins(Q, x0, h)
    ensures h.y == Q.P.M.solve(h.vt) && h.rho == Q.P.S.norm(h.y) && h.r == h.vt
  {
  }

  /** With a nonsingular first preconditioner, rho vanishes only with the vector it scales. */
  lemma VectorVanishesLast<V(!new)>(Q: Setting<V>, x0: V, t: seq<Iteration<V>>)
    requires Ready(Q) && Injective(Q) && Run(Q, x0, t) && PendingHead(Q, x0, t).rho == 0.0
    ensures PendingHead(Q, x0, t).vt == Q.P.S.zero
  {
    hide Valid, IsRoot, Injective, Run, Computed, Weighted, Directed, Updated, Sane, Begins, Sound, Pending, FirstHead;
    SettingLaws(Q);
    if t == [] {
      PendingPass(Q, x0, []);
      FirstOf(Q, x0, PendingHead(Q, x0, []));
    } else {
      var k := |t| - 1;
      PassAt(Q, x0, t, k);
      if k == 0 {
        NextOf(Q, t[0], true, t[0].d, t[0].s);
      } else {
        NextOf(Q, t[k], false, t[k - 1].d, t[k - 1].s);
      }
    }
    NoVector(Q, PendingHead(Q, x0, t));
  }

  /** And then the residual is zero as well. */
  lemma RhoVanishesLast<V(!new)>(Q: Setting<V>, x0: V, t: seq<Iteration<V>>)
    requires Ready(Q) && Injective(Q) && Run(Q, x0, t) && PendingHead(Q, x0, t).rho == 0.0
    ensures PendingHead(Q, x0, t).r == Q.P.S.zero
  {
    hide Valid, IsRoot, Injective, Run, Computed, Weighted, Directed, Updated, Sane, Begins, Sound, Offset, Combines,
      Sqr, Pending, FirstHead;
    SettingLaws(Q);
    VectorVanishesLast(Q, x0, t);
    if t == [] {
      PendingPass(Q, x0, []);
      FirstOf(Q, x0, PendingHead(Q, x0, []));
    } else {
      var k := |t| - 1;
      PassAt(Q, x0, t, k);
      OffsetAt(Q, x0, t, k);
      NoTheta(Q, t[k]);
      OffsetVanishes(Q, t[k].n, t[k].s);
    }
  }

  /** So the method never gets to its first breakdown test with rho zero and the residual above tol >= 0. */
  lemma NoRhoBreakdown<V(!new)>(Q: Setting<V>, x0: V, t: seq<Iteration<V>>, tol: real)
    requires Ready(Q) && Injective(Q) && Run(Q, x0, t)
    requires tol >= 0.0 && Q.P.Relative(PendingHead(Q, x0, t).r) > tol
    ensures PendingHead(Q, x0, t).rho != 0.0
  {
    hide Valid, IsRoot, Injective, Run, PendingHead, Problem.Relative, Problem.NormB;
    if PendingHead(Q, x0, t).rho == 0.0 {
      SettingLaws(Q);
      RhoVanishesLast(Q, x0, t);
      NullIsZero(Q.P.S, Q.P.S.zero);
      RelativeIs(Q.P, Q.P.S.zero);
      PositiveDivisor(Q.P);
    }
  }

  // The method

  /** The convergence tests of the passes so far all failed. */
  ghost predicate Unconverged<V(!new)>(Q: Setting<V>, t: seq<Iteration<V>>, tol: real) {
    forall k: nat :: k < |t| ==> Q.P.Relative(t[k].h.r) > tol
  }

  /** No earlier x had passed the test. */
  lemma UnconvergedIs<V(!new)>(Q: Setting<V>, x0: V, t: seq<Iteration<V>>, tol: real)
    requires Ready(Q) && Run(Q, x0, t)
    ensures Unconverged(Q, t, tol) <==> forall k: nat :: k < |t| ==> Q.P.Relative(Q.P.Residual(t[k].h.x)) > tol
  {
    hide Ready, Run, PendingHead, Problem.Residual, Problem.Relative;
    forall k: nat | k < |t| ensures t[k].h.r == Q.P.Residual(t[k].h.x) {
      Prefix(Q, x0, t, k);
      Invariants(Q, x0, t[..k]);
    }
  }

  lemma StillUnconverged<V(!new)>(Q: Setting<V>, t: seq<Iteration<V>>, i: Iteration<V>, tol: real)
    requires Unconverged(Q, t, tol) && Q.P.Relative(i.h.r) > tol
    ensures Unconverged(Q, t + [i], tol)
  {
    hide Problem.Relative;
  }

  lemma EmptyRun<V(!new)>(Q: Setting<V>, x0: V, tol: real)
    ensures Run(Q, x0, []) && Unconverged(Q, [], tol)
  {
  }

  lemma CoefficientQuotient(scale: real, delta: real, ep: real)
    requires ep != 0.0
    ensures Coefficient(scale, delta, ep) == scale * delta / ep
  {
  }

  /** Lines 82-108; code 0 means no breakdown. */
  method Orient<V>(Q: Setting<V>, h: Head<V>, o: Option<Iteration<V>>) returns (code: int, c: Body<V>)
    requires h.rho != 0.0 && h.xi != 0.0 && (o.Some? ==> o.value.c.ep != 0.0)
    ensures var g := Compute(Q, h, o);
      && (code == 5 ==> g.delta == 0.0)
      && (code == 6 ==> g.delta != 0.0 && g.ep == 0.0)
      && (code == 0 ==> c == g && c.delta != 0.0 && c.ep != 0.0)
    ensures code == 0 || code == 5 || code == 6
  {
    hide Quotient, Coefficient, Space.Scale;
    var S, P := Q.P.S, Q.P;
    QuotientIs(1.0, h.rho);
    QuotientIs(1.0, h.xi);
    var v, y := S.Scale(1.0 / h.rho, h.vt), S.Scale(1.0 / h.rho, h.y);
    var w, z := S.Scale(1.0 / h.xi, h.wt), S.Scale(1.0 / h.xi, h.z);
    var delta := S.dot(z, y);
    c := Body(v, y, w, z, delta, y, z, v, 0.0, 0.0, 0.0, 0.0);
    if delta == 0.0 {
      return 5, c;
    }
    var p, q, fp, fq := Q.M2.solve(y), P.M.transSolve(z), 0.0, 0.0;
    if o.Some? {
      CoefficientQuotient(h.xi, delta, o.value.c.ep);
      CoefficientQuotient(h.rho, delta, o.value.c.ep);
      fp, fq := h.xi * delta / o.value.c.ep, h.rho * delta / o.value.c.ep;
      assert fp == Coefficient(h.xi, delta, o.value.c.ep) && fq == Coefficient(h.rho, delta, o.value.c.ep);
      p, q := S.axpy(p, -fp, o.value.c.p), S.axpy(q, -fq, o.value.c.q);
    }
    var pt := P.A.mult(p);
    var ep := S.dot(q, pt);
    if ep == 0.0 {
      return 6, c;
    }
    QuotientIs(ep, delta);
    c := Body(v, y, w, z, delta, p, q, pt, ep, ep / delta, fp, fq);
    return 0, c;
  }

  lemma ThetaIs(rho: real, gamma1: real, beta: real)
    requires gamma1 * beta != 0.0
    ensures Theta(rho, gamma1, beta) == rho / (gamma1 * beta)
  {
  }

  lemma GammaQuotient(sqrt: real -> real, theta: real)
    requires sqrt(1.0 + Sqr(theta)) != 0.0
    ensures Gamma(sqrt, theta) == 1.0 / sqrt(1.0 + Sqr(theta))
  {
  }

  lemma EtaQuotient(eta: real, rho1: real, gamma: real, beta: real, gamma1: real)
    requires beta * Sqr(gamma1) != 0.0
    ensures Eta(eta, rho1, gamma, beta, gamma1) == -eta * rho1 * Sqr(gamma) / (beta * Sqr(gamma1))
  {
  }

  lemma WeightIs(theta1: real, gamma: real)
    ensures Weight(theta1, gamma) == Sqr(theta1) * Sqr(gamma)
  {
  }

  /** Lines 122-132; ok is false for the breakdown in gamma. */
  method Scalars(sqrt: real -> real, eta1: real, rho1: real, gamma1: real, theta1: real, rho: real, beta: real)
    returns (ok: bool, theta: real, gamma: real, eta: real, f: real)
    requires IsRoot(sqrt) && gamma1 > 0.0 && beta != 0.0
    ensures ok && theta == Theta(rho, gamma1, beta) && gamma == Gamma(sqrt, theta)
    ensures eta == Eta(eta1, rho1, gamma, beta, gamma1) && f == Weight(theta1, gamma)
  {
    hide Quotient, Sqr, Theta, Gamma, Eta, Weight, IsRoot;
    NonzeroProduct(gamma1, beta);
    NonzeroProduct(beta, Sqr(gamma1));
    ThetaIs(rho, gamma1, beta);
    theta := rho / (gamma1 * beta);
    GammaUnit(sqrt, theta);
    GammaQuotient(sqrt, theta);
    gamma := 1.0 / sqrt(1.0 + Sqr(theta));
    ok := gamma != 0.0;
    EtaQuotient(eta1, rho1, gamma, beta, gamma1);
    WeightIs(theta1, gamma);
    eta := -eta1 * rho1 * Sqr(gamma) / (beta * Sqr(gamma1));
    f := Sqr(theta1) * Sqr(gamma);
  }

  /** Lines 134-140. */
  method UpdateVectors<V>(S: Space<V>, eta: real, f: real, c: Body<V>, o: Option<Iteration<V>>) returns (d: V, s: V)
    ensures d == if o.None? then S.Scale(eta, c.p) else S.axpy(S.Scale(eta, c.p), f, o.value.d)
    ensures s == if o.None? then S.Scale(eta, c.pt) else S.axpy(S.Scale(eta, c.pt), f, o.value.s)
  {
    d, s := S.Scale(eta, c.p), S.Scale(eta, c.pt);
    if o.Some? {
      d, s := S.axpy(d, f, o.value.d), S.axpy(s, f, o.value.s);
    }
  }

  /** The Lanczos vectors that follow a pass, unscaled. */
  ghost predicate Continued<V>(Q: Setting<V>, c: Body<V>, vt: V, y: V, rho: real, wt: V, z: V, xi: real) {
    && vt == Q.P.S.axpy(c.pt, -c.beta, c.v) && y == Q.P.M.solve(vt) && rho == Q.P.S.norm(y)
    && wt == Q.P.S.axpy(Q.P.A.transMult(c.q), -c.beta, c.w) && z == Q.M2.transSolve(wt) && xi == Q.P.S.norm(z)
  }

  /** Lines 112-120: the Lanczos vectors of the next head; the rest of it is still the old one. */
  method LanczosVectors<V>(Q: Setting<V>, c: Body<V>, h: Head<V>) returns (n: Head<V>)
    ensures Continued(Q, c, n.vt, n.y, n.rho, n.wt, n.z, n.xi)
  {
    var vt := Q.P.S.axpy(c.pt, -c.beta, c.v);
    var y := Q.P.M.solve(vt);
    var wt := Q.P.S.axpy(Q.P.A.transMult(c.q), -c.beta, c.w);
    var z := Q.M2.transSolve(wt);
    n := h.(vt := vt, y := y, rho := Q.P.S.norm(y), wt := wt, z := z, xi := Q.P.S.norm(z));
  }

  /** The formulas determine the pass. */
  lemma CarryIs<V>(Q: Setting<V>, h: Head<V>, c: Body<V>, o: Option<Iteration<V>>, i: Iteration<V>)
    requires i.h == h && i.c == c && Weighted(Q, i)
    requires if o.None? then Updated(Q, i, true, i.d, i.s) else Updated(Q, i, false, o.value.d, o.value.s)
    ensures i == Carry(Q, h, c, o)
  {
    hide Theta, Gamma, Eta, Weight, Space.Scale;
  }

  lemma UpdatedIs<V>(Q: Setting<V>, i: Iteration<V>, first: bool, d: V, s: V)
    requires Continued(Q, i.c, i.n.vt, i.n.y, i.n.rho, i.n.wt, i.n.z, i.n.xi)
    requires i.d == if first then Q.P.S.Scale(i.n.eta, i.c.p) else Q.P.S.axpy(Q.P.S.Scale(i.n.eta, i.c.p), i.f, d)
    requires i.s == if first then Q.P.S.Scale(i.n.eta, i.c.pt) else Q.P.S.axpy(Q.P.S.Scale(i.n.eta, i.c.pt), i.f, s)
    requires i.n.x == Q.P.S.axpy(i.h.x, 1.0, i.d) && i.n.r == Q.P.S.axpy(i.h.r, -1.0, i.s)
    ensures Updated(Q, i, first, d, s)
  {
    hide Space.Scale;
  }

  lemma WeightedIs<V>(Q: Setting<V>, i: Iteration<V>)
    requires i.n.theta == Theta(i.n.rho, i.h.gamma, i.c.beta) && i.n.gamma == Gamma(Q.sqrt, i.n.theta)
    requires i.n.eta == Eta(i.h.eta, i.h.rho, i.n.gamma, i.c.beta, i.h.gamma) && i.f == Weight(i.h.theta, i.n.gamma)
    ensures Weighted(Q, i)
  {
    hide Theta, Gamma, Eta, Weight;
  }

  /** Lines 112-143; ok is false for the breakdown in gamma. */
  method Advance<V(!new)>(Q: Setting<V>, h: Head<V>, c: Body<V>, o: Option<Iteration<V>>)
    returns (ok: bool, i: Iteration<V>)
    requires IsRoot(Q.sqrt) && h.gamma > 0.0 && c.beta != 0.0
    ensures ok && i == Carry(Q, h, c, o)
  {
    hide Theta, Gamma, Eta, Weight, IsRoot, Carry, Weighted, Updated, Continued, Space.Scale;
    var S := Q.P.S;
    var n := LanczosVectors(Q, c, h);
    var theta, gamma, eta, f;
    ok, theta, gamma, eta, f := Scalars(Q.sqrt, h.eta, h.rho, h.gamma, h.theta, n.rho, c.beta);
    var d, s := UpdateVectors(S, eta, f, c, o);
    n := n.(x := S.axpy(h.x, 1.0, d), r := S.axpy(h.r, -1.0, s), gamma := gamma, eta := eta, theta := theta);
    i := Iteration(h, c, n, f, d, s);
    WeightedIs(Q, i);
    UpdatedIs(Q, i, o.None?, if o.None? then d else o.value.d, if o.None? then s else o.value.s);
    CarryIs(Q, h, c, o, i);
  }

  lemma CarryOf<V>(Q: Setting<V>, h: Head<V>, c: Body<V>, o: Option<Iteration<V>>)
    ensures Carry(Q, h, c, o).h == h && Carry(Q, h, c, o).c == c
  {
  }

  lemma BetaOf<V>(Q: Setting<V>, h: Head<V>, o: Option<Iteration<V>>, c: Body<V>)
    requires c == Compute(Q, h, o) && c.delta != 0.0 && c.ep != 0.0
    ensures c.beta != 0.0
  {
  }

  lemma HeadOf<V(!new)>(Q: Setting<V>, x0: V, t: seq<Iteration<V>>)
    requires Ready(Q) && Run(Q, x0, t)
    ensures IsRoot(Q.sqrt)
    ensures var h := PendingHead(Q, x0, t); h.r == Q.P.Residual(h.x) && h.gamma > 0.0
  {
    hide Run, PendingHead;
    Invariants(Q, x0, t);
  }

  /** QMR of iml/qmr.h; t is the record of its passes. */
  method Solve<V(!new)>(Q: Setting<V>, x0: V, maxIter0: int, tol0: real)
    returns (code: int, x: V, maxIter: int, tol: real, ghost t: seq<Iteration<V>>)
    requires Ready(Q)
    ensures Run(Q, x0, t) && x == PendingHead(Q, x0, t).x && Unconverged(Q, t, tol0) && (t == [] || |t| <= maxIter0)
    ensures code == 0 ==> maxIter == |t| && tol == Q.P.Relative(Q.P.Residual(x)) <= tol0
    ensures code == 1 ==> |t| >= maxIter0 == maxIter && tol == Q.P.Relative(Q.P.Residual(x)) > tol0
    ensures code >= 2 ==> |t| < maxIter0 == maxIter && tol == tol0 < Q.P.Relative(Q.P.Residual(x))
    ensures code >= 2 ==>
      var h, c := PendingHead(Q, x0, t), PendingBody(Q, x0, t);
      code == if h.rho == 0.0 then 2 else if h.xi == 0.0 then 7 else if c.delta == 0.0 then 5 else 6
    ensures code == 6 ==> PendingBody(Q, x0, t).ep == 0.0
    ensures Injective(Q) && tol0 >= 0.0 ==> code != 2
    ensures 0 <= code <= 7
  {
    hide Ready, Injective, Run, Sane, Unconverged, Compute, Carry, Problem.Residual, Problem.Relative, Problem.NormB;
    var S, P := Q.P.S, Q.P;
    x, maxIter, tol, t := x0, maxIter0, tol0, [];
    var normb := S.norm(P.b);
    var r := P.Residual(x);
    if normb == 0.0 {
      normb := 1.0;
    }
    DivisorIs(P);
    RelativeIs(P, r);
    EmptyRun(Q, x0, tol);
    var resid := S.norm(r) / normb;
    if resid <= tol {
      return 0, x, 0, resid, t;
    }
    var y, z := P.M.solve(r), Q.M2.transSolve(r);
    var h := Head(x, r, r, y, S.norm(y), r, z, S.norm(z), 1.0, -1.0, 0.0);
    var last: Option<Iteration<V>> := None;
    var i := 1;
    while i <= maxIter
      invariant 1 <= i && (i <= maxIter + 1 || i == 1)
      invariant |t| == i - 1 && Run(Q, x0, t) && Unconverged(Q, t, tol)
      invariant maxIter == maxIter0 && tol == tol0 && normb == P.NormB()
      invariant h == PendingHead(Q, x0, t) && last == Last(t) && (last.Some? ==> last.value.c.ep != 0.0)
      invariant x == h.x && r == h.r == P.Residual(x) && resid == P.Relative(r) > tol
    {
      if Injective(Q) && tol >= 0.0 {
        NoRhoBreakdown(Q, x0, t, tol);
      }
      if h.rho == 0.0 {
        return 2, x, maxIter, tol, t;
      }
      if h.xi == 0.0 {
        return 7, x, maxIter, tol, t;
      }
      var breakdown, c := Orient(Q, h, last);
      if breakdown != 0 {
        return breakdown, x, maxIter, tol, t;
      }
      BetaOf(Q, h, last, c);
      if c.beta == 0.0 {
        assert false;
      }
      HeadOf(Q, x0, t);
      var ok, it := Advance(Q, h, c, last);
      if !ok {
        assert false;
      }
      CarryOf(Q, h, c, last);
      Extend(Q, x0, t, it);
      StillUnconverged(Q, t, it, tol);
      t := t + [it];
      h, last := it.n, Some(it);
      HeadOf(Q, x0, t);
      x, r := h.x, h.r;
      RelativeIs(P, r);
      resid := S.norm(r) / normb;
      if resid <= tol {
        return 0, x, i, resid, t;
      }
      i := i + 1;
    }
    return 1, x, maxIter, resid, t;
  }
}
