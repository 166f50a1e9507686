/**
  What iml/qmr.h minimises: over all x0 + c[0]*p[0] + ... + c[k-1]*p[k-1], the sum of the squares of the
  coordinates of the residual in the normalised Lanczos vectors.
 */
module QuasiMinimal {
  import opened Reals
  import opened VectorSpaces
  import opened Systems
  import opened Combinations
  import opened QMR

  function Directions<V>(t: seq<Iteration<V>>): (p: seq<V>)
    ensures |p| == |t| && forall k :: 0 <= k < |t| ==> p[k] == t[k].c.p
  {
    if t == [] then [] else Directions(t[..|t| - 1]) + [t[|t| - 1].c.p]
  }

  /** x0 plus a combination of the directions. */
  function Reach<V>(Q: Setting<V>, x0: V, t: seq<Iteration<V>>, c: seq<real>): V
    requires |c| <= |t|
  {
    Q.P.S.axpy(x0, 1.0, Combination(Q.P.S, c, Directions(t)))
  }

  /** The normalised Lanczos vectors of the passes t and of the one after them. */
  function LanczosBasis<V>(Q: Setting<V>, x0: V, t: seq<Iteration<V>>): (v: seq<V>)
    ensures |v| == |t| + 1
  {
    var h := PendingHead(Q, x0, t);
    (if t == [] then [] else LanczosBasis(Q, x0, t[..|t| - 1])) + [Q.P.S.Scale(Quotient(1.0, h.rho), h.vt)]
  }

  /** The coordinates after c times the column (beta, rho) has been taken away from the last places. */
  function Push(g: seq<real>, beta: real, rho: real, c: real): (f: seq<real>)
    requires g != []
    ensures |f| == |g| + 1
  {
    g[|g| - 1 := g[|g| - 1] - beta * c] + [-rho * c]
  }

  /** The coordinates of the residual of Reach(c) in that basis: A p[j] is beta[j]*v[j] + rho[j+1]*v[j+1]. */
  function Quasi<V>(Q: Setting<V>, x0: V, t: seq<Iteration<V>>, c: seq<real>): (g: seq<real>)
    requires |c| == |t|
    ensures |g| == |t| + 1
  {
    if t == [] then [FirstHead(Q, x0).rho]
    else
      var k := |t| - 1;
      Push(Quasi(Q, x0, t[..k], c[..k]), t[k].c.beta, t[k].n.rho, c[k])
  }

  function SumOfSquares(g: seq<real>): real {
    if g == [] then 0.0 else SumOfSquares(g[..|g| - 1]) + g[|g| - 1] * g[|g| - 1]
  }

  // Quasi gives the coordinates of the residual. Products that the proofs only pass on are written Times.

  lemma ExpandTimes<V(!new)>(S: Space<V>, u: V, a: real, v: V, t: V)
    requires InnerProduct(S)
    ensures S.dot(S.axpy(u, a, v), t) == S.dot(u, t) + Times(a, S.dot(v, t))
    ensures S.dot(S.axpy(u, -a, v), t) == S.dot(u, t) - Times(a, S.dot(v, t))
  {
    hide InnerProduct;
    Expand(S, u, a, v, t);
    Expand(S, u, -a, v, t);
  }

  lemma LastTimes<V(!new)>(S: Space<V>, c: seq<real>, v: seq<V>, t: V)
    requires InnerProduct(S) && 0 < |c| <= |v|
    ensures var k := |c| - 1;
      S.dot(Combination(S, c, v), t) == S.dot(Combination(S, c[..k], v), t) + Times(c[k], S.dot(v[k], t))
  {
    hide InnerProduct, Combination;
    LastTerm(S, c, v, t);
  }

  /** A combination with one more vector, and the coefficient before it changed. */
  lemma Extended<V(!new)>(S: Space<V>, g: seq<real>, v: seq<V>, b: real, e: real, w: V, u: V)
    requires InnerProduct(S) && |g| == |v| > 0
    ensures var k := |g| - 1;
      S.dot(Combination(S, g[k := g[k] - b] + [e], v + [w]), u) ==
      S.dot(Combination(S, g, v), u) - Times(b, S.dot(v[k], u)) + Times(e, S.dot(w, u))
  {
    hide InnerProduct, Combination, Times;
    var k, f, x := |g| - 1, g[|g| - 1 := g[|g| - 1] - b], v + [w];
    assert (f + [e])[..k + 1] == f;
    LastTimes(S, f + [e], x, u);
    LastTimes(S, f, x, u);
    LastTimes(S, g, v, u);
    TimesMinus(f[k], g[k], b, S.dot(v[k], u));
    assert f[..k] == g[..k];
    CombinationPrefix(S, g[..k], v, x);
  }

  lemma TimesMinus(c: real, a: real, b: real, x: real)
    requires c == a - b
    ensures Times(c, x) == Times(a, x) - Times(b, x)
  {
  }

  /** The images of the directions in the Lanczos vectors. */
  lemma ImageOf<V(!new)>(Q: Setting<V>, x0: V, t: seq<Iteration<V>>, k: nat, u: V)
    requires Ready(Q) && Run(Q, x0, t) && k < |t|
    requires t[k].n.rho != 0.0 || t[k].n.vt == Q.P.S.zero
    ensures var S, i := Q.P.S, t[k];
      S.dot(Q.P.A.mult(i.c.p), u) ==
      Times(i.c.beta, S.dot(i.c.v, u)) + Times(i.n.rho, S.dot(S.Scale(Quotient(1.0, i.n.rho), i.n.vt), u))
  {
    hide Valid, IsRoot, Run, Computed, Weighted, Directed, Updated, Sane, Begins, Sound, Quotient, Times, Space.Scale;
    var S, i := Q.P.S, t[k];
    SettingLaws(Q);
    PassAt(Q, x0, t, k);
    ComputedV(Q, i.h, i.c);
    if k == 0 {
      UpdatedParts(Q, i, true, i.d, i.s);
    } else {
      UpdatedParts(Q, i, false, t[k - 1].d, t[k - 1].s);
    }
    ExpandTimes(S, i.c.pt, i.c.beta, i.c.v, u);
    Normalised(S, i.n.rho, i.n.vt, u);
  }

  lemma Normalised<V(!new)>(S: Space<V>, rho: real, vt: V, u: V)
    requires InnerProduct(S) && (rho != 0.0 || vt == S.zero)
    ensures Times(rho, S.dot(S.Scale(Quotient(1.0, rho), vt), u)) == S.dot(vt, u)
  {
    hide InnerProduct, Quotient, Space.Scale;
    if rho != 0.0 {
      Unscaled(S, rho, S.Scale(Quotient(1.0, rho), vt), vt, u);
    } else {
      Zero(S, u);
    }
  }

  /** Every Lanczos vector before the last one was scaled by a nonzero rho. */
  lemma BasisLast<V>(Q: Setting<V>, x0: V, t: seq<Iteration<V>>)
    ensures var v, h := LanczosBasis(Q, x0, t), PendingHead(Q, x0, t);
      && v[|t|] == Q.P.S.Scale(Quotient(1.0, h.rho), h.vt)
      && (t == [] ==> v == [v[0]]) && (t != [] ==> v == LanczosBasis(Q, x0, t[..|t| - 1]) + [v[|t|]])
  {
  }

  lemma QuasiStep<V>(Q: Setting<V>, x0: V, t: seq<Iteration<V>>, c: seq<real>)
    requires |c| == |t| > 0
    ensures var k := |t| - 1;
      Quasi(Q, x0, t, c) == Push(Quasi(Q, x0, t[..k], c[..k]), t[k].c.beta, t[k].n.rho, c[k])
  {
  }

  lemma ReachStep<V(!new)>(Q: Setting<V>, x0: V, t: seq<Iteration<V>>, c: seq<real>)
    requires InnerProduct(Q.P.S) && |c| == |t| > 0
    ensures var k := |t| - 1; Reach(Q, x0, t, c) == Q.P.S.axpy(Reach(Q, x0, t[..k], c[..k]), c[k], t[k].c.p)
  {
    hide InnerProduct, Combination, Directions;
    var S, d, k := Q.P.S, Directions(t), |t| - 1;
    var before := Directions(t[..k]);
    var l, r := Reach(Q, x0, t, c), S.axpy(Reach(Q, x0, t[..k], c[..k]), c[k], t[k].c.p);
    CombinationPrefix(S, c[..k], before, d);
    forall u ensures S.dot(l, u) == S.dot(r, u) {
      LastTerm(S, c, d, u);
      Expand(S, x0, 1.0, Combination(S, c, d), u);
      Expand(S, Reach(Q, x0, t[..k], c[..k]), c[k], t[k].c.p, u);
      Expand(S, x0, 1.0, Combination(S, c[..k], before), u);
    }
    Same(S, l, r);
  }

  lemma ReachNothing<V(!new)>(Q: Setting<V>, x0: V)
    requires InnerProduct(Q.P.S)
    ensures Reach(Q, x0, [], []) == x0
  {
    hide InnerProduct;
    var S := Q.P.S;
    forall u ensures S.dot(S.axpy(x0, 1.0, S.zero), u) == S.dot(x0, u) {
      Expand(S, x0, 1.0, S.zero, u);
      Zero(S, u);
    }
    Same(S, S.axpy(x0, 1.0, S.zero), x0);
  }

  /** Only a zero vector may go unscaled; a nonsingular first preconditioner sees to that. */
  ghost predicate Scalable<V>(Q: Setting<V>, h: Head<V>) {
    h.rho != 0.0 || h.vt == Q.P.S.zero
  }

  lemma InjectiveScales<V(!new)>(Q: Setting<V>, x0: V, t: seq<Iteration<V>>)
    requires Ready(Q) && Injective(Q) && Run(Q, x0, t)
    ensures Scalable(Q, PendingHead(Q, x0, t))
  {
    hide Ready, Injective, Run, PendingHead;
    if PendingHead(Q, x0, t).rho == 0.0 {
      VectorVanishesLast(Q, x0, t);
    }
  }

  /** The residual of every x0 + c[0]*p[0] + ... has the coordinates Quasi(c). */
  lemma {:induction false} QuasiResidual<V(!new)>(Q: Setting<V>, x0: V, t: seq<Iteration<V>>, c: seq<real>)
    requires Ready(Q) && Run(Q, x0, t) && |c| == |t| && Scalable(Q, PendingHead(Q, x0, t))
    ensures Q.P.Residual(Reach(Q, x0, t, c)) == Combination(Q.P.S, Quasi(Q, x0, t, c), LanczosBasis(Q, x0, t))
    decreases |t|
  {
    hide Valid, IsRoot, Run, Sound, Times, Quasi, Push, Reach, LanczosBasis, Combination, Quotient, Pending, FirstHead,
      Problem.Residual, Space.Scale;
    SettingLaws(Q);
    var S := Q.P.S;
    var l, r := Q.P.Residual(Reach(Q, x0, t, c)), Combination(S, Quasi(Q, x0, t, c), LanczosBasis(Q, x0, t));
    BasisLast(Q, x0, t);
    if t == [] {
      ReachNothing(Q, x0);
      FirstCoordinates(Q, x0);
    } else {
      var k := |t| - 1;
      var before, v, g := Reach(Q, x0, t[..k], c[..k]), LanczosBasis(Q, x0, t[..k]), Quasi(Q, x0, t[..k], c[..k]);
      LastRho(Q, x0, t);
      Prefix(Q, x0, t, k);
      QuasiResidual(Q, x0, t[..k], c[..k]);
      BasisLast(Q, x0, t[..k]);
      QuasiStep(Q, x0, t, c);
      ReachStep(Q, x0, t, c);
      ResidualMoves(Q.P, before, c[k], t[k].c.p);
      assert v[k] == t[k].c.v && l == S.axpy(Combination(S, g, v), -c[k], Q.P.A.mult(t[k].c.p));
      var w, a, beta, rho := LanczosBasis(Q, x0, t)[k + 1], c[k], t[k].c.beta, t[k].n.rho;
      assert LanczosBasis(Q, x0, t) == v + [w];
      forall u ensures S.dot(l, u) == S.dot(r, u) {
        ImageOf(Q, x0, t, k, u);
        CoordinatesMove(S, g, v, a, beta, rho, Q.P.A.mult(t[k].c.p), w, u);
      }
      Same(S, l, r);
    }
  }

  /** The residual moves by -c times an image with the coordinates beta and rho. */
  lemma CoordinatesMove<V(!new)>(S: Space<V>, g: seq<real>, v: seq<V>, c: real, beta: real, rho: real, image: V, w: V,
        u: V)
    requires InnerProduct(S) && |g| == |v| > 0
    requires S.dot(image, u) == Times(beta, S.dot(v[|g| - 1], u)) + Times(rho, S.dot(w, u))
    ensures S.dot(S.axpy(Combination(S, g, v), -c, image), u) ==
      S.dot(Combination(S, Push(g, beta, rho, c), v + [w]), u)
  {
    hide InnerProduct, Combination, Push, Times;
    var b, e := beta * c, -rho * c;
    PushIs(g, beta, rho, c, b, e);
    ExpandTimes(S, Combination(S, g, v), c, image, u);
    Extended(S, g, v, b, e, w, u);
    MoveReals(S.dot(Combination(S, g, v), u), c, S.dot(image, u), beta, S.dot(v[|g| - 1], u), rho, S.dot(w, u), b, e,
      S.dot(S.axpy(Combination(S, g, v), -c, image), u), S.dot(Combination(S, Push(g, beta, rho, c), v + [w]), u));
  }

  lemma PushIs(g: seq<real>, beta: real, rho: real, c: real, b: real, e: real)
    requires g != [] && b == beta * c && e == -rho * c
    ensures Push(g, beta, rho, c) == g[|g| - 1 := g[|g| - 1] - b] + [e]
  {
  }

  lemma MoveReals(r: real, c: real, z: real, beta: real, v: real, rho: real, w: real, b: real, e: real, p: real,
        q: real)
    requires p == r - Times(c, z) && z == Times(beta, v) + Times(rho, w)
    requires b == beta * c && e == -rho * c && q == r - Times(b, v) + Times(e, w)
    ensures p == q
  {
    assert c * (beta * v) == b * v && c * (rho * w) == -(e * w);
  }

  lemma LastRho<V(!new)>(Q: Setting<V>, x0: V, t: seq<Iteration<V>>)
    requires Ready(Q) && Run(Q, x0, t) && t != []
    ensures var k := |t| - 1;
      var h := PendingHead(Q, x0, t[..k]);
      h.rho != 0.0 && t[k].c.v == Q.P.S.Scale(Quotient(1.0, h.rho), h.vt)
  {
    hide Ready, Run, Weighted, Directed, Updated, Sane, Begins, PendingHead, Quotient, Space.Scale;
    PassAt(Q, x0, t, |t| - 1);
  }

  lemma FirstCoordinates<V(!new)>(Q: Setting<V>, x0: V)
    requires InnerProduct(Q.P.S) && Scalable(Q, FirstHead(Q, x0))
    ensures var h := FirstHead(Q, x0);
      Q.P.Residual(x0) == Combination(Q.P.S, [h.rho], [Q.P.S.Scale(Quotient(1.0, h.rho), h.vt)])
    ensures Quasi(Q, x0, [], []) == [FirstHead(Q, x0).rho]
  {
    hide InnerProduct, Combination, Quotient, Problem.Residual, Space.Scale;
    var S, h := Q.P.S, FirstHead(Q, x0);
    var v := [S.Scale(Quotient(1.0, h.rho), h.vt)];
    forall u ensures S.dot(h.vt, u) == S.dot(Combination(S, [h.rho], v), u) {
      LastTerm(S, [h.rho], v, u);
      assert [h.rho][..0] == [];
      EmptyCombination(S, v);
      Zero(S, u);
      Normalised(S, h.rho, h.vt, u);
    }
    Same(S, h.vt, Combination(S, [h.rho], v));
  }

  // The coefficients of QMR's own iterate

  function ScaleAll(f: real, a: seq<real>): (b: seq<real>)
    ensures |b| == |a| && forall i :: 0 <= i < |a| ==> b[i] == f * a[i]
  {
    if a == [] then [] else ScaleAll(f, a[..|a| - 1]) + [f * a[|a| - 1]]
  }

  function AddAll(a: seq<real>, b: seq<real>): (c: seq<real>)
    requires |a| == |b|
    ensures |c| == |a| && forall i :: 0 <= i < |a| ==> c[i] == a[i] + b[i]
  {
    if a == [] then [] else AddAll(a[..|a| - 1], b[..|b| - 1]) + [a[|a| - 1] + b[|b| - 1]]
  }

  /** The last update d as a combination of the directions. */
  function UpdateCoefficients<V>(t: seq<Iteration<V>>): (c: seq<real>)
    ensures |c| == |t|
  {
    if t == [] then []
    else
      var i := t[|t| - 1];
      ScaleAll(i.f, UpdateCoefficients(t[..|t| - 1])) + [i.n.eta]
  }

  /** The sum of all updates. */
  function OwnCoefficients<V>(t: seq<Iteration<V>>): (c: seq<real>)
    ensures |c| == |t|
  {
    if t == [] then [] else AddAll(OwnCoefficients(t[..|t| - 1]) + [0.0], UpdateCoefficients(t))
  }

  lemma {:induction false} SumOfCombinations<V(!new)>(S: Space<V>, a: seq<real>, b: seq<real>, v: seq<V>, u: V)
    requires InnerProduct(S) && |a| == |b| <= |v|
    ensures S.dot(Combination(S, AddAll(a, b), v), u) == S.dot(Combination(S, a, v), u) + S.dot(Combination(S, b, v), u)
    decreases |a|
  {
    hide InnerProduct, Combination, AddAll;
    if a == [] {
      EmptyCombination(S, v);
      Zero(S, u);
    } else {
      var k := |a| - 1;
      assert AddAll(a, b)[..k] == AddAll(a[..k], b[..k]);
      SumOfCombinations(S, a[..k], b[..k], v, u);
      LastTerm(S, a, v, u);
      LastTerm(S, b, v, u);
      LastTerm(S, AddAll(a, b), v, u);
      SumTimes(AddAll(a, b)[k], a[k], b[k], S.dot(v[k], u));
    }
  }

  lemma SumTimes(c: real, a: real, b: real, x: real)
    requires c == a + b
    ensures c * x == a * x + b * x
  {
  }

  lemma ScaledCombination<V(!new)>(S: Space<V>, f: real, a: seq<real>, v: seq<V>, u: V)
    requires InnerProduct(S) && |a| <= |v|
    ensures S.dot(Combination(S, ScaleAll(f, a), v), u) == f * S.dot(Combination(S, a, v), u)
  {
    hide InnerProduct, Combination;
    var zeros := ScaleAll(0.0, a);
    Coefficients(S, ScaleAll(f, a), zeros, -f, a, v, u);
    Annihilated(S, zeros, v, u);
  }

  /** One update, from the one before. */
  lemma UpdateStep<V(!new)>(S: Space<V>, a: seq<real>, v: seq<V>, w: seq<V>, f: real, eta: real, p: V, d: V,
        first: bool, o: V, u: V)
    requires InnerProduct(S) && |v| == |a| && w == v + [p]
    requires d == if first then S.Scale(eta, p) else S.axpy(S.Scale(eta, p), f, o)
    requires if first then a == [] else o == Combination(S, a, v)
    ensures S.dot(d, u) == S.dot(Combination(S, ScaleAll(f, a) + [eta], w), u)
  {
    hide InnerProduct, Combination, Space.Scale;
    var c := ScaleAll(f, a) + [eta];
    LastTerm(S, c, w, u);
    assert c[..|a|] == ScaleAll(f, a);
    CombinationPrefix(S, ScaleAll(f, a), v, w);
    ScaledCombination(S, f, a, v, u);
    ExpandScale(S, eta, p, u);
    Expand(S, S.Scale(eta, p), f, o, u);
    EmptyCombination(S, v);
    Zero(S, u);
  }

  /** The update of the last pass is the combination UpdateCoefficients of the directions. */
  lemma {:induction false} UpdateReached<V(!new)>(Q: Setting<V>, x0: V, t: seq<Iteration<V>>)
    requires Ready(Q) && Run(Q, x0, t) && t != []
    ensures t[|t| - 1].d == Combination(Q.P.S, UpdateCoefficients(t), Directions(t))
    decreases |t|
  {
    hide Valid, IsRoot, Run, Computed, Weighted, Directed, Sane, Begins, Sound, Combination, Pending, Space.Scale;
    SettingLaws(Q);
    var S, k := Q.P.S, |t| - 1;
    var o := if k == 0 then t[k].d else t[k - 1].d;
    PassAt(Q, x0, t, k);
    if k > 0 {
      Prefix(Q, x0, t, k);
      UpdateReached(Q, x0, t[..k]);
    }
    assert Directions(t) == Directions(t[..k]) + [t[k].c.p];
    forall u ensures S.dot(t[k].d, u) == S.dot(Combination(S, UpdateCoefficients(t), Directions(t)), u) {
      UpdateStep(S, UpdateCoefficients(t[..k]), Directions(t[..k]), Directions(t), t[k].f, t[k].n.eta, t[k].c.p, t[k].d,
        k == 0, o, u);
    }
    Same(S, t[k].d, Combination(S, UpdateCoefficients(t), Directions(t)));
  }

  /** QMR's own iterate is x0 plus the combination OwnCoefficients of the directions. */
  lemma {:induction false} OwnReached<V(!new)>(Q: Setting<V>, x0: V, t: seq<Iteration<V>>)
    requires Ready(Q) && Run(Q, x0, t)
    ensures PendingHead(Q, x0, t).x == Reach(Q, x0, t, OwnCoefficients(t))
    decreases |t|
  {
    hide Valid, IsRoot, Run, Computed, Weighted, Directed, Sane, Begins, Sound, Combination, Pending, Reach, Directions,
      UpdateCoefficients;
    SettingLaws(Q);
    if t == [] {
      ReachNothing(Q, x0);
    } else {
      var k := |t| - 1;
      PassAt(Q, x0, t, k);
      Prefix(Q, x0, t, k);
      OwnReached(Q, x0, t[..k]);
      UpdateReached(Q, x0, t);
      ReachAdds(Q, x0, t, OwnCoefficients(t[..k]), UpdateCoefficients(t));
    }
  }

  lemma ReachAdds<V(!new)>(Q: Setting<V>, x0: V, t: seq<Iteration<V>>, a: seq<real>, b: seq<real>)
    requires InnerProduct(Q.P.S) && |t| == |b| == |a| + 1
    ensures Reach(Q, x0, t, AddAll(a + [0.0], b)) ==
      Q.P.S.axpy(Reach(Q, x0, t[..|a|], a), 1.0, Combination(Q.P.S, b, Directions(t)))
  {
    hide InnerProduct, Combination, Directions;
    var S, d, before := Q.P.S, Directions(t), Directions(t[..|a|]);
    var c, e := AddAll(a + [0.0], b), Combination(S, b, d);
    var l, r := Reach(Q, x0, t, c), S.axpy(Reach(Q, x0, t[..|a|], a), 1.0, e);
    ZeroLast(S, a, d);
    CombinationPrefix(S, a, before, d);
    forall u ensures S.dot(l, u) == S.dot(r, u) {
      SumOfCombinations(S, a + [0.0], b, d, u);
      Expand(S, x0, 1.0, Combination(S, c, d), u);
      Expand(S, Reach(Q, x0, t[..|a|], a), 1.0, e, u);
      Expand(S, x0, 1.0, Combination(S, a, before), u);
    }
    Same(S, l, r);
  }

  // Its coordinates

  /** Place i of a coordinate sequence, zero beyond its end. */
  function At(g: seq<real>, i: nat): real {
    if i < |g| then g[i] else 0.0
  }

  /** The column with beta in place k and rho in the next, at place i. */
  function Place(beta: real, rho: real, k: nat, i: nat): real {
    if i == k then beta else if i == k + 1 then rho else 0.0
  }

  /** How the coordinates of the residual change along a combination of the directions. */
  function Change<V>(t: seq<Iteration<V>>, c: seq<real>): (b: seq<real>)
    requires |c| == |t|
    ensures |b| == |t| + 1
  {
    if t == [] then [0.0]
    else
      var k := |t| - 1;
      Push(Change(t[..k], c[..k]), t[k].c.beta, t[k].n.rho, c[k])
  }

  lemma PushAt(g: seq<real>, beta: real, rho: real, c: real, i: nat)
    requires g != []
    ensures At(Push(g, beta, rho, c), i) == At(g, i) - Times(c, Place(beta, rho, |g| - 1, i))
  {
    var b, e := beta * c, -rho * c;
    PushIs(g, beta, rho, c, b, e);
    assert c * rho == -e && c * 0.0 == 0.0;
  }

  lemma QuasiAt<V>(Q: Setting<V>, x0: V, t: seq<Iteration<V>>, c: seq<real>, i: nat)
    requires |c| == |t| > 0
    ensures var k := |t| - 1;
      At(Quasi(Q, x0, t, c), i) ==
      At(Quasi(Q, x0, t[..k], c[..k]), i) - Times(c[k], Place(t[k].c.beta, t[k].n.rho, k, i))
  {
    hide FirstHead, Quasi, Push, At, Place, Times;
    var k := |t| - 1;
    QuasiStep(Q, x0, t, c);
    PushAt(Quasi(Q, x0, t[..k], c[..k]), t[k].c.beta, t[k].n.rho, c[k], i);
  }

  lemma ChangeAt<V>(t: seq<Iteration<V>>, c: seq<real>, i: nat)
    requires |c| == |t| > 0
    ensures var k := |t| - 1;
      At(Change(t, c), i) == At(Change(t[..k], c[..k]), i) - Times(c[k], Place(t[k].c.beta, t[k].n.rho, k, i))
  {
    hide Push, At, Place, Times;
    var k := |t| - 1;
    PushAt(Change(t[..k], c[..k]), t[k].c.beta, t[k].n.rho, c[k], i);
  }

  lemma TimesLinear(a: real, b: real, f: real, x: real)
    ensures Times(a + b, x) == Times(a, x) + Times(b, x)
    ensures Times(f * a, x) == Times(f, Times(a, x))
    ensures Times(0.0, x) == 0.0
    ensures Times(f, a - b) == Times(f, a) - Times(f, b)
    ensures Times(f, 0.0) == 0.0
  {
  }

  lemma {:induction false} QuasiAdds<V>(Q: Setting<V>, x0: V, t: seq<Iteration<V>>, a: seq<real>, b: seq<real>, i: nat)
    requires |a| == |b| == |t|
    ensures At(Quasi(Q, x0, t, AddAll(a, b)), i) == At(Quasi(Q, x0, t, a), i) + At(Change(t, b), i)
    decreases |t|
  {
    if t == [] {
      QuasiEmpty(Q, x0, a, b, i);
    } else {
      hide FirstHead, Quasi, Change, At, Place, AddAll, Times;
      var k := |t| - 1;
      assert AddAll(a, b)[..k] == AddAll(a[..k], b[..k]);
      QuasiAdds(Q, x0, t[..k], a[..k], b[..k], i);
      QuasiAt(Q, x0, t, AddAll(a, b), i);
      QuasiAt(Q, x0, t, a, i);
      ChangeAt(t, b, i);
      TimesLinear(a[k], b[k], 0.0, Place(t[k].c.beta, t[k].n.rho, k, i));
      assert AddAll(a, b)[k] == a[k] + b[k];
    }
  }

  lemma QuasiEmpty<V>(Q: Setting<V>, x0: V, a: seq<real>, b: seq<real>, i: nat)
    requires |a| == |b| == 0
    ensures At(Quasi(Q, x0, [], AddAll(a, b)), i) == At(Quasi(Q, x0, [], a), i) + At(Change<V>([], b), i)
  {
    hide FirstHead;
  }

  lemma {:induction false} ChangeScales<V>(t: seq<Iteration<V>>, f: real, c: seq<real>, i: nat)
    requires |c| == |t|
    ensures At(Change(t, ScaleAll(f, c)), i) == Times(f, At(Change(t, c), i))
    decreases |t|
  {
    if t != [] {
      hide Change, At, Place, ScaleAll, Times;
      var k := |t| - 1;
      var x := Place(t[k].c.beta, t[k].n.rho, k, i);
      assert ScaleAll(f, c)[..k] == ScaleAll(f, c[..k]);
      ChangeScales(t[..k], f, c[..k], i);
      ChangeAt(t, ScaleAll(f, c), i);
      ChangeAt(t, c, i);
      assert ScaleAll(f, c)[k] == f * c[k];
      TimesLinear(c[k], 0.0, f, x);
      TimesLinear(At(Change(t[..k], c[..k]), i), Times(c[k], x), f, x);
    } else {
      ScaleEmpty<V>(f, c, i);
    }
  }

  lemma ScaleEmpty<V>(f: real, c: seq<real>, i: nat)
    requires c == []
    ensures At(Change<V>([], ScaleAll(f, c)), i) == 0.0 == Times(f, At(Change<V>([], c), i))
  {
  }

  lemma Recursions<V>(t: seq<Iteration<V>>)
    requires t != []
    ensures var k, o := |t| - 1, t[|t| - 1];
      && UpdateCoefficients(t) == ScaleAll(o.f, UpdateCoefficients(t[..k])) + [o.n.eta]
      && OwnCoefficients(t) == AddAll(OwnCoefficients(t[..k]) + [0.0], UpdateCoefficients(t))
  {
  }

  /** The change along the update d, which is -s, place by place. */
  lemma UpdateAt<V>(t: seq<Iteration<V>>, i: nat)
    requires t != []
    ensures var k, o := |t| - 1, t[|t| - 1];
      At(Change(t, UpdateCoefficients(t)), i) ==
      Times(o.f, At(Change(t[..k], UpdateCoefficients(t[..k])), i)) - Times(o.n.eta, Place(o.c.beta, o.n.rho, k, i))
  {
    hide UpdateCoefficients, ScaleAll, Change, At, Place, Times;
    var k, o := |t| - 1, t[|t| - 1];
    var d := ScaleAll(o.f, UpdateCoefficients(t[..k]));
    Recursions(t);
    assert (d + [o.n.eta])[..k] == d;
    ChangeAt(t, d + [o.n.eta], i);
    ChangeScales(t[..k], o.f, UpdateCoefficients(t[..k]), i);
  }

  /** The coordinates of QMR's residual, place by place. */
  lemma OwnAt<V>(Q: Setting<V>, x0: V, t: seq<Iteration<V>>, i: nat)
    requires t != []
    ensures var k := |t| - 1;
      At(Quasi(Q, x0, t, OwnCoefficients(t)), i) ==
      At(Quasi(Q, x0, t[..k], OwnCoefficients(t[..k])), i) + At(Change(t, UpdateCoefficients(t)), i)
  {
    hide FirstHead, UpdateCoefficients, OwnCoefficients, AddAll, Quasi, Change, At, Place, Times;
    var k, c := |t| - 1, OwnCoefficients(t[..|t| - 1]);
    Recursions(t);
    QuasiAdds(Q, x0, t, c + [0.0], UpdateCoefficients(t), i);
    assert (c + [0.0])[..k] == c;
    QuasiAt(Q, x0, t, c + [0.0], i);
    TimesLinear(0.0, 0.0, 0.0, Place(t[k].c.beta, t[k].n.rho, k, i));
  }

  /**
    The coordinates of the residual, told by those of the Galerkin residual: they differ by theta^2 times the update.
   */
  ghost predicate Aligned<V>(Q: Setting<V>, x0: V, t: seq<Iteration<V>>, i: nat) {
    var h := PendingHead(Q, x0, t);
    At(Quasi(Q, x0, t, OwnCoefficients(t)), i) + Times(StepLength(h), Place(h.rho, 0.0, |t|, i)) ==
    -Times(Sqr(h.theta), At(Change(t, UpdateCoefficients(t)), i))
  }

  lemma AlignedStart<V>(Q: Setting<V>, x0: V, i: nat)
    requires FirstHead(Q, x0).gamma == 1.0 && FirstHead(Q, x0).eta == -1.0 && FirstHead(Q, x0).theta == 0.0
    ensures Aligned(Q, x0, [], i)
  {
    var h := FirstHead(Q, x0);
    assert StepLength(h) == -1.0;
    assert Change<V>([], []) == [0.0] && Quasi(Q, x0, [], []) == [h.rho];
  }

  /** The coordinates shrink by 1 - gamma^2, and one is added. */
  ghost predicate Shrunk<V>(Q: Setting<V>, x0: V, t: seq<Iteration<V>>, i: nat)
    requires t != []
  {
    var k, n := |t| - 1, t[|t| - 1].n;
    At(Quasi(Q, x0, t, OwnCoefficients(t)), i) ==
    Times(1.0 - Sqr(n.gamma), At(Quasi(Q, x0, t[..k], OwnCoefficients(t[..k])), i)) -
    Times(n.eta, Place(n.rho, 0.0, k + 1, i))
  }

  /** What every pass does to the coordinates. */
  lemma {:induction false} OwnCoordinates<V(!new)>(Q: Setting<V>, x0: V, t: seq<Iteration<V>>, i: nat)
    requires Ready(Q) && Run(Q, x0, t)
    ensures Aligned(Q, x0, t, i) && (t != [] ==> Shrunk(Q, x0, t, i))
    decreases |t|
  {
    hide Valid, IsRoot, Run, Computed, Weighted, Directed, Updated, Sane, Begins, Sound, Pending, FirstHead, Aligned,
      Shrunk, Related;
    if t == [] {
      PendingPass(Q, x0, []);
      StartScalars(Q, x0, FirstHead(Q, x0));
      AlignedStart(Q, x0, i);
    } else {
      var k := |t| - 1;
      PassAt(Q, x0, t, k);
      Prefix(Q, x0, t, k);
      OwnCoordinates(Q, x0, t[..k], i);
      PassRelations(Q, x0, t);
      CoordinateStep(Q, x0, t, i);
    }
  }

  lemma StartScalars<V>(Q: Setting<V>, x0: V, h: Head<V>)
    requires Begins(Q, x0, h)
    ensures h.gamma == 1.0 && h.eta == -1.0 && h.theta == 0.0
  {
  }

  /** The scalars of a pass. */
  ghost predicate Related<V>(o: Iteration<V>) {
    && Times(StepLength(o.n), o.c.beta) == -Times(StepLength(o.h), o.h.rho)
    && o.n.eta == Times(Sqr(o.n.gamma), StepLength(o.n)) && o.f == Times(Sqr(o.h.theta), Sqr(o.n.gamma))
    && Times(Sqr(o.n.gamma), 1.0 + Sqr(o.n.theta)) == 1.0
  }

  lemma PassRelations<V(!new)>(Q: Setting<V>, x0: V, t: seq<Iteration<V>>)
    requires Ready(Q) && Run(Q, x0, t) && t != []
    ensures Related(t[|t| - 1])
  {
    hide Valid, IsRoot, Run, Computed, Weighted, Directed, Updated, Sane, Begins, Sound, Sqr, StepLength;
    var k := |t| - 1;
    PassAt(Q, x0, t, k);
    DivisorsOf(Q, t[k]);
    if k == 0 {
      GalerkinStep(Q, t[0], true, t[0].d, t[0].s);
    } else {
      GalerkinStep(Q, t[k], false, t[k - 1].d, t[k - 1].s);
    }
  }

  lemma CoordinateStep<V(!new)>(Q: Setting<V>, x0: V, t: seq<Iteration<V>>, i: nat)
    requires t != [] && t[|t| - 1].h == PendingHead(Q, x0, t[..|t| - 1]) && Related(t[|t| - 1])
    requires Aligned(Q, x0, t[..|t| - 1], i)
    ensures Aligned(Q, x0, t, i) && Shrunk(Q, x0, t, i)
  {
    hide FirstHead, UpdateCoefficients, OwnCoefficients, Quasi, Change, At, Place, Times, Sqr, StepLength;
    var k, o := |t| - 1, t[|t| - 1];
    var h, n := o.h, o.n;
    OwnAt(Q, x0, t, i);
    UpdateAt(t, i);
    Places(o.c.beta, h.rho, n.rho, k, i);
    CoordinateReals(At(Quasi(Q, x0, t[..k], OwnCoefficients(t[..k])), i), Place(h.rho, 0.0, k, i), StepLength(h),
      At(Change(t[..k], UpdateCoefficients(t[..k])), i), Sqr(h.theta), Sqr(n.gamma), Place(o.c.beta, n.rho, k, i),
      Place(1.0, 0.0, k, i), Place(n.rho, 0.0, k + 1, i), At(Change(t, UpdateCoefficients(t)), i),
      At(Quasi(Q, x0, t, OwnCoefficients(t)), i), StepLength(n), o.c.beta, h.rho, o.f, n.eta, Sqr(n.theta));
  }

  /** MeanStep, with the change of the residual in place of the update. */
  lemma CoordinateReals(r: real, vt: real, g: real, b: real, T: real, G: real, pt: real, v: real, vt': real, b': real,
        r': real, g': real, beta: real, rho: real, f: real, eta: real, T': real)
    requires r + Times(g, vt) == -Times(T, b) && vt' == pt - Times(beta, v) && Times(rho, v) == vt
    requires Times(g', beta) == -Times(g, rho) && f == Times(T, G) && eta == Times(G, g') && Times(G, 1.0 + T') == 1.0
    requires b' == Times(f, b) - Times(eta, pt) && r' == r + b'
    ensures r' == Times(1.0 - G, r) - Times(eta, vt')
    ensures r' + Times(g', vt') == -Times(T', b')
  {
    assert T * -b == -(T * b) && T' * -b' == -(T' * b') && f * -b == -(f * b);
    MeanStep(r, vt, g, -b, T, G, pt, v, vt', -b', g', beta, rho, f, eta, T');
  }

  /** The coordinates of the Lanczos vectors themselves. */
  lemma Places(beta: real, rho: real, rho': real, k: nat, i: nat)
    ensures Place(rho', 0.0, k + 1, i) == Place(beta, rho', k, i) - Times(beta, Place(1.0, 0.0, k, i))
    ensures Times(rho, Place(1.0, 0.0, k, i)) == Place(rho, 0.0, k, i)
  {
  }

  // The normal equations

  /** The coordinates g are orthogonal to the image of every direction: no coefficient can be improved. */
  ghost predicate Balanced<V>(t: seq<Iteration<V>>, g: seq<real>) {
    |g| > |t| && forall j :: 0 <= j < |t| ==> Times(t[j].c.beta, g[j]) + Times(t[j].n.rho, g[j + 1]) == 0.0
  }

  /** The last coordinate. */
  lemma LastCoordinate<V(!new)>(Q: Setting<V>, x0: V, t: seq<Iteration<V>>)
    requires Ready(Q) && Run(Q, x0, t)
    ensures var h := PendingHead(Q, x0, t); Quasi(Q, x0, t, OwnCoefficients(t))[|t|] == -Times(h.eta, h.rho)
  {
    hide Valid, IsRoot, Run, Begins, Pending, FirstHead, Aligned, OwnCoefficients, Quasi, Times, Sqr;
    if t == [] {
      PendingPass(Q, x0, []);
      StartScalars(Q, x0, FirstHead(Q, x0));
      StartCoordinates(Q, x0, FirstHead(Q, x0).eta);
    } else {
      OwnCoordinates(Q, x0, t, |t|);
      TimesLinear(0.0, 0.0, 1.0 - Sqr(t[|t| - 1].n.gamma), 0.0);
    }
  }

  lemma StartCoordinates<V>(Q: Setting<V>, x0: V, eta: real)
    requires eta == -1.0
    ensures Quasi(Q, x0, [], OwnCoefficients<V>([])) == [FirstHead(Q, x0).rho]
    ensures -Times(eta, FirstHead(Q, x0).rho) == FirstHead(Q, x0).rho
  {
    hide FirstHead;
  }

  /** The scalars theta, gamma and eta are chosen to balance the last two coordinates. */
  lemma LastBalance<V(!new)>(Q: Setting<V>, i: Iteration<V>)
    requires Ready(Q) && Sane(Q, i.h) && Sound(i) && Computed(Q, i.h, i.c) && Weighted(Q, i)
    ensures Times(i.c.beta, Times(1.0 - Sqr(i.n.gamma), -Times(i.h.eta, i.h.rho))) +
            Times(i.n.rho, -Times(i.n.eta, i.n.rho)) == 0.0
  {
    hide Valid, IsRoot, Sane, Computed, Sqr, Quotient, Theta, Gamma, Weight, Times;
    ComputedBeta(Q, i.h, i.c);
    DivisorsOf(Q, i);
    NonzeroProduct(i.h.gamma, i.c.beta);
    NonzeroProduct(i.c.beta, Sqr(i.h.gamma));
    EtaIs(i.h.eta, i.h.rho, i.n.gamma, i.c.beta, i.h.gamma);
    ThetaTimes(i.n.rho, i.h.gamma, i.c.beta);
    BalanceReals(i.h.eta, i.h.rho, Sqr(i.n.gamma), i.c.beta, Sqr(i.h.gamma), i.n.rho, Sqr(i.n.theta), i.n.eta);
  }

  lemma ThetaTimes(rho: real, gamma1: real, beta: real)
    requires gamma1 * beta != 0.0
    ensures Sqr(Theta(rho, gamma1, beta)) * Sqr(gamma1) * (beta * beta) == rho * rho
  {
    hide Quotient;
    var x := Theta(rho, gamma1, beta);
    QuotientTimes(rho, gamma1 * beta);
    assert x * (gamma1 * beta) == rho;
    assert (x * x) * (gamma1 * gamma1) * (beta * beta) == (x * (gamma1 * beta)) * (x * (gamma1 * beta));
  }

  lemma BalanceReals(eta: real, rho: real, G: real, beta: real, S1: real, rho': real, T: real, eta': real)
    requires G * (1.0 + T) == 1.0 && eta' * (beta * S1) == -eta * rho * G && T * S1 * (beta * beta) == rho' * rho'
    ensures Times(beta, Times(1.0 - G, -Times(eta, rho))) + Times(rho', -Times(eta', rho')) == 0.0
  {
    var n, e := -Times(eta, rho), eta' * (beta * S1);
    Shares(G, T, eta, rho, e);
    var y, z := Times(1.0 - G, n), -Times(eta', rho');
    assert y == T * e && z == -(eta' * rho');
    Cancel(beta, y, T, e, eta', S1, rho', z);
  }

  /** The share 1 - G of what the last coordinate was. */
  lemma Shares(G: real, T: real, eta: real, rho: real, e: real)
    requires G * (1.0 + T) == 1.0 && e == -eta * rho * G
    ensures Times(1.0 - G, -Times(eta, rho)) == T * e
  {
    var n := -Times(eta, rho);
    assert G * (1.0 + T) == G + G * T;
    assert G * (eta * rho) == eta * rho * G;
    assert n == -(eta * rho);
    TimesProduct(1.0 - G, G, T, n, e);
  }

  lemma TimesProduct(x: real, G: real, T: real, n: real, e: real)
    requires x == G * T && e == G * n
    ensures Times(x, n) == T * e
  {
    assert (G * T) * n == T * (G * n);
  }

  lemma Cancel(beta: real, y: real, T: real, e: real, eta': real, S1: real, rho': real, z: real)
    requires y == T * e && e == eta' * (beta * S1) && T * S1 * (beta * beta) == rho' * rho' && z == -(eta' * rho')
    ensures Times(beta, y) + Times(rho', z) == 0.0
  {
    var q := T * S1 * (beta * beta);
    assert beta * (T * (eta' * (beta * S1))) == eta' * q;
    assert rho' * -(eta' * rho') == -(eta' * (rho' * rho'));
  }

  /** The coordinates of QMR's own residual satisfy the normal equations. */
  lemma {:induction false} OwnBalanced<V(!new)>(Q: Setting<V>, x0: V, t: seq<Iteration<V>>)
    requires Ready(Q) && Run(Q, x0, t)
    ensures Balanced(t, Quasi(Q, x0, t, OwnCoefficients(t)))
    decreases |t|
  {
    hide Valid, IsRoot, Run, Computed, Weighted, Directed, Updated, Sane, Begins, Sound, Pending, FirstHead,
      OwnCoefficients, Quasi, Times, Sqr;
    if t != [] {
      var k := |t| - 1;
      Prefix(Q, x0, t, k);
      OwnBalanced(Q, x0, t[..k]);
      PassAt(Q, x0, t, k);
      LastCoordinate(Q, x0, t[..k]);
      LastBalance(Q, t[k]);
      LastCoordinate(Q, x0, t);
      forall j | 0 <= j < |t|
        ensures Times(t[j].c.beta, Quasi(Q, x0, t, OwnCoefficients(t))[j]) +
                Times(t[j].n.rho, Quasi(Q, x0, t, OwnCoefficients(t))[j + 1]) == 0.0
      {
        ShrunkAt(Q, x0, t, j);
        if j < k {
          ShrunkAt(Q, x0, t, j + 1);
          var g := Quasi(Q, x0, t[..k], OwnCoefficients(t[..k]));
          ShrunkBalance(t[j].c.beta, t[j].n.rho, 1.0 - Sqr(t[k].n.gamma), g[j], g[j + 1]);
        }
      }
    }
  }

  lemma ShrunkAt<V(!new)>(Q: Setting<V>, x0: V, t: seq<Iteration<V>>, j: nat)
    requires Ready(Q) && Run(Q, x0, t) && j < |t|
    ensures Quasi(Q, x0, t, OwnCoefficients(t))[j] ==
      Times(1.0 - Sqr(t[|t| - 1].n.gamma), Quasi(Q, x0, t[..|t| - 1], OwnCoefficients(t[..|t| - 1]))[j])
  {
    hide Valid, IsRoot, Run, FirstHead, Aligned, OwnCoefficients, Quasi, Times, Sqr;
    OwnCoordinates(Q, x0, t, j);
    TimesLinear(0.0, 0.0, t[|t| - 1].n.eta, 0.0);
  }

  lemma ShrunkBalance(beta: real, rho: real, f: real, a: real, b: real)
    requires Times(beta, a) + Times(rho, b) == 0.0
    ensures Times(beta, Times(f, a)) + Times(rho, Times(f, b)) == 0.0
  {
    assert f * (beta * a + rho * b) == beta * (f * a) + rho * (f * b);
  }

  // The minimum

  lemma {:induction false} ProductsPush(g: seq<real>, beta: real, rho: real, c: real, w: seq<real>)
    requires g != [] && |g| < |w| && Times(beta, w[|g| - 1]) + Times(rho, w[|g|]) == 0.0
    ensures SumOfProducts(Push(g, beta, rho, c), w) == SumOfProducts(g, w)
  {
    hide SumOfProducts, Push;
    var k, b, e := |g| - 1, beta * c, -rho * c;
    var f := g[k := g[k] - b];
    PushIs(g, beta, rho, c, b, e);
    ProductsLast(f + [e], w);
    assert (f + [e])[..k + 1] == f;
    ProductsLast(f, w);
    ProductsLast(g, w);
    assert f[..k] == g[..k];
    PushReals(g[k], b, w[k], e, w[k + 1], beta, rho, c);
  }

  lemma ProductsLast(c: seq<real>, d: seq<real>)
    requires 0 < |c| <= |d|
    ensures SumOfProducts(c, d) == SumOfProducts(c[..|c| - 1], d) + c[|c| - 1] * d[|c| - 1]
  {
  }

  lemma PushReals(x: real, b: real, y: real, e: real, z: real, beta: real, rho: real, c: real)
    requires b == beta * c && e == -rho * c && Times(beta, y) + Times(rho, z) == 0.0
    ensures (x - b) * y + e * z == x * y
  {
    assert b * y - e * z == c * (beta * y + rho * z);
  }

  /** All coordinate sequences have the same product with a balanced one. */
  lemma {:induction false} SameProduct<V>(Q: Setting<V>, x0: V, t: seq<Iteration<V>>, c: seq<real>, g: seq<real>)
    requires |c| == |t| && Balanced(t, g)
    ensures SumOfProducts(Quasi(Q, x0, t, c), g) == FirstHead(Q, x0).rho * g[0]
    decreases |t|
  {
    hide FirstHead, Quasi, Push, Times, SumOfProducts;
    if t == [] {
      QuasiNone(Q, x0, c);
      ProductsLast(Quasi(Q, x0, t, c), g);
      ProductsNone(Quasi(Q, x0, t, c)[..0], g);
    } else {
      var k := |t| - 1;
      SameProduct(Q, x0, t[..k], c[..k], g);
      QuasiStep(Q, x0, t, c);
      ProductsPush(Quasi(Q, x0, t[..k], c[..k]), t[k].c.beta, t[k].n.rho, c[k], g);
    }
  }

  lemma QuasiNone<V>(Q: Setting<V>, x0: V, c: seq<real>)
    requires c == []
    ensures Quasi(Q, x0, [], c) == [FirstHead(Q, x0).rho]
  {
    hide FirstHead;
  }

  lemma ProductsNone(c: seq<real>, d: seq<real>)
    requires c == []
    ensures SumOfProducts(c, d) == 0.0
  {
  }

  /** The squared distance of two sequences is not negative, and zero only if they are the same. */
  lemma {:induction false} Distance(a: seq<real>, g: seq<real>)
    requires |a| <= |g|
    ensures var d := SumOfSquares(a) - 2.0 * SumOfProducts(a, g) + SumOfSquares(g[..|a|]);
      d >= 0.0 && (d == 0.0 ==> a == g[..|a|])
    decreases |a|
  {
    if a != [] {
      var k := |a| - 1;
      Distance(a[..k], g);
      assert g[..|a|][..k] == g[..k];
      var x, y := a[k], g[k];
      assert Sqr(x - y) == x * x - 2.0 * (x * y) + y * y;
    }
  }

  lemma {:induction false} ProductWithItself(g: seq<real>, h: seq<real>)
    requires |g| <= |h| && h[..|g|] == g
    ensures SumOfProducts(g, h) == SumOfSquares(g)
    decreases |g|
  {
    if g != [] {
      var k := |g| - 1;
      assert h[..k] == h[..|g|][..k];
      assert h[k] == h[..|g|][k];
      ProductWithItself(g[..k], h);
    }
  }

  /**
    QMR's iterate minimises the sum of squares of the coordinates of the residual over x0 plus the span of the
    directions.
   */
  lemma Minimises<V(!new)>(Q: Setting<V>, x0: V, t: seq<Iteration<V>>, c: seq<real>)
    requires Ready(Q) && Run(Q, x0, t) && |c| == |t|
    ensures PendingHead(Q, x0, t).x == Reach(Q, x0, t, OwnCoefficients(t))
    ensures var g, a := Quasi(Q, x0, t, OwnCoefficients(t)), Quasi(Q, x0, t, c);
      SumOfSquares(g) <= SumOfSquares(a) && (SumOfSquares(g) == SumOfSquares(a) ==> a == g)
  {
    hide Ready, Run, FirstHead, PendingHead, Quasi, OwnCoefficients, Balanced, Reach, SumOfProducts, SumOfSquares;
    var g, a := Quasi(Q, x0, t, OwnCoefficients(t)), Quasi(Q, x0, t, c);
    OwnReached(Q, x0, t);
    OwnBalanced(Q, x0, t);
    SameProduct(Q, x0, t, c, g);
    SameProduct(Q, x0, t, OwnCoefficients(t), g);
    assert g[..|g|] == g;
    ProductWithItself(g, g);
    Distance(a, g);
  }
}
