/** iml/cg.h: the preconditioned conjugate gradient method. */
module CG {
  import opened Reals
  import opened VectorSpaces
  import opened Systems
  import opened Combinations
  import BiCG
  import Lanczos

  /** One pass through the loop: x and r as the pass finds them, then everything it computes. */
  datatype Iteration<V> = Iteration(x: V, r: V, z: V, rho: real, beta: real, p: V, q: V, alpha: real)

  function First<V>(P: Problem<V>, x0: V): Iteration<V> {
    var r := P.Residual(x0);
    var z := P.M.solve(r);
    Finish(P, x0, r, z, 0.0, z)
  }

  function Next<V>(P: Problem<V>, o: Iteration<V>): Iteration<V> {
    var r := P.S.axpy(o.r, -o.alpha, o.q);
    var z := P.M.solve(r);
    var beta := Quotient(P.S.dot(r, z), o.rho);
    Finish(P, P.S.axpy(o.x, o.alpha, o.p), r, z, beta, P.S.axpy(z, beta, o.p))
  }

  function Finish<V>(P: Problem<V>, x: V, r: V, z: V, beta: real, p: V): Iteration<V> {
    var rho, q := P.S.dot(r, z), P.A.mult(p);
    Iteration(x, r, z, rho, beta, p, q, Quotient(rho, P.S.dot(p, q)))
  }

  /** The pass that follows the passes t. */
  function Pending<V>(P: Problem<V>, x0: V, t: seq<Iteration<V>>): Iteration<V> {
    if t == [] then First(P, x0) else Next(P, t[|t| - 1])
  }

  /** What every pass computes the same way. */
  ghost predicate Consistent<V>(P: Problem<V>, c: Iteration<V>) {
    && c.z == P.M.solve(c.r) && c.rho == P.S.dot(c.r, c.z)
    && c.q == P.A.mult(c.p) && c.alpha == Quotient(c.rho, P.S.dot(c.p, c.q))
  }

  /** How a pass continues the one before it. */
  ghost predicate Continues<V>(P: Problem<V>, o: Iteration<V>, c: Iteration<V>) {
    && c.x == P.S.axpy(o.x, o.alpha, o.p) && c.r == P.S.axpy(o.r, -o.alpha, o.q)
    && c.beta == Quotient(c.rho, o.rho) && c.p == P.S.axpy(c.z, c.beta, o.p)
  }

  ghost predicate Follows<V>(P: Problem<V>, x0: V, t: seq<Iteration<V>>, k: nat)
    requires k < |t|
  {
    && t[k] == (if k == 0 then First(P, x0) else Next(P, t[k - 1]))
    && (k > 0 ==> P.S.dot(t[k - 1].p, t[k - 1].q) != 0.0 && t[k - 1].rho != 0.0)
  }

  /** t follows the formulas of the loop from x0 and got as far as its last pass. */
  ghost predicate Begun<V>(P: Problem<V>, x0: V, t: seq<Iteration<V>>) {
    forall k: nat :: k < |t| ==> Follows(P, x0, t, k)
  }

  /** Pass k is the one that follows, and neither of its divisions was by zero. */
  ghost predicate Pass<V>(P: Problem<V>, x0: V, t: seq<Iteration<V>>, k: nat)
    requires k < |t|
  {
    && t[k] == (if k == 0 then First(P, x0) else Next(P, t[k - 1]))
    && P.S.dot(t[k].p, t[k].q) != 0.0
    && (k > 0 ==> t[k - 1].rho != 0.0)
  }

  /** t records consecutive passes of the loop from x0, none of which divided by zero. */
  ghost predicate Run<V>(P: Problem<V>, x0: V, t: seq<Iteration<V>>) {
    forall k: nat :: k < |t| ==> Pass(P, x0, t, k)
  }

  // Structure of runs

  lemma PassAt<V>(P: Problem<V>, x0: V, t: seq<Iteration<V>>, k: nat)
    requires Run(P, x0, t) && k < |t|
    ensures Consistent(P, t[k]) && P.S.dot(t[k].p, t[k].q) != 0.0
    ensures k == 0 ==> t[k].x == x0 && t[k].r == P.Residual(x0) && t[k].p == t[k].z
    ensures k > 0 ==> t[k] == Next(P, t[k - 1]) && Continues(P, t[k - 1], t[k]) && t[k - 1].rho != 0.0
  {
    assert Pass(P, x0, t, k);
  }

  /** A run, and a run with the pass under way, have begun all their passes. */
  lemma RunBegins<V>(P: Problem<V>, x0: V, t: seq<Iteration<V>>)
    requires Run(P, x0, t)
    ensures Begun(P, x0, t)
    ensures t == [] || t[|t| - 1].rho != 0.0 ==> Begun(P, x0, t + [Pending(P, x0, t)])
  {
    hide First, Next;
    var u := t + [Pending(P, x0, t)];
    forall k: nat | k < |t| ensures Follows(P, x0, t, k) && Follows(P, x0, u, k) {
      assert Pass(P, x0, t, k);
      if k > 0 {
        assert Pass(P, x0, t, k - 1);
      }
    }
    if t != [] {
      assert Pass(P, x0, t, |t| - 1);
    }
  }

  lemma PendingPass<V>(P: Problem<V>, x0: V, t: seq<Iteration<V>>)
    ensures Consistent(P, Pending(P, x0, t))
    ensures t == [] ==>
      var c := Pending(P, x0, t);
      c.x == x0 && c.r == P.Residual(x0) && c.p == c.z
    ensures t != [] ==> Continues(P, t[|t| - 1], Pending(P, x0, t))
  {
  }

  lemma Prefix<V>(P: Problem<V>, x0: V, t: seq<Iteration<V>>)
    requires Run(P, x0, t) && t != []
    ensures Run(P, x0, t[..|t| - 1])
    ensures t[|t| - 1] == Pending(P, x0, t[..|t| - 1])
  {
    hide First, Next;
    var s := t[..|t| - 1];
    forall k: nat | k < |s| ensures Pass(P, x0, s, k) {
      assert Pass(P, x0, t, k);
    }
    assert Pass(P, x0, t, |t| - 1);
  }

  lemma Extend<V>(P: Problem<V>, x0: V, t: seq<Iteration<V>>, c: Iteration<V>)
    requires Run(P, x0, t) && c == Pending(P, x0, t)
    requires P.S.dot(c.p, c.q) != 0.0 && (t != [] ==> t[|t| - 1].rho != 0.0)
    ensures Run(P, x0, t + [c])
  {
    hide First, Next;
    var s := t + [c];
    forall k: nat | k < |s| ensures Pass(P, x0, s, k) {
      if k < |t| {
        assert Pass(P, x0, t, k);
      }
    }
  }

  /** The recurrence residual is the true residual. */
  lemma {:induction false} TrueResidual<V(!new)>(P: Problem<V>, x0: V, t: seq<Iteration<V>>)
    requires Valid(P) && Run(P, x0, t)
    ensures Pending(P, x0, t).r == P.Residual(Pending(P, x0, t).x)
    decreases |t|
  {
    hide InnerProduct, Linear, Quotient, First, Next, Pending;
    PendingPass(P, x0, t);
    if t != [] {
      var o := t[|t| - 1];
      Prefix(P, x0, t);
      TrueResidual(P, x0, t[..|t| - 1]);
      PassAt(P, x0, t, |t| - 1);
      ResidualMoves(P, o.x, o.alpha, o.p);
    }
  }

  // Positive definite systems: no division by zero

  lemma {:induction false} DirectionMeetsResidual<V(!new)>(P: Problem<V>, x0: V, t: seq<Iteration<V>>)
    requires Valid(P) && Run(P, x0, t)
    ensures var c := Pending(P, x0, t); P.S.dot(c.p, c.r) == c.rho
    ensures t != [] ==> P.S.dot(t[|t| - 1].p, Pending(P, x0, t).r) == 0.0
    decreases |t|
  {
    hide InnerProduct, Linear, First, Next, Pending;
    PendingPass(P, x0, t);
    var c := Pending(P, x0, t);
    Symmetric(P.S, c.r, c.z);
    if t != [] {
      var o := t[|t| - 1];
      Prefix(P, x0, t);
      DirectionMeetsResidual(P, x0, t[..|t| - 1]);
      PassAt(P, x0, t, |t| - 1);
      Expand(P.S, o.r, -o.alpha, o.q, o.p);
      Expand(P.S, c.z, c.beta, o.p, c.r);
      assert o.alpha * P.S.dot(o.p, o.q) == o.rho;
    }
  }

  /** With the residual nonzero, neither divisor of the pending pass can vanish. */
  lemma NoBreakdown<V(!new)>(P: Problem<V>, x0: V, t: seq<Iteration<V>>)
    requires Valid(P) && SPD(P) && Run(P, x0, t) && Pending(P, x0, t).r != P.S.zero
    ensures var c := Pending(P, x0, t); c.rho > 0.0 && P.S.dot(c.p, c.q) > 0.0
  {
    hide InnerProduct, Linear, Adjoint, First, Next, Pending;
    PendingPass(P, x0, t);
    var c := Pending(P, x0, t);
    DirectionMeetsResidual(P, x0, t);
    Zero(P.S, c.r);
  }

  /** A pass that finds the residual zero has the direction zero, and cannot be completed. */
  lemma ZeroDirection<V(!new)>(P: Problem<V>, o: Iteration<V>, c: Iteration<V>, first: bool)
    requires Valid(P) && SelfAdjoint(P) && Consistent(P, c) && c.r == P.S.zero
    requires if first then c.p == c.z else Continues(P, o, c)
    ensures P.S.dot(c.p, c.q) == 0.0
  {
    hide InnerProduct, Linear, Adjoint;
    AdjointLinear(P.S, P.M.solve, P.M.solve);
    ZeroImage(P.S, P.M.solve);
    Zero(P.S, c.z);
    if !first {
      AddNothing(P.S, c.z, c.beta, o.p);
    }
    Zero(P.S, c.q);
  }

  /** No pass of a run finds the residual zero. */
  lemma NeverSolved<V(!new)>(P: Problem<V>, x0: V, t: seq<Iteration<V>>, k: nat)
    requires Valid(P) && SelfAdjoint(P) && Run(P, x0, t) && k < |t|
    ensures t[k].r != P.S.zero
  {
    hide Valid, SelfAdjoint, Run, First, Next, Consistent, Continues;
    PassAt(P, x0, t, k);
    if t[k].r == P.S.zero {
      ZeroDirection(P, if k == 0 then t[k] else t[k - 1], t[k], k == 0);
    }
  }

  // Orthogonality over the whole history, by way of BiCG

  /** CG's system with itself as its transpose. */
  function Mirror<V>(P: Problem<V>): Problem<V> {
    P.(A := Matrix(P.A.mult, P.A.mult), M := Preconditioner(P.M.solve, P.M.solve))
  }

  function Twin<V>(c: Iteration<V>): BiCG.Iteration<V> {
    BiCG.Iteration(c.x, c.r, c.r, c.z, c.z, c.rho, c.beta, c.p, c.p, c.q, c.q, c.alpha)
  }

  function Twins<V>(t: seq<Iteration<V>>): (u: seq<BiCG.Iteration<V>>)
    ensures |u| == |t|
    ensures forall k :: 0 <= k < |t| ==> u[k] == Twin(t[k])
  {
    if t == [] then [] else Twins(t[..|t| - 1]) + [Twin(t[|t| - 1])]
  }

  /** The passes of CG are those of BiCG for the system that is its own transpose. */
  lemma TwinBegun<V(!new)>(P: Problem<V>, x0: V, t: seq<Iteration<V>>)
    requires InnerProduct(P.S) && Begun(P, x0, t)
    ensures BiCG.Begun(Mirror(P), x0, Twins(t))
  {
    hide InnerProduct, Begun, Twins, BiCG.Follows, BiCG.Sound;
    forall k: nat | k < |t| ensures BiCG.Follows(Mirror(P), x0, Twins(t), k) {
      TwinPass(P, x0, t, k);
    }
    forall k: nat | k < |t| - 1 ensures BiCG.Sound(Mirror(P), Twins(t)[k]) {
      TwinPass(P, x0, t, k + 1);
    }
  }

  lemma TwinFirst<V(!new)>(P: Problem<V>, x0: V)
    requires InnerProduct(P.S)
    ensures Twin(First(P, x0)) == BiCG.First(Mirror(P), x0)
  {
    hide InnerProduct, Quotient;
    var c := First(P, x0);
    Symmetric(P.S, c.r, c.z);
  }

  lemma TwinNext<V(!new)>(P: Problem<V>, o: Iteration<V>)
    requires InnerProduct(P.S)
    ensures Twin(Next(P, o)) == BiCG.Next(Mirror(P), Twin(o))
  {
    hide InnerProduct, Quotient;
    var c := Next(P, o);
    Symmetric(P.S, c.r, c.z);
  }

  lemma TwinPass<V(!new)>(P: Problem<V>, x0: V, t: seq<Iteration<V>>, k: nat)
    requires InnerProduct(P.S) && Begun(P, x0, t) && k < |t|
    ensures BiCG.Follows(Mirror(P), x0, Twins(t), k)
    ensures k > 0 ==> BiCG.Sound(Mirror(P), Twins(t)[k - 1])
  {
    hide InnerProduct, Twins, First, Next, BiCG.First, BiCG.Next;
    assert Follows(P, x0, t, k);
    TwinFirst(P, x0);
    if k > 0 {
      TwinNext(P, t[k - 1]);
    }
  }

  /** Residuals stay M^-1-orthogonal and directions A-orthogonal over the whole history, the pass under way included. */
  lemma Conjugate<V(!new)>(P: Problem<V>, x0: V, t: seq<Iteration<V>>, i: nat, k: nat)
    requires Valid(P) && SelfAdjoint(P) && Begun(P, x0, t) && i < |t| && k < |t| && i != k
    ensures P.S.dot(t[i].r, P.M.solve(t[k].r)) == 0.0
    ensures P.S.dot(t[i].p, P.A.mult(t[k].p)) == 0.0
    ensures i < k ==> P.S.dot(t[i].p, t[k].r) == 0.0
  {
    hide InnerProduct, Linear, Adjoint, Begun, Twins, BiCG.Begun;
    TwinBegun(P, x0, t);
    BiCG.Biorthogonal(Mirror(P), x0, Twins(t), i, k);
    BiCG.Biorthogonal(Mirror(P), x0, Twins(t), k, i);
    BegunAt(P, x0, t, k);
    Symmetric(P.S, t[i].r, t[k].z);
  }

  lemma BegunAt<V>(P: Problem<V>, x0: V, t: seq<Iteration<V>>, k: nat)
    requires Begun(P, x0, t) && k < |t|
    ensures Consistent(P, t[k])
  {
    assert Follows(P, x0, t, k);
  }

  function Directions<V>(t: seq<Iteration<V>>): (p: seq<V>)
    ensures |p| == |t| && forall k :: 0 <= k < |t| ==> p[k] == t[k].p
  {
    if t == [] then [] else Directions(t[..|t| - 1]) + [t[|t| - 1].p]
  }

  function Images<V>(t: seq<Iteration<V>>): (q: seq<V>)
    ensures |q| == |t| && forall k :: 0 <= k < |t| ==> q[k] == t[k].q
  {
    if t == [] then [] else Images(t[..|t| - 1]) + [t[|t| - 1].q]
  }

  function StepLengths<V>(t: seq<Iteration<V>>): (a: seq<real>)
    ensures |a| == |t| && forall k :: 0 <= k < |t| ==> a[k] == t[k].alpha
  {
    if t == [] then [] else StepLengths(t[..|t| - 1]) + [t[|t| - 1].alpha]
  }

  lemma PositiveRho<V(!new)>(P: Problem<V>, x0: V, t: seq<Iteration<V>>)
    requires Valid(P) && SPD(P) && Run(P, x0, t)
    ensures forall k :: 0 <= k < |t| ==> t[k].rho > 0.0
  {
    hide InnerProduct, Linear, Adjoint, Run;
    forall k | 0 <= k < |t| ensures t[k].rho > 0.0 {
      PassAt(P, x0, t, k);
      NeverSolved(P, x0, t, k);
    }
  }

  /** All past directions are orthogonal to the residual now. */
  lemma PendingOrthogonal<V(!new)>(P: Problem<V>, x0: V, t: seq<Iteration<V>>)
    requires Valid(P) && SelfAdjoint(P) && Run(P, x0, t) && (t == [] || t[|t| - 1].rho != 0.0)
    ensures forall i :: 0 <= i < |t| ==> P.S.dot(t[i].p, Pending(P, x0, t).r) == 0.0
  {
    hide Valid, SelfAdjoint, Run, Begun, Pending;
    RunBegins(P, x0, t);
    forall i | 0 <= i < |t| ensures P.S.dot(t[i].p, Pending(P, x0, t).r) == 0.0 {
      Conjugate(P, x0, t + [Pending(P, x0, t)], i, |t|);
    }
  }

  /** In dimension n the residual is zero after n passes, so no run gets further. */
  lemma FiniteTermination<V(!new)>(P: Problem<V>, x0: V, t: seq<Iteration<V>>, n: nat)
    requires Valid(P) && SPD(P) && Run(P, x0, t) && Dimension(P.S, n)
    ensures |t| <= n
    ensures |t| == n ==> Pending(P, x0, t).r == P.S.zero
    decreases |t|
  {
    hide InnerProduct, Linear, Adjoint, PositiveDefinite, Run, Begun, Pending, Dimension;
    if |t| > n {
      var k := |t| - 1;
      Prefix(P, x0, t);
      FiniteTermination(P, x0, t[..k], n);
      NeverSolved(P, x0, t, k);
    } else if |t| == n {
      PositiveRho(P, x0, t);
      PendingOrthogonal(P, x0, t);
      RunBegins(P, x0, t);
      forall i, j | 0 <= i < n && 0 <= j < n
        ensures P.S.dot(Directions(t)[i], Images(t)[j]) != 0.0 <==> i == j
      {
        PassAt(P, x0, t, j);
        if i != j {
          Conjugate(P, x0, t, i, j);
        }
      }
      OrthogonalToAll(P.S, n, Directions(t), Images(t), Pending(P, x0, t).r);
    }
  }

  // Optimality

  /** Half the energy norm of the error, up to a constant. */
  function Energy<V>(P: Problem<V>, x: V): real {
    P.S.dot(x, P.A.mult(x)) / 2.0 - P.S.dot(P.b, x)
  }

  lemma EnergyAlong<V(!new)>(P: Problem<V>, x: V, a: real, e: V)
    requires Valid(P) && SelfAdjoint(P)
    ensures Energy(P, P.S.axpy(x, a, e)) ==
            Energy(P, x) - a * P.S.dot(e, P.Residual(x)) + a * a * P.S.dot(e, P.A.mult(e)) / 2.0
  {
    hide InnerProduct, Linear, Adjoint;
    var S, A := P.S, P.A.mult;
    var y := S.axpy(x, a, e);
    Distribute(S, A, x, a, e);
    Expand(S, x, a, e, A(y));
    Expand(S, A(x), a, A(e), x);
    Expand(S, A(x), a, A(e), e);
    Expand(S, x, a, e, P.b);
    Expand(S, P.b, -1.0, A(x), e);
    Move(S, A, A, x, e);
    Symmetric(S, A(x), e);
    Symmetric(S, P.b, e);
  }

  /** x0 plus a combination of the directions of t. */
  function Reached<V>(P: Problem<V>, x0: V, t: seq<Iteration<V>>, c: seq<real>): V
    requires |c| <= |t|
  {
    P.S.axpy(x0, 1.0, Combination(P.S, c, Directions(t)))
  }

  lemma {:induction false} IterateReached<V(!new)>(P: Problem<V>, x0: V, t: seq<Iteration<V>>)
    requires Valid(P) && Run(P, x0, t)
    ensures Pending(P, x0, t).x == Reached(P, x0, t, StepLengths(t))
    decreases |t|
  {
    hide InnerProduct, Linear, First, Next, Pending, Run, Reached;
    PendingPass(P, x0, t);
    if t == [] {
      NothingReached(P, x0);
    } else {
      Prefix(P, x0, t);
      IterateReached(P, x0, t[..|t| - 1]);
      ReachedStep(P, x0, t, StepLengths(t[..|t| - 1]), t[|t| - 1].alpha);
      assert StepLengths(t) == StepLengths(t[..|t| - 1]) + [t[|t| - 1].alpha];
    }
  }

  lemma NothingReached<V(!new)>(P: Problem<V>, x0: V)
    requires InnerProduct(P.S)
    ensures Reached(P, x0, [], []) == x0
  {
    hide InnerProduct;
    var S := P.S;
    forall u ensures S.dot(S.axpy(x0, 1.0, S.zero), u) == S.dot(x0, u) {
      Expand(S, x0, 1.0, S.zero, u);
      Zero(S, u);
    }
    Same(S, S.axpy(x0, 1.0, S.zero), x0);
  }

  lemma ReachedStep<V(!new)>(P: Problem<V>, x0: V, t: seq<Iteration<V>>, c: seq<real>, a: real)
    requires InnerProduct(P.S) && |t| == |c| + 1
    ensures Reached(P, x0, t, c + [a]) == P.S.axpy(Reached(P, x0, t[..|c|], c), a, t[|c|].p)
  {
    hide InnerProduct, Combination, Directions;
    var S, d, k, e := P.S, Directions(t), |c|, c + [a];
    var before := Directions(t[..k]);
    var l, r := Reached(P, x0, t, e), S.axpy(Reached(P, x0, t[..k], c), a, t[k].p);
    assert e[..k] == c;
    CombinationPrefix(S, c, before, d);
    forall u ensures S.dot(l, u) == S.dot(r, u) {
      LastTerm(S, e, d, u);
      Expand(S, x0, 1.0, Combination(S, e, d), u);
      Expand(S, Reached(P, x0, t[..k], c), a, t[k].p, u);
      Expand(S, x0, 1.0, Combination(S, c, before), u);
    }
    Same(S, l, r);
  }

  /** The iterate minimises the energy over x0 + span of the directions, and it alone does. */
  lemma Optimal<V(!new)>(P: Problem<V>, x0: V, t: seq<Iteration<V>>, c: seq<real>)
    requires Valid(P) && SPD(P) && Run(P, x0, t) && |c| == |t|
    ensures var x, y := Pending(P, x0, t).x, Reached(P, x0, t, c);
      Energy(P, x) <= Energy(P, y) && (Energy(P, x) == Energy(P, y) ==> x == y)
  {
    hide InnerProduct, Linear, Adjoint, Pending, Run, Energy;
    var S, x, y, r := P.S, Pending(P, x0, t).x, Reached(P, x0, t, c), Pending(P, x0, t).r;
    var e := S.axpy(y, -1.0, x);
    TrueResidual(P, x0, t);
    IterateReached(P, x0, t);
    PositiveRho(P, x0, t);
    PendingOrthogonal(P, x0, t);
    Annihilated(S, c, Directions(t), r);
    Annihilated(S, StepLengths(t), Directions(t), r);
    Expand(S, x0, 1.0, Combination(S, c, Directions(t)), r);
    Expand(S, x0, 1.0, Combination(S, StepLengths(t), Directions(t)), r);
    Expand(S, y, -1.0, x, r);
    assert S.dot(e, r) == 0.0;
    Apart(S, x, y);
    EnergyAlong(P, x, 1.0, e);
    if e == S.zero {
      Apart(S, x, y);
      ZeroImage(S, P.A.mult);
      Zero(S, e);
    }
  }

  lemma Apart<V(!new)>(S: Space<V>, x: V, y: V)
    requires InnerProduct(S)
    ensures S.axpy(x, 1.0, S.axpy(y, -1.0, x)) == y
    ensures S.axpy(y, -1.0, x) == S.zero ==> x == y
  {
    hide InnerProduct;
    var e := S.axpy(y, -1.0, x);
    forall t ensures S.dot(S.axpy(x, 1.0, e), t) == S.dot(y, t) {
      Expand(S, x, 1.0, e, t);
      Expand(S, y, -1.0, x, t);
    }
    Same(S, S.axpy(x, 1.0, e), y);
    if e == S.zero {
      forall t ensures S.dot(x, t) == S.dot(y, t) {
        Expand(S, y, -1.0, x, t);
        Zero(S, t);
      }
      Same(S, x, y);
    }
  }

  /** Each pass lowers the energy by exactly rho^2 / (2 p.Ap). */
  lemma EnergyDrop<V(!new)>(P: Problem<V>, x0: V, t: seq<Iteration<V>>)
    requires Valid(P) && SelfAdjoint(P) && Run(P, x0, t) && t != []
    ensures var o := t[|t| - 1];
      var d := P.S.dot(o.p, o.q);
      d != 0.0 && Energy(P, Pending(P, x0, t).x) == Energy(P, o.x) - o.rho * o.rho / (2.0 * d)
  {
    hide InnerProduct, Linear, Adjoint, Pending, Run, Energy;
    var o := t[|t| - 1];
    Prefix(P, x0, t);
    TrueResidual(P, x0, t[..|t| - 1]);
    DirectionMeetsResidual(P, x0, t[..|t| - 1]);
    PassAt(P, x0, t, |t| - 1);
    PendingPass(P, x0, t);
    EnergyAlong(P, o.x, o.alpha, o.p);
    HalfSquare(o.rho, P.S.dot(o.p, o.q), o.alpha);
  }

  lemma HalfSquare(rho: real, d: real, alpha: real)
    requires d != 0.0 && alpha == Quotient(rho, d)
    ensures -alpha * rho + alpha * alpha * d / 2.0 == -(rho * rho / (2.0 * d))
  {
    assert alpha * d == rho;
    assert alpha * alpha * d == alpha * rho;
    var h := rho * rho / (2.0 * d);
    assert h * (2.0 * d) == rho * rho == (alpha * d) * rho == (alpha * rho) * d;
    assert (2.0 * h - alpha * rho) * d == 0.0;
    ZeroProduct(2.0 * h - alpha * rho, d);
  }

  // The method

  /** The same for the passes recorded. */
  lemma {:induction false} PastResidual<V(!new)>(P: Problem<V>, x0: V, t: seq<Iteration<V>>, k: nat)
    requires Valid(P) && Run(P, x0, t) && k < |t|
    ensures t[k].r == P.Residual(t[k].x)
    decreases |t|
  {
    hide Valid, Run, Pending, Problem.Residual;
    Prefix(P, x0, t);
    if k == |t| - 1 {
      TrueResidual(P, x0, t[..k]);
    } else {
      PastResidual(P, x0, t[..|t| - 1], k);
    }
  }

  ghost predicate Unconverged<V(!new)>(P: Problem<V>, t: seq<Iteration<V>>, tol: real) {
    forall k: nat :: k < |t| ==> P.Relative(t[k].r) > tol
  }

  /** No earlier x had passed the test. */
  lemma UnconvergedIs<V(!new)>(P: Problem<V>, x0: V, t: seq<Iteration<V>>, tol: real)
    requires Valid(P) && Run(P, x0, t)
    ensures Unconverged(P, t, tol) <==>
      forall k: nat :: k < |t| ==>
        P.Relative(P.Residual(t[k].x)) > tol
  {
    hide Valid, Run, Problem.Residual, Problem.Relative;
    forall k: nat | k < |t| ensures t[k].r == P.Residual(t[k].x) {
      PastResidual(P, x0, t, k);
    }
  }

  lemma RelativeOfZero<V(!new)>(P: Problem<V>)
    requires Valid(P)
    ensures P.Relative(P.S.zero) == 0.0
  {
    NullIsZero(P.S, P.S.zero);
    PositiveDivisor(P);
  }

  lemma StillUnconverged<V(!new)>(P: Problem<V>, t: seq<Iteration<V>>, c: Iteration<V>, tol: real)
    requires Unconverged(P, t, tol) && P.Relative(c.r) > tol
    ensures Unconverged(P, t + [c], tol)
  {
    hide Problem.Relative;
  }

  lemma EmptyRun<V(!new)>(P: Problem<V>, x0: V, tol: real)
    ensures Run(P, x0, []) && Unconverged(P, [], tol)
  {
  }

  /** A division by zero needs an indefinite system or a negative tolerance. */
  lemma NeverDividesByZero<V(!new)>(P: Problem<V>, x0: V, t: seq<Iteration<V>>, tol: real)
    requires Valid(P) && SPD(P) && Run(P, x0, t)
    requires tol >= 0.0 && P.Relative(Pending(P, x0, t).r) > tol
    ensures var c := Pending(P, x0, t); P.S.dot(c.p, c.q) != 0.0
    ensures t != [] ==> t[|t| - 1].rho != 0.0
  {
    hide Valid, SPD, Run, Pending, Problem.Relative;
    RelativeOfZero(P);
    NoBreakdown(P, x0, t);
    PositiveRho(P, x0, t);
  }

  /** With enough passes allowed, a run cannot use them up unconverged. */
  lemma Converges<V(!new)>(P: Problem<V>, x0: V, t: seq<Iteration<V>>, tol: real, n: nat)
    requires Valid(P) && SPD(P) && Run(P, x0, t) && tol >= 0.0 && Dimension(P.S, n)
    ensures |t| <= n && (|t| == n ==> P.Relative(Pending(P, x0, t).r) <= tol)
  {
    hide Valid, SPD, Run, Pending, Problem.Relative, Dimension;
    RelativeOfZero(P);
    FiniteTermination(P, x0, t, n);
  }

  lemma Bound<V(!new)>(P: Problem<V>, x0: V, t: seq<Iteration<V>>, tol: real)
    requires Valid(P) && Run(P, x0, t)
    ensures forall n: nat :: SPD(P) && tol >= 0.0 && Dimension(P.S, n) ==>
      |t| <= n && (|t| == n ==> P.Relative(Pending(P, x0, t).r) <= tol)
  {
    hide *;
    forall n: nat | SPD(P) && tol >= 0.0 && Dimension(P.S, n)
      ensures |t| <= n && (|t| == n ==> P.Relative(Pending(P, x0, t).r) <= tol)
    {
      Converges(P, x0, t, tol, n);
    }
  }

  /** CG of iml/cg.h; t is the record of its passes. */
  method Solve<V(!new)>(P: Problem<V>, x0: V, maxIter0: int, tol0: real)
    returns (exit: Exit, x: V, maxIter: int, tol: real, ghost t: seq<Iteration<V>>)
    requires Valid(P)
    ensures Run(P, x0, t) && x == Pending(P, x0, t).x && Unconverged(P, t, tol0)
    ensures |t| == 0 || |t| <= maxIter0
    ensures exit == Code(0) ==> maxIter == |t| && tol == P.Relative(P.Residual(x)) <= tol0
    ensures exit == Code(1) ==> |t| >= maxIter0 == maxIter && tol == P.Relative(P.Residual(x)) > tol0
    ensures exit == DivideByZero ==>
      var c := Pending(P, x0, t);
      && (P.S.dot(c.p, c.q) == 0.0 || (t != [] && t[|t| - 1].rho == 0.0))
      && |t| < maxIter0 == maxIter && tol == tol0 < P.Relative(P.Residual(x))
    ensures if exit.Code? then 0 <= exit.code <= 1 else exit == DivideByZero
    ensures SPD(P) && tol0 >= 0.0 ==> exit != DivideByZero
    ensures forall n: nat :: SPD(P) && tol0 >= 0.0 && Dimension(P.S, n) && n <= maxIter0 ==>
      exit == Code(0) && maxIter <= n
  {
    hide Valid, SPD, First, Next, Finish, Pending, Run, Unconverged, Dimension, Quotient, Problem.NormB,
      Problem.Relative, Problem.Residual;
    var S := P.S;
    x, maxIter, tol, t := x0, maxIter0, tol0, [];
    var normb := S.norm(P.b);
    var r := P.Residual(x);
    if normb == 0.0 {
      normb := 1.0;
    }
    DivisorIs(P);
    RelativeIs(P, r);
    PendingPass(P, x0, t);
    EmptyRun(P, x0, tol);
    var resid := S.norm(r) / normb;
    if resid <= tol {
      return Code(0), x, 0, resid, t;
    }
    var rho1, p := 0.0, r;
    var i := 1;
    while i <= maxIter
      invariant 1 <= i && (i <= maxIter + 1 || i == 1)
      invariant |t| == i - 1 && Run(P, x0, t) && Unconverged(P, t, tol)
      invariant maxIter == maxIter0 && tol == tol0 && normb == P.NormB()
      invariant resid == P.Relative(r) > tol && r == P.Residual(x)
      invariant var c := Pending(P, x0, t); x == c.x && r == c.r
      invariant i > 1 ==> var o := t[|t| - 1]; rho1 == o.rho && p == o.p
    {
      var z := P.M.solve(r);
      var rho := S.dot(r, z);
      ghost var c := Pending(P, x0, t);
      PendingPass(P, x0, t);
      if SPD(P) && tol >= 0.0 {
        NeverDividesByZero(P, x0, t, tol);
      }
      if i == 1 {
        p := z;
      } else {
        if rho1 == 0.0 {
          return DivideByZero, x, maxIter, tol, t;
        }
        QuotientIs(rho, rho1);
        var beta := rho / rho1;
        p := S.axpy(z, beta, p);
      }
      var q := P.A.mult(p);
      var divisor := S.dot(p, q);
      if divisor == 0.0 {
        return DivideByZero, x, maxIter, tol, t;
      }
      QuotientIs(rho, divisor);
      var alpha := rho / divisor;
      x := S.axpy(x, alpha, p);
      r := S.axpy(r, -alpha, q);
      Extend(P, x0, t, c);
      StillUnconverged(P, t, c, tol);
      t := t + [c];
      PendingPass(P, x0, t);
      TrueResidual(P, x0, t);
      RelativeIs(P, r);
      resid := S.norm(r) / normb;
      if resid <= tol {
        Bound(P, x0, t, tol);
        return Code(0), x, i, resid, t;
      }
      rho1 := rho;
      i := i + 1;
    }
    Bound(P, x0, t, tol);
    return Code(1), x, maxIter, resid, t;
  }
}
