/** For self-adjoint systems, iml/bicg.h runs iml/cg.h. */
module Symmetry {
  import opened Reals
  import opened VectorSpaces
  import opened Systems
  import BiCG
  import CG

  /** The transpose of a self-adjoint operator is the operator. */
  lemma TransposeIsSelf<V(!new)>(S: Space<V>, A: V -> V, At: V -> V, u: V)
    requires InnerProduct(S) && Adjoint(S, A, At) && Adjoint(S, A, A)
    ensures At(u) == A(u)
  {
    hide InnerProduct, Adjoint;
    forall t ensures S.dot(At(u), t) == S.dot(A(u), t) {
      Move(S, A, At, t, u);
      Move(S, A, A, t, u);
      Symmetric(S, A(t), u);
      Symmetric(S, At(u), t);
      Symmetric(S, A(u), t);
    }
    Same(S, At(u), A(u));
  }

  /** The shadow vectors equal the vectors. */
  ghost predicate Shadowed<V>(c: BiCG.Iteration<V>) {
    c.rt == c.r && c.zt == c.z && c.pt == c.p && c.qt == c.q
  }

  lemma {:induction false} ShadowEqual<V(!new)>(P: Problem<V>, x0: V, t: seq<BiCG.Iteration<V>>, k: nat)
    requires Valid(P) && HasAdjoints(P) && SelfAdjoint(P) && BiCG.Run(P, x0, t) && k < |t|
    ensures Shadowed(t[k])
  {
    hide InnerProduct, Linear, Adjoint, Quotient;
    if k > 0 {
      ShadowEqual(P, x0, t, k - 1);
    }
    BiCG.PassConsistent(P, x0, t, k);
    TransposeIsSelf(P.S, P.M.solve, P.M.transSolve, t[k].r);
    TransposeIsSelf(P.S, P.A.mult, P.A.transMult, t[k].p);
  }

  /** A BiCG pass without its shadow. */
  function Project<V>(c: BiCG.Iteration<V>): CG.Iteration<V> {
    CG.Iteration(c.x, c.r, c.z, c.rho, c.beta, c.p, c.q, c.alpha)
  }

  lemma ProjectFirst<V(!new)>(P: Problem<V>, x0: V, c: BiCG.Iteration<V>)
    requires InnerProduct(P.S) && c == BiCG.First(P, x0) && Shadowed(c)
    ensures Project(c) == CG.First(P, x0)
  {
    hide InnerProduct, Quotient;
    Symmetric(P.S, c.r, c.z);
  }

  lemma ProjectNext<V(!new)>(P: Problem<V>, o: BiCG.Iteration<V>, c: BiCG.Iteration<V>)
    requires InnerProduct(P.S) && c == BiCG.Next(P, o) && Shadowed(o) && Shadowed(c)
    ensures Project(c) == CG.Next(P, Project(o))
  {
    hide InnerProduct, Quotient;
    Symmetric(P.S, c.r, c.z);
  }

  /** BiCG and CG go through the same x, r, p, alpha and beta for as long as both run. */
  lemma {:induction false} SameCourse<V(!new)>(P: Problem<V>, x0: V, t: seq<BiCG.Iteration<V>>, u: seq<CG.Iteration<V>>,
        k: nat)
    requires Valid(P) && HasAdjoints(P) && SelfAdjoint(P)
    requires BiCG.Run(P, x0, t) && CG.Run(P, x0, u) && k < |t| && k < |u|
    ensures Shadowed(t[k]) && u[k] == Project(t[k])
  {
    hide InnerProduct, Linear, Adjoint, CG.First, CG.Next, BiCG.First, BiCG.Next;
    ShadowEqual(P, x0, t, k);
    BiCG.PassConsistent(P, x0, t, k);
    assert CG.Pass(P, x0, u, k);
    if k == 0 {
      ProjectFirst(P, x0, t[0]);
    } else {
      SameCourse(P, x0, t, u, k - 1);
      ProjectNext(P, t[k - 1], t[k]);
    }
  }

  /** Wherever BiCG gets without dividing by zero, CG gets as well. */
  lemma CGFollows<V(!new)>(P: Problem<V>, x0: V, t: seq<BiCG.Iteration<V>>) returns (u: seq<CG.Iteration<V>>)
    requires Valid(P) && HasAdjoints(P) && SelfAdjoint(P) && BiCG.Run(P, x0, t)
    ensures |u| == |t| && CG.Run(P, x0, u)
  {
    hide InnerProduct, Linear, Adjoint, CG.First, CG.Next, BiCG.First, BiCG.Next, BiCG.Run;
    u := Projections(t);
    forall k: nat | k < |u| ensures CG.Pass(P, x0, u, k) {
      ShadowEqual(P, x0, t, k);
      BiCG.PassConsistent(P, x0, t, k);
      if k == 0 {
        ProjectFirst(P, x0, t[0]);
      } else {
        ShadowEqual(P, x0, t, k - 1);
        BiCG.PassConsistent(P, x0, t, k - 1);
        ProjectNext(P, t[k - 1], t[k]);
      }
    }
  }

  function Projections<V>(t: seq<BiCG.Iteration<V>>): (u: seq<CG.Iteration<V>>)
    ensures |u| == |t| && forall k :: 0 <= k < |t| ==> u[k] == Project(t[k])
  {
    if t == [] then [] else Projections(t[..|t| - 1]) + [Project(t[|t| - 1])]
  }
}
