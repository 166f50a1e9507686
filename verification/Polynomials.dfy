/** Polynomials in an operator, by their expressions. */
module Polynomials {
  import opened VectorSpaces

  /** 1, X*p, or p + a*q. */
  datatype Poly = One | TimesX(p: Poly) | Sum(p: Poly, a: real, q: Poly)

  /** p(A) v. */
  function Eval<V>(S: Space<V>, A: V -> V, p: Poly, v: V): V {
    match p
    case One => v
    case TimesX(q) => A(Eval(S, A, q, v))
    case Sum(q, a, r) => S.axpy(Eval(S, A, q, v), a, Eval(S, A, r, v))
  }

  /** p(A) is linear. */
  lemma {:induction false} EvalLinear<V(!new)>(S: Space<V>, A: V -> V, p: Poly, u: V, a: real, v: V)
    requires InnerProduct(S) && Linear(S, A)
    ensures Eval(S, A, p, S.axpy(u, a, v)) == S.axpy(Eval(S, A, p, u), a, Eval(S, A, p, v))
  {
    hide InnerProduct, Linear;
    match p
    case One =>
    case TimesX(q) =>
      EvalLinear(S, A, q, u, a, v);
      Distribute(S, A, Eval(S, A, q, u), a, Eval(S, A, q, v));
    case Sum(q, b, r) =>
      EvalLinear(S, A, q, u, a, v);
      EvalLinear(S, A, r, u, a, v);
      Interchange(S, Eval(S, A, q, u), a, Eval(S, A, q, v), b, Eval(S, A, r, u), Eval(S, A, r, v));
  }

  /** (u + a v) + b (w + a z) == (u + b w) + a (v + b z) */
  lemma Interchange<V(!new)>(S: Space<V>, u: V, a: real, v: V, b: real, w: V, z: V)
    requires InnerProduct(S)
    ensures S.axpy(S.axpy(u, a, v), b, S.axpy(w, a, z)) == S.axpy(S.axpy(u, b, w), a, S.axpy(v, b, z))
  {
    hide InnerProduct;
    var l, r := S.axpy(S.axpy(u, a, v), b, S.axpy(w, a, z)), S.axpy(S.axpy(u, b, w), a, S.axpy(v, b, z));
    forall t ensures S.dot(l, t) == S.dot(r, t) {
      Expand(S, S.axpy(u, a, v), b, S.axpy(w, a, z), t);
      Expand(S, u, a, v, t);
      Expand(S, w, a, z, t);
      Expand(S, S.axpy(u, b, w), a, S.axpy(v, b, z), t);
      Expand(S, u, b, w, t);
      Expand(S, v, b, z, t);
      var y := S.dot(z, t);
      assert b * (S.dot(w, t) + a * y) == b * S.dot(w, t) + a * (b * y);
      assert a * (S.dot(v, t) + b * y) == a * S.dot(v, t) + a * (b * y);
    }
    Same(S, l, r);
  }

  lemma {:induction false} EvalShifts<V(!new)>(S: Space<V>, A: V -> V, p: Poly, v: V)
    requires Linear(S, A)
    ensures Eval(S, A, p, A(v)) == A(Eval(S, A, p, v))
  {
    hide Linear;
    match p
    case One =>
    case TimesX(q) =>
      EvalShifts(S, A, q, v);
    case Sum(q, b, r) =>
      EvalShifts(S, A, q, v);
      EvalShifts(S, A, r, v);
      Distribute(S, A, Eval(S, A, q, v), b, Eval(S, A, r, v));
  }

  /** Polynomials in the same operator commute. */
  lemma {:induction false} EvalCommutes<V(!new)>(S: Space<V>, A: V -> V, p: Poly, q: Poly, v: V)
    requires InnerProduct(S) && Linear(S, A)
    ensures Eval(S, A, p, Eval(S, A, q, v)) == Eval(S, A, q, Eval(S, A, p, v))
  {
    hide InnerProduct, Linear;
    match p
    case One =>
    case TimesX(r) =>
      EvalCommutes(S, A, r, q, v);
      EvalShifts(S, A, q, Eval(S, A, r, v));
    case Sum(r, b, s) =>
      EvalCommutes(S, A, r, q, v);
      EvalCommutes(S, A, s, q, v);
      EvalLinear(S, A, q, Eval(S, A, r, v), b, Eval(S, A, s, v));
  }

  /** The adjoint of p(A) is p of the adjoint. */
  lemma {:induction false} EvalAdjoint<V(!new)>(S: Space<V>, A: V -> V, At: V -> V, p: Poly, u: V, v: V)
    requires InnerProduct(S) && Linear(S, A) && Adjoint(S, A, At)
    ensures S.dot(Eval(S, A, p, u), v) == S.dot(u, Eval(S, At, p, v))
  {
    hide InnerProduct, Linear, Adjoint;
    match p
    case One =>
    case TimesX(q) =>
      Move(S, A, At, Eval(S, A, q, u), v);
      EvalAdjoint(S, A, At, q, u, At(v));
      AdjointLinear(S, A, At);
      EvalShifts(S, At, q, v);
    case Sum(q, a, r) =>
      EvalAdjoint(S, A, At, q, u, v);
      EvalAdjoint(S, A, At, r, u, v);
      Expand(S, Eval(S, A, q, u), a, Eval(S, A, r, u), v);
      Expand(S, Eval(S, At, q, v), a, Eval(S, At, r, v), u);
  }
}
