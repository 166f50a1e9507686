/**
  The vector arithmetic that the solver templates demand of their Vector parameter, over exact
  reals. Space is a record of operations, so every theorem holds for every vector type whose
  operations form a real inner-product space; Euclidean.dfy shows that R^n is one.
 */
module VectorSpaces {
  import opened Reals

  /** axpy(u, a, v) is u + a*v. */
  datatype Space<!V> = Space(zero: V, axpy: (V, real, V) -> V, dot: (V, V) -> real, norm: V -> real)
  {
    function Scale(a: real, v: V): V {
      axpy(zero, a, v)
    }
  }

  ghost predicate InnerProduct<V(!new)>(S: Space<V>) {
    && (forall u, a, v, t :: S.dot(S.axpy(u, a, v), t) == S.dot(u, t) + a * S.dot(v, t))
    && (forall u, v :: S.dot(u, v) == S.dot(v, u))
    && (forall t :: S.dot(S.zero, t) == 0.0)
    && (forall u :: S.dot(u, u) >= 0.0)
    && (forall u, v :: S.dot(S.axpy(u, -1.0, v), S.axpy(u, -1.0, v)) == 0.0 ==> u == v)
    && (forall u :: S.norm(u) >= 0.0 && S.norm(u) * S.norm(u) == S.dot(u, u))
  }

  ghost predicate Linear<V(!new)>(S: Space<V>, A: V -> V) {
    forall u, a, v :: A(S.axpy(u, a, v)) == S.axpy(A(u), a, A(v))
  }

  ghost predicate Adjoint<V(!new)>(S: Space<V>, A: V -> V, At: V -> V) {
    forall u, v :: S.dot(A(u), v) == S.dot(u, At(v))
  }

  ghost predicate PositiveDefinite<V(!new)>(S: Space<V>, A: V -> V) {
    forall u :: u != S.zero ==> S.dot(u, A(u)) > 0.0
  }

  /** c*u = a*v + b*w, read through every functional. */
  ghost predicate Combines<V(!new)>(S: Space<V>, c: real, u: V, a: real, v: V, b: real, w: V) {
    forall t :: c * S.dot(u, t) == a * S.dot(v, t) + b * S.dot(w, t)
  }

  // Single instances of the laws, for proofs that hide the laws themselves.

  lemma Symmetric<V(!new)>(S: Space<V>, u: V, v: V)
    requires InnerProduct(S)
    ensures S.dot(u, v) == S.dot(v, u)
  {
  }

  lemma Expand<V(!new)>(S: Space<V>, u: V, a: real, v: V, t: V)
    requires InnerProduct(S)
    ensures S.dot(S.axpy(u, a, v), t) == S.dot(u, t) + a * S.dot(v, t)
    ensures S.dot(t, S.axpy(u, a, v)) == S.dot(t, u) + a * S.dot(t, v)
  {
  }

  lemma ExpandScale<V(!new)>(S: Space<V>, a: real, v: V, t: V)
    requires InnerProduct(S)
    ensures S.dot(S.Scale(a, v), t) == a * S.dot(v, t)
    ensures S.dot(t, S.Scale(a, v)) == a * S.dot(t, v)
  {
  }

  lemma Zero<V(!new)>(S: Space<V>, t: V)
    requires InnerProduct(S)
    ensures S.dot(S.zero, t) == 0.0 == S.dot(t, S.zero)
  {
  }

  lemma Move<V(!new)>(S: Space<V>, A: V -> V, At: V -> V, u: V, v: V)
    requires Adjoint(S, A, At)
    ensures S.dot(A(u), v) == S.dot(u, At(v))
  {
  }

  lemma Flip<V(!new)>(S: Space<V>, A: V -> V, At: V -> V)
    requires InnerProduct(S) && Adjoint(S, A, At)
    ensures Adjoint(S, At, A)
  {
    forall u, v ensures S.dot(At(u), v) == S.dot(u, A(v)) {
      hide InnerProduct;
      Symmetric(S, At(u), v);
      Symmetric(S, A(v), u);
    }
  }

  lemma Distribute<V(!new)>(S: Space<V>, A: V -> V, u: V, a: real, v: V)
    requires Linear(S, A)
    ensures A(S.axpy(u, a, v)) == S.axpy(A(u), a, A(v))
  {
  }

  lemma Read<V(!new)>(S: Space<V>, c: real, u: V, a: real, v: V, b: real, w: V, t: V)
    requires InnerProduct(S) && Combines(S, c, u, a, v, b, w)
    ensures c * S.dot(u, t) == a * S.dot(v, t) + b * S.dot(w, t)
    ensures c * S.dot(t, u) == a * S.dot(t, v) + b * S.dot(t, w)
  {
    Symmetric(S, u, t);
    Symmetric(S, v, t);
    Symmetric(S, w, t);
  }

  lemma Square<V(!new)>(S: Space<V>, u: V)
    requires InnerProduct(S)
    ensures S.dot(u, u) >= 0.0
    ensures S.norm(u) >= 0.0 && S.norm(u) * S.norm(u) == S.dot(u, u)
  {
  }

  /** Vectors that no functional tells apart are equal. */
  lemma Same<V(!new)>(S: Space<V>, u: V, v: V)
    requires InnerProduct(S)
    requires forall t :: S.dot(u, t) == S.dot(v, t)
    ensures u == v
  {
    var d := S.axpy(u, -1.0, v);
    assert S.dot(d, d) == S.dot(u, d) + -1.0 * S.dot(v, d);
  }

  lemma AddNothing<V(!new)>(S: Space<V>, u: V, a: real, v: V)
    requires InnerProduct(S) && a == 0.0
    ensures S.axpy(u, a, v) == u
  {
    hide InnerProduct;
    forall t ensures S.dot(S.axpy(u, a, v), t) == S.dot(u, t) {
      Expand(S, u, a, v, t);
    }
    Same(S, S.axpy(u, a, v), u);
  }

  lemma NullIsZero<V(!new)>(S: Space<V>, u: V)
    requires InnerProduct(S)
    ensures S.dot(u, u) == 0.0 <==> u == S.zero
    ensures S.norm(u) == 0.0 <==> u == S.zero
  {
    Square(S, u);
    Zero(S, u);
    if S.dot(u, u) == 0.0 {
      ZeroProduct(S.norm(u), S.norm(u));
    }
    if S.norm(u) == 0.0 || S.dot(u, u) == 0.0 {
      var d := S.axpy(u, -1.0, S.zero);
      Expand(S, u, -1.0, S.zero, d);
      Expand(S, u, -1.0, S.zero, u);
      Zero(S, d);
    }
  }

  lemma SmallerNorm<V(!new)>(S: Space<V>, u: V, v: V)
    requires InnerProduct(S)
    ensures S.norm(u) <= S.norm(v) <==> S.dot(u, u) <= S.dot(v, v)
    ensures S.norm(u) == S.norm(v) <==> S.dot(u, u) == S.dot(v, v)
  {
    hide InnerProduct;
    Square(S, u);
    Square(S, v);
    SquareOrder(S.norm(u), S.norm(v));
  }

  /** An adjoint is linear. */
  lemma AdjointLinear<V(!new)>(S: Space<V>, A: V -> V, At: V -> V)
    requires InnerProduct(S) && Adjoint(S, A, At)
    ensures Linear(S, At)
  {
    hide InnerProduct, Adjoint;
    forall u, a, v ensures At(S.axpy(u, a, v)) == S.axpy(At(u), a, At(v)) {
      var l, r := At(S.axpy(u, a, v)), S.axpy(At(u), a, At(v));
      forall t ensures S.dot(l, t) == S.dot(r, t) {
        Move(S, A, At, t, S.axpy(u, a, v));
        Move(S, A, At, t, u);
        Move(S, A, At, t, v);
        Expand(S, u, a, v, A(t));
        Expand(S, At(u), a, At(v), t);
        Symmetric(S, t, l);
        Symmetric(S, t, At(u));
        Symmetric(S, t, At(v));
      }
      Same(S, l, r);
    }
  }

  /** Linear maps keep the zero vector. */
  lemma ZeroImage<V(!new)>(S: Space<V>, A: V -> V)
    requires InnerProduct(S) && Linear(S, A)
    ensures A(S.zero) == S.zero
  {
    var z := A(S.zero);
    assert S.axpy(S.zero, -1.0, S.zero) == S.zero by {
      forall t ensures S.dot(S.axpy(S.zero, -1.0, S.zero), t) == S.dot(S.zero, t) {
      }
      Same(S, S.axpy(S.zero, -1.0, S.zero), S.zero);
    }
    assert z == S.axpy(z, -1.0, z);
    assert S.dot(z, z) == S.dot(z, z) + -1.0 * S.dot(z, z);
    NullIsZero(S, z);
  }

  lemma ScaleImage<V(!new)>(S: Space<V>, A: V -> V, a: real, v: V)
    requires InnerProduct(S) && Linear(S, A)
    ensures A(S.Scale(a, v)) == S.Scale(a, A(v))
  {
    hide InnerProduct, Linear;
    ZeroImage(S, A);
    Distribute(S, A, S.zero, a, v);
  }
}
