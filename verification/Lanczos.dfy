/**
  The two-sided Lanczos recurrence in its coupled form, which BiCG (iml/bicg.h) and QMR (iml/qmr.h) both run.
  It holds two mirrored families: v and p for the matrix, w and q for its transpose.
 */
module Lanczos {
  import opened Reals
  import opened VectorSpaces
  import opened Combinations

  /** One link; rho and xi scale v and w, the rest are the scalars that couple it to its neighbours. */
  datatype Pair<V> = Pair(v: V, w: V, p: V, q: V, rho: real, xi: real, delta: real, eps: real, beta: real, f: real,
      g: real)

  datatype Operators<!V> = Operators(mult: V -> V, transMult: V -> V, solve: V -> V, transSolve: V -> V)

  ghost predicate Adjoints<V(!new)>(S: Space<V>, O: Operators<V>) {
    && Adjoint(S, O.mult, O.transMult)
    && Adjoint(S, O.solve, O.transSolve)
  }

  /** What every link satisfies by itself. */
  ghost predicate Scaled<V>(S: Space<V>, O: Operators<V>, c: Pair<V>) {
    && c.delta == S.dot(c.w, O.solve(c.v))
    && c.eps == S.dot(c.q, O.mult(c.p))
  }

  /** How a link c follows from the link o before it, whose divisors cannot be zero. */
  ghost predicate Coupled<V(!new)>(S: Space<V>, O: Operators<V>, o: Pair<V>, c: Pair<V>) {
    && o.delta != 0.0 && o.eps != 0.0 && o.beta * o.delta == o.eps
    && c.rho != 0.0 && c.xi != 0.0
    && Combines(S, c.rho, c.v, 1.0, O.mult(o.p), -o.beta, o.v)
    && Combines(S, c.xi, c.w, 1.0, O.transMult(o.q), -o.beta, o.w)
    && Combines(S, 1.0, c.p, 1.0, O.solve(c.v), -c.f, o.p) && c.f * o.eps == c.xi * c.delta
    && Combines(S, 1.0, c.q, 1.0, O.transSolve(c.w), -c.g, o.q) && c.g * o.eps == c.rho * c.delta
  }

  ghost predicate Recurrence<V(!new)>(S: Space<V>, O: Operators<V>, t: seq<Pair<V>>, k: nat)
    requires k < |t|
  {
    && Scaled(S, O, t[k])
    && if k == 0 then
         t[k].p == O.solve(t[k].v) && t[k].q == O.transSolve(t[k].w)
       else
         Coupled(S, O, t[k - 1], t[k])
  }

  ghost predicate Run<V(!new)>(S: Space<V>, O: Operators<V>, t: seq<Pair<V>>) {
    forall k: nat :: k < |t| ==> Recurrence(S, O, t, k)
  }

  /** Link k as seen by the earlier link i. */
  ghost predicate Orthogonal<V(!new)>(S: Space<V>, O: Operators<V>, t: seq<Pair<V>>, i: nat, k: nat)
    requires i < |t| && k < |t|
  {
    && S.dot(t[i].q, t[k].v) == 0.0
    && S.dot(t[i].w, O.solve(t[k].v)) == 0.0
    && S.dot(t[i].q, O.mult(t[k].p)) == 0.0
  }

  /** Link k is orthogonal to all links before it. */
  ghost predicate OrthogonalTo<V(!new)>(S: Space<V>, O: Operators<V>, t: seq<Pair<V>>, k: nat)
    requires k < |t|
  {
    forall i: nat :: i < k ==> Orthogonal(S, O, t, i, k)
  }

  /** Every link is orthogonal to the ones before it. */
  lemma {:induction false} HalfBiorthogonal<V(!new)>(S: Space<V>, O: Operators<V>, t: seq<Pair<V>>, k: nat)
    requires InnerProduct(S) && Adjoints(S, O) && Run(S, O, t) && k < |t|
    ensures OrthogonalTo(S, O, t, k)
  {
    hide InnerProduct, Adjoint, Combines;
    if k > 0 {
      HalfBiorthogonal(S, O, t, k - 1);
      forall i: nat | i < k ensures S.dot(t[i].q, t[k].v) == 0.0 {
        QV(S, O, t, k, i);
      }
      forall i: nat | i < k ensures S.dot(t[i].w, O.solve(t[k].v)) == 0.0 {
        WV(S, O, t, k, i);
      }
      forall i: nat | i < k ensures S.dot(t[i].q, O.mult(t[k].p)) == 0.0 {
        QP(S, O, t, k, i);
      }
    }
  }

  lemma OwnDirection<V(!new)>(S: Space<V>, O: Operators<V>, t: seq<Pair<V>>, k: nat)
    requires InnerProduct(S) && Adjoints(S, O) && Run(S, O, t) && k < |t|
    requires k > 0 ==> S.dot(t[k - 1].q, t[k].v) == 0.0
    ensures S.dot(t[k].q, t[k].v) == t[k].delta
  {
    hide InnerProduct, Adjoint, Combines;
    var c := t[k];
    assert Recurrence(S, O, t, k);
    Move(S, O.solve, O.transSolve, c.v, c.w);
    Symmetric(S, O.solve(c.v), c.w);
    if k > 0 {
      var o := t[k - 1];
      Read(S, 1.0, c.q, 1.0, O.transSolve(c.w), -c.g, o.q, c.v);
    }
    Symmetric(S, O.transSolve(c.w), c.v);
  }

  lemma QV<V(!new)>(S: Space<V>, O: Operators<V>, t: seq<Pair<V>>, k: nat, i: nat)
    requires InnerProduct(S) && Adjoints(S, O) && Run(S, O, t) && i < k < |t|
    requires OrthogonalTo(S, O, t, k - 1)
    ensures S.dot(t[i].q, t[k].v) == 0.0
  {
    hide InnerProduct, Adjoint, Combines;
    var c, o := t[k], t[k - 1];
    assert Recurrence(S, O, t, k);
    Read(S, c.rho, c.v, 1.0, O.mult(o.p), -o.beta, o.v, t[i].q);
    if i < k - 1 {
      assert Orthogonal(S, O, t, i, k - 1);
    } else {
      assert Recurrence(S, O, t, k - 1);
      assert k - 1 > 0 ==> Orthogonal(S, O, t, k - 2, k - 1);
      OwnDirection(S, O, t, k - 1);
    }
  }

  lemma WV<V(!new)>(S: Space<V>, O: Operators<V>, t: seq<Pair<V>>, k: nat, i: nat)
    requires InnerProduct(S) && Adjoints(S, O) && Run(S, O, t) && i < k < |t|
    requires forall j: nat :: j < k ==> S.dot(t[j].q, t[k].v) == 0.0
    ensures S.dot(t[i].w, O.solve(t[k].v)) == 0.0
  {
    hide InnerProduct, Adjoint, Combines;
    var c, y := t[i], t[k].v;
    assert Recurrence(S, O, t, i);
    Move(S, O.solve, O.transSolve, y, c.w);
    Symmetric(S, O.solve(y), c.w);
    Symmetric(S, O.transSolve(c.w), y);
    if i > 0 {
      var o := t[i - 1];
      Read(S, 1.0, c.q, 1.0, O.transSolve(c.w), -c.g, o.q, y);
    }
  }

  lemma QP<V(!new)>(S: Space<V>, O: Operators<V>, t: seq<Pair<V>>, k: nat, i: nat)
    requires InnerProduct(S) && Adjoints(S, O) && Run(S, O, t) && i < k < |t|
    requires OrthogonalTo(S, O, t, k - 1)
    requires forall j: nat :: j < k ==> S.dot(t[j].w, O.solve(t[k].v)) == 0.0
    ensures S.dot(t[i].q, O.mult(t[k].p)) == 0.0
  {
    hide InnerProduct, Adjoint, Combines;
    var c, o, n, d := t[k], t[k - 1], t[i + 1], t[i];
    assert Recurrence(S, O, t, k);
    assert Recurrence(S, O, t, i + 1);
    var y := O.transMult(d.q);
    // <q_i, A p_k> moves A onto q_i, where the recurrence of the next w applies.
    Move(S, O.mult, O.transMult, c.p, d.q);
    Move(S, O.mult, O.transMult, o.p, d.q);
    Symmetric(S, O.mult(c.p), d.q);
    Symmetric(S, O.mult(o.p), d.q);
    Read(S, 1.0, c.p, 1.0, O.solve(c.v), -c.f, o.p, y);
    Read(S, n.xi, n.w, 1.0, y, -d.beta, d.w, O.solve(c.v));
    Symmetric(S, y, O.solve(c.v));
    if i < k - 1 {
      assert Orthogonal(S, O, t, i, k - 1);
    } else {
      assert Recurrence(S, O, t, k - 1);
    }
  }

  // The mirror image

  function Swap<V>(c: Pair<V>): Pair<V> {
    Pair(c.w, c.v, c.q, c.p, c.xi, c.rho, c.delta, c.eps, c.beta, c.g, c.f)
  }

  function SwapAll<V>(t: seq<Pair<V>>): seq<Pair<V>> {
    seq(|t|, i requires 0 <= i < |t| => Swap(t[i]))
  }

  function Transpose<V>(O: Operators<V>): Operators<V> {
    Operators(O.transMult, O.mult, O.transSolve, O.solve)
  }

  /** Exchanging the families and transposing the operators gives a run again. */
  lemma Duality<V(!new)>(S: Space<V>, O: Operators<V>, t: seq<Pair<V>>)
    requires InnerProduct(S) && Adjoints(S, O) && Run(S, O, t)
    ensures Adjoints(S, Transpose(O)) && Run(S, Transpose(O), SwapAll(t))
  {
    hide InnerProduct, Adjoint, Combines;
    Flip(S, O.mult, O.transMult);
    Flip(S, O.solve, O.transSolve);
    forall k: nat | k < |t| ensures Recurrence(S, Transpose(O), SwapAll(t), k) {
      var c := t[k];
      assert Recurrence(S, O, t, k);
      Move(S, O.solve, O.transSolve, c.v, c.w);
      Symmetric(S, O.solve(c.v), c.w);
      Move(S, O.mult, O.transMult, c.p, c.q);
      Symmetric(S, O.mult(c.p), c.q);
    }
  }

  /** The two families are biorthogonal in both directions. */
  lemma Biorthogonal<V(!new)>(S: Space<V>, O: Operators<V>, t: seq<Pair<V>>, i: nat, k: nat)
    requires InnerProduct(S) && Adjoints(S, O) && Run(S, O, t) && i < |t| && k < |t| && i != k
    ensures S.dot(t[i].w, O.solve(t[k].v)) == 0.0
    ensures S.dot(t[i].q, O.mult(t[k].p)) == 0.0
    ensures i < k ==> S.dot(t[i].q, t[k].v) == 0.0
    ensures i > k ==> S.dot(t[i].w, t[k].p) == 0.0
  {
    hide InnerProduct, Adjoint, Combines;
    if i < k {
      HalfBiorthogonal(S, O, t, k);
      assert Orthogonal(S, O, t, i, k);
    } else {
      Duality(S, O, t);
      HalfBiorthogonal(S, Transpose(O), SwapAll(t), i);
      assert Orthogonal(S, Transpose(O), SwapAll(t), k, i);
      Move(S, O.solve, O.transSolve, t[k].v, t[i].w);
      Symmetric(S, O.solve(t[k].v), t[i].w);
      Move(S, O.mult, O.transMult, t[k].p, t[i].q);
      Symmetric(S, O.mult(t[k].p), t[i].q);
      Symmetric(S, t[i].w, t[k].p);
    }
  }

  function Solved<V>(O: Operators<V>, t: seq<Pair<V>>): (z: seq<V>)
    ensures |z| == |t| && forall k :: 0 <= k < |t| ==> z[k] == O.solve(t[k].v)
  {
    if t == [] then [] else Solved(O, t[..|t| - 1]) + [O.solve(t[|t| - 1].v)]
  }

  /** In dimension n a run whose last delta is not zero either has at most n links. */
  lemma Short<V(!new)>(S: Space<V>, O: Operators<V>, t: seq<Pair<V>>, n: nat)
    requires InnerProduct(S) && Adjoints(S, O) && Run(S, O, t) && Dimension(S, n)
    requires t != [] ==> t[|t| - 1].delta != 0.0
    ensures |t| <= n
  {
    hide InnerProduct, Adjoints, Combination, Run, Solved;
    if |t| > n {
      var z := Solved(O, t);
      assert Dependent(S, z);
      var c: seq<real> :| |c| == |z| && !Vanishes(c) && Combination(S, c, z) == S.zero;
      forall j | 0 <= j < |c| ensures c[j] == 0.0 {
        Coefficient(S, O, t, c, z, j);
      }
    }
  }

  lemma Coefficient<V(!new)>(S: Space<V>, O: Operators<V>, t: seq<Pair<V>>, c: seq<real>, z: seq<V>, j: nat)
    requires InnerProduct(S) && Adjoints(S, O) && Run(S, O, t) && j < |c| == |z| == |t|
    requires z == Solved(O, t) && Combination(S, c, z) == S.zero && t[|t| - 1].delta != 0.0
    ensures c[j] == 0.0
  {
    hide InnerProduct, Adjoints, Combination, Run, Solved;
    var w := t[j].w;
    forall i | 0 <= i < |c| && i != j ensures S.dot(z[i], w) == 0.0 {
      Biorthogonal(S, O, t, j, i);
      Symmetric(S, w, z[i]);
    }
    PicksOut(S, c, z, j, w);
    Zero(S, w);
    Symmetric(S, w, z[j]);
    LinkDelta(S, O, t, j);
    ZeroProduct(c[j], S.dot(z[j], w));
  }

  lemma LinkDelta<V(!new)>(S: Space<V>, O: Operators<V>, t: seq<Pair<V>>, j: nat)
    requires Run(S, O, t) && j < |t| && t[|t| - 1].delta != 0.0
    ensures S.dot(t[j].w, O.solve(t[j].v)) != 0.0
  {
    assert Recurrence(S, O, t, j);
    if j + 1 < |t| {
      assert Recurrence(S, O, t, j + 1);
    }
  }
}
