/** R^n with the dot product the solvers compute, for any n: the Space laws hold, and its dimension is n. */
module Euclidean {
  import opened Reals
  import opened VectorSpaces
  import opened Combinations

  /** The dimension: any natural number. */
  const DIM: nat

  type Vec = v: seq<real> | |v| == DIM witness seq(DIM, _ => 0.0)

  function Axpy(u: Vec, a: real, v: Vec): Vec {
    seq(DIM, i requires 0 <= i < DIM => u[i] + a * v[i])
  }

  function DotTo(u: Vec, v: Vec, k: nat): real
    requires k <= DIM
  {
    if k == 0 then 0.0 else DotTo(u, v, k - 1) + u[k - 1] * v[k - 1]
  }

  function Dot(u: Vec, v: Vec): real {
    DotTo(u, v, DIM)
  }

  function Origin(): Vec {
    seq(DIM, _ => 0.0)
  }

  function Rn(sqrt: real -> real): Space<Vec> {
    Space(Origin(), Axpy, Dot, (v: Vec) => sqrt(Dot(v, v)))
  }

  lemma {:induction false} DotToLaws(u: Vec, a: real, v: Vec, t: Vec, k: nat)
    requires k <= DIM
    ensures DotTo(Axpy(u, a, v), t, k) == DotTo(u, t, k) + a * DotTo(v, t, k)
    ensures DotTo(u, v, k) == DotTo(v, u, k)
    ensures DotTo(Origin(), t, k) == 0.0
    ensures DotTo(u, u, k) >= 0.0
    ensures DotTo(u, u, k) == 0.0 ==> forall i :: 0 <= i < k ==> u[i] == 0.0
  {
    if k > 0 {
      DotToLaws(u, a, v, t, k - 1);
      var x := u[k - 1];
      assert x * x >= 0.0;
      if DotTo(u, u, k) == 0.0 {
        ZeroProduct(x, x);
      }
    }
  }

  lemma DotLaws(u: Vec, a: real, v: Vec, t: Vec)
    ensures Dot(Axpy(u, a, v), t) == Dot(u, t) + a * Dot(v, t)
    ensures Dot(u, v) == Dot(v, u)
    ensures Dot(Origin(), t) == 0.0 <= Dot(u, u)
  {
    hide Axpy, Origin;
    DotToLaws(u, a, v, t, DIM);
  }

  lemma Definite(u: Vec, v: Vec)
    requires Dot(Axpy(u, -1.0, v), Axpy(u, -1.0, v)) == 0.0
    ensures u == v
  {
    var d := Axpy(u, -1.0, v);
    DotToLaws(d, 0.0, d, d, DIM);
    forall i | 0 <= i < DIM ensures u[i] == v[i] {
      assert d[i] == 0.0;
    }
  }

  /** R^n is an inner-product space, for every square-root function. */
  lemma IsInnerProduct(sqrt: real -> real)
    requires IsRoot(sqrt)
    ensures InnerProduct(Rn(sqrt))
  {
    hide Dot, Axpy, Origin;
    var S := Rn(sqrt);
    forall u, a, v, t ensures S.dot(S.axpy(u, a, v), t) == S.dot(u, t) + a * S.dot(v, t) {
      DotLaws(u, a, v, t);
    }
    forall u, v ensures S.dot(u, v) == S.dot(v, u) && S.dot(S.zero, u) == 0.0 && S.dot(u, u) >= 0.0 {
      DotLaws(u, 0.0, v, u);
    }
    forall u, v | S.dot(S.axpy(u, -1.0, v), S.axpy(u, -1.0, v)) == 0.0 ensures u == v {
      Definite(u, v);
    }
  }

  /** The vector is zero outside the given positions. */
  ghost predicate SupportedOn(v: Vec, positions: set<nat>) {
    forall i: nat :: i < DIM && i !in positions ==> v[i] == 0.0
  }

  function Multipliers(v: seq<Vec>, l: nat, pivot: real): (f: seq<real>)
    requires l < DIM && pivot != 0.0
    ensures |f| == |v| && forall i :: 0 <= i < |v| ==> f[i] * pivot == v[i][l]
  {
    if v == [] then [] else Multipliers(v[..|v| - 1], l, pivot) + [v[|v| - 1][l] / pivot]
  }

  function Eliminated(v: seq<Vec>, f: seq<real>, p: Vec): (w: seq<Vec>)
    requires |v| == |f|
    ensures |w| == |v| && forall i :: 0 <= i < |v| ==> w[i] == Axpy(v[i], -f[i], p)
  {
    if v == [] then [] else Eliminated(v[..|v| - 1], f[..|v| - 1], p) + [Axpy(v[|v| - 1], -f[|v| - 1], p)]
  }

  /** Gaussian elimination: more vectors than positions they occupy are dependent. */
  lemma {:induction false} Elimination(sqrt: real -> real, v: seq<Vec>, positions: set<nat>)
    requires IsRoot(sqrt) && |v| > |positions|
    requires forall i :: 0 <= i < |v| ==> SupportedOn(v[i], positions)
    ensures Dependent(Rn(sqrt), v)
    decreases |v|
  {
    hide SupportedOn, Rn, Axpy, InnerProduct, Combination, Vanishes;
    var S, k := Rn(sqrt), |v| - 1;
    IsInnerProduct(sqrt);
    var p := v[k];
    if l: nat :| l < DIM && p[l] != 0.0 {
      var f, w := Pivot(v, l, positions);
      RnAxpy(sqrt);
      Elimination(sqrt, w, positions - {l});
      var d: seq<real> :| |d| == |w| && !Vanishes(d) && Combination(S, d, w) == S.zero;
      Combined(sqrt, v, w, f, d);
    } else {
      OnlyZeros(sqrt, p);
      LastIsZero(sqrt, v);
    }
  }

  /** Position l cleared from all vectors but the last. */
  lemma Pivot(v: seq<Vec>, l: nat, positions: set<nat>) returns (f: seq<real>, w: seq<Vec>)
    requires v != [] && l < DIM && v[|v| - 1][l] != 0.0
    requires forall i :: 0 <= i < |v| ==> SupportedOn(v[i], positions)
    ensures l in positions && |f| == |w| == |v| - 1
    ensures forall i :: 0 <= i < |w| ==> w[i] == Axpy(v[i], -f[i], v[|v| - 1]) && SupportedOn(w[i], positions - {l})
  {
    hide Axpy, SupportedOn;
    var k, p := |v| - 1, v[|v| - 1];
    f := Multipliers(v[..k], l, p[l]);
    w := Eliminated(v[..k], f, p);
    Outside(p, positions, l);
    forall i | 0 <= i < k ensures SupportedOn(w[i], positions - {l}) {
      Cleared(v[i], f[i], p, positions, l);
    }
  }

  lemma Outside(p: Vec, positions: set<nat>, l: nat)
    requires SupportedOn(p, positions) && l < DIM && p[l] != 0.0
    ensures l in positions
  {
  }

  lemma Cleared(u: Vec, f: real, p: Vec, positions: set<nat>, l: nat)
    requires SupportedOn(u, positions) && SupportedOn(p, positions) && l < DIM && f * p[l] == u[l]
    ensures SupportedOn(Axpy(u, -f, p), positions - {l})
  {
    forall i: nat | i < DIM && i !in positions - {l} ensures Axpy(u, -f, p)[i] == 0.0 {
      assert i != l ==> u[i] == 0.0 == p[i];
    }
  }

  lemma RnAxpy(sqrt: real -> real)
    ensures Rn(sqrt).axpy == Axpy
  {
  }

  lemma OnlyZeros(sqrt: real -> real, p: Vec)
    requires forall l: nat :: l < DIM ==> p[l] == 0.0
    ensures p == Rn(sqrt).zero
  {
    assert p == Origin();
  }

  lemma Combined(sqrt: real -> real, v: seq<Vec>, w: seq<Vec>, f: seq<real>, d: seq<real>)
    requires InnerProduct(Rn(sqrt)) && |v| - 1 == |w| == |f| == |d| && !Vanishes(d)
    requires forall i :: 0 <= i < |w| ==> w[i] == Rn(sqrt).axpy(v[i], -f[i], v[|v| - 1])
    requires Combination(Rn(sqrt), d, w) == Rn(sqrt).zero
    ensures Dependent(Rn(sqrt), v)
  {
    hide InnerProduct, Rn;
    var S, k := Rn(sqrt), |v| - 1;
    var c := d + [-SumOfProducts(d, f)];
    Shifted(S, d, v, w, f, v[k]);
    assert c[..k] == d;
    assert Combination(S, c, v) == S.zero;
    assert !Vanishes(c) by {
      var i :| 0 <= i < |d| && d[i] != 0.0;
      assert c[i] != 0.0;
    }
  }

  lemma LastIsZero(sqrt: real -> real, v: seq<Vec>)
    requires InnerProduct(Rn(sqrt)) && |v| > 0 && v[|v| - 1] == Rn(sqrt).zero
    ensures Dependent(Rn(sqrt), v)
  {
    hide InnerProduct, Rn;
    var S, k := Rn(sqrt), |v| - 1;
    var c := Zeros(k) + [1.0];
    forall t ensures S.dot(Combination(S, c, v), t) == S.dot(S.zero, t) {
      Zero(S, t);
      Annihilated(S, c, v, t);
    }
    Same(S, Combination(S, c, v), S.zero);
    assert c[k] == 1.0;
  }

  function Zeros(k: nat): (z: seq<real>)
    ensures |z| == k && Vanishes(z)
  {
    if k == 0 then [] else Zeros(k - 1) + [0.0]
  }

  function Positions(k: nat): (s: set<nat>)
    ensures |s| == k && forall i: nat :: i in s <==> i < k
  {
    if k == 0 then {} else Positions(k - 1) + {k - 1}
  }

  /** R^n has dimension n. */
  lemma HasDimension(sqrt: real -> real)
    requires IsRoot(sqrt)
    ensures Dimension(Rn(sqrt), DIM)
  {
    forall v: seq<Vec> | |v| > DIM ensures Dependent(Rn(sqrt), v) {
      Elimination(sqrt, v, Positions(DIM));
    }
  }
}
