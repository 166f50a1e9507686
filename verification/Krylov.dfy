/** The basis of a GMRES cycle spans what the powers of the operator make of the first residual. */
module Krylov {
  import opened Reals
  import opened VectorSpaces
  import opened Combinations
  import opened Cycle

  /** B^j r. */
  function Power<V>(B: V -> V, r: V, j: nat): V {
    if j == 0 then r else B(Power(B, r, j - 1))
  }

  /** r, B r, ..., B^(k-1) r. */
  function Powers<V>(B: V -> V, r: V, k: nat): (w: seq<V>)
    ensures |w| == k && forall j :: 0 <= j < k ==> w[j] == Power(B, r, j)
  {
    if k == 0 then [] else Powers(B, r, k - 1) + [Power(B, r, k - 1)]
  }

  /** u is a combination of the first k vectors. */
  ghost predicate Spanned<V(!new)>(S: Space<V>, w: seq<V>, k: nat, u: V)
    requires k <= |w|
  {
    exists c: seq<real> :: |c| == k && u == Combination(S, c, w)
  }

  // What is spanned

  /** a + f*b, entry by entry. */
  function Sum(a: seq<real>, f: real, b: seq<real>): (c: seq<real>)
    requires |a| == |b|
    ensures |c| == |a| && forall i :: 0 <= i < |a| ==> c[i] == a[i] - -f * b[i]
  {
    if a == [] then []
    else
      var k := |a| - 1;
      Sum(a[..k], f, b[..k]) + [a[k] - -f * b[k]]
  }

  lemma SumSpanned<V(!new)>(S: Space<V>, w: seq<V>, k: nat, u: V, a: real, v: V)
    requires InnerProduct(S) && k <= |w| && Spanned(S, w, k, u) && Spanned(S, w, k, v)
    ensures Spanned(S, w, k, S.axpy(u, a, v))
  {
    hide InnerProduct, Combination;
    var c: seq<real> :| |c| == k && u == Combination(S, c, w);
    var d: seq<real> :| |d| == k && v == Combination(S, d, w);
    var e := Sum(c, a, d);
    forall t ensures S.dot(Combination(S, e, w), t) == S.dot(S.axpy(u, a, v), t) {
      Coefficients(S, e, c, -a, d, w, t);
      Expand(S, u, a, v, t);
    }
    Same(S, Combination(S, e, w), S.axpy(u, a, v));
  }

  lemma {:induction false} MoreSpanned<V(!new)>(S: Space<V>, w: seq<V>, k: nat, l: nat, u: V)
    requires InnerProduct(S) && k <= l <= |w| && Spanned(S, w, k, u)
    ensures Spanned(S, w, l, u)
    decreases l - k
  {
    hide InnerProduct, Combination;
    if k < l {
      var c: seq<real> :| |c| == k && u == Combination(S, c, w);
      ZeroLast(S, c, w);
      assert |c + [0.0]| == k + 1;
      MoreSpanned(S, w, k + 1, l, u);
    }
  }

  /** Zeros span the zero vector. */
  lemma {:induction false} ZeroSpanned<V(!new)>(S: Space<V>, w: seq<V>, k: nat)
    requires InnerProduct(S) && k <= |w|
    ensures Spanned(S, w, k, S.zero)
  {
    hide InnerProduct, Combination;
    EmptyCombination(S, w);
    assert Spanned(S, w, 0, S.zero) by {
      var c: seq<real> := [];
      assert |c| == 0 && S.zero == Combination(S, c, w);
    }
    MoreSpanned(S, w, 0, k, S.zero);
  }

  /** Each of the vectors is spanned by those up to it. */
  lemma OwnSpanned<V(!new)>(S: Space<V>, w: seq<V>, j: nat)
    requires InnerProduct(S) && j < |w|
    ensures Spanned(S, w, j + 1, w[j])
  {
    hide InnerProduct, Combination;
    var c := Unit(j);
    forall t ensures S.dot(Combination(S, c, w), t) == S.dot(w[j], t) {
      PicksOut(S, c, w, j, t);
    }
    Same(S, Combination(S, c, w), w[j]);
  }

  /** j zeros and a one. */
  function Unit(j: nat): (c: seq<real>)
    ensures |c| == j + 1 && c[j] == 1.0 && forall i :: 0 <= i < j ==> c[i] == 0.0
  {
    if j == 0 then [1.0] else [0.0] + Unit(j - 1)
  }

  lemma {:induction false} CombinationSpanned<V(!new)>(S: Space<V>, c: seq<real>, v: seq<V>, w: seq<V>, k: nat)
    requires InnerProduct(S) && |c| <= |v| && k <= |w|
    requires forall i :: 0 <= i < |c| ==> Spanned(S, w, k, v[i])
    ensures Spanned(S, w, k, Combination(S, c, v))
    decreases |c|
  {
    hide InnerProduct, Spanned;
    if c == [] {
      ZeroSpanned(S, w, k);
    } else {
      var l := |c| - 1;
      CombinationSpanned(S, c[..l], v, w, k);
      SumSpanned(S, w, k, Combination(S, c[..l], v), c[l], v[l]);
    }
  }

  lemma {:induction false} ImageSpanned<V(!new)>(S: Space<V>, B: V -> V, c: seq<real>, v: seq<V>, w: seq<V>, k: nat)
    requires InnerProduct(S) && Linear(S, B) && |c| <= |v| && k <= |w|
    requires forall i :: 0 <= i < |c| ==> Spanned(S, w, k, B(v[i]))
    ensures Spanned(S, w, k, B(Combination(S, c, v)))
    decreases |c|
  {
    hide InnerProduct, Linear, Spanned;
    if c == [] {
      ZeroSpanned(S, w, k);
      ZeroImage(S, B);
    } else {
      var l := |c| - 1;
      ImageSpanned(S, B, c[..l], v, w, k);
      Distribute(S, B, Combination(S, c[..l], v), c[l], v[l]);
      SumSpanned(S, w, k, B(Combination(S, c[..l], v)), c[l], B(v[l]));
    }
  }

  // The basis and the powers

  /** The images of the first k basis vectors are spanned by the first k + 1. */
  lemma ImageInBasis<V(!new)>(S: Space<V>, B: V -> V, r: V, G: State<V>, j: nat, k: nat)
    requires InnerProduct(S) && Invariant(S, B, r, G) && j < k <= |G.g|
    ensures Spanned(S, G.v, k + 1, B(G.v[j]))
  {
    hide InnerProduct, Combination, Orthonormal, AllUnit, Triangular, Frame;
    assert Arnoldi(S, B, G, j);
    assert Spanned(S, G.v, j + 2, B(G.v[j]));
    MoreSpanned(S, G.v, j + 2, k + 1, B(G.v[j]));
  }

  /** B^j r is spanned by the first j + 1 basis vectors. */
  lemma {:induction false} PowerInBasis<V(!new)>(S: Space<V>, B: V -> V, r: V, G: State<V>, j: nat)
    requires InnerProduct(S) && Linear(S, B) && Invariant(S, B, r, G) && j <= |G.g|
    ensures |G.v| == |G.g| + 1 && Spanned(S, G.v, j + 1, Power(B, r, j))
  {
    hide InnerProduct, Linear, Combination, Orthonormal, AllUnit, Triangular, Arnoldi, Frame;
    if j > 0 {
      PowerInBasis(S, B, r, G, j - 1);
      var c: seq<real> :| |c| == j && Power(B, r, j - 1) == Combination(S, c, G.v);
      forall i | 0 <= i < |c| ensures Spanned(S, G.v, j + 1, B(G.v[i])) {
        ImageInBasis(S, B, r, G, i, j);
      }
      ImageSpanned(S, B, c, G.v, G.v, j + 1);
    }
  }

  /** What is left of a multiple of a spanned vector is spanned. */
  lemma RestSpanned<V(!new)>(S: Space<V>, w: seq<V>, k: nat, u: V, a: V, h: real, v: V)
    requires InnerProduct(S) && k <= |w| && Spanned(S, w, k, u) && Spanned(S, w, k, a)
    requires h != 0.0 && u == S.axpy(a, h, v)
    ensures Spanned(S, w, k, v)
  {
    hide InnerProduct, Spanned;
    var e, f := S.axpy(u, -1.0, a), 1.0 / h;
    var z := S.axpy(S.zero, f, e);
    ZeroSpanned(S, w, k);
    SumSpanned(S, w, k, u, -1.0, a);
    SumSpanned(S, w, k, S.zero, f, e);
    assert f * h == 1.0;
    forall t ensures S.dot(z, t) == S.dot(v, t) {
      Expand(S, S.zero, f, e, t);
      Zero(S, t);
      Expand(S, u, -1.0, a, t);
      Expand(S, a, h, v, t);
      assert f * (h * S.dot(v, t)) == (f * h) * S.dot(v, t);
    }
    Same(S, z, v);
  }

  /** B of what the first k powers span is spanned by one power more. */
  lemma ImageInPowers<V(!new)>(S: Space<V>, B: V -> V, r: V, u: V, k: nat, n: nat)
    requires InnerProduct(S) && Linear(S, B) && k < n && Spanned(S, Powers(B, r, n), k, u)
    ensures Spanned(S, Powers(B, r, n), k + 1, B(u))
  {
    hide InnerProduct, Linear, Combination;
    var w := Powers(B, r, n);
    var c: seq<real> :| |c| == k && u == Combination(S, c, w);
    forall i | 0 <= i < |c| ensures Spanned(S, w, k + 1, B(w[i])) {
      assert w[i + 1] == B(w[i]);
      OwnSpanned(S, w, i + 1);
      MoreSpanned(S, w, i + 2, k + 1, w[i + 1]);
    }
    ImageSpanned(S, B, c, w, w, k + 1);
  }

  /** The first basis vector is a multiple of r. */
  lemma FirstInPowers<V(!new)>(S: Space<V>, B: V -> V, r: V, G: State<V>, n: nat)
    requires InnerProduct(S) && Invariant(S, B, r, G) && 0 < n
    ensures |G.v| > 0 && Spanned(S, Powers(B, r, n), 1, G.v[0])
  {
    hide InnerProduct, Combination, Orthonormal, AllUnit, Triangular, Arnoldi, Frame;
    var w, c := Powers(B, r, n), [S.norm(r)];
    assert w[0] == r;
    OwnSpanned(S, w, 0);
    Unfold(S, c, G.v);
    EmptyCombination(S, G.v);
    assert c[..0] == [];
    ZeroSpanned(S, w, 1);
    RestSpanned(S, w, 1, r, S.zero, S.norm(r), G.v[0]);
  }

  /** The j-th basis vector is spanned by r, B r, ..., B^j r. */
  lemma {:induction false} BasisInPowers<V(!new)>(S: Space<V>, B: V -> V, r: V, G: State<V>, j: nat, n: nat)
    requires InnerProduct(S) && Linear(S, B) && Invariant(S, B, r, G) && j < n && j <= |G.g|
    ensures |G.v| == |G.g| + 1 && Spanned(S, Powers(B, r, n), j + 1, G.v[j])
    decreases j
  {
    hide InnerProduct, Linear, Combination, Orthonormal, AllUnit, Triangular, Frame, Spanned;
    if j == 0 {
      FirstInPowers(S, B, r, G, n);
    } else {
      var w := Powers(B, r, n);
      assert Arnoldi(S, B, G, j - 1);
      var h := G.raw[j - 1];
      forall i | 0 <= i < j ensures Spanned(S, w, j + 1, G.v[i]) {
        BasisInPowers(S, B, r, G, i, n);
        MoreSpanned(S, w, i + 1, j + 1, G.v[i]);
      }
      CombinationSpanned(S, h[..j], G.v, w, j + 1);
      BasisInPowers(S, B, r, G, j - 1, n);
      ImageInPowers(S, B, r, G.v[j - 1], j, n);
      Unfold(S, h, G.v);
      RestSpanned(S, w, j + 1, B(G.v[j - 1]), Combination(S, h[..j], G.v), h[j], G.v[j]);
    }
  }

  /** The first k vectors of the basis span the Krylov space of r, B r, ..., B^(k-1) r, and nothing else. */
  lemma SameSpan<V(!new)>(S: Space<V>, B: V -> V, r: V, G: State<V>, k: nat, u: V)
    requires InnerProduct(S) && Linear(S, B) && Invariant(S, B, r, G) && k <= |G.g| + 1
    ensures |G.v| == |G.g| + 1 && (Spanned(S, G.v, k, u) <==> Spanned(S, Powers(B, r, k), k, u))
  {
    hide InnerProduct, Linear, Combination, Orthonormal, AllUnit, Triangular, Arnoldi, Frame;
    var w := Powers(B, r, k);
    if Spanned(S, G.v, k, u) {
      var c: seq<real> :| |c| == k && u == Combination(S, c, G.v);
      forall i | 0 <= i < k ensures Spanned(S, w, k, G.v[i]) {
        BasisInPowers(S, B, r, G, i, k);
        MoreSpanned(S, w, i + 1, k, G.v[i]);
      }
      CombinationSpanned(S, c, G.v, w, k);
    }
    if Spanned(S, w, k, u) {
      var c: seq<real> :| |c| == k && u == Combination(S, c, w);
      forall i | 0 <= i < k ensures Spanned(S, G.v, k, w[i]) {
        PowerInBasis(S, B, r, G, i);
        MoreSpanned(S, G.v, i + 1, k, w[i]);
      }
      CombinationSpanned(S, c, w, G.v, k);
    }
  }
}
