/** Linear combinations, and the dimension of a space as a bound on independence. */
module Combinations {
  import opened Reals
  import opened VectorSpaces

  /** c[0]*v[0] + ... + c[k-1]*v[k-1], for k = |c|. */
  function Combination<V>(S: Space<V>, c: seq<real>, v: seq<V>): V
    requires |c| <= |v|
    decreases |c|
  {
    if c == [] then S.zero
    else
      var k := |c| - 1;
      S.axpy(Combination(S, c[..k], v), c[k], v[k])
  }

  ghost predicate Vanishes(c: seq<real>) {
    forall i :: 0 <= i < |c| ==> c[i] == 0.0
  }

  /** More than n vectors are always linearly dependent. */
  ghost predicate Dimension<V(!new)>(S: Space<V>, n: nat) {
    forall v: seq<V> :: |v| > n ==> Dependent(S, v)
  }

  ghost predicate Dependent<V(!new)>(S: Space<V>, v: seq<V>) {
    exists c: seq<real> :: |c| == |v| && !Vanishes(c) && Combination(S, c, v) == S.zero
  }

  /** Only the first |c| vectors matter. */
  lemma {:induction false} CombinationPrefix<V>(S: Space<V>, c: seq<real>, v: seq<V>, w: seq<V>)
    requires |c| <= |v| && |c| <= |w| && v[..|c|] == w[..|c|]
    ensures Combination(S, c, v) == Combination(S, c, w)
    decreases |c|
  {
    if c != [] {
      var k := |c| - 1;
      assert v[..k] == v[..|c|][..k] && w[..k] == w[..|c|][..k];
      assert v[k] == v[..|c|][k] && w[k] == w[..|c|][k];
      CombinationPrefix(S, c[..k], v, w);
    }
  }

  lemma EmptyCombination<V>(S: Space<V>, v: seq<V>)
    ensures Combination(S, [], v) == S.zero
  {
  }

  lemma Unfold<V>(S: Space<V>, c: seq<real>, v: seq<V>)
    requires 0 < |c| <= |v|
    ensures var k := |c| - 1; Combination(S, c, v) == S.axpy(Combination(S, c[..k], v), c[k], v[k])
  {
  }

  lemma LastTerm<V(!new)>(S: Space<V>, c: seq<real>, v: seq<V>, t: V)
    requires InnerProduct(S) && 0 < |c| <= |v|
    ensures var k := |c| - 1;
      && Combination(S, c, v) == S.axpy(Combination(S, c[..k], v), c[k], v[k])
      && S.dot(Combination(S, c, v), t) == S.dot(Combination(S, c[..k], v), t) + c[k] * S.dot(v[k], t)
  {
    hide InnerProduct, Combination;
    Unfold(S, c, v);
    Expand(S, Combination(S, c[..|c| - 1], v), c[|c| - 1], v[|c| - 1], t);
  }

  /** A functional that vanishes on the vectors vanishes on their combinations. */
  lemma {:induction false} Annihilated<V(!new)>(S: Space<V>, c: seq<real>, v: seq<V>, t: V)
    requires InnerProduct(S) && |c| <= |v|
    requires forall i :: 0 <= i < |c| ==> S.dot(v[i], t) == 0.0 || c[i] == 0.0
    ensures S.dot(Combination(S, c, v), t) == 0.0
    decreases |c|
  {
    hide InnerProduct;
    if c == [] {
      Zero(S, t);
    } else {
      var k := |c| - 1;
      Annihilated(S, c[..k], v, t);
      Expand(S, Combination(S, c[..k], v), c[k], v[k], t);
    }
  }

  /** A functional that vanishes on all the vectors but one picks out its coefficient. */
  lemma {:induction false} PicksOut<V(!new)>(S: Space<V>, c: seq<real>, v: seq<V>, j: nat, t: V)
    requires InnerProduct(S) && j < |c| <= |v|
    requires forall i :: 0 <= i < |c| && i != j ==> S.dot(v[i], t) == 0.0 || c[i] == 0.0
    ensures S.dot(Combination(S, c, v), t) == c[j] * S.dot(v[j], t)
    decreases |c|
  {
    hide InnerProduct;
    var k := |c| - 1;
    Expand(S, Combination(S, c[..k], v), c[k], v[k], t);
    if j == k {
      Annihilated(S, c[..k], v, t);
    } else {
      PicksOut(S, c[..k], v, j, t);
    }
  }

  /** In dimension n, only zero is orthogonal to n vectors that some second family tells apart. */
  lemma OrthogonalToAll<V(!new)>(S: Space<V>, n: nat, v: seq<V>, w: seq<V>, r: V)
    requires InnerProduct(S) && Dimension(S, n) && n <= |v| <= |w|
    requires forall i, j {:trigger S.dot(v[i], w[j])} :: 0 <= i < |v| && 0 <= j < |v| ==>
      (S.dot(v[i], w[j]) != 0.0 <==> i == j)
    requires forall i :: 0 <= i < |v| ==> S.dot(v[i], r) == 0.0
    ensures r == S.zero
  {
    hide InnerProduct;
    if r != S.zero {
      var f := v + [r];
      assert Dependent(S, f);
      var c: seq<real> :| |c| == |f| && !Vanishes(c) && Combination(S, c, f) == S.zero;
      forall i | 0 <= i < |v| ensures S.dot(f[i], r) == 0.0 {
        assert f[i] == v[i];
      }
      PicksOut(S, c, f, |v|, r);
      Zero(S, r);
      NullIsZero(S, r);
      ZeroProduct(c[|v|], S.dot(r, r));
      forall j | 0 <= j < |v| ensures c[j] == 0.0 {
        forall i | 0 <= i < |c| && i != j ensures S.dot(f[i], w[j]) == 0.0 || c[i] == 0.0 {
          if i < |v| {
            assert f[i] == v[i];
          }
        }
        PicksOut(S, c, f, j, w[j]);
        Zero(S, w[j]);
        ZeroProduct(c[j], S.dot(v[j], w[j]));
      }
    }
  }

  /** c[0]*d[0] + ... + c[k-1]*d[k-1], for k = |c|. */
  function SumOfProducts(c: seq<real>, d: seq<real>): real
    requires |c| <= |d|
    decreases |c|
  {
    if c == [] then 0.0
    else
      var k := |c| - 1;
      SumOfProducts(c[..k], d) + c[k] * d[k]
  }

  /** Shifting every vector by a multiple of p shifts their combination along p. */
  lemma {:induction false} Shifted<V(!new)>(S: Space<V>, c: seq<real>, v: seq<V>, w: seq<V>, f: seq<real>, p: V)
    requires InnerProduct(S) && |c| <= |v| && |c| <= |w| && |c| <= |f|
    requires forall i :: 0 <= i < |c| ==> w[i] == S.axpy(v[i], -f[i], p)
    ensures Combination(S, c, w) == S.axpy(Combination(S, c, v), -SumOfProducts(c, f), p)
  {
    hide InnerProduct;
    var l, r := Combination(S, c, w), S.axpy(Combination(S, c, v), -SumOfProducts(c, f), p);
    forall t ensures S.dot(l, t) == S.dot(r, t) {
      ShiftedAt(S, c, v, w, f, p, t);
      Expand(S, Combination(S, c, v), -SumOfProducts(c, f), p, t);
    }
    Same(S, l, r);
  }

  lemma {:induction false} ShiftedAt<V(!new)>(S: Space<V>, c: seq<real>, v: seq<V>, w: seq<V>, f: seq<real>, p: V, t: V)
    requires InnerProduct(S) && |c| <= |v| && |c| <= |w| && |c| <= |f|
    requires forall i :: 0 <= i < |c| ==> w[i] == S.axpy(v[i], -f[i], p)
    ensures S.dot(Combination(S, c, w), t) == S.dot(Combination(S, c, v), t) - SumOfProducts(c, f) * S.dot(p, t)
    decreases |c|
  {
    hide InnerProduct;
    if c == [] {
    } else {
      var k := |c| - 1;
      ShiftedAt(S, c[..k], v, w, f, p, t);
      Expand(S, Combination(S, c[..k], v), c[k], v[k], t);
      Expand(S, Combination(S, c[..k], w), c[k], w[k], t);
      Expand(S, v[k], -f[k], p, t);
      var a, b := S.dot(v[k], t), S.dot(p, t);
      assert c[k] * (a - f[k] * b) == c[k] * a - (c[k] * f[k]) * b;
      assert (SumOfProducts(c[..k], f) + c[k] * f[k]) * b == SumOfProducts(c[..k], f) * b + (c[k] * f[k]) * b;
    }
  }

  /** Terms outside two neighbouring places are kept, and those two keep their sum. */
  lemma {:induction false} PairChanged<V(!new)>(S: Space<V>, c: seq<real>, v: seq<V>, d: seq<real>, w: seq<V>, k: nat,
        t: V)
    requires InnerProduct(S) && k + 1 < |c| == |d| && |c| <= |v| && |c| <= |w|
    requires forall i :: 0 <= i < |c| && i != k && i != k + 1 ==> c[i] == d[i] && v[i] == w[i]
    requires c[k] * S.dot(v[k], t) + c[k + 1] * S.dot(v[k + 1], t) ==
      d[k] * S.dot(w[k], t) + d[k + 1] * S.dot(w[k + 1], t)
    ensures S.dot(Combination(S, c, v), t) == S.dot(Combination(S, d, w), t)
    decreases |c|
  {
    hide InnerProduct;
    var l := |c| - 1;
    Expand(S, Combination(S, c[..l], v), c[l], v[l], t);
    Expand(S, Combination(S, d[..l], w), d[l], w[l], t);
    if l == k + 1 {
      assert c[..l][..k] == d[..l][..k] && c[..l][k] == c[k] && d[..l][k] == d[k];
      Expand(S, Combination(S, c[..l][..k], v), c[k], v[k], t);
      Expand(S, Combination(S, d[..l][..k], w), d[k], w[k], t);
      CombinationPrefix(S, c[..l][..k], v, w);
    } else {
      PairChanged(S, c[..l], v, d[..l], w, k, t);
    }
  }

  /** B of a combination, seen by a functional that vanishes on the images. */
  lemma {:induction false} ImageAnnihilated<V(!new)>(S: Space<V>, B: V -> V, c: seq<real>, v: seq<V>, t: V)
    requires InnerProduct(S) && Linear(S, B) && |c| <= |v|
    requires forall j :: 0 <= j < |c| ==> S.dot(B(v[j]), t) == 0.0
    ensures S.dot(B(Combination(S, c, v)), t) == 0.0
    decreases |c|
  {
    hide InnerProduct, Linear;
    if c == [] {
      ZeroImage(S, B);
      Zero(S, t);
    } else {
      var k := |c| - 1;
      ImageAnnihilated(S, B, c[..k], v, t);
      Distribute(S, B, Combination(S, c[..k], v), c[k], v[k]);
      Expand(S, B(Combination(S, c[..k], v)), c[k], B(v[k]), t);
    }
  }

  lemma ZeroLast<V(!new)>(S: Space<V>, c: seq<real>, v: seq<V>)
    requires InnerProduct(S) && |c| < |v|
    ensures Combination(S, c + [0.0], v) == Combination(S, c, v)
  {
    hide InnerProduct;
    assert (c + [0.0])[..|c|] == c;
    AddNothing(S, Combination(S, c, v), 0.0, v[|c|]);
  }

  /** Combinations depend linearly on their coefficients. */
  lemma {:induction false} Coefficients<V(!new)>(S: Space<V>, c: seq<real>, a: seq<real>, f: real, b: seq<real>,
        v: seq<V>, t: V)
    requires InnerProduct(S) && |c| == |a| == |b| <= |v|
    requires forall i :: 0 <= i < |c| ==> c[i] == a[i] - f * b[i]
    ensures S.dot(Combination(S, c, v), t) == S.dot(Combination(S, a, v), t) - f * S.dot(Combination(S, b, v), t)
    decreases |c|
  {
    hide InnerProduct;
    if c == [] {
      Zero(S, t);
    } else {
      var k := |c| - 1;
      var x := S.dot(v[k], t);
      Coefficients(S, c[..k], a[..k], f, b[..k], v, t);
      Expand(S, Combination(S, c[..k], v), c[k], v[k], t);
      Expand(S, Combination(S, a[..k], v), a[k], v[k], t);
      Expand(S, Combination(S, b[..k], v), b[k], v[k], t);
      assert (a[k] - f * b[k]) * x == a[k] * x - f * (b[k] * x);
    }
  }
}
