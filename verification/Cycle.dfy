/**
  The mathematics of one GMRES cycle: an orthonormal Krylov basis v, the plane rotations applied to
  it, and the triangular system those leave. The rotations turn the basis v[0..i] into another
  orthonormal family: Final(0..i-1), which spans the images B v[j], and Front(i), orthogonal to them.
 */
module Cycle {
  import opened Reals
  import opened VectorSpaces
  import opened Combinations
  import opened Rotations

  ghost predicate Orthonormal<V(!new)>(S: Space<V>, v: seq<V>) {
    forall i, j {:trigger S.dot(v[i], v[j])} :: 0 <= i < |v| && 0 <= j < |v| ==>
      S.dot(v[i], v[j]) == if i == j then 1.0 else 0.0
  }

  ghost predicate AllUnit(g: seq<Rotation>) {
    forall k :: 0 <= k < |g| ==> g[k].Unit()
  }

  /** v[k] after the rotations 0..k-1 have passed over it. */
  function Front<V>(S: Space<V>, v: seq<V>, g: seq<Rotation>, k: nat): V
    requires k < |v| && k <= |g|
  {
    if k == 0 then v[0] else S.axpy(S.Scale(-g[k - 1].sn, Front(S, v, g, k - 1)), g[k - 1].cs, v[k])
  }

  /** What rotation k leaves in place k. */
  function Final<V>(S: Space<V>, v: seq<V>, g: seq<Rotation>, k: nat): V
    requires k + 1 < |v| && k < |g|
  {
    S.axpy(S.Scale(g[k].cs, Front(S, v, g, k)), g[k].sn, v[k + 1])
  }

  function Finals<V>(S: Space<V>, v: seq<V>, g: seq<Rotation>, k: nat): (u: seq<V>)
    requires k < |v| && k <= |g|
    ensures |u| == k && forall j :: 0 <= j < k ==> u[j] == Final(S, v, g, j)
  {
    if k == 0 then [] else Finals(S, v, g, k - 1) + [Final(S, v, g, k - 1)]
  }

  /** The basis after k rotations. */
  function Frame<V>(S: Space<V>, v: seq<V>, g: seq<Rotation>, k: nat): (f: seq<V>)
    requires k < |v| && k <= |g|
    ensures |f| == |v| && f[k] == Front(S, v, g, k)
    ensures forall j :: 0 <= j < k ==> f[j] == Final(S, v, g, j)
    ensures forall j :: k < j < |v| ==> f[j] == v[j]
  {
    Finals(S, v, g, k) + [Front(S, v, g, k)] + v[k + 1..]
  }

  lemma FrontDot<V(!new)>(S: Space<V>, v: seq<V>, g: seq<Rotation>, k: nat, t: V)
    requires InnerProduct(S) && k + 1 < |v| && k < |g|
    ensures S.dot(Front(S, v, g, k + 1), t) == g[k].Dy(S.dot(Front(S, v, g, k), t), S.dot(v[k + 1], t))
    ensures S.dot(Final(S, v, g, k), t) == g[k].Dx(S.dot(Front(S, v, g, k), t), S.dot(v[k + 1], t))
  {
    hide InnerProduct, Space.Scale;
    var d := Front(S, v, g, k);
    ExpandScale(S, -g[k].sn, d, t);
    ExpandScale(S, g[k].cs, d, t);
    Expand(S, S.Scale(-g[k].sn, d), g[k].cs, v[k + 1], t);
    Expand(S, S.Scale(g[k].cs, d), g[k].sn, v[k + 1], t);
  }

  // The rotated family is orthonormal

  lemma {:induction false} FrontAhead<V(!new)>(S: Space<V>, v: seq<V>, g: seq<Rotation>, k: nat, t: V)
    requires InnerProduct(S) && k < |v| && k <= |g|
    requires forall j :: 0 <= j <= k ==> S.dot(v[j], t) == 0.0
    ensures S.dot(Front(S, v, g, k), t) == 0.0
    ensures forall j: nat :: j < k ==> S.dot(Final(S, v, g, j), t) == 0.0
  {
    hide InnerProduct, Final, Front;
    if k == 0 {
      FrontStart(S, v, g);
    } else {
      FrontAhead(S, v, g, k - 1, t);
      FrontDot(S, v, g, k - 1, t);
    }
  }

  lemma FrontStart<V>(S: Space<V>, v: seq<V>, g: seq<Rotation>)
    requires |v| > 0
    ensures Front(S, v, g, 0) == v[0]
  {
  }

  lemma {:induction false} FrontUnit<V(!new)>(S: Space<V>, v: seq<V>, g: seq<Rotation>, k: nat)
    requires InnerProduct(S) && Orthonormal(S, v) && AllUnit(g) && k < |v| && k <= |g|
    ensures S.dot(Front(S, v, g, k), Front(S, v, g, k)) == 1.0
    ensures forall j: nat :: j < k ==> S.dot(Final(S, v, g, j), Front(S, v, g, k)) == 0.0
  {
    hide InnerProduct, Final, Front;
    if k == 0 {
      FrontStart(S, v, g);
    } else {
      var d, d', n := Front(S, v, g, k - 1), Front(S, v, g, k), v[k];
      FrontUnit(S, v, g, k - 1);
      FrontAhead(S, v, g, k - 1, n);
      Symmetric(S, d, n);
      Symmetric(S, d, d');
      Symmetric(S, n, d');
      FrontDot(S, v, g, k - 1, d);
      FrontDot(S, v, g, k - 1, n);
      FrontDot(S, v, g, k - 1, d');
      assert g[k - 1].Unit();
      assert g[k - 1].Dy(-g[k - 1].sn, g[k - 1].cs) == g[k - 1].sn * g[k - 1].sn + g[k - 1].cs * g[k - 1].cs;
      assert g[k - 1].Dx(-g[k - 1].sn, g[k - 1].cs) == 0.0;
      forall j: nat | j < k ensures S.dot(Final(S, v, g, j), d') == 0.0 {
        if j < k - 1 {
          var u := Final(S, v, g, j);
          Symmetric(S, u, d);
          Symmetric(S, u, d');
          Symmetric(S, u, n);
          FrontDot(S, v, g, k - 1, u);
        }
      }
    }
  }

  /** Front and Final look at a prefix of the basis and of the rotations only. */
  lemma {:induction false} Stable<V>(S: Space<V>, v: seq<V>, g: seq<Rotation>, v': seq<V>, g': seq<Rotation>, k: nat)
    requires k < |v| && k <= |g| && v <= v' && g <= g'
    ensures Front(S, v', g', k) == Front(S, v, g, k)
    ensures forall j: nat :: j < k ==> Final(S, v', g', j) == Final(S, v, g, j)
  {
    if k > 0 {
      Stable(S, v, g, v', g', k - 1);
    }
  }

  // Columns of the Hessenberg matrix under the rotations

  function RotateAt(col: seq<real>, g: Rotation, k: nat): (c: seq<real>)
    requires k + 1 < |col|
    ensures |c| == |col|
  {
    col[k := g.Dx(col[k], col[k + 1])][k + 1 := g.Dy(col[k], col[k + 1])]
  }

  /** The column after rotations 0..k-1, in that order. */
  function Rotated(col: seq<real>, g: seq<Rotation>, k: nat): (c: seq<real>)
    requires k < |col| && k <= |g|
    ensures |c| == |col| && forall l :: k < l < |col| ==> c[l] == col[l]
  {
    if k == 0 then col else RotateAt(Rotated(col, g, k - 1), g[k - 1], k - 1)
  }

  /** A rotated column names the same vector in the rotated basis. */
  lemma {:induction false} RotationKeeps<V(!new)>(S: Space<V>, v: seq<V>, g: seq<Rotation>, col: seq<real>, k: nat)
    requires InnerProduct(S) && AllUnit(g) && |col| == |v| && k < |v| && k <= |g|
    ensures Combination(S, Rotated(col, g, k), Frame(S, v, g, k)) == Combination(S, col, v)
  {
    hide InnerProduct, Final, Front, Rotation.Dx, Rotation.Dy;
    if k == 0 {
      FrontStart(S, v, g);
      assert Frame(S, v, g, 0) == v;
    } else {
      RotationKeeps(S, v, g, col, k - 1);
      RotationStep(S, v, g, Rotated(col, g, k - 1), k - 1);
    }
  }

  lemma RotationStep<V(!new)>(S: Space<V>, v: seq<V>, g: seq<Rotation>, c: seq<real>, k: nat)
    requires InnerProduct(S) && |c| <= |v| && k + 1 < |c| && k < |g| && g[k].Unit()
    ensures Combination(S, RotateAt(c, g[k], k), Frame(S, v, g, k + 1)) == Combination(S, c, Frame(S, v, g, k))
  {
    hide InnerProduct, Final, Front, Frame, Combination, Rotation.Dx, Rotation.Dy, Rotation.Unit;
    var d, f, f' := RotateAt(c, g[k], k), Frame(S, v, g, k), Frame(S, v, g, k + 1);
    forall t ensures S.dot(Combination(S, d, f'), t) == S.dot(Combination(S, c, f), t) {
      FrontDot(S, v, g, k, t);
      RotationIdentity(g[k], c[k], c[k + 1], S.dot(f[k], t), S.dot(f[k + 1], t));
      PairChanged(S, d, f', c, f, k, t);
    }
    Same(S, Combination(S, d, f'), Combination(S, c, f));
  }

  /** In dimension n no orthonormal family has more than n members. */
  lemma OrthonormalBound<V(!new)>(S: Space<V>, v: seq<V>, n: nat)
    requires InnerProduct(S) && Orthonormal(S, v) && Dimension(S, n)
    ensures |v| <= n
  {
    hide InnerProduct, Combination;
    if |v| > n {
      assert Dependent(S, v);
      var c: seq<real> :| |c| == |v| && !Vanishes(c) && Combination(S, c, v) == S.zero;
      forall j | 0 <= j < |c| ensures c[j] == 0.0 {
        PicksOut(S, c, v, j, v[j]);
        Zero(S, v[j]);
        assert S.dot(v[j], v[j]) == 1.0;
      }
    }
  }

  // The state of a cycle

  /** Basis, unrotated Hessenberg columns, rotations, triangular columns and rotated right-hand side. */
  datatype State<V> = State(v: seq<V>, raw: seq<seq<real>>, g: seq<Rotation>, cols: seq<seq<real>>, s: seq<real>)

  ghost predicate Shaped<V>(G: State<V>) {
    && |G.v| == |G.s| == |G.g| + 1
    && |G.raw| == |G.cols| == |G.g|
    && (forall j :: 0 <= j < |G.raw| ==> |G.raw[j]| == j + 2)
    && (forall j :: 0 <= j < |G.cols| ==> |G.cols[j]| == j + 1)
  }

  /** The Arnoldi relation for column j. */
  ghost predicate Arnoldi<V>(S: Space<V>, B: V -> V, G: State<V>, j: nat)
    requires Shaped(G) && j < |G.g|
  {
    B(G.v[j]) == Combination(S, G.raw[j], G.v) && G.raw[j][j + 1] > 0.0
  }

  /** The QR relation for column j. */
  ghost predicate Triangular<V>(S: Space<V>, B: V -> V, G: State<V>, j: nat)
    requires Shaped(G) && j < |G.g|
  {
    B(G.v[j]) == Combination(S, G.cols[j], Finals(S, G.v, G.g, |G.g|)) && G.cols[j][j] != 0.0
  }

  /** What holds after |G.g| inner steps of a cycle started from the preconditioned residual r. */
  ghost predicate Invariant<V(!new)>(S: Space<V>, B: V -> V, r: V, G: State<V>) {
    && Shaped(G) && Orthonormal(S, G.v) && AllUnit(G.g)
    && (forall j: nat :: j < |G.g| ==> Arnoldi(S, B, G, j))
    && (forall j: nat :: j < |G.g| ==> Triangular(S, B, G, j))
    && r == Combination(S, G.s, Frame(S, G.v, G.g, |G.g|))
    && S.norm(r) != 0.0 && r == Combination(S, [S.norm(r)], G.v)
  }

  /** The state after one more inner step, from the new column h, basis vector v' and rotation. */
  function Advance<V>(G: State<V>, h: seq<real>, v': V, gi: Rotation): State<V>
    requires |G.s| == |G.g| + 1 && |h| == |G.g| + 2
  {
    var i := |G.g|;
    var col := Rotated(h, G.g, i);
    State(G.v + [v'], G.raw + [h], G.g + [gi], G.cols + [col[..i] + [gi.Dx(col[i], col[i + 1])]],
      G.s[..i] + [gi.Dx(G.s[i], 0.0), gi.Dy(G.s[i], 0.0)])
  }

  /** One inner step keeps the invariant. */
  lemma AdvanceKeeps<V(!new)>(S: Space<V>, B: V -> V, r: V, G: State<V>, h: seq<real>, v': V, gi: Rotation)
    requires InnerProduct(S) && Invariant(S, B, r, G) && |h| == |G.g| + 2 && h[|G.g| + 1] > 0.0
    requires Orthonormal(S, G.v + [v']) && B(G.v[|G.g|]) == Combination(S, h, G.v + [v'])
    requires gi.Unit() && var col := Rotated(h, G.g, |G.g|); gi.Dy(col[|G.g|], col[|G.g| + 1]) == 0.0
    ensures Invariant(S, B, r, Advance(G, h, v', gi))
  {
    hide InnerProduct, Final, Front, Frame, Finals, Combination, Rotated, Orthonormal, Rotation.Dx, Rotation.Dy,
      Rotation.Unit;
    var i, N := |G.g|, Advance(G, h, v', gi);
    assert AllUnit(N.g);
    forall j: nat | j < i + 1 ensures Arnoldi(S, B, N, j) {
      if j < i {
        assert Arnoldi(S, B, G, j);
        CombinationPrefix(S, G.raw[j], G.v, N.v);
      }
    }
    forall j: nat | j < i + 1 ensures Triangular(S, B, N, j) {
      if j < i {
        assert Triangular(S, B, G, j);
        Stable(S, G.v, G.g, N.v, N.g, i);
        assert Finals(S, G.v, G.g, i)[..j + 1] == Finals(S, N.v, N.g, i + 1)[..j + 1];
        CombinationPrefix(S, G.cols[j], Finals(S, G.v, G.g, i), Finals(S, N.v, N.g, i + 1));
      } else {
        LastColumn(S, B, G, h, v', gi);
      }
    }
    NewRightHandSide(S, G, v', gi);
    CombinationPrefix(S, [S.norm(r)], G.v, N.v);
  }

  lemma {:induction false} RotatedPrefix(col: seq<real>, g: seq<Rotation>, g': seq<Rotation>, k: nat)
    requires k < |col| && k <= |g| && g <= g'
    ensures Rotated(col, g', k) == Rotated(col, g, k)
  {
    if k > 0 {
      RotatedPrefix(col, g, g', k - 1);
    }
  }

  lemma LastColumn<V(!new)>(S: Space<V>, B: V -> V, G: State<V>, h: seq<real>, v': V, gi: Rotation)
    requires InnerProduct(S) && Shaped(G) && AllUnit(G.g) && |h| == |G.g| + 2 && h[|G.g| + 1] > 0.0
    requires B(G.v[|G.g|]) == Combination(S, h, G.v + [v'])
    requires gi.Unit() && var col := Rotated(h, G.g, |G.g|); gi.Dy(col[|G.g|], col[|G.g| + 1]) == 0.0
    ensures Shaped(Advance(G, h, v', gi)) && Triangular(S, B, Advance(G, h, v', gi), |G.g|)
  {
    hide InnerProduct, Final, Front, Frame, Finals, Combination, Rotated, Rotation.Dx, Rotation.Dy, Rotation.Unit;
    var i, v, g := |G.g|, G.v + [v'], G.g + [gi];
    var col, N := Rotated(h, G.g, i), Advance(G, h, v', gi);
    var last := N.cols[i];
    RotatedPrefix(h, G.g, g, i);
    RotationKeeps(S, v, g, h, i);
    RotationStep(S, v, g, col, i);
    assert RotateAt(col, gi, i) == last + [0.0];
    ZeroLast(S, last, Frame(S, v, g, i + 1));
    assert Frame(S, v, g, i + 1)[..i + 1] == Finals(S, v, g, i + 1);
    CombinationPrefix(S, last, Frame(S, v, g, i + 1), Finals(S, v, g, i + 1));
    Diagonal(gi, col[i], col[i + 1]);
    assert N.v[i] == G.v[i];
  }

  lemma NewRightHandSide<V(!new)>(S: Space<V>, G: State<V>, v': V, gi: Rotation)
    requires InnerProduct(S) && Shaped(G) && gi.Unit()
    ensures var i, v, g := |G.g|, G.v + [v'], G.g + [gi];
      Combination(S, G.s[..i] + [gi.Dx(G.s[i], 0.0), gi.Dy(G.s[i], 0.0)], Frame(S, v, g, i + 1)) ==
      Combination(S, G.s, Frame(S, G.v, G.g, i))
  {
    hide InnerProduct, Final, Front, Frame, Finals, Combination, Rotation.Dx, Rotation.Dy, Rotation.Unit;
    var i, v, g := |G.g|, G.v + [v'], G.g + [gi];
    var c := G.s + [0.0];
    Stable(S, G.v, G.g, v, g, i);
    assert Frame(S, v, g, i)[..i + 1] == Frame(S, G.v, G.g, i)[..i + 1];
    CombinationPrefix(S, G.s, Frame(S, v, g, i), Frame(S, G.v, G.g, i));
    ZeroLast(S, G.s, Frame(S, v, g, i));
    RotationStep(S, v, g, c, i);
    assert RotateAt(c, gi, i) == G.s[..i] + [gi.Dx(G.s[i], 0.0), gi.Dy(G.s[i], 0.0)];
  }

  /** The rotated entry of the right-hand side cannot grow. */
  lemma Shrinks(g: Rotation, e: real)
    requires g.Unit()
    ensures Abs(g.Dy(e, 0.0)) <= Abs(e)
  {
    var d := g.Dy(e, 0.0);
    assert d == -(g.sn * e);
    assert g.cs * g.cs >= 0.0 && (g.cs * g.cs) * (e * e) >= 0.0;
    assert d * d == (g.sn * g.sn) * (e * e) == (1.0 - g.cs * g.cs) * (e * e) <= e * e;
    assert Abs(d) * Abs(d) == d * d && Abs(e) * Abs(e) == e * e;
    SquareOrder(Abs(e), Abs(d));
  }

  /** The residual norm a state vouches for. */
  function Estimate<V>(G: State<V>): real
    requires |G.g| < |G.s|
  {
    Abs(G.s[|G.g|])
  }

  /** State k of a cycle, reached with the estimate no larger than before. */
  ghost predicate Reached<V(!new)>(S: Space<V>, B: V -> V, r: V, states: seq<State<V>>, k: nat)
    requires k < |states|
  {
    && |states[k].g| == k && Invariant(S, B, r, states[k])
    && (k > 0 ==> |states[k - 1].g| == k - 1 < |states[k - 1].s| && Estimate(states[k]) <= Estimate(states[k - 1]))
  }

  /** The states of a cycle after 0, 1, 2, ... inner steps. */
  ghost predicate History<V(!new)>(S: Space<V>, B: V -> V, r: V, states: seq<State<V>>) {
    states != [] && forall k: nat :: k < |states| ==> Reached(S, B, r, states, k)
  }

  lemma HistoryGrows<V(!new)>(S: Space<V>, B: V -> V, r: V, states: seq<State<V>>, G: State<V>)
    requires History(S, B, r, states) && Invariant(S, B, r, G) && |G.g| == |states|
    requires var o := states[|states| - 1]; |o.g| < |o.s| && Estimate(G) <= Estimate(o)
    ensures History(S, B, r, states + [G])
  {
    hide Invariant, Estimate;
    var n := states + [G];
    forall k: nat | k < |n| ensures Reached(S, B, r, n, k) {
      if k < |states| {
        assert Reached(S, B, r, states, k);
      } else {
        assert Reached(S, B, r, states, k - 1);
      }
    }
  }

  // Modified Gram-Schmidt

  datatype Remainder<V> = Remainder(h: seq<real>, w: V)

  /** Coefficients and remainder after w0 has been reduced by v[0], ..., v[k-1] in turn. */
  function Reduced<V>(S: Space<V>, v: seq<V>, w0: V, k: nat): (m: Remainder<V>)
    requires k <= |v|
    ensures |m.h| == k
  {
    if k == 0 then Remainder([], w0)
    else
      var m := Reduced(S, v, w0, k - 1);
      var c := S.dot(m.w, v[k - 1]);
      Remainder(m.h + [c], S.axpy(m.w, -c, v[k - 1]))
  }

  /** Reducing the remainder in place still leaves it orthogonal to every vector already used. */
  lemma {:induction false} GramSchmidt<V(!new)>(S: Space<V>, v: seq<V>, w0: V, k: nat, t: V)
    requires InnerProduct(S) && Orthonormal(S, v) && k <= |v|
    ensures var m := Reduced(S, v, w0, k);
      && (forall l: nat :: l < k ==> S.dot(m.w, v[l]) == 0.0)
      && S.dot(w0, t) == S.dot(Combination(S, m.h, v), t) + S.dot(m.w, t)
  {
    hide InnerProduct, Combination, Reduced, Orthonormal;
    ReducedStep(S, v, w0, k);
    if k == 0 {
      EmptyCombination(S, v);
    } else {
      var m, m' := Reduced(S, v, w0, k - 1), Reduced(S, v, w0, k);
      var c, n := S.dot(m.w, v[k - 1]), v[k - 1];
      GramSchmidt(S, v, w0, k - 1, t);
      forall l: nat | l < k ensures S.dot(m'.w, v[l]) == 0.0 {
        Expand(S, m.w, -c, n, v[l]);
        UnitOrZero(S, v, k - 1, l);
      }
      Expand(S, m.w, -c, n, t);
      assert m'.h[..k - 1] == m.h;
      LastTerm(S, m'.h, v, t);
    }
    Zero(S, t);
  }

  lemma ReducedStep<V>(S: Space<V>, v: seq<V>, w0: V, k: nat)
    requires k <= |v|
    ensures k == 0 ==> Reduced(S, v, w0, k) == Remainder([], w0)
    ensures k > 0 ==>
      var m := Reduced(S, v, w0, k - 1);
      var c := S.dot(m.w, v[k - 1]);
      Reduced(S, v, w0, k) == Remainder(m.h + [c], S.axpy(m.w, -c, v[k - 1]))
  {
  }

  lemma UnitOrZero<V(!new)>(S: Space<V>, v: seq<V>, k: nat, l: nat)
    requires Orthonormal(S, v) && k < |v| && l < |v|
    ensures S.dot(v[k], v[l]) == if k == l then 1.0 else 0.0
  {
  }

  /** The normalised remainder extends the basis, and w0 is a combination of the extended basis. */
  lemma NextBasisVector<V(!new)>(S: Space<V>, v: seq<V>, w0: V, h: real, v': V)
    requires InnerProduct(S) && Orthonormal(S, v)
    requires var m := Reduced(S, v, w0, |v|); h == S.norm(m.w) != 0.0 && v' == S.Scale(1.0 / h, m.w)
    ensures h > 0.0 && Orthonormal(S, v + [v'])
    ensures w0 == Combination(S, Reduced(S, v, w0, |v|).h + [h], v + [v'])
  {
    hide InnerProduct, Space.Scale, Reduced, Combination, Orthonormal;
    var m := Reduced(S, v, w0, |v|);
    var w, a := m.w, 1.0 / h;
    Square(S, w);
    ExtendOrthonormal(S, v, w0, h, v');
    var c, f := m.h + [h], v + [v'];
    forall t ensures S.dot(w0, t) == S.dot(Combination(S, c, f), t) {
      GramSchmidt(S, v, w0, |v|, t);
      ExpandScale(S, a, w, t);
      CombinationLast(S, m.h, h, v, v');
      Expand(S, Combination(S, m.h, v), h, v', t);
      assert h * (a * S.dot(w, t)) == (h * a) * S.dot(w, t);
    }
    Same(S, w0, Combination(S, c, f));
  }

  lemma CombinationLast<V>(S: Space<V>, c: seq<real>, a: real, v: seq<V>, n: V)
    requires |c| == |v|
    ensures Combination(S, c + [a], v + [n]) == S.axpy(Combination(S, c, v), a, n)
  {
    assert (c + [a])[..|c|] == c;
    CombinationPrefix(S, c, v + [n], v);
  }

  lemma ExtendOrthonormal<V(!new)>(S: Space<V>, v: seq<V>, w0: V, h: real, v': V)
    requires InnerProduct(S) && Orthonormal(S, v)
    requires var m := Reduced(S, v, w0, |v|); h == S.norm(m.w) != 0.0 && v' == S.Scale(1.0 / h, m.w)
    ensures Orthonormal(S, v + [v'])
  {
    hide InnerProduct, Space.Scale, Reduced;
    var w, a, f := Reduced(S, v, w0, |v|).w, 1.0 / h, v + [v'];
    Square(S, w);
    GramSchmidt(S, v, w0, |v|, w);
    ExpandScale(S, a, w, v');
    ExpandScale(S, a, w, w);
    assert a * h == 1.0;
    assert a * (a * (h * h)) == (a * h) * (a * h);
    forall l: nat | l < |v| ensures S.dot(v', v[l]) == 0.0 == S.dot(v[l], v') {
      ExpandScale(S, a, w, v[l]);
      Symmetric(S, v[l], v');
    }
  }

  // The least-squares solution

  /** What is left of r after B of the combination y of the basis is taken away. */
  function Left<V>(S: Space<V>, B: V -> V, r: V, v: seq<V>, y: seq<real>): V
    requires |y| <= |v|
  {
    S.axpy(r, -1.0, B(Combination(S, y, v)))
  }

  lemma FrontOrthogonal<V(!new)>(S: Space<V>, B: V -> V, r: V, G: State<V>)
    requires InnerProduct(S) && Invariant(S, B, r, G)
    ensures var i := |G.g|;
      var d := Front(S, G.v, G.g, i);
      && S.dot(d, d) == 1.0 && S.dot(r, d) == G.s[i]
      && forall j :: 0 <= j < i ==> S.dot(B(G.v[j]), d) == 0.0
  {
    hide InnerProduct, Final, Front, Frame, Finals, Combination, Orthonormal, AllUnit;
    var i := |G.g|;
    var d := Front(S, G.v, G.g, i);
    FrontUnit(S, G.v, G.g, i);
    PicksOut(S, G.s, Frame(S, G.v, G.g, i), i, d);
    forall j | 0 <= j < i ensures S.dot(B(G.v[j]), d) == 0.0 {
      assert Triangular(S, B, G, j);
      Annihilated(S, G.cols[j], Finals(S, G.v, G.g, i), d);
    }
  }

  /** No combination of the basis leaves less than |s[i]|. */
  lemma LowerBound<V(!new)>(S: Space<V>, B: V -> V, r: V, G: State<V>, y: seq<real>)
    requires InnerProduct(S) && Linear(S, B) && Invariant(S, B, r, G) && |y| == |G.g|
    ensures var q := Left(S, B, r, G.v, y); G.s[|G.g|] * G.s[|G.g|] <= S.dot(q, q)
  {
    hide InnerProduct, Linear, Front, Combination, Arnoldi, Triangular, Orthonormal, AllUnit;
    var i := |G.g|;
    var d, q, si := Front(S, G.v, G.g, i), Left(S, B, r, G.v, y), G.s[i];
    FrontOrthogonal(S, B, r, G);
    ImageAnnihilated(S, B, y, G.v, d);
    Expand(S, r, -1.0, B(Combination(S, y, G.v)), d);
    var e := S.axpy(q, -si, d);
    Square(S, e);
    Expand(S, q, -si, d, e);
    Expand(S, q, -si, d, q);
    Expand(S, q, -si, d, d);
    Symmetric(S, d, q);
  }

  /** Row k of the triangular product: cols[lo][k]*y[lo] + ... + cols[hi-1][k]*y[hi-1]. */
  function RowSum(cols: seq<seq<real>>, y: seq<real>, k: nat, lo: nat, hi: nat): real
    requires k <= lo && hi <= |cols| && hi <= |y|
    requires forall j :: 0 <= j < |cols| ==> |cols[j]| == j + 1
  {
    if hi <= lo then 0.0 else RowSum(cols, y, k, lo, hi - 1) + cols[hi - 1][k] * y[hi - 1]
  }

  /** y solves the triangular system with right-hand side s. */
  ghost predicate Solves(cols: seq<seq<real>>, s: seq<real>, y: seq<real>) {
    && (forall j :: 0 <= j < |cols| ==> |cols[j]| == j + 1)
    && |y| == |cols| <= |s|
    && forall k: nat :: k < |y| ==> RowSum(cols, y, k, k, |y|) == s[k]
  }

  lemma {:induction false} RowSumPrefix(cols: seq<seq<real>>, y: seq<real>, cols': seq<seq<real>>, y': seq<real>,
        k: nat, lo: nat, hi: nat)
    requires k <= lo && hi <= |cols| && hi <= |y| && hi <= |cols'| && hi <= |y'|
    requires forall j :: 0 <= j < |cols| ==> |cols[j]| == j + 1
    requires forall j :: 0 <= j < |cols'| ==> |cols'[j]| == j + 1
    requires forall j :: lo <= j < hi ==> cols[j] == cols'[j] && y[j] == y'[j]
    ensures RowSum(cols, y, k, lo, hi) == RowSum(cols', y', k, lo, hi)
    decreases hi
  {
    if lo < hi {
      RowSumPrefix(cols, y, cols', y', k, lo, hi - 1);
    }
  }

  /** What back substitution leaves of the right-hand side once its last unknown is known. */
  function Reduce(s: seq<real>, f: real, col: seq<real>): (d: seq<real>)
    requires |s| <= |col|
    ensures |d| == |s| && forall i :: 0 <= i < |s| ==> d[i] == s[i] - f * col[i]
  {
    if s == [] then [] else Reduce(s[..|s| - 1], f, col) + [s[|s| - 1] - f * col[|s| - 1]]
  }

  /** Solving the triangular system matches the images against the right-hand side. */
  lemma {:induction false} BackSubstitution<V(!new)>(S: Space<V>, B: V -> V, v: seq<V>, u: seq<V>, cols: seq<seq<real>>,
        s: seq<real>, y: seq<real>, t: V)
    requires InnerProduct(S) && Linear(S, B) && Solves(cols, s, y) && |s| == |y| <= |v| && |y| <= |u|
    requires forall j :: 0 <= j < |y| ==> B(v[j]) == Combination(S, cols[j], u)
    ensures S.dot(B(Combination(S, y, v)), t) == S.dot(Combination(S, s, u), t)
    decreases |y|
  {
    hide InnerProduct, Linear, Combination;
    if y == [] {
      ZeroImage(S, B);
      EmptyCombination(S, v);
      EmptyCombination(S, u);
    } else {
      var k := |y| - 1;
      var col, a := cols[k], y[k];
      var s' := Reduce(s[..k], a, col[..k]);
      forall i: nat | i < k ensures RowSum(cols[..k], y[..k], i, i, k) == s'[i] {
        RowSumPrefix(cols, y, cols[..k], y[..k], i, i, k);
      }
      BackSubstitution(S, B, v, u, cols[..k], s', y[..k], t);
      Coefficients(S, s', s[..k], a, col[..k], u, t);
      LastTerm(S, y, v, t);
      Distribute(S, B, Combination(S, y[..k], v), a, v[k]);
      Expand(S, B(Combination(S, y[..k], v)), a, B(v[k]), t);
      LastTerm(S, col, u, t);
      LastTerm(S, s, u, t);
      assert RowSum(cols, y, k, k, k + 1) == col[k] * a;
      assert a * (col[k] * S.dot(u[k], t)) == s[k] * S.dot(u[k], t);
    }
  }

  /** The solution of the triangular system leaves exactly |s[i]|. */
  lemma Attained<V(!new)>(S: Space<V>, B: V -> V, r: V, G: State<V>, y: seq<real>)
    requires InnerProduct(S) && Linear(S, B) && Invariant(S, B, r, G) && Solves(G.cols, G.s, y)
    ensures var q := Left(S, B, r, G.v, y); S.dot(q, q) == G.s[|G.g|] * G.s[|G.g|]
  {
    hide InnerProduct, Linear, Front, Final, Frame, Finals, Combination, Orthonormal, AllUnit;
    var i := |G.g|;
    var d, q, si, u := Front(S, G.v, G.g, i), Left(S, B, r, G.v, y), G.s[i], Finals(S, G.v, G.g, i);
    forall t ensures S.dot(q, t) == si * S.dot(d, t) {
      forall j | 0 <= j < i ensures B(G.v[j]) == Combination(S, G.cols[j], u) {
        assert Triangular(S, B, G, j);
      }
      BackSubstitution(S, B, G.v, u, G.cols, G.s[..i], y, t);
      CombinationPrefix(S, G.s[..i], u, Frame(S, G.v, G.g, i));
      Expand(S, r, -1.0, B(Combination(S, y, G.v)), t);
      LastTerm(S, G.s, Frame(S, G.v, G.g, i), t);
    }
    FrontOrthogonal(S, B, r, G);
    Symmetric(S, d, q);
  }

  // Breakdown: Gram-Schmidt of the next image leaves nothing

  /** A triangular system with nonzero diagonal has a solution. */
  lemma {:induction false} Solvable(cols: seq<seq<real>>, s: seq<real>) returns (y: seq<real>)
    requires |s| == |cols| && forall j :: 0 <= j < |cols| ==> |cols[j]| == j + 1 && cols[j][j] != 0.0
    ensures Solves(cols, s, y)
    decreases |cols|
  {
    if cols == [] {
      y := [];
    } else {
      var k := |cols| - 1;
      var a := s[k] / cols[k][k];
      var d := Reduce(s[..k], a, cols[k][..k]);
      var z := Solvable(cols[..k], d);
      y := z + [a];
      forall i: nat | i < k + 1 ensures RowSum(cols, y, i, i, k + 1) == s[i] {
        if i < k {
          RowSumPrefix(cols[..k], z, cols, y, i, i, k);
        }
      }
    }
  }

  /** The Hessenberg column of an image inside the span of the basis. */
  ghost predicate Contained<V(!new)>(S: Space<V>, B: V -> V, G: State<V>, h: seq<real>) {
    |G.v| == |G.g| + 1 == |h| && B(G.v[|G.g|]) == Combination(S, h, G.v)
  }

  lemma RotatedImage<V(!new)>(S: Space<V>, B: V -> V, r: V, G: State<V>, h: seq<real>)
    requires InnerProduct(S) && Invariant(S, B, r, G) && Contained(S, B, G, h)
    ensures var i := |G.g|; B(G.v[i]) == Combination(S, Rotated(h, G.g, i), Frame(S, G.v, G.g, i))
    ensures var i := |G.g|; forall j :: 0 <= j < i ==> B(G.v[j]) == Combination(S, G.cols[j], Frame(S, G.v, G.g, i))
    ensures forall j :: 0 <= j < |G.cols| ==> G.cols[j][j] != 0.0
  {
    hide InnerProduct, Orthonormal, Combination, Rotated, AllUnit, Frame, Finals, Front, Final;
    var i := |G.g|;
    var f, u := Frame(S, G.v, G.g, i), Finals(S, G.v, G.g, i);
    RotationKeeps(S, G.v, G.g, h, i);
    forall j: nat | j < i ensures B(G.v[j]) == Combination(S, G.cols[j], f) && G.cols[j][j] != 0.0 {
      assert Triangular(S, B, G, j);
      CombinationPrefix(S, G.cols[j], u, f);
    }
  }

  /** With a nonzero last diagonal, the basis already reaches r. */
  lemma ReachedExactly<V(!new)>(S: Space<V>, B: V -> V, r: V, G: State<V>, h: seq<real>) returns (y: seq<real>)
    requires InnerProduct(S) && Linear(S, B) && Invariant(S, B, r, G) && Contained(S, B, G, h)
    requires Rotated(h, G.g, |G.g|)[|G.g|] != 0.0
    ensures |y| == |G.v| && Left(S, B, r, G.v, y) == S.zero
  {
    hide InnerProduct, Linear, Orthonormal, AllUnit, Arnoldi, Triangular, Combination, Rotated, Frame, Solves;
    var i := |G.g|;
    var f, col := Frame(S, G.v, G.g, i), Rotated(h, G.g, i);
    RotatedImage(S, B, r, G, h);
    y := Solvable(G.cols + [col], G.s);
    SolvesSize(G.cols + [col], G.s, y);
    var q := Left(S, B, r, G.v, y);
    forall t ensures S.dot(q, t) == S.dot(S.zero, t) {
      BackSubstitution(S, B, G.v, f, G.cols + [col], G.s, y, t);
      Expand(S, r, -1.0, B(Combination(S, y, G.v)), t);
      Zero(S, t);
    }
    Same(S, q, S.zero);
  }

  lemma SolvesSize(cols: seq<seq<real>>, s: seq<real>, y: seq<real>)
    requires Solves(cols, s, y)
    ensures |y| == |cols|
  {
  }

  /** With a zero last diagonal, B sends a nonzero vector to zero. */
  lemma Singular<V(!new)>(S: Space<V>, B: V -> V, r: V, G: State<V>, h: seq<real>) returns (u: V)
    requires InnerProduct(S) && Linear(S, B) && Invariant(S, B, r, G) && Contained(S, B, G, h)
    requires Rotated(h, G.g, |G.g|)[|G.g|] == 0.0
    ensures u != S.zero && B(u) == S.zero
  {
    hide InnerProduct, Linear, AllUnit, Arnoldi, Triangular, Combination, Rotated, Frame, Solves;
    var i := |G.g|;
    var f, col, n := Frame(S, G.v, G.g, i), Rotated(h, G.g, i), G.v[i];
    RotatedImage(S, B, r, G, h);
    var y := Solvable(G.cols, col[..i]);
    SolvesSize(G.cols, col[..i], y);
    var e := Combination(S, y, G.v);
    u := S.axpy(n, -1.0, e);
    Distribute(S, B, n, -1.0, e);
    forall t ensures S.dot(B(u), t) == S.dot(S.zero, t) {
      BackSubstitution(S, B, G.v, f, G.cols, col[..i], y, t);
      Expand(S, B(n), -1.0, B(e), t);
      LastTerm(S, col, f, t);
      Zero(S, t);
    }
    Same(S, B(u), S.zero);
    Annihilated(S, y, G.v, n);
    Expand(S, n, -1.0, e, n);
    Zero(S, n);
  }

  lemma NothingLeft<V(!new)>(S: Space<V>, B: V -> V, r: V, G: State<V>)
    requires InnerProduct(S) && Invariant(S, B, r, G)
    requires S.norm(Reduced(S, G.v, B(G.v[|G.g|]), |G.v|).w) == 0.0
    ensures Contained(S, B, G, Reduced(S, G.v, B(G.v[|G.g|]), |G.v|).h)
  {
    hide InnerProduct, AllUnit, Arnoldi, Triangular, Combination, Reduced, Frame, Orthonormal;
    var w0 := B(G.v[|G.g|]);
    var m := Reduced(S, G.v, w0, |G.v|);
    NullIsZero(S, m.w);
    forall t ensures S.dot(w0, t) == S.dot(Combination(S, m.h, G.v), t) {
      GramSchmidt(S, G.v, w0, |G.v|, t);
      Zero(S, t);
    }
    Same(S, w0, Combination(S, m.h, G.v));
  }
}
