/**
  The arrays of iml/gmres.h, updated in place: the Hessenberg matrix H, the rotations cs and sn, the right-hand
  side s and the basis v; back substitution, and the parts of one inner step.
 */
module Hessenberg {
  import opened Reals
  import opened VectorSpaces
  import opened Systems
  import opened Combinations
  import opened Rotations
  import opened Cycle

  // What the arrays stand for

  ghost predicate Sized(H: array2<real>, n: nat) {
    n < H.Length0 && n <= H.Length1
  }

  /** The first len entries of column j. */
  ghost function Column(H: array2<real>, j: nat, len: nat): (c: seq<real>)
    requires j < H.Length1 && len <= H.Length0
    reads H
    ensures |c| == len && forall k :: 0 <= k < len ==> c[k] == H[k, j]
  {
    if len == 0 then [] else Column(H, j, len - 1) + [H[len - 1, j]]
  }

  /** The upper triangle of the first n columns. */
  ghost function Upper(H: array2<real>, n: nat): (c: seq<seq<real>>)
    requires n <= H.Length0 && n <= H.Length1
    reads H
    ensures |c| == n && forall j :: 0 <= j < n ==> c[j] == Column(H, j, j + 1)
  {
    if n == 0 then [] else Upper(H, n - 1) + [Column(H, n - 1, n)]
  }

  // Back substitution

  /** Subtracts y[i] times column i from the entries above it. */
  method Eliminate(y: array<real>, H: array2<real>, i: nat)
    requires i < y.Length && i < H.Length0 && i < H.Length1
    modifies y
    ensures forall r :: 0 <= r < i ==> y[r] == old(y[r]) - H[r, i] * old(y[i])
    ensures forall r :: i <= r < y.Length ==> y[r] == old(y[r])
  {
    var j := i - 1;
    while j >= 0
      invariant -1 <= j < i
      invariant forall r :: 0 <= r <= j ==> y[r] == old(y[r])
      invariant forall r :: j < r < i ==> y[r] == old(y[r]) - H[r, i] * old(y[i])
      invariant forall r :: i <= r < y.Length ==> y[r] == old(y[r])
    {
      y[j] := y[j] - H[j, i] * y[i];
      j := j - 1;
    }
  }

  lemma {:induction false} PeelLow(cols: seq<seq<real>>, y: seq<real>, k: nat, lo: nat, hi: nat)
    requires k <= lo < hi <= |cols| && hi <= |y|
    requires forall j :: 0 <= j < |cols| ==> |cols[j]| == j + 1
    ensures RowSum(cols, y, k, lo, hi) == cols[lo][k] * y[lo] + RowSum(cols, y, k, lo + 1, hi)
    decreases hi
  {
    if lo + 1 < hi {
      PeelLow(cols, y, k, lo, hi - 1);
    }
  }

  /** Rows i and above are solved; the rows before them still owe their part of the sum. */
  ghost predicate Solved(cols: seq<seq<real>>, s: seq<real>, y: seq<real>, i: nat)
    requires i <= |cols| == |y| == |s|
    requires forall j :: 0 <= j < |cols| ==> |cols[j]| == j + 1
  {
    && (forall k: nat :: k < i ==> y[k] + RowSum(cols, y, k, i, |y|) == s[k])
    && (forall k: nat :: i <= k < |y| ==> RowSum(cols, y, k, k, |y|) == s[k])
  }

  lemma NothingSolved(cols: seq<seq<real>>, s: seq<real>)
    requires |cols| == |s| && forall j :: 0 <= j < |cols| ==> |cols[j]| == j + 1
    ensures Solved(cols, s, s, |s|)
  {
  }

  lemma SolvedAll(cols: seq<seq<real>>, s: seq<real>, y: seq<real>)
    requires |cols| == |y| == |s| && forall j :: 0 <= j < |cols| ==> |cols[j]| == j + 1
    requires Solved(cols, s, y, 0)
    ensures Solves(cols, s, y)
  {
  }

  lemma SolveRow(cols: seq<seq<real>>, s: seq<real>, y: seq<real>, y': seq<real>, i: nat)
    requires i < |cols| == |y| == |s| == |y'|
    requires forall j :: 0 <= j < |cols| ==> |cols[j]| == j + 1
    requires Solved(cols, s, y, i + 1)
    requires cols[i][i] * y'[i] == y[i]
    requires forall k :: 0 <= k < i ==> y'[k] == y[k] - cols[i][k] * y'[i]
    requires forall k :: i < k < |y| ==> y'[k] == y[k]
    ensures Solved(cols, s, y', i)
  {
    var n := |y|;
    forall k: nat | k <= i ensures RowSum(cols, y', k, i, n) == cols[i][k] * y'[i] + RowSum(cols, y, k, i + 1, n) {
      PeelLow(cols, y', k, i, n);
      RowSumPrefix(cols, y, cols, y', k, i + 1, n);
    }
    forall k: nat | i < k < n ensures RowSum(cols, y', k, k, n) == s[k] {
      RowSumPrefix(cols, y, cols, y', k, k, n);
    }
  }

  /** A copy of s: Vector y(s). */
  method Copy(s: array<real>) returns (y: array<real>)
    ensures fresh(y) && y[..] == s[..]
  {
    y := new real[s.Length];
    var c := 0;
    while c < s.Length
      invariant 0 <= c <= s.Length && forall r :: 0 <= r < c ==> y[r] == s[r]
    {
      y[c] := s[c];
      c := c + 1;
    }
  }

  /** The backsolve loop of Update. */
  method Backsolve(k: nat, H: array2<real>, s: array<real>) returns (y: array<real>)
    requires k < s.Length && k < H.Length0 && k < H.Length1
    requires forall j :: 0 <= j <= k ==> H[j, j] != 0.0
    ensures fresh(y) && y.Length == s.Length && Solves(Upper(H, k + 1), s[..k + 1], y[..k + 1])
  {
    y := Copy(s);
    hide Upper, RowSum, Solved, Solves;
    ghost var n, cols, b := k + 1, Upper(H, k + 1), s[..k + 1];
    assert y[..n] == y[..][..n] == b;
    NothingSolved(cols, b);
    var i := k;
    while i >= 0
      invariant -1 <= i <= k && cols == Upper(H, n) && b == s[..n]
      invariant Solved(cols, b, y[..n], i + 1)
    {
      ghost var before := y[..n];
      y[i] := y[i] / H[i, i];
      ghost var yi := y[i];
      Eliminate(y, H, i);
      assert cols[i] == Column(H, i, i + 1);
      SolveRow(cols, b, before, y[..n], i);
      i := i - 1;
    }
    SolvedAll(cols, b, y[..n]);
  }

  /** x plus the combination of the basis that solves the triangular system, and its coefficients. */
  method Update<V(!new)>(S: Space<V>, x0: V, k: nat, H: array2<real>, s: array<real>, v: array<V>)
    returns (x: V, z: seq<real>)
    requires InnerProduct(S) && k < s.Length && k < v.Length && k < H.Length0 && k < H.Length1
    requires forall j :: 0 <= j <= k ==> H[j, j] != 0.0
    ensures Solves(Upper(H, k + 1), s[..k + 1], z)
    ensures x == S.axpy(x0, 1.0, Combination(S, z, v[..k + 1]))
  {
    hide InnerProduct, Combination, Solves, Upper;
    var y := Backsolve(k, H, s);
    z := y[..k + 1];
    x := x0;
    ghost var f := v[..k + 1];
    AddNothingYet(S, x0, f);
    var j := 0;
    while j <= k
      invariant 0 <= j <= k + 1 && z == y[..k + 1] && f == v[..k + 1]
      invariant x == S.axpy(x0, 1.0, Combination(S, z[..j], f))
    {
      AddTerm(S, x0, z, f, j);
      x := S.axpy(x, y[j], v[j]);
      j := j + 1;
    }
    assert z[..k + 1] == z;
  }

  lemma AddNothingYet<V(!new)>(S: Space<V>, x: V, f: seq<V>)
    requires InnerProduct(S)
    ensures x == S.axpy(x, 1.0, Combination(S, [], f))
  {
    hide InnerProduct, Combination;
    EmptyCombination(S, f);
    forall t ensures S.dot(x, t) == S.dot(S.axpy(x, 1.0, S.zero), t) {
      Expand(S, x, 1.0, S.zero, t);
      Zero(S, t);
    }
    Same(S, x, S.axpy(x, 1.0, S.zero));
  }

  lemma AddTerm<V(!new)>(S: Space<V>, x: V, z: seq<real>, f: seq<V>, j: nat)
    requires InnerProduct(S) && j < |z| <= |f|
    ensures S.axpy(S.axpy(x, 1.0, Combination(S, z[..j], f)), z[j], f[j]) ==
      S.axpy(x, 1.0, Combination(S, z[..j + 1], f))
  {
    hide InnerProduct, Combination;
    var c, d := Combination(S, z[..j], f), Combination(S, z[..j + 1], f);
    var l, r := S.axpy(S.axpy(x, 1.0, c), z[j], f[j]), S.axpy(x, 1.0, d);
    assert z[..j + 1][..j] == z[..j];
    forall t ensures S.dot(l, t) == S.dot(r, t) {
      LastTerm(S, z[..j + 1], f, t);
      Expand(S, S.axpy(x, 1.0, c), z[j], f[j], t);
      Expand(S, x, 1.0, c, t);
      Expand(S, x, 1.0, d, t);
    }
    Same(S, l, r);
  }

  // One inner step

  /** Modified Gram-Schmidt of w0 against v[0..i], writing the coefficients to column i of H. */
  method Orthogonalize<V(!new)>(S: Space<V>, v: array<V>, H: array2<real>, i: nat, w0: V) returns (w: V)
    requires i < v.Length && i < H.Length0 && i < H.Length1
    modifies H
    ensures Column(H, i, i + 1) == Reduced(S, v[..i + 1], w0, i + 1).h && w == Reduced(S, v[..i + 1], w0, i + 1).w
    ensures forall r, c :: 0 <= r < H.Length0 && 0 <= c < H.Length1 && c != i ==> H[r, c] == old(H[r, c])
  {
    ghost var f := v[..i + 1];
    w := w0;
    var k := 0;
    while k <= i
      invariant 0 <= k <= i + 1
      invariant Column(H, i, k) == Reduced(S, f, w0, k).h && w == Reduced(S, f, w0, k).w
      invariant forall r, c :: 0 <= r < H.Length0 && 0 <= c < H.Length1 && c != i ==> H[r, c] == old(H[r, c])
    {
      ghost var done := Column(H, i, k);
      H[k, i] := S.dot(w, v[k]);
      w := S.axpy(w, -H[k, i], v[k]);
      assert Column(H, i, k) == done;
      k := k + 1;
    }
  }

  /** Applies the rotations so far to column i of H, in place. */
  method RotateColumn(H: array2<real>, i: nat, cs: array<real>, sn: array<real>, ghost g: seq<Rotation>)
    requires i + 1 < H.Length0 && i < H.Length1 && i <= cs.Length && i <= sn.Length
    requires |g| == i && forall k :: 0 <= k < i ==> g[k] == Rotation(cs[k], sn[k])
    modifies H
    ensures Column(H, i, i + 2) == Rotated(old(Column(H, i, i + 2)), g, i)
    ensures forall r, c :: 0 <= r < H.Length0 && 0 <= c < H.Length1 && c != i ==> H[r, c] == old(H[r, c])
  {
    ghost var h := Column(H, i, i + 2);
    var k := 0;
    while k < i
      invariant 0 <= k <= i
      invariant Column(H, i, i + 2) == Rotated(h, g, k)
      invariant forall r, c :: 0 <= r < H.Length0 && 0 <= c < H.Length1 && c != i ==> H[r, c] == old(H[r, c])
    {
      ghost var before := Column(H, i, i + 2);
      var dx, dy := ApplyPlaneRotation(H[k, i], H[k + 1, i], cs[k], sn[k]);
      H[k, i] := dx;
      H[k + 1, i] := dy;
      assert Column(H, i, i + 2) == RotateAt(before, g[k], k);
      k := k + 1;
    }
  }

  /** The arrays hold the state G of the cycle. */
  ghost predicate Holds<V>(H: array2<real>, v: array<V>, cs: array<real>, sn: array<real>, s: array<real>, G: State<V>)
    reads H, v, cs, sn, s
  {
    var i := |G.g|;
    && Shaped(G) && i < v.Length == s.Length == cs.Length == sn.Length && Sized(H, v.Length - 1)
    && v[..i + 1] == G.v && s[..i + 1] == G.s && Upper(H, i) == G.cols
    && (forall k :: 0 <= k < i ==> G.g[k] == Rotation(cs[k], sn[k]))
    && (forall k :: i < k < s.Length ==> s[k] == 0.0)
  }

  ghost predicate Separate<V>(v: array<V>, cs: array<real>, sn: array<real>, s: array<real>) {
    cs != sn && cs != s && sn != s && v as object != cs && v as object != sn && v as object != s
  }

  /** The triangle is read off entry by entry. */
  lemma UpperKept(a: seq<seq<real>>, H: array2<real>, n: nat)
    requires |a| == n <= H.Length0 && n <= H.Length1
    requires forall j :: 0 <= j < n ==> |a[j]| == j + 1 && forall k :: 0 <= k <= j ==> a[j][k] == H[k, j]
    ensures Upper(H, n) == a
  {
    hide Column, Upper;
    forall j | 0 <= j < n ensures Upper(H, n)[j] == a[j] {
    }
  }

  lemma UpperExtends(a: seq<seq<real>>, c: seq<real>, H: array2<real>, n: nat)
    requires |a| == n < H.Length0 && n < H.Length1
    requires forall j :: 0 <= j < n ==> |a[j]| == j + 1 && forall k :: 0 <= k <= j ==> a[j][k] == H[k, j]
    requires c == Column(H, n, n + 1)
    ensures Upper(H, n + 1) == a + [c]
  {
    hide Column;
    UpperKept(a, H, n);
  }

  /** Lines 99-105: the new Hessenberg column and the new basis vector. */
  method NewColumn<V(!new)>(P: Problem<V>, H: array2<real>, v: array<V>, i: nat) returns (ok: bool)
    requires InnerProduct(P.S) && i + 1 < v.Length && Sized(H, v.Length - 1) && Orthonormal(P.S, v[..i + 1])
    modifies H, v
    ensures forall r, c :: 0 <= r < H.Length0 && 0 <= c < H.Length1 && c != i ==> H[r, c] == old(H[r, c])
    ensures forall k :: 0 <= k < v.Length && k != i + 1 ==> v[k] == old(v[k])
    ensures !ok ==> P.S.norm(Reduced(P.S, old(v[..i + 1]), P.M.solve(P.A.mult(old(v[i]))), i + 1).w) == 0.0
    ensures ok ==>
      && Orthonormal(P.S, v[..i + 2]) && H[i + 1, i] > 0.0
      && P.M.solve(P.A.mult(v[i])) == Combination(P.S, Column(H, i, i + 2), v[..i + 2])
  {
    hide InnerProduct, Orthonormal, Reduced, Combination, Space.Scale;
    var S := P.S;
    ghost var f := v[..i + 1];
    var w0 := P.M.solve(P.A.mult(v[i]));
    var w := Orthogonalize(S, v, H, i, w0);
    ghost var h := Column(H, i, i + 1);
    H[i + 1, i] := S.norm(w);
    if H[i + 1, i] == 0.0 {
      return false;
    }
    v[i + 1] := S.Scale(1.0 / H[i + 1, i], w);
    NextBasisVector(S, f, w0, H[i + 1, i], v[i + 1]);
    assert v[..i + 2] == f + [v[i + 1]];
    assert Column(H, i, i + 2) == h + [H[i + 1, i]];
    return true;
  }

  /** Lines 107-111: rotates column i of H to triangular form, in place. */
  method TriangularizeColumn(sqrt: real -> real, H: array2<real>, cs: array<real>, sn: array<real>, i: nat,
        ghost g: seq<Rotation>, ghost h: seq<real>)
    returns (ghost gi: Rotation)
    requires IsRoot(sqrt) && i + 1 < H.Length0 && i < H.Length1 && i < cs.Length && i < sn.Length && cs != sn
    requires |g| == i && forall k :: 0 <= k < i ==> g[k] == Rotation(cs[k], sn[k])
    requires h == Column(H, i, i + 2)
    modifies H, cs, sn
    ensures var col := Rotated(h, g, i);
      && gi.Unit() && gi.Dy(col[i], col[i + 1]) == 0.0
      && Column(H, i, i + 1) == col[..i] + [gi.Dx(col[i], col[i + 1])]
    ensures H[i + 1, i] == 0.0
    ensures forall k :: 0 <= k <= i ==> (g + [gi])[k] == Rotation(cs[k], sn[k])
    ensures forall r, c :: 0 <= r < H.Length0 && 0 <= c < H.Length1 && c != i ==> H[r, c] == old(H[r, c])
  {
    hide Rotated, Column, Rotation.Dx, Rotation.Dy, Rotation.Unit;
    ghost var col := Rotated(h, g, i);
    RotateColumn(H, i, cs, sn, g);
    assert H[i, i] == col[i] && H[i + 1, i] == col[i + 1];
    cs[i], sn[i] := GeneratePlaneRotation(sqrt, H[i, i], H[i + 1, i]);
    gi := Rotation(cs[i], sn[i]);
    var dx, dy := ApplyPlaneRotation(H[i, i], H[i + 1, i], cs[i], sn[i]);
    H[i, i], H[i + 1, i] := dx, dy;
    assert forall k :: 0 <= k < i ==> H[k, i] == col[k];
  }

  /** Lines 107-112: the new column to triangular form, and the right-hand side with it. */
  method Triangularize<V>(sqrt: real -> real, H: array2<real>, v: array<V>, cs: array<real>, sn: array<real>,
        s: array<real>, i: nat, ghost G: State<V>, ghost h: seq<real>)
    returns (ghost gi: Rotation)
    requires IsRoot(sqrt) && i == |G.g| && i + 1 < v.Length == s.Length == cs.Length == sn.Length
    requires Sized(H, v.Length - 1)
    requires Separate(v, cs, sn, s) && Shaped(G) && h == Column(H, i, i + 2) && v[..i + 1] == G.v
    requires s[..i + 1] == G.s && Upper(H, i) == G.cols
    requires forall k :: 0 <= k < i ==> G.g[k] == Rotation(cs[k], sn[k])
    requires forall k :: i < k < s.Length ==> s[k] == 0.0
    modifies H, cs, sn, s
    ensures gi.Unit() && gi.Dy(Rotated(h, G.g, i)[i], Rotated(h, G.g, i)[i + 1]) == 0.0
    ensures Holds(H, v, cs, sn, s, Advance(G, h, v[i + 1], gi))
  {
    hide Rotated, Column, Upper, IsRoot, Rotation.Dx, Rotation.Dy, Rotation.Unit;
    gi := TriangularizeColumn(sqrt, H, cs, sn, i, G.g, h);
    var sx, sy := ApplyPlaneRotation(s[i], s[i + 1], cs[i], sn[i]);
    s[i], s[i + 1] := sx, sy;
    ghost var N := Advance(G, h, v[i + 1], gi);
    assert s[..i + 2] == N.s;
    UpperExtends(G.cols, N.cols[i], H, i);
  }
}
