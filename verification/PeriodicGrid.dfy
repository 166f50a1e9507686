/**
  bindings/oofemlib/dream3d_analysis.C: numbering of a structured grid, and the marking of the nodes of the
  Co phase under periodic boundary conditions.
 */
module PeriodicGrid {

  /** Numbers of nodes, or of elements, in the three directions. */
  datatype Size = Size(x: nat, y: nat, z: nat)

  datatype Point = Point(x: nat, y: nat, z: nat)

  function Volume(n: Size): nat {
    n.x * n.y * n.z
  }

  predicate In(p: Point, n: Size) {
    p.x < n.x && p.y < n.y && p.z < n.z
  }

  function NC(p: Point, n: Size): int {
    p.x + p.y * n.x + p.z * n.y * n.x
  }

  // The numbering is a bijection

  lemma Multiples(b: nat, d: nat, n: nat)
    requires b <= d
    ensures b * n <= d * n
  {
    assert (d - b) * n >= 0;
  }

  lemma Digits(a: nat, b: nat, c: nat, d: nat, n: nat)
    requires a < n && c < n && a + b * n == c + d * n
    ensures a == c && b == d
  {
    DigitsOrdered(a, b, c, d, n);
    DigitsOrdered(c, d, a, b, n);
  }

  lemma DigitsOrdered(a: nat, b: nat, c: nat, d: nat, n: nat)
    requires a < n && a + b * n == c + d * n
    ensures b >= d
  {
    if b < d {
      Multiples(b + 1, d, n);
    }
  }

  lemma Below(a: nat, b: nat, n: nat, m: nat)
    requires a < n && b < m
    ensures a + b * n < n * m
  {
    Multiples(b + 1, m, n);
  }

  /** The number of the grid line along x that the point lies on. */
  function Line(p: Point, n: Size): nat {
    p.y + p.z * n.y
  }

  lemma Regroup(p: Point, n: Size)
    ensures NC(p, n) == p.x + Line(p, n) * n.x
  {
    assert p.z * n.y * n.x == (p.z * n.y) * n.x;
  }

  lemma Bounded(p: Point, n: Size)
    requires In(p, n)
    ensures 0 <= NC(p, n) < Volume(n)
  {
    hide NC, Volume, Line;
    Regroup(p, n);
    LineBelow(p, n);
    Below(p.x, Line(p, n), n.x, n.y * n.z);
    VolumeIs(n);
    Multiples(0, Line(p, n), n.x);
  }

  lemma LineBelow(p: Point, n: Size)
    requires In(p, n)
    ensures Line(p, n) < n.y * n.z
  {
    Below(p.y, p.z, n.y, n.z);
  }

  lemma VolumeIs(n: Size)
    ensures Volume(n) == n.x * (n.y * n.z)
  {
  }

  lemma Injective(p: Point, q: Point, n: Size)
    requires In(p, n) && In(q, n) && NC(p, n) == NC(q, n)
    ensures p == q
  {
    hide NC, Line;
    Regroup(p, n);
    Regroup(q, n);
    Digits(p.x, Line(p, n), q.x, Line(q, n), n.x);
    SameLine(p, q, n);
  }

  lemma SameLine(p: Point, q: Point, n: Size)
    requires In(p, n) && In(q, n) && Line(p, n) == Line(q, n)
    ensures p.y == q.y && p.z == q.z
  {
    Digits(p.y, p.z, q.y, q.z, n.y);
  }

  lemma Surjective(i: nat, n: Size) returns (p: Point)
    requires i < Volume(n)
    ensures In(p, n) && NC(p, n) == i
  {
    VolumeIs(n);
    assert n.x > 0 && n.y * n.z > 0;
    var j := i / n.x;
    Quotient(i, n.x, n.y * n.z);
    assert n.y > 0;
    Quotient(j, n.y, n.z);
    p := Point(i % n.x, j % n.y, j / n.y);
    Regroup(p, n);
  }

  lemma Quotient(i: nat, n: nat, m: nat)
    requires 0 < n && i < n * m
    ensures 0 <= i / n < m && i == i % n + (i / n) * n
  {
    if i / n >= m {
      Multiples(m, i / n, n);
    }
  }

  // Marked nodes

  ghost predicate Marked(s: seq<int>, n: Size, p: Point)
    requires |s| == Volume(n) && In(p, n)
  {
    Bounded(p, n);
    s[NC(p, n)] != 0
  }

  ghost predicate ZeroOne(s: seq<int>) {
    forall i :: 0 <= i < |s| ==> s[i] == 0 || s[i] == 1
  }

  /** What is marked when s is changed in one node. */
  lemma MarkOne(s: seq<int>, n: Size, q: Point)
    requires |s| == Volume(n) && In(q, n)
    ensures 0 <= NC(q, n) < |s|
    ensures forall p :: In(p, n) ==> (Marked(s[NC(q, n) := 1], n, p) <==> Marked(s, n, p) || p == q)
    ensures ZeroOne(s) ==> ZeroOne(s[NC(q, n) := 1])
  {
    hide NC;
    Bounded(q, n);
    forall p | In(p, n) ensures Marked(s[NC(q, n) := 1], n, p) <==> Marked(s, n, p) || p == q {
      Bounded(p, n);
      if NC(p, n) == NC(q, n) {
        Injective(p, q, n);
      }
    }
  }

  method Mark(co: array<int>, n: Size, q: Point)
    requires co.Length == Volume(n) && In(q, n)
    modifies co
    ensures forall p :: In(p, n) ==> (Marked(co[..], n, p) <==> Marked(old(co[..]), n, p) || p == q)
    ensures ZeroOne(old(co[..])) ==> ZeroOne(co[..])
  {
    MarkOne(co[..], n, q);
    co[NC(q, n)] := 1;
    assert co[..] == old(co[..])[NC(q, n) := 1];
  }

  // The three sweeps

  predicate Positive(n: Size) {
    n.x > 0 && n.y > 0 && n.z > 0
  }

  /** Copies the mark of one node to another. */
  method Copy(co: array<int>, n: Size, far: Point, near: Point)
    requires co.Length == Volume(n) && In(far, n) && In(near, n)
    modifies co
    ensures forall p :: In(p, n) ==>
      (Marked(co[..], n, p) <==> Marked(old(co[..]), n, p) || (p == near && Marked(old(co[..]), n, far)))
    ensures ZeroOne(old(co[..])) ==> ZeroOne(co[..])
  {
    Bounded(far, n);
    if co[NC(far, n)] != 0 {
      Mark(co, n, near);
    }
  }

  datatype Axis = X | Y | Z

  function Coordinate(p: Point, axis: Axis): nat {
    match axis case X => p.x case Y => p.y case Z => p.z
  }

  /** The point opposite to p on the far face. */
  function Far(p: Point, n: Size, axis: Axis): (q: Point)
    requires In(p, n)
    ensures In(q, n)
  {
    match axis
    case X => Point(n.x - 1, p.y, p.z)
    case Y => Point(p.x, n.y - 1, p.z)
    case Z => Point(p.x, p.y, n.z - 1)
  }

  /** Marked before, or copied from the far face if the sweep has come by. */
  ghost predicate Swept(s: seq<int>, n: Size, axis: Axis, p: Point, reached: bool)
    requires |s| == Volume(n) && In(p, n)
  {
    Marked(s, n, p) || (Coordinate(p, axis) == 0 && reached && Marked(s, n, Far(p, n, axis)))
  }

  /** The X-Y plane. */
  method SweepZ(co: array<int>, n: Size)
    requires Positive(n) && co.Length == Volume(n)
    modifies co
    ensures forall p :: In(p, n) ==> (Marked(co[..], n, p) <==> Swept(old(co[..]), n, Z, p, true))
    ensures ZeroOne(old(co[..])) ==> ZeroOne(co[..])
  {
    hide Marked, ZeroOne, NC, Volume;
    ghost var was := co[..];
    var ny := 0;
    while ny < n.y
      invariant 0 <= ny <= n.y && (ZeroOne(was) ==> ZeroOne(co[..]))
      invariant forall p :: In(p, n) ==> (Marked(co[..], n, p) <==> Swept(was, n, Z, p, p.y < ny))
    {
      var nx := 0;
      while nx < n.x
        invariant 0 <= nx <= n.x && (ZeroOne(was) ==> ZeroOne(co[..]))
        invariant forall p :: In(p, n) ==>
          (Marked(co[..], n, p) <==> Swept(was, n, Z, p, p.y < ny || (p.y == ny && p.x < nx)))
      {
        Copy(co, n, Point(nx, ny, n.z - 1), Point(nx, ny, 0));
        nx := nx + 1;
      }
      ny := ny + 1;
    }
  }

  /** The X-Z plane. */
  method SweepY(co: array<int>, n: Size)
    requires Positive(n) && co.Length == Volume(n)
    modifies co
    ensures forall p :: In(p, n) ==> (Marked(co[..], n, p) <==> Swept(old(co[..]), n, Y, p, true))
    ensures ZeroOne(old(co[..])) ==> ZeroOne(co[..])
  {
    hide Marked, ZeroOne, NC, Volume;
    ghost var was := co[..];
    var nz := 0;
    while nz < n.z
      invariant 0 <= nz <= n.z && (ZeroOne(was) ==> ZeroOne(co[..]))
      invariant forall p :: In(p, n) ==> (Marked(co[..], n, p) <==> Swept(was, n, Y, p, p.z < nz))
    {
      var nx := 0;
      while nx < n.x
        invariant 0 <= nx <= n.x && (ZeroOne(was) ==> ZeroOne(co[..]))
        invariant forall p :: In(p, n) ==>
          (Marked(co[..], n, p) <==> Swept(was, n, Y, p, p.z < nz || (p.z == nz && p.x < nx)))
      {
        Copy(co, n, Point(nx, n.y - 1, nz), Point(nx, 0, nz));
        nx := nx + 1;
      }
      nz := nz + 1;
    }
  }

  /** The Y-Z plane. */
  method SweepX(co: array<int>, n: Size)
    requires Positive(n) && co.Length == Volume(n)
    modifies co
    ensures forall p :: In(p, n) ==> (Marked(co[..], n, p) <==> Swept(old(co[..]), n, X, p, true))
    ensures ZeroOne(old(co[..])) ==> ZeroOne(co[..])
  {
    hide Marked, ZeroOne, NC, Volume;
    ghost var was := co[..];
    var nz := 0;
    while nz < n.z
      invariant 0 <= nz <= n.z && (ZeroOne(was) ==> ZeroOne(co[..]))
      invariant forall p :: In(p, n) ==> (Marked(co[..], n, p) <==> Swept(was, n, X, p, p.z < nz))
    {
      var ny := 0;
      while ny < n.y
        invariant 0 <= ny <= n.y && (ZeroOne(was) ==> ZeroOne(co[..]))
        invariant forall p :: In(p, n) ==>
          (Marked(co[..], n, p) <==> Swept(was, n, X, p, p.z < nz || (p.z == nz && p.y < ny)))
      {
        Copy(co, n, Point(n.x - 1, ny, nz), Point(0, ny, nz));
        ny := ny + 1;
      }
      nz := nz + 1;
    }
  }

  // The periodic closure

  /** q is p, or p with some of its zero coordinates replaced by the far ones. */
  predicate Image(p: Point, q: Point, n: Size)
    requires In(p, n)
  {
    && (q.x == p.x || (p.x == 0 && q.x == n.x - 1))
    && (q.y == p.y || (p.y == 0 && q.y == n.y - 1))
    && (q.z == p.z || (p.z == 0 && q.z == n.z - 1))
  }

  ghost predicate Imaged(s: seq<int>, n: Size, p: Point)
    requires |s| == Volume(n) && In(p, n)
  {
    exists q :: In(q, n) && Image(p, q, n) && Marked(s, n, q)
  }

  lemma ThreeSweeps(s: seq<int>, sz: seq<int>, sy: seq<int>, sx: seq<int>, n: Size, p: Point)
    requires |s| == |sz| == |sy| == |sx| == Volume(n) && In(p, n)
    requires forall q :: In(q, n) ==> (Marked(sz, n, q) <==> Swept(s, n, Z, q, true))
    requires forall q :: In(q, n) ==> (Marked(sy, n, q) <==> Swept(sz, n, Y, q, true))
    requires forall q :: In(q, n) ==> (Marked(sx, n, q) <==> Swept(sy, n, X, q, true))
    ensures Marked(sx, n, p) <==> Imaged(s, n, p)
  {
    hide Marked, NC, Volume;
    if Marked(sx, n, p) {
      var qx := if Marked(sy, n, p) then p else Far(p, n, X);
      var qy := if Marked(sz, n, qx) then qx else Far(qx, n, Y);
      var qz := if Marked(s, n, qy) then qy else Far(qy, n, Z);
      assert In(qz, n) && Image(p, qz, n) && Marked(s, n, qz);
    }
    if q :| In(q, n) && Image(p, q, n) && Marked(s, n, q) {
      var qz := q.(z := p.z);
      assert Marked(sz, n, qz);
      var qy := qz.(y := p.y);
      assert Marked(sy, n, qy);
      assert p == qy.(x := p.x);
    }
  }

  /** The three sweeps together. */
  method SweepAll(co: array<int>, n: Size)
    requires Positive(n) && co.Length == Volume(n)
    modifies co
    ensures forall p :: In(p, n) ==> (Marked(co[..], n, p) <==> Imaged(old(co[..]), n, p))
    ensures ZeroOne(old(co[..])) ==> ZeroOne(co[..])
  {
    hide Marked, ZeroOne, NC, Volume, Swept, Imaged;
    ghost var s := co[..];
    SweepZ(co, n);
    ghost var sz := co[..];
    SweepY(co, n);
    ghost var sy := co[..];
    SweepX(co, n);
    forall p | In(p, n) ensures Marked(co[..], n, p) <==> Imaged(s, n, p) {
      ThreeSweeps(s, sz, sy, co[..], n, p);
    }
  }

  /** Closed in all three directions at once. */
  ghost predicate Closed(s: seq<int>, n: Size)
    requires |s| == Volume(n)
  {
    forall p, axis :: In(p, n) && Coordinate(p, axis) == 0 && Marked(s, n, Far(p, n, axis)) ==> Marked(s, n, p)
  }

  ghost predicate Within(s: seq<int>, t: seq<int>, n: Size)
    requires |s| == |t| == Volume(n)
  {
    forall p :: In(p, n) && Marked(s, n, p) ==> Marked(t, n, p)
  }

  /** What the sweeps leave is the least closed marking that contains what they found. */
  lemma LeastPeriodicClosure(s: seq<int>, f: seq<int>, n: Size, t: seq<int>)
    requires |s| == |f| == |t| == Volume(n)
    requires forall p :: In(p, n) ==> (Marked(f, n, p) <==> Imaged(s, n, p))
    ensures Within(s, f, n) && Closed(f, n)
    ensures Closed(t, n) && Within(s, t, n) ==> Within(f, t, n)
  {
    hide Marked, NC, Volume, Imaged, Closed;
    forall p | In(p, n) && Marked(s, n, p) ensures Marked(f, n, p) {
      ImagedIf(s, n, p, p);
    }
    ImagedClosed(s, f, n);
    if Closed(t, n) && Within(s, t, n) {
      forall p | In(p, n) && Marked(f, n, p) ensures Marked(t, n, p) {
        ImagedWithin(s, t, n, p);
      }
    }
  }

  lemma ImagedIf(s: seq<int>, n: Size, p: Point, q: Point)
    requires |s| == Volume(n) && In(p, n) && In(q, n) && Image(p, q, n) && Marked(s, n, q)
    ensures Imaged(s, n, p)
  {
  }

  lemma ImagedClosed(s: seq<int>, f: seq<int>, n: Size)
    requires |s| == |f| == Volume(n)
    requires forall p :: In(p, n) ==> (Marked(f, n, p) <==> Imaged(s, n, p))
    ensures Closed(f, n)
  {
    hide Marked, NC, Volume;
    forall p, axis | In(p, n) && Coordinate(p, axis) == 0 && Marked(f, n, Far(p, n, axis)) ensures Marked(f, n, p) {
      var q :| In(q, n) && Image(Far(p, n, axis), q, n) && Marked(s, n, q);
      ImagedIf(s, n, p, q);
    }
  }

  lemma ImagedWithin(s: seq<int>, t: seq<int>, n: Size, p: Point)
    requires |s| == |t| == Volume(n) && Closed(t, n) && Within(s, t, n) && In(p, n) && Imaged(s, n, p)
    ensures Marked(t, n, p)
  {
    hide Marked, NC, Volume, Closed;
    var q :| In(q, n) && Image(p, q, n) && Marked(s, n, q);
    ImageClosed(t, n, p, q);
  }

  lemma ImageClosed(t: seq<int>, n: Size, p: Point, q: Point)
    requires |t| == Volume(n) && Closed(t, n) && In(p, n) && In(q, n) && Image(p, q, n) && Marked(t, n, q)
    ensures Marked(t, n, p)
  {
    hide Marked, NC, Volume;
    var qz := q.(z := p.z);
    var qy := qz.(y := p.y);
    if q != qz {
      assert Far(qz, n, Z) == q && Coordinate(qz, Z) == 0;
    }
    if qz != qy {
      assert Far(qy, n, Y) == qz && Coordinate(qy, Y) == 0;
    }
    if qy != p {
      assert Far(p, n, X) == qy && Coordinate(p, X) == 0;
    }
  }

  // Freeing the far faces

  ghost predicate Freed(s: seq<int>, n: Size, axis: Axis, p: Point, reached: bool)
    requires |s| == Volume(n) && In(p, n)
  {
    Marked(s, n, p) || (Far(p, n, axis) == p && reached)
  }

  predicate OnFarFace(p: Point, n: Size)
    requires In(p, n)
  {
    Far(p, n, X) == p || Far(p, n, Y) == p || Far(p, n, Z) == p
  }

  method FreeZ(co: array<int>, n: Size)
    requires Positive(n) && co.Length == Volume(n)
    modifies co
    ensures forall p :: In(p, n) ==> (Marked(co[..], n, p) <==> Freed(old(co[..]), n, Z, p, true))
    ensures ZeroOne(old(co[..])) ==> ZeroOne(co[..])
  {
    hide Marked, ZeroOne, NC, Volume;
    ghost var was := co[..];
    var ny := 0;
    while ny < n.y
      invariant 0 <= ny <= n.y && (ZeroOne(was) ==> ZeroOne(co[..]))
      invariant forall p :: In(p, n) ==> (Marked(co[..], n, p) <==> Freed(was, n, Z, p, p.y < ny))
    {
      var nx := 0;
      while nx < n.x
        invariant 0 <= nx <= n.x && (ZeroOne(was) ==> ZeroOne(co[..]))
        invariant forall p :: In(p, n) ==>
          (Marked(co[..], n, p) <==> Freed(was, n, Z, p, p.y < ny || (p.y == ny && p.x < nx)))
      {
        Mark(co, n, Point(nx, ny, n.z - 1));
        nx := nx + 1;
      }
      ny := ny + 1;
    }
  }

  method FreeY(co: array<int>, n: Size)
    requires Positive(n) && co.Length == Volume(n)
    modifies co
    ensures forall p :: In(p, n) ==> (Marked(co[..], n, p) <==> Freed(old(co[..]), n, Y, p, true))
    ensures ZeroOne(old(co[..])) ==> ZeroOne(co[..])
  {
    hide Marked, ZeroOne, NC, Volume;
    ghost var was := co[..];
    var nz := 0;
    while nz < n.z
      invariant 0 <= nz <= n.z && (ZeroOne(was) ==> ZeroOne(co[..]))
      invariant forall p :: In(p, n) ==> (Marked(co[..], n, p) <==> Freed(was, n, Y, p, p.z < nz))
    {
      var nx := 0;
      while nx < n.x
        invariant 0 <= nx <= n.x && (ZeroOne(was) ==> ZeroOne(co[..]))
        invariant forall p :: In(p, n) ==>
          (Marked(co[..], n, p) <==> Freed(was, n, Y, p, p.z < nz || (p.z == nz && p.x < nx)))
      {
        Mark(co, n, Point(nx, n.y - 1, nz));
        nx := nx + 1;
      }
      nz := nz + 1;
    }
  }

  method FreeX(co: array<int>, n: Size)
    requires Positive(n) && co.Length == Volume(n)
    modifies co
    ensures forall p :: In(p, n) ==> (Marked(co[..], n, p) <==> Freed(old(co[..]), n, X, p, true))
    ensures ZeroOne(old(co[..])) ==> ZeroOne(co[..])
  {
    hide Marked, ZeroOne, NC, Volume;
    ghost var was := co[..];
    var nz := 0;
    while nz < n.z
      invariant 0 <= nz <= n.z && (ZeroOne(was) ==> ZeroOne(co[..]))
      invariant forall p :: In(p, n) ==> (Marked(co[..], n, p) <==> Freed(was, n, X, p, p.z < nz))
    {
      var ny := 0;
      while ny < n.y
        invariant 0 <= ny <= n.y && (ZeroOne(was) ==> ZeroOne(co[..]))
        invariant forall p :: In(p, n) ==>
          (Marked(co[..], n, p) <==> Freed(was, n, X, p, p.z < nz || (p.z == nz && p.y < ny)))
      {
        Mark(co, n, Point(n.x - 1, ny, nz));
        ny := ny + 1;
      }
      nz := nz + 1;
    }
  }

  // The nodes of the elements

  /** The offsets of the eight nodes of an element from its first. */
  function EnodeBase(n: Size): (r: seq<int>)
    ensures |r| == 8
  {
    [n.x * n.y + n.z, n.x * n.y + n.x + 1, n.x * n.y + 1, n.y * n.x, n.x, n.x + 1, 1, 0]
  }

  function Corners(e: Point): seq<Point> {
    [Point(e.x, e.y + 1, e.z + 1), Point(e.x + 1, e.y + 1, e.z + 1), Point(e.x + 1, e.y, e.z + 1),
     Point(e.x, e.y, e.z + 1), Point(e.x, e.y + 1, e.z), Point(e.x + 1, e.y + 1, e.z), Point(e.x + 1, e.y, e.z), e]
  }

  /** The table gives the corners of the element, the first one exactly when the grid is as long in x as in z. */
  lemma CornerTable(e: Point, n: Size)
    ensures forall k :: 1 <= k < 8 ==> EnodeBase(n)[k] + NC(e, n) == NC(Corners(e)[k], n)
    ensures EnodeBase(n)[0] + NC(e, n) == NC(Corners(e)[0], n) <==> n.x == n.z
  {
    hide NC;
    Offset(e, 0, 1, 1, n);
    Offset(e, 1, 1, 1, n);
    Offset(e, 1, 0, 1, n);
    Offset(e, 0, 0, 1, n);
    Offset(e, 0, 1, 0, n);
    Offset(e, 1, 1, 0, n);
    Offset(e, 1, 0, 0, n);
  }

  lemma Offset(e: Point, a: nat, b: nat, c: nat, n: Size)
    requires a <= 1 && b <= 1 && c <= 1
    ensures NC(Point(e.x + a, e.y + b, e.z + c), n) ==
      NC(e, n) + a + (if b == 1 then n.x else 0) + (if c == 1 then n.x * n.y else 0)
  {
  }

  predicate Touches(e: Point, p: Point) {
    e.x <= p.x <= e.x + 1 && e.y <= p.y <= e.y + 1 && e.z <= p.z <= e.z + 1
  }

  lemma CornersTouch(e: Point, p: Point)
    ensures p in Corners(e) <==> Touches(e, p)
  {
    if Touches(e, p) {
      var x, y, z := if p.x == e.x then 0 else 1, if p.y == e.y then 0 else 1, if p.z == e.z then 0 else 1;
      assert p == Point(e.x + x, e.y + y, e.z + z);
      var k := if p.z == e.z then (if p.y == e.y then (if p.x == e.x then 7 else 6) else (if p.x == e.x then 4 else 5))
               else (if p.y == e.y then (if p.x == e.x then 3 else 2) else (if p.x == e.x then 0 else 1));
      assert Corners(e)[k] == p;
    }
  }

  /** p is one of the nodes the table lists for element e. */
  ghost predicate Listed(n: Size, e: Point, p: Point) {
    ListedBefore(n, e, p, 8)
  }

  ghost predicate ListedBefore(n: Size, e: Point, p: Point, k: nat)
    requires k <= 8
  {
    exists l :: 0 <= l < k && EnodeBase(n)[l] + NC(e, n) == NC(p, n)
  }

  /** All the numbers the table lists for element e are numbers of nodes. */
  ghost predicate Fits(n: Size, e: Point) {
    forall k :: 0 <= k < 8 ==> 0 <= EnodeBase(n)[k] + NC(e, n) < Volume(n)
  }

  /** On a grid as long in x as in z the nodes listed for an element are its corners. */
  lemma ListedTouches(n: Size, e: Point, p: Point)
    requires n.x == n.z && e.x + 1 < n.x && e.y + 1 < n.y && e.z + 1 < n.z && In(p, n)
    ensures Listed(n, e, p) <==> Touches(e, p)
  {
    hide NC, EnodeBase, Touches, Corners;
    CornerTable(e, n);
    CornersTouch(e, p);
    CornersIn(e, n);
    if Listed(n, e, p) {
      var l :| 0 <= l < 8 && EnodeBase(n)[l] + NC(e, n) == NC(p, n);
      Injective(p, Corners(e)[l], n);
    }
    if l :| 0 <= l < 8 && Corners(e)[l] == p {
      assert EnodeBase(n)[l] + NC(e, n) == NC(p, n);
    }
  }

  /** On any grid: seven corners, and the node with the number the first entry of the table gives. */
  lemma ListedNodes(n: Size, e: Point, p: Point)
    requires e.x + 1 < n.x && e.y + 1 < n.y && e.z + 1 < n.z && In(p, n)
    ensures Listed(n, e, p) <==>
      (Touches(e, p) && p != Point(e.x, e.y + 1, e.z + 1)) || NC(p, n) == NC(e, n) + n.x * n.y + n.z
  {
    hide NC, Touches, Corners;
    CornerTable(e, n);
    CornersTouch(e, p);
    CornersIn(e, n);
    CornersDiffer(e);
    if l :| 0 <= l < 8 && EnodeBase(n)[l] + NC(e, n) == NC(p, n) && l != 0 {
      Injective(p, Corners(e)[l], n);
    }
    if l :| 0 <= l < 8 && Corners(e)[l] == p && l != 0 {
      assert EnodeBase(n)[l] + NC(e, n) == NC(p, n);
    }
    assert EnodeBase(n)[0] + NC(e, n) == NC(e, n) + n.x * n.y + n.z;
  }

  lemma CornersDiffer(e: Point)
    ensures Corners(e)[0] == Point(e.x, e.y + 1, e.z + 1) && Corners(e)[0] !in Corners(e)[1..]
  {
  }

  lemma CornersIn(e: Point, n: Size)
    requires e.x + 1 < n.x && e.y + 1 < n.y && e.z + 1 < n.z
    ensures |Corners(e)| == 8 && forall k :: 0 <= k < 8 ==> In(Corners(e)[k], n)
  {
  }

  /** The numbers listed for an element that is one before the end in all directions at most. */
  lemma FirstNumber(n: Size, e: Point)
    requires e.x + 1 < n.x && e.y + 1 < n.y && e.z + 1 < n.z
    ensures 0 <= EnodeBase(n)[0] + NC(e, n) <= Volume(n) + n.z - n.x - 2
    ensures e == Point(n.x - 2, n.y - 2, n.z - 2) ==> EnodeBase(n)[0] + NC(e, n) == Volume(n) + n.z - n.x - 2
  {
    hide NC, Volume, Line;
    Regroup(e, n);
    VolumeLast(n);
    LineLast(e, n);
    Multiples(Line(e, n), n.y * n.z - n.y - 2, n.x);
    Multiples(0, Line(e, n), n.x);
    Multiples(0, n.x, n.y);
  }

  lemma VolumeLast(n: Size)
    ensures Volume(n) == (n.y * n.z - n.y - 2) * n.x + n.y * n.x + 2 * n.x
  {
    VolumeIs(n);
  }

  lemma LineLast(e: Point, n: Size)
    requires e.y + 1 < n.y && e.z + 1 < n.z
    ensures Line(e, n) <= n.y * n.z - n.y - 2
    ensures e.y == n.y - 2 && e.z == n.z - 2 ==> Line(e, n) == n.y * n.z - n.y - 2
  {
    Multiples(e.z, n.z - 2, n.y);
  }

  /** The table stays in the array for every element exactly when the grid is at most one node longer in z than in x. */
  lemma TableFits(nelem: Size)
    requires Positive(nelem)
    ensures (forall e :: In(e, nelem) ==> Fits(Nodes(nelem), e)) <==> nelem.z <= nelem.x + 1
  {
    var n := Nodes(nelem);
    if nelem.z <= nelem.x + 1 {
      forall e | In(e, nelem) ensures Fits(n, e) {
        hide NC, Volume;
        FirstNumber(n, e);
        CornerTable(e, n);
        CornersIn(e, n);
        forall k | 0 <= k < 8 ensures 0 <= EnodeBase(n)[k] + NC(e, n) < Volume(n) {
          if k > 0 {
            Bounded(Corners(e)[k], n);
          }
        }
      }
    } else {
      var e := Point(nelem.x - 1, nelem.y - 1, nelem.z - 1);
      FirstNumber(n, e);
      assert In(e, nelem) && !Fits(n, e);
    }
  }

  /** A grid on which it does not. */
  lemma TooLong()
    ensures EnodeBase(Size(2, 2, 4))[0] + NC(Point(0, 0, 2), Size(2, 2, 4)) == Volume(Size(2, 2, 4))
  {
  }

  /** The nodes of one element of the Co phase. */
  method MarkElement(co: array<int>, n: Size, e: Point)
    requires co.Length == Volume(n) && Fits(n, e)
    modifies co
    ensures forall p :: In(p, n) ==> (Marked(co[..], n, p) <==> Marked(old(co[..]), n, p) || Listed(n, e, p))
    ensures ZeroOne(old(co[..])) ==> ZeroOne(co[..])
  {
    hide Marked, ZeroOne, NC, Volume, EnodeBase, ListedBefore;
    ghost var was := co[..];
    var enodes, k := EnodeBase(n), 0;
    NoneListed(n, e);
    while k < 8
      invariant 0 <= k <= 8 && (ZeroOne(was) ==> ZeroOne(co[..]))
      invariant forall p :: In(p, n) ==> (Marked(co[..], n, p) <==> Marked(was, n, p) || ListedBefore(n, e, p, k))
    {
      var node := enodes[k] + NC(e, n);
      ghost var s := co[..];
      ghost var q := Surjective(node, n);
      MarkOne(s, n, q);
      co[node] := 1;
      assert co[..] == s[node := 1];
      forall p | In(p, n) ensures ListedBefore(n, e, p, k + 1) <==> ListedBefore(n, e, p, k) || p == q {
        ListedNext(n, e, p, k, q);
      }
      k := k + 1;
    }
  }

  lemma NoneListed(n: Size, e: Point)
    ensures forall p :: !ListedBefore(n, e, p, 0)
  {
  }

  lemma ListedNext(n: Size, e: Point, p: Point, k: nat, q: Point)
    requires k < 8 && In(p, n) && In(q, n) && NC(q, n) == EnodeBase(n)[k] + NC(e, n)
    ensures ListedBefore(n, e, p, k + 1) <==> ListedBefore(n, e, p, k) || p == q
  {
    hide NC, EnodeBase;
    if NC(p, n) == NC(q, n) {
      Injective(p, q, n);
    }
  }

  /** Element e comes before the place the loops have reached. */
  predicate Before(e: Point, x: nat, y: nat, z: nat) {
    e.z < z || (e.z == z && (e.y < y || (e.y == y && e.x < x)))
  }

  ghost predicate InPhase(phases: seq<int>, nelem: Size, e: Point)
    requires |phases| >= Volume(nelem) && In(e, nelem)
  {
    Bounded(e, nelem);
    phases[NC(e, nelem)] == 1
  }

  /** The elements of the Co phase, whose nodes are marked, list no number beyond the array. */
  ghost predicate AllFit(phases: seq<int>, nelem: Size)
    requires |phases| >= Volume(nelem)
  {
    forall e :: In(e, nelem) && InPhase(phases, nelem, e) ==> Fits(Nodes(nelem), e)
  }

  /** Some element of the Co phase among those before the given place has node p. */
  ghost predicate Met(phases: seq<int>, nelem: Size, p: Point, x: nat, y: nat, z: nat)
    requires |phases| >= Volume(nelem)
  {
    exists e :: In(e, nelem) && InPhase(phases, nelem, e) && Before(e, x, y, z) && Listed(Nodes(nelem), e, p)
  }

  lemma MetNext(phases: seq<int>, nelem: Size, p: Point, x: nat, y: nat, z: nat)
    requires |phases| >= Volume(nelem)
    ensures In(Point(x, y, z), nelem) ==> (Met(phases, nelem, p, x + 1, y, z) <==>
      || Met(phases, nelem, p, x, y, z)
      || (InPhase(phases, nelem, Point(x, y, z)) && Listed(Nodes(nelem), Point(x, y, z), p)))
    ensures Met(phases, nelem, p, nelem.x, y, z) <==> Met(phases, nelem, p, 0, y + 1, z)
    ensures Met(phases, nelem, p, 0, nelem.y, z) <==> Met(phases, nelem, p, 0, 0, z + 1)
  {
    hide InPhase, Listed;
  }

  lemma MetNone(phases: seq<int>, nelem: Size, p: Point)
    requires |phases| >= Volume(nelem)
    ensures !Met(phases, nelem, p, 0, 0, 0)
  {
  }

  lemma NothingMarked(s: seq<int>, n: Size, p: Point)
    requires |s| == Volume(n) && In(p, n) && forall i :: 0 <= i < |s| ==> s[i] == 0
    ensures !Marked(s, n, p)
  {
    Bounded(p, n);
  }

  function Nodes(nelem: Size): (n: Size)
    ensures Positive(n)
  {
    Size(nelem.x + 1, nelem.y + 1, nelem.z + 1)
  }

  /** The loops over the elements: afterwards exactly the nodes of the elements of the Co phase are marked. */
  method MarkPhase(phases: seq<int>, nelem: Size, co: array<int>)
    requires |phases| >= Volume(nelem) && AllFit(phases, nelem) && co.Length == Volume(Nodes(nelem))
    requires forall i :: 0 <= i < co.Length ==> co[i] == 0
    modifies co
    ensures forall p :: In(p, Nodes(nelem)) ==>
      (Marked(co[..], Nodes(nelem), p) <==> Met(phases, nelem, p, 0, 0, nelem.z))
    ensures forall p :: In(p, Nodes(nelem)) ==>
      (Marked(co[..], Nodes(nelem), p) <==>
       exists e :: In(e, nelem) && (Bounded(e, nelem); phases[NC(e, nelem)] == 1) && Listed(Nodes(nelem), e, p))
    ensures ZeroOne(co[..])
  {
    hide Marked, NC, Volume, Listed, Met, InPhase;
    var n := Nodes(nelem);
    forall p | In(p, n) ensures !Met(phases, nelem, p, 0, 0, 0) && !Marked(co[..], n, p) {
      MetNone(phases, nelem, p);
      NothingMarked(co[..], n, p);
    }
    var eZ := 0;
    while eZ < nelem.z
      invariant 0 <= eZ <= nelem.z && ZeroOne(co[..])
      invariant forall p :: In(p, n) ==> (Marked(co[..], n, p) <==> Met(phases, nelem, p, 0, 0, eZ))
    {
      var eY := 0;
      while eY < nelem.y
        invariant 0 <= eY <= nelem.y && ZeroOne(co[..])
        invariant forall p :: In(p, n) ==> (Marked(co[..], n, p) <==> Met(phases, nelem, p, 0, eY, eZ))
      {
        MarkRow(phases, nelem, co, eY, eZ);
        forall p | In(p, n) ensures Met(phases, nelem, p, nelem.x, eY, eZ) <==> Met(phases, nelem, p, 0, eY + 1, eZ) {
          MetNext(phases, nelem, p, 0, eY, eZ);
        }
        eY := eY + 1;
      }
      forall p | In(p, n) ensures Met(phases, nelem, p, 0, nelem.y, eZ) <==> Met(phases, nelem, p, 0, 0, eZ + 1) {
        MetNext(phases, nelem, p, 0, 0, eZ);
      }
      eZ := eZ + 1;
    }
    forall p | In(p, n) ensures Met(phases, nelem, p, 0, 0, nelem.z) <==>
      exists e :: In(e, nelem) && (Bounded(e, nelem); phases[NC(e, nelem)] == 1) && Listed(n, e, p)
    {
      MetAll(phases, nelem, p);
    }
  }

  /** Once the loops are through, all elements of phase 1 have been met. */
  lemma MetAll(phases: seq<int>, nelem: Size, p: Point)
    requires |phases| >= Volume(nelem)
    ensures Met(phases, nelem, p, 0, 0, nelem.z) <==>
      exists e :: In(e, nelem) && (Bounded(e, nelem); phases[NC(e, nelem)] == 1) && Listed(Nodes(nelem), e, p)
  {
    hide NC, Volume, Listed;
    if e :| In(e, nelem) && (Bounded(e, nelem); phases[NC(e, nelem)] == 1) && Listed(Nodes(nelem), e, p) {
      assert InPhase(phases, nelem, e) && Before(e, 0, 0, nelem.z);
    }
  }

  /** The innermost loop over the elements. */
  method MarkRow(phases: seq<int>, nelem: Size, co: array<int>, eY: nat, eZ: nat)
    requires |phases| >= Volume(nelem) && AllFit(phases, nelem) && co.Length == Volume(Nodes(nelem)) && ZeroOne(co[..])
    requires eY < nelem.y && eZ < nelem.z
    requires forall p :: In(p, Nodes(nelem)) ==> (Marked(co[..], Nodes(nelem), p) <==> Met(phases, nelem, p, 0, eY, eZ))
    modifies co
    ensures forall p :: In(p, Nodes(nelem)) ==>
      (Marked(co[..], Nodes(nelem), p) <==> Met(phases, nelem, p, nelem.x, eY, eZ))
    ensures ZeroOne(co[..])
  {
    hide Marked, ZeroOne, NC, Volume, Listed, Met;
    var n := Nodes(nelem);
    var eX := 0;
    while eX < nelem.x
      invariant 0 <= eX <= nelem.x && ZeroOne(co[..])
      invariant forall p :: In(p, n) ==> (Marked(co[..], n, p) <==> Met(phases, nelem, p, eX, eY, eZ))
    {
      var e := Point(eX, eY, eZ);
      Bounded(e, nelem);
      if phases[NC(e, nelem)] == 1 {
        MarkElement(co, n, e);
      }
      forall p | In(p, n) ensures Met(phases, nelem, p, eX + 1, eY, eZ) <==>
        Met(phases, nelem, p, eX, eY, eZ) || (InPhase(phases, nelem, e) && Listed(Nodes(nelem), e, p))
      {
        MetNext(phases, nelem, p, eX, eY, eZ);
      }
      eX := eX + 1;
    }
  }

  // The set of prescribed nodes

  /** The positions, counted from 1, of the entries that are not zero. */
  ghost function Nonzeros(s: seq<int>): seq<int> {
    if s == [] then []
    else
      var before := Nonzeros(s[..|s| - 1]);
      if s[|s| - 1] != 0 then before + [|s|] else before
  }

  lemma {:induction false} NonzerosAre(s: seq<int>, i: int)
    ensures i in Nonzeros(s) <==> 1 <= i <= |s| && s[i - 1] != 0
    ensures forall k :: 0 <= k < |Nonzeros(s)| ==> 1 <= Nonzeros(s)[k] <= |s|
    ensures forall j, k :: 0 <= j < k < |Nonzeros(s)| ==> Nonzeros(s)[j] < Nonzeros(s)[k]
  {
    if s != [] {
      NonzerosAre(s[..|s| - 1], i);
    }
  }

  lemma {:induction false} NonzerosPrefix(s: seq<int>, i: nat)
    requires i <= |s|
    ensures |Nonzeros(s[..i])| <= |Nonzeros(s)|
    decreases |s| - i
  {
    if i == |s| {
      assert s[..i] == s;
    } else {
      NonzerosPrefix(s, i + 1);
      assert s[..i + 1][..i] == s[..i];
    }
  }

  /** findNonzeros: one pass to count, one to fill. */
  method FindNonzeros(logical: array<int>) returns (r: array<int>)
    ensures fresh(r) && r[..] == Nonzeros(logical[..])
  {
    ghost var s := logical[..];
    var newsize, i := 0, 0;
    while i < logical.Length
      invariant 0 <= i <= logical.Length && newsize == |Nonzeros(s[..i])|
    {
      assert s[..i + 1][..i] == s[..i];
      if logical[i] != 0 { newsize := newsize + 1; }
      i := i + 1;
    }
    assert s[..i] == s;
    r := new int[newsize];
    var pos := 1;
    i := 1;
    while i <= logical.Length
      invariant 1 <= i <= logical.Length + 1 && pos == |Nonzeros(s[..i - 1])| + 1 <= newsize + 1
      invariant s == logical[..] && r[..pos - 1] == Nonzeros(s[..i - 1])
    {
      assert s[..i][..i - 1] == s[..i - 1];
      NonzerosPrefix(s, i);
      if logical[i - 1] != 0 {
        r[pos - 1] := i;
        pos := pos + 1;
      }
      i := i + 1;
    }
    assert s[..i - 1] == s;
  }

  /** A node is prescribed if it is no slave and no element of the Co phase lists any of its periodic images. */
  ghost predicate Prescribed(phases: seq<int>, nelem: Size, p: Point)
    requires |phases| >= Volume(nelem) && In(p, Nodes(nelem))
  {
    && !OnFarFace(p, Nodes(nelem))
    && forall q, e :: In(q, Nodes(nelem)) && Image(p, q, Nodes(nelem)) && In(e, nelem) && InPhase(phases, nelem, e) ==>
      !Listed(Nodes(nelem), e, q)
  }

  /** The same in coordinates, over the entries of phases. */
  lemma PrescribedIs(phases: seq<int>, nelem: Size, p: Point)
    requires |phases| >= Volume(nelem) && In(p, Nodes(nelem))
    ensures Prescribed(phases, nelem, p) <==>
      && p.x < nelem.x && p.y < nelem.y && p.z < nelem.z
      && forall q: Point, e: Point |
        && (q.x == p.x || (p.x == 0 && q.x == nelem.x))
        && (q.y == p.y || (p.y == 0 && q.y == nelem.y))
        && (q.z == p.z || (p.z == 0 && q.z == nelem.z))
        && In(e, nelem) && (Bounded(e, nelem); phases[NC(e, nelem)] == 1) :: !Listed(Nodes(nelem), e, q)
  {
    hide NC, Volume, Listed;
  }

  /** Where all elements are of phase 1 no node is prescribed. */
  lemma AllOfPhase(phases: seq<int>, nelem: Size, p: Point)
    requires |phases| >= Volume(nelem) && In(p, Nodes(nelem))
    requires forall i :: 0 <= i < Volume(nelem) ==> phases[i] == 1
    ensures !Prescribed(phases, nelem, p)
  {
    hide NC, Volume, Listed;
    ListsItself(Nodes(nelem), p);
    if In(p, nelem) {
      Bounded(p, nelem);
      assert InPhase(phases, nelem, p) && Image(p, p, Nodes(nelem));
    }
  }

  /** The last entry of the table is the first corner. */
  lemma ListsItself(n: Size, e: Point)
    ensures Listed(n, e, e)
  {
    assert EnodeBase(n)[7] + NC(e, n) == NC(e, n);
  }

  /** Where no element is, all nodes are but those on the far faces. */
  lemma NoneOfPhase(phases: seq<int>, nelem: Size, p: Point)
    requires |phases| >= Volume(nelem) && In(p, Nodes(nelem))
    requires forall i :: 0 <= i < Volume(nelem) ==> phases[i] != 1
    ensures Prescribed(phases, nelem, p) <==> In(p, nelem)
  {
    hide NC, Volume, Listed;
    forall e | In(e, nelem) ensures !InPhase(phases, nelem, e) {
      Bounded(e, nelem);
    }
  }

  /** What a list of exactly the prescribed nodes is, over the entries of phases. */
  lemma SelectedNodes(phases: seq<int>, nelem: Size, wc: seq<int>)
    requires |phases| >= Volume(nelem) && forall k :: 0 <= k < |wc| ==> 1 <= wc[k] <= Volume(Nodes(nelem))
    requires forall p :: In(p, Nodes(nelem)) ==> (NC(p, Nodes(nelem)) + 1 in wc <==> Prescribed(phases, nelem, p))
    ensures forall p :: In(p, Nodes(nelem)) ==> (NC(p, Nodes(nelem)) + 1 in wc <==>
      && p.x < nelem.x && p.y < nelem.y && p.z < nelem.z
      && forall q: Point, e: Point |
        && (q.x == p.x || (p.x == 0 && q.x == nelem.x))
        && (q.y == p.y || (p.y == 0 && q.y == nelem.y))
        && (q.z == p.z || (p.z == 0 && q.z == nelem.z))
        && In(e, nelem) && (Bounded(e, nelem); phases[NC(e, nelem)] == 1) :: !Listed(Nodes(nelem), e, q))
    ensures (forall i :: 0 <= i < Volume(nelem) ==> phases[i] == 1) ==> wc == []
    ensures (forall i :: 0 <= i < Volume(nelem) ==> phases[i] != 1) ==>
      forall p :: In(p, Nodes(nelem)) ==> (NC(p, Nodes(nelem)) + 1 in wc <==> In(p, nelem))
  {
    hide NC, Listed, Prescribed, Volume;
    forall p | In(p, Nodes(nelem)) {
      PrescribedIs(phases, nelem, p);
    }
    if wc != [] && forall i :: 0 <= i < Volume(nelem) ==> phases[i] == 1 {
      var p := Surjective(wc[0] - 1, Nodes(nelem));
      assert wc[0] in wc;
      AllOfPhase(phases, nelem, p);
    }
    if forall i :: 0 <= i < Volume(nelem) ==> phases[i] != 1 {
      forall p | In(p, Nodes(nelem)) ensures NC(p, Nodes(nelem)) + 1 in wc <==> In(p, nelem) {
        NoneOfPhase(phases, nelem, p);
      }
    }
  }

  /** From the phases of the elements to set number 7. */
  method PrescribedNodes(phases: seq<int>, nelem: Size) returns (wc: array<int>)
    requires |phases| >= Volume(nelem) && AllFit(phases, nelem)
    ensures forall p :: In(p, Nodes(nelem)) ==> (NC(p, Nodes(nelem)) + 1 in wc[..] <==> Prescribed(phases, nelem, p))
    ensures forall j, k :: 0 <= j < k < wc.Length ==> wc[j] < wc[k]
    ensures forall k :: 0 <= k < wc.Length ==> 1 <= wc[k] <= Volume(Nodes(nelem))
    ensures forall p :: In(p, Nodes(nelem)) ==> (NC(p, Nodes(nelem)) + 1 in wc[..] <==>
      && p.x < nelem.x && p.y < nelem.y && p.z < nelem.z
      && forall q: Point, e: Point |
        && (q.x == p.x || (p.x == 0 && q.x == nelem.x))
        && (q.y == p.y || (p.y == 0 && q.y == nelem.y))
        && (q.z == p.z || (p.z == 0 && q.z == nelem.z))
        && In(e, nelem) && (Bounded(e, nelem); phases[NC(e, nelem)] == 1) :: !Listed(Nodes(nelem), e, q))
    ensures (forall i :: 0 <= i < Volume(nelem) ==> phases[i] == 1) ==> wc.Length == 0
    ensures (forall i :: 0 <= i < Volume(nelem) ==> phases[i] != 1) ==>
      forall p :: In(p, Nodes(nelem)) ==> (NC(p, Nodes(nelem)) + 1 in wc[..] <==> In(p, nelem))
  {
    hide Marked, NC, Listed, Met, InPhase, Imaged, Freed, Prescribed, Volume;
    var n := Nodes(nelem);
    VolumePositive(n);
    var co := new int[Volume(n)](_ => 0);
    MarkPhase(phases, nelem, co);
    ghost var s := co[..];
    SweepAll(co, n);
    ghost var f := co[..];
    FreeZ(co, n);
    ghost var fz := co[..];
    FreeY(co, n);
    ghost var fy := co[..];
    FreeX(co, n);
    ghost var fx := co[..];
    var i := 0;
    while i < co.Length
      invariant 0 <= i <= co.Length
      invariant forall k :: 0 <= k < co.Length ==> co[k] == if k < i then fx[k] - 1 else fx[k]
    {
      co[i] := co[i] - 1;
      i := i + 1;
    }
    ghost var last := co[..];
    wc := FindNonzeros(co);
    forall p | In(p, n) ensures NC(p, n) + 1 in wc[..] <==> Prescribed(phases, nelem, p) {
      NonzerosAre(last, NC(p, n) + 1);
      LeftOver(last, fx, n, p);
      AllFreed(f, fz, fy, fx, n, p);
      ImagedPhase(phases, nelem, s, p);
    }
    NonzerosAre(last, 0);
    SelectedNodes(phases, nelem, wc[..]);
  }

  /** On a grid as long in x as in z: no element of the Co phase touches any of its periodic images. */
  lemma PrescribedTouches(phases: seq<int>, nelem: Size, p: Point)
    requires |phases| >= Volume(nelem) && nelem.x == nelem.z && In(p, Nodes(nelem))
    ensures Prescribed(phases, nelem, p) <==>
      && !OnFarFace(p, Nodes(nelem))
      && forall q, e ::
        In(q, Nodes(nelem)) && Image(p, q, Nodes(nelem)) && In(e, nelem) && InPhase(phases, nelem, e) ==> !Touches(e, q)
  {
    hide NC, Volume, InPhase, Listed, Touches, OnFarFace;
    forall q, e | In(q, Nodes(nelem)) && In(e, nelem) ensures Listed(Nodes(nelem), e, q) <==> Touches(e, q) {
      ListedTouches(Nodes(nelem), e, q);
    }
  }

  lemma VolumePositive(n: Size)
    requires Positive(n)
    ensures Volume(n) >= 1
  {
    Bounded(Point(0, 0, 0), n);
  }

  /** After 1 is taken away what was not marked is not zero. */
  lemma LeftOver(last: seq<int>, fx: seq<int>, n: Size, p: Point)
    requires |last| == |fx| == Volume(n) && In(p, n) && ZeroOne(fx)
    requires forall k :: 0 <= k < |fx| ==> last[k] == fx[k] - 1
    ensures 0 <= NC(p, n) < |last| && (last[NC(p, n)] != 0 <==> !Marked(fx, n, p))
  {
    hide NC, Volume;
    Bounded(p, n);
  }

  lemma AllFreed(f: seq<int>, fz: seq<int>, fy: seq<int>, fx: seq<int>, n: Size, p: Point)
    requires |f| == |fz| == |fy| == |fx| == Volume(n) && In(p, n)
    requires forall q :: In(q, n) ==> (Marked(fz, n, q) <==> Freed(f, n, Z, q, true))
    requires forall q :: In(q, n) ==> (Marked(fy, n, q) <==> Freed(fz, n, Y, q, true))
    requires forall q :: In(q, n) ==> (Marked(fx, n, q) <==> Freed(fy, n, X, q, true))
    ensures Marked(fx, n, p) <==> Marked(f, n, p) || OnFarFace(p, n)
  {
    hide Marked, NC, Volume;
  }

  lemma ImagedPhase(phases: seq<int>, nelem: Size, s: seq<int>, p: Point)
    requires |phases| >= Volume(nelem) && In(p, Nodes(nelem)) && |s| == Volume(Nodes(nelem))
    requires forall q :: In(q, Nodes(nelem)) ==> (Marked(s, Nodes(nelem), q) <==> Met(phases, nelem, q, 0, 0, nelem.z))
    ensures Prescribed(phases, nelem, p) <==> !Imaged(s, Nodes(nelem), p) && !OnFarFace(p, Nodes(nelem))
  {
    hide Marked, NC, Volume, InPhase, Listed;
    var n := Nodes(nelem);
    if Imaged(s, n, p) {
      var q :| In(q, n) && Image(p, q, n) && Marked(s, n, q);
      var e :| In(e, nelem) && InPhase(phases, nelem, e) && Before(e, 0, 0, nelem.z) && Listed(Nodes(nelem), e, q);
    } else {
      forall q, e | In(q, n) && Image(p, q, n) && In(e, nelem) && InPhase(phases, nelem, e) ensures !Listed(n, e, q) {
        assert !Marked(s, n, q);
        assert Before(e, 0, 0, nelem.z);
      }
    }
  }
}
