/** Plane rotations, iml/gmres.h. */
module Rotations {
  import opened Reals

  datatype Rotation = Rotation(cs: real, sn: real)
  {
    ghost predicate Unit() {
      cs * cs + sn * sn == 1.0
    }

    /** The two values ApplyPlaneRotation leaves in dx and dy. */
    function Dx(dx: real, dy: real): real { cs * dx + sn * dy }

    function Dy(dx: real, dy: real): real { -sn * dx + cs * dy }
  }

  method ApplyPlaneRotation(dx: real, dy: real, cs: real, sn: real) returns (dx': real, dy': real)
    ensures dx' == Rotation(cs, sn).Dx(dx, dy) && dy' == Rotation(cs, sn).Dy(dx, dy)
  {
    var temp := cs * dx + sn * dy;
    dy' := -sn * dx + cs * dy;
    dx' := temp;
  }

  /** The pair is a rotation and turns (dx, dy) onto the first axis. */
  method GeneratePlaneRotation(sqrt: real -> real, dx: real, dy: real) returns (cs: real, sn: real)
    requires IsRoot(sqrt)
    ensures Rotation(cs, sn).Unit() && Rotation(cs, sn).Dy(dx, dy) == 0.0
  {
    hide Rotation.Unit, Rotation.Dy, IsRoot;
    if dy == 0.0 {
      cs, sn := 1.0, 0.0;
      Identity(dx);
    } else if Abs(dy) > Abs(dx) {
      var temp := dx / dy;
      sn := 1.0 / RootOf(sqrt, temp);
      cs := temp * sn;
      Steep(sqrt, dx, dy, temp, sn);
    } else {
      var temp := dy / dx;
      cs := 1.0 / RootOf(sqrt, temp);
      sn := temp * cs;
      Flat(sqrt, dx, dy, temp, cs);
    }
  }

  /** sqrt(1 + temp*temp), which is never zero. */
  function RootOf(sqrt: real -> real, temp: real): (root: real)
    requires IsRoot(sqrt)
    ensures root > 0.0 && root * root == 1.0 + temp * temp
  {
    assert temp * temp >= 0.0;
    sqrt(1.0 + temp * temp)
  }

  lemma Identity(dx: real)
    ensures Rotation(1.0, 0.0).Unit() && Rotation(1.0, 0.0).Dy(dx, 0.0) == 0.0
  {
  }

  lemma Steep(sqrt: real -> real, dx: real, dy: real, temp: real, sn: real)
    requires IsRoot(sqrt) && dy != 0.0 && temp == dx / dy && sn == 1.0 / RootOf(sqrt, temp)
    ensures Rotation(temp * sn, sn).Unit() && Rotation(temp * sn, sn).Dy(dx, dy) == 0.0
  {
    Normalised(sqrt, temp, sn);
    Cancels(dx, dy, temp, sn);
  }

  lemma Flat(sqrt: real -> real, dx: real, dy: real, temp: real, cs: real)
    requires IsRoot(sqrt) && dx != 0.0 && temp == dy / dx && cs == 1.0 / RootOf(sqrt, temp)
    ensures Rotation(cs, temp * cs).Unit() && Rotation(cs, temp * cs).Dy(dx, dy) == 0.0
  {
    Normalised(sqrt, temp, cs);
    Cancels(dy, dx, temp, cs);
  }

  lemma Normalised(sqrt: real -> real, temp: real, a: real)
    requires IsRoot(sqrt) && a == 1.0 / RootOf(sqrt, temp)
    ensures a * a + (temp * a) * (temp * a) == 1.0
  {
    hide RootOf;
    var root := RootOf(sqrt, temp);
    assert a * root == 1.0;
    assert (a * root) * (a * root) == a * a * (root * root);
    assert a * a * (1.0 + temp * temp) == a * a + (temp * a) * (temp * a);
  }

  lemma Cancels(a: real, b: real, temp: real, s: real)
    requires b != 0.0 && temp == a / b
    ensures s * a == (temp * s) * b
  {
    assert temp * b == a;
    assert s * (temp * b) == (temp * s) * b;
  }

  /** Rotating coordinates and frame alike changes nothing. */
  lemma RotationIdentity(g: Rotation, a: real, b: real, p: real, q: real)
    requires g.Unit()
    ensures g.Dx(a, b) * g.Dx(p, q) + g.Dy(a, b) * g.Dy(p, q) == a * p + b * q
  {
    var c, s := g.cs, g.sn;
    assert g.Dx(a, b) * g.Dx(p, q) == (c * c) * (a * p) + (c * s) * (a * q) + (c * s) * (b * p) + (s * s) * (b * q);
    assert g.Dy(a, b) * g.Dy(p, q) == (s * s) * (a * p) - (c * s) * (a * q) - (c * s) * (b * p) + (c * c) * (b * q);
    assert (c * c + s * s) * (a * p) == a * p && (c * c + s * s) * (b * q) == b * q;
  }

  lemma Diagonal(g: Rotation, a: real, b: real)
    requires g.Unit() && g.Dy(a, b) == 0.0
    ensures g.Dx(a, b) * g.Dx(a, b) == a * a + b * b
    ensures b != 0.0 ==> g.Dx(a, b) != 0.0
  {
    RotationIdentity(g, a, b, a, b);
    assert a * a >= 0.0;
    if b != 0.0 {
      assert b * b > 0.0;
    }
  }
}
