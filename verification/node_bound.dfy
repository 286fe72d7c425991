/** NodeBound: the unrotated box of a tree node plus a rotation in degrees
    (positive is counter-clockwise). Its setters, size, corner getters,
    bounds, ExtendBound and ContainPoint2D do what the ConvexRect ones do to
    `bound` and keep the rotation; only the constructors, which never compute
    the cached center, and the rotated AllCorners differ. RotationDegree is a
    plain property, so setting it is a datatype update. */
module NodeBounds {
  import opened Geometry
  import ConvexRects

  datatype NodeBound = NodeBound(rotation: real, bound: ConvexRects.Rect)

  /** new NodeBound(x, y, width, height): the size is stored as its absolute
      value and, unlike ConvexRect, the center is left at (0, 0). */
  function FromTopLeft(x: real, y: real, width: real, height: real): (nb: NodeBound)
    ensures nb.rotation == 0.0
    ensures nb.bound == ConvexRects.FromTopLeft(x, y, width, height).(center := Zero)
  {
    NodeBound(0.0, ConvexRects.Rect(x, y, Abs(width), Abs(height), Zero))
  }

  /** new NodeBound(center, size): the same box as the ConvexRect
      constructor, whose center is not computed either. */
  function FromCenterSize(c: Vec2, size: Vec2): (nb: NodeBound)
    ensures nb.rotation == 0.0
    ensures nb.bound == ConvexRects.FromCenterSize(c, size)
  {
    NodeBound(0.0, ConvexRects.Rect(c.x - size.x / 2.0, c.y + size.y / 2.0, Abs(size.x), Abs(size.y), Zero))
  }

  /** NodeBound.zero: the same box as ConvexRect.zero; its stale center
      happens to be right, because the box is at the origin. */
  function ZeroBound(): (nb: NodeBound)
    ensures nb.rotation == 0.0
    ensures nb.bound == ConvexRects.ZeroRect()
  {
    FromTopLeft(0.0, 0.0, 0.0, 0.0)
  }

  // ---------------------------------------------------------------------
  // Setters: each changes the fields it names and keeps the rotation

  /** NodeBound.x: moves the box sideways; the center is recomputed. */
  function SetX(nb: NodeBound, value: real): (r: NodeBound)
    ensures r.rotation == nb.rotation && r.bound.x == value
    ensures r.bound.(x := nb.bound.x, center := nb.bound.center) == nb.bound
    ensures ConvexRects.CenterConsistent(r.bound)
  {
    nb.(bound := ConvexRects.SetX(nb.bound, value))
  }

  /** NodeBound.y: moves the box up or down; the center is recomputed. */
  function SetY(nb: NodeBound, value: real): (r: NodeBound)
    ensures r.rotation == nb.rotation && r.bound.y == value
    ensures r.bound.(y := nb.bound.y, center := nb.bound.center) == nb.bound
    ensures ConvexRects.CenterConsistent(r.bound)
  {
    nb.(bound := ConvexRects.SetY(nb.bound, value))
  }

  /** NodeBound.width: stored as given, without an absolute value; the
      center is recomputed. */
  function SetWidth(nb: NodeBound, value: real): (r: NodeBound)
    ensures r.rotation == nb.rotation && r.bound.width == value
    ensures r.bound.(width := nb.bound.width, center := nb.bound.center) == nb.bound
    ensures ConvexRects.CenterConsistent(r.bound)
  {
    nb.(bound := ConvexRects.SetWidth(nb.bound, value))
  }

  /** NodeBound.height: stored as given; the center is recomputed. */
  function SetHeight(nb: NodeBound, value: real): (r: NodeBound)
    ensures r.rotation == nb.rotation && r.bound.height == value
    ensures r.bound.(height := nb.bound.height, center := nb.bound.center) == nb.bound
    ensures ConvexRects.CenterConsistent(r.bound)
  {
    nb.(bound := ConvexRects.SetHeight(nb.bound, value))
  }

  /** NodeBound.widthFromCenter: the width and x change, laid out around
      the cached center, which is not touched. */
  function WidthFromCenter(nb: NodeBound, value: real): (r: NodeBound)
    ensures r.rotation == nb.rotation && r.bound.width == value
    ensures r.bound.(width := nb.bound.width, x := nb.bound.x) == nb.bound
    ensures ConvexRects.CalculatedCenter(r.bound).x == nb.bound.center.x
  {
    nb.(bound := ConvexRects.WidthFromCenter(nb.bound, value))
  }

  /** NodeBound.heightFromCenter: the height and y change, laid out around
      the cached center, which is not touched. */
  function HeightFromCenter(nb: NodeBound, value: real): (r: NodeBound)
    ensures r.rotation == nb.rotation && r.bound.height == value
    ensures r.bound.(height := nb.bound.height, y := nb.bound.y) == nb.bound
    ensures ConvexRects.CalculatedCenter(r.bound).y == nb.bound.center.y
  {
    nb.(bound := ConvexRects.HeightFromCenter(nb.bound, value))
  }

  /** NodeBound.center: stored as given; x and y move so that the box, of
      unchanged size, is centered on it. */
  function SetCenter(nb: NodeBound, c: Vec2): (r: NodeBound)
    ensures r.rotation == nb.rotation && r.bound.center == c
    ensures r.bound.(center := nb.bound.center, x := nb.bound.x, y := nb.bound.y) == nb.bound
    ensures ConvexRects.CenterConsistent(r.bound)
  {
    nb.(bound := ConvexRects.SetCenter(nb.bound, c))
  }

  /** NodeBound.ExtendBound: the size becomes the absolute value of size plus
      amount, laid out around the cached center, which is kept. */
  function ExtendBound(nb: NodeBound, amount: Vec2): (r: NodeBound)
    ensures r.rotation == nb.rotation && r.bound.center == nb.bound.center
    ensures r.bound.width == Abs(nb.bound.width + amount.x) && r.bound.height == Abs(nb.bound.height + amount.y)
    ensures ConvexRects.CenterConsistent(r.bound)
  {
    nb.(bound := ConvexRects.ExtendBound(nb.bound, amount))
  }

  /** The bounds are ordered whatever the sign of the stored size, and the
      four corner getters and minCorner/maxCorner pass the point test. */
  lemma BoundsOrdered(nb: NodeBound)
    ensures ConvexRects.XMin(nb.bound) <= ConvexRects.XMax(nb.bound)
    ensures ConvexRects.YMin(nb.bound) <= ConvexRects.YMax(nb.bound)
    ensures ContainPoint2D(nb, ConvexRects.TLCorner(nb.bound)) && ContainPoint2D(nb, ConvexRects.TRCorner(nb.bound))
    ensures ContainPoint2D(nb, ConvexRects.BRCorner(nb.bound)) && ContainPoint2D(nb, ConvexRects.BLCorner(nb.bound))
    ensures ContainPoint2D(nb, ConvexRects.MinCorner(nb.bound)) && ContainPoint2D(nb, ConvexRects.MaxCorner(nb.bound))
  {
    var cs := ConvexRects.AllCorners(nb.bound);
    assert ConvexRects.ContainPoint2D(nb.bound, cs[0]) && ConvexRects.ContainPoint2D(nb.bound, cs[1]);
    assert ConvexRects.ContainPoint2D(nb.bound, cs[2]) && ConvexRects.ContainPoint2D(nb.bound, cs[3]);
  }

  /** NodeBound.ContainPoint2D: the unrotated box's test, inclusive on all
      four sides, whatever the sign of the stored size. */
  function ContainPoint2D(nb: NodeBound, p: Vec2): (b: bool)
    ensures b <==> ConvexRects.Between(p.x, nb.bound.x, nb.bound.x + nb.bound.width) &&
                   ConvexRects.Between(p.y, nb.bound.y - nb.bound.height, nb.bound.y)
  {
    ConvexRects.ContainPoint2D(nb.bound, p)
  }

  /** The point test ignores the rotation: the box is tested as if unrotated. */
  lemma ContainPointIgnoresRotation(nb: NodeBound, angle: real, p: Vec2)
    ensures ContainPoint2D(nb.(rotation := angle), p) == ContainPoint2D(nb, p)
  {
  }

  /** (cos, sin) rotation of v counter-clockwise. */
  function Rotate(v: Vec2, cosR: real, sinR: real): Vec2 {
    Vec2(Mul(cosR, v.x) - Mul(sinR, v.y), Mul(sinR, v.x) + Mul(cosR, v.y))
  }

  /** NodeBound.AllCorners: each unrotated corner, taken relative to the
      cached center and rotated. The result is not moved back by the center,
      so the corners are relative to it. cosR and sinR stand for the cosine
      and sine of the rotation in radians. At rotation 0 (cos 1, sin 0) the
      corners are the box's corners shifted by the cached center; with a
      consistent center, opposite corners come out opposite, so the rotated
      box is centered on the origin. */
  function AllCorners(nb: NodeBound, cosR: real, sinR: real): (cs: seq<Vec2>)
    ensures |cs| == 4
    ensures forall i :: 0 <= i < 4 ==>
      cs[i] == Rotate(Sub(ConvexRects.AllCorners(nb.bound)[i], nb.bound.center), cosR, sinR)
    ensures cosR == 1.0 && sinR == 0.0 ==> forall i :: 0 <= i < 4 ==>
      cs[i] == Sub(ConvexRects.AllCorners(nb.bound)[i], nb.bound.center)
    ensures ConvexRects.CenterConsistent(nb.bound) ==> Add(cs[0], cs[2]) == Zero && Add(cs[1], cs[3]) == Zero
  {
    var box := ConvexRects.AllCorners(nb.bound);
    var c := nb.bound.center;
    assert ConvexRects.CenterConsistent(nb.bound) ==>
      Sub(box[2], c) == Neg(Sub(box[0], c)) && Sub(box[3], c) == Neg(Sub(box[1], c));
    RotateNeg(Sub(box[0], c), cosR, sinR);
    RotateNeg(Sub(box[1], c), cosR, sinR);
    [Rotate(Sub(box[0], c), cosR, sinR), Rotate(Sub(box[1], c), cosR, sinR),
     Rotate(Sub(box[2], c), cosR, sinR), Rotate(Sub(box[3], c), cosR, sinR)]
  }

  /** A bound built by any of its constructors keeps (0, 0) as its center,
      so at rotation 0 AllCorners returns the box's own corners. */
  lemma ConstructedCornersAreUnshifted(x: real, y: real, width: real, height: real, c: Vec2, size: Vec2)
    ensures AllCorners(FromTopLeft(x, y, width, height), 1.0, 0.0) ==
            ConvexRects.AllCorners(FromTopLeft(x, y, width, height).bound)
    ensures AllCorners(FromCenterSize(c, size), 1.0, 0.0) == ConvexRects.AllCorners(FromCenterSize(c, size).bound)
    ensures AllCorners(ZeroBound(), 1.0, 0.0) == ConvexRects.AllCorners(ZeroBound().bound)
  {
    UnshiftedAtOrigin(FromTopLeft(x, y, width, height));
    UnshiftedAtOrigin(FromCenterSize(c, size));
    UnshiftedAtOrigin(ZeroBound());
  }

  /** With the cached center at (0, 0), the corners at rotation 0 are the
      box's own. */
  lemma UnshiftedAtOrigin(nb: NodeBound)
    requires nb.bound.center == Zero
    ensures AllCorners(nb, 1.0, 0.0) == ConvexRects.AllCorners(nb.bound)
  {
    var cs, box := AllCorners(nb, 1.0, 0.0), ConvexRects.AllCorners(nb.bound);
    forall i | 0 <= i < 4
      ensures cs[i] == box[i]
    {
      assert Sub(box[i], Zero) == box[i];
    }
  }

  /** A rotation (cos^2 + sin^2 = 1) keeps lengths. */
  lemma RotationKeepsLength(v: Vec2, cosR: real, sinR: real)
    requires Mul(cosR, cosR) + Mul(sinR, sinR) == 1.0
    ensures SqrMagnitude(Rotate(v, cosR, sinR)) == SqrMagnitude(v)
  {
    var a := Vec2(cosR, -sinR);
    assert Mul(-sinR, v.y) == -Mul(sinR, v.y);
    assert Mul(-sinR, v.x) == -Mul(sinR, v.x);
    assert Mul(-sinR, -sinR) == Mul(sinR, sinR);
    assert Rotate(v, cosR, sinR) == Vec2(Dot(a, v), Cross(a, v));
    Lagrange(a, v);
    assert SqrMagnitude(a) == 1.0;
  }

  /** Rotation commutes with negation. */
  lemma RotateNeg(v: Vec2, cosR: real, sinR: real)
    ensures Rotate(Neg(v), cosR, sinR) == Neg(Rotate(v, cosR, sinR))
  {
    assert Mul(cosR, -v.x) == -Mul(cosR, v.x);
    assert Mul(cosR, -v.y) == -Mul(cosR, v.y);
    assert Mul(sinR, -v.x) == -Mul(sinR, v.x);
    assert Mul(sinR, -v.y) == -Mul(sinR, v.y);
  }

  /** Under a proper rotation every corner stays as far from the origin as
      the unrotated corner is from the cached center. */
  lemma CornersKeepDistance(nb: NodeBound, cosR: real, sinR: real)
    requires Mul(cosR, cosR) + Mul(sinR, sinR) == 1.0
    ensures forall i :: 0 <= i < 4 ==>
      SqrMagnitude(AllCorners(nb, cosR, sinR)[i]) ==
      SqrMagnitude(Sub(ConvexRects.AllCorners(nb.bound)[i], nb.bound.center))
  {
    forall i | 0 <= i < 4
      ensures SqrMagnitude(AllCorners(nb, cosR, sinR)[i]) ==
              SqrMagnitude(Sub(ConvexRects.AllCorners(nb.bound)[i], nb.bound.center))
    {
      RotationKeepsLength(Sub(ConvexRects.AllCorners(nb.bound)[i], nb.bound.center), cosR, sinR);
    }
  }
}
