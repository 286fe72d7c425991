/** What the circle tests mean geometrically: the circle against a
    rectangle, the rectangle's view of it, and circle against circle. */
module CircleProperties {
  import opened Geometry
  import opened ConvexRects
  import opened ConvexCircles
  import opened SatCollision

  // ---------------------------------------------------------------------
  // Circle against rectangle

  /** The circle's bounding square lies strictly inside the rectangle's box. */
  predicate StrictlyInsideBox(c: Circle, r: Rect) {
    XMin(r) < c.center.x - c.radius && c.center.x + c.radius < XMax(r) &&
    YMin(r) < c.center.y - c.radius && c.center.y + c.radius < YMax(r)
  }

  /** A disc sharing a point with the box is never reported apart from it,
      provided the corner axis is the corner vector normalised. */
  lemma CircleRectNoneSound(self: Circle, other: Rect, unit: Vec2 -> Vec2, q: Vec2)
    requires self.radius >= 0.0 && InDisc(self, q) && ConvexRects.ContainPoint2D(other, q)
    requires IsNormalization(CornerVector(self, other), CornerAxis(self, other, unit))
    ensures CircleContactWithRectangle(self, other, unit) != None
  {
    CornerAxisSeesSharedPoint(self, other, unit, q);
    forall j | 0 <= j < 4
      ensures !EdgeGap(self, other, j)
    {
      NormalSeesSharedPoint(self, other, j, q);
    }
  }

  /** The corner axis does not separate a disc and a box sharing a point. */
  lemma CornerAxisSeesSharedPoint(self: Circle, other: Rect, unit: Vec2 -> Vec2, q: Vec2)
    requires self.radius >= 0.0 && InDisc(self, q) && ConvexRects.ContainPoint2D(other, q)
    requires IsNormalization(CornerVector(self, other), CornerAxis(self, other, unit))
    ensures !CornerAxisGap(self, other, unit)
  {
    var u := CornerAxis(self, other, unit);
    NormalizedProjectionIsLength(CornerVector(self, other), u);
    BoxPointProjects(other, q, u);
    ProjectionWithinRadius(u, q, self.center, self.radius);
    SharedValueNotDisjoint(CornerRange(u, AllCorners(other)), Around(Dot(u, self.center), self.radius), Dot(u, q));
  }

  /** No normal of the box separates a disc and a box sharing a point. */
  lemma NormalSeesSharedPoint(self: Circle, other: Rect, j: nat, q: Vec2)
    requires j < 4
    requires self.radius >= 0.0 && InDisc(self, q) && ConvexRects.ContainPoint2D(other, q)
    ensures !EdgeGap(self, other, j)
  {
    var n := Normals(other)[j];
    NormalsNormalize(other);
    NormalizedProjectionIsLength(RawNormals(other)[j], n);
    BoxPointProjects(other, q, n);
    ProjectionWithinRadius(n, q, self.center, self.radius);
    SharedValueNotDisjoint(Project(n, AllCorners(other)), Around(Dot(n, self.center), self.radius), Dot(n, q));
  }

  /** A circle whose center lies in the box is never reported apart from
      it, whatever the corner axis. */
  lemma CenterInBoxNotApart(self: Circle, other: Rect, unit: Vec2 -> Vec2)
    requires self.radius >= 0.0 && ConvexRects.ContainPoint2D(other, self.center)
    ensures CircleContactWithRectangle(self, other, unit) != None
  {
    var cs, c, r := AllCorners(other), self.center, self.radius;
    var u := CornerAxis(self, other, unit);
    BoxPointProjects(other, c, u);
    SharedValueNotDisjoint(CornerRange(u, cs), Around(Dot(u, c), r), Dot(u, c));
    forall j | 0 <= j < 4
      ensures !EdgeGap(self, other, j)
    {
      var n := Normals(other)[j];
      BoxPointProjects(other, c, n);
      SharedValueNotDisjoint(Project(n, cs), Around(Dot(n, c), r), Dot(n, c));
    }
  }

  /** On a zero normal the inside test fails. */
  lemma InsideOnZeroNormal(self: Circle, other: Rect, i: nat)
    requires i < 4 && Normals(other)[i] == Zero && self.radius >= 0.0
    ensures !InsideOnEdge(self, other, i)
  {
    ProjectOnZeroAxis(other);
  }

  /** On the normal (0, 1) the inside test compares the circle's bottom with
      the box's bottom. */
  lemma InsideOnUpNormal(self: Circle, other: Rect, i: nat)
    requires i < 4 && Normals(other)[i] == Vec2(0.0, 1.0) && self.radius >= 0.0
    ensures InsideOnEdge(self, other, i) <==> YMin(other) < self.center.y - self.radius
  {
    assert Project(Normals(other)[i], AllCorners(other)) == Project(Vec2(0.0, 1.0), AllCorners(other));
    ProjectOnYAxis(other);
  }

  /** On the normal (0, -1) it compares the circle's top with the box's top. */
  lemma InsideOnDownNormal(self: Circle, other: Rect, i: nat)
    requires i < 4 && Normals(other)[i] == Vec2(0.0, -1.0) && self.radius >= 0.0
    ensures InsideOnEdge(self, other, i) <==> self.center.y + self.radius < YMax(other)
  {
    assert Project(Normals(other)[i], AllCorners(other)) == Project(Vec2(0.0, -1.0), AllCorners(other));
    ProjectOnYAxis(other);
  }

  /** On the normal (1, 0) it compares the circle's left with the box's left. */
  lemma InsideOnRightNormal(self: Circle, other: Rect, i: nat)
    requires i < 4 && Normals(other)[i] == Vec2(1.0, 0.0) && self.radius >= 0.0
    ensures InsideOnEdge(self, other, i) <==> XMin(other) < self.center.x - self.radius
  {
    assert Project(Normals(other)[i], AllCorners(other)) == Project(Vec2(1.0, 0.0), AllCorners(other));
    ProjectOnXAxis(other);
  }

  /** On the normal (-1, 0) it compares the circle's right with the box's right. */
  lemma InsideOnLeftNormal(self: Circle, other: Rect, i: nat)
    requires i < 4 && Normals(other)[i] == Vec2(-1.0, 0.0) && self.radius >= 0.0
    ensures InsideOnEdge(self, other, i) <==> self.center.x + self.radius < XMax(other)
  {
    assert Project(Normals(other)[i], AllCorners(other)) == Project(Vec2(-1.0, 0.0), AllCorners(other));
    ProjectOnXAxis(other);
  }

  /** Normals 0 and 2 accept the circle exactly when the box has width and
      the circle lies strictly between its top and bottom. */
  lemma InsideOnVerticalNormals(self: Circle, other: Rect)
    requires self.radius >= 0.0
    ensures InsideOnEdge(self, other, 0) && InsideOnEdge(self, other, 2) <==>
      other.width != 0.0 && YMin(other) < self.center.y - self.radius && self.center.y + self.radius < YMax(other)
  {
    NormalsExplicit(other);
    if Normals(other)[0] == Zero {
      InsideOnZeroNormal(self, other, 0);
    } else if Normals(other)[0] == Vec2(0.0, 1.0) {
      InsideOnUpNormal(self, other, 0);
      InsideOnDownNormal(self, other, 2);
    } else {
      InsideOnDownNormal(self, other, 0);
      InsideOnUpNormal(self, other, 2);
    }
  }

  /** Normals 1 and 3 accept the circle exactly when the box has height and
      the circle lies strictly between its left and right sides. */
  lemma InsideOnHorizontalNormals(self: Circle, other: Rect)
    requires self.radius >= 0.0
    ensures InsideOnEdge(self, other, 1) && InsideOnEdge(self, other, 3) <==>
      other.height != 0.0 && XMin(other) < self.center.x - self.radius && self.center.x + self.radius < XMax(other)
  {
    NormalsExplicit(other);
    if Normals(other)[1] == Zero {
      InsideOnZeroNormal(self, other, 1);
    } else if Normals(other)[1] == Vec2(1.0, 0.0) {
      InsideOnRightNormal(self, other, 1);
      InsideOnLeftNormal(self, other, 3);
    } else {
      InsideOnLeftNormal(self, other, 1);
      InsideOnRightNormal(self, other, 3);
    }
  }

  /** A box with room for a circle strictly inside has width and height. */
  lemma StrictlyInsideHasSides(c: Circle, r: Rect)
    requires c.radius >= 0.0 && StrictlyInsideBox(c, r)
    ensures r.width != 0.0 && r.height != 0.0
    ensures ConvexRects.ContainPoint2D(r, c.center)
  {
  }

  /** The circle fits the rectangle exactly when its bounding square lies
      strictly inside the box. */
  lemma CircleRectFitIffInside(self: Circle, other: Rect, unit: Vec2 -> Vec2)
    requires self.radius >= 0.0
    ensures CircleContactWithRectangle(self, other, unit) == Fit <==> StrictlyInsideBox(self, other)
  {
    if CircleContactWithRectangle(self, other, unit) == Fit {
      FitIsInside(self, other, unit);
    }
    if StrictlyInsideBox(self, other) {
      InsideIsFit(self, other, unit);
    }
  }

  lemma FitIsInside(self: Circle, other: Rect, unit: Vec2 -> Vec2)
    requires self.radius >= 0.0 && CircleContactWithRectangle(self, other, unit) == Fit
    ensures StrictlyInsideBox(self, other)
  {
    InsideOnVerticalNormals(self, other);
    InsideOnHorizontalNormals(self, other);
    assert InsideOnEdge(self, other, 0) && InsideOnEdge(self, other, 1);
    assert InsideOnEdge(self, other, 2) && InsideOnEdge(self, other, 3);
  }

  lemma InsideIsFit(self: Circle, other: Rect, unit: Vec2 -> Vec2)
    requires self.radius >= 0.0 && StrictlyInsideBox(self, other)
    ensures CircleContactWithRectangle(self, other, unit) == Fit
  {
    InsideOnVerticalNormals(self, other);
    InsideOnHorizontalNormals(self, other);
    StrictlyInsideHasSides(self, other);
    CenterInBoxNotApart(self, other, unit);
    forall j | 0 <= j < 4
      ensures InsideOnEdge(self, other, j)
    {
    }
  }

  /** A circle just beyond the box's bottom-left corner. The box has
      positive width and height, and the corner vector d points down and to
      the left. The circle reaches over both lines through that corner, yet
      lies farther than its radius from it. */
  predicate BeyondBottomLeft(c: Circle, r: Rect) {
    var d := Sub(c.center, BLCorner(r));
    r.width > 0.0 && r.height > 0.0 && d.x < 0.0 && d.y < 0.0 &&
    c.radius >= -d.x && c.radius >= -d.y && Mul(c.radius, c.radius) < SqrMagnitude(d)
  }

  /** The converse of CircleRectNoneSound fails. The corner-axis range starts
      at 0, so it reaches from the corners back to the origin and can cover
      a real gap on the side that faces the origin. Take any circle just
      beyond the bottom-left corner whose center has non-negative
      coordinates. The corner axis is the normalisation of the corner
      vector, the shapes share no point, and the corners' own projection on
      that axis misses the circle's. Still the test answers Overlap. */
  lemma CornerRangeHidesGap(c: Circle, r: Rect, unit: Vec2 -> Vec2)
    requires BeyondBottomLeft(c, r) && c.center.x >= 0.0 && c.center.y >= 0.0
    requires IsNormalization(Sub(c.center, BLCorner(r)), unit(Sub(c.center, BLCorner(r))))
    ensures IsNormalization(CornerVector(c, r), CornerAxis(c, r, unit))
    ensures forall q :: ConvexRects.ContainPoint2D(r, q) ==> !InDisc(c, q)
    ensures Disjoint(Project(CornerAxis(c, r, unit), AllCorners(r)), Around(Dot(CornerAxis(c, r, unit), c.center), c.radius))
    ensures CircleContactWithRectangle(c, r, unit) == Overlap
  {
    ClosestIsBottomLeft(c, r);
    BeyondCornerApart(c, r);
    CornerAxisMissesCorners(c, r, unit);
    BeyondCornerVerticalEdges(c, r);
    BeyondCornerHorizontalEdges(c, r);
    forall j | 0 <= j < 4
      ensures !EdgeGap(c, r, j)
    {
      assert j == 0 || j == 1 || j == 2 || j == 3;
    }
    OverlapWhenUnseparated(c, r, unit, 0);
  }

  /** One instance: the box with top-left corner (10, 10), width 2 and
      height 3, and the circle of radius 0.9 centered at (9.4, 6.2), at
      distance 1 beyond the bottom-left corner (10, 7). */
  lemma CornerRangeHidesGapExample(unit: Vec2 -> Vec2)
    requires unit(Vec2(-0.6, -0.8)) == Vec2(-0.6, -0.8)
    ensures var c, r := Circle(Vec2(9.4, 6.2), 0.9), Rect(10.0, 10.0, 2.0, 3.0, Vec2(11.0, 8.5));
      CircleContactWithRectangle(c, r, unit) == Overlap &&
      forall q :: ConvexRects.ContainPoint2D(r, q) ==> !InDisc(c, q)
  {
    var c, r := Circle(Vec2(9.4, 6.2), 0.9), Rect(10.0, 10.0, 2.0, 3.0, Vec2(11.0, 8.5));
    var d := Sub(c.center, BLCorner(r));
    assert d == Vec2(-0.6, -0.8);
    assert SqrMagnitude(d) == 1.0 && Cross(d, d) == 0.0;
    CornerRangeHidesGap(c, r, unit);
  }

  /** Beyond the bottom-left corner, that corner is the closest one. */
  lemma ClosestIsBottomLeft(c: Circle, r: Rect)
    requires BeyondBottomLeft(c, r)
    ensures CornerVector(c, r) == Sub(c.center, BLCorner(r))
  {
    var cs, d := AllCorners(r), Sub(c.center, BLCorner(r));
    FartherAlong(d.x, r.width);
    FartherAlong(d.y, r.height);
    assert Sub(c.center, cs[0]) == Vec2(d.x, d.y - r.height);
    assert Sub(c.center, cs[1]) == Vec2(d.x - r.width, d.y - r.height);
    assert Sub(c.center, cs[2]) == Vec2(d.x - r.width, d.y);
    var k := ClosestCorner(c.center, cs);
    assert SqrMagnitude(Sub(c.center, cs[k])) <= SqrMagnitude(Sub(c.center, cs[3]));
  }

  /** Moving farther from 0 on the negative side makes the square larger. */
  lemma FartherAlong(a: real, k: real)
    requires a < 0.0 && k > 0.0
    ensures Mul(a - k, a - k) > Mul(a, a)
  {
    SquareMonotone(-a, k - a);
    assert Mul(-a, -a) == Mul(a, a);
    assert Mul(k - a, k - a) == Mul(a - k, a - k);
  }

  /** Every point of the box lies farther than the radius from a circle
      beyond its bottom-left corner. */
  lemma BeyondCornerApart(c: Circle, r: Rect)
    requires BeyondBottomLeft(c, r)
    ensures forall q :: ConvexRects.ContainPoint2D(r, q) ==> !InDisc(c, q)
  {
    var d := Sub(c.center, BLCorner(r));
    forall q | ConvexRects.ContainPoint2D(r, q)
      ensures !InDisc(c, q)
    {
      var e := Sub(q, c.center);
      assert e.x >= -d.x && e.y >= -d.y;
      FartherThanCorner(d, e);
    }
  }

  /** A vector at least as far right and up as -d is at least as long as d. */
  lemma FartherThanCorner(d: Vec2, e: Vec2)
    requires d.x < 0.0 && d.y < 0.0 && e.x >= -d.x && e.y >= -d.y
    ensures SqrMagnitude(e) >= SqrMagnitude(d)
  {
    SquareAtLeast(-d.x, e.x);
    SquareAtLeast(-d.y, e.y);
    assert Mul(-d.x, -d.x) == Mul(d.x, d.x);
    assert Mul(-d.y, -d.y) == Mul(d.y, d.y);
  }

  lemma SquareAtLeast(a: real, b: real)
    requires 0.0 <= a <= b
    ensures Mul(a, a) <= Mul(b, b)
  {
    MulLeft(a, a, b);
    MulLeft(b, a, b);
    MulComm(a, b);
  }

  /** The normalisation of a vector pointing down and to the left points
      down and to the left. */
  lemma NormalizationKeepsQuadrant(p: Vec2, u: Vec2)
    requires p.x < 0.0 && p.y < 0.0 && IsNormalization(p, u)
    ensures u.x < 0.0 && u.y < 0.0
  {
    var s, t := SqrMagnitude(p), Dot(u, p);
    SqrMagnitudePositive(p);
    NormalizedComponents(p, u);
    MulLeftStrict(t, p.x, 0.0);
    MulLeftStrict(t, p.y, 0.0);
    if u.x >= 0.0 {
      MulLeft(s, 0.0, u.x);
    }
    if u.y >= 0.0 {
      MulLeft(s, 0.0, u.y);
    }
  }

  /** On an axis pointing down and to the left, no point of a box with
      positive sides projects beyond its bottom-left corner. */
  lemma BottomLeftProjectsHighest(r: Rect, u: Vec2, q: Vec2)
    requires r.width > 0.0 && r.height > 0.0 && u.x <= 0.0 && u.y <= 0.0
    requires ConvexRects.ContainPoint2D(r, q)
    ensures Dot(u, q) <= Dot(u, BLCorner(r))
  {
    MulLeft(-u.x, r.x, q.x);
    MulLeft(-u.y, r.y - r.height, q.y);
    assert Mul(-u.x, r.x) == -Mul(u.x, r.x) && Mul(-u.x, q.x) == -Mul(u.x, q.x);
    assert Mul(-u.y, r.y - r.height) == -Mul(u.y, r.y - r.height) && Mul(-u.y, q.y) == -Mul(u.y, q.y);
  }

  /** On the corner axis the corners' projection misses the circle's, while
      the range widened to 0 meets it. */
  lemma CornerAxisMissesCorners(c: Circle, r: Rect, unit: Vec2 -> Vec2)
    requires BeyondBottomLeft(c, r) && c.center.x >= 0.0 && c.center.y >= 0.0
    requires IsNormalization(Sub(c.center, BLCorner(r)), unit(Sub(c.center, BLCorner(r))))
    ensures IsNormalization(CornerVector(c, r), CornerAxis(c, r, unit))
    ensures Disjoint(Project(CornerAxis(c, r, unit), AllCorners(r)), Around(Dot(CornerAxis(c, r, unit), c.center), c.radius))
    ensures !CornerAxisGap(c, r, unit)
  {
    ClosestIsBottomLeft(c, r);
    var cs, d := AllCorners(r), Sub(c.center, BLCorner(r));
    var u := unit(d);
    assert CornerAxis(c, r, unit) == u;
    NormalizationKeepsQuadrant(d, u);
    var t := Dot(u, d);
    assert c.radius < t by {
      NormalizedProjectionIsLength(d, u);
      SquareLessIff(c.radius, t);
    }
    DotSub(u, c.center, BLCorner(r));
    var p := Project(u, cs);
    var hi :| 0 <= hi < 4 && Dot(u, cs[hi]) == p.hi;
    BottomLeftProjectsHighest(r, u, cs[hi]);
    OppositeQuadrants(u, c.center);
    ZeroReachesCircle(p, Dot(u, c.center), c.radius, t);
  }

  /** A vector pointing down and to the left has a non-positive dot product
      with one whose coordinates are non-negative. */
  lemma OppositeQuadrants(u: Vec2, p: Vec2)
    requires u.x <= 0.0 && u.y <= 0.0 && p.x >= 0.0 && p.y >= 0.0
    ensures Dot(u, p) <= 0.0
  {
    MulLeft(-u.x, 0.0, p.x);
    MulLeft(-u.y, 0.0, p.y);
  }

  /** A circle projected at m <= 0 that lies more than its radius beyond the
      interval p on the axis is apart from p, but not from p widened to 0. */
  lemma ZeroReachesCircle(p: Interval, m: real, radius: real, t: real)
    requires p.lo <= p.hi && p.hi <= m - t && 0.0 <= radius < t && m <= 0.0
    ensures Disjoint(p, Around(m, radius))
    ensures !Disjoint(Interval(Min(0.0, p.lo), Max(0.0, p.hi)), Around(m, radius))
  {
  }

  /** With no separating axis and one normal failing the inside test, the
      circle overlaps the box. */
  lemma OverlapWhenUnseparated(c: Circle, r: Rect, unit: Vec2 -> Vec2, j: nat)
    requires j < 4 && !CornerAxisGap(c, r, unit) && !InsideOnEdge(c, r, j)
    requires forall i :: 0 <= i < 4 ==> !EdgeGap(c, r, i)
    ensures CircleContactWithRectangle(c, r, unit) == Overlap
  {
  }

  /** The vertical normals do not separate a circle beyond the bottom-left
      corner, and it does not clear the box's bottom edge. */
  lemma BeyondCornerVerticalEdges(c: Circle, r: Rect)
    requires BeyondBottomLeft(c, r)
    ensures !EdgeGap(c, r, 0) && !EdgeGap(c, r, 2) && !InsideOnEdge(c, r, 0)
  {
    NormalsExplicit(r);
    ProjectOnYAxis(r);
    EdgeGapOnAxis(c, r, 0, Vec2(0.0, 1.0));
    EdgeGapOnAxis(c, r, 2, Vec2(0.0, -1.0));
    InsideOnUpNormal(c, r, 0);
  }

  /** The horizontal normals do not separate it either. */
  lemma BeyondCornerHorizontalEdges(c: Circle, r: Rect)
    requires BeyondBottomLeft(c, r)
    ensures !EdgeGap(c, r, 1) && !EdgeGap(c, r, 3)
  {
    NormalsExplicit(r);
    ProjectOnXAxis(r);
    EdgeGapOnAxis(c, r, 1, Vec2(1.0, 0.0));
    EdgeGapOnAxis(c, r, 3, Vec2(-1.0, 0.0));
  }

  /** EdgeGap on a normal known to be n. */
  lemma EdgeGapOnAxis(c: Circle, r: Rect, j: nat, n: Vec2)
    requires j < 4 && Normals(r)[j] == n
    ensures EdgeGap(c, r, j) <==> Disjoint(Project(n, AllCorners(r)), Around(Dot(n, c.center), c.radius))
  {
  }

  // ---------------------------------------------------------------------
  // Rectangle against circle

  /** With the corner axis normalised, the corner test is the disc: the
      corner lies within radius of the center. */
  lemma CornerInCircleIffInDisc(corner: Vec2, circle: Circle, unit: Vec2 -> Vec2)
    requires circle.radius >= 0.0
    requires IsNormalization(Sub(circle.center, corner), unit(Sub(circle.center, corner)))
    ensures CornerInCircle(corner, circle, unit) <==> InDisc(circle, corner)
  {
    var p := Sub(circle.center, corner);
    var d, r := Dot(unit(p), p), circle.radius;
    assert d >= 0.0 && Mul(d, d) == SqrMagnitude(p) by {
      NormalizedProjectionIsLength(p, unit(p));
    }
    assert CornerInCircle(corner, circle, unit) <==> d <= r by {
      CornerInCircleIffNear(corner, circle, unit);
    }
    assert d <= r <==> Mul(d, d) <= Mul(r, r) by {
      SquareLessIff(r, d);
    }
    assert SqrMagnitude(p) == SqrMagnitude(Sub(corner, circle.center)) by {
      SqrMagnitudeOfNegation(p);
      assert Neg(p) == Sub(corner, circle.center);
    }
  }

  /** The corner test compares the corner's distance along the axis with
      the radius. */
  lemma CornerInCircleIffNear(corner: Vec2, circle: Circle, unit: Vec2 -> Vec2)
    requires circle.radius >= 0.0
    requires Dot(unit(Sub(circle.center, corner)), Sub(circle.center, corner)) >= 0.0
    ensures CornerInCircle(corner, circle, unit) <==>
      Dot(unit(Sub(circle.center, corner)), Sub(circle.center, corner)) <= circle.radius
  {
    DotSub(unit(Sub(circle.center, corner)), circle.center, corner);
  }

  /** A circle strictly inside the box leaves every corner outside the disc. */
  lemma StrictlyInsideMissesCorner(c: Circle, r: Rect)
    requires c.radius >= 0.0 && StrictlyInsideBox(c, r)
    ensures !InDisc(c, AllCorners(r)[0])
  {
    var d := Sub(AllCorners(r)[0], c.center);
    assert Abs(d.x) > c.radius;
    SquareMonotone(c.radius, Abs(d.x));
    assert Mul(Abs(d.x), Abs(d.x)) == Mul(d.x, d.x);
    SquareNonnegative(d.y);
  }

  /** The rectangle fits the circle exactly when all four of its corners lie
      in the disc. */
  lemma RectCircleFitIffCornersInDisc(self: Rect, other: Circle, unit: Vec2 -> Vec2)
    requires other.radius >= 0.0 && Normalizes(unit)
    ensures RectContactWithCircle(self, other, unit) == Fit <==>
      forall j :: 0 <= j < 4 ==> InDisc(other, AllCorners(self)[j])
  {
    var cs := AllCorners(self);
    forall j | 0 <= j < 4
      ensures CornerInCircle(cs[j], other, unit) <==> InDisc(other, cs[j])
    {
      CornerInCircleIffInDisc(cs[j], other, unit);
    }
    if forall j :: 0 <= j < 4 ==> InDisc(other, cs[j]) {
      assert InDisc(other, cs[0]) && ConvexRects.ContainPoint2D(self, cs[0]);
      CircleRectNoneSound(other, self, unit, cs[0]);
      CircleRectFitIffInside(other, self, unit);
      if StrictlyInsideBox(other, self) {
        StrictlyInsideMissesCorner(other, self);
      }
    }
  }

  // ---------------------------------------------------------------------
  // Circle against circle

  /** On the normalised center axis the centers lie |p| apart, p being the
      vector between them. */
  lemma CenterAxisDistance(self: Circle, other: Circle, unit: Vec2 -> Vec2)
    requires IsNormalization(Sub(other.center, self.center), unit(Sub(other.center, self.center)))
    ensures var u := CenterAxis(self, other, unit);
      var d := Dot(u, other.center) - Dot(u, self.center);
      d >= 0.0 && Mul(d, d) == SqrMagnitude(Sub(other.center, self.center))
  {
    var p := Sub(other.center, self.center);
    DotSub(unit(p), other.center, self.center);
    NormalizedProjectionIsLength(p, unit(p));
  }

  /** Two circles are reported apart exactly when their centers are further
      apart than the sum of the radii. */
  lemma CircleCircleNoneIffApart(self: Circle, other: Circle, unit: Vec2 -> Vec2)
    requires self.radius >= 0.0 && other.radius >= 0.0
    requires IsNormalization(Sub(other.center, self.center), unit(Sub(other.center, self.center)))
    ensures CircleContactWithCircle(self, other, unit) == None <==>
      SqrMagnitude(Sub(other.center, self.center)) > Mul(self.radius + other.radius, self.radius + other.radius)
  {
    CenterAxisDistance(self, other, unit);
    var u := CenterAxis(self, other, unit);
    SquareLessIff(self.radius + other.radius, Dot(u, other.center) - Dot(u, self.center));
  }

  /** A circle fits another exactly when it is the smaller one and its
      center is closer to the other's than the difference of the radii:
      the disc lies strictly inside the other disc. */
  lemma CircleCircleFitIffInside(self: Circle, other: Circle, unit: Vec2 -> Vec2)
    requires self.radius >= 0.0 && other.radius >= 0.0
    requires IsNormalization(Sub(other.center, self.center), unit(Sub(other.center, self.center)))
    ensures CircleContactWithCircle(self, other, unit) == Fit <==>
      self.radius < other.radius &&
      SqrMagnitude(Sub(other.center, self.center)) < Mul(other.radius - self.radius, other.radius - self.radius)
  {
    CenterAxisDistance(self, other, unit);
    var u := CenterAxis(self, other, unit);
    if self.radius < other.radius {
      SquareLessIff(Dot(u, other.center) - Dot(u, self.center), other.radius - self.radius);
    }
  }

  /** Between circles the None answer does not depend on which one receives
      the call, whatever the signs of the radii. */
  lemma CircleCircleNoneSymmetric(a: Circle, b: Circle, unit: Vec2 -> Vec2)
    requires IsNormalization(Sub(b.center, a.center), unit(Sub(b.center, a.center)))
    requires IsNormalization(Sub(a.center, b.center), unit(Sub(a.center, b.center)))
    ensures CircleContactWithCircle(a, b, unit) == None <==> CircleContactWithCircle(b, a, unit) == None
  {
    var p := Sub(b.center, a.center);
    assert Neg(p) == Sub(a.center, b.center);
    NormalizationOfNegation(p, unit(p));
    NormalizationUnique(Neg(p), unit(Neg(p)), Neg(unit(p)));
    NoneOnFlippedAxis(a, b, unit);
  }

  /** When the reverse center axis is the negated axis, both orders project
      the same two intervals, mirrored, so they see the same gap. */
  lemma NoneOnFlippedAxis(a: Circle, b: Circle, unit: Vec2 -> Vec2)
    requires CenterAxis(b, a, unit) == Neg(CenterAxis(a, b, unit))
    ensures CircleContactWithCircle(a, b, unit) == None <==> CircleContactWithCircle(b, a, unit) == None
  {
    var u := CenterAxis(a, b, unit);
    assert Dot(Neg(u), a.center) == -Dot(u, a.center);
    assert Dot(Neg(u), b.center) == -Dot(u, b.center);
  }

  /** With a negative radius a circle's projection is an empty interval,
      and None is no longer sound. Two concentric circles whose radii sum
      to less than 0, such as radius -2 against radius 0.5, both contain
      their common center, yet the test reports them apart. */
  lemma NegativeRadiusNoneUnsound(self: Circle, other: Circle, unit: Vec2 -> Vec2)
    requires self.center == other.center && self.radius + other.radius < 0.0
    requires IsNormalization(Zero, unit(Zero))
    ensures InDisc(self, self.center) && InDisc(other, self.center)
    ensures CircleContactWithCircle(self, other, unit) == None
  {
    CenterInOwnDisc(self);
    CenterInOwnDisc(other);
    ConcentricOnZeroAxis(self, other, unit);
  }

  /** Every circle contains its own center, whatever the sign of its radius. */
  lemma CenterInOwnDisc(c: Circle)
    ensures InDisc(c, c.center)
  {
    SquareNonnegative(c.radius);
    assert Sub(c.center, c.center) == Zero;
  }

  /** Concentric circles are projected on the zero axis, where each one
      projects to the interval from minus its radius to its radius. */
  lemma ConcentricOnZeroAxis(self: Circle, other: Circle, unit: Vec2 -> Vec2)
    requires self.center == other.center && IsNormalization(Zero, unit(Zero))
    ensures CircleContactWithCircle(self, other, unit) == None <==> self.radius + other.radius < 0.0
  {
    assert Sub(other.center, self.center) == Zero;
    assert Dot(Zero, self.center) == 0.0;
  }

  /** Discs sharing a point are never reported apart. */
  lemma CircleCircleNoneSound(self: Circle, other: Circle, unit: Vec2 -> Vec2, q: Vec2)
    requires self.radius >= 0.0 && other.radius >= 0.0
    requires IsNormalization(Sub(other.center, self.center), unit(Sub(other.center, self.center)))
    requires InDisc(self, q) && InDisc(other, q)
    ensures CircleContactWithCircle(self, other, unit) != None
  {
    CircleCircleNoneIffApart(self, other, unit);
    TriangleSquared(Sub(q, self.center), Sub(q, other.center), self.radius, other.radius);
    assert Sub(Sub(q, self.center), Sub(q, other.center)) == Sub(other.center, self.center);
  }

  /** Fit is one-sided: when self fits other, other overlaps self. */
  lemma NestedCirclesAnswerAsymmetrically(self: Circle, other: Circle, unit: Vec2 -> Vec2)
    requires self.radius >= 0.0 && other.radius >= 0.0
    requires IsNormalization(Sub(other.center, self.center), unit(Sub(other.center, self.center)))
    requires IsNormalization(Sub(self.center, other.center), unit(Sub(self.center, other.center)))
    requires CircleContactWithCircle(self, other, unit) == Fit
    ensures CircleContactWithCircle(other, self, unit) == Overlap
  {
    CircleCircleFitIffInside(self, other, unit);
    CircleCircleFitIffInside(other, self, unit);
    CircleCircleNoneIffApart(other, self, unit);
    SqrMagnitudeOfNegation(Sub(other.center, self.center));
    assert Neg(Sub(other.center, self.center)) == Sub(self.center, other.center);
    SquareLessIff(other.radius - self.radius, self.radius + other.radius);
  }
}
