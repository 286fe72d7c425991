/** ConvexCircle: a center and a radius. Center and Radius are plain
    properties, so setting one is a datatype update that leaves the other
    alone. */
module ConvexCircles {
  import opened Geometry

  datatype Circle = Circle(center: Vec2, radius: real)

  /** The point test compares each coordinate with the circle's bounding
      square, not with the disc, and is inclusive on all four sides. */
  function ContainPoint2D(c: Circle, p: Vec2): (b: bool)
    ensures b <==> Abs(p.x - c.center.x) <= c.radius && Abs(p.y - c.center.y) <= c.radius
  {
    var xMin, xMax := c.center.x - c.radius, c.center.x + c.radius;
    var yMin, yMax := c.center.y - c.radius, c.center.y + c.radius;
    p.x >= xMin && p.x <= xMax && p.y >= yMin && p.y <= yMax
  }

  /** A point at distance at most r from the center. */
  predicate InDisc(c: Circle, p: Vec2) {
    SqrMagnitude(Sub(p, c.center)) <= Mul(c.radius, c.radius)
  }

  /** Every point of the disc passes the point test. */
  lemma DiscInsideSquare(c: Circle, p: Vec2)
    requires c.radius >= 0.0 && InDisc(c, p)
    ensures ContainPoint2D(c, p)
  {
    var d := Sub(p, c.center);
    SquareNonnegative(d.x);
    SquareNonnegative(d.y);
    AbsBoundedBySquare(d.x, c.radius);
    AbsBoundedBySquare(d.y, c.radius);
  }

  /** The corner of the bounding square passes the point test although it
      lies outside the disc, so the test is not the disc. */
  lemma SquareCornerOutsideDisc(c: Circle)
    requires c.radius > 0.0
    ensures ContainPoint2D(c, Add(c.center, Vec2(c.radius, c.radius)))
    ensures !InDisc(c, Add(c.center, Vec2(c.radius, c.radius)))
  {
    var p := Add(c.center, Vec2(c.radius, c.radius));
    assert Sub(p, c.center) == Vec2(c.radius, c.radius);
    SquareNonnegative(c.radius);
  }
}
