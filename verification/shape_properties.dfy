/** What IntersectWithShape means for any pair of shapes: None is sound
    (shapes sharing a point are never reported apart), and, for shapes
    without degenerate sides, it does not depend on the order. */
module ShapeProperties {
  import opened Geometry
  import opened ConvexRects
  import opened ConvexCircles
  import opened SatCollision
  import CollisionProperties
  import CircleProperties

  /** The region a shape covers: the box of a rectangle, the disc of a
      circle. */
  predicate ShapeContains(s: Shape, q: Vec2) {
    match s
    case RectShape(r) => ConvexRects.ContainPoint2D(r, q)
    case CircleShape(c) => InDisc(c, q)
    case UnknownShape => false
  }

  /** Any circle, or a rectangle whose sides have non-zero length. */
  predicate Proper(s: Shape) {
    match s
    case RectShape(r) => r.width != 0.0 && r.height != 0.0
    case CircleShape(c) => true
    case UnknownShape => false
  }

  /** Shapes that share a point are never reported apart. A rectangle here
      may have zero-length sides. */
  lemma IntersectNoneSound(self: Shape, other: Shape, unit: Vec2 -> Vec2, q: Vec2)
    requires !self.UnknownShape? && Normalizes(unit)
    requires self.CircleShape? ==> self.circle.radius >= 0.0
    requires other.CircleShape? ==> other.circle.radius >= 0.0
    requires ShapeContains(self, q) && ShapeContains(other, q)
    ensures IntersectWithShape(self, other, unit) != None
  {
    match other
    case RectShape(r) =>
      match self {
        case RectShape(s) =>
          CollisionProperties.RectRectNoneSound(s, r, q);
        case CircleShape(c) =>
          assert IsNormalization(CornerVector(c, r), unit(CornerVector(c, r)));
          CircleProperties.CircleRectNoneSound(c, r, unit, q);
      }
    case CircleShape(c) =>
      match self {
        case RectShape(s) =>
          assert IsNormalization(CornerVector(c, s), unit(CornerVector(c, s)));
          CircleProperties.CircleRectNoneSound(c, s, unit, q);
        case CircleShape(sc) =>
          assert IsNormalization(Sub(c.center, sc.center), unit(Sub(c.center, sc.center)));
          CircleProperties.CircleCircleNoneSound(sc, c, unit, q);
      }
  }

  /** Between proper shapes the None answer does not depend on which one
      receives the call. */
  lemma IntersectNoneSymmetric(a: Shape, b: Shape, unit: Vec2 -> Vec2)
    requires Proper(a) && Proper(b) && Normalizes(unit)
    ensures IntersectWithShape(a, b, unit) == None <==> IntersectWithShape(b, a, unit) == None
  {
    match a
    case RectShape(ra) =>
      match b {
        case RectShape(rb) =>
          CollisionProperties.RectRectNoneSymmetric(ra, rb);
        case CircleShape(cb) =>
      }
    case CircleShape(ca) =>
      match b {
        case RectShape(rb) =>
        case CircleShape(cb) =>
          assert IsNormalization(Sub(cb.center, ca.center), unit(Sub(cb.center, ca.center)));
          assert IsNormalization(Sub(ca.center, cb.center), unit(Sub(ca.center, cb.center)));
          CircleProperties.CircleCircleNoneSymmetric(ca, cb, unit);
      }
  }
}
