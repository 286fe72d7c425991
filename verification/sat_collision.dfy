/** The Separating-Axis collision kernel: rectangle against rectangle,
    circle against rectangle (and the rectangle's view of it), circle against
    circle, and the dispatcher IntersectWithShape. Every test answers Fit
    (the receiving shape lies inside the argument), Overlap, or None. */
module SatCollision {
  import opened Geometry
  import opened ConvexRects
  import opened ConvexCircles

  datatype CollisionResult = Fit | Overlap | None

  /** A shape as the dispatcher sees it, tagged by its shape id. */
  datatype Shape = RectShape(rect: Rect) | CircleShape(circle: Circle) | UnknownShape

  // ---------------------------------------------------------------------
  // Rectangle against rectangle

  /** Normal i of `self` separates the corners of the two rectangles. */
  predicate RectGap(self: Rect, other: Rect, i: nat)
    requires i < 4
  {
    var n := Normals(self)[i];
    Disjoint(Project(n, AllCorners(self)), Project(n, AllCorners(other)))
  }

  /** The loop over self's normals from index i on, stopping at the first gap. */
  function SeparatedFrom(self: Rect, other: Rect, i: nat): (b: bool)
    requires i <= 4
    ensures b <==> exists j :: i <= j < 4 && RectGap(self, other, j)
    decreases 4 - i
  {
    if i == 4 then false
    else if RectGap(self, other, i) then true
    else
      var rest := SeparatedFrom(self, other, i + 1);
      assert forall j :: i <= j < 4 && RectGap(self, other, j) ==> i + 1 <= j;
      rest
  }

  /** The loop over self's corners from index i on, stopping at the first one
      `other` does not contain. */
  function CornersInsideFrom(self: Rect, other: Rect, i: nat): (b: bool)
    requires i <= 4
    ensures b <==> forall j :: i <= j < 4 ==> ConvexRects.ContainPoint2D(other, AllCorners(self)[j])
    decreases 4 - i
  {
    if i == 4 then true
    else if !ConvexRects.ContainPoint2D(other, AllCorners(self)[i]) then false
    else CornersInsideFrom(self, other, i + 1)
  }

  /** ConvexRect.ContactWithRectangle: None when one of self's normals
      separates the rectangles, otherwise Fit when other contains all of
      self's corners and Overlap when it does not. */
  function RectContactWithRectangle(self: Rect, other: Rect): (res: CollisionResult)
    ensures res == None <==> exists j :: 0 <= j < 4 && RectGap(self, other, j)
    ensures res == Fit <==>
      (forall j :: 0 <= j < 4 ==> !RectGap(self, other, j)) &&
      (forall j :: 0 <= j < 4 ==> ConvexRects.ContainPoint2D(other, AllCorners(self)[j]))
  {
    if SeparatedFrom(self, other, 0) then None
    else if CornersInsideFrom(self, other, 0) then Fit
    else Overlap
  }

  // ---------------------------------------------------------------------
  // Circle against rectangle

  /** The closest-corner loop from index i on: `best` is the index kept so
      far, replaced only by a strictly closer corner. */
  function ClosestCornerFrom(center: Vec2, cs: seq<Vec2>, best: nat, i: nat): (k: nat)
    requires |cs| == 4 && best < i <= 4
    requires forall j :: 0 <= j < i ==> SqrMagnitude(Sub(center, cs[best])) <= SqrMagnitude(Sub(center, cs[j]))
    requires forall j :: 0 <= j < best ==> SqrMagnitude(Sub(center, cs[j])) > SqrMagnitude(Sub(center, cs[best]))
    ensures k < 4
    ensures forall j :: 0 <= j < 4 ==> SqrMagnitude(Sub(center, cs[k])) <= SqrMagnitude(Sub(center, cs[j]))
    ensures forall j :: 0 <= j < k ==> SqrMagnitude(Sub(center, cs[j])) > SqrMagnitude(Sub(center, cs[k]))
    decreases 4 - i
  {
    if i == 4 then best
    else if SqrMagnitude(Sub(center, cs[best])) > SqrMagnitude(Sub(center, cs[i])) then ClosestCornerFrom(center, cs, i, i + 1)
    else ClosestCornerFrom(center, cs, best, i + 1)
  }

  /** The index of the corner nearest to `center`, the first one on a tie. */
  function ClosestCorner(center: Vec2, cs: seq<Vec2>): (k: nat)
    requires |cs| == 4
    ensures k < 4
    ensures forall j :: 0 <= j < 4 ==> SqrMagnitude(Sub(center, cs[k])) <= SqrMagnitude(Sub(center, cs[j]))
    ensures forall j :: 0 <= j < k ==> SqrMagnitude(Sub(center, cs[j])) > SqrMagnitude(Sub(center, cs[k]))
  {
    ClosestCornerFrom(center, cs, 0, 1)
  }

  /** The rMin/rMax loop from index i on: the accumulator widened by each
      corner's projection. */
  function CornerRangeFrom(u: Vec2, cs: seq<Vec2>, i: nat, acc: Interval): (r: Interval)
    requires |cs| == 4 && i <= 4
    ensures r.lo <= acc.lo && acc.hi <= r.hi
    ensures forall j :: i <= j < 4 ==> r.lo <= Dot(u, cs[j]) <= r.hi
    ensures r.lo == acc.lo || exists j :: i <= j < 4 && r.lo == Dot(u, cs[j])
    ensures r.hi == acc.hi || exists j :: i <= j < 4 && r.hi == Dot(u, cs[j])
    decreases 4 - i
  {
    if i == 4 then acc
    else
      var d := Dot(u, cs[i]);
      CornerRangeFrom(u, cs, i + 1, Interval(Min(acc.lo, d), Max(acc.hi, d)))
  }

  /** The corners' range on u, with both accumulators starting at 0: the
      projection of the corners widened to include 0. */
  function CornerRange(u: Vec2, cs: seq<Vec2>): (r: Interval)
    requires |cs| == 4
    ensures r == Interval(Min(0.0, Project(u, cs).lo), Max(0.0, Project(u, cs).hi))
  {
    CornerRangeFrom(u, cs, 0, Interval(0.0, 0.0))
  }

  /** The vector from the rectangle's closest corner to the circle's center. */
  function CornerVector(self: Circle, other: Rect): Vec2 {
    var cs := AllCorners(other);
    Sub(self.center, cs[ClosestCorner(self.center, cs)])
  }

  /** The corner vector, normalised: the first projection axis. */
  function CornerAxis(self: Circle, other: Rect, unit: Vec2 -> Vec2): Vec2 {
    unit(CornerVector(self, other))
  }

  /** The circle lies beyond the corners' range on the corner axis. */
  predicate CornerAxisGap(self: Circle, other: Rect, unit: Vec2 -> Vec2) {
    var u := CornerAxis(self, other, unit);
    Disjoint(CornerRange(u, AllCorners(other)), Around(Dot(u, self.center), self.radius))
  }

  /** Normal i of the rectangle separates it from the circle. */
  predicate EdgeGap(self: Circle, other: Rect, i: nat)
    requires i < 4
  {
    var n := Normals(other)[i];
    Disjoint(Project(n, AllCorners(other)), Around(Dot(n, self.center), self.radius))
  }

  /** The inside test on normal i: only the lower end of the rectangle's
      projection is compared, and with both ends of the circle's. */
  predicate InsideOnEdge(self: Circle, other: Rect, i: nat)
    requires i < 4
  {
    var n := Normals(other)[i];
    var lo, circleP := Project(n, AllCorners(other)).lo, Dot(n, self.center);
    circleP - self.radius > lo && circleP + self.radius > lo
  }

  /** The edge loop's break: some normal from i on separates. */
  function EdgeSeparatedFrom(self: Circle, other: Rect, i: nat): (b: bool)
    requires i <= 4
    ensures b <==> exists j :: i <= j < 4 && EdgeGap(self, other, j)
    decreases 4 - i
  {
    if i == 4 then false
    else if EdgeGap(self, other, i) then true
    else
      var rest := EdgeSeparatedFrom(self, other, i + 1);
      assert forall j :: i <= j < 4 && EdgeGap(self, other, j) ==> i + 1 <= j;
      rest
  }

  /** The edge loop's `inside` accumulator from index i on. */
  function InsideFrom(self: Circle, other: Rect, i: nat): (b: bool)
    requires i <= 4
    ensures b <==> forall j :: i <= j < 4 ==> InsideOnEdge(self, other, j)
    decreases 4 - i
  {
    if i == 4 then true
    else InsideOnEdge(self, other, i) && InsideFrom(self, other, i + 1)
  }

  /** ConvexCircle.ContactWithRectangle: None when the corner axis or one of
      the rectangle's normals separates; otherwise Fit when the inside test
      holds on every normal, else Overlap. */
  function CircleContactWithRectangle(self: Circle, other: Rect, unit: Vec2 -> Vec2): (res: CollisionResult)
    ensures res == None <==> CornerAxisGap(self, other, unit) || exists j :: 0 <= j < 4 && EdgeGap(self, other, j)
    ensures res == Fit <==>
      !CornerAxisGap(self, other, unit) && (forall j :: 0 <= j < 4 ==> !EdgeGap(self, other, j)) &&
      (forall j :: 0 <= j < 4 ==> InsideOnEdge(self, other, j))
  {
    if CornerAxisGap(self, other, unit) then None
    else if EdgeSeparatedFrom(self, other, 0) then None
    else if InsideFrom(self, other, 0) then Fit
    else Overlap
  }

  // ---------------------------------------------------------------------
  // Rectangle against circle

  /** A corner lies within the circle's projection on the axis from the
      corner to the circle's center. */
  predicate CornerInCircle(corner: Vec2, circle: Circle, unit: Vec2 -> Vec2) {
    var u := unit(Sub(circle.center, corner));
    var cornerP, circleP := Dot(u, corner), Dot(u, circle.center);
    !(circleP - circle.radius > cornerP || circleP + circle.radius < cornerP)
  }

  /** The corner loop from index i on, returning at the first corner outside. */
  function CornersInCircleFrom(self: Rect, circle: Circle, unit: Vec2 -> Vec2, i: nat): (b: bool)
    requires i <= 4
    ensures b <==> forall j :: i <= j < 4 ==> CornerInCircle(AllCorners(self)[j], circle, unit)
    decreases 4 - i
  {
    if i == 4 then true
    else CornerInCircle(AllCorners(self)[i], circle, unit) && CornersInCircleFrom(self, circle, unit, i + 1)
  }

  /** ConvexRect.ContactWIthCircle: the circle's test against this
      rectangle, read from the rectangle's side. The circle inside the
      rectangle becomes Overlap; an overlap becomes Fit when every corner
      passes the corner test. */
  function RectContactWithCircle(self: Rect, other: Circle, unit: Vec2 -> Vec2): (res: CollisionResult)
    ensures res == None <==> CircleContactWithRectangle(other, self, unit) == None
    ensures res == Fit <==>
      CircleContactWithRectangle(other, self, unit) == Overlap &&
      forall j :: 0 <= j < 4 ==> CornerInCircle(AllCorners(self)[j], other, unit)
  {
    var result := CircleContactWithRectangle(other, self, unit);
    if result == Overlap then
      if CornersInCircleFrom(self, other, unit, 0) then Fit else Overlap
    else if result == Fit then Overlap
    else result
  }

  // ---------------------------------------------------------------------
  // Circle against circle

  /** The axis joining the two centers, normalised. */
  function CenterAxis(self: Circle, other: Circle, unit: Vec2 -> Vec2): Vec2 {
    unit(Sub(other.center, self.center))
  }

  /** ConvexCircle.ContactWIthCircle: both circles projected on the axis
      joining their centers. */
  function CircleContactWithCircle(self: Circle, other: Circle, unit: Vec2 -> Vec2): (res: CollisionResult)
    ensures var u := CenterAxis(self, other, unit);
      var a, b := Around(Dot(u, self.center), self.radius), Around(Dot(u, other.center), other.radius);
      (res == None <==> Disjoint(a, b)) &&
      (res == Fit <==> !Disjoint(a, b) && b.lo < a.lo && a.hi < b.hi)
    ensures res == Fit ==> self.radius < other.radius
  {
    var u := CenterAxis(self, other, unit);
    var a := Around(Dot(u, self.center), self.radius);
    var b := Around(Dot(u, other.center), other.radius);
    if a.lo > b.hi || b.lo > a.hi then None
    else if a.lo > b.lo && a.hi < b.hi then Fit
    else Overlap
  }

  // ---------------------------------------------------------------------
  // Dispatch

  /** ConvexShape.IntersectWithShape: chooses the pair test by the
      argument's shape id; an unknown shape gives None. The receiving shape
      is always a rectangle or a circle, the only concrete shapes. */
  function IntersectWithShape(self: Shape, other: Shape, unit: Vec2 -> Vec2): (res: CollisionResult)
    requires !self.UnknownShape?
    ensures other.UnknownShape? ==> res == None
    ensures self.RectShape? && other.RectShape? ==> res == RectContactWithRectangle(self.rect, other.rect)
    ensures self.CircleShape? && other.RectShape? ==> res == CircleContactWithRectangle(self.circle, other.rect, unit)
    ensures self.RectShape? && other.CircleShape? ==> res == RectContactWithCircle(self.rect, other.circle, unit)
    ensures self.CircleShape? && other.CircleShape? ==> res == CircleContactWithCircle(self.circle, other.circle, unit)
  {
    match other
    case RectShape(r) =>
      (match self
       case RectShape(s) => RectContactWithRectangle(s, r)
       case CircleShape(c) => CircleContactWithRectangle(c, r, unit))
    case CircleShape(c) =>
      (match self
       case RectShape(s) => RectContactWithCircle(s, c, unit)
       case CircleShape(sc) => CircleContactWithCircle(sc, c, unit))
    case UnknownShape => None
  }
}
