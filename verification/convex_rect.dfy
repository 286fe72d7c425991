/** ConvexRect: an axis-aligned rectangle given by its top-left corner (x, y),
    a width extending to the right and a height extending downwards, with a
    cached center that some operations refresh and others leave alone.
    NodeBound reuses the same record for its unrotated box. */
module ConvexRects {
  import opened Geometry

  datatype Rect = Rect(x: real, y: real, width: real, height: real, center: Vec2)

  /** The center CalculateCenter stores: the middle of the box that x, y,
      width and height describe. */
  function CalculatedCenter(r: Rect): (c: Vec2)
    ensures c.x - r.x == (r.x + r.width) - c.x
    ensures r.y - c.y == c.y - (r.y - r.height)
  {
    Vec2(r.x + r.width / 2.0, r.y - r.height / 2.0)
  }

  /** The cached center agrees with the box. */
  predicate CenterConsistent(r: Rect) {
    r.center == CalculatedCenter(r)
  }

  /** t lies between a and b, whichever of the two is smaller. */
  predicate Between(t: real, a: real, b: real) {
    (a <= t <= b) || (b <= t <= a)
  }

  // ---------------------------------------------------------------------
  // Bounds and the point test

  function XMin(r: Rect): (m: real)
    ensures m <= XMax(r)
    ensures XMax(r) - m == Abs(r.width)
  {
    Min(r.x, r.x + r.width)
  }

  function XMax(r: Rect): real {
    Max(r.x, r.x + r.width)
  }

  function YMin(r: Rect): (m: real)
    ensures m <= YMax(r)
    ensures YMax(r) - m == Abs(r.height)
  {
    Min(r.y, r.y - r.height)
  }

  function YMax(r: Rect): real {
    Max(r.y, r.y - r.height)
  }

  function MinCorner(r: Rect): (c: Vec2)
    ensures ContainPoint2D(r, c)
    ensures c.x <= MaxCorner(r).x && c.y <= MaxCorner(r).y
  {
    Vec2(XMin(r), YMin(r))
  }

  function MaxCorner(r: Rect): (c: Vec2)
    ensures ContainPoint2D(r, c)
  {
    Vec2(XMax(r), YMax(r))
  }

  /** Inclusive on all four sides. Whatever the sign of the stored width and
      height, a point is inside when each coordinate lies between the two
      edges the record describes. */
  function ContainPoint2D(r: Rect, p: Vec2): (b: bool)
    ensures b <==> Between(p.x, r.x, r.x + r.width) && Between(p.y, r.y - r.height, r.y)
  {
    p.x >= XMin(r) && p.x <= XMax(r) && p.y >= YMin(r) && p.y <= YMax(r)
  }

  // ---------------------------------------------------------------------
  // Corners and edge normals

  function TLCorner(r: Rect): Vec2 { Vec2(r.x, r.y) }

  function TRCorner(r: Rect): Vec2 { Vec2(r.x + r.width, r.y) }

  function BRCorner(r: Rect): Vec2 { Vec2(r.x + r.width, r.y - r.height) }

  function BLCorner(r: Rect): Vec2 { Vec2(r.x, r.y - r.height) }

  /** The four corners, top-left first and then clockwise. */
  function AllCorners(r: Rect): (cs: seq<Vec2>)
    ensures |cs| == 4
    ensures forall i :: 0 <= i < 4 ==> ContainPoint2D(r, cs[i])
  {
    [TLCorner(r), TRCorner(r), BRCorner(r), BLCorner(r)]
  }

  /** The edge from corner i to the next corner, wrapping after the last. */
  function Edge(cs: seq<Vec2>, i: nat): Vec2
    requires |cs| == 4 && i < 4
  {
    Sub(cs[if i == 3 then 0 else i + 1], cs[i])
  }

  /** The left-hand perpendicular (-v.y, v.x); the right-hand one is its
      negation. */
  function Perp(v: Vec2): Vec2 {
    Vec2(-v.y, v.x)
  }

  /** ConvexUtility.GetVectorNormal: the normalised left-hand or right-hand
      perpendicular of a vector, with `unit` standing for Vector2.normalized. */
  function VectorNormal(v: Vec2, leftHand: bool, unit: Vec2 -> Vec2): (n: Vec2)
    ensures n == unit(if leftHand then Vec2(-v.y, v.x) else Vec2(v.y, -v.x))
    ensures v != Zero && IsNormalization(if leftHand then Perp(v) else Neg(Perp(v)), n) ==>
      SqrMagnitude(n) == 1.0 && Dot(n, v) == 0.0
  {
    if leftHand then
      var n := unit(Perp(v));
      if v != Zero && IsNormalization(Perp(v), n) then UnitPerpendicular(v, n); n else n
    else
      var n := unit(Neg(Perp(v)));
      if v != Zero && IsNormalization(Neg(Perp(v)), n) then RightUnitPerpendicular(v, n); n else n
  }

  /** The two hands of GetVectorNormal are opposite, when `unit` behaves as
      Vector2.normalized on both perpendiculars. */
  lemma VectorNormalIsUnitPerpendicular(v: Vec2, unit: Vec2 -> Vec2)
    requires IsNormalization(Perp(v), unit(Perp(v)))
    requires IsNormalization(Neg(Perp(v)), unit(Neg(Perp(v))))
    requires v != Zero
    ensures SqrMagnitude(VectorNormal(v, true, unit)) == 1.0
    ensures Dot(VectorNormal(v, true, unit), v) == 0.0
    ensures VectorNormal(v, false, unit) == Neg(VectorNormal(v, true, unit))
  {
    var p, u := Perp(v), unit(Perp(v));
    NormalizationOfNegation(p, u);
    NormalizationUnique(Neg(p), unit(Neg(p)), Neg(u));
  }

  /** The right-hand perpendicular of v is the left-hand one of -v, so its
      normalisation is a unit vector orthogonal to v too. */
  lemma RightUnitPerpendicular(v: Vec2, u: Vec2)
    requires v != Zero && IsNormalization(Neg(Perp(v)), u)
    ensures SqrMagnitude(u) == 1.0 && Dot(u, v) == 0.0
  {
    assert Neg(Perp(v)) == Perp(Neg(v));
    UnitPerpendicular(Neg(v), u);
    assert Dot(u, Neg(v)) == -Dot(u, v);
  }

  /** The normalised left-hand perpendicular of a non-zero vector is a unit
      vector orthogonal to it. */
  lemma UnitPerpendicular(v: Vec2, u: Vec2)
    requires v != Zero && IsNormalization(Perp(v), u)
    ensures SqrMagnitude(u) == 1.0 && Dot(u, v) == 0.0
  {
    var p := Perp(v);
    assert p != Zero;
    NormalizedComponents(p, u);
    PerpOrthogonal(v);
    SqrMagnitudePositive(p);
    // |p|^2 (u.v) = (u.p)(p.v) = 0
    assert Mul(SqrMagnitude(p), Dot(u, v)) == Mul(Dot(u, p), Dot(p, v)) by {
      ScaledDot(SqrMagnitude(p), u, Dot(u, p), p, v);
    }
    assert Mul(Dot(u, p), Dot(p, v)) == 0.0;
    MulCancel(SqrMagnitude(p), Dot(u, v), 0.0);
  }

  /** If k a = m b componentwise then k (a.v) = m (b.v). */
  lemma ScaledDot(k: real, a: Vec2, m: real, b: Vec2, v: Vec2)
    requires Mul(k, a.x) == Mul(m, b.x) && Mul(k, a.y) == Mul(m, b.y)
    ensures Mul(k, Dot(a, v)) == Mul(m, Dot(b, v))
  {
    MulAssoc(k, a.x, v.x);
    MulAssoc(k, a.y, v.y);
    MulAssoc(m, b.x, v.x);
    MulAssoc(m, b.y, v.y);
  }

  lemma MulAssoc(a: real, b: real, c: real)
    ensures Mul(a, Mul(b, c)) == Mul(Mul(a, b), c)
  {
  }

  /** The perpendicular is orthogonal to v and as long. */
  lemma PerpOrthogonal(v: Vec2)
    ensures Dot(Perp(v), v) == 0.0
    ensures SqrMagnitude(Perp(v)) == SqrMagnitude(v)
  {
    MulComm(v.x, v.y);
    MulNeg(v.y, v.x);
  }

  lemma MulNeg(a: real, b: real)
    ensures Mul(-a, b) == -Mul(a, b)
    ensures Mul(-a, -a) == Mul(a, a)
  {
  }

  /** The perpendicular of each edge, before normalisation. */
  function RawNormals(r: Rect): (ns: seq<Vec2>)
    ensures ns == [Vec2(0.0, r.width), Vec2(r.height, 0.0), Vec2(0.0, -r.width), Vec2(-r.height, 0.0)]
  {
    var cs := AllCorners(r);
    [Perp(Edge(cs, 0)), Perp(Edge(cs, 1)), Perp(Edge(cs, 2)), Perp(Edge(cs, 3))]
  }

  /** Each raw normal is perpendicular to its edge. */
  lemma RawNormalsPerpendicular(r: Rect)
    ensures forall i :: 0 <= i < 4 ==> Dot(RawNormals(r)[i], Edge(AllCorners(r), i)) == 0.0
  {
    forall i | 0 <= i < 4
      ensures Dot(RawNormals(r)[i], Edge(AllCorners(r), i)) == 0.0
    {
      assert RawNormals(r)[i] == Perp(Edge(AllCorners(r), i));
      PerpOrthogonal(Edge(AllCorners(r), i));
    }
  }

  /** Vector2.normalized on a vector with a zero component, where the square
      root is exact: each component keeps only its sign. */
  function AxisUnit(v: Vec2): Vec2
    requires v.x == 0.0 || v.y == 0.0
  {
    Vec2(Sign(v.x), Sign(v.y))
  }

  lemma SignTimes(a: real)
    ensures Mul(Sign(a), a) == Abs(a)
    ensures Mul(Sign(a), Sign(a)) == (if a == 0.0 then 0.0 else 1.0)
  {
  }

  /** The sign vector is the normalisation of an axis-parallel vector. */
  lemma AxisUnitNormalizes(v: Vec2)
    requires v.x == 0.0 || v.y == 0.0
    ensures IsNormalization(v, AxisUnit(v))
  {
    SignTimes(v.x);
    SignTimes(v.y);
    var u := Vec2(Sign(v.x), Sign(v.y));
    if v != Zero {
      if v.x == 0.0 {
        assert v.y != 0.0;
        assert Cross(u, v) == 0.0;
        assert Dot(u, v) == Abs(v.y);
      } else {
        assert Cross(u, v) == 0.0;
        assert Dot(u, v) == Abs(v.x);
      }
    }
  }

  /** The four edge normals ConvexRect.Normals returns, each raw normal
      normalised. */
  function Normals(r: Rect): (ns: seq<Vec2>)
    ensures |ns| == 4
  {
    var raw := RawNormals(r);
    [AxisUnit(raw[0]), AxisUnit(raw[1]), AxisUnit(raw[2]), AxisUnit(raw[3])]
  }

  /** The normals in closed form: up, right, down and left when width and
      height are positive, flipped by a negative size, zero for a zero size. */
  lemma NormalsExplicit(r: Rect)
    ensures Normals(r)[0] == Vec2(0.0, Sign(r.width)) && Normals(r)[1] == Vec2(Sign(r.height), 0.0)
    ensures Normals(r)[2] == Vec2(0.0, -Sign(r.width)) && Normals(r)[3] == Vec2(-Sign(r.height), 0.0)
  {
    SignOfNegation(r.width);
    SignOfNegation(r.height);
  }

  /** Each normal is the normalisation of the matching raw normal. */
  lemma NormalsNormalize(r: Rect)
    ensures forall i :: 0 <= i < 4 ==> IsNormalization(RawNormals(r)[i], Normals(r)[i])
  {
    forall i | 0 <= i < 4
      ensures IsNormalization(RawNormals(r)[i], Normals(r)[i])
    {
      AxisUnitNormalizes(RawNormals(r)[i]);
    }
  }

  lemma SignOfNegation(a: real)
    ensures Sign(-a) == -Sign(a)
  {
  }

  /** RawNormals are the unit normals stretched by the edge lengths, which is
      why the Separating-Axis gap test may use either. */
  lemma RawNormalsScaleNormals(r: Rect)
    ensures RawNormals(r)[0] == Scale(Abs(r.width), Normals(r)[0])
    ensures RawNormals(r)[1] == Scale(Abs(r.height), Normals(r)[1])
    ensures RawNormals(r)[2] == Scale(Abs(r.width), Normals(r)[2])
    ensures RawNormals(r)[3] == Scale(Abs(r.height), Normals(r)[3])
  {
    NormalsExplicit(r);
    MulComm(Sign(r.width), Abs(r.width));
    MulComm(Sign(r.height), Abs(r.height));
  }

  // ---------------------------------------------------------------------
  // Constructors

  /** new ConvexRect(x, y, width, height): the size is stored as its absolute
      value and the center is computed. */
  function FromTopLeft(x: real, y: real, width: real, height: real): (r: Rect)
    ensures r.width >= 0.0 && r.height >= 0.0
    ensures XMin(r) == x && XMax(r) == x + Abs(width)
    ensures YMax(r) == y && YMin(r) == y - Abs(height)
    ensures CenterConsistent(r)
  {
    var b := Rect(x, y, Abs(width), Abs(height), Zero);
    b.(center := CalculatedCenter(b))
  }

  /** new ConvexRect(center, size): the top-left corner is placed with the
      signed size, the stored size is its absolute value, and the cached
      center is never assigned, so it keeps the default (0, 0). */
  function FromCenterSize(c: Vec2, size: Vec2): (r: Rect)
    ensures r.center == Zero
    ensures r.width == Abs(size.x) && r.height == Abs(size.y)
    ensures CalculatedCenter(r) == Vec2(c.x + (Abs(size.x) - size.x) / 2.0, c.y - (Abs(size.y) - size.y) / 2.0)
    ensures size.x >= 0.0 && size.y >= 0.0 ==> CalculatedCenter(r) == c
  {
    Rect(c.x - size.x / 2.0, c.y + size.y / 2.0, Abs(size.x), Abs(size.y), Zero)
  }

  /** ConvexRect.zero */
  function ZeroRect(): (r: Rect)
    ensures AllCorners(r) == [Zero, Zero, Zero, Zero]
    ensures CenterConsistent(r)
  {
    FromTopLeft(0.0, 0.0, 0.0, 0.0)
  }

  /** ConvexRect.size */
  function Size(r: Rect): Vec2 {
    Vec2(r.width, r.height)
  }

  // ---------------------------------------------------------------------
  // Setters

  /** Setting x moves the box sideways; the center follows. */
  function SetX(r: Rect, value: real): (r': Rect)
    ensures r'.x == value && r'.y == r.y && r'.width == r.width && r'.height == r.height
    ensures CenterConsistent(r')
    ensures CenterConsistent(r) ==> r'.center == Add(r.center, Vec2(value - r.x, 0.0))
  {
    var b := r.(x := value);
    b.(center := CalculatedCenter(b))
  }

  /** Setting y moves the box up or down; the center follows. */
  function SetY(r: Rect, value: real): (r': Rect)
    ensures r'.y == value && r'.x == r.x && r'.width == r.width && r'.height == r.height
    ensures CenterConsistent(r')
    ensures CenterConsistent(r) ==> r'.center == Add(r.center, Vec2(0.0, value - r.y))
  {
    var b := r.(y := value);
    b.(center := CalculatedCenter(b))
  }

  /** Setting width keeps x and stretches the box to the right, taking the
      value as given (no absolute value); the center moves by half the change. */
  function SetWidth(r: Rect, value: real): (r': Rect)
    ensures r'.width == value && r'.x == r.x && r'.y == r.y && r'.height == r.height
    ensures CenterConsistent(r')
    ensures CenterConsistent(r) ==> r'.center == Add(r.center, Vec2((value - r.width) / 2.0, 0.0))
  {
    var b := r.(width := value);
    b.(center := CalculatedCenter(b))
  }

  /** Setting height keeps y and stretches the box downwards, taking the value
      as given; the center moves down by half the change. */
  function SetHeight(r: Rect, value: real): (r': Rect)
    ensures r'.height == value && r'.x == r.x && r'.y == r.y && r'.width == r.width
    ensures CenterConsistent(r')
    ensures CenterConsistent(r) ==> r'.center == Add(r.center, Vec2(0.0, -(value - r.height) / 2.0))
  {
    var b := r.(height := value);
    b.(center := CalculatedCenter(b))
  }

  /** widthFromCenter: the new width is laid out around the cached center,
      which does not change. */
  function WidthFromCenter(r: Rect, value: real): (r': Rect)
    ensures r'.width == value && r'.center == r.center
    ensures r'.y == r.y && r'.height == r.height
    ensures CalculatedCenter(r').x == r.center.x
    ensures CenterConsistent(r) ==> CenterConsistent(r')
  {
    r.(width := value, x := r.center.x - value / 2.0)
  }

  /** heightFromCenter: the new height is laid out around the cached center,
      which does not change. */
  function HeightFromCenter(r: Rect, value: real): (r': Rect)
    ensures r'.height == value && r'.center == r.center
    ensures r'.x == r.x && r'.width == r.width
    ensures CalculatedCenter(r').y == r.center.y
    ensures CenterConsistent(r) ==> CenterConsistent(r')
  {
    r.(height := value, y := r.center.y + value / 2.0)
  }

  /** Setting the center stores it as given and moves the top-left corner so
      that the box, of unchanged size, is centered on it. */
  function SetCenter(r: Rect, c: Vec2): (r': Rect)
    ensures r'.center == c
    ensures r'.width == r.width && r'.height == r.height
    ensures CenterConsistent(r')
  {
    r.(center := c, x := c.x - r.width / 2.0, y := c.y + r.height / 2.0)
  }

  /** ExtendBound grows (or shrinks) the size about the cached center; the
      new size is stored as an absolute value. */
  function ExtendBound(r: Rect, amount: Vec2): (r': Rect)
    ensures r'.center == r.center
    ensures r'.width == Abs(r.width + amount.x) && r'.height == Abs(r.height + amount.y)
    ensures CenterConsistent(r')
  {
    var w, h := Abs(r.width + amount.x), Abs(r.height + amount.y);
    r.(width := w, height := h, x := r.center.x - w / 2.0, y := r.center.y + h / 2.0)
  }

  // ---------------------------------------------------------------------
  // Properties

  /** With a positive size the corners run clockwise: every turn from one
      edge to the next is to the right. */
  lemma CornersClockwise(r: Rect)
    requires r.width > 0.0 && r.height > 0.0
    ensures Cross(Edge(AllCorners(r), 0), Edge(AllCorners(r), 1)) < 0.0
    ensures Cross(Edge(AllCorners(r), 1), Edge(AllCorners(r), 2)) < 0.0
    ensures Cross(Edge(AllCorners(r), 2), Edge(AllCorners(r), 3)) < 0.0
    ensures Cross(Edge(AllCorners(r), 3), Edge(AllCorners(r), 0)) < 0.0
  {
    var cs := AllCorners(r);
    assert Edge(cs, 0) == Vec2(r.width, 0.0);
    assert Edge(cs, 1) == Vec2(0.0, -r.height);
    assert Edge(cs, 2) == Vec2(-r.width, 0.0);
    assert Edge(cs, 3) == Vec2(0.0, r.height);
    MulLeftStrict(r.width, -r.height, 0.0);
    MulLeftStrict(r.height, -r.width, 0.0);
    MulComm(r.width, r.height);
    assert Cross(Edge(cs, 0), Edge(cs, 1)) == Mul(r.width, -r.height);
    assert Cross(Edge(cs, 1), Edge(cs, 2)) == Mul(r.height, -r.width);
    assert Cross(Edge(cs, 2), Edge(cs, 3)) == Mul(r.width, -r.height);
    assert Cross(Edge(cs, 3), Edge(cs, 0)) == Mul(r.height, -r.width);
  }

  /** With a positive size each normal points out of the box, away from the
      center, on the side of the edge it belongs to. */
  lemma NormalsPointOutward(r: Rect)
    requires r.width > 0.0 && r.height > 0.0
    ensures Dot(Normals(r)[0], Sub(TLCorner(r), CalculatedCenter(r))) > 0.0
    ensures Dot(Normals(r)[1], Sub(TRCorner(r), CalculatedCenter(r))) > 0.0
    ensures Dot(Normals(r)[2], Sub(BRCorner(r), CalculatedCenter(r))) > 0.0
    ensures Dot(Normals(r)[3], Sub(BLCorner(r), CalculatedCenter(r))) > 0.0
  {
    NormalsExplicit(r);
    assert Sign(r.width) == 1.0 && Sign(r.height) == 1.0;
  }

  /** Setting the center translates every corner by the distance from the
      center the box had to the new one. */
  lemma SetCenterTranslatesCorners(r: Rect, c: Vec2)
    ensures forall i :: 0 <= i < 4 ==>
      AllCorners(SetCenter(r, c))[i] == Add(AllCorners(r)[i], Sub(c, CalculatedCenter(r)))
  {
  }

  /** Each setter is undone by setting the old value back. */
  lemma SettersUndo(r: Rect, v: real)
    requires CenterConsistent(r)
    ensures SetX(SetX(r, v), r.x) == r
    ensures SetY(SetY(r, v), r.y) == r
    ensures SetWidth(SetWidth(r, v), r.width) == r
    ensures SetHeight(SetHeight(r, v), r.height) == r
  {
  }

  /** Growing a consistent box of non-negative size and shrinking it back by
      the same amount restores it, as long as the grown size stayed
      non-negative. */
  lemma ExtendBoundUndo(r: Rect, amount: Vec2)
    requires CenterConsistent(r) && r.width >= 0.0 && r.height >= 0.0
    requires r.width + amount.x >= 0.0 && r.height + amount.y >= 0.0
    ensures ExtendBound(ExtendBound(r, amount), Neg(amount)) == r
  {
  }

  /** Re-assigning a consistent rectangle its own center changes nothing. */
  lemma SetOwnCenterIsIdentity(r: Rect)
    requires CenterConsistent(r)
    ensures SetCenter(r, r.center) == r
  {
  }

  /** Rebuilding a rectangle of non-negative size from its center and size
      gives the same box, but the cached center is lost. */
  lemma CenterSizeRoundTrip(r: Rect)
    requires r.width >= 0.0 && r.height >= 0.0
    ensures FromCenterSize(CalculatedCenter(r), Size(r)) == r.(center := Zero)
  {
  }

  /** The two constructors describe the same box for a non-negative size, but
      only the corner constructor records the center. */
  lemma ConstructorsAgreeExceptCenter(c: Vec2, size: Vec2)
    requires size.x >= 0.0 && size.y >= 0.0
    ensures FromCenterSize(c, size) == FromTopLeft(c.x - size.x / 2.0, c.y + size.y / 2.0, size.x, size.y).(center := Zero)
    ensures FromTopLeft(c.x - size.x / 2.0, c.y + size.y / 2.0, size.x, size.y).center == c
  {
  }

  /** Projecting the corners on the x axis, either way round, gives the
      horizontal bounds. */
  lemma ProjectOnXAxis(r: Rect)
    ensures Project(Vec2(1.0, 0.0), AllCorners(r)) == Interval(XMin(r), XMax(r))
    ensures Project(Vec2(-1.0, 0.0), AllCorners(r)) == Interval(-XMax(r), -XMin(r))
  {
  }

  /** Projecting the corners on the y axis, either way round, gives the
      vertical bounds. */
  lemma ProjectOnYAxis(r: Rect)
    ensures Project(Vec2(0.0, 1.0), AllCorners(r)) == Interval(YMin(r), YMax(r))
    ensures Project(Vec2(0.0, -1.0), AllCorners(r)) == Interval(-YMax(r), -YMin(r))
  {
  }

  /** On the zero axis (the normal of an edge of zero length) every corner
      projects to 0. */
  lemma ProjectOnZeroAxis(r: Rect)
    ensures Project(Zero, AllCorners(r)) == Interval(0.0, 0.0)
  {
  }

  /** The projection of a point of the box lies within the projection of the
      box's corners, on any axis. */
  lemma BoxPointProjects(r: Rect, q: Vec2, axis: Vec2)
    requires ContainPoint2D(r, q)
    ensures Project(axis, AllCorners(r)).lo <= Dot(axis, q) <= Project(axis, AllCorners(r)).hi
  {
    var lx := if axis.x >= 0.0 then XMin(r) else XMax(r);
    var hx := if axis.x >= 0.0 then XMax(r) else XMin(r);
    var ly := if axis.y >= 0.0 then YMin(r) else YMax(r);
    var hy := if axis.y >= 0.0 then YMax(r) else YMin(r);
    ScaledBetween(axis.x, lx, q.x, hx);
    ScaledBetween(axis.y, ly, q.y, hy);
    CornerProjects(r, axis, lx, ly);
    CornerProjects(r, axis, hx, hy);
  }

  /** k t lies between k a and k b when t lies between a and b, where a is
      the end k maps lower. */
  lemma ScaledBetween(k: real, a: real, t: real, b: real)
    requires k >= 0.0 ==> a <= t <= b
    requires k < 0.0 ==> b <= t <= a
    ensures Mul(k, a) <= Mul(k, t) <= Mul(k, b)
  {
    if k >= 0.0 {
      MulLeft(k, a, t);
      MulLeft(k, t, b);
    } else {
      MulLeft(-k, b, t);
      MulLeft(-k, t, a);
    }
  }

  lemma CornerProjects(r: Rect, axis: Vec2, cx: real, cy: real)
    requires cx == XMin(r) || cx == XMax(r)
    requires cy == YMin(r) || cy == YMax(r)
    ensures Project(axis, AllCorners(r)).lo <= Dot(axis, Vec2(cx, cy)) <= Project(axis, AllCorners(r)).hi
  {
    var cs := AllCorners(r);
    if cx == r.x && cy == r.y {
      assert Vec2(cx, cy) == cs[0];
    } else if cx == r.x {
      assert Vec2(cx, cy) == cs[3];
    } else if cy == r.y {
      assert Vec2(cx, cy) == cs[1];
    } else {
      assert Vec2(cx, cy) == cs[2];
    }
  }
}
