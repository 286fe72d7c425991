/** Plane geometry over exact reals: the part of UnityEngine's Vector2 and Mathf
    that the collision kernel relies on, plus the projection intervals the
    Separating-Axis tests compare. Products are written through `Mul` so that
    the facts proved about them stay facts about one term each. */
module Geometry {

  /** A 2D vector or point (UnityEngine.Vector2, with exact real components). */
  datatype Vec2 = Vec2(x: real, y: real)

  const Zero: Vec2 := Vec2(0.0, 0.0)

  function Mul(a: real, b: real): real { a * b }

  function Add(a: Vec2, b: Vec2): Vec2 { Vec2(a.x + b.x, a.y + b.y) }

  function Sub(a: Vec2, b: Vec2): Vec2 { Vec2(a.x - b.x, a.y - b.y) }

  function Neg(a: Vec2): Vec2 { Vec2(-a.x, -a.y) }

  function Scale(k: real, a: Vec2): Vec2 { Vec2(Mul(k, a.x), Mul(k, a.y)) }

  /** Vector2.Dot */
  function Dot(a: Vec2, b: Vec2): real { Mul(a.x, b.x) + Mul(a.y, b.y) }

  /** The z-component of the 3D cross product; zero exactly when a and b are parallel. */
  function Cross(a: Vec2, b: Vec2): real { Mul(a.x, b.y) - Mul(a.y, b.x) }

  /** Vector2.sqrMagnitude */
  function SqrMagnitude(a: Vec2): (m: real)
    ensures m >= 0.0
  {
    SquareNonnegative(a.x);
    SquareNonnegative(a.y);
    Dot(a, a)
  }

  lemma SquareNonnegative(a: real)
    ensures Mul(a, a) >= 0.0
    ensures a != 0.0 ==> Mul(a, a) > 0.0
  {
    if a < 0.0 {
      MulLeftStrict(-a, 0.0, -a);
      assert Mul(-a, -a) == Mul(a, a);
    } else if a > 0.0 {
      MulLeftStrict(a, 0.0, a);
    }
  }

  /** Only the zero vector has length zero. */
  lemma SqrMagnitudePositive(a: Vec2)
    requires a != Zero
    ensures SqrMagnitude(a) > 0.0
  {
    SquareNonnegative(a.x);
    SquareNonnegative(a.y);
  }

  lemma MulComm(a: real, b: real)
    ensures Mul(a, b) == Mul(b, a)
  {
  }

  lemma MulLeft(k: real, a: real, b: real)
    requires k >= 0.0 && a <= b
    ensures Mul(k, a) <= Mul(k, b)
  {
    assert k * b - k * a == k * (b - a);
  }

  lemma MulLeftStrict(k: real, a: real, b: real)
    requires k > 0.0 && a < b
    ensures Mul(k, a) < Mul(k, b)
  {
    assert k * b - k * a == k * (b - a);
  }

  /** Mathf.Min: `a < b ? a : b` */
  function Min(a: real, b: real): (m: real)
    ensures m <= a && m <= b
    ensures m == a || m == b
  {
    if a < b then a else b
  }

  /** Mathf.Max: `a > b ? a : b` */
  function Max(a: real, b: real): (m: real)
    ensures a <= m && b <= m
    ensures m == a || m == b
  {
    if a > b then a else b
  }

  /** Mathf.Abs */
  function Abs(a: real): (m: real)
    ensures m >= 0.0
    ensures m == a || m == -a
  {
    if a < 0.0 then -a else a
  }

  /** -1, 0 or 1 according to the sign of a. */
  function Sign(a: real): (s: real)
    ensures a > 0.0 ==> s == 1.0
    ensures a < 0.0 ==> s == -1.0
    ensures a == 0.0 ==> s == 0.0
  {
    if a < 0.0 then -1.0 else if a == 0.0 then 0.0 else 1.0
  }

  /** A closed interval of a projection axis (lo exceeds hi only for a circle
      with a negative radius). */
  datatype Interval = Interval(lo: real, hi: real)

  /** The projection of four points on an axis, with the nested
      Mathf.Min/Mathf.Max the kernel writes out for its corner arrays. */
  function Project(axis: Vec2, pts: seq<Vec2>): (r: Interval)
    requires |pts| == 4
    ensures r.lo <= r.hi
    ensures forall i :: 0 <= i < 4 ==> r.lo <= Dot(axis, pts[i]) <= r.hi
    ensures exists i :: 0 <= i < 4 && Dot(axis, pts[i]) == r.lo
    ensures exists i :: 0 <= i < 4 && Dot(axis, pts[i]) == r.hi
  {
    var d0, d1, d2, d3 := Dot(axis, pts[0]), Dot(axis, pts[1]), Dot(axis, pts[2]), Dot(axis, pts[3]);
    var lo, hi := Min(d0, Min(d1, Min(d2, d3))), Max(d0, Max(d1, Max(d2, d3)));
    assert lo == Dot(axis, pts[0]) || lo == Dot(axis, pts[1]) || lo == Dot(axis, pts[2]) || lo == Dot(axis, pts[3]);
    assert hi == Dot(axis, pts[0]) || hi == Dot(axis, pts[1]) || hi == Dot(axis, pts[2]) || hi == Dot(axis, pts[3]);
    Interval(lo, hi)
  }

  /** The projection of a circle: its projected center plus or minus its radius. */
  function Around(center: real, radius: real): Interval {
    Interval(center - radius, center + radius)
  }

  /** The gap test every pair test uses: b starts after a ends, or ends before a starts. */
  predicate Disjoint(a: Interval, b: Interval) {
    b.lo > a.hi || b.hi < a.lo
  }

  /** u is the normalisation of p: the zero vector for the zero vector,
      otherwise the unit vector pointing the same way as p. Vector2.normalized
      also returns zero below Vector2.kEpsilon; this ideal one does not. */
  predicate IsNormalization(p: Vec2, u: Vec2) {
    if p == Zero then u == Zero
    else SqrMagnitude(u) == 1.0 && Cross(u, p) == 0.0 && Dot(u, p) > 0.0
  }

  /** `unit` behaves as Vector2.normalized on every vector. */
  ghost predicate Normalizes(unit: Vec2 -> Vec2) {
    forall p :: IsNormalization(p, unit(p))
  }

  /** |a|^2 |b|^2 = (a.b)^2 + (a x b)^2 */
  lemma Lagrange(a: Vec2, b: Vec2)
    ensures Mul(SqrMagnitude(a), SqrMagnitude(b)) == Mul(Dot(a, b), Dot(a, b)) + Mul(Cross(a, b), Cross(a, b))
  {
  }

  lemma CauchySchwarz(a: Vec2, b: Vec2)
    ensures Mul(Dot(a, b), Dot(a, b)) <= Mul(SqrMagnitude(a), SqrMagnitude(b))
  {
    Lagrange(a, b);
    SquareNonnegative(Cross(a, b));
  }

  /** Projecting p on its own normalisation gives the length of p. */
  lemma NormalizedProjectionIsLength(p: Vec2, u: Vec2)
    requires IsNormalization(p, u)
    ensures Dot(u, p) >= 0.0
    ensures Mul(Dot(u, p), Dot(u, p)) == SqrMagnitude(p)
    ensures SqrMagnitude(u) <= 1.0
  {
    if p != Zero {
      Lagrange(u, p);
      assert Mul(SqrMagnitude(u), SqrMagnitude(p)) == SqrMagnitude(p);
      assert Mul(Cross(u, p), Cross(u, p)) == 0.0;
    }
  }

  lemma SquareMonotone(a: real, b: real)
    requires 0.0 <= a && a < b
    ensures Mul(a, a) < Mul(b, b)
  {
    MulLeft(a, a, b);
    MulLeftStrict(b, a, b);
    MulComm(a, b);
  }

  /** Between non-negative numbers the order is the order of the squares. */
  lemma SquareLessIff(a: real, b: real)
    requires 0.0 <= a && 0.0 <= b
    ensures a < b <==> Mul(a, a) < Mul(b, b)
  {
    if a < b {
      SquareMonotone(a, b);
    } else if b < a {
      SquareMonotone(b, a);
    }
  }

  /** |a| <= r whenever a^2 <= r^2 and r >= 0. */
  lemma AbsBoundedBySquare(a: real, r: real)
    requires r >= 0.0 && Mul(a, a) <= Mul(r, r)
    ensures Abs(a) <= r
  {
    assert Mul(Abs(a), Abs(a)) == Mul(a, a);
    if Abs(a) > r {
      SquareMonotone(r, Abs(a));
    }
  }

  lemma SqrMagnitudeOfNegation(a: Vec2)
    ensures SqrMagnitude(Neg(a)) == SqrMagnitude(a)
  {
    assert Mul(-a.x, -a.x) == Mul(a.x, a.x);
    assert Mul(-a.y, -a.y) == Mul(a.y, a.y);
  }

  /** |a - b|^2 = |a|^2 + |b|^2 - 2 a.b */
  lemma SqrMagnitudeOfDifference(a: Vec2, b: Vec2)
    ensures SqrMagnitude(Sub(a, b)) == SqrMagnitude(a) + SqrMagnitude(b) - 2.0 * Dot(a, b)
  {
  }

  /** Points within r1 and r2 of a common point are within r1 + r2 of each
      other, in squared form: |a - b|^2 <= (r1 + r2)^2 when |a| <= r1 and
      |b| <= r2. */
  lemma TriangleSquared(a: Vec2, b: Vec2, r1: real, r2: real)
    requires r1 >= 0.0 && r2 >= 0.0
    requires SqrMagnitude(a) <= Mul(r1, r1) && SqrMagnitude(b) <= Mul(r2, r2)
    ensures SqrMagnitude(Sub(a, b)) <= Mul(r1 + r2, r1 + r2)
  {
    SqrMagnitudeOfDifference(a, b);
    CauchySchwarz(a, b);
    ProductBound(SqrMagnitude(a), SqrMagnitude(b), r1, r2);
    MulLeft(r1, 0.0, r2);
    AbsBoundedBySquare(Dot(a, b), Mul(r1, r2));
    SquareOfSum(r1, r2);
  }

  /** A <= r1^2 and B <= r2^2 give AB <= (r1 r2)^2. */
  lemma ProductBound(a: real, b: real, r1: real, r2: real)
    requires 0.0 <= a <= Mul(r1, r1) && 0.0 <= b <= Mul(r2, r2)
    ensures Mul(a, b) <= Mul(Mul(r1, r2), Mul(r1, r2))
  {
    MulLeft(a, b, Mul(r2, r2));
    MulComm(a, Mul(r2, r2));
    SquareNonnegative(r2);
    MulLeft(Mul(r2, r2), a, Mul(r1, r1));
    MulComm(Mul(r1, r1), Mul(r2, r2));
    SquareOfProduct(r1, r2);
  }

  lemma SquareOfProduct(r1: real, r2: real)
    ensures Mul(Mul(r1, r1), Mul(r2, r2)) == Mul(Mul(r1, r2), Mul(r1, r2))
  {
  }

  lemma SquareOfSum(r1: real, r2: real)
    ensures Mul(r1 + r2, r1 + r2) == Mul(r1, r1) + Mul(r2, r2) + 2.0 * Mul(r1, r2)
  {
  }

  /** Two non-negative numbers with the same square are equal. */
  lemma SquareInjective(a: real, b: real)
    requires 0.0 <= a && 0.0 <= b && Mul(a, a) == Mul(b, b)
    ensures a == b
  {
    if a < b {
      SquareMonotone(a, b);
    } else if b < a {
      SquareMonotone(b, a);
    }
  }

  lemma MulCancel(k: real, a: real, b: real)
    requires k > 0.0 && Mul(k, a) == Mul(k, b)
    ensures a == b
  {
    if a < b {
      MulLeftStrict(k, a, b);
    } else if b < a {
      MulLeftStrict(k, b, a);
    }
  }

  /** Multiplying the normalisation by |p|^2 gives (u.p) p. */
  lemma NormalizedComponents(p: Vec2, u: Vec2)
    requires Cross(u, p) == 0.0
    ensures Mul(SqrMagnitude(p), u.x) == Mul(Dot(u, p), p.x)
    ensures Mul(SqrMagnitude(p), u.y) == Mul(Dot(u, p), p.y)
  {
    assert Mul(SqrMagnitude(p), u.x) - Mul(Dot(u, p), p.x) == Mul(p.y, -Cross(u, p));
    assert Mul(SqrMagnitude(p), u.y) - Mul(Dot(u, p), p.y) == Mul(p.x, Cross(u, p));
  }

  /** Vector2.normalized is a function: a vector has exactly one normalisation. */
  lemma NormalizationUnique(p: Vec2, u: Vec2, v: Vec2)
    requires IsNormalization(p, u) && IsNormalization(p, v)
    ensures u == v
  {
    if p != Zero {
      NormalizedProjectionIsLength(p, u);
      NormalizedProjectionIsLength(p, v);
      SquareInjective(Dot(u, p), Dot(v, p));
      NormalizedComponents(p, u);
      NormalizedComponents(p, v);
      SqrMagnitudePositive(p);
      MulCancel(SqrMagnitude(p), u.x, v.x);
      MulCancel(SqrMagnitude(p), u.y, v.y);
    }
  }

  /** Normalising the opposite vector gives the opposite unit vector. */
  lemma NormalizationOfNegation(p: Vec2, u: Vec2)
    requires IsNormalization(p, u)
    ensures IsNormalization(Neg(p), Neg(u))
  {
    if p != Zero {
      assert Neg(p) != Zero;
      assert Cross(Neg(u), Neg(p)) == Cross(u, p);
      assert Dot(Neg(u), Neg(p)) == Dot(u, p);
      assert SqrMagnitude(Neg(u)) == SqrMagnitude(u);
    }
  }

  /** A value shared by two intervals shows they are not disjoint. */
  lemma SharedValueNotDisjoint(a: Interval, b: Interval, t: real)
    requires a.lo <= t <= a.hi && b.lo <= t <= b.hi
    ensures !Disjoint(a, b)
  {
  }

  /** A point within `radius` of `center` projects, on an axis of length at
      most one, within `radius` of the projected center. */
  lemma ProjectionWithinRadius(u: Vec2, q: Vec2, center: Vec2, radius: real)
    requires SqrMagnitude(u) <= 1.0 && radius >= 0.0
    requires SqrMagnitude(Sub(q, center)) <= Mul(radius, radius)
    ensures Around(Dot(u, center), radius).lo <= Dot(u, q) <= Around(Dot(u, center), radius).hi
  {
    var d := Sub(q, center);
    var t := Dot(u, d);
    CauchySchwarz(u, d);
    MulLeft(SqrMagnitude(d), SqrMagnitude(u), 1.0);
    MulComm(SqrMagnitude(d), SqrMagnitude(u));
    assert Mul(t, t) <= Mul(radius, radius);
    if t > radius {
      SquareMonotone(radius, t);
    } else if -t > radius {
      SquareMonotone(radius, -t);
    }
    DotSub(u, q, center);
  }

  lemma DotSub(u: Vec2, a: Vec2, b: Vec2)
    ensures Dot(u, Sub(a, b)) == Dot(u, a) - Dot(u, b)
  {
  }

  lemma DotScaled(k: real, axis: Vec2, p: Vec2)
    ensures Dot(Scale(k, axis), p) == Mul(k, Dot(axis, p))
  {
  }

  /** Projections scale with the axis: scaling by k > 0 scales both ends. */
  lemma ProjectScaled(k: real, axis: Vec2, pts: seq<Vec2>)
    requires k > 0.0 && |pts| == 4
    ensures Project(Scale(k, axis), pts) == Interval(Mul(k, Project(axis, pts).lo), Mul(k, Project(axis, pts).hi))
  {
    var p := Project(axis, pts);
    var q := Project(Scale(k, axis), pts);
    forall i | 0 <= i < 4
      ensures Mul(k, p.lo) <= Dot(Scale(k, axis), pts[i]) <= Mul(k, p.hi)
    {
      DotScaled(k, axis, pts[i]);
      MulLeft(k, p.lo, Dot(axis, pts[i]));
      MulLeft(k, Dot(axis, pts[i]), p.hi);
    }
    var i :| 0 <= i < 4 && Dot(axis, pts[i]) == p.lo;
    DotScaled(k, axis, pts[i]);
    var j :| 0 <= j < 4 && Dot(axis, pts[j]) == p.hi;
    DotScaled(k, axis, pts[j]);
  }

  lemma MulMonotoneIff(k: real, a: real, b: real)
    requires k > 0.0
    ensures a < b <==> Mul(k, a) < Mul(k, b)
  {
    if a < b {
      MulLeftStrict(k, a, b);
    } else {
      MulLeft(k, b, a);
    }
  }

  /** The Separating-Axis gap test does not depend on the length of the
      axis, so projecting on an unnormalised normal finds the same gaps. */
  lemma GapScaleInvariant(k: real, axis: Vec2, a: seq<Vec2>, b: seq<Vec2>)
    requires k > 0.0 && |a| == 4 && |b| == 4
    ensures Disjoint(Project(Scale(k, axis), a), Project(Scale(k, axis), b))
        <==> Disjoint(Project(axis, a), Project(axis, b))
  {
    ProjectScaled(k, axis, a);
    ProjectScaled(k, axis, b);
    var pa, pb := Project(axis, a), Project(axis, b);
    MulMonotoneIff(k, pa.hi, pb.lo);
    MulMonotoneIff(k, pb.hi, pa.lo);
  }
}
