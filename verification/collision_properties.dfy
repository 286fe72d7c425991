/** What the collision tests mean geometrically, for the axis-aligned
    rectangles and the circles the kernel handles. */
module CollisionProperties {
  import opened Geometry
  import opened ConvexRects
  import opened SatCollision

  // ---------------------------------------------------------------------
  // Rectangle against rectangle

  /** The boxes' x ranges do not meet. */
  predicate XApart(a: Rect, b: Rect) {
    XMin(b) > XMax(a) || XMax(b) < XMin(a)
  }

  /** The boxes' y ranges do not meet. */
  predicate YApart(a: Rect, b: Rect) {
    YMin(b) > YMax(a) || YMax(b) < YMin(a)
  }

  /** The box of a lies within the box of b. */
  predicate BoxInside(a: Rect, b: Rect) {
    XMin(b) <= XMin(a) && XMax(a) <= XMax(b) && YMin(b) <= YMin(a) && YMax(a) <= YMax(b)
  }

  /** On the y axis, either way round, the corner projections are disjoint
      exactly when the y ranges do not meet. */
  lemma YAxisGap(a: Rect, b: Rect)
    ensures Disjoint(Project(Vec2(0.0, 1.0), AllCorners(a)), Project(Vec2(0.0, 1.0), AllCorners(b))) <==> YApart(a, b)
    ensures Disjoint(Project(Vec2(0.0, -1.0), AllCorners(a)), Project(Vec2(0.0, -1.0), AllCorners(b))) <==> YApart(a, b)
  {
    ProjectOnYAxis(a);
    ProjectOnYAxis(b);
  }

  /** On the x axis, either way round, likewise with the x ranges. */
  lemma XAxisGap(a: Rect, b: Rect)
    ensures Disjoint(Project(Vec2(1.0, 0.0), AllCorners(a)), Project(Vec2(1.0, 0.0), AllCorners(b))) <==> XApart(a, b)
    ensures Disjoint(Project(Vec2(-1.0, 0.0), AllCorners(a)), Project(Vec2(-1.0, 0.0), AllCorners(b))) <==> XApart(a, b)
  {
    ProjectOnXAxis(a);
    ProjectOnXAxis(b);
  }

  /** On the zero axis nothing is ever disjoint. */
  lemma ZeroAxisNoGap(a: Rect, b: Rect)
    ensures !Disjoint(Project(Zero, AllCorners(a)), Project(Zero, AllCorners(b)))
  {
    ProjectOnZeroAxis(a);
    ProjectOnZeroAxis(b);
  }

  /** A zero normal (an edge of zero length) never separates. */
  lemma ZeroNormalNoGap(self: Rect, other: Rect, i: nat)
    requires i < 4 && Normals(self)[i] == Zero
    ensures !RectGap(self, other, i)
  {
    ZeroAxisNoGap(self, other);
  }

  /** A vertical unit normal separates exactly when the y ranges do not meet. */
  lemma VerticalNormalGap(self: Rect, other: Rect, i: nat)
    requires i < 4 && (Normals(self)[i] == Vec2(0.0, 1.0) || Normals(self)[i] == Vec2(0.0, -1.0))
    ensures RectGap(self, other, i) <==> YApart(self, other)
  {
    YAxisGap(self, other);
  }

  /** A horizontal unit normal separates exactly when the x ranges do not meet. */
  lemma HorizontalNormalGap(self: Rect, other: Rect, i: nat)
    requires i < 4 && (Normals(self)[i] == Vec2(1.0, 0.0) || Normals(self)[i] == Vec2(-1.0, 0.0))
    ensures RectGap(self, other, i) <==> XApart(self, other)
  {
    XAxisGap(self, other);
  }

  /** Normals 0 and 2 of self are vertical and test the y ranges, unless
      self has no width. */
  lemma RectGapVertical(self: Rect, other: Rect, i: nat)
    requires i == 0 || i == 2
    ensures RectGap(self, other, i) <==> self.width != 0.0 && YApart(self, other)
  {
    NormalsExplicit(self);
    if Normals(self)[i] == Zero {
      ZeroNormalNoGap(self, other, i);
    } else {
      VerticalNormalGap(self, other, i);
    }
  }

  /** Normals 1 and 3 of self are horizontal and test the x ranges, unless
      self has no height. */
  lemma RectGapHorizontal(self: Rect, other: Rect, i: nat)
    requires i == 1 || i == 3
    ensures RectGap(self, other, i) <==> self.height != 0.0 && XApart(self, other)
  {
    NormalsExplicit(self);
    if Normals(self)[i] == Zero {
      ZeroNormalNoGap(self, other, i);
    } else {
      HorizontalNormalGap(self, other, i);
    }
  }

  /** Projecting on the unnormalised edge normal finds the same gap as the
      unit normal, so normalising the normals does not change the test. */
  lemma RawGapIffGap(self: Rect, other: Rect, i: nat)
    requires i < 4
    ensures Disjoint(Project(RawNormals(self)[i], AllCorners(self)), Project(RawNormals(self)[i], AllCorners(other)))
        <==> RectGap(self, other, i)
  {
    var ns := Normals(self);
    RawNormalsScaleNormals(self);
    NormalsExplicit(self);
    if i == 0 {
      SameGapOnScaledAxis(Abs(self.width), ns[0], AllCorners(self), AllCorners(other));
    } else if i == 1 {
      SameGapOnScaledAxis(Abs(self.height), ns[1], AllCorners(self), AllCorners(other));
    } else if i == 2 {
      SameGapOnScaledAxis(Abs(self.width), ns[2], AllCorners(self), AllCorners(other));
    } else {
      SameGapOnScaledAxis(Abs(self.height), ns[3], AllCorners(self), AllCorners(other));
    }
  }

  /** Scaling an axis by k >= 0 keeps the gaps, provided a zero k only
      scales the zero axis. */
  lemma SameGapOnScaledAxis(k: real, n: Vec2, a: seq<Vec2>, b: seq<Vec2>)
    requires k >= 0.0 && |a| == 4 && |b| == 4 && (k == 0.0 ==> n == Zero)
    ensures Disjoint(Project(Scale(k, n), a), Project(Scale(k, n), b)) <==> Disjoint(Project(n, a), Project(n, b))
  {
    if k == 0.0 {
      assert Scale(k, n) == n;
    } else {
      GapScaleInvariant(k, n, a, b);
    }
  }

  /** The rectangle test answers None exactly when the boxes are apart along
      a side of self that has non-zero length. */
  lemma RectRectNoneIffApart(self: Rect, other: Rect)
    ensures RectContactWithRectangle(self, other) == None <==>
      (self.width != 0.0 && YApart(self, other)) || (self.height != 0.0 && XApart(self, other))
  {
    RectContactNoneIffSomeGap(self, other);
    RectGapVertical(self, other, 0);
    RectGapHorizontal(self, other, 1);
    RectGapVertical(self, other, 2);
    RectGapHorizontal(self, other, 3);
  }

  /** None exactly when one of the four normals separates. */
  lemma RectContactNoneIffSomeGap(self: Rect, other: Rect)
    ensures RectContactWithRectangle(self, other) == None <==>
      RectGap(self, other, 0) || RectGap(self, other, 1) || RectGap(self, other, 2) || RectGap(self, other, 3)
  {
    if RectContactWithRectangle(self, other) == None {
      var j :| 0 <= j < 4 && RectGap(self, other, j);
      assert j == 0 || j == 1 || j == 2 || j == 3;
    }
  }

  /** Other contains all four corners of self exactly when it contains
      self's box. */
  lemma CornersInsideIffBoxInside(self: Rect, other: Rect)
    ensures (forall j :: 0 <= j < 4 ==> ConvexRects.ContainPoint2D(other, AllCorners(self)[j])) <==> BoxInside(self, other)
  {
    var cs := AllCorners(self);
    if forall j :: 0 <= j < 4 ==> ConvexRects.ContainPoint2D(other, cs[j]) {
      assert ConvexRects.ContainPoint2D(other, cs[0]) && ConvexRects.ContainPoint2D(other, cs[2]);
    }
  }

  /** Fit means the boxes meet and self's box lies within other's. */
  lemma RectRectFitIffBoxInside(self: Rect, other: Rect)
    ensures RectContactWithRectangle(self, other) == Fit <==>
      !((self.width != 0.0 && YApart(self, other)) || (self.height != 0.0 && XApart(self, other))) &&
      BoxInside(self, other)
  {
    RectRectNoneIffApart(self, other);
    CornersInsideIffBoxInside(self, other);
  }

  /** Between rectangles with non-zero sides the None answer does not depend
      on which one receives the call. */
  lemma RectRectNoneSymmetric(a: Rect, b: Rect)
    requires a.width != 0.0 && a.height != 0.0 && b.width != 0.0 && b.height != 0.0
    ensures RectContactWithRectangle(a, b) == None <==> RectContactWithRectangle(b, a) == None
  {
    RectRectNoneIffApart(a, b);
    RectRectNoneIffApart(b, a);
  }

  /** A rectangle of zero width has a zero normal where its horizontal edges
      would be, so it cannot see a gap in y: when the boxes are apart in y
      only, the zero-width rectangle reports Overlap while the other
      rectangle reports None. */
  lemma ZeroWidthMissesYGap(thin: Rect, box: Rect)
    requires thin.width == 0.0 && box.width != 0.0
    requires YApart(thin, box) && !XApart(thin, box)
    ensures RectContactWithRectangle(thin, box) == Overlap
    ensures RectContactWithRectangle(box, thin) == None
  {
    RectRectNoneIffApart(thin, box);
    RectRectNoneIffApart(box, thin);
    RectRectFitIffBoxInside(thin, box);
  }

  /** Fit is one-sided: when self's box lies within other's and the boxes
      differ, self reports Fit and other reports Overlap. */
  lemma NestedRectsAnswerAsymmetrically(self: Rect, other: Rect)
    requires BoxInside(self, other) && !BoxInside(other, self)
    ensures RectContactWithRectangle(self, other) == Fit
    ensures RectContactWithRectangle(other, self) == Overlap
  {
    BoxInsideNotApart(self, other);
    RectRectFitIffBoxInside(self, other);
    RectRectFitIffBoxInside(other, self);
    RectRectNoneIffApart(other, self);
  }

  /** Nested boxes meet, in both orders. */
  lemma BoxInsideNotApart(a: Rect, b: Rect)
    requires BoxInside(a, b)
    ensures !XApart(a, b) && !YApart(a, b) && !XApart(b, a) && !YApart(b, a)
  {
    assert XMin(a) <= XMax(a) && YMin(a) <= YMax(a);
  }

  /** A 2 by 2 square inside a 4 by 4 square fits it; from the large
      square's side the answer is Overlap. */
  lemma NestedSquaresExample()
    ensures RectContactWithRectangle(ConvexRects.FromTopLeft(1.0, 3.0, 2.0, 2.0), ConvexRects.FromTopLeft(0.0, 4.0, 4.0, 4.0)) == Fit
    ensures RectContactWithRectangle(ConvexRects.FromTopLeft(0.0, 4.0, 4.0, 4.0), ConvexRects.FromTopLeft(1.0, 3.0, 2.0, 2.0)) == Overlap
  {
    NestedRectsAnswerAsymmetrically(ConvexRects.FromTopLeft(1.0, 3.0, 2.0, 2.0), ConvexRects.FromTopLeft(0.0, 4.0, 4.0, 4.0));
  }

  /** Rectangles sharing a point are never reported apart. */
  lemma RectRectNoneSound(self: Rect, other: Rect, q: Vec2)
    requires ConvexRects.ContainPoint2D(self, q) && ConvexRects.ContainPoint2D(other, q)
    ensures RectContactWithRectangle(self, other) != None
  {
    forall j | 0 <= j < 4
      ensures !RectGap(self, other, j)
    {
      var n := Normals(self)[j];
      BoxPointProjects(self, q, n);
      BoxPointProjects(other, q, n);
      SharedValueNotDisjoint(Project(n, AllCorners(self)), Project(n, AllCorners(other)), Dot(n, q));
    }
  }
}
