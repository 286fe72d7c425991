# ConvexCollision in Dafny

This project models the collision kernel of a Unity quadtree experiment.

- `ConvexRect` is an axis-aligned rectangle. It has a top-left `x, y`, a `width` that extends right, a `height` that extends down, and a cached `center`.
- `ConvexCircle` is a circle.
- The Separating-Axis pair tests answer `Fit`, `Overlap` or `None`. `Fit` means the receiving shape lies inside the argument.
- `ConvexShape.IntersectWithShape` dispatches on the argument's shape id.
- `NodeBound` is the tree node's bounding box. It is the same rectangle record plus a rotation in degrees.

Coordinates are `real`. Every setter and constructor is a pure function that returns the updated record. Each loop of the source is an index recursion, and its contract states the quantified property the loop computes.

Files:

- `geometry.dfy` (`Geometry`): vectors, `Vector2.Dot`, `sqrMagnitude`, and `Mathf.Min`/`Max`/`Abs`.
  - It also holds the four-corner projection `Project` and the interval gap test `Disjoint` that every pair test uses.
  - `IsNormalization(p, u)` states what the model takes `Vector2.normalized` to return: zero for the zero vector, otherwise the unit vector along `p`. Unity also returns zero for vectors shorter than `Vector2.kEpsilon`, which the model does not (see "Left out").
- `convex_rect.dfy` (`ConvexRects`): the `ConvexRect` record, its bounds, corners and normals, its constructors and setters, and `ConvexUtility.GetVectorNormal`.
- `convex_circle.dfy` (`ConvexCircles`): the `ConvexCircle` record and its point test.
- `node_bound.dfy` (`NodeBounds`): `NodeBound`.
  - It reuses the rectangle record for its unrotated box, so its setters, getters, bounds and `ExtendBound` are the `ConvexRects` functions applied to `bound`.
  - Only the constructors and the rotated `AllCorners` differ.
- `sat_collision.dfy` (`SatCollision`): `CollisionResult`, the four pair tests and the dispatcher.
- `collision_properties.dfy`, `circle_properties.dfy` and `shape_properties.dfy` state what the pair tests mean geometrically.

Quirks of the code that the model keeps:

- The `(center, size)` constructors of both classes never assign the cached center. It keeps the default `(0, 0)`.
- The `NodeBound(x, y, w, h)` constructor does not compute the center either. The `ConvexRect` one does.
- The `width`/`height` setters store the value without `Abs`, so a record can have a negative size. The bounds still come out ordered.
- The circle-against-rectangle test starts its corner-axis accumulators `rMin`/`rMax` at 0. The range it compares is therefore the corners' projection widened to include 0.
- Its inside test compares both ends of the circle with the low end of each normal's range only.
- `ConvexCircle.ContainPoint2D` tests the bounding square, not the disc.
- `NodeBound.AllCorners` rotates each corner about the cached center and does not add the center back.
- A rectangle with a zero-length side has a zero edge normal.
  - A zero normal never separates anything. As a result, rectangle-against-rectangle `None` depends on the order when a side has zero length (`CollisionProperties.ZeroWidthMissesYGap`).
  - For rectangles whose sides all have non-zero length, the order does not matter (`CollisionProperties.RectRectNoneSymmetric`).

`unit: Vec2 -> Vec2` stands for `Vector2.normalized`. Lemmas that need it to behave assume `IsNormalization(p, unit(p))` for the vectors involved, or `Normalizes(unit)` for all vectors.

The rectangle normals are axis-parallel, so their normalisation needs no square root. The model computes them by sign, and `ConvexRects.NormalsNormalize` proves this is the normalisation in the sense of `IsNormalization`. `cosR`/`sinR` stand for `Mathf.Cos`/`Mathf.Sin` of the rotation.

## Model

| member | source | states |
|---|---|---|
| ConvexRects.FromTopLeft | Assets/SATCollision.cs:402-411 | the stored size is the absolute value of the given size; the box spans x to x+abs(width) and y-abs(height) to y; the cached center is the box's middle |
| ConvexRects.FromCenterSize | Assets/SATCollision.cs:413-421 | the cached center stays (0, 0); the stored size is the absolute size; the box's middle is c shifted by half the sign correction, and equals c exactly when the size is non-negative |
| ConvexRects.ZeroRect | Assets/SATCollision.cs:393-398 | the zero rectangle has all four corners at the origin and a consistent center |
| ConvexRects.CenterSizeRoundTrip | Assets/SATCollision.cs:413-428 | rebuilding a non-negative rectangle from its middle and size gives the same box with the center reset to (0, 0) |
| ConvexRects.ConstructorsAgreeExceptCenter | Assets/SATCollision.cs:402-421 | for a non-negative size the two constructors describe the same box; only the corner constructor records the center, and that center is the given one |
| ConvexRects.SetX | Assets/SATCollision.cs:149-159 | only x changes; the center is recomputed and, when it was consistent, moves by the change in x |
| ConvexRects.SetY | Assets/SATCollision.cs:169-179 | only y changes; the center is recomputed and, when it was consistent, moves by the change in y |
| ConvexRects.SetWidth | Assets/SATCollision.cs:189-199 | the width is stored as given, without abs; x stays put and the center is recomputed, moving by half the change when it was consistent |
| ConvexRects.SetHeight | Assets/SATCollision.cs:222-232 | the height is stored as given; y stays put and the center is recomputed, moving down by half the change when it was consistent |
| ConvexRects.SettersUndo | Assets/SATCollision.cs:149-232 | on a consistent rectangle, setting x, y, width or height and then setting the old value back restores the rectangle |
| ConvexRects.WidthFromCenter | Assets/SATCollision.cs:204-212 | the width changes around the cached center, which is not touched; the box's horizontal middle is that center, and consistency is preserved |
| ConvexRects.HeightFromCenter | Assets/SATCollision.cs:237-245 | the height changes around the cached center; the box's vertical middle is that center |
| ConvexRects.SetCenter | Assets/SATCollision.cs:255-269 | the center is stored exactly, the size does not change, and the box is re-centered on it |
| ConvexRects.SetCenterTranslatesCorners | Assets/SATCollision.cs:255-269 | setting the center translates every corner by the offset from the box's old middle to the new center |
| ConvexRects.SetOwnCenterIsIdentity | Assets/SATCollision.cs:255-269 | re-assigning a consistent rectangle its own center changes nothing |
| ConvexRects.ExtendBound | Assets/SATCollision.cs:437-444 | the cached center does not change; the new size is abs(size + amount); the box is re-centered on the cached center |
| ConvexRects.ExtendBoundUndo | Assets/SATCollision.cs:437-444 | extending a consistent non-negative box by an amount, then by its negation, restores it while the grown size stays non-negative |
| ConvexRects.AllCorners | Assets/SATCollision.cs:276-289 | four corners, each one inside the rectangle's own inclusive point test |
| ConvexRects.CornersClockwise | Assets/SATCollision.cs:273-289 | with a positive size the corners TL, TR, BR, BL turn right at every corner, so they run clockwise |
| ConvexRects.XMin | Assets/SATCollision.cs:343-357 | xMin <= xMax whatever the sign of the width, and they differ by abs(width) |
| ConvexRects.YMin | Assets/SATCollision.cs:359-373 | yMin <= yMax whatever the sign of the height, and they differ by abs(height) |
| ConvexRects.MinCorner | Assets/SATCollision.cs:375-389 | minCorner is contained and lies below and left of maxCorner |
| ConvexRects.MaxCorner | Assets/SATCollision.cs:383-389 | maxCorner is contained |
| ConvexRects.ContainPoint2D | Assets/SATCollision.cs:573-580 | inclusive on all four sides: a point is in exactly when each coordinate lies between the two edges the record describes |
| ConvexRects.CalculatedCenter | Assets/SATCollision.cs:425-428 | the computed center lies midway between the left and right edges and midway between the top and bottom edges |
| ConvexRects.Normals | Assets/SATCollision.cs:316-341 | four normals, one per edge; their values are stated by NormalsExplicit and NormalsNormalize below |
| ConvexRects.RawNormalsPerpendicular | Assets/SATCollision.cs:316-341 | each raw normal (-v.y, v.x) is perpendicular to its edge, the last one to the wrap-around edge |
| ConvexRects.NormalsNormalize | Assets/SATCollision.cs:316-341 | each normal is the normalisation of the matching raw normal |
| ConvexRects.NormalsExplicit | Assets/SATCollision.cs:316-341 | the normals are (0, sign w), (sign h, 0), (0, -sign w), (-sign h, 0): zero for a zero-length side |
| ConvexRects.RawNormalsScaleNormals | Assets/SATCollision.cs:316-341 | each raw normal is its unit normal scaled by the edge length |
| ConvexRects.NormalsPointOutward | Assets/SATCollision.cs:316-341 | with a positive size each normal points away from the center, on its own edge's side |
| ConvexRects.VectorNormal | Assets/SATCollision.cs:57-63 | the result is the normalisation of (-v.y, v.x) for the left hand and of (v.y, -v.x) for the right; when that normalisation is ideal and v is non-zero, it is a unit vector orthogonal to v |
| ConvexRects.UnitPerpendicular | Assets/SATCollision.cs:57-60 | the normalisation of the left-hand perpendicular (-v.y, v.x) of a non-zero vector has length 1 and is orthogonal to v |
| ConvexRects.RightUnitPerpendicular | Assets/SATCollision.cs:61-62 | the normalisation of the right-hand perpendicular (v.y, -v.x) of a non-zero vector has length 1 and is orthogonal to v |
| ConvexRects.VectorNormalIsUnitPerpendicular | Assets/SATCollision.cs:57-63 | for a non-zero vector and a normalising `unit`, the left-hand normal is a unit vector orthogonal to it and the right-hand normal is its negation |
| ConvexCircles.ContainPoint2D | Assets/SATCollision.cs:783-795 | inclusive square test: each coordinate within the radius of the center's |
| ConvexCircles.DiscInsideSquare | Assets/SATCollision.cs:783-795 | every point of the disc passes the point test |
| ConvexCircles.SquareCornerOutsideDisc | Assets/SATCollision.cs:783-795 | the corner of the bounding square passes the point test but lies outside the disc |
| NodeBounds.FromTopLeft | Assets/NodeBound.cs:276-282 | rotation 0 and the ConvexRect box of that corner and size, but with the center left at (0, 0) |
| NodeBounds.FromCenterSize | Assets/NodeBound.cs:284-290 | rotation 0 and the same record as the ConvexRect (center, size) constructor |
| NodeBounds.ZeroBound | Assets/NodeBound.cs:269-274 | rotation 0 and the ConvexRect zero box |
| NodeBounds.ContainPoint2D | Assets/NodeBound.cs:311-318 | inclusive on all four sides: x lies between x and x+width and y between y-height and y, in either order, so a negative stored size is handled |
| NodeBounds.ContainPointIgnoresRotation | Assets/NodeBound.cs:311-318 | changing the rotation does not change the point test: the box is tested unrotated |
| NodeBounds.AllCorners | Assets/NodeBound.cs:162-199 | corner i is the i-th unrotated corner (TL, TR, BR, BL) minus the cached center, rotated, and not moved back; at cos 1, sin 0 that is a plain shift by the cached center; with a consistent center, opposite corners are negations of each other, so the box is centered on the origin |
| NodeBounds.ConstructedCornersAreUnshifted | Assets/NodeBound.cs:162-199 | on a bound built by any of the three constructors, at rotation 0, AllCorners returns the box's own corners, because the center was never computed |
| NodeBounds.UnshiftedAtOrigin | Assets/NodeBound.cs:162-199 | with the cached center at (0, 0), the corners at rotation 0 are the box's own |
| NodeBounds.RotationKeepsLength | Assets/NodeBound.cs:181-182 | with cos^2 + sin^2 = 1 the rotation keeps the squared length |
| NodeBounds.CornersKeepDistance | Assets/NodeBound.cs:162-199 | under a proper rotation each returned corner is as far from the origin as the unrotated corner is from the cached center |
| NodeBounds.SetX | Assets/NodeBound.cs:35-45 | x takes the value and nothing else but the center changes; the center is recomputed; the rotation is kept |
| NodeBounds.SetY | Assets/NodeBound.cs:55-65 | y takes the value, only the center follows, the rotation is kept |
| NodeBounds.SetWidth | Assets/NodeBound.cs:75-85 | the width is stored as given, without abs; only the center follows |
| NodeBounds.WidthFromCenter | Assets/NodeBound.cs:90-98 | only width and x change, so the cached center is untouched and is the box's horizontal middle |
| NodeBounds.SetHeight | Assets/NodeBound.cs:108-118 | the height is stored as given, without abs; only the center follows |
| NodeBounds.HeightFromCenter | Assets/NodeBound.cs:123-131 | only height and y change; the cached center is the box's vertical middle |
| NodeBounds.SetCenter | Assets/NodeBound.cs:141-155 | the center is stored exactly; only x and y move, the size is fixed, and the box is centered on it |
| NodeBounds.ExtendBound | Assets/NodeBound.cs:302-309 | the center is kept, the size becomes abs(size + amount), and the box is centered on the kept center |
| NodeBounds.BoundsOrdered | Assets/NodeBound.cs:204-267 | xMin <= xMax and yMin <= yMax whatever the stored size; the four corner getters and minCorner/maxCorner pass the point test |
| SatCollision.RectContactWithRectangle | Assets/SATCollision.cs:448-514 | None exactly when one of self's four normals separates the corner projections; Fit exactly when none does and other contains all of self's corners; Overlap otherwise |
| SatCollision.SeparatedFrom | Assets/SATCollision.cs:458-488 | the normal loop with its break finds a gap exactly when some remaining normal separates |
| SatCollision.CornersInsideFrom | Assets/SATCollision.cs:493-504 | the corner loop with its break succeeds exactly when every remaining corner is contained |
| SatCollision.ClosestCorner | Assets/SATCollision.cs:650-660 | the chosen corner is a nearest one to the circle's center, and the first nearest one, because only a strictly closer corner replaces it |
| SatCollision.CornerRange | Assets/SATCollision.cs:664-671 | with both accumulators starting at 0, the range is the corners' projection widened to include 0 |
| SatCollision.CircleContactWithRectangle | Assets/SATCollision.cs:635-745 | None exactly when the corner axis or one of the rectangle's normals separates; Fit exactly when neither does and the inside test passes on all four normals |
| SatCollision.EdgeSeparatedFrom | Assets/SATCollision.cs:700-731 | the normal loop's break fires exactly when some remaining normal separates |
| SatCollision.InsideFrom | Assets/SATCollision.cs:722-731 | the inside accumulator holds exactly when the inside test passes on every remaining normal |
| SatCollision.RectContactWithCircle | Assets/SATCollision.cs:516-564 | None exactly when the circle's test says None; Fit exactly when the circle's test says Overlap and every corner passes its corner-axis check; otherwise Overlap, so the circle's Fit becomes Overlap |
| SatCollision.CornersInCircleFrom | Assets/SATCollision.cs:533-555 | the corner loop with its early return succeeds exactly when every remaining corner passes |
| SatCollision.CircleContactWithCircle | Assets/SATCollision.cs:747-776 | on the axis through both centers, None exactly when the two projected intervals are disjoint; Fit exactly when they meet and self's interval lies strictly inside other's, which only a strictly smaller radius allows |
| SatCollision.IntersectWithShape | Assets/SATCollision.cs:86-113 | an unknown shape gives None; each known pair goes to its pair test |
| CollisionProperties.RectContactNoneIffSomeGap | Assets/SATCollision.cs:458-488 | None exactly when one of the four normals separates |
| CollisionProperties.RawGapIffGap | Assets/SATCollision.cs:316-341 | projecting on a raw, unnormalised edge normal finds a gap exactly when the unit normal does, so normalising does not change the rectangle test |
| CollisionProperties.RectGapVertical | Assets/SATCollision.cs:316-341 | normals 0 and 2 separate exactly when self has non-zero width and the y ranges do not meet |
| CollisionProperties.RectGapHorizontal | Assets/SATCollision.cs:316-341 | normals 1 and 3 separate exactly when self has non-zero height and the x ranges do not meet |
| CollisionProperties.RectRectNoneIffApart | Assets/SATCollision.cs:448-514 | None exactly when the boxes are apart in y and self has width, or apart in x and self has height |
| CollisionProperties.CornersInsideIffBoxInside | Assets/SATCollision.cs:493-504 | other contains all four corners of self exactly when self's box lies within other's |
| CollisionProperties.RectRectFitIffBoxInside | Assets/SATCollision.cs:448-514 | Fit exactly when the test sees no gap and self's box lies within other's |
| CollisionProperties.RectRectNoneSymmetric | Assets/SATCollision.cs:448-514 | between rectangles whose sides have non-zero length, None does not depend on which one receives the call |
| CollisionProperties.ZeroWidthMissesYGap | Assets/SATCollision.cs:316-341 | a zero-width rectangle apart from a box in y only reports Overlap, while the box reports None |
| CollisionProperties.NestedRectsAnswerAsymmetrically | Assets/SATCollision.cs:493-510 | when self's box lies within other's and the boxes differ, self reports Fit and other reports Overlap |
| CollisionProperties.NestedSquaresExample | Assets/SATCollision.cs:448-514 | a 2 by 2 square inside a 4 by 4 square answers Fit; the large square answers Overlap |
| CollisionProperties.RectRectNoneSound | Assets/SATCollision.cs:448-514 | rectangles sharing a point are never reported apart |
| CircleProperties.CircleRectNoneSound | Assets/SATCollision.cs:635-745 | a disc and a box sharing a point are never reported apart, given the corner axis is normalised |
| CircleProperties.CornerRangeHidesGap | Assets/SATCollision.cs:664-680 | a circle just beyond the bottom-left corner, centered at non-negative coordinates, shares no point with the box and is apart from the corners on the corner axis, yet the test answers Overlap, because the range it compares starts at 0 |
| CircleProperties.CornerRangeHidesGapExample | Assets/SATCollision.cs:664-680 | the box at (10, 10) of size 2 by 3 and the circle of radius 0.9 at (9.4, 6.2) share no point, yet the test answers Overlap |
| CircleProperties.CenterInBoxNotApart | Assets/SATCollision.cs:635-745 | a circle whose center lies in the box is never reported apart, whatever the corner axis |
| CircleProperties.InsideOnVerticalNormals | Assets/SATCollision.cs:724-731 | the inside test passes on normals 0 and 2 exactly when the box has width and the circle lies strictly between its top and bottom |
| CircleProperties.InsideOnHorizontalNormals | Assets/SATCollision.cs:724-731 | the inside test passes on normals 1 and 3 exactly when the box has height and the circle lies strictly between its sides |
| CircleProperties.CircleRectFitIffInside | Assets/SATCollision.cs:635-745 | the circle fits exactly when its bounding square lies strictly inside the box |
| CircleProperties.CornerInCircleIffInDisc | Assets/SATCollision.cs:537-552 | with a normalised axis, a corner passes the corner check exactly when it lies in the disc |
| CircleProperties.RectCircleFitIffCornersInDisc | Assets/SATCollision.cs:516-564 | the rectangle fits the circle exactly when all four corners lie in the disc |
| CircleProperties.CircleCircleNoneIffApart | Assets/SATCollision.cs:747-776 | None exactly when the centers are further apart than the sum of the radii |
| CircleProperties.CircleCircleFitIffInside | Assets/SATCollision.cs:747-776 | Fit exactly when self is the smaller circle and its center is closer to the other's than the difference of the radii |
| CircleProperties.CircleCircleNoneSymmetric | Assets/SATCollision.cs:747-776 | None does not depend on which circle receives the call, whatever the signs of the radii |
| CircleProperties.NoneOnFlippedAxis | Assets/SATCollision.cs:747-768 | when the reverse call's center axis is the negated axis, both calls see the same gap |
| CircleProperties.CenterInOwnDisc | Assets/SATCollision.cs:625-631 | every stored circle, whatever the sign of its radius, contains its own center |
| CircleProperties.ConcentricOnZeroAxis | Assets/SATCollision.cs:747-776 | concentric circles, projected on the zero axis, are reported apart exactly when their radii sum to less than 0 |
| CircleProperties.NegativeRadiusNoneUnsound | Assets/SATCollision.cs:611-631 | the stored radius may be negative, and then None is unsound: concentric circles whose radii sum below 0 share their center yet are reported apart |
| CircleProperties.CircleCircleNoneSound | Assets/SATCollision.cs:747-776 | discs sharing a point are never reported apart |
| CircleProperties.NestedCirclesAnswerAsymmetrically | Assets/SATCollision.cs:747-776 | when self fits other, other overlaps self |
| ShapeProperties.IntersectNoneSound | Assets/SATCollision.cs:86-113 | through the dispatcher, shapes sharing a point are never reported apart |
| ShapeProperties.IntersectNoneSymmetric | Assets/SATCollision.cs:86-113 | through the dispatcher, between circles of any radius and rectangles whose sides have non-zero length, None does not depend on the order |

## Left out

- IEEE float rounding: coordinates are exact reals, an idealisation of the source's `float` arithmetic.
- `Vector2.normalized` and `Mathf.Sin`/`Mathf.Cos` are foreign calls. They are parameters (`unit`, `cosR`, `sinR`), and the lemmas assume only the properties they need.
- The rotation angle's conversion to radians is part of the `Mathf` calls and is not modelled.
- `Debug.LogError` under `#if DEBUG` in the dispatcher is left out. It is a logging side effect; the returned value is modelled.
- The dispatcher's failed down-cast, a shape whose id says Rectangle or Circle but whose class differs, cannot arise here. The shape id is the datatype's constructor.
- The receiver is never `Unknow`: only rectangles and circles exist, and both set their id in the constructor.
- `ConvexRect.ContactWIthCircle` calls `otherCircle.IntersectWithShape(this)`. The model calls `CircleContactWithRectangle` directly, which is what the dispatcher returns for that pair.
- The circle's `Center`/`Radius` setters and `NodeBound.RotationDegree` are plain property writes. They are datatype updates and need no member.
- The `size` getter (`ConvexRects.Size`) and the four single-corner getters are plain reads. They appear only through the members that use them.
- The frame-loop demo scripts (`Start`/`Update`, logging, gizmo drawing) are not part of this model.
- CollisionProperties.RectRectNoneIffApart: describes rectangles as axis-aligned boxes. The general Separating-Axis claim for arbitrary convex polygons is not stated, because the code has only axis-aligned rectangles.
- CircleProperties.CircleRectNoneSound: states only soundness of None. The converse is false, not merely unproved: `rMin`/`rMax` start at 0, so the corner range can cover a real gap on the side facing the origin (`CircleProperties.CornerRangeHidesGap`).
- ConvexRects.Normals: its own contract states only that there are four normals. Their closed form and the fact that they are normalisations are the lemmas `ConvexRects.NormalsExplicit` and `ConvexRects.NormalsNormalize`, which keep the heavier facts out of every use of the function.
- `Vector2.kEpsilon`: Unity's `normalized` returns the zero vector for any vector whose length is at most 1e-5, not only for the zero vector. The model returns a unit vector for every non-zero vector. So a rectangle with 0 < abs(width) or abs(height) <= 1e-5 has a zero normal in the source but a unit normal here, and the order dependence of `CollisionProperties.ZeroWidthMissesYGap` reaches such rectangles too. In the same way, two circles whose centers are closer than 1e-5 get a zero center axis in the source.
- Non-negative radius: the constructor and the `Radius` setter store any radius, but a negative one makes the circle's projected interval empty and the tests lose their meaning (`CircleProperties.NegativeRadiusNoneUnsound`). So these lemmas assume `radius >= 0`: CircleRectNoneSound, CenterInBoxNotApart, the InsideOn* lemmas, CircleRectFitIffInside, CornerInCircleIffInDisc, RectCircleFitIffCornersInDisc, CircleCircleNoneIffApart, CircleCircleFitIffInside, CircleCircleNoneSound, NestedCirclesAnswerAsymmetrically (all in `CircleProperties`) and `ShapeProperties.IntersectNoneSound`.
- ShapeProperties.IntersectNoneSymmetric: excludes rectangles with a zero-length side, for which the symmetry fails (`CollisionProperties.ZeroWidthMissesYGap`).
