# Shapes: a verified model of a planar geometry library

The library represents five kinds of planar figure: ellipse, circle,
rectangle, square and triangle. Each one answers the same questions:
its centre, its perimeter and its area. Each can be translated so that
its centre lands on a given point, and scaled about its centre by a
coefficient. Some kinds answer more:

- an ellipse: its foci, focal distance, semi-axes and eccentricity;
- a square: its side and its inscribed and circumscribed circles;
- a triangle: its vertices and its circumscribed circle.

The Dafny project models these operations as pure functions over
immutable values and proves what they promise. Examples of what is
proved:

- translating moves the centre to the requested point and keeps every
  measure;
- scaling keeps the centre and multiplies perimeters by |k| and areas
  by k²;
- a circle is the round case of the ellipse formulas;
- Heron's formula gives half the absolute cross product of two edges;
- the circumscribed circle passes through all three vertices.

Modules, one per file:

- `Reals` (`reals.dfy`): absolute value, the constant π, and what the
  model assumes of a square root. It also holds the facts about roots
  that the other modules use.
- `Options` and `Points` (`points.dfy`): `Point` and its use as a
  `Vector2`, with add, subtract, multiply, divide, midpoint, length,
  distance, scalar and vector products, and scaling about a centre.
- `Ellipses` (`ellipses.dfy`): `Ellipse` and `Circle` are two
  constructors of one datatype. They share the stored fields: the foci A
  and B, and `per`, the gap between a focus and the nearer vertex.
- `Rectangles` (`rectangles.dfy`): `Rectangle` and `Square` are two
  constructors of one datatype. The stored fields are the centre line
  A–B and the width `a`.
- `Triangles` (`triangles.dfy`): the centroid, Heron's area, and the
  circumcentre. The circumcentre comes in two versions: the source's
  elimination as written, and a corrected one.
- `Shapes` (`shapes.dfy`): the abstract `Shape` as a sum of the three
  families, with uniform dispatch. The translate and scale laws are
  proved once for every shape.

`Math.sqrt` is a parameter `sqrt: real -> real`. Every operation that
takes a root requires `IsSqrt(sqrt)`: for every `x >= 0`, `sqrt(x)` is
non-negative and squares to `x`. Nothing about roots is assumed beyond
that; the uniqueness of non-negative roots is a proved lemma.

`Math.PI` is the real 3.141592653589793, the shortest decimal that reads
back as the Java double. The double itself is 3.141592653589793115997963…,
so the two differ in the seventeenth digit.

`Math.pow(x, 2)` is written `x * x`.

Where a source operation mutates a shape, its model returns the new
value.

Behaviours of the code that a reader might not expect, which the model
keeps:

- A rectangle's width may be negative. The constructor stores `a`
  unchanged and `Rectangle.scale` multiplies it by `|k|`, which keeps its
  sign, so a negative width stays negative after scaling. The measures
  that depend on the width are stated non-negative only when it is.
- The eccentricity can be exactly 1. For an Ellipse with `per == 0` and
  distinct foci (flattened onto its focal segment), `eccentricity()`
  divides the focal distance by itself. `Ellipses.Eccentricity` states
  that the value is below 1 exactly when `per > 0`.
- Nothing checks that a rectangle's centre-line endpoints A and B differ.
  No rectangle operation in the model needs them to.

## Model

| member | source | states |
|---|---|---|
| Reals.Abs | shapes/src/main/java/edu/phystech/shapes/Shape.java:133 | Math.abs is non-negative and equal to x or -x |
| Points.Add | shapes/src/main/java/edu/phystech/shapes/Shape.java:22-24 | subtracting q from p + q gives back p |
| Points.Devide | shapes/src/main/java/edu/phystech/shapes/Shape.java:38-40 | for a non-zero divisor, multiplying the quotient back by it restores the point |
| Points.Midpoint | shapes/src/main/java/edu/phystech/shapes/Shape.java:68-70 | Point.center is as far from a as b is from it (a - c == c - b) |
| Points.Between | shapes/src/main/java/edu/phystech/shapes/Shape.java:86-88 | Vector2(bp, ep) is the vector that carries bp onto ep |
| Points.SquaredDistance | shapes/src/main/java/edu/phystech/shapes/Shape.java:72-74 | the radicand of distance is never negative |
| Points.Length | shapes/src/main/java/edu/phystech/shapes/Shape.java:30-32 | length is non-negative and squares to the vector's scalar product with itself |
| Points.Distance | shapes/src/main/java/edu/phystech/shapes/Shape.java:72-74 | distance is non-negative and squares to the sum of the squared coordinate differences |
| Points.MultiplyDevideRoundTrip | shapes/src/main/java/edu/phystech/shapes/Shape.java:34-40 | dividing by a non-zero m undoes multiplying by m |
| Points.Polarization | shapes/src/main/java/edu/phystech/shapes/Shape.java:98-100 | four times scalarProduct(a, b) is the squared distance from a to -b less the squared distance from a to b |
| Points.QuarterTurn | shapes/src/main/java/edu/phystech/shapes/Shape.java:102-104 | vectorProduct(a, b) is the scalarProduct of a turned a quarter turn counter-clockwise with b |
| Points.AddSubtractRoundTrip | shapes/src/main/java/edu/phystech/shapes/Shape.java:22-28 | add and subtract undo each other, in both orders |
| Points.MidpointSymmetric | shapes/src/main/java/edu/phystech/shapes/Shape.java:68-70 | center(a, b) == center(b, a) and center(a, a) == a |
| Points.DistanceIsLength | shapes/src/main/java/edu/phystech/shapes/Shape.java:72-74 | distance(a, b) is the length of a - b and is symmetric in a and b |
| Points.DistanceToSelf | shapes/src/main/java/edu/phystech/shapes/Shape.java:72-74 | a point is at distance 0 from itself |
| Points.SameDifferenceSameDistance | shapes/src/main/java/edu/phystech/shapes/Shape.java:72-74 | two pairs of points with the same difference vector are equally far apart |
| Points.ScaleAboutDifference | shapes/src/main/java/edu/phystech/shapes/Shape.java:180-181 | the subtract-multiply-add step multiplies every difference of two scaled points, and the offset from the centre, by k |
| Points.ScaleAboutDistance | shapes/src/main/java/edu/phystech/shapes/Shape.java:180-181 | the scaling step multiplies the distance between any two points by abs(k) |
| Points.ScaleAboutInverse | shapes/src/main/java/edu/phystech/shapes/Shape.java:180-181 | scaling by 1/k about the same centre undoes scaling by k |
| Points.ScaleAboutMidpoint | shapes/src/main/java/edu/phystech/shapes/Shape.java:179-181 | scaling two points about their midpoint leaves that midpoint in place |
| Points.Lagrange | shapes/src/main/java/edu/phystech/shapes/Shape.java:98-104 | scalarProduct² + vectorProduct² equals the product of the squared lengths |
| Points.ProductSymmetries | shapes/src/main/java/edu/phystech/shapes/Shape.java:98-104 | vectorProduct is antisymmetric and zero on equal vectors; scalarProduct is symmetric |
| Ellipses.NewEllipse | shapes/src/main/java/edu/phystech/shapes/Shape.java:130-134 | the constructor keeps both foci and stores the magnitude of per, so the result is valid |
| Ellipses.NewCircle | shapes/src/main/java/edu/phystech/shapes/Shape.java:212-214 | a circle has both foci at C, so its centre is C; its per is the magnitude of the radius |
| Ellipses.Center | shapes/src/main/java/edu/phystech/shapes/Shape.java:136-139 | the centre is as far from focus A as focus B is from it (A - c == c - B) |
| Ellipses.Focuses | shapes/src/main/java/edu/phystech/shapes/Shape.java:185-190 | exactly the two foci A and B, in that order, whose midpoint is the centre; both are the centre for a circle |
| Ellipses.FocalDistance | shapes/src/main/java/edu/phystech/shapes/Shape.java:192-194 | non-negative, and four times its square is the squared distance between the foci (0 for a circle) |
| Ellipses.MajorSemiAxis | shapes/src/main/java/edu/phystech/shapes/Shape.java:196-198 | at least per, and exceeds per by exactly the focal distance |
| Ellipses.MinorRadicand | shapes/src/main/java/edu/phystech/shapes/Shape.java:200-204 | the radicand is per·(dist + per) >= 0, which is the squared major semi-axis less the squared focal half-distance |
| Ellipses.SemiMinor | shapes/src/main/java/edu/phystech/shapes/Shape.java:200-204 | the root is non-negative and satisfies b² = a² - f² |
| Ellipses.MinorSemiAxis | shapes/src/main/java/edu/phystech/shapes/Shape.java:200-204 | non-negative, and b² = a² - f² in terms of majorSemiAxis and focalDistance, circle override included |
| Ellipses.SemiAxes | shapes/src/main/java/edu/phystech/shapes/Shape.java:141-148 | get_a_b agrees with majorSemiAxis and minorSemiAxis, even for a Circle, whose overrides it bypasses |
| Ellipses.Area | shapes/src/main/java/edu/phystech/shapes/Shape.java:156-160 | non-negative, and π times the major and minor semi-axes for both kinds |
| Ellipses.Perimeter | shapes/src/main/java/edu/phystech/shapes/Shape.java:150-154 | non-negative; for both kinds, whenever the major semi-axis is non-zero, the approximation 4(πab + (a-b)²)/(a+b) of the two semi-axes; for a Circle of radius 0 (whose perimeter() at 241-244 is 2π·0) exactly 0 |
| Ellipses.PerimeterOfRoundAxes | shapes/src/main/java/edu/phystech/shapes/Shape.java:241-244 | the approximation at a = b = r is exactly the circle's 2πr |
| Ellipses.Eccentricity | shapes/src/main/java/edu/phystech/shapes/Shape.java:206-208 | lies in [0, 1]; times the major semi-axis it gives the focal distance; for an Ellipse below 1 exactly when per > 0; 0 for a Circle |
| Ellipses.Radius | shapes/src/main/java/edu/phystech/shapes/Shape.java:246-248 | a circle's radius is never negative |
| Ellipses.Translate | shapes/src/main/java/edu/phystech/shapes/Shape.java:162-168 | the centre lands on newCenter; the vector between the foci, per and the kind are kept |
| Ellipses.Scale | shapes/src/main/java/edu/phystech/shapes/Shape.java:177-183 | the centre stays; each focus's offset from it is multiplied by k; per becomes abs(k)·per |
| Ellipses.AxesOrdered | shapes/src/main/java/edu/phystech/shapes/Shape.java:192-204 | focal distance <= major semi-axis and minor semi-axis <= major semi-axis |
| Ellipses.CircleIsRoundEllipse | shapes/src/main/java/edu/phystech/shapes/Shape.java:211-248 | Circle(C, r) and Ellipse(C, C, r) agree on focal distance, semi-axes, area, and, for r != 0, on perimeter and eccentricity |
| Ellipses.TranslateToOwnCenter | shapes/src/main/java/edu/phystech/shapes/Shape.java:162-168 | translating to the current centre changes nothing |
| Ellipses.MeasuresOfShape | shapes/src/main/java/edu/phystech/shapes/Shape.java:141-160 | two ellipses of the same kind, per and focal distance have the same axes, area, degeneracy and perimeter |
| Ellipses.TranslateKeepsMeasures | shapes/src/main/java/edu/phystech/shapes/Shape.java:162-168 | translate keeps the focal distance, axes, area, degeneracy and perimeter |
| Ellipses.ScaleFocalDistance | shapes/src/main/java/edu/phystech/shapes/Shape.java:177-183 | scaling multiplies the distance between the foci and the focal distance by abs(k) |
| Ellipses.ScaleMajorSemiAxis | shapes/src/main/java/edu/phystech/shapes/Shape.java:177-183 | scaling multiplies the major semi-axis by abs(k) |
| Ellipses.ScaleMinorSemiAxis | shapes/src/main/java/edu/phystech/shapes/Shape.java:177-183 | scaling multiplies the minor semi-axis by abs(k) |
| Ellipses.ScaleArea | shapes/src/main/java/edu/phystech/shapes/Shape.java:177-183 | scaling multiplies the area by k² |
| Ellipses.ScalePerimeter | shapes/src/main/java/edu/phystech/shapes/Shape.java:177-183 | scaling a non-degenerate ellipse by k != 0 keeps it non-degenerate and multiplies its perimeter by abs(k) |
| Ellipses.ScaleRoundTrip | shapes/src/main/java/edu/phystech/shapes/Shape.java:177-183 | scaling by k and then by 1/k restores the ellipse |
| Rectangles.NewRectangle | shapes/src/main/java/edu/phystech/shapes/Shape.java:256-261 | the constructor keeps A, B and the width a as given, sign included |
| Rectangles.NewSquare | shapes/src/main/java/edu/phystech/shapes/Shape.java:331-333 | the square's width is the length of its centre line, so firstSide == secondSide |
| Rectangles.FirstSide | shapes/src/main/java/edu/phystech/shapes/Shape.java:280-282 | non-negative, squares to the squared length of A-B, and equals the width of a valid Square |
| Rectangles.SecondSide | shapes/src/main/java/edu/phystech/shapes/Shape.java:284-286 | for a valid Square, the side is non-negative and as long as the centre line |
| Rectangles.SquareSide | shapes/src/main/java/edu/phystech/shapes/Shape.java:331-333 | a valid Square's width is the distance between A and B |
| Rectangles.Size | shapes/src/main/java/edu/phystech/shapes/Shape.java:335-337 | size (and side) of a Square is non-negative and equals both firstSide and secondSide |
| Rectangles.Diagonal | shapes/src/main/java/edu/phystech/shapes/Shape.java:288-290 | non-negative, and its square is the sum of the squared sides (Pythagoras) |
| Rectangles.Center | shapes/src/main/java/edu/phystech/shapes/Shape.java:292-295 | the centre is as far from A as B is from it (A - c == c - B) |
| Rectangles.Perimeter | shapes/src/main/java/edu/phystech/shapes/Shape.java:297-300 | four times the side for a Square; non-negative when the width is |
| Rectangles.Area | shapes/src/main/java/edu/phystech/shapes/Shape.java:302-305 | squares to the product of the squared sides; the side squared for a Square; non-negative when the width is, and non-positive when the width is |
| Rectangles.Translate | shapes/src/main/java/edu/phystech/shapes/Shape.java:307-312 | the centre lands on newCenter; the centre-line vector, the width and the kind are kept |
| Rectangles.Scale | shapes/src/main/java/edu/phystech/shapes/Shape.java:321-327 | the centre stays; the offsets of A and B from it are multiplied by k; the width becomes a·abs(k), keeping its sign; squares stay valid |
| Rectangles.ScaleKeepsSquare | shapes/src/main/java/edu/phystech/shapes/Shape.java:321-327 | a scaled square's width is still the length of its scaled centre line |
| Rectangles.InscribedCircle | shapes/src/main/java/edu/phystech/shapes/Shape.java:343-345 | a valid circle about the square's centre whose diameter is the side |
| Rectangles.CircumscribedCircle | shapes/src/main/java/edu/phystech/shapes/Shape.java:339-341 | a valid circle about the square's centre with 2r² == a², that is r = a/√2 |
| Rectangles.InscribedCircleTouchesSides | shapes/src/main/java/edu/phystech/shapes/Shape.java:343-345 | the inscribed circle's diameter equals both firstSide and secondSide |
| Rectangles.CircumscribedCircleThroughCorners | shapes/src/main/java/edu/phystech/shapes/Shape.java:339-341 | the circumscribed circle's diameter is the square's diagonal |
| Rectangles.TranslateToOwnCenter | shapes/src/main/java/edu/phystech/shapes/Shape.java:307-312 | translating to the current centre changes nothing |
| Rectangles.TranslateKeepsMeasures | shapes/src/main/java/edu/phystech/shapes/Shape.java:307-312 | translate keeps both sides, the diagonal, the perimeter and the area |
| Rectangles.ScaleFirstSide | shapes/src/main/java/edu/phystech/shapes/Shape.java:321-327 | scaling multiplies firstSide by abs(k) |
| Rectangles.ScalePerimeter | shapes/src/main/java/edu/phystech/shapes/Shape.java:321-327 | scaling multiplies the perimeter by abs(k) |
| Rectangles.ScaleArea | shapes/src/main/java/edu/phystech/shapes/Shape.java:321-327 | scaling multiplies the area by k² |
| Rectangles.ScaleRoundTrip | shapes/src/main/java/edu/phystech/shapes/Shape.java:321-327 | scaling by k and then by 1/k restores the rectangle |
| Rectangles.RectangleExample | shapes/src/main/java/edu/phystech/shapes/Shape.java:280-305 | the rectangle on (0,0)-(4,0) with width 2 has sides 4 and 2, perimeter 12, area 8 and squared diagonal 20 |
| Rectangles.SquareExample | shapes/src/main/java/edu/phystech/shapes/Shape.java:330-345 | the square on (-1,0)-(1,0) has side 2, area 4, perimeter 8 and inscribed radius 1 |
| Triangles.Vertices | shapes/src/main/java/edu/phystech/shapes/Shape.java:363-371 | the list holds exactly A, B and C, in that order |
| Triangles.Center | shapes/src/main/java/edu/phystech/shapes/Shape.java:455-458 | the centroid: the vectors from it to the three vertices add up to zero |
| Triangles.Perimeter | shapes/src/main/java/edu/phystech/shapes/Shape.java:460-463 | non-negative, and no side is longer than half of it |
| Triangles.TriangleInequality | shapes/src/main/java/edu/phystech/shapes/Shape.java:72-74 | distance(a, b) <= distance(b, c) + distance(c, a) |
| Triangles.HeronRadicandIsCross | shapes/src/main/java/edu/phystech/shapes/Shape.java:465-471 | four times Heron's radicand, computed from the side lengths, is the squared vector product of two edges |
| Triangles.Heron | shapes/src/main/java/edu/phystech/shapes/Shape.java:465-472 | Heron's radicand is non-negative, and its root is half the absolute vector product |
| Triangles.Area | shapes/src/main/java/edu/phystech/shapes/Shape.java:465-472 | the area is non-negative and equals abs(cross(B-A, C-A))/2 |
| Triangles.Translate | shapes/src/main/java/edu/phystech/shapes/Shape.java:474-480 | the centroid lands on newCenter, and every vertex moves by the same vector |
| Triangles.Scale | shapes/src/main/java/edu/phystech/shapes/Shape.java:490-496 | the centroid stays, and each vertex's offset from it is multiplied by k |
| Triangles.ScaleEdges | shapes/src/main/java/edu/phystech/shapes/Shape.java:490-496 | scaling multiplies every edge vector by k |
| Triangles.LinesMeaning | shapes/src/main/java/edu/phystech/shapes/Shape.java:382-390 | (k1x, k1y, sh1) evaluated at P is 2·PA² - PB² - PC² (squared distances), and likewise the second line with B in A's role |
| Triangles.OnBothLines | shapes/src/main/java/edu/phystech/shapes/Shape.java:382-390 | a point lies on both lines exactly when it is equidistant from A, B and C |
| Triangles.DetOfTriangle | shapes/src/main/java/edu/phystech/shapes/Shape.java:382-390 | the determinant of the two lines is 12 times the vector product of the edges, zero exactly for a flat triangle |
| Triangles.Solve | shapes/src/main/java/edu/phystech/shapes/Shape.java:392-393 | a solution exists iff the determinant is non-zero, and then lies on both lines |
| Triangles.SolveUnique | shapes/src/main/java/edu/phystech/shapes/Shape.java:392-393 | with a non-zero determinant, any point on both lines is the one Solve returns |
| Triangles.SolveAsWritten | shapes/src/main/java/edu/phystech/shapes/Shape.java:392-393 | the elimination gives finite coordinates iff k2x != 0 and the determinant is non-zero, and then a point on both lines |
| Triangles.EliminationSolves | shapes/src/main/java/edu/phystech/shapes/Shape.java:392-393 | where neither divisor is zero, the eliminated (x, y) satisfies both equations |
| Triangles.CircumcenterAsWritten | shapes/src/main/java/edu/phystech/shapes/Shape.java:382-395 | intersection_midline_perpendiculars is finite iff k2x != 0 and the triangle is not flat, and is then equidistant from A, B and C |
| Triangles.Circumcenter | shapes/src/main/java/edu/phystech/shapes/Shape.java:382-395 | the circumcentre exists iff the triangle is not flat, and is then equidistant from A, B and C |
| Triangles.CircumcenterUnique | shapes/src/main/java/edu/phystech/shapes/Shape.java:382-395 | any point equidistant from the vertices of a non-flat triangle is its circumcentre |
| Triangles.AsWrittenAgrees | shapes/src/main/java/edu/phystech/shapes/Shape.java:382-395 | wherever the source's elimination is finite, it is the circumcentre |
| Triangles.AsWrittenFailsExactly | shapes/src/main/java/edu/phystech/shapes/Shape.java:387-393 | the elimination fails on a non-flat triangle exactly when A.x + C.x == 2 B.x |
| Triangles.AsWrittenMissesCircumcenter | shapes/src/main/java/edu/phystech/shapes/Shape.java:387-393 | on every translate of (0,0), (1,1), (2,0) the elimination divides by k2x == 0, although the circumcentre (the translate of (1, 0)) exists |
| Triangles.CircumscribedCircle | shapes/src/main/java/edu/phystech/shapes/Shape.java:397-400 | with the corrected circumcentre: a valid circle exists iff the triangle is not flat, and its radius is its distance to each of A, B and C |
| Triangles.CircumscribedCircleAsWritten | shapes/src/main/java/edu/phystech/shapes/Shape.java:382-400 | with the source's elimination: a circle exists iff k2x != 0 and the triangle is not flat, and is then the corrected circle |
| Triangles.AsWrittenMissesCircle | shapes/src/main/java/edu/phystech/shapes/Shape.java:387-400 | on every translate of (0,0), (1,1), (2,0) the source's circumscribedCircle has no finite centre, while the corrected one exists |
| Triangles.TranslateToOwnCenter | shapes/src/main/java/edu/phystech/shapes/Shape.java:474-480 | translating to the current centroid changes nothing |
| Triangles.TranslateKeepsMeasures | shapes/src/main/java/edu/phystech/shapes/Shape.java:474-480 | translate keeps the perimeter and the area |
| Triangles.ScaleCross | shapes/src/main/java/edu/phystech/shapes/Shape.java:490-496 | scaling multiplies the vector product of the edges by k² |
| Triangles.ScaleSides | shapes/src/main/java/edu/phystech/shapes/Shape.java:490-496 | scaling multiplies each side length by abs(k) |
| Triangles.ScaleArea | shapes/src/main/java/edu/phystech/shapes/Shape.java:490-496 | scaling multiplies the area by k² |
| Triangles.ScalePerimeter | shapes/src/main/java/edu/phystech/shapes/Shape.java:490-496 | scaling multiplies the perimeter by abs(k) |
| Triangles.ScaleRoundTrip | shapes/src/main/java/edu/phystech/shapes/Shape.java:490-496 | scaling by k and then by 1/k restores the triangle |
| Triangles.RightTrianglePerimeter | shapes/src/main/java/edu/phystech/shapes/Shape.java:460-463 | the triangle (0,0), (4,0), (0,3), wherever it is placed, has perimeter 12 |
| Triangles.RightTriangleArea | shapes/src/main/java/edu/phystech/shapes/Shape.java:465-472 | the triangle (0,0), (4,0), (0,3), wherever it is placed, has area 6 |
| Triangles.RightTriangleCircumcenter | shapes/src/main/java/edu/phystech/shapes/Shape.java:382-395 | the circumcentre of the triangle (0,0), (4,0), (0,3), wherever it is placed, is the midpoint (2, 1.5) of the hypotenuse |
| Shapes.Center | shapes/src/main/java/edu/phystech/shapes/Shape.java:112 | every shape's center() is the midpoint of the foci or of the centre line, or the centroid of the triangle |
| Shapes.Perimeter | shapes/src/main/java/edu/phystech/shapes/Shape.java:114 | every shape's perimeter() is non-negative, unless it is a Rectangle with a negative width |
| Shapes.Area | shapes/src/main/java/edu/phystech/shapes/Shape.java:116 | every shape's area() is non-negative, unless it is a Rectangle with a negative width |
| Shapes.Translate | shapes/src/main/java/edu/phystech/shapes/Shape.java:118 | every shape's translate puts its centre on newCenter and keeps it valid |
| Shapes.Scale | shapes/src/main/java/edu/phystech/shapes/Shape.java:122 | every shape's scale keeps its centre and keeps it valid |
| Shapes.TranslateToOwnCenter | shapes/src/main/java/edu/phystech/shapes/Shape.java:118 | translating any shape to its own centre changes nothing |
| Shapes.TranslateKeepsArea | shapes/src/main/java/edu/phystech/shapes/Shape.java:116-118 | for every shape, translate keeps the area |
| Shapes.TranslateKeepsPerimeter | shapes/src/main/java/edu/phystech/shapes/Shape.java:114-118 | for every shape, translate keeps whether the perimeter is defined, and the perimeter
| Shapes.ScaleArea | shapes/src/main/java/edu/phystech/shapes/Shape.java:116-122 | for every shape, scaling by k multiplies the area by k² |
| Shapes.ScalePerimeter | shapes/src/main/java/edu/phystech/shapes/Shape.java:114-122 | for every shape, scaling by k multiplies the perimeter by abs(k); an ellipse needs k != 0 to stay non-degenerate |
| Shapes.ScaleRoundTrip | shapes/src/main/java/edu/phystech/shapes/Shape.java:122 | for every shape, scaling by k and then by 1/k restores it |

## Left out

- Rotation is not modelled: `Point.rotate`, `Shape.rotate` and every override. These use `atan`, `cos` and `sin`, which have no exact real model here.
- `Rectangle.vertices` is not modelled, because it reconstructs the corners through `atan`, `sin` and `cos`.
- `Vector2.angle()`, `Vector2.angle(a, b)` and `Vector2.createVector2` are not modelled, because they use `atan`, `acos`, `cos` and `sin`.
- `Triangle.inscribedCircle` is not modelled. It is a chain of roots and ratios of roots.
- `Triangle.orthocenter` is not modelled. It needs `acos` through `Vector2.angle`.
- `Triangle.ninePointsCircle` is not modelled, because it is built on the orthocenter.
- `Point.set`, `x()` and `y()` are not modelled separately. Values are immutable, so a mutating operation returns the new value, and the accessors are the datatype's fields.
- Aliasing is not modelled. The constructors keep the caller's `Point` objects, and `Circle(C, r)` stores the same object as both A and B, so `Point.set` on a Point the caller kept changes the shape. The shapes' own translate and scale always assign fresh Points, so no modelled operation depends on it.
- The `Vector2(x, y)` and `Vector2(Point)` constructors are not modelled separately, because a `Vector2` is a `Point` here.
- IEEE double arithmetic is not modelled. Rounding, overflow, NaN and infinity are absent; all arithmetic is on exact reals.
- `Math.sqrt` is a parameter that is only known to be a non-negative square root.
- `Math.PI` is the shortest decimal that reads back as the double, not the double's exact value.
- Points.Devide: requires a non-zero divisor, where Java yields infinite or NaN coordinates.
- Ellipses.Perimeter: requires an Ellipse that is not collapsed to a point (foci equal and `per == 0`). Java's 0/0 yields NaN there. A Circle needs no such condition; one of radius 0 has perimeter 0.
- Ellipses.Eccentricity: requires the same non-degenerate Ellipse, because the division by a zero major semi-axis yields NaN.
- Shapes.Perimeter: requires `HasPerimeter`, the same condition for the ellipse case.
- Shapes.ScalePerimeter: requires k != 0 for an Ellipse. Scaling by 0 collapses the ellipse to a point, whose perimeter is NaN in Java.
- Triangles.Circumcenter: returns `None` for a flat triangle, where the source's arithmetic yields non-finite coordinates.
- Triangles.CircumscribedCircle: returns `None` for a flat triangle, for the same reason. It is built on the corrected `Triangles.Circumcenter`, so where A.x + C.x == 2 B.x on a non-flat triangle it returns a circle, while the source's `circumscribedCircle` gets a non-finite centre; `Triangles.CircumscribedCircleAsWritten` models the source's version.
- Triangles.SolveAsWritten: returns `None` where a divisor is zero, where the source's arithmetic yields non-finite coordinates.
- Triangles.CircumcenterAsWritten: returns `None` under the same condition.
- Triangles.RightTrianglePerimeter, Triangles.RightTriangleArea and Triangles.RightTriangleCircumcenter: are stated for every triangle whose edges leaving A are (4,0) and (0,3), which includes the literal triangle (0,0), (4,0), (0,3).
- Triangles.AsWrittenMissesCircumcenter and Triangles.AsWrittenMissesCircle: are stated for every translate of (0,0), (1,1), (2,0), which includes that literal triangle.

## Findings

| source | as written | input that shows it | evidently intended | confidence | as-written member | corrected member |
|---|---|---|---|---|---|---|
| shapes/src/main/java/edu/phystech/shapes/Shape.java:387-393 | intersection_midline_perpendiculars solves the second equation for x by dividing by k2x = 2(C.x + A.x - 2 B.x). On a non-flat triangle with A.x + C.x == 2 B.x, it divides by zero and the circumscribed circle gets a non-finite centre. | Triangle (0,0), (1,1), (2,0), or any translate of it: k2x == 0, but the circumcentre (1, 0) exists | the circumcentre of every non-flat triangle, e.g. by Cramer's rule on the same two lines, whose determinant is 12 times the edges' vector product | not executed | Triangles.CircumcenterAsWritten (shown by Triangles.AsWrittenMissesCircumcenter and Triangles.AsWrittenFailsExactly) | Triangles.Circumcenter (proved by Triangles.CircumcenterUnique; used by Triangles.CircumscribedCircle, whose as-written counterpart Triangles.CircumscribedCircleAsWritten fails on the same input, see Triangles.AsWrittenMissesCircle) |
