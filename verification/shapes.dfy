/** The abstract Shape: every figure has a centre, a perimeter and an area,
    and can be translated to a new centre and scaled about its centre. */
module Shapes {
  import opened Reals
  import opened Points
  import Ellipses
  import Rectangles
  import Triangles

  /** The three families that implement Shape: Ellipse (with Circle),
      Rectangle (with Square) and Triangle. */
  datatype Shape =
    | EllipseShape(e: Ellipses.Ellipse)
    | RectangleShape(r: Rectangles.Rectangle)
    | TriangleShape(t: Triangles.Triangle)

  /** What each family's constructors establish. */
  predicate Valid(s: Shape)
  {
    match s
    case EllipseShape(e) => Ellipses.Valid(e)
    case RectangleShape(r) => Rectangles.Valid(r)
    case TriangleShape(_) => true
  }

  /** perimeter is defined unless the shape is an Ellipse collapsed to a
      point, where its approximation divides by zero. */
  predicate HasPerimeter(sqrt: real -> real, s: Shape)
    requires IsSqrt(sqrt) && Valid(s)
  {
    s.EllipseShape? && s.e.Ellipse? ==> !Ellipses.Degenerate(sqrt, s.e)
  }

  /** center(): the midpoint of the foci or of the centre line, and the
      centroid of a triangle. */
  function Center(s: Shape): (c: Point)
    ensures s.EllipseShape? ==> Subtract(s.e.A, c) == Subtract(c, s.e.B)
    ensures s.RectangleShape? ==> Subtract(s.r.A, c) == Subtract(c, s.r.B)
    ensures s.TriangleShape? ==>
      Add(Add(Subtract(s.t.A, c), Subtract(s.t.B, c)), Subtract(s.t.C, c)) == Origin
  {
    match s
    case EllipseShape(e) => Ellipses.Center(e)
    case RectangleShape(r) => Rectangles.Center(r)
    case TriangleShape(t) => Triangles.Center(t)
  }

  /** perimeter(): never negative, except for a Rectangle whose width is. */
  function Perimeter(sqrt: real -> real, s: Shape): (p: real)
    requires IsSqrt(sqrt) && Valid(s) && HasPerimeter(sqrt, s)
    ensures (s.RectangleShape? ==> 0.0 <= s.r.a) ==> 0.0 <= p
  {
    match s
    case EllipseShape(e) => Ellipses.Perimeter(sqrt, e)
    case RectangleShape(r) => Rectangles.Perimeter(sqrt, r)
    case TriangleShape(t) => Triangles.Perimeter(sqrt, t)
  }

  /** area(): never negative, except for a Rectangle whose width is. */
  function Area(sqrt: real -> real, s: Shape): (a: real)
    requires IsSqrt(sqrt) && Valid(s)
    ensures (s.RectangleShape? ==> 0.0 <= s.r.a) ==> 0.0 <= a
  {
    match s
    case EllipseShape(e) => Ellipses.Area(sqrt, e)
    case RectangleShape(r) => Rectangles.Area(sqrt, r)
    case TriangleShape(t) => Triangles.Area(sqrt, t)
  }

  /** translate(newCenter): afterwards the shape's centre is newCenter. */
  function Translate(s: Shape, newCenter: Point): (r: Shape)
    ensures Center(r) == newCenter
    ensures Valid(s) ==> Valid(r)
  {
    match s
    case EllipseShape(e) => EllipseShape(Ellipses.Translate(e, newCenter))
    case RectangleShape(q) => RectangleShape(Rectangles.Translate(q, newCenter))
    case TriangleShape(t) => TriangleShape(Triangles.Translate(t, newCenter))
  }

  /** scale(coefficient): the centre stays where it is. */
  function Scale(s: Shape, k: real): (r: Shape)
    ensures Center(r) == Center(s)
    ensures Valid(s) ==> Valid(r)
  {
    match s
    case EllipseShape(e) => EllipseShape(Ellipses.Scale(e, k))
    case RectangleShape(q) => RectangleShape(Rectangles.Scale(q, k))
    case TriangleShape(t) => TriangleShape(Triangles.Scale(t, k))
  }

  /** Translating any shape to the centre it already has changes nothing. */
  lemma TranslateToOwnCenter(s: Shape)
    ensures Translate(s, Center(s)) == s
  {
    match s
    case EllipseShape(e) => Ellipses.TranslateToOwnCenter(e);
    case RectangleShape(r) => Rectangles.TranslateToOwnCenter(r);
    case TriangleShape(t) => Triangles.TranslateToOwnCenter(t);
  }

  /** Translation keeps the area of every shape. */
  lemma TranslateKeepsArea(sqrt: real -> real, s: Shape, newCenter: Point)
    requires IsSqrt(sqrt) && Valid(s)
    ensures Area(sqrt, Translate(s, newCenter)) == Area(sqrt, s)
  {
    match s
    case EllipseShape(e) => Ellipses.TranslateKeepsMeasures(sqrt, e, newCenter);
    case RectangleShape(r) => Rectangles.TranslateKeepsMeasures(sqrt, r, newCenter);
    case TriangleShape(t) => Triangles.TranslateKeepsMeasures(sqrt, t, newCenter);
  }

  /** Translation keeps whether the perimeter is defined, and its value. */
  lemma TranslateKeepsPerimeter(sqrt: real -> real, s: Shape, newCenter: Point)
    requires IsSqrt(sqrt) && Valid(s)
    ensures HasPerimeter(sqrt, Translate(s, newCenter)) == HasPerimeter(sqrt, s)
    ensures HasPerimeter(sqrt, s) ==> Perimeter(sqrt, Translate(s, newCenter)) == Perimeter(sqrt, s)
  {
    match s
    case EllipseShape(e) => Ellipses.TranslateKeepsMeasures(sqrt, e, newCenter);
    case RectangleShape(r) => Rectangles.TranslateKeepsMeasures(sqrt, r, newCenter);
    case TriangleShape(t) => Triangles.TranslateKeepsMeasures(sqrt, t, newCenter);
  }

  /** Scaling by k multiplies the area of every shape by k^2. */
  lemma ScaleArea(sqrt: real -> real, s: Shape, k: real)
    requires IsSqrt(sqrt) && Valid(s)
    ensures Area(sqrt, Scale(s, k)) == k * k * Area(sqrt, s)
  {
    FamilyScaleArea(sqrt, s, k);
  }

  /** ScaleArea, as the proportion each family establishes. */
  lemma FamilyScaleArea(sqrt: real -> real, s: Shape, k: real)
    requires IsSqrt(sqrt) && Valid(s)
    ensures ScaledBy(Area(sqrt, Scale(s, k)), Area(sqrt, s), k * k)
  {
    match s
    case EllipseShape(e) => Ellipses.ScaleArea(sqrt, e, k);
    case RectangleShape(r) => Rectangles.ScaleArea(sqrt, r, k);
    case TriangleShape(t) => Triangles.ScaleArea(sqrt, t, k);
  }

  /** Scaling by k multiplies the perimeter of every shape by |k|; an
      Ellipse must not be collapsed, so k is non-zero for it. */
  lemma ScalePerimeter(sqrt: real -> real, s: Shape, k: real)
    requires IsSqrt(sqrt) && Valid(s) && HasPerimeter(sqrt, s)
    requires s.EllipseShape? && s.e.Ellipse? ==> k != 0.0
    ensures HasPerimeter(sqrt, Scale(s, k))
    ensures Perimeter(sqrt, Scale(s, k)) == Abs(k) * Perimeter(sqrt, s)
  {
    FamilyScalePerimeter(sqrt, s, k);
  }

  /** ScalePerimeter, as the proportion each family establishes. */
  lemma FamilyScalePerimeter(sqrt: real -> real, s: Shape, k: real)
    requires IsSqrt(sqrt) && Valid(s) && HasPerimeter(sqrt, s)
    requires s.EllipseShape? && s.e.Ellipse? ==> k != 0.0
    ensures HasPerimeter(sqrt, Scale(s, k))
    ensures ScaledBy(Perimeter(sqrt, Scale(s, k)), Perimeter(sqrt, s), Abs(k))
  {
    match s
    case EllipseShape(e) => Ellipses.ScalePerimeter(sqrt, e, k);
    case RectangleShape(r) => Rectangles.ScalePerimeter(sqrt, r, k);
    case TriangleShape(t) => Triangles.ScalePerimeter(sqrt, t, k);
  }

  /** Scaling by k and then by 1/k gives every shape back. */
  lemma ScaleRoundTrip(s: Shape, k: real)
    requires Valid(s) && k != 0.0
    ensures Scale(Scale(s, k), 1.0 / k) == s
  {
    match s
    case EllipseShape(e) => Ellipses.ScaleRoundTrip(e, k);
    case RectangleShape(r) => Rectangles.ScaleRoundTrip(r, k);
    case TriangleShape(t) => Triangles.ScaleRoundTrip(t, k);
  }
}
