/** Rectangle and its subclass Square.

    A rectangle is stored as the two endpoints A and B of its centre line
    (the segment joining the midpoints of two opposite sides) and its width
    `a`, the length of the sides that cross that line.  The constructor
    keeps `a` as given, sign included.  A Square is a Rectangle whose width
    is the length of its centre line; it adds the side length accessors and
    its inscribed and circumscribed circles. */
module Rectangles {
  import opened Reals
  import opened Points
  import Ellipses

  datatype Rectangle =
    | Rectangle(A: Point, B: Point, a: real)
    | Square(A: Point, B: Point, a: real)

  /** What the Square constructor establishes and scale keeps: the width is
      the length of the centre line.  A Rectangle's width is unconstrained. */
  predicate Valid(r: Rectangle)
  {
    r.Square? ==> 0.0 <= r.a && r.a * r.a == SquaredDistance(r.A, r.B)
  }

  /** The Rectangle constructor: the centre line and the width, unchanged. */
  function NewRectangle(A: Point, B: Point, a: real): (r: Rectangle)
    ensures Valid(r) && r.Rectangle?
    ensures r.A == A && r.B == B && SecondSide(r) == a
  {
    Rectangle(A, B, a)
  }

  /** The Square constructor: the width is the length of the centre line. */
  function NewSquare(sqrt: real -> real, A: Point, B: Point): (r: Rectangle)
    requires IsSqrt(sqrt)
    ensures Valid(r) && r.Square?
    ensures r.A == A && r.B == B
    ensures FirstSide(sqrt, r) == SecondSide(r)
  {
    Square(A, B, Distance(sqrt, A, B))
  }

  /** firstSide: the length of the centre line; for a Square it is the width. */
  function FirstSide(sqrt: real -> real, r: Rectangle): (f: real)
    requires IsSqrt(sqrt)
    ensures 0.0 <= f
    ensures f * f == SquaredDistance(r.A, r.B)
    ensures Valid(r) && r.Square? ==> f == r.a
  {
    var f := Distance(sqrt, r.A, r.B);
    assert (Valid(r) && r.Square? ==> f == r.a) by {
      if Valid(r) && r.Square? { SquareSide(sqrt, r); }
    }
    f
  }

  /** A valid Square's width is the distance between A and B. */
  lemma SquareSide(sqrt: real -> real, r: Rectangle)
    requires IsSqrt(sqrt) && Valid(r) && r.Square?
    ensures Distance(sqrt, r.A, r.B) == r.a
  {
    SquareRootUnique(Distance(sqrt, r.A, r.B), r.a);
  }

  /** secondSide: the width, which for a Square is as long as the centre line. */
  function SecondSide(r: Rectangle): (s: real)
    ensures Valid(r) && r.Square? ==> 0.0 <= s && s * s == SquaredDistance(r.A, r.B)
  {
    r.a
  }

  /** Square.size and Square.side: the side length, which is both sides of
      the square. */
  function Size(sqrt: real -> real, r: Rectangle): (s: real)
    requires IsSqrt(sqrt) && Valid(r) && r.Square?
    ensures 0.0 <= s
    ensures s == FirstSide(sqrt, r) && s == SecondSide(r)
  {
    r.a
  }

  /** The root of the sum of two squares: the hypotenuse of the right
      triangle with legs f and s. */
  function Hypotenuse(sqrt: real -> real, f: real, s: real): (h: real)
    requires IsSqrt(sqrt)
    ensures 0.0 <= h
    ensures h * h == f * f + s * s
  {
    SumOfSquaresPositive(f, s);
    Root(sqrt, f * f + s * s);
    sqrt(f * f + s * s)
  }

  /** diagonal: by Pythagoras, its square is the sum of the squared sides. */
  function Diagonal(sqrt: real -> real, r: Rectangle): (d: real)
    requires IsSqrt(sqrt)
    ensures 0.0 <= d
    ensures d * d == SquaredDistance(r.A, r.B) + r.a * r.a
  {
    Hypotenuse(sqrt, FirstSide(sqrt, r), SecondSide(r))
  }

  /** center: the midpoint of the centre line. */
  function Center(r: Rectangle): (c: Point)
    ensures Subtract(r.A, c) == Subtract(c, r.B)
  {
    Midpoint(r.A, r.B)
  }

  /** perimeter: twice the sum of the two sides; four sides for a Square. */
  function Perimeter(sqrt: real -> real, r: Rectangle): (p: real)
    requires IsSqrt(sqrt)
    ensures Valid(r) && r.Square? ==> p == 4.0 * Size(sqrt, r)
    ensures 0.0 <= r.a ==> 0.0 <= p
  {
    (FirstSide(sqrt, r) + SecondSide(r)) * 2.0
  }

  /** area: the product of the two sides; the side squared for a Square. */
  function Area(sqrt: real -> real, r: Rectangle): (s: real)
    requires IsSqrt(sqrt)
    ensures s * s == SquaredDistance(r.A, r.B) * (r.a * r.a)
    ensures Valid(r) && r.Square? ==> s == Size(sqrt, r) * Size(sqrt, r)
    ensures 0.0 <= r.a ==> 0.0 <= s
    ensures r.a <= 0.0 ==> s <= 0.0
  {
    var f := FirstSide(sqrt, r);
    ProductSquare(f, r.a);
    assert (0.0 <= r.a ==> 0.0 <= f * r.a) && (r.a <= 0.0 ==> f * r.a <= 0.0) by {
      if 0.0 <= r.a { ProductNonNegative(f, r.a); } else { ProductNonNegative(f, -r.a); }
    }
    f * r.a
  }

  /** The square of a product is the product of the squares. */
  lemma ProductSquare(f: real, a: real)
    ensures (f * a) * (f * a) == (f * f) * (a * a)
  {
  }

  /** translate: both ends of the centre line move by the shift that carries
      the centre to newCenter; the width is untouched. */
  function Translate(r: Rectangle, newCenter: Point): (t: Rectangle)
    ensures Center(t) == newCenter
    ensures Subtract(t.B, t.A) == Subtract(r.B, r.A)
    ensures t.a == r.a && t.Square? == r.Square?
    ensures Valid(r) ==> Valid(t)
  {
    var c := Center(r);
    var t := r.(A := Add(Subtract(r.A, c), newCenter), B := Add(Subtract(r.B, c), newCenter));
    SquaredDistanceOfDifference(t.A, t.B);
    SquaredDistanceOfDifference(r.A, r.B);
    t
  }

  /** scale: both ends of the centre line move away from the centre by the
      factor k, and the width is multiplied by |k| (so its sign is kept). */
  function Scale(r: Rectangle, k: real): (t: Rectangle)
    ensures Center(t) == Center(r)
    ensures Subtract(t.A, Center(r)) == Multiply(Subtract(r.A, Center(r)), k)
    ensures Subtract(t.B, Center(r)) == Multiply(Subtract(r.B, Center(r)), k)
    ensures t.a == r.a * Abs(k) && t.Square? == r.Square?
    ensures Valid(r) ==> Valid(t)
  {
    var c := Center(r);
    ScaleAboutMidpoint(r.A, r.B, k);
    ScaleAboutDifference(r.A, r.B, c, k);
    ScaleAboutDifference(r.B, r.A, c, k);
    var t := r.(A := ScaleAbout(r.A, c, k), B := ScaleAbout(r.B, c, k), a := r.a * Abs(k));
    assert (Valid(r) && r.Square? ==> Valid(t)) by {
      if Valid(r) && r.Square? { ScaleKeepsSquare(r, k); }
    }
    t
  }

  /** Scaling a valid Square keeps its width equal to its centre line. */
  lemma ScaleKeepsSquare(r: Rectangle, k: real)
    requires Valid(r) && r.Square?
    ensures 0.0 <= r.a * Abs(k)
    ensures (r.a * Abs(k)) * (r.a * Abs(k))
         == SquaredDistance(ScaleAbout(r.A, Center(r), k), ScaleAbout(r.B, Center(r), k))
  {
    ScaleAboutSquaredDistance(r.A, r.B, Center(r), k);
    ProductNonNegative(r.a, Abs(k));
  }

  /** Square.inscribedCircle: centred on the square, with radius a / 2. */
  function InscribedCircle(r: Rectangle): (c: Ellipses.Ellipse)
    requires Valid(r) && r.Square?
    ensures Ellipses.Valid(c) && c.Circle?
    ensures Ellipses.Center(c) == Center(r)
    ensures 2.0 * Ellipses.Radius(c) == r.a
  {
    Ellipses.NewCircle(Center(r), r.a / 2.0)
  }

  /** Square.circumscribedCircle: centred on the square, with radius a / sqrt(2). */
  function CircumscribedCircle(sqrt: real -> real, r: Rectangle): (c: Ellipses.Ellipse)
    requires IsSqrt(sqrt) && Valid(r) && r.Square?
    ensures Ellipses.Valid(c) && c.Circle?
    ensures Ellipses.Center(c) == Center(r)
    ensures 2.0 * Ellipses.Radius(c) * Ellipses.Radius(c) == r.a * r.a
  {
    SqrtTwo(sqrt);
    HalfRootTwo(r.a, sqrt(2.0));
    Ellipses.NewCircle(Center(r), r.a / sqrt(2.0))
  }

  /** a / s, for s the square root of 2, is non-negative and its square is half of a^2. */
  lemma HalfRootTwo(a: real, s: real)
    requires 0.0 <= a && 0.0 < s && s * s == 2.0
    ensures 0.0 <= a / s
    ensures 2.0 * (a / s) * (a / s) == a * a
  {
    QuotientNonNegative(a, s);
    assert (a / s) * s == a;
    assert 2.0 * (a / s) * (a / s) == ((a / s) * s) * ((a / s) * s);
  }

  /** The inscribed circle touches all four sides: its diameter is each side. */
  lemma InscribedCircleTouchesSides(sqrt: real -> real, r: Rectangle)
    requires IsSqrt(sqrt) && Valid(r) && r.Square?
    ensures 2.0 * Ellipses.Radius(InscribedCircle(r)) == FirstSide(sqrt, r)
    ensures 2.0 * Ellipses.Radius(InscribedCircle(r)) == SecondSide(r)
  {
  }

  /** The circumscribed circle passes through the corners: its diameter is the diagonal. */
  lemma CircumscribedCircleThroughCorners(sqrt: real -> real, r: Rectangle)
    requires IsSqrt(sqrt) && Valid(r) && r.Square?
    ensures 2.0 * Ellipses.Radius(CircumscribedCircle(sqrt, r)) == Diagonal(sqrt, r)
  {
    var c := CircumscribedCircle(sqrt, r);
    DiameterOfSquare(Ellipses.Radius(c), Diagonal(sqrt, r), r.a);
  }

  /** A radius whose doubled square is a^2 and a diagonal whose square is
      2 a^2 make a diameter equal to the diagonal. */
  lemma DiameterOfSquare(rad: real, d: real, a: real)
    requires 0.0 <= rad && 0.0 <= d
    requires 2.0 * rad * rad == a * a && d * d == a * a + a * a
    ensures 2.0 * rad == d
  {
    assert (2.0 * rad) * (2.0 * rad) == d * d;
    SquareRootUnique(2.0 * rad, d);
  }

  /** Moving a rectangle to the centre it already has changes nothing. */
  lemma TranslateToOwnCenter(r: Rectangle)
    ensures Translate(r, Center(r)) == r
  {
  }

  /** Translation changes no measure of the rectangle. */
  lemma TranslateKeepsMeasures(sqrt: real -> real, r: Rectangle, newCenter: Point)
    requires IsSqrt(sqrt)
    ensures var t := Translate(r, newCenter);
      && FirstSide(sqrt, t) == FirstSide(sqrt, r)
      && SecondSide(t) == SecondSide(r)
      && Diagonal(sqrt, t) == Diagonal(sqrt, r)
      && Perimeter(sqrt, t) == Perimeter(sqrt, r)
      && Area(sqrt, t) == Area(sqrt, r)
  {
    var t := Translate(r, newCenter);
    SameDifferenceSameDistance(sqrt, t.B, t.A, r.B, r.A);
    DistanceIsLength(sqrt, t.A, t.B);
    DistanceIsLength(sqrt, r.A, r.B);
    SameSidesSameDiagonal(sqrt, r, t);
  }

  /** Rectangles with equally long centre lines and equal widths have equal diagonals. */
  lemma SameSidesSameDiagonal(sqrt: real -> real, r: Rectangle, t: Rectangle)
    requires IsSqrt(sqrt)
    requires FirstSide(sqrt, t) == FirstSide(sqrt, r) && t.a == r.a
    ensures Diagonal(sqrt, t) == Diagonal(sqrt, r)
  {
  }

  /** Scaling by k multiplies the centre line, and so the first side, by |k|. */
  lemma ScaleFirstSide(sqrt: real -> real, r: Rectangle, k: real)
    requires IsSqrt(sqrt)
    ensures FirstSide(sqrt, Scale(r, k)) == Abs(k) * FirstSide(sqrt, r)
  {
    ScaleAboutDistance(sqrt, r.A, r.B, Center(r), k);
  }

  /** Scaling by k multiplies the perimeter by |k|. */
  lemma ScalePerimeter(sqrt: real -> real, r: Rectangle, k: real)
    requires IsSqrt(sqrt)
    ensures Perimeter(sqrt, Scale(r, k)) == Abs(k) * Perimeter(sqrt, r)
    ensures ScaledBy(Perimeter(sqrt, Scale(r, k)), Perimeter(sqrt, r), Abs(k))
  {
    var t := Scale(r, k);
    ScaleSides(sqrt, r, k);
    PerimeterOfGrownSides(sqrt, r, t, Abs(k));
    assert ScaledBy(Perimeter(sqrt, t), Perimeter(sqrt, r), Abs(k));
  }

  /** Scaling by k multiplies the area by k^2. */
  lemma ScaleArea(sqrt: real -> real, r: Rectangle, k: real)
    requires IsSqrt(sqrt)
    ensures Area(sqrt, Scale(r, k)) == k * k * Area(sqrt, r)
    ensures ScaledBy(Area(sqrt, Scale(r, k)), Area(sqrt, r), k * k)
  {
    ScaledArea(sqrt, r, k);
  }

  /** ScaleArea, as a proportion. */
  lemma ScaledArea(sqrt: real -> real, r: Rectangle, k: real)
    requires IsSqrt(sqrt)
    ensures ScaledBy(Area(sqrt, Scale(r, k)), Area(sqrt, r), k * k)
  {
    ScaleSides(sqrt, r, k);
    AreaOfGrownSides(sqrt, r, Scale(r, k), k);
  }

  /** Both sides of the scaled rectangle are |k| times those of r. */
  lemma ScaleSides(sqrt: real -> real, r: Rectangle, k: real)
    requires IsSqrt(sqrt)
    ensures ScaledBy(FirstSide(sqrt, Scale(r, k)), FirstSide(sqrt, r), Abs(k))
    ensures ScaledBy(SecondSide(Scale(r, k)), SecondSide(r), Abs(k))
  {
    ScaleFirstSide(sqrt, r, k);
    assert ScaledBy(FirstSide(sqrt, Scale(r, k)), FirstSide(sqrt, r), Abs(k));
  }

  /** A rectangle whose sides are m times those of r has m times its perimeter. */
  lemma PerimeterOfGrownSides(sqrt: real -> real, r: Rectangle, t: Rectangle, m: real)
    requires IsSqrt(sqrt)
    requires ScaledBy(FirstSide(sqrt, t), FirstSide(sqrt, r), m) && ScaledBy(SecondSide(t), SecondSide(r), m)
    ensures ScaledBy(Perimeter(sqrt, t), Perimeter(sqrt, r), m)
  {
    var f, a := FirstSide(sqrt, r), SecondSide(r);
    assert m * ((f + a) * 2.0) == (m * f + m * a) * 2.0;
  }

  /** A rectangle whose sides are |k| times those of r has k^2 times its area. */
  lemma AreaOfGrownSides(sqrt: real -> real, r: Rectangle, t: Rectangle, k: real)
    requires IsSqrt(sqrt)
    requires ScaledBy(FirstSide(sqrt, t), FirstSide(sqrt, r), Abs(k)) && ScaledBy(SecondSide(t), SecondSide(r), Abs(k))
    ensures ScaledBy(Area(sqrt, t), Area(sqrt, r), k * k)
  {
    ProductScaled(FirstSide(sqrt, t), FirstSide(sqrt, r), Abs(k), t.a, r.a, Abs(k));
    AbsSquared(k);
  }

  /** Scaling by k and then by 1/k restores the rectangle. */
  lemma ScaleRoundTrip(r: Rectangle, k: real)
    requires k != 0.0
    ensures Scale(Scale(r, k), 1.0 / k) == r
  {
    var c := Center(r);
    ScaleAboutInverse(r.A, c, k);
    ScaleAboutInverse(r.B, c, k);
    AbsInverse(k);
    assert r.a * Abs(k) * Abs(1.0 / k) == r.a;
  }

  /** A 4 by 2 rectangle lying along the x axis. */
  lemma RectangleExample(sqrt: real -> real)
    requires IsSqrt(sqrt)
    ensures var r := Rectangle(Point(0.0, 0.0), Point(4.0, 0.0), 2.0);
      && FirstSide(sqrt, r) == 4.0 && SecondSide(r) == 2.0
      && Perimeter(sqrt, r) == 12.0 && Area(sqrt, r) == 8.0
      && Diagonal(sqrt, r) * Diagonal(sqrt, r) == 20.0
  {
    var r := Rectangle(Point(0.0, 0.0), Point(4.0, 0.0), 2.0);
    assert SquaredDistance(r.A, r.B) == 4.0 * 4.0;
    SqrtOfSquare(sqrt, 4.0);
  }

  /** The square on the centre line from A = (-1, 0) to B = (1, 0), and its
      inscribed circle. */
  lemma SquareExample(sqrt: real -> real, A: Point, B: Point)
    requires IsSqrt(sqrt)
    requires A == Point(-1.0, 0.0) && B == Point(1.0, 0.0)
    ensures var s := NewSquare(sqrt, A, B);
      && Size(sqrt, s) == 2.0 && Area(sqrt, s) == 4.0 && Perimeter(sqrt, s) == 8.0
      && Ellipses.Radius(InscribedCircle(s)) == 1.0
  {
    assert SquaredDistance(A, B) == 2.0 * 2.0;
    SqrtOfSquare(sqrt, 2.0);
  }
}
