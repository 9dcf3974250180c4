/** Ellipse and its subclass Circle.

    An ellipse is stored as its two foci A and B and `per`, the distance
    from a focus to the nearer end of the major axis, so that the major
    semi-axis is half the focal distance plus `per`.  A Circle is an
    Ellipse whose foci coincide at the centre and whose `per` is the
    radius; it keeps the same fields and overrides the axis and measure
    computations with closed forms. */
module Ellipses {
  import opened Reals
  import opened Points

  datatype Ellipse =
    | Ellipse(A: Point, B: Point, per: real)
    | Circle(A: Point, B: Point, per: real)

  /** What the constructors establish and every operation keeps: `per` is
      never negative, and a circle's two foci are its centre. */
  predicate Valid(e: Ellipse)
  {
    0.0 <= e.per && (e.Circle? ==> e.A == e.B)
  }

  /** The Ellipse constructor keeps the foci and the magnitude of `per`. */
  function NewEllipse(A: Point, B: Point, per: real): (e: Ellipse)
    ensures Valid(e) && e.Ellipse?
    ensures e.A == A && e.B == B
    ensures e.per == per || e.per == -per
  {
    Ellipse(A, B, Abs(per))
  }

  /** The Circle constructor: both foci at the centre, `per` the radius. */
  function NewCircle(C: Point, radius: real): (e: Ellipse)
    ensures Valid(e) && e.Circle?
    ensures Center(e) == C
    ensures e.per == radius || e.per == -radius
  {
    Circle(C, C, Abs(radius))
  }

  /** Ellipse.center: halfway between the foci. */
  function Center(e: Ellipse): (c: Point)
    ensures Subtract(e.A, c) == Subtract(c, e.B)
  {
    Midpoint(e.A, e.B)
  }

  /** Ellipse.focuses. */
  function Focuses(e: Ellipse): (fs: seq<Point>)
    ensures |fs| == 2 && e.(A := fs[0], B := fs[1]) == e
    ensures Midpoint(fs[0], fs[1]) == Center(e)
    ensures Valid(e) && e.Circle? ==> fs[0] == Center(e) && fs[1] == Center(e)
  {
    [e.A, e.B]
  }

  /** focalDistance: half the distance between the foci (0 for a Circle). */
  function FocalDistance(sqrt: real -> real, e: Ellipse): (f: real)
    requires IsSqrt(sqrt) && Valid(e)
    ensures 0.0 <= f
    ensures 4.0 * (f * f) == SquaredDistance(e.A, e.B)
  {
    match e
    case Ellipse(_, _, _) => Distance(sqrt, e.A, e.B) / 2.0
    case Circle(_, _, _) => 0.0
  }

  /** majorSemiAxis: the centre-to-vertex distance, `per` beyond the focus. */
  function MajorSemiAxis(sqrt: real -> real, e: Ellipse): (a: real)
    requires IsSqrt(sqrt) && Valid(e)
    ensures 0.0 <= e.per <= a
    ensures a - e.per == FocalDistance(sqrt, e)
  {
    match e
    case Ellipse(_, _, _) => Distance(sqrt, e.A, e.B) / 2.0 + e.per
    case Circle(_, _, _) => e.per
  }

  /** The radicand of minorSemiAxis and get_a_b, ((dist + 2 per)^2 - dist^2) / 4,
      where dist + 2 per is the length of the major axis.  It is the squared
      major semi-axis less the squared focal half-distance. */
  function MinorRadicand(dist: real, per: real): (r: real)
    requires 0.0 <= dist && 0.0 <= per
    ensures 0.0 <= r
    ensures r == per * (dist + per)
    ensures r == (dist / 2.0 + per) * (dist / 2.0 + per) - (dist / 2.0) * (dist / 2.0)
  {
    var len := dist + per * 2.0;
    assert (len * len - dist * dist) / 4.0 == per * (dist + per);
    ProductNonNegative(per, dist + per);
    (len * len - dist * dist) / 4.0
  }

  /** The minor semi-axis of the ellipse whose foci are dist apart: by
      Pythagoras in the triangle centre, focus, co-vertex, its square is the
      squared major semi-axis less the squared focal half-distance. */
  function SemiMinor(sqrt: real -> real, dist: real, per: real): (b: real)
    requires IsSqrt(sqrt) && 0.0 <= dist && 0.0 <= per
    ensures 0.0 <= b
    ensures b * b == (dist / 2.0 + per) * (dist / 2.0 + per) - (dist / 2.0) * (dist / 2.0)
  {
    Root(sqrt, MinorRadicand(dist, per));
    sqrt(MinorRadicand(dist, per))
  }

  /** When the foci coincide the minor semi-axis is `per`, as for a circle. */
  lemma SemiMinorOfPoint(sqrt: real -> real, per: real)
    requires IsSqrt(sqrt) && 0.0 <= per
    ensures SemiMinor(sqrt, 0.0, per) == per
  {
    SquareRootUnique(SemiMinor(sqrt, 0.0, per), per);
  }

  /** Scaling the focal distance and `per` by m >= 0 scales the minor
      semi-axis by m. */
  lemma SemiMinorScale(sqrt: real -> real, dist: real, per: real, m: real, dist2: real, per2: real)
    requires IsSqrt(sqrt) && 0.0 <= dist && 0.0 <= per && 0.0 <= m
    requires dist2 == m * dist && per2 == m * per
    ensures 0.0 <= dist2 && 0.0 <= per2
    ensures SemiMinor(sqrt, dist2, per2) == m * SemiMinor(sqrt, dist, per)
  {
    RadicandScale(dist, per, m);
    RootScale(sqrt, MinorRadicand(dist, per), MinorRadicand(dist2, per2), m);
  }

  /** A radicand scaled by m*m, for m >= 0, has its root scaled by m. */
  lemma RootScale(sqrt: real -> real, r: real, r2: real, m: real)
    requires IsSqrt(sqrt) && 0.0 <= r && 0.0 <= m
    requires r2 == m * m * r
    ensures sqrt(r2) == m * sqrt(r)
  {
    SqrtScale(sqrt, m, r);
  }

  /** The radicand scales with the square of the factor. */
  lemma RadicandScale(dist: real, per: real, m: real)
    requires 0.0 <= dist && 0.0 <= per && 0.0 <= m
    ensures 0.0 <= m * dist && 0.0 <= m * per
    ensures MinorRadicand(m * dist, m * per) == m * m * MinorRadicand(dist, per)
  {
    ProductNonNegative(m, dist);
    ProductNonNegative(m, per);
  }

  /** minorSemiAxis (the radius for a Circle). */
  function MinorSemiAxis(sqrt: real -> real, e: Ellipse): (b: real)
    requires IsSqrt(sqrt) && Valid(e)
    ensures 0.0 <= b
    ensures b * b == MajorSemiAxis(sqrt, e) * MajorSemiAxis(sqrt, e)
                   - FocalDistance(sqrt, e) * FocalDistance(sqrt, e)
  {
    match e
    case Ellipse(_, _, per) => SemiMinor(sqrt, Distance(sqrt, e.A, e.B), per)
    case Circle(_, _, per) => per
  }

  /** get_a_b: both semi-axes, computed together as the Ellipse does for its
      area and perimeter; they agree with majorSemiAxis and minorSemiAxis,
      Circle's overrides included. */
  function SemiAxes(sqrt: real -> real, e: Ellipse): (ab: Point)
    requires IsSqrt(sqrt) && Valid(e)
    ensures ab == Point(MajorSemiAxis(sqrt, e), MinorSemiAxis(sqrt, e))
  {
    var dist := Distance(sqrt, e.A, e.B);
    var ab := Point(dist / 2.0 + e.per, SemiMinor(sqrt, dist, e.per));
    if e.Circle? then
      DistanceToSelf(sqrt, e.A);
      SemiMinorOfPoint(sqrt, e.per);
      ab
    else
      ab
  }

  /** pi a b: the area enclosed by an ellipse with semi-axes a and b. */
  function AreaOfAxes(a: real, b: real): real
  {
    PI * a * b
  }

  /** area: pi a b for an Ellipse, pi r^2 for a Circle. */
  function Area(sqrt: real -> real, e: Ellipse): (s: real)
    requires IsSqrt(sqrt) && Valid(e)
    ensures 0.0 <= s
    ensures s == AreaOfAxes(MajorSemiAxis(sqrt, e), MinorSemiAxis(sqrt, e))
  {
    match e
    case Ellipse(_, _, _) =>
      var ab := SemiAxes(sqrt, e);
      ProductNonNegative(PI * ab.x, ab.y);
      PI * ab.x * ab.y
    case Circle(_, _, per) =>
      ProductNonNegative(PI * per, per);
      PI * per * per
  }

  /** An ellipse collapsed to a single point: both foci equal and `per` zero,
      so every semi-axis is zero; the Ellipse's perimeter and eccentricity
      divide by zero there. */
  predicate Degenerate(sqrt: real -> real, e: Ellipse)
    requires IsSqrt(sqrt) && Valid(e)
  {
    MajorSemiAxis(sqrt, e) == 0.0
  }

  /** The approximation 4 (pi a b + (a - b)^2) / (a + b) of the perimeter
      of an ellipse with semi-axes a and b. */
  function PerimeterOfAxes(a: real, b: real): (p: real)
    requires 0.0 < a + b
    ensures 0.0 <= a && 0.0 <= b ==> 0.0 <= p
  {
    if 0.0 <= a && 0.0 <= b then
      ProductNonNegative(PI * a, b);
      QuotientNonNegative(4.0 * (PI * a * b + (a - b) * (a - b)), a + b);
      4.0 * (PI * a * b + (a - b) * (a - b)) / (a + b)
    else
      4.0 * (PI * a * b + (a - b) * (a - b)) / (a + b)
  }

  /** For a circle of radius r both semi-axes are r and the approximation is
      exact: 2 pi r. */
  lemma PerimeterOfRoundAxes()
    ensures forall r {:trigger PerimeterOfAxes(r, r)} :: 0.0 < r ==> PerimeterOfAxes(r, r) == 2.0 * PI * r
  {
    forall r | 0.0 < r
      ensures PerimeterOfAxes(r, r) == 2.0 * PI * r
    {
      assert 4.0 * (PI * r * r + (r - r) * (r - r)) == (2.0 * PI * r) * (r + r);
      assert 4.0 * (PI * r * r + (r - r) * (r - r)) / (r + r) == 2.0 * PI * r;
    }
  }

  /** perimeter: the Ellipse's approximation from its semi-axes, and 2 pi r
      for a Circle, which is what the approximation gives when both
      semi-axes are r. */
  function Perimeter(sqrt: real -> real, e: Ellipse): (p: real)
    requires IsSqrt(sqrt) && Valid(e)
    requires e.Ellipse? ==> !Degenerate(sqrt, e)
    ensures 0.0 <= p
    ensures !Degenerate(sqrt, e) ==>
      p == PerimeterOfAxes(MajorSemiAxis(sqrt, e), MinorSemiAxis(sqrt, e))
    ensures Degenerate(sqrt, e) ==> p == 0.0
  {
    match e
    case Ellipse(_, _, _) =>
      var ab := SemiAxes(sqrt, e);
      PerimeterOfAxes(ab.x, ab.y)
    case Circle(_, _, per) =>
      PerimeterOfRoundAxes();
      2.0 * PI * per
  }

  /** eccentricity: the focal half-distance as a fraction of the major
      semi-axis (0 for a Circle); it lies in [0, 1] and falls short of 1
      exactly when the ellipse is not flattened onto its focal segment. */
  function Eccentricity(sqrt: real -> real, e: Ellipse): (r: real)
    requires IsSqrt(sqrt) && Valid(e)
    requires e.Ellipse? ==> !Degenerate(sqrt, e)
    ensures 0.0 <= r <= 1.0
    ensures r * MajorSemiAxis(sqrt, e) == FocalDistance(sqrt, e)
    ensures e.Ellipse? ==> (r < 1.0 <==> 0.0 < e.per)
    ensures e.Circle? ==> r == 0.0
  {
    match e
    case Ellipse(_, _, _) =>
      QuotientBounds(FocalDistance(sqrt, e), MajorSemiAxis(sqrt, e));
      FocalDistance(sqrt, e) / MajorSemiAxis(sqrt, e)
    case Circle(_, _, _) => 0.0
  }

  /** Circle.radius. */
  function Radius(e: Ellipse): (r: real)
    requires e.Circle? && Valid(e)
    ensures 0.0 <= r
  {
    e.per
  }

  /** translate: both foci move by the shift that carries the centre to
      newCenter; the shape itself is untouched. */
  function Translate(e: Ellipse, newCenter: Point): (t: Ellipse)
    ensures Center(t) == newCenter
    ensures Subtract(t.B, t.A) == Subtract(e.B, e.A)
    ensures t.per == e.per && t.Circle? == e.Circle?
    ensures Valid(e) ==> Valid(t)
  {
    var shift := Subtract(newCenter, Center(e));
    e.(A := Add(e.A, shift), B := Add(e.B, shift))
  }

  /** scale: both foci move away from the centre by the factor k and `per`
      becomes |per * k|. */
  function Scale(e: Ellipse, k: real): (t: Ellipse)
    ensures Center(t) == Center(e)
    ensures Subtract(t.A, Center(e)) == Multiply(Subtract(e.A, Center(e)), k)
    ensures Subtract(t.B, Center(e)) == Multiply(Subtract(e.B, Center(e)), k)
    ensures t.Circle? == e.Circle?
    ensures Valid(e) ==> Valid(t) && t.per == Abs(k) * e.per
  {
    var c := Center(e);
    ScaleAboutMidpoint(e.A, e.B, k);
    ScaleAboutDifference(e.A, e.B, c, k);
    ScaleAboutDifference(e.B, e.A, c, k);
    var t := e.(A := ScaleAbout(e.A, c, k), B := ScaleAbout(e.B, c, k), per := Abs(e.per * k));
    assert (0.0 <= e.per ==> t.per == Abs(k) * e.per) by {
      if 0.0 <= e.per { AbsScale(e.per, k); }
    }
    t
  }

  /** The focal half-distance never exceeds the major semi-axis, nor does the
      minor semi-axis. */
  lemma AxesOrdered(sqrt: real -> real, e: Ellipse)
    requires IsSqrt(sqrt) && Valid(e)
    ensures FocalDistance(sqrt, e) <= MajorSemiAxis(sqrt, e)
    ensures MinorSemiAxis(sqrt, e) <= MajorSemiAxis(sqrt, e)
  {
    var a, b, f := MajorSemiAxis(sqrt, e), MinorSemiAxis(sqrt, e), FocalDistance(sqrt, e);
    ProductNonNegative(f, f);
    RootMonotone(b, a);
  }

  /** A Circle agrees with the Ellipse of the same centre and `per`: the
      overridden closed forms are what the general formulas give when the
      foci coincide. */
  lemma CircleIsRoundEllipse(sqrt: real -> real, C: Point, radius: real)
    requires IsSqrt(sqrt)
    ensures var c, e := NewCircle(C, radius), NewEllipse(C, C, radius);
      && FocalDistance(sqrt, c) == FocalDistance(sqrt, e) == 0.0
      && MajorSemiAxis(sqrt, c) == MajorSemiAxis(sqrt, e) == Radius(c)
      && MinorSemiAxis(sqrt, c) == MinorSemiAxis(sqrt, e) == Radius(c)
      && Area(sqrt, c) == Area(sqrt, e) == PI * Radius(c) * Radius(c)
      && (radius != 0.0 ==>
            && !Degenerate(sqrt, e)
            && Perimeter(sqrt, c) == Perimeter(sqrt, e) == 2.0 * PI * Radius(c)
            && Eccentricity(sqrt, c) == Eccentricity(sqrt, e) == 0.0)
  {
    var c, e := NewCircle(C, radius), NewEllipse(C, C, radius);
    var r := Abs(radius);
    DistanceToSelf(sqrt, C);
    assert FocalDistance(sqrt, e) == 0.0;
    assert MajorSemiAxis(sqrt, e) == r;
    SquareRootUnique(MinorSemiAxis(sqrt, e), r);
    if radius != 0.0 {
      assert r != 0.0;
      var ab := SemiAxes(sqrt, e);
      assert ab == Point(r, r);
      assert 4.0 * (PI * r * r + (r - r) * (r - r)) == (2.0 * PI * r) * (r + r);
      assert 4.0 * (PI * r * r + (r - r) * (r - r)) / (r + r) == 2.0 * PI * r;
    }
  }

  /** Moving an ellipse to the centre it already has changes nothing. */
  lemma TranslateToOwnCenter(e: Ellipse)
    ensures Translate(e, Center(e)) == e
  {
  }

  /** Every measure of an ellipse is fixed by its kind, the distance between
      its foci and `per`. */
  lemma MeasuresOfShape(sqrt: real -> real, e: Ellipse, t: Ellipse)
    requires IsSqrt(sqrt) && Valid(e) && Valid(t)
    requires t.Circle? == e.Circle? && t.per == e.per
    requires Distance(sqrt, t.A, t.B) == Distance(sqrt, e.A, e.B)
    ensures FocalDistance(sqrt, t) == FocalDistance(sqrt, e)
    ensures MajorSemiAxis(sqrt, t) == MajorSemiAxis(sqrt, e)
    ensures MinorSemiAxis(sqrt, t) == MinorSemiAxis(sqrt, e)
    ensures Area(sqrt, t) == Area(sqrt, e)
    ensures Degenerate(sqrt, t) == Degenerate(sqrt, e)
    ensures e.Ellipse? ==> !Degenerate(sqrt, e) ==> Perimeter(sqrt, t) == Perimeter(sqrt, e)
  {
  }

  /** Translation changes no measure of the ellipse. */
  lemma TranslateKeepsMeasures(sqrt: real -> real, e: Ellipse, newCenter: Point)
    requires IsSqrt(sqrt) && Valid(e)
    ensures var t := Translate(e, newCenter);
      && FocalDistance(sqrt, t) == FocalDistance(sqrt, e)
      && MajorSemiAxis(sqrt, t) == MajorSemiAxis(sqrt, e)
      && MinorSemiAxis(sqrt, t) == MinorSemiAxis(sqrt, e)
      && Area(sqrt, t) == Area(sqrt, e)
      && Degenerate(sqrt, t) == Degenerate(sqrt, e)
      && (e.Ellipse? ==> !Degenerate(sqrt, e) ==> Perimeter(sqrt, t) == Perimeter(sqrt, e))
  {
    var t := Translate(e, newCenter);
    SameDifferenceSameDistance(sqrt, t.B, t.A, e.B, e.A);
    DistanceIsLength(sqrt, t.A, t.B);
    DistanceIsLength(sqrt, e.A, e.B);
    MeasuresOfShape(sqrt, e, t);
  }

  /** Scaling by k multiplies the distance between the foci by |k|. */
  lemma ScaleFocalDistance(sqrt: real -> real, e: Ellipse, k: real)
    requires IsSqrt(sqrt) && Valid(e)
    ensures Distance(sqrt, Scale(e, k).A, Scale(e, k).B) == Abs(k) * Distance(sqrt, e.A, e.B)
    ensures FocalDistance(sqrt, Scale(e, k)) == Abs(k) * FocalDistance(sqrt, e)
  {
    ScaleAboutDistance(sqrt, e.A, e.B, Center(e), k);
  }

  /** Scaling by k multiplies the major semi-axis by |k|. */
  lemma ScaleMajorSemiAxis(sqrt: real -> real, e: Ellipse, k: real)
    requires IsSqrt(sqrt) && Valid(e)
    ensures MajorSemiAxis(sqrt, Scale(e, k)) == Abs(k) * MajorSemiAxis(sqrt, e)
  {
    ScaledMajorSemiAxis(sqrt, e, k);
  }

  /** ScaleMajorSemiAxis, as a proportion. */
  lemma ScaledMajorSemiAxis(sqrt: real -> real, e: Ellipse, k: real)
    requires IsSqrt(sqrt) && Valid(e)
    ensures ScaledBy(MajorSemiAxis(sqrt, Scale(e, k)), MajorSemiAxis(sqrt, e), Abs(k))
  {
    var t := Scale(e, k);
    ScaleFocalDistance(sqrt, e, k);
    assert ScaledBy(Distance(sqrt, t.A, t.B), Distance(sqrt, e.A, e.B), Abs(k));
    assert ScaledBy(t.per, e.per, Abs(k));
    MajorOfGrownEllipse(sqrt, e, t, Abs(k));
  }

  /** An ellipse of the same kind whose foci are m times as far apart, with m
      times the per, has m times the major semi-axis. */
  lemma MajorOfGrownEllipse(sqrt: real -> real, e: Ellipse, t: Ellipse, m: real)
    requires IsSqrt(sqrt) && Valid(e) && Valid(t) && e.Circle? == t.Circle?
    requires ScaledBy(Distance(sqrt, t.A, t.B), Distance(sqrt, e.A, e.B), m) && ScaledBy(t.per, e.per, m)
    ensures ScaledBy(MajorSemiAxis(sqrt, t), MajorSemiAxis(sqrt, e), m)
  {
    var d := Distance(sqrt, e.A, e.B);
    assert m * (d / 2.0 + e.per) == (m * d) / 2.0 + m * e.per;
  }

  /** Scaling by k multiplies the minor semi-axis by |k|. */
  lemma ScaleMinorSemiAxis(sqrt: real -> real, e: Ellipse, k: real)
    requires IsSqrt(sqrt) && Valid(e)
    ensures MinorSemiAxis(sqrt, Scale(e, k)) == Abs(k) * MinorSemiAxis(sqrt, e)
  {
    if e.Ellipse? {
      var t := Scale(e, k);
      ScaleFocalDistance(sqrt, e, k);
      assert ScaledBy(Distance(sqrt, t.A, t.B), Distance(sqrt, e.A, e.B), Abs(k));
      assert ScaledBy(t.per, e.per, Abs(k));
      MinorOfGrownEllipse(sqrt, e, t, Abs(k));
      assert ScaledBy(MinorSemiAxis(sqrt, t), MinorSemiAxis(sqrt, e), Abs(k));
    }
  }

  /** An Ellipse whose foci are m times as far apart, with m times the per,
      has m times the minor semi-axis. */
  lemma MinorOfGrownEllipse(sqrt: real -> real, e: Ellipse, t: Ellipse, m: real)
    requires IsSqrt(sqrt) && Valid(e) && Valid(t) && e.Ellipse? && t.Ellipse? && 0.0 <= m
    requires ScaledBy(Distance(sqrt, t.A, t.B), Distance(sqrt, e.A, e.B), m) && ScaledBy(t.per, e.per, m)
    ensures ScaledBy(MinorSemiAxis(sqrt, t), MinorSemiAxis(sqrt, e), m)
  {
    SemiMinorScale(sqrt, Distance(sqrt, e.A, e.B), e.per, m, Distance(sqrt, t.A, t.B), t.per);
  }

  /** Scaling by k multiplies the area by k^2. */
  lemma ScaleArea(sqrt: real -> real, e: Ellipse, k: real)
    requires IsSqrt(sqrt) && Valid(e)
    ensures Area(sqrt, Scale(e, k)) == k * k * Area(sqrt, e)
    ensures ScaledBy(Area(sqrt, Scale(e, k)), Area(sqrt, e), k * k)
  {
    ScaleMajorSemiAxis(sqrt, e, k);
    ScaleMinorSemiAxis(sqrt, e, k);
    AreaOfScaledAxes(sqrt, e, k);
  }

  /** pi a b grows by k^2 when a and b grow by |k|. */
  lemma AreaOfScaledAxes(sqrt: real -> real, e: Ellipse, k: real)
    requires IsSqrt(sqrt) && Valid(e)
    ensures AreaOfAxes(Abs(k) * MajorSemiAxis(sqrt, e), Abs(k) * MinorSemiAxis(sqrt, e)) == k * k * Area(sqrt, e)
  {
  }

  /** Scaling by k and then by 1/k restores the ellipse. */
  lemma ScaleRoundTrip(e: Ellipse, k: real)
    requires Valid(e) && k != 0.0
    ensures Scale(Scale(e, k), 1.0 / k) == e
  {
    var t := Scale(e, k);
    var c := Center(e);
    ScaleAboutInverse(e.A, c, k);
    ScaleAboutInverse(e.B, c, k);
    AbsInverse(k);
    assert Abs(1.0 / k) * (Abs(k) * e.per) == e.per;
  }

  /** Scaling by k multiplies the perimeter by |k|; an Ellipse must stay
      non-degenerate, so k is non-zero for it. */
  lemma ScalePerimeter(sqrt: real -> real, e: Ellipse, k: real)
    requires IsSqrt(sqrt) && Valid(e)
    requires e.Ellipse? ==> !Degenerate(sqrt, e) && k != 0.0
    ensures Scale(e, k).Ellipse? ==> !Degenerate(sqrt, Scale(e, k))
    ensures Perimeter(sqrt, Scale(e, k)) == Abs(k) * Perimeter(sqrt, e)
    ensures ScaledBy(Perimeter(sqrt, Scale(e, k)), Perimeter(sqrt, e), Abs(k))
  {
    if e.Ellipse? {
      ScaleEllipsePerimeter(sqrt, e, k);
    } else {
      ScaleCirclePerimeter(sqrt, e, k);
    }
  }

  /** A proper ellipse: both semi-axes grow by |k|, and so does the perimeter approximation. */
  lemma ScaleEllipsePerimeter(sqrt: real -> real, e: Ellipse, k: real)
    requires IsSqrt(sqrt) && Valid(e) && e.Ellipse?
    requires !Degenerate(sqrt, e) && k != 0.0
    ensures !Degenerate(sqrt, Scale(e, k))
    ensures Perimeter(sqrt, Scale(e, k)) == Abs(k) * Perimeter(sqrt, e)
    ensures ScaledBy(Perimeter(sqrt, Scale(e, k)), Perimeter(sqrt, e), Abs(k))
  {
    GrownEllipsePerimeter(sqrt, e, k);
  }

  /** The step of ScaleEllipsePerimeter stated as ScaledBy alone, so that the
      arithmetic form follows from it in a small context. */
  lemma GrownEllipsePerimeter(sqrt: real -> real, e: Ellipse, k: real)
    requires IsSqrt(sqrt) && Valid(e) && e.Ellipse?
    requires !Degenerate(sqrt, e) && k != 0.0
    ensures !Degenerate(sqrt, Scale(e, k))
    ensures ScaledBy(Perimeter(sqrt, Scale(e, k)), Perimeter(sqrt, e), Abs(k))
  {
    ScaleMajorSemiAxis(sqrt, e, k);
    ScaleMinorSemiAxis(sqrt, e, k);
    PerimeterOfScaledAxes(sqrt, e, k);
  }

  /** A circle: the radius, and with it 2 pi r, grows by |k|. */
  lemma ScaleCirclePerimeter(sqrt: real -> real, e: Ellipse, k: real)
    requires IsSqrt(sqrt) && Valid(e) && e.Circle?
    ensures Perimeter(sqrt, Scale(e, k)) == Abs(k) * Perimeter(sqrt, e)
    ensures ScaledBy(Perimeter(sqrt, Scale(e, k)), Perimeter(sqrt, e), Abs(k))
  {
    var t := Scale(e, k);
    assert Perimeter(sqrt, t) == 2.0 * PI * t.per;
    assert 2.0 * PI * (Abs(k) * e.per) == Abs(k) * (2.0 * PI * e.per);
  }

  /** Semi-axes with a positive sum keep one when both grow by |k| != 0. */
  lemma ScaledAxesPositive(sqrt: real -> real, e: Ellipse, k: real)
    requires IsSqrt(sqrt) && Valid(e)
    requires !Degenerate(sqrt, e) && k != 0.0
    ensures 0.0 < Abs(k) * MajorSemiAxis(sqrt, e) + Abs(k) * MinorSemiAxis(sqrt, e)
  {
    var a, b := MajorSemiAxis(sqrt, e), MinorSemiAxis(sqrt, e);
    assert Abs(k) * a + Abs(k) * b == Abs(k) * (a + b);
  }

  /** The perimeter approximation grows by |k| when both semi-axes do. */
  lemma PerimeterOfScaledAxes(sqrt: real -> real, e: Ellipse, k: real)
    requires IsSqrt(sqrt) && Valid(e)
    requires !Degenerate(sqrt, e) && k != 0.0
    ensures 0.0 < Abs(k) * MajorSemiAxis(sqrt, e) + Abs(k) * MinorSemiAxis(sqrt, e)
    ensures Homogeneous(MajorSemiAxis(sqrt, e), MinorSemiAxis(sqrt, e), Abs(k))
  {
    ScaledAxesPositive(sqrt, e, k);
    AxesHomogeneous();
  }

  /** Growing both semi-axes by m > 0 grows the approximation by m. */
  predicate Homogeneous(a: real, b: real, m: real)
  {
    0.0 < a + b && 0.0 < m ==>
      0.0 < m * a + m * b && ScaledBy(PerimeterOfAxes(m * a, m * b), PerimeterOfAxes(a, b), m)
  }

  /** The approximation is homogeneous of degree one in the semi-axes. */
  lemma AxesHomogeneous()
    ensures forall a, b, m {:trigger Homogeneous(a, b, m)} :: Homogeneous(a, b, m)
  {
    forall a, b, m
      ensures Homogeneous(a, b, m)
    {
      if 0.0 < a + b && 0.0 < m {
        assert m * a + m * b == m * (a + b);
        var n := 4.0 * (PI * a * b + (a - b) * (a - b));
        assert 4.0 * (PI * (m * a) * (m * b) + (m * a - m * b) * (m * a - m * b)) == m * m * n;
        assert PerimeterOfAxes(a, b) * (a + b) == n;
        assert PerimeterOfAxes(m * a, m * b) * (m * (a + b)) == m * m * n;
        assert (PerimeterOfAxes(m * a, m * b) - m * PerimeterOfAxes(a, b)) * (m * (a + b)) == 0.0;
      }
    }
  }
}
