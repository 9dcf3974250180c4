/** Triangle: three vertices, with the centroid as its centre, Heron's
    formula for the area and the circumscribed circle. */
module Triangles {
  import opened Reals
  import opened Options
  import opened Points
  import Ellipses

  datatype Triangle = Triangle(A: Point, B: Point, C: Point)

  /** Triangle.vertices: the three vertices in order. */
  function Vertices(t: Triangle): (vs: seq<Point>)
    ensures |vs| == 3 && Triangle(vs[0], vs[1], vs[2]) == t
  {
    [t.A, t.B, t.C]
  }

  /** center: the centroid; the vectors from it to the three vertices add up
      to zero. */
  function Center(t: Triangle): (c: Point)
    ensures Add(Add(Subtract(t.A, c), Subtract(t.B, c)), Subtract(t.C, c)) == Origin
  {
    Point((t.A.x + t.B.x + t.C.x) / 3.0, (t.A.y + t.B.y + t.C.y) / 3.0)
  }

  /** Twice the signed area: the vector product of the edges leaving A.  It
      is zero exactly when the vertices are collinear. */
  function Cross(t: Triangle): real
  {
    VectorProduct(Subtract(t.B, t.A), Subtract(t.C, t.A))
  }

  /** perimeter: the sum of the three side lengths. */
  function Perimeter(sqrt: real -> real, t: Triangle): (p: real)
    requires IsSqrt(sqrt)
    ensures 0.0 <= p
    ensures Distance(sqrt, t.A, t.B) <= p / 2.0
    ensures Distance(sqrt, t.B, t.C) <= p / 2.0
    ensures Distance(sqrt, t.C, t.A) <= p / 2.0
  {
    TriangleInequality(sqrt, t.A, t.B, t.C);
    TriangleInequality(sqrt, t.B, t.C, t.A);
    TriangleInequality(sqrt, t.C, t.A, t.B);
    Distance(sqrt, t.A, t.B) + Distance(sqrt, t.B, t.C) + Distance(sqrt, t.C, t.A)
  }

  /** The side from a to b is no longer than the way round through c. */
  lemma TriangleInequality(sqrt: real -> real, a: Point, b: Point, c: Point)
    requires IsSqrt(sqrt)
    ensures Distance(sqrt, a, b) <= Distance(sqrt, b, c) + Distance(sqrt, c, a)
  {
    var u, v := Subtract(c, a), Subtract(b, c);
    var d, e, f := Distance(sqrt, a, b), Distance(sqrt, c, a), Distance(sqrt, b, c);
    SquaredDistanceOfDifference(b, c);
    SquaredDistanceOfDifference(c, a);
    SquaredDistanceOfDifference(b, a);
    DistanceIsLength(sqrt, a, b);
    DistanceIsLength(sqrt, c, a);
    assert Subtract(b, a) == Add(u, v);
    CauchySchwarz(u, v, e, f);
    RootMonotone(d, e + f);
  }

  /** |u + v|^2 <= (|u| + |v|)^2, given the lengths e of u and f of v. */
  lemma CauchySchwarz(u: Vector2, v: Vector2, e: real, f: real)
    requires 0.0 <= e && 0.0 <= f
    requires e * e == ScalarProduct(u, u) && f * f == ScalarProduct(v, v)
    ensures 0.0 <= e + f
    ensures ScalarProduct(Add(u, v), Add(u, v)) <= (e + f) * (e + f)
  {
    DotBelowLengths(u, v, e, f);
    assert ScalarProduct(Add(u, v), Add(u, v)) == ScalarProduct(u, u) + 2.0 * ScalarProduct(u, v) + ScalarProduct(v, v);
  }

  /** The scalar product is bounded by the product of the lengths e of u and f of v. */
  lemma DotBelowLengths(u: Vector2, v: Vector2, e: real, f: real)
    requires 0.0 <= e && 0.0 <= f
    requires e * e == ScalarProduct(u, u) && f * f == ScalarProduct(v, v)
    ensures ScalarProduct(u, v) <= e * f
  {
    Lagrange(u, v);
    ProductOfSquares(e, f);
    ProductNonNegative(e, f);
    assert Squared(ScalarProduct(u, v)) <= Squared(e * f);
    SquareMonotone();
  }

  /** The radicand of Heron's formula as area computes it, from the three
      side lengths and the half-perimeter pr. */
  function HeronRadicand(ab: real, bc: real, ca: real): real
  {
    var pr := (ab + bc + ca) / 2.0;
    pr * (pr - ab) * (pr - bc) * (pr - ca)
  }

  /** The same radicand written with the squared side lengths x = ab^2,
      y = bc^2 and z = ca^2 alone. */
  function HeronOfSquares(x: real, y: real, z: real): real
  {
    (4.0 * x * z - (x + z - y) * (x + z - y)) / 16.0
  }

  /** Heron's radicand depends on the sides through their squares only. */
  lemma HeronIdentity()
    ensures forall a, b, c {:trigger HeronRadicand(a, b, c)} ::
      HeronRadicand(a, b, c) == HeronOfSquares(a * a, b * b, c * c)
  {
  }

  /** In terms of the vertices, the radicand is a quarter of the squared
      vector product. */
  lemma HeronOfTriangle(t: Triangle)
    ensures 4.0 * HeronOfSquares(SquaredDistance(t.A, t.B), SquaredDistance(t.B, t.C), SquaredDistance(t.C, t.A))
         == Cross(t) * Cross(t)
  {
  }

  /** The radicand of area, from the side lengths, is a quarter of the squared vector product. */
  lemma HeronRadicandIsCross(sqrt: real -> real, t: Triangle)
    requires IsSqrt(sqrt)
    ensures 4.0 * HeronRadicand(Distance(sqrt, t.A, t.B), Distance(sqrt, t.B, t.C), Distance(sqrt, t.C, t.A))
         == Cross(t) * Cross(t)
  {
    HeronIdentity();
    HeronOfTriangle(t);
  }

  /** Heron's formula: the root of the radicand area computes from the side
      lengths is half the absolute vector product. */
  lemma Heron(sqrt: real -> real, t: Triangle)
    requires IsSqrt(sqrt)
    ensures 0.0 <= HeronRadicand(Distance(sqrt, t.A, t.B), Distance(sqrt, t.B, t.C), Distance(sqrt, t.C, t.A))
    ensures sqrt(HeronRadicand(Distance(sqrt, t.A, t.B), Distance(sqrt, t.B, t.C), Distance(sqrt, t.C, t.A)))
         == Abs(Cross(t)) / 2.0
  {
    HeronRadicandIsCross(sqrt, t);
    RootOfHeron(sqrt);
  }

  /** A Heron radicand that is a quarter of c^2 has the root |c| / 2. */
  lemma RootOfHeron(sqrt: real -> real)
    requires IsSqrt(sqrt)
    ensures forall ab, bc, ca, c {:trigger HeronRadicand(ab, bc, ca), Abs(c)} ::
      4.0 * HeronRadicand(ab, bc, ca) == c * c ==>
        0.0 <= HeronRadicand(ab, bc, ca) && sqrt(HeronRadicand(ab, bc, ca)) == Abs(c) / 2.0
  {
    forall ab, bc, ca, c | 4.0 * HeronRadicand(ab, bc, ca) == c * c
      ensures 0.0 <= HeronRadicand(ab, bc, ca) && sqrt(HeronRadicand(ab, bc, ca)) == Abs(c) / 2.0
    {
      RootOfQuarterSquare(sqrt, HeronRadicand(ab, bc, ca), c);
    }
  }

  /** The root of a quarter of c^2 is |c| / 2. */
  lemma RootOfQuarterSquare(sqrt: real -> real, r: real, c: real)
    requires IsSqrt(sqrt)
    requires 4.0 * r == c * c
    ensures 0.0 <= r && sqrt(r) == Abs(c) / 2.0
  {
    var h := c / 2.0;
    assert r == h * h;
    SqrtOfSquare(sqrt, h);
  }

  /** area, by Heron's formula: half the absolute vector product of two edges. */
  function Area(sqrt: real -> real, t: Triangle): (s: real)
    requires IsSqrt(sqrt)
    ensures 0.0 <= s
    ensures s == Abs(Cross(t)) / 2.0
  {
    var ab, bc, ca := Distance(sqrt, t.A, t.B), Distance(sqrt, t.B, t.C), Distance(sqrt, t.C, t.A);
    Heron(sqrt, t);
    sqrt(HeronRadicand(ab, bc, ca))
  }

  /** translate: every vertex moves by the same vector, the one that carries
      the centroid to newCenter. */
  function Translate(t: Triangle, newCenter: Point): (r: Triangle)
    ensures Center(r) == newCenter
    ensures Subtract(r.A, t.A) == Subtract(newCenter, Center(t))
    ensures Subtract(r.B, t.B) == Subtract(newCenter, Center(t))
    ensures Subtract(r.C, t.C) == Subtract(newCenter, Center(t))
  {
    var swift := Subtract(Center(t), newCenter);
    Triangle(Subtract(t.A, swift), Subtract(t.B, swift), Subtract(t.C, swift))
  }

  /** scale: every vertex moves away from the centroid by the factor k. */
  function Scale(t: Triangle, k: real): (r: Triangle)
    ensures Center(r) == Center(t)
    ensures Subtract(r.A, Center(t)) == Multiply(Subtract(t.A, Center(t)), k)
    ensures Subtract(r.B, Center(t)) == Multiply(Subtract(t.B, Center(t)), k)
    ensures Subtract(r.C, Center(t)) == Multiply(Subtract(t.C, Center(t)), k)
  {
    var c := Center(t);
    ScaleAboutDifference(t.A, t.A, c, k);
    ScaleAboutDifference(t.B, t.B, c, k);
    ScaleAboutDifference(t.C, t.C, c, k);
    Triangle(ScaleAbout(t.A, c, k), ScaleAbout(t.B, c, k), ScaleAbout(t.C, c, k))
  }

  /** A point P scaled about a centre keeps the differences with other
      scaled points in proportion; in particular a triangle's edges scale by k. */
  lemma ScaleEdges(t: Triangle, k: real)
    ensures Subtract(Scale(t, k).B, Scale(t, k).A) == Multiply(Subtract(t.B, t.A), k)
    ensures Subtract(Scale(t, k).C, Scale(t, k).B) == Multiply(Subtract(t.C, t.B), k)
    ensures Subtract(Scale(t, k).A, Scale(t, k).C) == Multiply(Subtract(t.A, t.C), k)
    ensures Subtract(Scale(t, k).C, Scale(t, k).A) == Multiply(Subtract(t.C, t.A), k)
  {
    var c := Center(t);
    ScaleAboutDifference(t.B, t.A, c, k);
    ScaleAboutDifference(t.C, t.B, c, k);
    ScaleAboutDifference(t.A, t.C, c, k);
    ScaleAboutDifference(t.C, t.A, c, k);
  }

  /** The line kx * x + ky * y + sh == 0, one of the two equations
      intersection_midline_perpendiculars solves for the circumcentre. */
  datatype Line = Line(kx: real, ky: real, sh: real)

  /** The left-hand side of the line's equation at p. */
  function Eval(l: Line, p: Point): real
  {
    l.kx * p.x + l.ky * p.y + l.sh
  }

  /** (k1x, k1y, sh1): the points P with 2 |PA|^2 == |PB|^2 + |PC|^2. */
  function FirstLine(t: Triangle): Line
  {
    Line(2.0 * (t.B.x + t.C.x - 2.0 * t.A.x),
         2.0 * (t.B.y + t.C.y - 2.0 * t.A.y),
         2.0 * t.A.x * t.A.x - t.B.x * t.B.x - t.C.x * t.C.x
           + 2.0 * t.A.y * t.A.y - t.B.y * t.B.y - t.C.y * t.C.y)
  }

  /** (k2x, k2y, sh2): the points P with 2 |PB|^2 == |PC|^2 + |PA|^2. */
  function SecondLine(t: Triangle): Line
  {
    Line(2.0 * (t.C.x + t.A.x - 2.0 * t.B.x),
         2.0 * (t.C.y + t.A.y - 2.0 * t.B.y),
         2.0 * t.B.x * t.B.x - t.C.x * t.C.x - t.A.x * t.A.x
           + 2.0 * t.B.y * t.B.y - t.C.y * t.C.y - t.A.y * t.A.y)
  }

  /** p is as far from A as from B and from C. */
  predicate Equidistant(t: Triangle, p: Point)
  {
    SquaredDistance(p, t.A) == SquaredDistance(p, t.B) && SquaredDistance(p, t.A) == SquaredDistance(p, t.C)
  }

  /** What the two lines mean: the first weighs |PA|^2 twice against |PB|^2
      and |PC|^2, the second |PB|^2 against |PC|^2 and |PA|^2. */
  lemma LinesMeaning(t: Triangle, p: Point)
    ensures Eval(FirstLine(t), p) == 2.0 * SquaredDistance(p, t.A) - SquaredDistance(p, t.B) - SquaredDistance(p, t.C)
    ensures Eval(SecondLine(t), p) == 2.0 * SquaredDistance(p, t.B) - SquaredDistance(p, t.C) - SquaredDistance(p, t.A)
  {
    FirstLineMeaning(t, p);
    SecondLineMeaning(t, p);
  }

  /** The first line weighs |PA|^2 twice against |PB|^2 and |PC|^2. */
  lemma FirstLineMeaning(t: Triangle, p: Point)
    ensures Eval(FirstLine(t), p) == 2.0 * SquaredDistance(p, t.A) - SquaredDistance(p, t.B) - SquaredDistance(p, t.C)
  {
    FirstLineWeighs(t, p);
    WeighedDistances(p, t.A, t.B, t.C);
  }

  /** The second line weighs |PB|^2 twice against |PC|^2 and |PA|^2. */
  lemma SecondLineMeaning(t: Triangle, p: Point)
    ensures Eval(SecondLine(t), p) == 2.0 * SquaredDistance(p, t.B) - SquaredDistance(p, t.C) - SquaredDistance(p, t.A)
  {
    SecondLineWeighs(t, p);
    WeighedDistances(p, t.B, t.C, t.A);
  }

  /** One coordinate of the weighing of squared distances. */
  function Weighed(p: real, a: real, b: real, c: real): real
  {
    2.0 * ((p - a) * (p - a)) - (p - b) * (p - b) - (p - c) * (p - c)
  }

  /** The squares of p cancel, which leaves the coefficients of the first line. */
  lemma FirstLineWeighs(t: Triangle, p: Point)
    ensures Eval(FirstLine(t), p) == Weighed(p.x, t.A.x, t.B.x, t.C.x) + Weighed(p.y, t.A.y, t.B.y, t.C.y)
  {
  }

  /** Likewise for the coefficients of the second line. */
  lemma SecondLineWeighs(t: Triangle, p: Point)
    ensures Eval(SecondLine(t), p) == Weighed(p.x, t.B.x, t.C.x, t.A.x) + Weighed(p.y, t.B.y, t.C.y, t.A.y)
  {
  }

  /** The weighing of the coordinates is the weighing of the squared distances. */
  lemma WeighedDistances(p: Point, a: Point, b: Point, c: Point)
    ensures 2.0 * SquaredDistance(p, a) - SquaredDistance(p, b) - SquaredDistance(p, c)
        == Weighed(p.x, a.x, b.x, c.x) + Weighed(p.y, a.y, b.y, c.y)
  {
    SquaredDistanceOfDifference(p, a);
    SquaredDistanceOfDifference(p, b);
    SquaredDistanceOfDifference(p, c);
  }

  /** A point lies on both lines exactly when it is equidistant from the vertices. */
  lemma OnBothLines(t: Triangle, p: Point)
    ensures Eval(FirstLine(t), p) == 0.0 && Eval(SecondLine(t), p) == 0.0 <==> Equidistant(t, p)
  {
    LinesMeaning(t, p);
  }

  /** The determinant of the pair of lines. */
  function Det(l1: Line, l2: Line): real
  {
    l1.kx * l2.ky - l1.ky * l2.kx
  }

  /** The lines of a triangle meet in one point exactly when the triangle is
      not flat: their determinant is 12 times the vector product. */
  lemma DetOfTriangle(t: Triangle)
    ensures Det(FirstLine(t), SecondLine(t)) == 12.0 * Cross(t)
  {
  }

  /** Where two lines meet, by Cramer's rule; None when they are parallel. */
  function Solve(l1: Line, l2: Line): (r: Option<Point>)
    ensures r.Some? <==> Det(l1, l2) != 0.0
    ensures r.Some? ==> Eval(l1, r.value) == 0.0 && Eval(l2, r.value) == 0.0
  {
    if Det(l1, l2) == 0.0 then None
    else
      CramerSolves(l1, l2);
      Some(Point((l1.ky * l2.sh - l2.ky * l1.sh) / Det(l1, l2), (l2.kx * l1.sh - l1.kx * l2.sh) / Det(l1, l2)))
  }

  /** Cramer's rule gives a point on both lines. */
  lemma CramerSolves(l1: Line, l2: Line)
    requires Det(l1, l2) != 0.0
    ensures var d := Det(l1, l2);
      var p := Point((l1.ky * l2.sh - l2.ky * l1.sh) / d, (l2.kx * l1.sh - l1.kx * l2.sh) / d);
      Eval(l1, p) == 0.0 && Eval(l2, p) == 0.0
  {
    var d := Det(l1, l2);
    var nx, ny := l1.ky * l2.sh - l2.ky * l1.sh, l2.kx * l1.sh - l1.kx * l2.sh;
    var x, y := nx / d, ny / d;
    assert x * d == nx && y * d == ny;
    assert (l1.kx * x + l1.ky * y + l1.sh) * d == l1.kx * nx + l1.ky * ny + l1.sh * d;
    assert (l2.kx * x + l2.ky * y + l2.sh) * d == l2.kx * nx + l2.ky * ny + l2.sh * d;
  }

  /** Lines with a non-zero determinant meet in one point only. */
  lemma SolveUnique(l1: Line, l2: Line, p: Point)
    requires Det(l1, l2) != 0.0
    requires Eval(l1, p) == 0.0 && Eval(l2, p) == 0.0
    ensures Solve(l1, l2) == Some(p)
  {
    assert (l1.kx * p.x + l1.ky * p.y) * l2.ky - (l2.kx * p.x + l2.ky * p.y) * l1.ky == p.x * Det(l1, l2);
    assert (l2.kx * p.x + l2.ky * p.y) * l1.kx - (l1.kx * p.x + l1.ky * p.y) * l2.kx == p.y * Det(l1, l2);
    assert p.x == (l1.ky * l2.sh - l2.ky * l1.sh) / Det(l1, l2);
    assert p.y == (l2.kx * l1.sh - l1.kx * l2.sh) / Det(l1, l2);
    assert Solve(l1, l2).value.x == (l1.ky * l2.sh - l2.ky * l1.sh) / Det(l1, l2);
    assert Solve(l1, l2).value.y == (l2.kx * l1.sh - l1.kx * l2.sh) / Det(l1, l2);
  }

  /** The elimination intersection_midline_perpendiculars performs: x is
      solved from the second line, which divides by k2x, and substituted
      into the first.  None stands for the non-finite coordinates (NaN or
      infinite) that a division by zero yields there. */
  function SolveAsWritten(l1: Line, l2: Line): (r: Option<Point>)
    ensures r.Some? <==> l2.kx != 0.0 && Det(l1, l2) != 0.0
    ensures r.Some? ==> Eval(l1, r.value) == 0.0 && Eval(l2, r.value) == 0.0
  {
    if l2.kx == 0.0 then None
    else
      EliminationDenominator(l1, l2);
      if l1.ky - l1.kx * l2.ky / l2.kx == 0.0 then None
      else
        EliminationSolves(l1, l2);
        Some(Eliminate(l1, l2))
  }

  /** The elimination's result where neither of its divisors is zero. */
  function Eliminate(l1: Line, l2: Line): Point
    requires l2.kx != 0.0 && l1.ky - l1.kx * l2.ky / l2.kx != 0.0
  {
    var y := (l1.kx * l2.sh / l2.kx - l1.sh) / (l1.ky - l1.kx * l2.ky / l2.kx);
    var x := -(l2.ky * y + l2.sh) / l2.kx;
    Point(x, y)
  }

  /** The denominator of the elimination is the determinant over -k2x. */
  lemma EliminationDenominator(l1: Line, l2: Line)
    requires l2.kx != 0.0
    ensures (l1.ky - l1.kx * l2.ky / l2.kx) * l2.kx == -Det(l1, l2)
  {
  }

  /** The elimination, where it divides by non-zero numbers, gives a point on both lines. */
  lemma EliminationSolves(l1: Line, l2: Line)
    requires l2.kx != 0.0 && l1.ky - l1.kx * l2.ky / l2.kx != 0.0
    ensures Eval(l1, Eliminate(l1, l2)) == 0.0 && Eval(l2, Eliminate(l1, l2)) == 0.0
  {
    var q := l2.ky / l2.kx;
    var d := l1.ky - l1.kx * q;
    var p := Eliminate(l1, l2);
    assert p.x * l2.kx == -(l2.ky * p.y + l2.sh);
    assert p.y * d == l1.kx * l2.sh / l2.kx - l1.sh;
    assert l1.kx * p.x == -(l1.kx * q) * p.y - l1.kx * l2.sh / l2.kx;
  }

  /** intersection_midline_perpendiculars as written: a finite point exactly
      when k2x is non-zero and the triangle is not flat, and then the centre
      of the circumscribed circle. */
  function CircumcenterAsWritten(t: Triangle): (r: Option<Point>)
    ensures r.Some? <==> SecondLine(t).kx != 0.0 && Cross(t) != 0.0
    ensures r.Some? ==> Equidistant(t, r.value)
  {
    DetOfTriangle(t);
    var r := SolveAsWritten(FirstLine(t), SecondLine(t));
    assert (r.Some? ==> Equidistant(t, r.value)) by {
      if r.Some? { OnBothLines(t, r.value); }
    }
    r
  }

  /** The centre of the circumscribed circle, found by Cramer's rule from the
      same two lines: it exists exactly when the triangle is not flat. */
  function Circumcenter(t: Triangle): (r: Option<Point>)
    ensures r.Some? <==> Cross(t) != 0.0
    ensures r.Some? ==> Equidistant(t, r.value)
  {
    DetOfTriangle(t);
    var r := Solve(FirstLine(t), SecondLine(t));
    assert (r.Some? ==> Equidistant(t, r.value)) by {
      if r.Some? { OnBothLines(t, r.value); }
    }
    r
  }

  /** The circumcentre is the only point equidistant from the vertices. */
  lemma CircumcenterUnique(t: Triangle, p: Point)
    requires Cross(t) != 0.0 && Equidistant(t, p)
    ensures Circumcenter(t) == Some(p)
  {
    DetOfTriangle(t);
    OnBothLines(t, p);
    SolveUnique(FirstLine(t), SecondLine(t), p);
  }

  /** Where the source's elimination yields a point, it is the circumcentre. */
  lemma AsWrittenAgrees(t: Triangle)
    ensures CircumcenterAsWritten(t).Some? ==> CircumcenterAsWritten(t) == Circumcenter(t)
  {
    if CircumcenterAsWritten(t).Some? {
      CircumcenterUnique(t, CircumcenterAsWritten(t).value);
    }
  }

  /** The elimination fails on a triangle that has a circumcentre exactly
      when A.x + C.x == 2 B.x, that is when k2x is zero. */
  lemma AsWrittenFailsExactly(t: Triangle)
    ensures (CircumcenterAsWritten(t).None? && Circumcenter(t).Some?)
        <==> (t.A.x + t.C.x == 2.0 * t.B.x && Cross(t) != 0.0)
  {
  }

  /** The triangle (-1, 0), (0, 1), (1, 0) about o, for every o (o == (1, 0)
      gives (0, 0), (1, 1), (2, 0)), has the circumcentre o, but the
      elimination divides by k2x == 0 on it. */
  lemma AsWrittenMissesCircumcenter(t: Triangle, o: Point)
    requires Subtract(t.A, o) == Point(-1.0, 0.0) && Subtract(t.B, o) == Point(0.0, 1.0)
    requires Subtract(t.C, o) == Point(1.0, 0.0)
    ensures Cross(t) == -2.0 && SecondLine(t).kx == 0.0
    ensures CircumcenterAsWritten(t) == None
    ensures Circumcenter(t) == Some(o)
  {
    assert Subtract(t.B, t.A) == Point(1.0, 1.0) && Subtract(t.C, t.A) == Point(2.0, 0.0);
    assert Equidistant(t, o);
    CircumcenterUnique(t, o);
  }

  /** circumscribedCircle: the circle about the circumcentre through A; it
      passes through all three vertices.  None for a flat triangle. */
  function CircumscribedCircle(sqrt: real -> real, t: Triangle): (r: Option<Ellipses.Ellipse>)
    requires IsSqrt(sqrt)
    ensures r.Some? <==> Cross(t) != 0.0
    ensures r.Some? ==> Ellipses.Valid(r.value) && r.value.Circle?
    ensures r.Some? ==> var o, rad := Ellipses.Center(r.value), Ellipses.Radius(r.value);
      Distance(sqrt, o, t.A) == rad && Distance(sqrt, o, t.B) == rad && Distance(sqrt, o, t.C) == rad
  {
    match Circumcenter(t)
    case None => None
    case Some(o) =>
      MidpointSymmetric(o, o);
      Some(Ellipses.NewCircle(o, Distance(sqrt, o, t.A)))
  }

  /** circumscribedCircle as written: its centre comes from the source's
      elimination, so there is no circle (the centre is not finite) where
      k2x is zero; wherever there is one, it is the circumscribed circle. */
  function CircumscribedCircleAsWritten(sqrt: real -> real, t: Triangle): (r: Option<Ellipses.Ellipse>)
    requires IsSqrt(sqrt)
    ensures r.Some? <==> SecondLine(t).kx != 0.0 && Cross(t) != 0.0
    ensures r.Some? ==> r == CircumscribedCircle(sqrt, t)
  {
    match CircumcenterAsWritten(t)
    case None => None
    case Some(o) =>
      AsWrittenAgrees(t);
      Some(Ellipses.NewCircle(o, Distance(sqrt, o, t.A)))
  }

  /** On the same triangles the source's circumscribedCircle has no finite
      centre, while the circumscribed circle exists. */
  lemma AsWrittenMissesCircle(sqrt: real -> real, t: Triangle, o: Point)
    requires IsSqrt(sqrt)
    requires Subtract(t.A, o) == Point(-1.0, 0.0) && Subtract(t.B, o) == Point(0.0, 1.0)
    requires Subtract(t.C, o) == Point(1.0, 0.0)
    ensures CircumscribedCircleAsWritten(sqrt, t) == None
    ensures CircumscribedCircle(sqrt, t).Some?
  {
    AsWrittenMissesCircumcenter(t, o);
  }

  /** Translating to the centre the triangle already has changes nothing. */
  lemma TranslateToOwnCenter(t: Triangle)
    ensures Translate(t, Center(t)) == t
  {
  }

  /** A translation keeps the edge vectors, hence the perimeter and the area. */
  lemma TranslateKeepsMeasures(sqrt: real -> real, t: Triangle, newCenter: Point)
    requires IsSqrt(sqrt)
    ensures Perimeter(sqrt, Translate(t, newCenter)) == Perimeter(sqrt, t)
    ensures Area(sqrt, Translate(t, newCenter)) == Area(sqrt, t)
  {
    var r := Translate(t, newCenter);
    assert Subtract(r.A, r.B) == Subtract(t.A, t.B);
    assert Subtract(r.B, r.C) == Subtract(t.B, t.C);
    assert Subtract(r.C, r.A) == Subtract(t.C, t.A);
    assert Subtract(r.B, r.A) == Subtract(t.B, t.A);
    SameDifferenceSameDistance(sqrt, r.A, r.B, t.A, t.B);
    SameDifferenceSameDistance(sqrt, r.B, r.C, t.B, t.C);
    SameDifferenceSameDistance(sqrt, r.C, r.A, t.C, t.A);
  }

  /** Scaling by k multiplies the vector product of the edges by k^2. */
  lemma ScaleCross(t: Triangle, k: real)
    ensures Cross(Scale(t, k)) == k * k * Cross(t)
    ensures ScaledBy(Cross(Scale(t, k)), Cross(t), k * k)
  {
    ScaleEdges(t, k);
  }

  /** Scaling by k multiplies the area by k^2. */
  lemma ScaleArea(sqrt: real -> real, t: Triangle, k: real)
    requires IsSqrt(sqrt)
    ensures Area(sqrt, Scale(t, k)) == k * k * Area(sqrt, t)
    ensures ScaledBy(Area(sqrt, Scale(t, k)), Area(sqrt, t), k * k)
  {
    ScaledArea(sqrt, t, k);
  }

  /** ScaleArea, as a proportion. */
  lemma ScaledArea(sqrt: real -> real, t: Triangle, k: real)
    requires IsSqrt(sqrt)
    ensures ScaledBy(Area(sqrt, Scale(t, k)), Area(sqrt, t), k * k)
  {
    ScaleCross(t, k);
    AreaOfScaledCross(sqrt, t, Scale(t, k), k * k);
  }

  /** A triangle whose vector product is m >= 0 times that of t has m times its area. */
  lemma AreaOfScaledCross(sqrt: real -> real, t: Triangle, s: Triangle, m: real)
    requires IsSqrt(sqrt) && 0.0 <= m
    requires ScaledBy(Cross(s), Cross(t), m)
    ensures ScaledBy(Area(sqrt, s), Area(sqrt, t), m)
  {
    AbsScaled(Cross(s), Cross(t), m);
    HalfScaled(Abs(Cross(s)), Abs(Cross(t)), m);
  }

  /** Scaling by k multiplies every side, hence the perimeter, by |k|. */
  lemma ScalePerimeter(sqrt: real -> real, t: Triangle, k: real)
    requires IsSqrt(sqrt)
    ensures Perimeter(sqrt, Scale(t, k)) == Abs(k) * Perimeter(sqrt, t)
    ensures ScaledBy(Perimeter(sqrt, Scale(t, k)), Perimeter(sqrt, t), Abs(k))
  {
    var s := Scale(t, k);
    ScaleSides(sqrt, t, k);
    PerimeterOfGrownSides(sqrt, t, s, Abs(k));
    assert ScaledBy(Perimeter(sqrt, s), Perimeter(sqrt, t), Abs(k));
  }

  /** Each side of the scaled triangle is |k| times the original side. */
  lemma ScaleSides(sqrt: real -> real, t: Triangle, k: real)
    requires IsSqrt(sqrt)
    ensures ScaledBy(Distance(sqrt, Scale(t, k).A, Scale(t, k).B), Distance(sqrt, t.A, t.B), Abs(k))
    ensures ScaledBy(Distance(sqrt, Scale(t, k).B, Scale(t, k).C), Distance(sqrt, t.B, t.C), Abs(k))
    ensures ScaledBy(Distance(sqrt, Scale(t, k).C, Scale(t, k).A), Distance(sqrt, t.C, t.A), Abs(k))
  {
    var c := Center(t);
    assert Scale(t, k) == Triangle(ScaleAbout(t.A, c, k), ScaleAbout(t.B, c, k), ScaleAbout(t.C, c, k));
    ScaleAboutDistance(sqrt, t.A, t.B, c, k);
    ScaleAboutDistance(sqrt, t.B, t.C, c, k);
    ScaleAboutDistance(sqrt, t.C, t.A, c, k);
  }

  /** A triangle whose sides are m times those of t has m times its perimeter. */
  lemma PerimeterOfGrownSides(sqrt: real -> real, t: Triangle, s: Triangle, m: real)
    requires IsSqrt(sqrt)
    requires ScaledBy(Distance(sqrt, s.A, s.B), Distance(sqrt, t.A, t.B), m)
    requires ScaledBy(Distance(sqrt, s.B, s.C), Distance(sqrt, t.B, t.C), m)
    requires ScaledBy(Distance(sqrt, s.C, s.A), Distance(sqrt, t.C, t.A), m)
    ensures ScaledBy(Perimeter(sqrt, s), Perimeter(sqrt, t), m)
  {
    SumScaled(Distance(sqrt, s.A, s.B), Distance(sqrt, s.B, s.C), Distance(sqrt, s.C, s.A),
              Distance(sqrt, t.A, t.B), Distance(sqrt, t.B, t.C), Distance(sqrt, t.C, t.A), m);
  }

  /** Scaling by k and then by 1/k restores the triangle. */
  lemma ScaleRoundTrip(t: Triangle, k: real)
    requires k != 0.0
    ensures Scale(Scale(t, k), 1.0 / k) == t
  {
    var c := Center(t);
    ScaleAboutInverse(t.A, c, k);
    ScaleAboutInverse(t.B, c, k);
    ScaleAboutInverse(t.C, c, k);
  }

  /** The right triangle with legs 4 and 3, wherever it is placed, has sides
      4, 5 and 3, so perimeter 12 ... */
  lemma RightTrianglePerimeter(sqrt: real -> real, t: Triangle)
    requires IsSqrt(sqrt)
    requires Subtract(t.B, t.A) == Point(4.0, 0.0) && Subtract(t.C, t.A) == Point(0.0, 3.0)
    ensures Perimeter(sqrt, t) == 12.0
  {
    assert SquaredDistance(t.A, t.B) == 4.0 * 4.0;
    assert SquaredDistance(t.B, t.C) == 5.0 * 5.0;
    assert SquaredDistance(t.C, t.A) == 3.0 * 3.0;
    SqrtOfSquare(sqrt, 4.0);
    SqrtOfSquare(sqrt, 5.0);
    SqrtOfSquare(sqrt, 3.0);
  }

  /** ... and area 6, half the product of the legs ... */
  lemma RightTriangleArea(sqrt: real -> real, t: Triangle)
    requires IsSqrt(sqrt)
    requires Subtract(t.B, t.A) == Point(4.0, 0.0) && Subtract(t.C, t.A) == Point(0.0, 3.0)
    ensures Area(sqrt, t) == 6.0
  {
    assert Cross(t) == 12.0;
  }

  /** ... and its circumcentre is the midpoint of the hypotenuse, (2, 1.5)
      away from the right angle. */
  lemma RightTriangleCircumcenter(t: Triangle)
    requires Subtract(t.B, t.A) == Point(4.0, 0.0) && Subtract(t.C, t.A) == Point(0.0, 3.0)
    ensures Circumcenter(t) == Some(Add(t.A, Point(2.0, 1.5)))
  {
    assert Cross(t) == 12.0;
    var o := Add(t.A, Point(2.0, 1.5));
    assert SquaredDistance(o, t.A) == 6.25 && SquaredDistance(o, t.B) == 6.25 && SquaredDistance(o, t.C) == 6.25;
    CircumcenterUnique(t, o);
  }
}
