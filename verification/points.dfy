/** Options for results that the source would report as NaN. */
module Options {
  datatype Option<+T> = None | Some(value: T)
}

/** Points of the plane and the vector arithmetic on them (Point and Vector2). */
module Points {
  import opened Reals

  /** A point of the plane.  The source's Vector2 is a Point read as a
      direction and shares its storage, so it is the same type here. */
  datatype Point = Point(x: real, y: real)

  type Vector2 = Point

  const Origin: Point := Point(0.0, 0.0)

  /** Point.add: translation by a vector; Subtract undoes it. */
  function Add(p: Point, q: Point): (r: Point)
    ensures Subtract(r, q) == p
  {
    Point(p.x + q.x, p.y + q.y)
  }

  /** p - q is the vector that carries q onto p; Add undoes it (see
      AddSubtractRoundTrip). */
  function Subtract(p: Point, q: Point): (r: Point)
  {
    Point(p.x - q.x, p.y - q.y)
  }

  /** Multiplication by a scalar; Devide undoes it (see MultiplyDevideRoundTrip). */
  function Multiply(p: Point, m: real): (r: Point)
  {
    Point(p.x * m, p.y * m)
  }

  /** Division by a scalar (the source spells it `devide`); undone by multiplying back. */
  function Devide(p: Point, m: real): (r: Point)
    requires m != 0.0
    ensures Multiply(r, m) == p
  {
    Point(p.x / m, p.y / m)
  }

  /** Point.center: the midpoint, which is as far from a as b is from it. */
  function Midpoint(a: Point, b: Point): (r: Point)
    ensures Subtract(a, r) == Subtract(r, b)
  {
    Point((a.x + b.x) / 2.0, (a.y + b.y) / 2.0)
  }

  /** Vector2.scalarProduct; Polarization and Lagrange state what it measures. */
  function ScalarProduct(a: Vector2, b: Vector2): real
  {
    a.x * b.x + a.y * b.y
  }

  /** Vector2.vectorProduct: the z-component of the cross product; Lagrange
      and QuarterTurn state what it measures. */
  function VectorProduct(a: Vector2, b: Vector2): real
  {
    a.x * b.y - b.x * a.y
  }

  /** The Vector2(bp, ep) constructor: the vector that carries bp onto ep. */
  function Between(bp: Point, ep: Point): (v: Vector2)
    ensures Add(bp, v) == ep
  {
    Point(ep.x - bp.x, ep.y - bp.y)
  }

  /** The square of the distance between two points: the radicand of
      Point.distance, free of roots. */
  function SquaredDistance(a: Point, b: Point): (d: real)
    ensures 0.0 <= d
  {
    SumOfSquaresPositive(a.x - b.x, a.y - b.y);
    (a.x - b.x) * (a.x - b.x) + (a.y - b.y) * (a.y - b.y)
  }

  /** Point.length: the Euclidean norm. */
  function Length(sqrt: real -> real, p: Vector2): (r: real)
    requires IsSqrt(sqrt)
    ensures 0.0 <= r
    ensures r * r == ScalarProduct(p, p)
  {
    SumOfSquaresPositive(p.x, p.y);
    Root(sqrt, ScalarProduct(p, p));
    sqrt(ScalarProduct(p, p))
  }

  /** Point.distance. */
  function Distance(sqrt: real -> real, a: Point, b: Point): (r: real)
    requires IsSqrt(sqrt)
    ensures 0.0 <= r
    ensures r * r == SquaredDistance(a, b)
  {
    Root(sqrt, SquaredDistance(a, b));
    sqrt(SquaredDistance(a, b))
  }

  /** p moved away from (or towards) c by the factor k: the step every
      shape's scale applies to its defining points. */
  function ScaleAbout(p: Point, c: Point, k: real): Point
  {
    Add(Multiply(Subtract(p, c), k), c)
  }

  /** Adding then subtracting the same vector gives the point back. */
  lemma AddSubtractRoundTrip(p: Point, q: Point)
    ensures Subtract(Add(p, q), q) == p
    ensures Add(Subtract(p, q), q) == p
  {
  }

  /** Multiplying by a non-zero scalar and then dividing by it gives the point back. */
  lemma MultiplyDevideRoundTrip(p: Point, m: real)
    requires m != 0.0
    ensures Devide(Multiply(p, m), m) == p
  {
    assert p.x * m / m == p.x;
    assert p.y * m / m == p.y;
  }

  /** Polarization: four times the scalar product of a and b is the squared
      distance from a to -b less the squared distance from a to b. */
  lemma Polarization(a: Vector2, b: Vector2)
    ensures 4.0 * ScalarProduct(a, b) == SquaredDistance(a, Multiply(b, -1.0)) - SquaredDistance(a, b)
  {
  }

  /** The vector product of a and b is the scalar product of a turned a
      quarter turn counter-clockwise with b. */
  lemma QuarterTurn(a: Vector2, b: Vector2)
    ensures VectorProduct(a, b) == ScalarProduct(Point(-a.y, a.x), b)
  {
  }

  /** Point.center is symmetric and fixes a doubled point. */
  lemma MidpointSymmetric(a: Point, b: Point)
    ensures Midpoint(a, b) == Midpoint(b, a)
    ensures Midpoint(a, a) == a
  {
  }

  /** The distance is the length of the difference vector, and is symmetric. */
  lemma DistanceIsLength(sqrt: real -> real, a: Point, b: Point)
    requires IsSqrt(sqrt)
    ensures Distance(sqrt, a, b) == Length(sqrt, Subtract(a, b))
    ensures Distance(sqrt, a, b) == Distance(sqrt, b, a)
  {
    SquaredDistanceOfDifference(a, b);
    assert SquaredDistance(a, b) == SquaredDistance(b, a);
  }

  /** A point is at distance zero from itself. */
  lemma DistanceToSelf(sqrt: real -> real, a: Point)
    requires IsSqrt(sqrt)
    ensures Distance(sqrt, a, a) == 0.0
  {
    assert SquaredDistance(a, a) == 0.0 * 0.0;
    SqrtOfSquare(sqrt, 0.0);
  }

  /** Scaling about a centre scales every difference vector by k. */
  lemma ScaleAboutDifference(p: Point, q: Point, c: Point, k: real)
    ensures Subtract(ScaleAbout(p, c, k), ScaleAbout(q, c, k)) == Multiply(Subtract(p, q), k)
    ensures Subtract(ScaleAbout(p, c, k), c) == Multiply(Subtract(p, c), k)
  {
    assert (p.x - c.x) * k - (q.x - c.x) * k == (p.x - q.x) * k;
    assert (p.y - c.y) * k - (q.y - c.y) * k == (p.y - q.y) * k;
  }

  /** The squared distance depends on the difference vector alone. */
  lemma SquaredDistanceOfDifference(a: Point, b: Point)
    ensures SquaredDistance(a, b) == ScalarProduct(Subtract(a, b), Subtract(a, b))
  {
  }

  /** Two pairs of points with the same difference vector are equally far apart. */
  lemma SameDifferenceSameDistance(sqrt: real -> real, a: Point, b: Point, c: Point, d: Point)
    requires IsSqrt(sqrt)
    requires Subtract(a, b) == Subtract(c, d)
    ensures SquaredDistance(a, b) == SquaredDistance(c, d)
    ensures Distance(sqrt, a, b) == Distance(sqrt, c, d)
  {
    SquaredDistanceOfDifference(a, b);
    SquaredDistanceOfDifference(c, d);
  }

  /** Scaling about any centre multiplies squared distances by k*k. */
  lemma ScaleAboutSquaredDistance(p: Point, q: Point, c: Point, k: real)
    ensures SquaredDistance(ScaleAbout(p, c, k), ScaleAbout(q, c, k)) == k * k * SquaredDistance(p, q)
  {
    var v := Subtract(p, q);
    ScaleAboutDifference(p, q, c, k);
    SquaredDistanceOfDifference(ScaleAbout(p, c, k), ScaleAbout(q, c, k));
    SquaredDistanceOfDifference(p, q);
    assert ScalarProduct(Multiply(v, k), Multiply(v, k)) == k * k * ScalarProduct(v, v);
  }

  /** Scaling about any centre multiplies distances by |k|. */
  lemma ScaleAboutDistance(sqrt: real -> real, p: Point, q: Point, c: Point, k: real)
    requires IsSqrt(sqrt)
    ensures Distance(sqrt, ScaleAbout(p, c, k), ScaleAbout(q, c, k)) == Abs(k) * Distance(sqrt, p, q)
    ensures ScaledBy(Distance(sqrt, ScaleAbout(p, c, k), ScaleAbout(q, c, k)), Distance(sqrt, p, q), Abs(k))
  {
    ScaleAboutSquaredDistance(p, q, c, k);
    ScaledRoot(Distance(sqrt, ScaleAbout(p, c, k), ScaleAbout(q, c, k)), Distance(sqrt, p, q), k);
  }

  /** Scaling by k and then by 1/k about the same centre gives the point back. */
  lemma ScaleAboutInverse(p: Point, c: Point, k: real)
    requires k != 0.0
    ensures ScaleAbout(ScaleAbout(p, c, k), c, 1.0 / k) == p
  {
    assert k * (1.0 / k) == 1.0;
    assert (p.x - c.x) * k * (1.0 / k) == p.x - c.x;
    assert (p.y - c.y) * k * (1.0 / k) == p.y - c.y;
  }

  /** Scaling two points about their own midpoint leaves the midpoint where it is. */
  lemma ScaleAboutMidpoint(a: Point, b: Point, k: real)
    ensures Midpoint(ScaleAbout(a, Midpoint(a, b), k), ScaleAbout(b, Midpoint(a, b), k)) == Midpoint(a, b)
  {
    var c := Midpoint(a, b);
    assert (a.x - c.x) * k + (b.x - c.x) * k == (a.x + b.x - 2.0 * c.x) * k;
    assert (a.y - c.y) * k + (b.y - c.y) * k == (a.y + b.y - 2.0 * c.y) * k;
  }

  /** Lagrange's identity: the squared dot and cross products of two vectors
      add up to the product of their squared lengths. */
  lemma Lagrange(u: Vector2, v: Vector2)
    ensures ScalarProduct(u, v) * ScalarProduct(u, v) + VectorProduct(u, v) * VectorProduct(u, v)
         == ScalarProduct(u, u) * ScalarProduct(v, v)
  {
  }

  /** The vector product is antisymmetric and the scalar product symmetric. */
  lemma ProductSymmetries(u: Vector2, v: Vector2)
    ensures VectorProduct(u, v) == -VectorProduct(v, u)
    ensures ScalarProduct(u, v) == ScalarProduct(v, u)
    ensures VectorProduct(u, u) == 0.0
  {
  }
}
