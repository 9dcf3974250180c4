/** The pieces of java.lang.Math the geometry uses, over exact reals.

    Dafny's reals have no square root, so every length computation in the
    model takes the square root as a parameter `sqrt` and asks only that it
    behave as one on the non-negative reals (`IsSqrt`).  Everything the
    model proves about lengths follows from that and from the uniqueness of
    non-negative roots, proved below.
 */
module Reals {

  /** Math.PI as the shortest decimal that reads back as that double; the
      double itself is 3.141592653589793115997963..., so this real differs
      from it in the seventeenth digit. */
  const PI: real := 3.141592653589793

  /** Math.abs. */
  function Abs(x: real): (r: real)
    ensures 0.0 <= r
    ensures r * r == x * x
    ensures r == x || r == -x
  {
    if x < 0.0 then -x else x
  }

  /** |k| squared is k squared. */
  lemma AbsSquared(k: real)
    ensures Abs(k) * Abs(k) == k * k
  {
  }

  /** Scaling a non-negative quantity by k and taking the absolute value
      scales it by |k|. */
  lemma AbsScale(p: real, k: real)
    requires 0.0 <= p
    ensures Abs(p * k) == Abs(k) * p
  {
    if k < 0.0 {
      assert p * k == -(p * -k);
      assert 0.0 <= p * -k;
    } else {
      assert 0.0 <= p * k;
    }
  }

  /** |1/k| undoes |k|. */
  lemma AbsInverse(k: real)
    requires k != 0.0
    ensures Abs(1.0 / k) * Abs(k) == 1.0
  {
    assert (1.0 / k) * k == 1.0;
  }

  /** Holds of every real; it names the radicands at which a proof applies
      the square-root property below (it is that property's trigger), so
      that the property is used where a proof asks for it and nowhere else. */
  predicate Radicand(x: real)
  {
    true
  }

  /** `sqrt` is a square root on the non-negative reals (Math.sqrt without rounding). */
  ghost predicate IsSqrt(sqrt: real -> real)
  {
    forall x {:trigger Radicand(x)} :: 0.0 <= x ==> 0.0 <= sqrt(x) && sqrt(x) * sqrt(x) == x
  }

  /** The square-root property at one radicand. */
  lemma Root(sqrt: real -> real, x: real)
    requires IsSqrt(sqrt) && 0.0 <= x
    ensures 0.0 <= sqrt(x) && sqrt(x) * sqrt(x) == x
  {
    assert Radicand(x);
  }

  /** Two non-negative reals with the same square are equal. */
  lemma SquareRootUnique(s: real, t: real)
    requires 0.0 <= s && 0.0 <= t
    requires s * s == t * t
    ensures s == t
  {
    assert (s - t) * (s + t) == 0.0;
    assert s - t == 0.0 || s + t == 0.0;
  }

  /** A sum of two squares is never negative, and is positive unless both terms are zero. */
  lemma SumOfSquaresPositive(a: real, b: real)
    ensures 0.0 <= a * a + b * b
    ensures 0.0 < a * a + b * b <==> a != 0.0 || b != 0.0
  {
  }

  /** A product of two non-negative reals is non-negative. */
  lemma ProductNonNegative(a: real, b: real)
    requires 0.0 <= a && 0.0 <= b
    ensures 0.0 <= a * b
  {
  }

  /** A non-negative r whose square is c*c times the square of a
      non-negative s is |c| times s. */
  lemma ScaledRoot(r: real, s: real, c: real)
    requires 0.0 <= r && 0.0 <= s
    requires r * r == c * c * (s * s)
    ensures r == Abs(c) * s
  {
    var m := Abs(c);
    ProductNonNegative(m, s);
    assert (m * s) * (m * s) == (m * m) * (s * s);
    SquareRootUnique(r, m * s);
  }

  /** Of two non-negative reals, the one with the smaller square is the smaller. */
  lemma RootMonotone(s: real, t: real)
    requires 0.0 <= s && 0.0 <= t
    requires s * s <= t * t
    ensures s <= t
  {
    var n := (t - s) * (t + s);
    assert n == t * t - s * s;
    if t + s != 0.0 {
      QuotientNonNegative(n, t + s);
      assert n / (t + s) == t - s;
    }
  }

  /** A non-negative numerator over a positive denominator. */
  lemma QuotientNonNegative(n: real, d: real)
    requires 0.0 <= n && 0.0 < d
    ensures 0.0 <= n / d
  {
  }

  /** A part f of a positive whole a is a fraction between 0 and 1, short of 1
      exactly when the part is short of the whole. */
  lemma QuotientBounds(f: real, a: real)
    requires 0.0 <= f <= a && 0.0 < a
    ensures 0.0 <= f / a <= 1.0
    ensures f / a < 1.0 <==> f < a
    ensures f / a * a == f
  {
  }

  /** The root of a square is the absolute value. */
  lemma SqrtOfSquare(sqrt: real -> real, c: real)
    requires IsSqrt(sqrt)
    ensures sqrt(c * c) == Abs(c)
  {
    Root(sqrt, c * c);
    SquareRootUnique(sqrt(c * c), Abs(c));
  }

  /** Scaling the radicand by c*c scales the root by |c|. */
  lemma SqrtScale(sqrt: real -> real, c: real, x: real)
    requires IsSqrt(sqrt)
    requires 0.0 <= x
    ensures sqrt(c * c * x) == Abs(c) * sqrt(x)
  {
    var s := sqrt(x);
    Root(sqrt, x);
    Root(sqrt, c * c * x);
    assert 0.0 <= Abs(c) * s;
    assert (Abs(c) * s) * (Abs(c) * s) == (Abs(c) * Abs(c)) * (s * s);
    SquareRootUnique(sqrt(c * c * x), Abs(c) * s);
  }

  /** sqrt(2) is positive and its square is 2. */
  lemma SqrtTwo(sqrt: real -> real)
    requires IsSqrt(sqrt)
    ensures 0.0 < sqrt(2.0) && sqrt(2.0) * sqrt(2.0) == 2.0
  {
    Root(sqrt, 2.0);
  }

  /** x is y scaled by the factor m. */
  predicate ScaledBy(x: real, y: real, m: real)
  {
    x == m * y
  }

  /** Numbers scaled by m1 and by m2 multiply to their product scaled by m1 m2. */
  lemma ProductScaled(x1: real, y1: real, m1: real, x2: real, y2: real, m2: real)
    requires ScaledBy(x1, y1, m1) && ScaledBy(x2, y2, m2)
    ensures ScaledBy(x1 * x2, y1 * y2, m1 * m2)
  {
    assert (m1 * y1) * (m2 * y2) == (m1 * m2) * (y1 * y2);
  }

  /** A number scaled by m >= 0 has its absolute value scaled by m. */
  lemma AbsScaled(x: real, y: real, m: real)
    requires 0.0 <= m && ScaledBy(x, y, m)
    ensures ScaledBy(Abs(x), Abs(y), m)
  {
    if y < 0.0 {
      assert x == -(m * -y);
    }
  }

  /** Halving keeps the proportion. */
  lemma HalfScaled(x: real, y: real, m: real)
    requires ScaledBy(x, y, m)
    ensures ScaledBy(x / 2.0, y / 2.0, m)
  {
  }

  /** Three numbers scaled by m add up to their sum scaled by m. */
  lemma SumScaled(x1: real, x2: real, x3: real, y1: real, y2: real, y3: real, m: real)
    requires ScaledBy(x1, y1, m) && ScaledBy(x2, y2, m) && ScaledBy(x3, y3, m)
    ensures ScaledBy(x1 + x2 + x3, y1 + y2 + y3, m)
  {
    assert m * (y1 + y2 + y3) == m * y1 + m * y2 + m * y3;
  }

  /** x squared, named so that facts about squares can be stated once. */
  function Squared(x: real): real
  {
    x * x
  }

  /** Of two non-negative numbers, the one with the smaller square is the smaller. */
  lemma SquareMonotone()
    ensures forall s, t {:trigger Squared(s), Squared(t)} ::
      0.0 <= s && 0.0 <= t && Squared(s) <= Squared(t) ==> s <= t
  {
    forall s, t | 0.0 <= s && 0.0 <= t && Squared(s) <= Squared(t)
      ensures s <= t
    {
      RootMonotone(s, t);
    }
  }

  /** The product of two squares is the square of the product. */
  lemma ProductOfSquares(e: real, f: real)
    ensures (e * e) * (f * f) == (e * f) * (e * f)
  {
  }
}
