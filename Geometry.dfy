/**
 * Integer plane geometry used by the hand analysis: points with integer
 * coordinates (as OpenCV's contours hold them), squared distances, the
 * law-of-cosines numerator of the far-point angle, and the enclosed area of
 * a closed contour (doubled, so that it stays an integer).
 */
module Geometry {

  datatype Point = Point(x: int, y: int)

  /** The vector from q to p. */
  function Sub(p: Point, q: Point): Point {
    Point(p.x - q.x, p.y - q.y)
  }

  function Dot(u: Point, v: Point): int {
    u.x * v.x + u.y * v.y
  }

  function Cross(u: Point, v: Point): int {
    u.x * v.y - u.y * v.x
  }

  function SqNorm(u: Point): (r: nat)
    ensures r == 0 <==> u == Point(0, 0)
  {
    assert u.x != 0 ==> u.x * u.x > 0;
    assert u.y != 0 ==> u.y * u.y > 0;
    u.x * u.x + u.y * u.y
  }

  /**
   * The squared Euclidean distance between p and q: the radicand of the
   * side lengths s1, s2, s3 of a defect triangle. Its square root is zero
   * exactly when the two points coincide.
   */
  function SqDist(p: Point, q: Point): (r: nat)
    ensures r == 0 <==> p == q
  {
    var d := Sub(p, q);
    assert d == Point(0, 0) <==> p.x == q.x && p.y == q.y;
    SqNorm(d)
  }

  /**
   * s2^2 + s3^2 - s1^2 for the triangle with corners start, end and far,
   * where s1 = |end - start|, s2 = |far - start| and s3 = |end - far|:
   * the numerator of the cosine of the angle at far.
   */
  function CosineNumerator(start: Point, end: Point, far: Point): int {
    SqDist(far, start) + SqDist(end, far) - SqDist(end, start)
  }

  /** The squared length of a vector equals that of its opposite. */
  lemma OppositeSqNorm(u: Point)
    ensures SqNorm(Point(-u.x, -u.y)) == SqNorm(u)
  {
    assert (-u.x) * (-u.x) == u.x * u.x;
    assert (-u.y) * (-u.y) == u.y * u.y;
  }

  /** Law of cosines: the numerator is twice the dot product of the two edges at far. */
  lemma LawOfCosines(start: Point, end: Point, far: Point)
    ensures CosineNumerator(start, end, far) == 2 * Dot(Sub(start, far), Sub(end, far))
  {
    var u, v := Sub(start, far), Sub(end, far);
    assert Sub(far, start) == Point(-u.x, -u.y);
    OppositeSqNorm(u);
    assert Sub(end, start) == Point(v.x - u.x, v.y - u.y);
    SquareOfSum(v.x, u.x);
    SquareOfSum(v.y, u.y);
    assert v.x * u.x == u.x * v.x && v.y * u.y == u.y * v.y;
  }

  lemma SquareOfSum(p: int, q: int)
    ensures (p + q) * (p + q) == p * p + 2 * (p * q) + q * q
    ensures (p - q) * (p - q) == p * p - 2 * (p * q) + q * q
  {
  }

  lemma ProductOfSums(p: int, q: int, r: int, s: int)
    ensures (p + q) * (r + s) == p * r + p * s + q * r + q * s
  {
  }

  lemma Regroup(a: int, b: int, c: int, d: int)
    ensures (a * c) * (a * c) == (a * a) * (c * c)
    ensures (a * c) * (b * d) == (a * d) * (b * c)
  {
  }

  /** Lagrange's identity in the plane. */
  lemma Lagrange(u: Point, v: Point)
    ensures Dot(u, v) * Dot(u, v) + Cross(u, v) * Cross(u, v) == SqNorm(u) * SqNorm(v)
  {
    var a, b, c, d := u.x, u.y, v.x, v.y;
    SquareOfSum(a * c, b * d);
    SquareOfSum(a * d, b * c);
    Regroup(a, b, c, d);
    Regroup(b, a, d, c);
    Regroup(a, b, d, c);
    Regroup(b, a, c, d);
    ProductOfSums(a * a, b * b, c * c, d * d);
  }

  /**
   * In exact arithmetic the argument (s2^2 + s3^2 - s1^2) / (2 s2 s3) handed
   * to acos lies in [-1, 1]: its numerator squared is at most (2 s2 s3)^2.
   */
  lemma CosineArgumentInDomain(start: Point, end: Point, far: Point)
    ensures CosineNumerator(start, end, far) * CosineNumerator(start, end, far)
            <= 4 * SqDist(far, start) * SqDist(end, far)
  {
    var u, v := Sub(start, far), Sub(end, far);
    LawOfCosines(start, end, far);
    Lagrange(u, v);
    assert Sub(far, start) == Point(-u.x, -u.y);
    OppositeSqNorm(u);
    SquareBound(CosineNumerator(start, end, far), Dot(u, v), Cross(u, v), SqNorm(u), SqNorm(v));
  }

  lemma SquareBound(n: int, d: int, c: int, a: int, b: int)
    requires n == 2 * d && d * d + c * c == a * b
    ensures n * n <= 4 * a * b
  {
    assert c * c >= 0;
    assert n * n == 4 * (d * d);
    assert 4 * a * b == 4 * (a * b);
  }

  /** The sum of Cross(c[i], c[i+1]) along the open polyline c. */
  function PathSum(c: seq<Point>): int
    decreases |c|
  {
    if |c| < 2 then 0 else Cross(c[0], c[1]) + PathSum(c[1..])
  }

  /** The shoelace sum of the closed polygon c: the polyline plus its closing edge. */
  function Shoelace(c: seq<Point>): int {
    if c == [] then 0 else PathSum(c) + Cross(c[|c| - 1], c[0])
  }

  /**
   * Twice the unsigned enclosed area of a closed contour, the quantity
   * cv2.contourArea computes (halved) with its default non-oriented mode.
   */
  function TwiceArea(c: seq<Point>): (r: nat)
    ensures r == Shoelace(c) || r == -Shoelace(c)
  {
    var s := Shoelace(c);
    if s < 0 then -s else s
  }

  lemma {:induction false} PathSumAppend(c: seq<Point>, p: Point)
    requires c != []
    ensures PathSum(c + [p]) == PathSum(c) + Cross(c[|c| - 1], p)
    decreases |c|
  {
    if |c| == 1 {
      assert c + [p] == [c[0], p];
    } else {
      assert (c + [p])[1..] == c[1..] + [p];
      PathSumAppend(c[1..], p);
    }
  }

  /**
   * A contour is a closed curve: the area does not depend on which of its
   * points the sequence starts from.
   */
  lemma {:induction false} AreaIndependentOfStart(c: seq<Point>)
    requires c != []
    ensures TwiceArea(c[1..] + [c[0]]) == TwiceArea(c)
  {
    var r := c[1..] + [c[0]];
    if |c| == 1 {
      assert r == c;
    } else {
      PathSumAppend(c[1..], c[0]);
      assert r[0] == c[1] && r[|r| - 1] == c[0];
      assert Shoelace(r) == Shoelace(c);
    }
  }
}
