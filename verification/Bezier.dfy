/** Raphael's points of Bezier curves, one coordinate at a time, in exact arithmetic. */
module Bezier {
  /** The cubic of section 8.3.6 of SVG 1.1 at parameter t. */
  function Cubic(p1: real, c1: real, c2: real, p2: real, t: real): real {
    var s := 1.0 - t;
    s * s * s * p1 + 3.0 * s * s * t * c1 + 3.0 * s * t * t * c2 + t * t * t * p2
  }

  function Quadratic(p1: real, c: real, p2: real, t: real): real {
    var s := 1.0 - t;
    s * s * p1 + 2.0 * s * t * c + t * t * p2
  }

  /** One coordinate of the points that findDotsAtSegment returns. */
  datatype Dots = Dots(at: real, m: real, n: real, start: real, end: real)

  function FindDotsAtSegment(p1: real, c1: real, c2: real, p2: real, t: real): Dots {
    var t1 := 1.0 - t;
    Dots(
      t1 * t1 * t1 * p1 + t1 * t1 * 3.0 * t * c1 + t1 * 3.0 * t * t * c2 + t * t * t * p2,
      p1 + 2.0 * t * (c1 - p1) + t * t * (c2 - 2.0 * c1 + p1),
      c1 + 2.0 * t * (c2 - c1) + t * t * (p2 - 2.0 * c2 + c1),
      (1.0 - t) * p1 + t * c1,
      (1.0 - t) * c2 + t * p2)
  }

  // ----- The power basis -----

  datatype Polynomial = Polynomial(a0: real, a1: real, a2: real, a3: real) {
    function At(t: real): real {
      a0 + a1 * t + a2 * (t * t) + a3 * (t * t * t)
    }

    /** The polynomial in u that this one is at t * u. */
    function Scaled(t: real): Polynomial {
      Polynomial(a0, a1 * t, a2 * (t * t), a3 * (t * t * t))
    }
  }

  function Coefficients(p1: real, c1: real, c2: real, p2: real): Polynomial {
    Polynomial(p1, 3.0 * (c1 - p1), 3.0 * (p1 - 2.0 * c1 + c2), p2 - 3.0 * c2 + 3.0 * c1 - p1)
  }

  lemma CubicPower(p1: real, c1: real, c2: real, p2: real, t: real)
    ensures Cubic(p1, c1, c2, p2, t) == Coefficients(p1, c1, c2, p2).At(t)
  {
  }

  lemma PowerScaled(p: Polynomial, t: real, u: real)
    ensures p.Scaled(t).At(u) == p.At(t * u)
  {
    assert (t * u) * (t * u) == (t * t) * (u * u);
    assert (t * u) * (t * u) * (t * u) == (t * t * t) * (u * u * u);
    assert p.a1 * t * u == p.a1 * (t * u);
    assert p.a2 * (t * t) * (u * u) == p.a2 * ((t * t) * (u * u));
    assert p.a3 * (t * t * t) * (u * u * u) == p.a3 * ((t * t * t) * (u * u * u));
  }

  // ----- Splitting a cubic -----

  lemma LeftTerms(p1: real, c1: real, c2: real, p2: real, t: real)
    ensures var d := FindDotsAtSegment(p1, c1, c2, p2, t);
            && 3.0 * (d.start - p1) == 3.0 * (c1 - p1) * t
            && 3.0 * (p1 - 2.0 * d.start + d.m) == 3.0 * (p1 - 2.0 * c1 + c2) * (t * t)
            && d.at - 3.0 * d.m + 3.0 * d.start - p1 == (p2 - 3.0 * c2 + 3.0 * c1 - p1) * (t * t * t)
  {
  }

  lemma LeftCoefficients(p1: real, c1: real, c2: real, p2: real, t: real)
    ensures var d := FindDotsAtSegment(p1, c1, c2, p2, t);
            Coefficients(p1, d.start, d.m, d.at) == Coefficients(p1, c1, c2, p2).Scaled(t)
  {
    hide FindDotsAtSegment;
    LeftTerms(p1, c1, c2, p2, t);
  }

  /** The control points start and m give the part of the curve before t. */
  lemma LeftPart(p1: real, c1: real, c2: real, p2: real, t: real, u: real)
    ensures var d := FindDotsAtSegment(p1, c1, c2, p2, t);
            Cubic(p1, d.start, d.m, d.at, u) == Cubic(p1, c1, c2, p2, t * u)
  {
    hide Cubic, FindDotsAtSegment, Coefficients, Polynomial.At, Polynomial.Scaled;
    var d := FindDotsAtSegment(p1, c1, c2, p2, t);
    LeftCoefficients(p1, c1, c2, p2, t);
    CubicPower(p1, d.start, d.m, d.at, u);
    CubicPower(p1, c1, c2, p2, t * u);
    PowerScaled(Coefficients(p1, c1, c2, p2), t, u);
  }

  lemma CubicReversed(p1: real, c1: real, c2: real, p2: real, t: real)
    ensures Cubic(p2, c2, c1, p1, 1.0 - t) == Cubic(p1, c1, c2, p2, t)
  {
  }

  /** Reversing the curve exchanges start with end and m with n. */
  lemma DotsReversed(p1: real, c1: real, c2: real, p2: real, t: real)
    ensures var d, r := FindDotsAtSegment(p1, c1, c2, p2, t), FindDotsAtSegment(p2, c2, c1, p1, 1.0 - t);
            r.at == d.at && r.start == d.end && r.m == d.n
  {
  }

  /** The control points n and end give the part of the curve after t. */
  lemma RightPart(p1: real, c1: real, c2: real, p2: real, t: real, u: real)
    ensures var d := FindDotsAtSegment(p1, c1, c2, p2, t);
            Cubic(d.at, d.n, d.end, p2, u) == Cubic(p1, c1, c2, p2, t + (1.0 - t) * u)
  {
    hide Cubic, FindDotsAtSegment;
    var d := FindDotsAtSegment(p1, c1, c2, p2, t);
    DotsReversed(p1, c1, c2, p2, t);
    var v := t + (1.0 - t) * u;
    Complement(t, u);
    CubicReversed(d.at, d.n, d.end, p2, u);
    LeftPartAt(p2, c2, c1, p1, 1.0 - t, 1.0 - u, 1.0 - v);
    CubicReversed(p1, c1, c2, p2, v);
  }

  lemma LeftPartAt(p1: real, c1: real, c2: real, p2: real, t: real, u: real, v: real)
    requires v == t * u
    ensures var d := FindDotsAtSegment(p1, c1, c2, p2, t);
            Cubic(p1, d.start, d.m, d.at, u) == Cubic(p1, c1, c2, p2, v)
  {
    hide Cubic, FindDotsAtSegment;
    LeftPart(p1, c1, c2, p2, t, u);
  }

  lemma Complement(t: real, u: real)
    ensures (1.0 - t) * (1.0 - u) == 1.0 - (t + (1.0 - t) * u)
  {
  }

  // ----- Quadratics and lines as cubics -----

  /** One coordinate of q2c: the two control points and the end of the cubic. */
  function QuadraticToCubic(x1: real, ax: real, x2: real): (real, real, real) {
    var third, twoThirds := 1.0 / 3.0, 2.0 / 3.0;
    (third * x1 + twoThirds * ax, third * x2 + twoThirds * ax, x2)
  }

  /** The cubic goes through the same point as the quadratic at every parameter. */
  lemma QuadraticIsCubic(x1: real, ax: real, x2: real, t: real)
    ensures var (c1, c2, p2) := QuadraticToCubic(x1, ax, x2);
            Cubic(x1, c1, c2, p2, t) == Quadratic(x1, ax, x2, t)
  {
    var (c1, c2, p2) := QuadraticToCubic(x1, ax, x2);
    CubicPower(x1, c1, c2, p2, t);
    assert Coefficients(x1, c1, c2, p2) == Polynomial(x1, 2.0 * (ax - x1), x1 - 2.0 * ax + x2, 0.0);
  }

  /** One coordinate of l2c. */
  function LineToCubic(x1: real, x2: real): (real, real, real) {
    (x1, x2, x2)
  }

  /** The cubic of a line stays between its ends and passes every point that the line does, in order. */
  lemma LineIsCubic(x1: real, x2: real, t: real)
    requires 0.0 <= t <= 1.0
    ensures var (c1, c2, p2) := LineToCubic(x1, x2);
            var w := t * t * (3.0 - 2.0 * t);
            Cubic(x1, c1, c2, p2, t) == x1 + w * (x2 - x1) && 0.0 <= w <= 1.0
  {
    var w := t * t * (3.0 - 2.0 * t);
    CubicPower(x1, x1, x2, x2, t);
    assert 1.0 - w == (1.0 - t) * (1.0 - t) * (1.0 + 2.0 * t);
    NonNegative(t * t, 3.0 - 2.0 * t);
    NonNegative((1.0 - t) * (1.0 - t), 1.0 + 2.0 * t);
  }

  lemma NonNegative(a: real, b: real)
    requires a >= 0.0 && b >= 0.0
    ensures a * b >= 0.0
  {
  }
}
