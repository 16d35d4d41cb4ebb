// Small shared helpers of the simulator: the two-component vector, the
// extended number used for the grid's "infinite" sentinel, the square-root
// interface, the strict bounds test and the terminal colour choice.

module Helpers {

  /** A two-component vector (the simulator's `XY<f64>`), over the reals. */
  datatype XY = XY(x: real, y: real)

  function Add(a: XY, b: XY): XY
  {
    XY(a.x + b.x, a.y + b.y)
  }

  function Neg(a: XY): XY
  {
    XY(-a.x, -a.y)
  }

  function Dot(a: XY, b: XY): real
  {
    a.x * b.x + a.y * b.y
  }

  /** A sample that is either a finite value or the positive-infinity sentinel. */
  datatype Num = Finite(value: real) | Infinity

  /** The square root as the simulator takes it: the supplied `sqrt`, applied to `s`. */
  function Root(sqrt: real -> real, s: real): real
  {
    sqrt(s)
  }

  /** `sqrt` behaves as the non-negative square root on non-negative arguments. */
  ghost predicate IsSqrt(sqrt: real -> real)
  {
    forall s :: 0.0 <= s ==> 0.0 <= Root(sqrt, s) && Root(sqrt, s) * Root(sqrt, s) == s
  }

  /** Squaring is strictly increasing on the non-negative reals. */
  lemma SquareLess(a: real, b: real)
    requires 0.0 <= a < b
    ensures a * a < b * b
  {
    var aa, ab, bb := a * a, a * b, b * b;
    assert aa <= ab < bb;
  }

  /** The square root is below `b` exactly when its argument is below `b * b`. */
  lemma SqrtBelow(sqrt: real -> real, s: real, b: real)
    requires IsSqrt(sqrt)
    requires 0.0 <= s && 0.0 <= b
    ensures Root(sqrt, s) < b <==> s < b * b
  {
    var r := Root(sqrt, s);
    assert 0.0 <= r && r * r == s;
    if r < b {
      SquareLess(r, b);
    } else if b < r {
      SquareLess(b, r);
    }
  }

  /** The square root is zero exactly at zero. */
  lemma SqrtZero(sqrt: real -> real, s: real)
    requires IsSqrt(sqrt)
    requires 0.0 <= s
    ensures Root(sqrt, s) == 0.0 <==> s == 0.0
  {
    var r := Root(sqrt, s);
    assert 0.0 <= r && r * r == s;
    if r != 0.0 {
      SquareLess(0.0, r);
    }
  }

  /** The square root is strictly increasing. */
  lemma SqrtMonotone(sqrt: real -> real, s: real, t: real)
    requires IsSqrt(sqrt)
    requires 0.0 <= s < t
    ensures Root(sqrt, s) < Root(sqrt, t)
  {
    var a, b := Root(sqrt, s), Root(sqrt, t);
    assert 0.0 <= a && a * a == s;
    assert 0.0 <= b && b * b == t;
    if b <= a {
      if b < a {
        SquareLess(b, a);
      }
    }
  }

  /** Negating a numerator negates the quotient. */
  lemma NegDiv(a: real, b: real)
    requires b != 0.0
    ensures (-a) / b == -(a / b)
  {
  }

  /** Strictly inside the open box (min_x, max_x) x (min_y, max_y). */
  predicate InBounds(x: real, y: real, minX: real, maxX: real, minY: real, maxY: real)
    ensures InBounds(x, y, minX, maxX, minY, maxY) ==> minX < maxX && minY < maxY
  {
    x > minX && x < maxX && y > minY && y < maxY
  }

  /** Points on the boundary are outside; a point inside lies strictly between the limits. */
  lemma InBoundsStrict(x: real, y: real, minX: real, maxX: real, minY: real, maxY: real)
    ensures InBounds(x, y, minX, maxX, minY, maxY) ==> minX < x < maxX && minY < y < maxY
    ensures x == minX || x == maxX || y == minY || y == maxY ==> !InBounds(x, y, minX, maxX, minY, maxY)
  {
  }

  /** An empty or inverted range contains no point at all. */
  lemma InBoundsEmptyRange(x: real, y: real, minX: real, maxX: real, minY: real, maxY: real)
    requires maxX <= minX || maxY <= minY
    ensures !InBounds(x, y, minX, maxX, minY, maxY)
  {
  }

  /** ANSI colour codes used by the terminal printer. */
  const Green := 32
  const Yellow := 33
  const Red := 31

  /** Whether a sample is strictly below a finite threshold (infinity never is). */
  predicate Below(n: Num, bound: real)
  {
    n.Finite? && n.value < bound
  }

  /** The colour picked for `number` from the green and yellow thresholds. */
  function ColorCode(number: Num, maxG: real, maxY: real): (c: int)
    ensures c == Green || c == Yellow || c == Red
    ensures number.Infinity? ==> c == Red
  {
    if Below(number, maxG) then Green
    else if Below(number, maxY) then Yellow
    else Red
  }

  /** Each colour is chosen exactly on its band of the number line. */
  lemma ColorBands(number: Num, maxG: real, maxY: real)
    ensures ColorCode(number, maxG, maxY) == Green <==> Below(number, maxG)
    ensures ColorCode(number, maxG, maxY) == Yellow <==> !Below(number, maxG) && Below(number, maxY)
    ensures ColorCode(number, maxG, maxY) == Red <==> !Below(number, maxG) && !Below(number, maxY)
  {
  }

  /** With the yellow threshold not above the green one, yellow is never chosen. */
  lemma NoYellowWhenInverted(number: Num, maxG: real, maxY: real)
    requires maxY <= maxG
    ensures ColorCode(number, maxG, maxY) != Yellow
  {
  }

  /** What the printer shows: the infinity marker, or a value in a colour. */
  datatype Shown = InfMarker | Colored(code: int, value: real)

  /** The colour choice of the printer followed by its infinity override. */
  function PrintColor(number: Num, maxG: real, maxY: real): (s: Shown)
    ensures s.InfMarker? <==> number.Infinity?
    ensures s.Colored? ==> s.code != Red || !Below(number, maxY)
  {
    var code := ColorCode(number, maxG, maxY);
    if number.Infinity? then InfMarker else Colored(code, number.value)
  }

  /** An infinite number is always shown as the marker; a finite one keeps its value. */
  lemma PrintColorInfinity(number: Num, maxG: real, maxY: real)
    ensures PrintColor(number, maxG, maxY) == InfMarker <==> number.Infinity?
    ensures number.Finite? ==> PrintColor(number, maxG, maxY) == Colored(ColorCode(number, maxG, maxY), number.value)
    ensures number.Infinity? ==> ColorCode(number, maxG, maxY) == Red
  {
  }
}
