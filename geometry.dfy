/**
 * Rectangles, points and the integer arithmetic the treemap layout uses.
 *
 * A rectangle is a pygame-style tuple (x, y, width, height). Python's
 * `math.floor` of a quotient and `math.ceil` are modelled exactly: the float
 * quotient of the source is idealised to the exact rational one.
 */
module Geometry {

  datatype Rect = Rect(x: int, y: int, width: int, height: int)

  datatype Point = Point(x: int, y: int)

  /** Both edges inclusive, as `x <= pos_x <= x + width` in the hit-test. */
  predicate Contains(r: Rect, p: Point) {
    r.x <= p.x <= r.x + r.width && r.y <= p.y <= r.y + r.height
  }

  /** `math.floor(a / b)`: the quotient rounded towards minus infinity, for either sign of `b`. */
  function FloorDiv(a: int, b: int): int
    requires b != 0
  {
    if b > 0 then a / b else (-a) / (-b)
  }

  /** The floor quotient brackets the dividend between two consecutive multiples of the divisor. */
  lemma FloorDivBounds(a: int, b: int)
    requires b != 0
    ensures var q := FloorDiv(a, b);
      && (b > 0 ==> q * b <= a < q * b + b)
      && (b < 0 ==> q * b >= a > q * b + b)
  {
  }

  lemma FloorDivIsRealFloor(a: int, b: int)
    requires b != 0
    ensures FloorDiv(a, b) == (a as real / b as real).Floor
  {
    var q := FloorDiv(a, b);
    FloorDivBounds(a, b);
    var x := a as real / b as real;
    if b > 0 {
      ScaleDown(q * b, a, b);
      ScaleDown(q, q, b);
      ScaleDown(a, (q + 1) * b, b);
      ScaleDown(q + 1, q + 1, b);
      assert q as real <= x;
      assert x < (q + 1) as real;
    } else {
      var c := -b;
      assert a as real / b as real == (-a) as real / c as real;
      ScaleDown(q * c, -a, c);
      ScaleDown(q, q, c);
      ScaleDown(-a, (q + 1) * c, c);
      ScaleDown(q + 1, q + 1, c);
      assert q as real <= x;
      assert x < (q + 1) as real;
    }
  }

  /** Dividing an integer inequality by a positive integer, in the rationals. */
  lemma ScaleDown(u: int, v: int, d: int)
    requires d > 0
    ensures u <= v ==> u as real / d as real <= v as real / d as real
    ensures u < v ==> u as real / d as real < v as real / d as real
    ensures (u * d) as real / d as real == u as real
  {
  }

  /** `math.ceil(x)`: the least integer not below `x`. */
  function Ceil(x: real): (c: int)
    ensures c as real - 1.0 < x <= c as real
  {
    -((-x).Floor)
  }

  function Abs(x: real): (a: real)
    ensures a >= 0.0 && (a == x || a == -x)
  {
    if x >= 0.0 then x else -x
  }
}
