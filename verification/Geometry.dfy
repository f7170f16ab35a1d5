/** Integer rectangles as Go's `image` package has them, and truncation of reals to integers. */
module Geometry {
  datatype Rectangle = Rectangle(minX: int, minY: int, maxX: int, maxY: int) {
    function Dx(): int {
      maxX - minX
    }

    function Dy(): int {
      maxY - minY
    }

    /** No point lies in it. */
    predicate Empty() {
      minX >= maxX || minY >= maxY
    }

    predicate Contains(x: int, y: int) {
      minX <= x < maxX && minY <= y < maxY
    }

    /** The common part; the zero rectangle when there is none. */
    function Intersect(other: Rectangle): (r: Rectangle)
      ensures forall x, y :: r.Contains(x, y) <==> Contains(x, y) && other.Contains(x, y)
      ensures r.Empty() ==> r == Rectangle(0, 0, 0, 0)
    {
      var r := Rectangle(Max(minX, other.minX), Max(minY, other.minY), Min(maxX, other.maxX), Min(maxY, other.maxY));
      if r.Empty() then Rectangle(0, 0, 0, 0) else r
    }
  }

  function Min(a: int, b: int): int {
    if a < b then a else b
  }

  function Max(a: int, b: int): int {
    if a < b then b else a
  }

  /** A rectangle given by two corners, in whichever order. */
  function Rect(x0: int, y0: int, x1: int, y1: int): (r: Rectangle)
    ensures r.minX <= r.maxX && r.minY <= r.maxY
    ensures {r.minX, r.maxX} == {x0, x1} && {r.minY, r.maxY} == {y0, y1}
  {
    Rectangle(Min(x0, x1), Min(y0, y1), Max(x0, x1), Max(y0, y1))
  }

  /** Conversion of a real to an integer: towards zero. */
  function Trunc(r: real): int {
    if r >= 0.0 then r.Floor else -(-r).Floor
  }

  /** Truncation drops what is behind the point, whatever the sign. */
  lemma TruncTowardsZero(r: real)
    ensures r >= 0.0 ==> 0.0 <= Trunc(r) as real <= r < Trunc(r) as real + 1.0
    ensures r <= 0.0 ==> Trunc(r) as real - 1.0 < r <= Trunc(r) as real <= 0.0
  {
  }

  lemma TruncOfInt(n: int)
    ensures Trunc(n as real) == n
  {
  }

  lemma TruncKeepsOrder(a: real, b: real)
    requires a <= b
    ensures Trunc(a) <= Trunc(b)
  {
  }
}
