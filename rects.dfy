/** Axis-aligned integer rectangles, as android.graphics.Rect holds them.
    The frame copies rectangles with Rect.set and compares them with
    Rect.equals, so a value type is all it needs: equality is equality of
    the four coordinates. */
module Rects {

  /** A rectangle from (left, top) inclusive to (right, bottom) exclusive.
      Nothing forces left <= right or top <= bottom: such a rectangle is
      merely empty. */
  datatype Rect = Rect(left: int, top: int, right: int, bottom: int) {

    /** Rect.width(): may be negative for an inverted rectangle. */
    function Width(): (w: int) { right - left }

    /** Rect.height(): may be negative for an inverted rectangle. */
    function Height(): (h: int) { bottom - top }

    /** Rect.isEmpty(): no point lies inside. */
    predicate IsEmpty() { left >= right || top >= bottom }

    /** Rect.contains(x, y): the point lies inside the half-open rectangle. */
    predicate Contains(x: int, y: int) { left <= x < right && top <= y < bottom }

    /** Rect.offset(dx, dy) as a value: the same rectangle moved by (dx, dy). */
    function Offset(dx: int, dy: int): (r: Rect) {
      Rect(left + dx, top + dy, right + dx, bottom + dy)
    }
  }

  /** The range of a Java int. */
  const INT_MIN: int := -0x8000_0000
  const INT_MAX: int := 0x7FFF_FFFF

  predicate IsInt32(x: int) { INT_MIN <= x <= INT_MAX }

  /** Java's int subtraction a - b: the exact difference wrapped into the
      32-bit range. */
  function Sub32(a: int, b: int): (r: int)
    ensures IsInt32(r)
    ensures IsInt32(a - b) ==> r == a - b
    ensures (a - b - r) % 0x1_0000_0000 == 0
  {
    (a - b - INT_MIN) % 0x1_0000_0000 + INT_MIN
  }

  /** `new Rect()`: all four coordinates zero. */
  const Empty: Rect := Rect(0, 0, 0, 0)

  /** Some rectangle of `rs` contains the point. */
  ghost predicate Covered(rs: seq<Rect>, x: int, y: int) {
    exists i :: 0 <= i < |rs| && rs[i].Contains(x, y)
  }
}
