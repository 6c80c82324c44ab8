/** Axis-aligned rectangles as android.graphics.RectF provides them, and Java's
    integer division, which the game uses for every size derived from the screen. */
module Geometry {

  /** A RectF: four float edges, modelled as reals. */
  datatype Rect = Rect(left: real, top: real, right: real, bottom: real)

  /** What `new RectF()` holds before anything is written into it. */
  const EmptyRect: Rect := Rect(0.0, 0.0, 0.0, 0.0)

  /** RectF.intersects(a, b): the rectangles overlap strictly on both axes,
      so rectangles that only share an edge do not intersect. */
  predicate Intersects(a: Rect, b: Rect) {
    a.left < b.right && b.left < a.right && a.top < b.bottom && b.top < a.bottom
  }

  /** Java's `a / b` on ints, which truncates toward zero (Dafny's `/` is Euclidean). */
  function JavaDiv(a: int, b: int): (q: int)
    requires b > 0
    ensures a >= 0 ==> 0 <= q && q * b <= a < q * b + b
    ensures a < 0 ==> q <= 0 && q * b - b < a <= q * b
  {
    if a >= 0 then a / b else -((-a) / b)
  }
}
