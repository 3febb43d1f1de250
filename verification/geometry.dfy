/**
 * Coordinates, the canvas bounds test and the shape geometry that the
 * drawing helpers compute before handing a shape to the rasterizer.
 */
module Geometry {
  import opened Wrappers

  /** A pixel position (x, y): x grows to the right, y grows downwards. */
  type Point = (int, int)

  /** Dimensions of the drawing area. */
  const CANVAS_WIDTH: int := 800
  const CANVAS_HEIGHT: int := 600

  /** An axis-aligned rectangle given by its top-left corner and extent. */
  datatype Rect = Rect(left: int, top: int, width: int, height: int)

  function Min(a: int, b: int): int { if a <= b then a else b }

  function Abs(a: int): nat { if a < 0 then -a else a }

  function Sq(a: int): nat { Abs(a) * Abs(a) }

  /**
   * The mouse position as seen by the event handlers: the position itself
   * when it lies on the canvas, None otherwise.
   */
  function CanvasMousePos(mouse: Point): (r: Option<Point>)
    ensures r.Some? <==> 0 <= mouse.0 < CANVAS_WIDTH && 0 <= mouse.1 < CANVAS_HEIGHT
    ensures r.Some? ==> r.value == mouse
  {
    if 0 <= mouse.0 < CANVAS_WIDTH && 0 <= mouse.1 < CANVAS_HEIGHT then Some(mouse) else None
  }

  /**
   * The rectangle with `start` and `end` as opposite corners, whatever the
   * drag direction: its extent is non-negative and its left/right and
   * top/bottom edges are exactly the two points' coordinates.
   */
  function NormalizeRect(start: Point, end: Point): (r: Rect)
    ensures r.width >= 0 && r.height >= 0
    ensures {r.left, r.left + r.width} == {start.0, end.0}
    ensures {r.top, r.top + r.height} == {start.1, end.1}
  {
    Rect(Min(start.0, end.0), Min(start.1, end.1), Abs(end.0 - start.0), Abs(end.1 - start.1))
  }

  /** Dragging in the opposite direction yields the same rectangle. */
  lemma NormalizeRectSymmetric(a: Point, b: Point)
    ensures NormalizeRect(a, b) == NormalizeRect(b, a)
  {
  }

  /** Squaring is monotone on naturals. */
  lemma SquareMonotone(a: nat, b: nat)
    requires a <= b
    ensures a * a <= b * b
  {
  }

  /** The induction step of ISqrt: doubling the root of d / 4 nearly brackets the root of d. */
  lemma SqrtDoubling(d: nat, h: nat)
    requires h * h <= d / 4 < (h + 1) * (h + 1)
    ensures (2 * h) * (2 * h) <= d < (2 * h + 2) * (2 * h + 2)
  {
  }

  /** The integer square root: the largest r with r * r <= d. */
  function ISqrt(d: nat): (r: nat)
    ensures r * r <= d < (r + 1) * (r + 1)
  {
    if d == 0 then 0
    else
      var h := ISqrt(d / 4);
      SqrtDoubling(d, h);
      var s := 2 * h;
      if (s + 1) * (s + 1) <= d then s + 1 else s
  }

  /** Only one natural number brackets d that way, so ISqrt is the truncated square root. */
  lemma ISqrtUnique(d: nat, r: nat)
    requires r * r <= d < (r + 1) * (r + 1)
    ensures r == ISqrt(d)
  {
    var s := ISqrt(d);
    if r < s {
      SquareMonotone(r + 1, s);
    } else if s < r {
      SquareMonotone(s + 1, r);
    }
  }

  /**
   * The circle radius for a drag from `center` to `edge`: the Euclidean
   * distance truncated towards zero.
   */
  function Radius(center: Point, edge: Point): (r: nat)
    ensures r * r <= Sq(edge.0 - center.0) + Sq(edge.1 - center.1) < (r + 1) * (r + 1)
  {
    ISqrt(Sq(edge.0 - center.0) + Sq(edge.1 - center.1))
  }

  /**
   * A drag from (0, 0) to (2, 3) is sqrt(13), about 3.6, long: the radius
   * is 3, not the nearest integer 4.
   */
  lemma RadiusTruncates()
    ensures Radius((0, 0), (2, 3)) == 3
  {
    assert Sq(2) + Sq(3) == 13;
    ISqrtUnique(13, 3);
  }
}
