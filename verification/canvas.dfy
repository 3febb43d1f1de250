/**
 * Colours and the pixel grid. The live canvas is an `array2<Color>`
 * indexed [x, y]; `Grid` is an immutable copy of it (what `canvas.copy()`
 * yields), indexed g[x][y].
 */
module Canvas {
  import opened Geometry

  newtype byte = x: int | 0 <= x < 256

  /** An opaque RGB colour; the canvas surface has no alpha channel. */
  datatype Color = RGB(r: byte, g: byte, b: byte)

  const WHITE: Color := RGB(255, 255, 255)
  const BLACK: Color := RGB(0, 0, 0)
  const RED: Color := RGB(255, 0, 0)
  const GREEN: Color := RGB(0, 255, 0)
  const BLUE: Color := RGB(0, 120, 255)
  const YELLOW: Color := RGB(255, 255, 0)
  const PURPLE: Color := RGB(180, 0, 255)
  const ORANGE: Color := RGB(255, 165, 0)
  const PINK: Color := RGB(255, 105, 180)
  const BROWN: Color := RGB(165, 42, 42)
  const CYAN: Color := RGB(0, 255, 255)
  const LIGHT_BLUE: Color := RGB(173, 216, 230)
  const LIGHT_GREEN: Color := RGB(144, 238, 144)
  const LIGHT_GRAY: Color := RGB(230, 230, 230)
  const DARK_GRAY: Color := RGB(100, 100, 100)

  /** The colours offered by the palette buttons, in button order. */
  const PALETTE: seq<Color> :=
    [BLACK, RED, GREEN, BLUE, YELLOW,
     PURPLE, ORANGE, PINK, BROWN, CYAN,
     LIGHT_BLUE, LIGHT_GREEN, WHITE, LIGHT_GRAY, DARK_GRAY]

  /** A copy of the pixels, column by column: g[x][y]. */
  type Grid = seq<seq<Color>>

  /** g is a w-by-h grid. */
  predicate IsGrid(g: Grid, w: int, h: int)
  {
    |g| == w && forall x :: 0 <= x < |g| ==> |g[x]| == h
  }

  predicate InGrid(g: Grid, p: Point)
  {
    0 <= p.0 < |g| && 0 <= p.1 < |g[p.0]|
  }

  function At(g: Grid, p: Point): Color
    requires InGrid(g, p)
  {
    g[p.0][p.1]
  }

  /** A copy of the whole canvas (what `canvas.copy()` yields); it has the canvas's size. */
  function Snapshot(a: array2<Color>): (g: Grid)
    reads a
    ensures IsGrid(g, a.Length0, a.Length1)
  {
    seq(a.Length0, x requires 0 <= x < a.Length0 reads a =>
      seq(a.Length1, y requires 0 <= y < a.Length1 reads a => a[x, y]))
  }

  /** The copy agrees with the canvas on every pixel. */
  lemma SnapshotAgrees(a: array2<Color>)
    ensures forall x, y :: 0 <= x < a.Length0 && 0 <= y < a.Length1 ==> Snapshot(a)[x][y] == a[x, y]
  {
  }

  /** The grid g with every cell of `cells` that lies on it set to c. */
  function Painted(g: Grid, cells: set<Point>, c: Color): (r: Grid)
    ensures |r| == |g| && forall x :: 0 <= x < |g| ==> |r[x]| == |g[x]|
  {
    seq(|g|, x requires 0 <= x < |g| =>
      seq(|g[x]|, y requires 0 <= y < |g[x]| => if (x, y) in cells then c else g[x][y]))
  }

  /** A w-by-h grid of colour c. */
  function Blank(w: nat, h: nat, c: Color): (r: Grid)
    ensures IsGrid(r, w, h)
  {
    seq(w, x => seq(h, y => c))
  }

  /** Two grids of the same shape that agree on every cell are equal. */
  lemma GridsEqual(g1: Grid, g2: Grid)
    requires |g1| == |g2| && forall x :: 0 <= x < |g1| ==> |g1[x]| == |g2[x]|
    requires forall x, y :: 0 <= x < |g1| && 0 <= y < |g1[x]| ==> g1[x][y] == g2[x][y]
    ensures g1 == g2
  {
    forall x | 0 <= x < |g1|
      ensures g1[x] == g2[x]
    {
      assert forall y :: 0 <= y < |g1[x]| ==> g1[x][y] == g2[x][y];
    }
  }
}
