/**
 * The tool and gesture state machine of the paint program: the globals of
 * the main loop (drawing, last_pos, start_pos, temp_surface, current_tool,
 * current_color, brush_size) become the fields of `Paint`, and the handlers
 * for a button press, a button release, the per-frame continuous draw and
 * the toolbar selections become its methods.
 *
 * pygame's rasteriser is not visible, so the pixels a drawing call covers
 * are a parameter of the model: `cover` maps each drawing call (a `Stroke`)
 * to the set of points it colours, and a call paints the points of its cover
 * that lie on the canvas.
 */
module PyBrush {
  import opened Wrappers
  import opened Geometry
  import opened Canvas
  import opened FloodFill

  datatype Tool = Pencil | Eraser | Line | Rectangle | Circle | Fill

  /** The tools in toolbar order. */
  const TOOLS: seq<Tool> := [Pencil, Eraser, Line, Rectangle, Circle, Fill]

  /** The brush widths offered by the size buttons. */
  const BRUSH_SIZES: seq<nat> := [1, 3, 5, 8, 12, 18, 25]

  /** The tools whose gesture draws one shape from the press point to the release point. */
  predicate IsShape(tool: Tool)
  {
    tool == Line || tool == Rectangle || tool == Circle
  }

  /** A call into pygame.draw, with its geometry but before rasterisation. */
  datatype Stroke =
    | Disc(center: Point, radius: nat)
    | Segment(start: Point, end: Point, width: nat)
    | RectOutline(rect: Rect, width: nat)
    | CircleOutline(center: Point, radius: nat, width: nat)

  /**
   * The drawing call that draw_line, draw_rectangle and draw_circle make for
   * a shape dragged from `start` to `end` with brush width `size`.
   */
  function ShapeStroke(tool: Tool, start: Point, end: Point, size: nat): (s: Stroke)
    requires IsShape(tool)
    ensures tool == Line ==> s.Segment? && s.start == start && s.end == end
    ensures tool == Rectangle ==> s.RectOutline? && s.rect.width >= 0 && s.rect.height >= 0
                                  && {s.rect.left, s.rect.left + s.rect.width} == {start.0, end.0}
                                  && {s.rect.top, s.rect.top + s.rect.height} == {start.1, end.1}
    ensures tool == Circle ==> s.CircleOutline? && s.center == start
                               && s.radius * s.radius <= Sq(end.0 - start.0) + Sq(end.1 - start.1)
                               < (s.radius + 1) * (s.radius + 1)
    ensures s.width == size
  {
    match tool
    case Line => Segment(start, end, size)
    case Rectangle => RectOutline(NormalizeRect(start, end), size)
    case Circle => CircleOutline(start, Radius(start, end), size)
  }

  /** A rectangle drawn from a to b is the rectangle drawn from b to a. */
  lemma RectangleStrokeSymmetric(a: Point, b: Point, size: nat)
    ensures ShapeStroke(Rectangle, a, b, size) == ShapeStroke(Rectangle, b, a, size)
  {
  }

  /**
   * The drawing call of one frame of a pencil or eraser drag: a segment from
   * the previous point when there is one, otherwise a dot of the brush's
   * radius, in the current colour for the pencil and in white for the eraser.
   */
  function FreehandStroke(tool: Tool, last: Option<Point>, pos: Point, size: nat, color: Color): (r: (Stroke, Color))
    requires tool == Pencil || tool == Eraser
    ensures last.Some? ==> r.0 == Segment(last.value, pos, size) && r.1 == color
    ensures last.None? ==> r.0 == Disc(pos, size) && r.1 == (if tool == Eraser then WHITE else color)
  {
    match last
    case Some(from) => (Segment(from, pos, size), color)
    case None => (Disc(pos, size), if tool == Pencil then color else WHITE)
  }

  class Paint {
    /** The pixels each drawing call colours (pygame's rasterisation). */
    const cover: Stroke -> set<Point>
    /** The drawing surface, indexed [x, y]. */
    const canvas: array2<Color>
    var drawing: bool
    var lastPos: Option<Point>
    var startPos: Option<Point>
    var tempSurface: Option<Grid>
    var currentTool: Tool
    var currentColor: Color
    var brushSize: nat

    /** The invariant every handler keeps. */
    predicate Valid()
      reads this
    {
      && canvas.Length0 == CANVAS_WIDTH && canvas.Length1 == CANVAS_HEIGHT
      && brushSize in BRUSH_SIZES
      && currentColor in PALETTE
      && (tempSurface.Some? ==> IsGrid(tempSurface.value, CANVAS_WIDTH, CANVAS_HEIGHT))
    }

    /** While a gesture is in progress, the press point and the previous point are known. */
    predicate Tracking()
      reads this
    {
      drawing ==> lastPos.Some? && startPos.Some?
    }

    /** The program's start-up state: a white canvas, the black pencil of width 5, no gesture. */
    constructor (cover: Stroke -> set<Point>)
      ensures Valid() && Tracking()
      ensures fresh(canvas) && this.cover == cover
      ensures Snapshot(canvas) == Blank(CANVAS_WIDTH, CANVAS_HEIGHT, WHITE)
      ensures !drawing && lastPos.None? && startPos.None? && tempSurface.None?
      ensures currentColor == BLACK && currentTool == Pencil && brushSize == 5
    {
      this.cover := cover;
      canvas := new Color[CANVAS_WIDTH, CANVAS_HEIGHT]((x, y) => WHITE);
      drawing := false;
      lastPos := None;
      startPos := None;
      tempSurface := None;
      currentColor := BLACK;
      currentTool := Pencil;
      brushSize := 5;
      new;
      SnapshotAgrees(canvas);
      GridsEqual(Snapshot(canvas), Blank(CANVAS_WIDTH, CANVAS_HEIGHT, WHITE));
    }

    /** One pygame.draw call: the points of the stroke's cover that lie on the canvas take colour c. */
    method Draw(s: Stroke, c: Color)
      modifies canvas
      ensures Snapshot(canvas) == Painted(old(Snapshot(canvas)), cover(s), c)
    {
      ghost var before := Snapshot(canvas);
      SnapshotAgrees(canvas);
      forall x, y | 0 <= x < canvas.Length0 && 0 <= y < canvas.Length1 {
        canvas[x, y] := if (x, y) in cover(s) then c else canvas[x, y];
      }
      SnapshotAgrees(canvas);
      GridsEqual(Snapshot(canvas), Painted(before, cover(s), c));
    }

    /** canvas.blit(g, (0, 0)) of a canvas-sized copy: every pixel is put back. */
    method Restore(g: Grid)
      requires IsGrid(g, canvas.Length0, canvas.Length1)
      modifies canvas
      ensures Snapshot(canvas) == g
    {
      forall x, y | 0 <= x < canvas.Length0 && 0 <= y < canvas.Length1 {
        canvas[x, y] := g[x][y];
      }
      SnapshotAgrees(canvas);
      GridsEqual(Snapshot(canvas), g);
    }

    /**
     * A left-button press. Off the canvas nothing happens. On it a gesture
     * starts at the mouse; the fill tool floods the pointed region at once,
     * and the shape tools keep a copy of the canvas to draw the shape onto at
     * release.
     */
    method Press(mouse: Point)
      requires Valid()
      modifies this, canvas
      ensures Valid() && (old(Tracking()) ==> Tracking())
      ensures CanvasMousePos(mouse).None? ==> unchanged(this, canvas)
      ensures CanvasMousePos(mouse).Some? ==>
        && drawing && lastPos == Some(mouse) && startPos == Some(mouse)
        && (currentTool == Fill ==> Snapshot(canvas) == Flooded(old(Snapshot(canvas)), mouse, currentColor))
        && (currentTool != Fill ==> unchanged(canvas))
        && tempSurface == (if IsShape(currentTool) then Some(old(Snapshot(canvas))) else old(tempSurface))
      ensures currentTool == old(currentTool) && currentColor == old(currentColor) && brushSize == old(brushSize)
    {
      var onCanvas := CanvasMousePos(mouse);
      if onCanvas.Some? {
        drawing := true;
        lastPos := onCanvas;
        startPos := onCanvas;
        assert Snapshot(canvas) == old(Snapshot(canvas));
        if currentTool == Fill {
          ghost var enqueued: set<Point>;
          ghost var pushes: nat;
          enqueued, pushes := FillBucket(canvas, mouse, currentColor);
        } else if IsShape(currentTool) {
          tempSurface := Some(Snapshot(canvas));
        }
      }
    }

    /**
     * A left-button release. Off the canvas nothing happens, so a gesture
     * released there stays in progress. On it the gesture ends; for a shape
     * tool with a press point and a kept copy, the copy is put back and the
     * shape from the press point to the mouse is drawn onto it.
     */
    method Release(mouse: Point)
      requires Valid()
      modifies this, canvas
      ensures Valid() && (old(Tracking()) ==> Tracking())
      ensures CanvasMousePos(mouse).None? ==> unchanged(this, canvas)
      ensures CanvasMousePos(mouse).Some? ==>
        && !drawing && lastPos.None? && startPos == old(startPos)
        && if IsShape(currentTool) && old(startPos).Some? && old(tempSurface).Some? then
             && tempSurface.None?
             && Snapshot(canvas) == Painted(old(tempSurface).value,
                                            cover(ShapeStroke(currentTool, old(startPos).value, mouse, brushSize)),
                                            currentColor)
           else
             tempSurface == old(tempSurface) && unchanged(canvas)
      ensures currentTool == old(currentTool) && currentColor == old(currentColor) && brushSize == old(brushSize)
    {
      var onCanvas := CanvasMousePos(mouse);
      if onCanvas.Some? {
        drawing := false;
        if IsShape(currentTool) && startPos.Some? && tempSurface.Some? {
          Restore(tempSurface.value);
          Draw(ShapeStroke(currentTool, startPos.value, mouse, brushSize), currentColor);
          tempSurface := None;
        }
        lastPos := None;
      }
    }

    /**
     * The continuous draw of one frame. While a gesture is in progress and
     * the mouse is on the canvas, the pencil and the eraser draw their
     * freehand stroke to the mouse and remember it as the previous point;
     * every other case leaves everything as it is.
     */
    method Tick(mouse: Point)
      requires Valid()
      modifies this, canvas
      ensures Valid() && (old(Tracking()) ==> Tracking())
      ensures if old(drawing) && CanvasMousePos(mouse).Some? && (currentTool == Pencil || currentTool == Eraser) then
          && lastPos == Some(mouse)
          && var (s, c) := FreehandStroke(currentTool, old(lastPos), mouse, brushSize, currentColor);
             Snapshot(canvas) == Painted(old(Snapshot(canvas)), cover(s), c)
        else
          lastPos == old(lastPos) && unchanged(canvas)
      ensures old(Tracking()) && old(drawing) && CanvasMousePos(mouse).Some? && (currentTool == Pencil || currentTool == Eraser) ==>
        Snapshot(canvas) == Painted(old(Snapshot(canvas)), cover(Segment(old(lastPos).value, mouse, brushSize)), currentColor)
      ensures drawing == old(drawing) && startPos == old(startPos) && tempSurface == old(tempSurface)
      ensures currentTool == old(currentTool) && currentColor == old(currentColor) && brushSize == old(brushSize)
    {
      var onCanvas := CanvasMousePos(mouse);
      if drawing && onCanvas.Some? && (currentTool == Pencil || currentTool == Eraser) {
        var (s, c) := FreehandStroke(currentTool, lastPos, mouse, brushSize, currentColor);
        Draw(s, c);
        lastPos := onCanvas;
      }
    }

    /**
     * A whole shape gesture: a press at a, a frame with the mouse at b and a
     * release at b, all on the canvas, draw the tool's shape from a to b over
     * the canvas as it was at the press, and end the gesture.
     */
    method ShapeGesture(a: Point, b: Point)
      requires Valid() && IsShape(currentTool)
      requires CanvasMousePos(a).Some? && CanvasMousePos(b).Some?
      modifies this, canvas
      ensures Valid() && !drawing && lastPos.None? && tempSurface.None? && startPos == Some(a)
      ensures currentTool == old(currentTool) && currentColor == old(currentColor) && brushSize == old(brushSize)
      ensures Snapshot(canvas) == Painted(old(Snapshot(canvas)), cover(ShapeStroke(currentTool, a, b, brushSize)), currentColor)
    {
      Press(a);
      Tick(b);
      Release(b);
    }

    /** A click on palette button i selects its colour. */
    method SelectColor(i: nat)
      requires Valid() && i < |PALETTE|
      modifies this
      ensures Valid() && currentColor == PALETTE[i]
      ensures drawing == old(drawing) && lastPos == old(lastPos) && startPos == old(startPos)
      ensures tempSurface == old(tempSurface) && currentTool == old(currentTool) && brushSize == old(brushSize)
    {
      currentColor := PALETTE[i];
    }

    /** A click on tool button i selects its tool. */
    method SelectTool(i: nat)
      requires Valid() && i < |TOOLS|
      modifies this
      ensures Valid() && currentTool == TOOLS[i]
      ensures drawing == old(drawing) && lastPos == old(lastPos) && startPos == old(startPos)
      ensures tempSurface == old(tempSurface) && currentColor == old(currentColor) && brushSize == old(brushSize)
    {
      currentTool := TOOLS[i];
    }

    /** A click on size button i selects its brush width. */
    method SelectBrushSize(i: nat)
      requires Valid() && i < |BRUSH_SIZES|
      modifies this
      ensures Valid() && brushSize == BRUSH_SIZES[i]
      ensures drawing == old(drawing) && lastPos == old(lastPos) && startPos == old(startPos)
      ensures tempSurface == old(tempSurface) && currentColor == old(currentColor) && currentTool == old(currentTool)
    {
      brushSize := BRUSH_SIZES[i];
    }

    /** The clear button paints the whole canvas white; the gesture state is untouched. */
    method ClearCanvas()
      requires Valid()
      modifies canvas
      ensures Valid()
      ensures Snapshot(canvas) == Blank(CANVAS_WIDTH, CANVAS_HEIGHT, WHITE)
    {
      forall x, y | 0 <= x < canvas.Length0 && 0 <= y < canvas.Length1 {
        canvas[x, y] := WHITE;
      }
      SnapshotAgrees(canvas);
      GridsEqual(Snapshot(canvas), Blank(CANVAS_WIDTH, CANVAS_HEIGHT, WHITE));
    }
  }
}
