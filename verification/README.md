# PyBrush canvas and tool engine in Dafny

PyBrush is a small pygame paint program: an 800×600 canvas, a palette of
fifteen colours, six tools (pencil, eraser, line, rectangle, circle, bucket
fill), seven brush widths and a clear button. This project models the part of
it that decides what happens to the canvas:

- the bucket fill, a breadth-first 4-connected flood fill over the canvas;
- the shape geometry the drawing helpers compute before calling pygame:
  the normalised rectangle and the integer circle radius;
- the bounds test that turns the mouse position into a canvas position or
  `None`;
- the gesture state machine of the main loop. Its globals `drawing`,
  `last_pos`, `start_pos`, `temp_surface`, `current_tool`, `current_color`
  and `brush_size` become the fields of the class `PyBrush.Paint`. The
  handlers for press, release, the per-frame continuous draw and the four
  toolbar selections become its methods.

The canvas is an `array2<Color>` indexed `[x, y]`. A `Grid` (`seq<seq<Color>>`)
is an immutable copy of it, which is what `canvas.copy()` yields and what the
shape tools keep in `temp_surface`.

pygame's rasteriser is not visible. Each drawing call is therefore a `Stroke`
value: a dot, a segment, a rectangle outline or a circle outline, with its
geometry. The pixels a stroke colours are the class parameter
`cover: Stroke -> set<Point>`, and a call paints the points of its cover that
lie on the canvas.

Modules:

| file | module | contents |
|---|---|---|
| `wrappers.dfy` | `Wrappers` | `Option` |
| `geometry.dfy` | `Geometry` | points, the bounds test, rectangle normalisation, integer square root and radius |
| `canvas.dfy` | `Canvas` | colours, the palette, grids, `Snapshot` of the canvas, `Painted`, `Blank` |
| `flood_fill.dfy` | `FloodFill` | reachability, the specification `Flooded`, its properties, and `FillBucket` |
| `paint.dfy` | `PyBrush` | tools, brush sizes, strokes, and the class `Paint` |

`FillBucket` follows `fill_bucket` step by step:
- a `seq` queue and a `set` of visited points;
- the early return when the target colour already is the fill colour;
- skipping dequeued points that are off the canvas;
- recolouring in place;
- offering the four neighbours in the order right, left, down, up.

It is proved against the value-level specification `Flooded(g, s, c)`. That
is `g` with every cell reachable from `s`, through orthogonal neighbours of
`s`'s colour, set to `c`. The proof is carried by the loop invariants of
`FillBucket` and its step methods `Visit`, `EnqueueNeighbours` and `Offer`:
- queue bookkeeping (`Frontier`);
- the canvas written so far (`Painting`);
- closure of the finished cells (`Spread`);
- a path witness for every visited seed-coloured cell (`Witnessed`).

The lemma `FloodedFromClosure` turns the final state into `Flooded`. The
termination measure counts the unvisited points of the canvas plus its
one-cell border, so every enqueued point lies in that border box.

In three places the code behaves differently from what one might expect of a
paint program. The model follows the code:
- The circle radius is `int(math.sqrt(...))`, which truncates rather than
  rounding to the nearest pixel (`Geometry.RadiusTruncates`: a drag of
  length √13 ≈ 3.6 gives radius 3).
- Press and release are only handled while the mouse is on the canvas
  (pybrush.py:224). A release off the canvas does not finish the gesture: it
  leaves `drawing`, `last_pos` and `temp_surface` as they were, so the kept
  copy and the in-progress flag stay set.
- Dragging the eraser calls `draw_line`, which paints with `current_color`,
  not white (pybrush.py:289-290, 164). A press sets `last_pos`, so during a
  gesture the per-frame draw always takes that branch. The white dot of
  `draw_eraser`, and the pencil's dot, are only reached when `drawing` holds
  without `last_pos`, and no handler creates that state: `Paint.Tracking` is
  preserved by every handler.

A pencil click draws in the same pass of the main loop as its press. The
per-frame draw (pybrush.py:281-287) runs after the event loop
(pybrush.py:218-278) of that pass, with the same canvas position, so it draws
a zero-length segment from the press point to itself. In later passes the
segment runs to wherever the mouse has moved, so it need not be zero-length.
When the release is in the same pass's events as the press, the release
clears `drawing` (pybrush.py:239) before the per-frame draw, and the click
draws nothing at all.

## Model

| member | source | states |
|---|---|---|
| Geometry.CanvasMousePos | pybrush.py:213-215 | the mouse counts as on the canvas exactly when 0 ≤ x < 800 and 0 ≤ y < 600, and then the canvas position is the mouse position itself |
| Geometry.NormalizeRect | pybrush.py:169-170 | the rectangle drawn between two corners has non-negative width and height, and its left/right edges are exactly the two x coordinates and its top/bottom edges the two y coordinates |
| Geometry.NormalizeRectSymmetric | pybrush.py:169-170 | dragging the rectangle in the opposite direction gives the same rectangle |
| Geometry.ISqrt | pybrush.py:176 | the integer square root r of d satisfies r·r ≤ d < (r+1)·(r+1) |
| Geometry.ISqrtUnique | pybrush.py:176 | only one natural number brackets d that way, so the truncating `int(math.sqrt(d))` is exactly `ISqrt(d)` |
| Geometry.Radius | pybrush.py:176 | the circle radius r for a drag of squared length dx²+dy² satisfies r·r ≤ dx²+dy² < (r+1)·(r+1) |
| Geometry.RadiusTruncates | pybrush.py:176 | the radius truncates rather than rounds: the drag (0,0)→(2,3) gives 3 |
| FloodFill.ReachableStep | pybrush.py:197-202 | a region grows by any orthogonal neighbour of one of its cells that has the region's colour |
| FloodFill.ClosedContainsRegion | pybrush.py:197-202 | a set containing the seed and closed under stepping to same-coloured orthogonal neighbours contains the seed's whole region |
| FloodFill.FloodedAt | pybrush.py:180-202 | after the fill a cell has the fill colour when it is connected to the seed by an orthogonal path of the seed's colour, and its old colour otherwise |
| FloodFill.FloodSameColourIsNoop | pybrush.py:182-184 | filling with the colour the seed already has changes no pixel |
| FloodFill.FloodChangesOnlySeedColour | pybrush.py:192-196 | every cell either keeps its colour or had the seed's colour and now has the fill colour |
| FloodFill.FloodCoversRegion | pybrush.py:195-202 | every cell connected to the seed by an orthogonal path of the seed's colour ends up with the fill colour |
| FloodFill.FloodStopsAtBorder | pybrush.py:195-202 | an on-canvas neighbour of the region that is not in it keeps its colour, which differs from the seed's |
| FloodFill.FloodIdempotent | pybrush.py:180-202 | filling the same seed twice with the same colour equals filling once |
| FloodFill.FloodUniform | pybrush.py:180-202 | filling a single-coloured canvas with another colour recolours all of it |
| FloodFill.DiagonalNotConnected | pybrush.py:198 | diagonal contact does not connect: on [[R, W], [W, R]] filling the top-left red cell leaves the bottom-right one red |
| FloodFill.FloodedFromClosure | pybrush.py:187-202 | when the loop ends, the visited set contains the seed, is closed under same-coloured neighbours and has a path to each of its seed-coloured cells; recolouring its seed-coloured cells then gives exactly the flood of the seed's region |
| FloodFill.PopKeepsFrontier | pybrush.py:190-191 | taking the head of the queue keeps the queue bookkeeping: no duplicates, every queued point visited, visited = done + queued |
| FloodFill.Offer | pybrush.py:199-202 | an unvisited neighbour is added to `visited` and appended to the queue, a visited one is ignored; the bookkeeping and a path witness for every seed-coloured visited cell are kept, and the queue grows by exactly the points newly visited |
| FloodFill.EnqueueNeighbours | pybrush.py:197-202 | after the neighbour loop `visited` is the old set plus the four orthogonal neighbours of the cell, the old queue is a prefix of the new one (first in, first out), and the queue grew by exactly the newly visited ones |
| FloodFill.SpreadGrows | pybrush.py:195-202 | once a seed-coloured cell has been processed all four of its neighbours are visited, and this stays true as `visited` grows |
| FloodFill.Visit | pybrush.py:191-196 | a dequeued point is recoloured exactly when it is on the canvas and still had the target colour, and the canvas then agrees with the original outside the processed target cells |
| FloodFill.FillBucket | pybrush.py:180-202 | the canvas afterwards is the flood of the seed's 4-connected region with the fill colour (the early return included); every recoloured cell was enqueued, and all enqueued points lie on the canvas or its one-cell border. That each point enters the queue at most once is carried by the loop invariants (`Frontier`: no duplicates in the queue, visited = done + queued; insertions counted equal to `visited`) and by the termination measure over the unvisited border points |
| PyBrush.ShapeStroke | pybrush.py:162-177 | the line is the segment from the press point to the release point; the rectangle is the normalised rectangle of the two corners; the circle is centred at the press point with the truncated distance as radius; all use the brush width |
| PyBrush.RectangleStrokeSymmetric | pybrush.py:167-171 | a rectangle dragged from a to b is drawn exactly as one dragged from b to a |
| PyBrush.FreehandStroke | pybrush.py:152-165 | with a previous point a frame of pencil or eraser draws a segment from it in the current colour; without one it draws a dot of the brush's radius, in white for the eraser and in the current colour for the pencil |
| PyBrush.Paint.constructor | pybrush.py:42-52 | start-up: a white canvas, no gesture in progress, black pencil of width 5 |
| PyBrush.Paint.Draw | pybrush.py:152-177 | one drawing call paints the on-canvas points of the stroke's cover with the colour and leaves every other pixel unchanged |
| PyBrush.Paint.Restore | pybrush.py:242-253 | blitting the kept copy at (0, 0) makes the canvas equal to the copy |
| PyBrush.Paint.Press | pybrush.py:224-235 | off the canvas nothing changes; on it the gesture starts at the mouse (`drawing`, `last_pos`, `start_pos`), the fill tool floods the pointed region, a shape tool keeps a copy of the canvas in `temp_surface`, and otherwise the canvas is untouched; the invariant and the selections are kept |
| PyBrush.Paint.Release | pybrush.py:224-254 | off the canvas nothing changes, so the gesture stays in progress; on it `drawing` and `last_pos` are cleared, and for a shape tool with a press point and a kept copy the canvas becomes the copy with the shape from the press point to the mouse drawn on it and `temp_surface` is cleared; otherwise the canvas and `temp_surface` are untouched; `start_pos` is kept |
| PyBrush.Paint.Tick | pybrush.py:281-293 | during a gesture, with the mouse on the canvas and the pencil or eraser selected, the frame draws the freehand stroke and sets `last_pos` to the mouse, and from any state reached by the handlers that stroke is the segment from `last_pos` in the current colour; in every other case nothing changes |
| PyBrush.Paint.ShapeGesture | pybrush.py:226-254 | a press, a frame and a release on the canvas with a shape tool draw that shape from the press point to the release point over the canvas as it was at the press, and leave no gesture in progress |
| PyBrush.Paint.SelectColor | pybrush.py:258-261 | a palette button selects its palette colour, so the current colour is always a palette colour; nothing else changes |
| PyBrush.Paint.SelectTool | pybrush.py:264-267 | a tool button selects its tool; nothing else changes |
| PyBrush.Paint.SelectBrushSize | pybrush.py:270-273 | a size button selects its width, so `brush_size` is always one of `BRUSH_SIZES`; nothing else changes |
| PyBrush.Paint.ClearCanvas | pybrush.py:276-278 | the clear button makes the whole canvas white and leaves the gesture state alone |

## Left out

- Pixel coverage of `pygame.draw.circle`, `pygame.draw.line` and `pygame.draw.rect` is not modelled. It is the parameter `cover`, because the rasteriser is a foreign library whose rules are not visible. Every property of the drawing handlers holds for any coverage.
- `math.sqrt` on floating point is not modelled: the radius is the integer square root. For integer squared distances the two agree, except for floating-point rounding on distances far beyond the 800×600 canvas.
- The window, fonts, button layout and hover state, the render section, event polling, `clock.tick` and `sys.exit` (pybrush.py:79-146, 206-211, 216-221, 298-378) are I/O and UI; the bounds test of pybrush.py:212-215 is modelled by `Geometry.CanvasMousePos`. The mouse position and button events are parameters of the handlers instead.
- The screen-only shape preview (pybrush.py:362-376) draws on the screen surface, never on the canvas.
- The main loop's interleaving of events and frames is not modelled as a loop. Each handler is one method, and `ShapeGesture` composes one press, frame and release. The per-event dispatch on the button number (left button only) is implied by which method is called.
- FloodFill.FillBucket: bounds are the canvas array's own dimensions, which `Paint.Valid` fixes at 800×600 (`CANVAS_WIDTH`×`CANVAS_HEIGHT`, as the source tests); the caller must pass an on-canvas seed, as `canvas.get_at` requires.
- Colours carry no alpha channel: the canvas surface is opaque RGB.
