/**
 * The bucket tool: a breadth-first, 4-connected flood fill over the canvas,
 * specified by reachability through orthogonal neighbours of the seed's colour.
 */
module FloodFill {
  import opened Geometry
  import opened Canvas

  /** The four orthogonal neighbours of p, in the order the fill visits them. */
  function Neighbours(p: Point): (r: seq<Point>)
    ensures |r| == 4
  {
    [(p.0 + 1, p.1), (p.0 - 1, p.1), (p.0, p.1 + 1), (p.0, p.1 - 1)]
  }

  /** q is one step to the right, left, below or above p; diagonals do not count. */
  predicate Adjacent(p: Point, q: Point)
  {
    q == (p.0 + 1, p.1) || q == (p.0 - 1, p.1) || q == (p.0, p.1 + 1) || q == (p.0, p.1 - 1)
  }

  /**
   * A non-empty walk through on-grid cells of colour t, each step going to an
   * orthogonal neighbour.
   */
  ghost predicate IsPath(g: Grid, t: Color, path: seq<Point>)
    decreases |path|
  {
    && |path| > 0
    && InGrid(g, path[0]) && At(g, path[0]) == t
    && (|path| > 1 ==> Adjacent(path[0], path[1]) && IsPath(g, t, path[1..]))
  }

  /** p is connected to s by an orthogonal path of t-coloured cells. */
  ghost predicate Reachable(g: Grid, t: Color, s: Point, p: Point)
  {
    exists path :: IsPath(g, t, path) && path[0] == s && path[|path| - 1] == p
  }

  /** The seed's region is its own region: a t-coloured on-grid cell reaches itself. */
  lemma ReachableSelf(g: Grid, t: Color, s: Point)
    requires InGrid(g, s) && At(g, s) == t
    ensures Reachable(g, t, s, s)
  {
    assert IsPath(g, t, [s]);
  }

  /** Every cell of a path lies on the grid and has the path's colour. */
  lemma {:induction false} PathCells(g: Grid, t: Color, path: seq<Point>, i: int)
    requires IsPath(g, t, path) && 0 <= i < |path|
    ensures InGrid(g, path[i]) && At(g, path[i]) == t
    decreases i
  {
    if i > 0 {
      PathCells(g, t, path[1..], i - 1);
    }
  }

  /** Both ends of a path lie on the grid and have the path's colour. */
  lemma ReachableEnds(g: Grid, t: Color, s: Point, p: Point)
    requires Reachable(g, t, s, p)
    ensures InGrid(g, s) && At(g, s) == t
    ensures InGrid(g, p) && At(g, p) == t
  {
    var path :| IsPath(g, t, path) && path[0] == s && path[|path| - 1] == p;
    PathCells(g, t, path, |path| - 1);
  }

  /** A path extends by a t-coloured orthogonal neighbour of its last cell. */
  lemma {:induction false} PathExtends(g: Grid, t: Color, path: seq<Point>, q: Point)
    requires IsPath(g, t, path)
    requires Adjacent(path[|path| - 1], q) && InGrid(g, q) && At(g, q) == t
    ensures IsPath(g, t, path + [q])
    decreases |path|
  {
    if |path| == 1 {
      assert IsPath(g, t, [q]);
      assert (path + [q])[1..] == [q];
    } else {
      PathExtends(g, t, path[1..], q);
      assert (path + [q])[1..] == path[1..] + [q];
    }
  }

  /** A region grows by any t-coloured orthogonal neighbour of one of its cells. */
  lemma ReachableStep(g: Grid, t: Color, s: Point, p: Point, q: Point)
    requires Reachable(g, t, s, p)
    requires Adjacent(p, q) && InGrid(g, q) && At(g, q) == t
    ensures Reachable(g, t, s, q)
  {
    var path :| IsPath(g, t, path) && path[0] == s && path[|path| - 1] == p;
    PathExtends(g, t, path, q);
    var longer := path + [q];
    assert longer[0] == s && longer[|longer| - 1] == q;
  }

  /** A t-coloured on-grid neighbour n of a cell of S lies in S. */
  predicate Spreads(g: Grid, t: Color, n: Point, S: set<Point>)
  {
    InGrid(g, n) && At(g, n) == t ==> n in S
  }

  /** S is closed under stepping from its t-coloured cells to t-coloured neighbours. */
  ghost predicate Closed(g: Grid, t: Color, S: set<Point>)
  {
    forall q {:trigger q in S} :: q in S && InGrid(g, q) && At(g, q) == t ==>
      && Spreads(g, t, (q.0 + 1, q.1), S)
      && Spreads(g, t, (q.0 - 1, q.1), S)
      && Spreads(g, t, (q.0, q.1 + 1), S)
      && Spreads(g, t, (q.0, q.1 - 1), S)
  }

  /** A path that starts in a closed set never leaves it. */
  lemma {:induction false} PathStaysInClosed(g: Grid, t: Color, S: set<Point>, path: seq<Point>)
    requires IsPath(g, t, path) && path[0] in S && Closed(g, t, S)
    ensures path[|path| - 1] in S
    decreases |path|
  {
    if |path| > 1 {
      assert Adjacent(path[0], path[1]) && IsPath(g, t, path[1..]);
      assert path[1] in S;
      PathStaysInClosed(g, t, S, path[1..]);
    }
  }

  /** A closed set containing the seed contains the seed's whole region. */
  lemma ClosedContainsRegion(g: Grid, t: Color, s: Point, S: set<Point>, p: Point)
    requires s in S && Closed(g, t, S)
    requires Reachable(g, t, s, p)
    ensures p in S
  {
    var path :| IsPath(g, t, path) && path[0] == s && path[|path| - 1] == p;
    PathStaysInClosed(g, t, S, path);
  }

  /** The seed's region: the cells joined to s by a path of cells of the seed's colour. */
  ghost function Region(g: Grid, s: Point): iset<Point>
    requires InGrid(g, s)
  {
    iset p | Reachable(g, At(g, s), s, p)
  }

  /**
   * What a fill at seed s with colour c leaves behind: every cell of the
   * seed colour's 4-connected region around s becomes c, every other cell
   * keeps its colour.
   */
  ghost function Flooded(g: Grid, s: Point, c: Color): (r: Grid)
    requires InGrid(g, s)
    ensures |r| == |g| && forall x :: 0 <= x < |g| ==> |r[x]| == |g[x]|
  {
    seq(|g|, x requires 0 <= x < |g| =>
      seq(|g[x]|, y requires 0 <= y < |g[x]| =>
        if (x, y) in Region(g, s) then c else g[x][y]))
  }

  /** A cell after the fill: c when it is in the seed's region, its old colour otherwise. */
  lemma FloodedAt(g: Grid, s: Point, c: Color, p: Point)
    requires InGrid(g, s) && InGrid(g, p)
    ensures InGrid(Flooded(g, s, c), p)
    ensures At(Flooded(g, s, c), p) == if Reachable(g, At(g, s), s, p) then c else At(g, p)
  {
    assert p in Region(g, s) <==> Reachable(g, At(g, s), s, p);
  }

  /** Filling with the colour the seed already has changes nothing. */
  lemma FloodSameColourIsNoop(g: Grid, s: Point, c: Color)
    requires InGrid(g, s) && At(g, s) == c
    ensures Flooded(g, s, c) == g
  {
    var r := Flooded(g, s, c);
    forall x, y | 0 <= x < |g| && 0 <= y < |g[x]|
      ensures r[x][y] == g[x][y]
    {
      FloodedAt(g, s, c, (x, y));
      if Reachable(g, c, s, (x, y)) {
        ReachableEnds(g, c, s, (x, y));
      }
    }
    GridsEqual(r, g);
  }

  /**
   * The fill writes only c, and only over cells that had the seed's colour;
   * every other cell is unchanged.
   */
  lemma FloodChangesOnlySeedColour(g: Grid, s: Point, c: Color, p: Point)
    requires InGrid(g, s) && InGrid(g, p)
    ensures InGrid(Flooded(g, s, c), p)
    ensures At(Flooded(g, s, c), p) == At(g, p) || (At(g, p) == At(g, s) && At(Flooded(g, s, c), p) == c)
  {
    FloodedAt(g, s, c, p);
    if Reachable(g, At(g, s), s, p) {
      ReachableEnds(g, At(g, s), s, p);
    }
  }

  /** Every cell connected to the seed by an orthogonal path of the seed's colour ends up c. */
  lemma FloodCoversRegion(g: Grid, s: Point, c: Color, p: Point)
    requires InGrid(g, s) && Reachable(g, At(g, s), s, p)
    ensures InGrid(Flooded(g, s, c), p) && At(Flooded(g, s, c), p) == c
  {
    ReachableEnds(g, At(g, s), s, p);
    FloodedAt(g, s, c, p);
  }

  /**
   * The fill stops exactly at the region's border: an on-grid orthogonal
   * neighbour of a recoloured cell that was not recoloured never had the
   * seed's colour.
   */
  lemma FloodStopsAtBorder(g: Grid, s: Point, c: Color, p: Point, q: Point)
    requires InGrid(g, s) && InGrid(g, p) && InGrid(g, q) && Adjacent(p, q)
    requires Reachable(g, At(g, s), s, p) && !Reachable(g, At(g, s), s, q)
    ensures At(Flooded(g, s, c), q) == At(g, q) != At(g, s)
  {
    FloodedAt(g, s, c, q);
    if At(g, q) == At(g, s) {
      ReachableStep(g, At(g, s), s, p, q);
    }
  }

  /** Filling the same seed twice with the same colour is the same as filling once. */
  lemma FloodIdempotent(g: Grid, s: Point, c: Color)
    requires InGrid(g, s)
    ensures Flooded(Flooded(g, s, c), s, c) == Flooded(g, s, c)
  {
    var r := Flooded(g, s, c);
    ReachableSelf(g, At(g, s), s);
    FloodedAt(g, s, c, s);
    FloodSameColourIsNoop(r, s, c);
  }

  /** On a single-coloured canvas every cell is reachable from every other. */
  lemma {:induction false} UniformReachable(g: Grid, w: int, h: int, t: Color, s: Point, p: Point)
    requires IsGrid(g, w, h)
    requires forall x, y :: 0 <= x < w && 0 <= y < h ==> g[x][y] == t
    requires InGrid(g, s) && InGrid(g, p)
    ensures Reachable(g, t, s, p)
    decreases Abs(p.0 - s.0) + Abs(p.1 - s.1)
  {
    if p == s {
      ReachableSelf(g, t, s);
    } else {
      var q := if p.0 < s.0 then (p.0 + 1, p.1)
               else if p.0 > s.0 then (p.0 - 1, p.1)
               else if p.1 < s.1 then (p.0, p.1 + 1)
               else (p.0, p.1 - 1);
      UniformReachable(g, w, h, t, s, q);
      assert Adjacent(q, p);
      ReachableStep(g, t, s, q, p);
    }
  }

  /** Filling a single-coloured canvas with a new colour recolours all of it. */
  lemma FloodUniform(g: Grid, w: nat, h: nat, t: Color, s: Point, c: Color)
    requires IsGrid(g, w, h)
    requires forall x, y :: 0 <= x < w && 0 <= y < h ==> g[x][y] == t
    requires InGrid(g, s)
    ensures Flooded(g, s, c) == Blank(w, h, c)
  {
    var r := Flooded(g, s, c);
    forall x, y | 0 <= x < w && 0 <= y < h
      ensures r[x][y] == c
    {
      UniformReachable(g, w, h, t, s, (x, y));
      FloodedAt(g, s, c, (x, y));
    }
    GridsEqual(r, Blank(w, h, c));
  }

  /**
   * Diagonal contact does not connect: on [[R, W], [W, R]] a fill of the
   * top-left red cell leaves the bottom-right red cell red.
   */
  lemma DiagonalNotConnected()
    ensures Flooded([[RED, WHITE], [WHITE, RED]], (0, 0), BLUE)[1][1] == RED
  {
    var g := [[RED, WHITE], [WHITE, RED]];
    assert Closed(g, RED, {(0, 0)});
    FloodedAt(g, (0, 0), BLUE, (1, 1));
    if Reachable(g, RED, (0, 0), (1, 1)) {
      ClosedContainsRegion(g, RED, (0, 0), {(0, 0)}, (1, 1));
    }
  }

  /** p lies on the w-by-h canvas or on the one-cell border around it. */
  predicate InBorder(w: int, h: int, p: Point)
  {
    -1 <= p.0 <= w && -1 <= p.1 <= h
  }

  /** The cells the fill may enqueue: the canvas and its one-cell border. */
  ghost function Border(w: int, h: int): (b: set<Point>)
    ensures forall p {:trigger InBorder(w, h, p)} :: InBorder(w, h, p) ==> p in b
  {
    var b := set x: int, y: int | -1 <= x <= w && -1 <= y <= h :: (x, y);
    assert forall p {:trigger InBorder(w, h, p)} :: InBorder(w, h, p) ==> p in b by {
      forall p | InBorder(w, h, p) ensures p in b {
        var (x, y) := p;
        assert (x, y) in b;
      }
    }
    b
  }

  /** All four orthogonal neighbours of q are in S. */
  predicate Surrounded(q: Point, S: set<Point>)
  {
    (q.0 + 1, q.1) in S && (q.0 - 1, q.1) in S && (q.0, q.1 + 1) in S && (q.0, q.1 - 1) in S
  }

  predicate Distinct(s: seq<Point>)
  {
    forall i, j :: 0 <= i < j < |s| ==> s[i] != s[j]
  }

  /** A subset as large as its superset is the whole superset. */
  lemma SubsetOfSameSize(a: set<Point>, b: set<Point>)
    requires a <= b && |a| == |b|
    ensures a == b
  {
    assert a * b == a;
    assert |b - a| == 0;
  }

  /**
   * The bookkeeping of the fill's queue: the seed is visited, every visited
   * cell lies within the border and every unvisited one there is counted in
   * `unvisited`; every queued cell is visited and not yet done, no cell is
   * queued twice, done cells are visited, and the visited cells are exactly
   * the done and the queued ones.
   */
  ghost predicate Frontier(w: int, h: int, pos: Point, visited: set<Point>, queue: seq<Point>,
                           done: set<Point>, unvisited: set<Point>)
  {
    && pos in visited
    && (forall q {:trigger q in visited} :: q in visited ==> InBorder(w, h, q))
    && (forall q {:trigger InBorder(w, h, q)} :: InBorder(w, h, q) && q !in visited ==> q in unvisited)
    && Distinct(queue)
    && (forall i :: 0 <= i < |queue| ==> queue[i] in visited && queue[i] !in done)
    && (forall q {:trigger q in done} :: q in done ==> q in visited)
    && |visited| == |done| + |queue|
  }

  /** Every done cell of colour t has all four neighbours visited. */
  ghost predicate Spread(g: Grid, t: Color, done: set<Point>, visited: set<Point>)
  {
    forall q {:trigger q in done} :: q in done && InGrid(g, q) && At(g, q) == t ==> Surrounded(q, visited)
  }

  /** The canvas holds c exactly on the done cells that had colour t in g, and g elsewhere. */
  ghost predicate Painting(canvas: array2<Color>, g: Grid, t: Color, c: Color, done: set<Point>)
    reads canvas
    requires IsGrid(g, canvas.Length0, canvas.Length1)
  {
    forall x, y {:trigger canvas[x, y]} :: 0 <= x < canvas.Length0 && 0 <= y < canvas.Length1 ==>
      canvas[x, y] == if (x, y) in done && g[x][y] == t then c else g[x][y]
  }

  /** path is a walk of t-coloured cells from s to p. */
  ghost predicate PathFromTo(g: Grid, t: Color, s: Point, p: Point, path: seq<Point>)
  {
    IsPath(g, t, path) && path[0] == s && path[|path| - 1] == p
  }

  /** paths holds, for every t-coloured on-grid cell of S, a walk to it from s. */
  ghost predicate Witnessed(g: Grid, t: Color, s: Point, S: set<Point>, paths: map<Point, seq<Point>>)
  {
    forall q {:trigger q in S} :: q in S && InGrid(g, q) && At(g, q) == t ==> q in paths && PathFromTo(g, t, s, q, paths[q])
  }

  /**
   * The state the fill ends in: the set S of visited cells contains the seed,
   * is closed under stepping to seed-coloured neighbours, and all of its
   * seed-coloured cells are reachable from the seed. Recolouring exactly
   * those cells is then the flood of the seed's region.
   */
  lemma FloodedFromClosure(g: Grid, w: int, h: int, s: Point, c: Color, S: set<Point>,
                           paths: map<Point, seq<Point>>, r: Grid)
    requires IsGrid(g, w, h) && IsGrid(r, w, h) && InGrid(g, s)
    requires s in S && Closed(g, At(g, s), S) && Witnessed(g, At(g, s), s, S, paths)
    requires forall x, y :: 0 <= x < w && 0 <= y < h ==>
      r[x][y] == if (x, y) in S && g[x][y] == At(g, s) then c else g[x][y]
    ensures r == Flooded(g, s, c)
  {
    var t := At(g, s);
    var f := Flooded(g, s, c);
    forall x, y | 0 <= x < w && 0 <= y < h
      ensures r[x][y] == f[x][y]
    {
      if Reachable(g, t, s, (x, y)) {
        ReachableEnds(g, t, s, (x, y));
        ClosedContainsRegion(g, t, s, S, (x, y));
      }
      if (x, y) in S && g[x][y] == t {
        assert InGrid(g, (x, y)) && At(g, (x, y)) == t;
        assert PathFromTo(g, t, s, (x, y), paths[(x, y)]);
      }
      FloodedAt(g, s, c, (x, y));
    }
    GridsEqual(r, f);
  }

  /** Removing the head of the queue and marking it done keeps the bookkeeping. */
  lemma PopKeepsFrontier(w: int, h: int, pos: Point, visited: set<Point>, queue: seq<Point>,
                         done: set<Point>, unvisited: set<Point>)
    requires Frontier(w, h, pos, visited, queue, done, unvisited) && |queue| > 0
    ensures Frontier(w, h, pos, visited, queue[1..], done + {queue[0]}, unvisited)
  {
  }

  /**
   * One step of the inner loop of fill_bucket: a neighbour n of the cell p
   * that has not been visited is marked visited and appended to the queue.
   * The ghost parameters carry the proof: a path to every visited cell of the
   * seed colour, and the cells still unvisited within the border.
   */
  method Offer(ghost g: Grid, ghost target: Color, ghost pos: Point, w: int, h: int, p: Point, n: Point,
               visited: set<Point>, queue: seq<Point>, ghost done: set<Point>,
               ghost unvisited: set<Point>, ghost paths: map<Point, seq<Point>>)
      returns (visited': set<Point>, queue': seq<Point>,
               ghost unvisited': set<Point>, ghost paths': map<Point, seq<Point>>)
    requires IsGrid(g, w, h) && 0 <= p.0 < w && 0 <= p.1 < h && At(g, p) == target && Adjacent(p, n)
    requires Frontier(w, h, pos, visited, queue, done, unvisited)
    requires Witnessed(g, target, pos, visited, paths)
    requires p in visited
    ensures Frontier(w, h, pos, visited', queue', done, unvisited')
    ensures Witnessed(g, target, pos, visited', paths')
    ensures visited' == visited + {n}
    ensures n !in visited ==> queue' == queue + [n]
    ensures n in visited ==> queue' == queue
    ensures |unvisited'| + |queue'| == |unvisited| + |queue|
    ensures |queue'| - |queue| == |visited'| - |visited|
  {
    visited', queue', unvisited', paths' := visited, queue, unvisited, paths;
    if n !in visited {
      assert InBorder(w, h, n);
      if InGrid(g, n) && At(g, n) == target {
        assert PathFromTo(g, target, pos, p, paths[p]);
        PathExtends(g, target, paths[p], n);
        paths' := paths[n := paths[p] + [n]];
      }
      visited' := visited + {n};
      queue' := queue + [n];
      unvisited' := unvisited - {n};
    }
  }

  /** The elements s[0], ..., s[k-1] as a set. */
  function Firsts(s: seq<Point>, k: nat): set<Point>
    requires k <= |s|
  {
    if k == 0 then {} else Firsts(s, k - 1) + {s[k - 1]}
  }

  lemma FirstsOfNeighbours(p: Point)
    ensures Firsts(Neighbours(p), 4) == {(p.0 + 1, p.1), (p.0 - 1, p.1), (p.0, p.1 + 1), (p.0, p.1 - 1)}
  {
    var ns := Neighbours(p);
    assert Firsts(ns, 1) == {ns[0]};
    assert Firsts(ns, 2) == {ns[0], ns[1]};
    assert Firsts(ns, 3) == {ns[0], ns[1], ns[2]};
    assert Firsts(ns, 4) == {ns[0], ns[1], ns[2], ns[3]};
  }

  /**
   * The inner loop of fill_bucket: each of the four neighbours of p, in the
   * order right, left, down, up, is offered to the queue.
   */
  method EnqueueNeighbours(ghost g: Grid, ghost target: Color, ghost pos: Point, w: int, h: int, p: Point,
                           visited: set<Point>, queue: seq<Point>, ghost done: set<Point>,
                           ghost unvisited: set<Point>, ghost paths: map<Point, seq<Point>>)
      returns (visited': set<Point>, queue': seq<Point>,
               ghost unvisited': set<Point>, ghost paths': map<Point, seq<Point>>)
    requires IsGrid(g, w, h) && 0 <= p.0 < w && 0 <= p.1 < h && At(g, p) == target
    requires Frontier(w, h, pos, visited, queue, done, unvisited)
    requires Witnessed(g, target, pos, visited, paths)
    requires p in visited
    ensures Frontier(w, h, pos, visited', queue', done, unvisited')
    ensures Witnessed(g, target, pos, visited', paths')
    ensures visited' == visited + {(p.0 + 1, p.1), (p.0 - 1, p.1), (p.0, p.1 + 1), (p.0, p.1 - 1)}
    ensures |queue| <= |queue'| && queue'[..|queue|] == queue
    ensures |unvisited'| + |queue'| == |unvisited| + |queue|
    ensures |queue'| - |queue| == |visited'| - |visited|
  {
    visited', queue', unvisited', paths' := visited, queue, unvisited, paths;
    var around := Neighbours(p);
    for k := 0 to 4
      invariant Frontier(w, h, pos, visited', queue', done, unvisited')
      invariant Witnessed(g, target, pos, visited', paths')
      invariant visited' == visited + Firsts(around, k)
      invariant |unvisited'| + |queue'| == |unvisited| + |queue|
      invariant |queue'| - |queue| == |visited'| - |visited|
      invariant |queue| <= |queue'| && queue'[..|queue|] == queue
    {
      assert Adjacent(p, around[k]) by {
        assert k == 0 || k == 1 || k == 2 || k == 3;
      }
      visited', queue', unvisited', paths' := Offer(g, target, pos, w, h, p, around[k], visited', queue', done, unvisited', paths');
    }
    FirstsOfNeighbours(p);
  }

  /** Marking p done keeps every done cell of colour t surrounded by visited cells. */
  lemma SpreadGrows(g: Grid, t: Color, done: set<Point>, visited: set<Point>, visited': set<Point>, p: Point)
    requires Spread(g, t, done, visited) && visited <= visited'
    requires InGrid(g, p) && At(g, p) == t ==> Surrounded(p, visited')
    ensures Spread(g, t, done + {p}, visited')
  {
  }

  /**
   * The body of the outer loop of fill_bucket for a dequeued cell p: when p
   * is on the canvas and still has the target colour it is repainted, and
   * the result says whether it was.
   */
  method Visit(canvas: array2<Color>, ghost g: Grid, target: Color, color: Color, ghost done: set<Point>, p: Point)
      returns (painted: bool)
    requires IsGrid(g, canvas.Length0, canvas.Length1) && target != color
    requires Painting(canvas, g, target, color, done) && p !in done
    modifies canvas
    ensures Painting(canvas, g, target, color, done + {p})
    ensures painted <==> InGrid(g, p) && At(g, p) == target
  {
    var (x, y) := p;
    if 0 <= x < canvas.Length0 && 0 <= y < canvas.Length1 && canvas[x, y] == target {
      canvas[x, y] := color;
      painted := true;
    } else {
      painted := false;
    }
  }

  /**
   * fill_bucket: breadth-first fill from `pos` with `color` over the canvas.
   * The ghost results are the set of coordinates ever put into the queue and
   * the number of insertions into the queue: each coordinate is inserted at
   * most once, and all of them lie within the canvas and its one-cell border.
   */
  method FillBucket(canvas: array2<Color>, pos: Point, color: Color)
      returns (ghost enqueued: set<Point>, ghost pushes: nat)
    requires 0 <= pos.0 < canvas.Length0 && 0 <= pos.1 < canvas.Length1
    modifies canvas
    ensures Snapshot(canvas) == Flooded(old(Snapshot(canvas)), pos, color)
    ensures pushes == |enqueued|
    ensures forall q :: q in enqueued ==> InBorder(canvas.Length0, canvas.Length1, q)
    ensures forall x, y :: 0 <= x < canvas.Length0 && 0 <= y < canvas.Length1 && canvas[x, y] != old(canvas[x, y])
              ==> (x, y) in enqueued
  {
    ghost var g0 := Snapshot(canvas);
    SnapshotAgrees(canvas);
    var target := canvas[pos.0, pos.1];
    if target == color {
      FloodSameColourIsNoop(g0, pos, color);
      return {}, 0;
    }
    var w, h := canvas.Length0, canvas.Length1;
    var queue := [pos];
    var visited := {pos};
    ghost var done: set<Point> := {};
    ghost var unvisited := Border(w, h) - {pos};
    ghost var paths := map[pos := [pos]];
    pushes := 1;
    assert PathFromTo(g0, target, pos, pos, [pos]);
    while |queue| > 0
      invariant Frontier(w, h, pos, visited, queue, done, unvisited)
      invariant Painting(canvas, g0, target, color, done)
      invariant Spread(g0, target, done, visited)
      invariant Witnessed(g0, target, pos, visited, paths)
      invariant pushes == |visited|
      decreases |unvisited| + |queue|
    {
      PopKeepsFrontier(w, h, pos, visited, queue, done, unvisited);
      var p := queue[0];
      queue := queue[1..];
      var painted := Visit(canvas, g0, target, color, done, p);
      if painted {
        var visited', queue';
        visited', queue', unvisited, paths := EnqueueNeighbours(g0, target, pos, w, h, p, visited, queue, done + {p}, unvisited, paths);
        SpreadGrows(g0, target, done, visited, visited', p);
        pushes := pushes + (|queue'| - |queue|);
        visited, queue := visited', queue';
      } else {
        SpreadGrows(g0, target, done, visited, visited, p);
      }
      done := done + {p};
    }
    SubsetOfSameSize(done, visited);
    assert Closed(g0, target, visited);
    SnapshotAgrees(canvas);
    FloodedFromClosure(g0, w, h, pos, color, visited, paths, Snapshot(canvas));
    enqueued := visited;
  }
}
