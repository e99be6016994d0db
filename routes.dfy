// What it means for a signal to get from a cell to a Target: the
// specification the router's search is proved against.

module Routes {
  import opened Tiles

  /** A board in row-major order: board[r][c] is the tile at row r, column c. */
  type Grid = seq<seq<TileType>>

  /** A (row, column) pair; it means nothing outside a board's bounds. */
  type Coord = (int, int)

  /** The router only works on non-empty boards whose rows all have the first row's length. */
  ghost predicate Rectangular(board: Grid)
  {
    |board| > 0 && forall r :: 0 <= r < |board| ==> |board[r]| == |board[0]|
  }

  predicate InBounds(board: Grid, p: Coord)
  {
    0 <= p.0 < |board| && 0 <= p.1 < |board[p.0]|
  }

  function TileAt(board: Grid, p: Coord): TileType
    requires InBounds(board, p)
  {
    board[p.0][p.1]
  }

  function Abs(x: int): nat
  {
    if x < 0 then -x else x
  }

  /** Two cells are 4-adjacent when they share a side. */
  predicate Adjacent(a: Coord, b: Coord)
  {
    Abs(a.0 - b.0) + Abs(a.1 - b.1) == 1
  }

  // ---------------------------------------------------------------------
  // Routes
  // ---------------------------------------------------------------------

  /**
   * A route from path[0] to a Target avoiding `visited`, stated cell by cell:
   * the last cell is an in-bounds Target; every earlier cell is in bounds,
   * traversable and outside `visited`; consecutive cells are 4-adjacent;
   * and no cell occurs twice.
   */
  ghost predicate IsSimpleRoute(board: Grid, visited: set<Coord>, path: seq<Coord>)
  {
    && |path| > 0
    && InBounds(board, path[|path| - 1])
    && TileAt(board, path[|path| - 1]) == Target
    && (forall i :: 0 <= i < |path| - 1 ==>
          InBounds(board, path[i]) && Traversable(TileAt(board, path[i])) && path[i] !in visited)
    && (forall i :: 0 <= i < |path| - 1 ==> Adjacent(path[i], path[i + 1]))
    && (forall i, j :: 0 <= i < j < |path| ==> path[i] != path[j])
  }

  /**
   * The same notion, stated the way the search walks it: one cell at a time,
   * each cell joining the avoided set before the rest of the route is taken.
   */
  ghost predicate IsRoute(board: Grid, visited: set<Coord>, path: seq<Coord>)
    decreases |path|
  {
    && |path| > 0
    && InBounds(board, path[0])
    && if |path| == 1 then TileAt(board, path[0]) == Target
       else
         && Traversable(TileAt(board, path[0]))
         && path[0] !in visited
         && Adjacent(path[0], path[1])
         && IsRoute(board, visited + {path[0]}, path[1..])
  }

  /** A signal can reach some Target from `from` without entering `visited`. */
  ghost predicate RouteExists(board: Grid, from: Coord, visited: set<Coord>)
  {
    exists path :: IsSimpleRoute(board, visited, path) && path[0] == from
  }

  /** The step-wise and the cell-by-cell definitions of a route agree. */
  lemma {:induction false} RouteIsSimple(board: Grid, visited: set<Coord>, path: seq<Coord>)
    ensures IsRoute(board, visited, path) <==> IsSimpleRoute(board, visited, path)
    decreases |path|
  {
    if |path| > 1 {
      var tail := path[1..];
      var inner := visited + {path[0]};
      RouteIsSimple(board, inner, tail);
      if IsRoute(board, visited, path) {
        forall i | 0 <= i < |path| - 1
          ensures InBounds(board, path[i]) && Traversable(TileAt(board, path[i])) && path[i] !in visited
        {
          if i > 0 { assert path[i] == tail[i - 1]; }
        }
        forall i | 0 <= i < |path| - 1
          ensures Adjacent(path[i], path[i + 1])
        {
          if i > 0 { assert path[i] == tail[i - 1] && path[i + 1] == tail[i]; }
        }
        forall i, j | 0 <= i < j < |path|
          ensures path[i] != path[j]
        {
          assert path[j] == tail[j - 1];
          if i > 0 {
            assert path[i] == tail[i - 1];
          } else if j < |path| - 1 {
            assert tail[j - 1] !in inner;
          } else {
            assert TileAt(board, tail[j - 1]) == Target;
          }
        }
      }
      if IsSimpleRoute(board, visited, path) {
        forall i | 0 <= i < |tail| - 1
          ensures InBounds(board, tail[i]) && Traversable(TileAt(board, tail[i])) && tail[i] !in inner
        {
          assert tail[i] == path[i + 1];
          assert path[0] != path[i + 1];
        }
        forall i | 0 <= i < |tail| - 1
          ensures Adjacent(tail[i], tail[i + 1])
        {
          assert tail[i] == path[i + 1] && tail[i + 1] == path[i + 2];
        }
        forall i, j | 0 <= i < j < |tail|
          ensures tail[i] != tail[j]
        {
          assert tail[i] == path[i + 1] && tail[j] == path[j + 1];
        }
        assert tail[|tail| - 1] == path[|path| - 1];
        assert IsSimpleRoute(board, inner, tail);
      }
    }
  }

  // ---------------------------------------------------------------------
  // One lemma per branch of the search
  // ---------------------------------------------------------------------

  /** No route starts outside the board. */
  lemma NoRouteOutside(board: Grid, p: Coord, visited: set<Coord>)
    requires !InBounds(board, p)
    ensures !RouteExists(board, p, visited)
  {
  }

  /** An in-bounds Target is reached at once, whatever has been visited. */
  lemma RouteAtTarget(board: Grid, p: Coord, visited: set<Coord>)
    requires InBounds(board, p) && TileAt(board, p) == Target
    ensures RouteExists(board, p, visited)
  {
    assert IsSimpleRoute(board, visited, [p]);
  }

  /** An obstacle, or a cell already on the current path, leads nowhere. */
  lemma NoRouteThroughBlocked(board: Grid, p: Coord, visited: set<Coord>)
    requires InBounds(board, p) && TileAt(board, p) != Target
    requires Blocks(TileAt(board, p)) || p in visited
    ensures !RouteExists(board, p, visited)
  {
  }

  /** A route leaving a cell goes on, with that cell visited, from one of its neighbours. */
  lemma RouteLeavesByNeighbour(board: Grid, p: Coord, visited: set<Coord>) returns (next: Coord)
    requires InBounds(board, p) && Traversable(TileAt(board, p)) && p !in visited
    requires RouteExists(board, p, visited)
    ensures Adjacent(p, next) && RouteExists(board, next, visited + {p})
  {
    var path :| IsSimpleRoute(board, visited, path) && path[0] == p;
    RouteIsSimple(board, visited, path);
    var tail := path[1..];
    RouteIsSimple(board, visited + {p}, tail);
    next := path[1];
    assert IsSimpleRoute(board, visited + {p}, tail) && tail[0] == next;
  }

  /** A route from a neighbour that avoids the cell extends to a route from the cell. */
  lemma RouteThroughNeighbour(board: Grid, p: Coord, next: Coord, visited: set<Coord>)
    requires InBounds(board, p) && Traversable(TileAt(board, p)) && p !in visited
    requires Adjacent(p, next) && RouteExists(board, next, visited + {p})
    ensures RouteExists(board, p, visited)
  {
    var tail :| IsSimpleRoute(board, visited + {p}, tail) && tail[0] == next;
    RouteIsSimple(board, visited + {p}, tail);
    var path := [p] + tail;
    assert path[1..] == tail;
    assert IsRoute(board, visited, path);
    RouteIsSimple(board, visited, path);
  }

  /**
   * From a traversable, unvisited cell a route exists exactly when one exists
   * from its south, east, north or west neighbour once the cell is visited.
   */
  lemma RouteStep(board: Grid, p: Coord, visited: set<Coord>)
    requires InBounds(board, p) && Traversable(TileAt(board, p)) && p !in visited
    ensures RouteExists(board, p, visited) <==>
              || RouteExists(board, (p.0 + 1, p.1), visited + {p})
              || RouteExists(board, (p.0, p.1 + 1), visited + {p})
              || RouteExists(board, (p.0 - 1, p.1), visited + {p})
              || RouteExists(board, (p.0, p.1 - 1), visited + {p})
  {
    var inner := visited + {p};
    if RouteExists(board, p, visited) {
      var next := RouteLeavesByNeighbour(board, p, visited);
      assert next in {(p.0 + 1, p.1), (p.0, p.1 + 1), (p.0 - 1, p.1), (p.0, p.1 - 1)};
    }
    if RouteExists(board, (p.0 + 1, p.1), inner) {
      RouteThroughNeighbour(board, p, (p.0 + 1, p.1), visited);
    } else if RouteExists(board, (p.0, p.1 + 1), inner) {
      RouteThroughNeighbour(board, p, (p.0, p.1 + 1), visited);
    } else if RouteExists(board, (p.0 - 1, p.1), inner) {
      RouteThroughNeighbour(board, p, (p.0 - 1, p.1), visited);
    } else if RouteExists(board, (p.0, p.1 - 1), inner) {
      RouteThroughNeighbour(board, p, (p.0, p.1 - 1), visited);
    }
  }

  // ---------------------------------------------------------------------
  // The termination measure
  // ---------------------------------------------------------------------

  /** The in-bounds cells of a rows-by-cols board. */
  ghost function Cells(rows: int, cols: int): set<Coord>
  {
    set r, c | 0 <= r < rows && 0 <= c < cols :: (r, c)
  }

  ghost function RowCells(r: int, cols: int): set<Coord>
  {
    set c | 0 <= c < cols :: (r, c)
  }

  lemma {:induction false} RowCount(r: int, cols: nat)
    ensures |RowCells(r, cols)| == cols
    decreases cols
  {
    if cols == 0 {
      assert RowCells(r, cols) == {};
    } else {
      RowCount(r, cols - 1);
      assert RowCells(r, cols) == RowCells(r, cols - 1) + {(r, cols - 1)};
    }
  }

  /** A board has rows*cols in-bounds cells, which bounds the depth of the search. */
  lemma {:induction false} CellCount(rows: nat, cols: nat)
    ensures |Cells(rows, cols)| == rows * cols
    decreases rows
  {
    if rows == 0 {
      assert Cells(rows, cols) == {};
    } else {
      CellCount(rows - 1, cols);
      RowCount(rows - 1, cols);
      assert Cells(rows, cols) == Cells(rows - 1, cols) + RowCells(rows - 1, cols);
      assert Cells(rows - 1, cols) * RowCells(rows - 1, cols) == {};
      assert rows * cols == (rows - 1) * cols + cols;
    }
  }

  /** Marking an unmarked in-bounds cell leaves fewer unmarked in-bounds cells. */
  lemma UnvisitedShrinks(cells: set<Coord>, visited: set<Coord>, p: Coord)
    requires p in cells && p !in visited
    ensures |cells - (visited + {p})| < |cells - visited|
  {
    assert cells - visited == (cells - (visited + {p})) + {p};
  }

  /** Whatever is visited, the measure never exceeds the number of cells on the board. */
  lemma MeasureBounded(rows: nat, cols: nat, visited: set<Coord>)
    ensures |Cells(rows, cols) - visited| <= rows * cols
  {
    CellCount(rows, cols);
  }

  // ---------------------------------------------------------------------
  // Locating a tile, and the whole query
  // ---------------------------------------------------------------------

  /** Cell a comes before cell b in row-major order. */
  predicate RowMajorBefore(a: Coord, b: Coord)
  {
    a.0 < b.0 || (a.0 == b.0 && a.1 < b.1)
  }

  ghost predicate HasTile(board: Grid, kind: TileType)
  {
    exists r, c :: 0 <= r < |board| && 0 <= c < |board[r]| && board[r][c] == kind
  }

  /** p holds `kind` and no cell before it in row-major order does. */
  ghost predicate IsFirstTile(board: Grid, kind: TileType, p: Coord)
  {
    && InBounds(board, p)
    && TileAt(board, p) == kind
    && forall r, c :: 0 <= r < |board| && 0 <= c < |board[r]| && RowMajorBefore((r, c), p) ==> board[r][c] != kind
  }

  /** At most one cell is the first of its kind. */
  lemma FirstTileUnique(board: Grid, kind: TileType, p: Coord, q: Coord)
    requires IsFirstTile(board, kind, p) && IsFirstTile(board, kind, q)
    ensures p == q
  {
  }

  /** The query's answer: a route exists from the row-major first Source with nothing visited. */
  ghost predicate SignalRoutable(board: Grid)
  {
    exists p :: IsFirstTile(board, Source, p) && RouteExists(board, p, {})
  }

  /** A board without a Source never routes a signal. */
  lemma NoSourceNotRoutable(board: Grid)
    requires !HasTile(board, Source)
    ensures !SignalRoutable(board)
  {
  }

  /** With a Source on the board, the answer is the search from the first one. */
  lemma RoutableFromFirstSource(board: Grid, source: Coord)
    requires IsFirstTile(board, Source, source)
    ensures SignalRoutable(board) <==> RouteExists(board, source, {})
  {
    if SignalRoutable(board) {
      var p :| IsFirstTile(board, Source, p) && RouteExists(board, p, {});
      FirstTileUnique(board, Source, p, source);
    }
  }

  /** When the first Source sits next to an in-bounds Target, the signal routes. */
  lemma SourceBesideTargetRoutable(board: Grid, source: Coord, target: Coord)
    requires IsFirstTile(board, Source, source)
    requires InBounds(board, target) && TileAt(board, target) == Target && Adjacent(source, target)
    ensures SignalRoutable(board)
  {
    assert IsSimpleRoute(board, {}, [source, target]);
  }
}
