// The CircuitRouter: it owns a board, finds its first Source and searches
// depth-first, with backtracking, for a way to any Target.

module Router {
  import opened Tiles
  import opened Routes

  /** What the tile finder returns when no cell holds the tile kind asked for. */
  const NotFound: Coord := (-1, -1)

  /**
   * The set of coordinates a query creates empty and the search updates in
   * place: a cell is on it while the search is exploring from that cell.
   */
  class VisitedSet {
    var cells: set<Coord>

    constructor ()
      ensures cells == {}
    {
      cells := {};
    }
  }

  class CircuitRouter {
    const board: Grid
    const rows: int
    const cols: int

    /** The board is rectangular and the dimensions are its own. */
    ghost predicate Valid()
    {
      Rectangular(board) && rows == |board| && cols == |board[0]|
    }

    /** Takes the board over; the column count is the first row's length. */
    constructor (board: Grid)
      requires Rectangular(board)
      ensures Valid() && this.board == board
    {
      this.board := board;
      rows := |board|;
      cols := |board[0]|;
    }

    /** The bounds check against the stored dimensions agrees with where the board can be indexed. */
    function IsValid(r: int, c: int): (b: bool)
      requires Valid()
      ensures b <==> InBounds(board, (r, c))
    {
      r >= 0 && c >= 0 && r < rows && c < cols
    }

    /** Scans row by row, column by column, for the first cell holding `kind`. */
    method FindTile(kind: TileType) returns (p: Coord)
      requires Valid()
      ensures p == NotFound <==> !HasTile(board, kind)
      ensures p != NotFound ==> IsFirstTile(board, kind, p)
    {
      for r := 0 to rows
        invariant forall r', c' :: 0 <= r' < r && 0 <= c' < cols ==> board[r'][c'] != kind
      {
        for c := 0 to cols
          invariant forall c' :: 0 <= c' < c ==> board[r][c'] != kind
        {
          if board[r][c] == kind {
            return (r, c);
          }
        }
      }
      return NotFound;
    }

    /**
     * True when a signal reaches a Target from `from` along cells not yet in
     * `visited`; `visited` is the same set again on return.
     */
    method RouteFrom(from: Coord, visited: VisitedSet) returns (found: bool)
      requires Valid()
      modifies visited
      ensures visited.cells == old(visited.cells)
      ensures found <==> RouteExists(board, from, old(visited.cells))
      decreases |Cells(rows, cols) - visited.cells|
    {
      var r, c := from.0, from.1;

      if r < 0 || r >= rows || c < 0 || c >= cols {
        NoRouteOutside(board, from, visited.cells);
        return false;
      }

      if board[r][c] == Target {
        RouteAtTarget(board, from, visited.cells);
        return true;
      }

      if board[r][c] == Empty || board[r][c] == Blocker || (r, c) in visited.cells {
        NoRouteThroughBlocked(board, from, visited.cells);
        return false;
      }

      ghost var entry := visited.cells;
      assert (r, c) in Cells(rows, cols);
      UnvisitedShrinks(Cells(rows, cols), entry, (r, c));
      visited.cells := visited.cells + {(r, c)};

      // south, east, north, west; stop at the first that succeeds
      found := RouteFrom((r + 1, c), visited);
      if !found {
        found := RouteFrom((r, c + 1), visited);
      }
      if !found {
        found := RouteFrom((r - 1, c), visited);
      }
      if !found {
        found := RouteFrom((r, c - 1), visited);
      }

      visited.cells := visited.cells - {(r, c)};
      assert visited.cells == entry;
      RouteStep(board, from, entry);
    }

    /** False when the board has no Source; otherwise the search from the first Source with nothing visited. */
    method CanRouteSignal() returns (ok: bool)
      requires Valid()
      ensures ok == SignalRoutable(board)
    {
      var source := FindTile(Source);
      if source.0 == -1 {
        NoSourceNotRoutable(board);
        return false;
      }
      var visited := new VisitedSet();
      ok := RouteFrom(source, visited);
      RoutableFromFirstSource(board, source);
    }
  }

  /** Asking the same router twice gives the same answer: a query leaves nothing behind. */
  method RepeatedQueries(router: CircuitRouter) returns (first: bool, second: bool)
    requires router.Valid()
    ensures first == second
  {
    first := router.CanRouteSignal();
    second := router.CanRouteSignal();
  }
}
