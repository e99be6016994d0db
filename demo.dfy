// Concrete boards: the example board the program builds, the same board
// with its row-0 connection cut, and two one-line boards.

module Demo {
  import opened Tiles
  import opened Routes
  import opened Router

  /** The example board: Source at (0,1), Target at (0,3). */
  function ExampleBoard(): Grid
  {
    [ [Empty,   Source,   Wire,    Target],
      [Blocker, Blocker,  Wire,    Empty ],
      [Empty,   Splitter, Wire,    Empty ],
      [Empty,   Wire,     Blocker, Empty ] ]
  }

  /** The example board with the Wire at (0,2) replaced by a Blocker. */
  function CutBoard(): Grid
  {
    ExampleBoard()[0 := ExampleBoard()[0][2 := Blocker]]
  }

  /** The example board routes: Source (0,1), Wire (0,2), Target (0,3). */
  lemma ExampleRoutable()
    ensures SignalRoutable(ExampleBoard())
  {
    var board := ExampleBoard();
    assert IsFirstTile(board, Source, (0, 1));
    assert IsSimpleRoute(board, {}, [(0, 1), (0, 2), (0, 3)]);
  }

  /** With (0,2) blocked, the first Source is walled in and nothing routes. */
  lemma CutNotRoutable()
    ensures !SignalRoutable(CutBoard())
  {
    var board := CutBoard();
    var source := (0, 1);
    assert IsFirstTile(board, Source, source);
    var inner: set<Coord> := {source};
    NoRouteThroughBlocked(board, (1, 1), inner);
    NoRouteThroughBlocked(board, (0, 2), inner);
    NoRouteOutside(board, (-1, 1), inner);
    NoRouteThroughBlocked(board, (0, 0), inner);
    RouteStep(board, source, {});
    RoutableFromFirstSource(board, source);
  }

  /** A lone Source has nowhere to go. */
  lemma LoneSourceNotRoutable()
    ensures !SignalRoutable([[Source]])
  {
    var board := [[Source]];
    var source := (0, 0);
    assert IsFirstTile(board, Source, source);
    var inner: set<Coord> := {source};
    NoRouteOutside(board, (1, 0), inner);
    NoRouteOutside(board, (0, 1), inner);
    NoRouteOutside(board, (-1, 0), inner);
    NoRouteOutside(board, (0, -1), inner);
    RouteStep(board, source, {});
    RoutableFromFirstSource(board, source);
  }

  /** The one-row board Source, Target routes: an instance of SourceBesideTargetRoutable. */
  lemma NeighboursRoutable()
    ensures SignalRoutable([[Source, Target]])
  {
    var board := [[Source, Target]];
    assert IsFirstTile(board, Source, (0, 0));
    SourceBesideTargetRoutable(board, (0, 0), (0, 1));
  }

  /** Builds the router over the example board and asks it once, as the program's driver does. */
  method RunExample() returns (ok: bool)
    ensures ok
  {
    var router := new CircuitRouter(ExampleBoard());
    ok := router.CanRouteSignal();
    ExampleRoutable();
  }
}
