# Circuit router, modelled and verified in Dafny

The program decides whether a signal can get from a Source tile to any
Target tile on a rectangular board of tiles. A `CircuitRouter` owns the board.
Its query `canRouteSignal` finds the first Source in row-major order. It
returns false when there is none. Otherwise it runs `routeFrom`, a recursive
depth-first search with backtracking over a visited set of coordinates. The
search enters Wire, Splitter and Source cells. It succeeds on a Target. It
stops at Empty and Blocker cells, at cells already on the current path, and
at the edge of the board.

Files:

- `tiles.dfy` (module `Tiles`): the six tile kinds, and which of them a
  signal can pass through (`Traversable`) and which stop it (`Blocks`),
  the tile tests of src/main.cpp:61-67.
- `routes.dfy` (module `Routes`): the specification. `IsSimpleRoute` says
  what a route is. It is a sequence of 4-adjacent, pairwise distinct cells
  ending on an in-bounds Target. Every cell before the Target is in bounds,
  traversable and outside the visited set. `RouteExists(board, p, V)` holds
  when such a route starts at `p`. `IsRoute` is the same notion stated step
  by step, and it is proved equivalent. The module also holds one lemma per
  branch of the search, the termination measure, and the row-major "first
  tile" predicate.
- `router.dfy` (module `Router`): the `CircuitRouter` class. The board and
  its dimensions are `const` fields, because nothing writes them after
  construction. The search's `std::set<Coord>` is a `VisitedSet` object that
  `RouteFrom` changes in place. It inserts the cell before the recursive
  calls and erases it after them. `FindTile` keeps the source's sentinel
  `(-1,-1)` (`NotFound`).
- `demo.dfy` (module `Demo`): the example board the program's driver builds,
  the same board with cell (0,2) blocked, and two one-line boards. The
  general fact that a first Source beside a Target routes is
  `Routes.SourceBesideTargetRoutable`.

The main results:

- `RouteFrom` returns true exactly when a simple route from the given cell
  avoids the visited set on entry. The visited set is the same on every
  return. Termination is proved, with the number of unvisited in-bounds cells
  as the `decreases` measure, and `MeasureBounded` (through `CellCount`) shows it is
  never more than rows × cols.
- `CanRouteSignal` returns exactly `SignalRoutable(board)`. That is false when
  there is no Source. Otherwise it is the search from the first Source with
  nothing visited.

## Model

| member | source | states |
|---|---|---|
| `Router.VisitedSet.constructor` | src/main.cpp:42 | a query's visited set starts empty |
| `Router.CircuitRouter.constructor` | src/main.cpp:32-36 | the router keeps the board it is given; rows is the number of rows and cols is the length of the first row (the board must be non-empty and rectangular) |
| `Router.CircuitRouter.IsValid` | src/main.cpp:95-97 | the check against the stored row and column counts holds exactly when the coordinate indexes a cell of the board |
| `Router.CircuitRouter.FindTile` | src/main.cpp:86-93 | returns (-1,-1) exactly when no cell holds the kind; otherwise it returns an in-bounds cell holding the kind, and no cell before it in row-major order holds that kind |
| `Router.CircuitRouter.RouteFrom` | src/main.cpp:51-83 | true exactly when a simple 4-adjacent route leads from the coordinate to a Target through in-bounds Wire/Splitter/Source cells outside the visited set on entry; the visited set is equal to its entry value on every return, and the board is never written |
| `Router.CircuitRouter.CanRouteSignal` | src/main.cpp:38-44 | the result is true exactly when a route exists from the row-major first Source with an empty visited set |
| `Router.RepeatedQueries` | src/main.cpp:38-44 | two queries on the same router give the same answer |
| `Routes.RouteIsSimple` | src/main.cpp:51-83 | the step-by-step route definition, where each cell joins the avoided set before the next is taken, is equivalent to the cell-by-cell one: in bounds, traversable, unvisited, adjacent and pairwise distinct |
| `Routes.NoRouteOutside` | src/main.cpp:57-59 | no route starts at an out-of-bounds coordinate |
| `Routes.RouteAtTarget` | src/main.cpp:61-63 | an in-bounds Target has a route whatever the visited set holds |
| `Routes.NoRouteThroughBlocked` | src/main.cpp:65-67 | no route starts at an in-bounds non-Target cell that is Empty, is a Blocker, or is already visited |
| `Routes.RouteLeavesByNeighbour` | src/main.cpp:70-76 | a route from an in-bounds, traversable, unvisited cell continues from some 4-adjacent cell, with the first cell added to the visited set |
| `Routes.RouteThroughNeighbour` | src/main.cpp:70-76 | a route from a 4-adjacent cell that avoids the visited set plus this cell extends to a route from this cell |
| `Routes.RouteStep` | src/main.cpp:69-81 | from an in-bounds, traversable, unvisited cell, a route exists exactly when one exists from its south, east, north or west neighbour with the cell added to the visited set |
| `Routes.UnvisitedShrinks` | src/main.cpp:65-76 | marking an unvisited in-bounds cell strictly lowers the number of unvisited in-bounds cells; this is the measure that decreases at each recursive call |
| `Routes.CellCount` | src/main.cpp:33-35 | a board of rows × cols has exactly rows*cols in-bounds cells, so the search measure starts at no more than rows*cols |
| `Routes.MeasureBounded` | src/main.cpp:65-76 | whatever the visited set holds, the number of unvisited in-bounds cells, which bounds the depth of the recursion, is at most rows*cols |
| `Routes.SourceBesideTargetRoutable` | src/main.cpp:38-44 | on every board whose row-major first Source is 4-adjacent to an in-bounds Target, the query's answer is true |
| `Routes.FirstTileUnique` | src/main.cpp:86-93 | at most one cell is the row-major first cell of a given kind |
| `Routes.NoSourceNotRoutable` | src/main.cpp:39-40 | a board without a Source never routes a signal |
| `Routes.RoutableFromFirstSource` | src/main.cpp:39-43 | when a first Source exists, the query's answer is whether a route exists from it with an empty visited set |
| `Demo.ExampleRoutable` | src/main.cpp:101-106 | the example board routes, by Source (0,1), Wire (0,2), Target (0,3) |
| `Demo.CutNotRoutable` | src/main.cpp:101-106 | the example board with (0,2) turned into a Blocker does not route |
| `Demo.LoneSourceNotRoutable` | src/main.cpp:38-44 | a board holding one Source and nothing else does not route |
| `Demo.NeighboursRoutable` | src/main.cpp:52-83 | the one-row board Source, Target routes |
| `Demo.RunExample` | src/main.cpp:115-117 | constructing the router over the example board and querying it gives true |

## Left out

- Printing: `operator<<` for tiles (src/main.cpp:15-25) and the output of the driver `main` (src/main.cpp:108-117) are I/O. Only the driver's board and its query are modelled, in `Demo`.
- Empty and jagged boards: the constructor reads the first row without a check, and row lengths are never compared. The model requires a non-empty rectangular board instead of inventing behaviour for those inputs.
- Machine integers: coordinates and dimensions are mathematical integers, so the model assumes boards with fewer than 2^31 rows and fewer than 2^31 columns. The constructor narrows `m_board.size()` and `m_board[0].size()` from `size_t` to `int` (src/main.cpp:34-35, fields at 48-49), and that narrowing is not modelled: on a larger board the stored dimension can wrap to a negative value, the scan in `findTile` then finds nothing, and the query answers false where the model answers by the board's contents. Below that size, coordinates stay within the board's bounds plus or minus one and no overflow occurs.
- Running time: the search can take exponential time on large boards. Only its result, its effect on the visited set and its termination are modelled.
- The search's recursion depth is bounded by the termination measure, not by an explicit depth counter. Stack exhaustion on very large boards is not modelled.
