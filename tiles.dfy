// The tile kinds a circuit board is made of, and the traversal rules the
// router applies to them.

module Tiles {

  /** The six tile kinds of a board cell. */
  datatype TileType = Empty | Wire | Splitter | Blocker | Source | Target

  /** A signal may enter a tile of these kinds and carry on from it. */
  predicate Traversable(t: TileType)
  {
    t.Wire? || t.Splitter? || t.Source?
  }

  /** Obstacles: the search gives up on entering one of these. */
  predicate Blocks(t: TileType)
  {
    t.Empty? || t.Blocker?
  }
}
