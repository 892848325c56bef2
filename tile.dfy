/**
 * One cell of the Minesweeper board (tile.h). The board writes `mined` and
 * the neighbour slots of a tile in place after creating it.
 */
module Tiles {
  import opened Neighbours

  class Tile {
    var revealed: bool
    var flagged: bool
    var mined: bool

    /** Neighbour slots: slot k holds the grid index of the neighbour at
        Offset(k), or None when that neighbour does not exist. There are
        always eight slots. */
    var adjacentTiles: seq<Option<Cell>>

    /** A new tile is hidden, unflagged and unmined, and has no neighbours. */
    constructor ()
      ensures !revealed && !flagged && !mined
      ensures adjacentTiles == EmptySlots()
    {
      revealed, flagged, mined := false, false, false;
      adjacentTiles := EmptySlots();
    }
  }

  /** The slots of a new tile: eight empty slots. */
  function EmptySlots(): (s: seq<Option<Cell>>)
    ensures |s| == SlotCount && forall k :: 0 <= k < SlotCount ==> s[k] == None
  {
    seq(SlotCount, _ => None)
  }
}
