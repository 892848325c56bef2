/**
 * Grid geometry shared by the board: cells, bounds, the eight neighbour slots
 * that `Board::findNeighbors` fills, and counting facts about the grid.
 *
 * A tile's neighbours are stored as grid indices instead of pointers. Slot k
 * of the tile at (i, j) refers to the cell (i, j) + Offset(k), where the
 * offsets run along the row above (left to right), then left and right on
 * the tile's own row, then along the row below.
 */
module Neighbours {

  datatype Option<T> = None | Some(value: T)

  /** A grid position: (row, column). */
  type Cell = (int, int)

  /** Number of neighbour slots each tile has. */
  const SlotCount: nat := 8

  predicate InBounds(rows: int, cols: int, r: int, c: int)
  {
    0 <= r < rows && 0 <= c < cols
  }

  /** The position offset that slot k refers to. */
  function Offset(k: nat): (d: (int, int))
    requires k < SlotCount
    ensures -1 <= d.0 <= 1 && -1 <= d.1 <= 1 && d != (0, 0)
  {
    [(-1, -1), (-1, 0), (-1, 1), (0, -1), (0, 1), (1, -1), (1, 0), (1, 1)][k]
  }

  /** Reference definition: slot k of tile (i, j) holds the neighbour cell
      exactly when that cell lies on a rows x cols grid. */
  function NeighbourSlot(rows: int, cols: int, i: int, j: int, k: nat): Option<Cell>
    requires k < SlotCount
  {
    var d := Offset(k);
    if InBounds(rows, cols, i + d.0, j + d.1) then Some((i + d.0, j + d.1)) else None
  }

  /** All eight slots of tile (i, j), in slot order. */
  function NeighbourSlots(rows: int, cols: int, i: int, j: int): (s: seq<Option<Cell>>)
    ensures |s| == SlotCount
    ensures forall k :: 0 <= k < SlotCount ==> s[k] == NeighbourSlot(rows, cols, i, j, k)
  {
    seq(SlotCount, k requires 0 <= k < SlotCount => NeighbourSlot(rows, cols, i, j, k))
  }

  /** Number of filled slots. */
  function Filled(s: seq<Option<Cell>>): nat
  {
    if s == [] then 0 else (if s[0].Some? then 1 else 0) + Filled(s[1..])
  }

  /** The nine position classes of findNeighbors collapse to three sizes. */
  datatype PositionClass = Corner | Edge | Interior

  function Classify(rows: int, cols: int, i: int, j: int): PositionClass
  {
    var onRowBorder := i == 0 || i == rows - 1;
    var onColBorder := j == 0 || j == cols - 1;
    if onRowBorder && onColBorder then Corner
    else if onRowBorder || onColBorder then Edge
    else Interior
  }

  function ClassSize(p: PositionClass): nat
  {
    match p
    case Corner => 3
    case Edge => 5
    case Interior => 8
  }

  /** Every filled slot refers to an in-bounds cell adjacent to (i, j) and
      different from it: no slot ever points outside the grid. */
  lemma SlotInGrid(rows: int, cols: int, i: int, j: int, k: nat)
    requires k < SlotCount
    requires NeighbourSlot(rows, cols, i, j, k).Some?
    ensures var c := NeighbourSlot(rows, cols, i, j, k).value;
      InBounds(rows, cols, c.0, c.1) && c != (i, j) &&
      -1 <= c.0 - i <= 1 && -1 <= c.1 - j <= 1
  {
  }

  /** Slot k and slot 7 - k point in opposite directions. */
  lemma OffsetOpposite(k: nat)
    requires k < SlotCount
    ensures Offset(SlotCount - 1 - k) == (-Offset(k).0, -Offset(k).1)
  {
    if k == 0 { } else if k == 1 { } else if k == 2 { } else if k == 3 { }
    else if k == 4 { } else if k == 5 { } else if k == 6 { } else { }
  }

  /** Symmetry: if slot k of tile A holds tile B, slot 7 - k of B holds A. */
  lemma SlotSymmetry(rows: int, cols: int, i: int, j: int, k: nat)
    requires InBounds(rows, cols, i, j) && k < SlotCount
    requires NeighbourSlot(rows, cols, i, j, k).Some?
    ensures var c := NeighbourSlot(rows, cols, i, j, k).value;
      NeighbourSlot(rows, cols, c.0, c.1, SlotCount - 1 - k) == Some((i, j))
  {
    OffsetOpposite(k);
  }

  /** Different slots of one tile never hold the same cell. */
  lemma SlotsDistinct(rows: int, cols: int, i: int, j: int, k: nat, m: nat)
    requires k < SlotCount && m < SlotCount && k != m
    requires NeighbourSlot(rows, cols, i, j, k).Some?
    ensures NeighbourSlot(rows, cols, i, j, k) != NeighbourSlot(rows, cols, i, j, m)
  {
    assert Offset(k) != Offset(m) by {
      var table := [(-1, -1), (-1, 0), (-1, 1), (0, -1), (0, 1), (1, -1), (1, 0), (1, 1)];
      assert forall a, b :: 0 <= a < b < |table| ==> table[a] != table[b];
    }
  }

  function Count(b: bool): nat { if b then 1 else 0 }

  /** One step of Filled on a suffix. */
  lemma FilledSuffix(s: seq<Option<Cell>>, k: nat)
    requires k < |s|
    ensures Filled(s[k..]) == Count(s[k].Some?) + Filled(s[k + 1..])
  {
    assert s[k..][1..] == s[k + 1..];
  }

  /** Filled on eight slots, slot by slot. */
  lemma FilledEight(s: seq<Option<Cell>>)
    requires |s| == SlotCount
    ensures Filled(s) == Count(s[0].Some?) + Count(s[1].Some?) + Count(s[2].Some?) +
      Count(s[3].Some?) + Count(s[4].Some?) + Count(s[5].Some?) + Count(s[6].Some?) + Count(s[7].Some?)
  {
    assert s[0..] == s;
    FilledSuffix(s, 0);
    FilledSuffix(s, 1);
    FilledSuffix(s, 2);
    FilledSuffix(s, 3);
    FilledSuffix(s, 4);
    FilledSuffix(s, 5);
    FilledSuffix(s, 6);
    FilledSuffix(s, 7);
    assert s[8..] == [];
  }

  /** Filled slots of a tile, written out slot by slot. */
  lemma FilledSlots(rows: int, cols: int, i: int, j: int)
    ensures Filled(NeighbourSlots(rows, cols, i, j)) ==
      Count(InBounds(rows, cols, i - 1, j - 1)) + Count(InBounds(rows, cols, i - 1, j)) +
      Count(InBounds(rows, cols, i - 1, j + 1)) + Count(InBounds(rows, cols, i, j - 1)) +
      Count(InBounds(rows, cols, i, j + 1)) + Count(InBounds(rows, cols, i + 1, j - 1)) +
      Count(InBounds(rows, cols, i + 1, j)) + Count(InBounds(rows, cols, i + 1, j + 1))
  {
    FilledEight(NeighbourSlots(rows, cols, i, j));
  }

  /** On a grid of at least 2 x 2, corner tiles have 3 neighbours, other
      border tiles 5 and interior tiles 8. */
  lemma NeighbourCountByClass(rows: int, cols: int, i: int, j: int)
    requires rows >= 2 && cols >= 2 && InBounds(rows, cols, i, j)
    ensures Filled(NeighbourSlots(rows, cols, i, j)) == ClassSize(Classify(rows, cols, i, j))
  {
    FilledSlots(rows, cols, i, j);
  }

  /** The set of all cells of a rows x cols grid. */
  function AllCells(rows: nat, cols: nat): set<Cell>
  {
    set i, j | 0 <= i < rows && 0 <= j < cols :: (i, j)
  }

  function RowCells(r: int, cols: nat): set<Cell>
  {
    set j | 0 <= j < cols :: (r, j)
  }

  lemma {:induction false} RowCellsCount(r: int, cols: nat)
    ensures |RowCells(r, cols)| == cols
  {
    if cols > 0 {
      RowCellsCount(r, cols - 1);
      assert RowCells(r, cols) == RowCells(r, cols - 1) + {(r, cols - 1)};
    } else {
      assert RowCells(r, cols) == {};
    }
  }

  /** The grid splits into the rows above the last one and the last row. */
  lemma AllCellsSplit(rows: nat, cols: nat)
    requires rows > 0
    ensures AllCells(rows, cols) == AllCells(rows - 1, cols) + RowCells(rows - 1, cols)
    ensures AllCells(rows - 1, cols) !! RowCells(rows - 1, cols)
  {
    forall c | c in AllCells(rows, cols)
      ensures c in AllCells(rows - 1, cols) + RowCells(rows - 1, cols)
    {
      if c.0 < rows - 1 {
        assert c in AllCells(rows - 1, cols);
      } else {
        assert c in RowCells(rows - 1, cols);
      }
    }
  }

  /** A rows x cols grid has exactly rows * cols cells. */
  lemma {:induction false} AllCellsCount(rows: nat, cols: nat)
    ensures |AllCells(rows, cols)| == rows * cols
  {
    if rows > 0 {
      AllCellsCount(rows - 1, cols);
      RowCellsCount(rows - 1, cols);
      AllCellsSplit(rows, cols);
      assert rows * cols == (rows - 1) * cols + cols;
    } else {
      assert AllCells(rows, cols) == {};
    }
  }

  /** A quota of distinct in-grid cells can only be met when it does not
      exceed the number of cells. */
  lemma QuotaNeedsRoom(rows: nat, cols: nat, chosen: set<Cell>)
    requires chosen <= AllCells(rows, cols)
    ensures |chosen| <= rows * cols
  {
    AllCellsCount(rows, cols);
    SubsetCardinality(chosen, AllCells(rows, cols));
  }

  /** Once every cell is chosen, every in-grid draw lands on a chosen cell. */
  lemma FullGridRejectsEveryDraw(rows: nat, cols: nat, chosen: set<Cell>, r: int, c: int)
    requires chosen <= AllCells(rows, cols) && |chosen| == rows * cols
    requires InBounds(rows, cols, r, c)
    ensures (r, c) in chosen
  {
    AllCellsCount(rows, cols);
    var all := AllCells(rows, cols);
    assert (r, c) in all;
    if (r, c) !in chosen {
      SubsetCardinality(chosen, all - {(r, c)});
      assert false;
    }
  }

  lemma SubsetCardinality<T>(a: set<T>, b: set<T>)
    requires a <= b
    ensures |a| <= |b|
  {
    assert b == a + (b - a);
  }
}
