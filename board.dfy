/**
 * The Minesweeper board (board.h): a rows x cols grid of tiles, random mine
 * placement, neighbour wiring and the choice of number indicators.
 *
 * The random generator is replaced by a finite sequence of draws, each an
 * in-range (row, column) pair. The placement loop consumes draws until the
 * quota is met or the draws run out; the second outcome stands for "the
 * source would still be drawing", so the model states partial correctness.
 * Sprites are reduced to the one choice that depends on the game state: the
 * number indicator of each tile.
 */
module Boards {
  import opened Neighbours
  import opened Tiles

  /** The number indicator selected for a count of adjacent mines:
      Some(k) stands for the texture "number_k", None for a sprite left
      without a texture. */
  function NumberIndicator(count: int): (r: Option<nat>)
    ensures r.Some? <==> 1 <= count <= 8
    ensures r.Some? ==> r.value == count
  {
    if count == 1 then Some(1)
    else if count == 2 then Some(2)
    else if count == 3 then Some(3)
    else if count == 4 then Some(4)
    else if count == 5 then Some(5)
    else if count == 6 then Some(6)
    else if count == 7 then Some(7)
    else if count == 8 then Some(8)
    else None
  }

  /** Number of filled slots whose cell is mined. This is the meaning given to
      Tile::countAdjacentMines, whose definition is not part of this model. */
  function MinedAmong(slots: seq<Option<Cell>>, mined: set<Cell>): (n: nat)
    ensures n <= Filled(slots)
  {
    if slots == [] then 0
    else (if slots[0].Some? && slots[0].value in mined then 1 else 0) + MinedAmong(slots[1..], mined)
  }

  /** The set of cells a sequence of draws lands on. */
  function Drawn(draws: seq<Cell>): set<Cell>
  {
    set d | d in draws
  }

  lemma DrawnAppend(draws: seq<Cell>, n: nat)
    requires n < |draws|
    ensures Drawn(draws[..n + 1]) == Drawn(draws[..n]) + {draws[n]}
  {
    assert draws[..n + 1] == draws[..n] + [draws[n]];
  }

  /** Where the placement loop stops: the cells it mined, the number of
      draws it consumed and the mines still to place. */
  datatype Placement = Placement(chosen: set<Cell>, used: nat, left: int)

  /** The placement loop from draw `used` on, with the cells `chosen` already
      mined and `left` mines still to place: a draw on a mined cell is
      skipped, any other draw mines its cell. */
  function PlaceFrom(draws: seq<Cell>, used: nat, chosen: set<Cell>, left: int): Placement
    requires used <= |draws|
    decreases |draws| - used
  {
    if left <= 0 || used == |draws| then Placement(chosen, used, left)
    else if draws[used] in chosen then PlaceFrom(draws, used + 1, chosen, left)
    else PlaceFrom(draws, used + 1, chosen + {draws[used]}, left - 1)
  }

  /** The whole placement loop on an unmined board. */
  function Place(mines: int, draws: seq<Cell>): Placement
  {
    PlaceFrom(draws, 0, {}, mines)
  }

  /** First half of what the loop keeps: the mined cells are exactly the
      cells drawn so far. */
  lemma {:induction false} PlaceFromDrawn(draws: seq<Cell>, used: nat, chosen: set<Cell>, left: int)
    requires used <= |draws| && chosen == Drawn(draws[..used])
    ensures var p := PlaceFrom(draws, used, chosen, left);
      used <= p.used <= |draws| && p.chosen == Drawn(draws[..p.used])
    decreases |draws| - used
  {
    if left > 0 && used < |draws| {
      DrawnAppend(draws, used);
      var d := draws[used];
      var next := if d in chosen then chosen else chosen + {d};
      assert next == Drawn(draws[..used + 1]);
      assert PlaceFrom(draws, used, chosen, left) == PlaceFrom(draws, used + 1, next, if d in chosen then left else left - 1);
      PlaceFromDrawn(draws, used + 1, next, if d in chosen then left else left - 1);
    }
  }

  /** Second half: mined cells plus mines still to place make up the quota,
      and the loop stops only with the quota met or the draws used up. */
  lemma {:induction false} PlaceFromCount(draws: seq<Cell>, used: nat, chosen: set<Cell>, left: int)
    requires used <= |draws|
    ensures var p := PlaceFrom(draws, used, chosen, left);
      && |p.chosen| + p.left == |chosen| + left
      && (left <= 0 ==> p.left == left)
      && (left > 0 ==> 0 <= p.left && (p.left == 0 || p.used == |draws|))
    decreases |draws| - used
  {
    if left > 0 && used < |draws| {
      var d := draws[used];
      if d in chosen {
        PlaceFromCount(draws, used + 1, chosen, left);
      } else {
        assert |chosen + {d}| == |chosen| + 1;
        PlaceFromCount(draws, used + 1, chosen + {d}, left - 1);
      }
    }
  }

  /** The placement loop mines only drawn cells, never more than the quota,
      exactly the quota when it stops before the draws run out, and nothing
      for a quota of zero or less. */
  lemma PlaceFacts(mines: int, draws: seq<Cell>)
    ensures var p := Place(mines, draws);
      && p.chosen <= Drawn(draws)
      && (mines <= 0 ==> p.chosen == {})
      && (mines > 0 ==> |p.chosen| <= mines)
      && (p.used < |draws| ==> |p.chosen| == mines || mines <= 0)
  {
    assert draws[..0] == [];
    PlaceFromDrawn(draws, 0, {}, mines);
    PlaceFromCount(draws, 0, {}, mines);
    var p := Place(mines, draws);
    assert draws[..p.used] <= draws;
  }

  /** The quota is met whenever the draws hit at least `mines` distinct cells. */
  lemma PlaceMeetsQuota(mines: int, draws: seq<Cell>)
    requires 0 <= mines <= |Drawn(draws)|
    ensures |Place(mines, draws).chosen| == mines
  {
    assert draws[..0] == [];
    PlaceFromDrawn(draws, 0, {}, mines);
    PlaceFromCount(draws, 0, {}, mines);
    assert draws[..|draws|] == draws;
  }

  /** A met quota of in-grid draws never exceeds the number of cells. */
  lemma PlaceWithinGrid(rows: nat, cols: nat, mines: int, draws: seq<Cell>)
    requires forall d :: d in draws ==> InBounds(rows, cols, d.0, d.1)
    ensures Place(mines, draws).chosen <= AllCells(rows, cols)
    ensures |Place(mines, draws).chosen| <= rows * cols
  {
    PlaceFacts(mines, draws);
    QuotaNeedsRoom(rows, cols, Place(mines, draws).chosen);
  }

  /** With more mines than cells the quota is never met: the source's loop
      would draw forever. */
  lemma OverfullNeverMeetsQuota(rows: nat, cols: nat, mines: int, draws: seq<Cell>)
    requires forall d :: d in draws ==> InBounds(rows, cols, d.0, d.1)
    requires mines > rows * cols
    ensures |Place(mines, draws).chosen| < mines
  {
    PlaceWithinGrid(rows, cols, mines, draws);
  }

  /** A tile as the constructor creates it. */
  ghost predicate DefaultTile(t: Tile)
    reads t
  {
    !t.revealed && !t.flagged && !t.mined && t.adjacentTiles == EmptySlots()
  }

  /** A slot that is empty or refers to a cell of the grid. */
  predicate SlotOnGrid(rows: int, cols: int, s: Option<Cell>)
  {
    s.Some? ==> InBounds(rows, cols, s.value.0, s.value.1)
  }

  class Board {
    var tiles2D: seq<seq<Tile>>
    /** Number indicator chosen for each tile by SetNumberSprites. */
    var numberSprites2D: array2<Option<nat>>
    var rows: int
    var cols: int
    var mines: int
    var nonMinesRevealed: int
    var minesFlagged: int

    /** The tiles of the grid. */
    ghost var tileSet: set<Tile>
    /** The grid position of every tile; it shows that no two positions
        share a tile. */
    ghost var position: map<Tile, Cell>

    ghost predicate Valid()
      reads this`rows, this`cols, this`tiles2D, this`numberSprites2D, this`tileSet, this`position
    {
      && |tiles2D| == rows
      && (forall i :: 0 <= i < rows ==> |tiles2D[i]| == cols)
      && numberSprites2D.Length0 == rows && numberSprites2D.Length1 == cols
      && (forall i, j :: 0 <= i < rows && 0 <= j < cols ==>
            && tiles2D[i][j] in tileSet
            && tiles2D[i][j] in position && position[tiles2D[i][j]] == (i, j))
    }

    /** The cells holding a mine. */
    ghost function MinedSet(): set<Cell>
      reads this`rows, this`cols, this`tiles2D, this`numberSprites2D, this`tileSet, this`position, tileSet`mined
      requires Valid()
    {
      set i, j | 0 <= i < rows && 0 <= j < cols && tiles2D[i][j].mined :: (i, j)
    }

    lemma MinedSetMember(r: int, c: int)
      requires Valid()
      ensures (r, c) in MinedSet() <==> InBounds(rows, cols, r, c) && tiles2D[r][c].mined
    {
    }

    /** No tile is revealed or flagged. */
    ghost predicate AllHidden()
      reads this`rows, this`cols, this`tiles2D, this`numberSprites2D, this`tileSet, this`position, tileSet`revealed, tileSet`flagged
      requires Valid()
    {
      forall i, j :: 0 <= i < rows && 0 <= j < cols ==> !tiles2D[i][j].revealed && !tiles2D[i][j].flagged
    }

    /** Every tile still has the empty slots of a new tile. */
    ghost predicate SlotsEmpty()
      reads this`rows, this`cols, this`tiles2D, this`numberSprites2D, this`tileSet, this`position, tileSet`adjacentTiles
      requires Valid()
    {
      forall i, j :: 0 <= i < rows && 0 <= j < cols ==> tiles2D[i][j].adjacentTiles == EmptySlots()
    }

    /** Every tile's slots are the reference slots of its position. */
    ghost predicate SlotsWired()
      reads this`rows, this`cols, this`tiles2D, this`numberSprites2D, this`tileSet, this`position, tileSet`adjacentTiles
      requires Valid()
    {
      forall i, j :: 0 <= i < rows && 0 <= j < cols ==>
        tiles2D[i][j].adjacentTiles == NeighbourSlots(rows, cols, i, j)
    }

    /** Every tile has its eight slots. */
    ghost predicate SlotsSized()
      reads this`rows, this`cols, this`tiles2D, this`numberSprites2D, this`tileSet, this`position, tileSet`adjacentTiles
      requires Valid()
    {
      forall i, j :: 0 <= i < rows && 0 <= j < cols ==> |tiles2D[i][j].adjacentTiles| == SlotCount
    }

    /** Every slot of every tile is empty or refers to a cell of the grid. */
    ghost predicate SlotsOnGrid()
      reads this`rows, this`cols, this`tiles2D, this`numberSprites2D, this`tileSet, this`position, tileSet`adjacentTiles
      requires Valid()
    {
      forall i, j, k :: 0 <= i < rows && 0 <= j < cols && 0 <= k < |tiles2D[i][j].adjacentTiles| ==>
        SlotOnGrid(rows, cols, tiles2D[i][j].adjacentTiles[k])
    }

    /** Builds the grid of default tiles, places the mines, wires the
        neighbours and selects the number indicators. */
    constructor (rows: int, cols: int, mines: int, draws: seq<Cell>)
      requires rows >= 2 && cols >= 2
      requires forall d :: d in draws ==> InBounds(rows, cols, d.0, d.1)
      ensures Valid()
      ensures this.rows == rows && this.cols == cols && this.mines == mines
      ensures nonMinesRevealed == 0 && minesFlagged == 0
      ensures AllHidden()
      ensures MinedSet() == Place(mines, draws).chosen
      ensures SlotsWired()
      ensures forall i, j :: 0 <= i < rows && 0 <= j < cols ==>
        numberSprites2D[i, j] == NumberIndicator(MinedAmong(NeighbourSlots(rows, cols, i, j), MinedSet()))
    {
      this.rows, this.cols, this.mines := rows, cols, mines;
      nonMinesRevealed, minesFlagged := 0, 0;
      var grid;
      ghost var tiles, pos;
      grid, tiles, pos := NewTileGrid(rows, cols);
      tiles2D, tileSet, position := grid, tiles, pos;
      numberSprites2D := new Option<nat>[rows, cols]((_, _) => None);
      new;
      forall c | c in MinedSet() ensures false {
        MinedSetMember(c.0, c.1);
      }
      Populate(draws);
    }

    /** The constructor after the grid is built: mine placement, neighbour
        wiring and number indicators, in that order. */
    method Populate(draws: seq<Cell>)
      requires Valid() && AllHidden() && SlotsEmpty() && MinedSet() == {}
      requires rows >= 2 && cols >= 2
      requires forall d :: d in draws ==> InBounds(rows, cols, d.0, d.1)
      modifies tileSet`mined, tileSet`adjacentTiles, numberSprites2D
      ensures Valid() && AllHidden()
      ensures MinedSet() == Place(mines, draws).chosen
      ensures SlotsWired()
      ensures forall i, j :: 0 <= i < rows && 0 <= j < cols ==>
        numberSprites2D[i, j] == NumberIndicator(MinedAmong(NeighbourSlots(rows, cols, i, j), MinedSet()))
    {
      PlaceMines(draws);
      assert AllHidden() && SlotsEmpty();
      ghost var mined := MinedSet();
      FindNeighbors(rows, cols);
      assert AllHidden() && MinedSet() == mined;
      WiredOnGrid();
      SetNumberSprites();
      assert AllHidden() && SlotsWired() && MinedSet() == mined;
      forall i, j | 0 <= i < rows && 0 <= j < cols
        ensures numberSprites2D[i, j] == NumberIndicator(MinedAmong(NeighbourSlots(rows, cols, i, j), mined))
      {
        assert tiles2D[i][j].adjacentTiles == NeighbourSlots(rows, cols, i, j);
      }
    }

    /** Wired slots only refer to cells of the grid. */
    lemma WiredOnGrid()
      requires Valid() && SlotsWired()
      ensures SlotsOnGrid()
    {
      forall i, j, k | 0 <= i < rows && 0 <= j < cols && 0 <= k < |tiles2D[i][j].adjacentTiles|
        ensures SlotOnGrid(rows, cols, tiles2D[i][j].adjacentTiles[k])
      {
        if NeighbourSlot(rows, cols, i, j, k).Some? {
          SlotInGrid(rows, cols, i, j, k);
        }
      }
    }

    /** One iteration of the placement loop: a draw on an unmined tile
        places a mine there; a draw on a mined tile changes nothing. */
    method TryPlaceMine(i: int, j: int) returns (placed: bool)
      requires Valid() && InBounds(rows, cols, i, j)
      modifies tileSet`mined
      ensures placed == !old(tiles2D[i][j].mined)
      ensures placed == ((i, j) !in old(MinedSet()))
      ensures MinedSet() == old(MinedSet()) + {(i, j)}
    {
      MinedSetMember(i, j);
      placed := !tiles2D[i][j].mined;
      if placed {
        tiles2D[i][j].mined := true;
      }
      forall c | c in MinedSet() ensures c in old(MinedSet()) + {(i, j)} {
        MinedSetMember(c.0, c.1);
      }
    }

    /** The constructor's placement loop: draws are consumed in order until
        the quota is met or the draws run out. */
    method PlaceMines(draws: seq<Cell>)
      requires Valid() && MinedSet() == {}
      requires forall d :: d in draws ==> InBounds(rows, cols, d.0, d.1)
      modifies tileSet`mined
      ensures MinedSet() == Place(mines, draws).chosen
    {
      var minesToPlace := mines;
      var used := 0;
      while minesToPlace > 0 && used < |draws|
        invariant used <= |draws|
        invariant PlaceFrom(draws, used, MinedSet(), minesToPlace) == Place(mines, draws)
      {
        var d := draws[used];
        ghost var before := MinedSet();
        assert PlaceFrom(draws, used, before, minesToPlace) ==
          if d in before then PlaceFrom(draws, used + 1, before, minesToPlace)
          else PlaceFrom(draws, used + 1, before + {d}, minesToPlace - 1);
        assert (d.0, d.1) == d;
        var placed := TryPlaceMine(d.0, d.1);
        if placed {
          minesToPlace := minesToPlace - 1;
        } else {
          assert MinedSet() == before;
        }
        used := used + 1;
      }
    }

    /** Links every tile to its in-bounds neighbours, row by row. */
    method FindNeighbors(rows: int, cols: int)
      requires Valid() && SlotsSized() && rows == this.rows && cols == this.cols
      requires rows >= 2 && cols >= 2
      modifies tileSet`adjacentTiles
      ensures forall i, j :: 0 <= i < rows && 0 <= j < cols ==>
        tiles2D[i][j].adjacentTiles == Wire(old(tiles2D[i][j].adjacentTiles), rows, cols, i, j)
      ensures old(SlotsEmpty()) ==> SlotsWired()
    {
      ghost var wasEmpty := SlotsEmpty();
      var i := 0;
      while i < rows
        invariant 0 <= i <= rows
        invariant forall a, b :: 0 <= a < i && 0 <= b < cols ==>
          tiles2D[a][b].adjacentTiles == Wire(old(tiles2D[a][b].adjacentTiles), rows, cols, a, b)
        invariant forall a, b :: i <= a < rows && 0 <= b < cols ==>
          tiles2D[a][b].adjacentTiles == old(tiles2D[a][b].adjacentTiles)
      {
        forall a, b | 0 <= a < rows && 0 <= b < cols && a != i
          ensures tiles2D[a][b] !in tiles2D[i]
        {
          assert position[tiles2D[a][b]] == (a, b);
        }
        RowTilesDistinct(i);
        label BeforeRow:
        WireRow(i);
        forall a, b | 0 <= a < rows && 0 <= b < cols && a != i
          ensures tiles2D[a][b].adjacentTiles == old@BeforeRow(tiles2D[a][b].adjacentTiles)
        {
          assert tiles2D[a][b] in tileSet;
        }
        i := i + 1;
      }
      if wasEmpty {
        forall a, b | 0 <= a < rows && 0 <= b < cols
          ensures tiles2D[a][b].adjacentTiles == NeighbourSlots(rows, cols, a, b)
        {
          assert old(tiles2D[a][b].adjacentTiles) == EmptySlots();
          WireEmpty(rows, cols, a, b);
        }
      }
    }

    /** Symmetry on the built board: when slot k of tile (i, j) refers to a
        cell, that cell is on the grid and its slot 7 - k refers back. */
    lemma WiredSymmetry()
      requires Valid() && SlotsWired()
      ensures forall i, j, k ::
        (0 <= i < rows && 0 <= j < cols && 0 <= k < SlotCount && tiles2D[i][j].adjacentTiles[k].Some?) ==>
          && InBounds(rows, cols, tiles2D[i][j].adjacentTiles[k].value.0, tiles2D[i][j].adjacentTiles[k].value.1)
          && tiles2D[tiles2D[i][j].adjacentTiles[k].value.0][tiles2D[i][j].adjacentTiles[k].value.1]
               .adjacentTiles[SlotCount - 1 - k] == Some((i, j))
    {
      forall i, j, k | 0 <= i < rows && 0 <= j < cols && 0 <= k < SlotCount &&
        tiles2D[i][j].adjacentTiles[k].Some?
        ensures && InBounds(rows, cols, tiles2D[i][j].adjacentTiles[k].value.0, tiles2D[i][j].adjacentTiles[k].value.1)
          && tiles2D[tiles2D[i][j].adjacentTiles[k].value.0][tiles2D[i][j].adjacentTiles[k].value.1]
               .adjacentTiles[SlotCount - 1 - k] == Some((i, j))
      {
        SlotInGrid(rows, cols, i, j, k);
        SlotSymmetry(rows, cols, i, j, k);
      }
    }

    /** Neighbour counts on the built board: corner tiles have 3 filled
        slots, other border tiles 5 and interior tiles 8. */
    lemma WiredNeighbourCounts()
      requires Valid() && SlotsWired() && rows >= 2 && cols >= 2
      ensures forall i, j :: 0 <= i < rows && 0 <= j < cols ==>
        Filled(tiles2D[i][j].adjacentTiles) == ClassSize(Classify(rows, cols, i, j))
    {
      forall i, j | 0 <= i < rows && 0 <= j < cols
        ensures Filled(tiles2D[i][j].adjacentTiles) == ClassSize(Classify(rows, cols, i, j))
      {
        NeighbourCountByClass(rows, cols, i, j);
      }
    }

    /** The tiles of one row are pairwise different objects. */
    lemma RowTilesDistinct(i: int)
      requires Valid() && 0 <= i < rows
      ensures forall b, b' :: 0 <= b < b' < cols ==> tiles2D[i][b] != tiles2D[i][b']
    {
      forall b, b' | 0 <= b < b' < cols
        ensures tiles2D[i][b] != tiles2D[i][b']
      {
        assert position[tiles2D[i][b]] == (i, b);
      }
    }

    /** The inner loop of findNeighbors: wires every tile of row i and no
        other tile. */
    method WireRow(i: int)
      requires 0 <= i < rows && rows >= 2 && cols >= 2 && i < |tiles2D| && |tiles2D[i]| == cols
      requires forall b :: 0 <= b < cols ==>
        tiles2D[i][b] in tileSet && |tiles2D[i][b].adjacentTiles| == SlotCount
      requires forall b, b' :: 0 <= b < b' < cols ==> tiles2D[i][b] != tiles2D[i][b']
      modifies tileSet`adjacentTiles
      ensures forall b :: 0 <= b < cols ==>
        tiles2D[i][b].adjacentTiles == Wire(old(tiles2D[i][b].adjacentTiles), rows, cols, i, b)
      ensures forall t :: t in tileSet && t !in tiles2D[i] ==> t.adjacentTiles == old(t.adjacentTiles)
    {
      var row := tiles2D[i];
      var j := 0;
      while j < cols
        invariant 0 <= j <= cols
        invariant forall b :: 0 <= b < j ==>
          row[b].adjacentTiles == Wire(old(row[b].adjacentTiles), rows, cols, i, b)
        invariant forall b :: j <= b < cols ==> row[b].adjacentTiles == old(row[b].adjacentTiles)
        invariant forall t :: t in tileSet && t !in row ==> t.adjacentTiles == old(t.adjacentTiles)
      {
        WireTile(row[j], rows, cols, i, j);
        j := j + 1;
      }
    }

    /** Number of filled slots of tile (i, j) whose cell is mined. */
    function CountAdjacentMines(i: int, j: int): (n: nat)
      requires Valid() && SlotsOnGrid() && InBounds(rows, cols, i, j)
      reads this`rows, this`cols, this`tiles2D, this`numberSprites2D, this`tileSet, this`position, tileSet`mined, tileSet`adjacentTiles
      ensures n == MinedAmong(tiles2D[i][j].adjacentTiles, MinedSet())
    {
      MinedInSlots(tiles2D[i][j].adjacentTiles)
    }

    /** Counts the mined tiles that the given slots refer to. */
    function MinedInSlots(slots: seq<Option<Cell>>): (n: nat)
      requires Valid() && forall k :: 0 <= k < |slots| ==> SlotOnGrid(rows, cols, slots[k])
      reads this`rows, this`cols, this`tiles2D, this`numberSprites2D, this`tileSet, this`position, tileSet`mined
      ensures n == MinedAmong(slots, MinedSet())
    {
      if slots == [] then 0
      else
        assert SlotOnGrid(rows, cols, slots[0]);
        var here := if slots[0].Some? && tiles2D[slots[0].value.0][slots[0].value.1].mined then 1 else 0;
        MinedSetMember(if slots[0].Some? then slots[0].value.0 else 0, if slots[0].Some? then slots[0].value.1 else 0);
        here + MinedInSlots(slots[1..])
    }

    /** Selects the number indicator of every tile from its count of
        adjacent mines. */
    method SetNumberSprites()
      requires Valid() && SlotsOnGrid()
      modifies numberSprites2D
      ensures unchanged(this) && unchanged(tileSet)
      ensures forall i, j :: 0 <= i < rows && 0 <= j < cols ==>
        numberSprites2D[i, j] == NumberIndicator(MinedAmong(tiles2D[i][j].adjacentTiles, MinedSet()))
    {
      ghost var mined := MinedSet();
      var i := 0;
      while i < |tiles2D|
        invariant 0 <= i <= rows
        invariant forall a, b :: 0 <= a < i && 0 <= b < cols ==>
          numberSprites2D[a, b] == NumberIndicator(MinedAmong(tiles2D[a][b].adjacentTiles, mined))
      {
        var j := 0;
        while j < |tiles2D[0]|
          invariant 0 <= j <= cols
          invariant forall a, b :: 0 <= a < i && 0 <= b < cols ==>
            numberSprites2D[a, b] == NumberIndicator(MinedAmong(tiles2D[a][b].adjacentTiles, mined))
          invariant forall b :: 0 <= b < j ==>
            numberSprites2D[i, b] == NumberIndicator(MinedAmong(tiles2D[i][b].adjacentTiles, mined))
        {
          var count := CountAdjacentMines(i, j);
          numberSprites2D[i, j] := NumberIndicator(count);
          j := j + 1;
        }
        i := i + 1;
      }
    }

    /** Empties every row of the grid; the row count is kept. */
    method EraseTiles()
      requires Valid()
      modifies this`tiles2D
      ensures |tiles2D| == rows
      ensures forall r :: 0 <= r < rows ==> tiles2D[r] == []
    {
      var row := 0;
      while row < rows
        invariant 0 <= row <= rows && |tiles2D| == rows
        invariant forall r :: 0 <= r < row ==> tiles2D[r] == []
      {
        tiles2D := tiles2D[row := []];
        row := row + 1;
      }
    }
  }

  /** The constructor's nested loops: a rows x cols grid of new default
      tiles, with the position of each. */
  method NewTileGrid(rows: int, cols: int) returns (grid: seq<seq<Tile>>, ghost tiles: set<Tile>, ghost pos: map<Tile, Cell>)
    requires rows >= 0 && cols >= 0
    ensures fresh(tiles)
    ensures |grid| == rows && forall i :: 0 <= i < rows ==> |grid[i]| == cols
    ensures forall i, j :: 0 <= i < rows && 0 <= j < cols ==>
      && grid[i][j] in tiles && grid[i][j] in pos && pos[grid[i][j]] == (i, j)
      && DefaultTile(grid[i][j])
  {
    grid, tiles, pos := [], {}, map[];
    var i := 0;
    while i < rows
      invariant 0 <= i <= rows && |grid| == i
      invariant fresh(tiles)
      invariant forall a :: 0 <= a < i ==> |grid[a]| == cols
      invariant forall a, b :: 0 <= a < i && 0 <= b < cols ==>
        && grid[a][b] in tiles && grid[a][b] in pos && pos[grid[a][b]] == (a, b)
        && DefaultTile(grid[a][b])
    {
      var tileRow: seq<Tile> := [];
      var j := 0;
      while j < cols
        invariant 0 <= j <= cols && |tileRow| == j
        invariant fresh(tiles)
        invariant forall a, b :: 0 <= a < i && 0 <= b < cols ==>
          && grid[a][b] in tiles && grid[a][b] in pos && pos[grid[a][b]] == (a, b)
          && DefaultTile(grid[a][b])
        invariant forall b :: 0 <= b < j ==>
          && tileRow[b] in tiles && tileRow[b] in pos && pos[tileRow[b]] == (i, b)
          && DefaultTile(tileRow[b])
      {
        var tile := new Tile();
        tileRow := tileRow + [tile];
        tiles := tiles + {tile};
        pos := pos[tile := (i, j)];
        j := j + 1;
      }
      grid := grid + [tileRow];
      i := i + 1;
    }
  }

  /** findNeighbors's body for the tile at (i, j), `tile`: the nine position classes, each
      writing exactly the slots whose neighbour exists. Rows i + 1 and
      columns j + 1 are written without a check in the top-row and
      left-column branches, hence rows >= 2 and cols >= 2. */
  method WireTile(tile: Tile, rows: int, cols: int, i: int, j: int)
    requires |tile.adjacentTiles| == SlotCount && InBounds(rows, cols, i, j)
    requires rows >= 2 && cols >= 2
    modifies tile`adjacentTiles
    ensures tile.adjacentTiles == Wire(old(tile.adjacentTiles), rows, cols, i, j)
  {
    if i == 0 {
      if j == 0 {
        tile.adjacentTiles := tile.adjacentTiles[4 := Some((i, j + 1))];
        tile.adjacentTiles := tile.adjacentTiles[6 := Some((i + 1, j))];
        tile.adjacentTiles := tile.adjacentTiles[7 := Some((i + 1, j + 1))];
      } else if j == cols - 1 {
        tile.adjacentTiles := tile.adjacentTiles[3 := Some((i, j - 1))];
        tile.adjacentTiles := tile.adjacentTiles[5 := Some((i + 1, j - 1))];
        tile.adjacentTiles := tile.adjacentTiles[6 := Some((i + 1, j))];
      } else {
        tile.adjacentTiles := tile.adjacentTiles[3 := Some((i, j - 1))];
        tile.adjacentTiles := tile.adjacentTiles[4 := Some((i, j + 1))];
        tile.adjacentTiles := tile.adjacentTiles[5 := Some((i + 1, j - 1))];
        tile.adjacentTiles := tile.adjacentTiles[6 := Some((i + 1, j))];
        tile.adjacentTiles := tile.adjacentTiles[7 := Some((i + 1, j + 1))];
      }
    } else if i == rows - 1 {
      if j == 0 {
        tile.adjacentTiles := tile.adjacentTiles[1 := Some((i - 1, j))];
        tile.adjacentTiles := tile.adjacentTiles[2 := Some((i - 1, j + 1))];
        tile.adjacentTiles := tile.adjacentTiles[4 := Some((i, j + 1))];
      } else if j == cols - 1 {
        tile.adjacentTiles := tile.adjacentTiles[0 := Some((i - 1, j - 1))];
        tile.adjacentTiles := tile.adjacentTiles[1 := Some((i - 1, j))];
        tile.adjacentTiles := tile.adjacentTiles[3 := Some((i, j - 1))];
      } else {
        tile.adjacentTiles := tile.adjacentTiles[0 := Some((i - 1, j - 1))];
        tile.adjacentTiles := tile.adjacentTiles[1 := Some((i - 1, j))];
        tile.adjacentTiles := tile.adjacentTiles[2 := Some((i - 1, j + 1))];
        tile.adjacentTiles := tile.adjacentTiles[3 := Some((i, j - 1))];
        tile.adjacentTiles := tile.adjacentTiles[4 := Some((i, j + 1))];
      }
    } else if j == 0 && i > 0 && i < rows - 1 {
      tile.adjacentTiles := tile.adjacentTiles[1 := Some((i - 1, j))];
      tile.adjacentTiles := tile.adjacentTiles[2 := Some((i - 1, j + 1))];
      tile.adjacentTiles := tile.adjacentTiles[4 := Some((i, j + 1))];
      tile.adjacentTiles := tile.adjacentTiles[6 := Some((i + 1, j))];
      tile.adjacentTiles := tile.adjacentTiles[7 := Some((i + 1, j + 1))];
    } else if j == cols - 1 && i > 0 && i < rows - 1 {
      tile.adjacentTiles := tile.adjacentTiles[0 := Some((i - 1, j - 1))];
      tile.adjacentTiles := tile.adjacentTiles[1 := Some((i - 1, j))];
      tile.adjacentTiles := tile.adjacentTiles[3 := Some((i, j - 1))];
      tile.adjacentTiles := tile.adjacentTiles[5 := Some((i + 1, j - 1))];
      tile.adjacentTiles := tile.adjacentTiles[6 := Some((i + 1, j))];
    } else {
      tile.adjacentTiles := tile.adjacentTiles[0 := Some((i - 1, j - 1))];
      tile.adjacentTiles := tile.adjacentTiles[1 := Some((i - 1, j))];
      tile.adjacentTiles := tile.adjacentTiles[2 := Some((i - 1, j + 1))];
      tile.adjacentTiles := tile.adjacentTiles[3 := Some((i, j - 1))];
      tile.adjacentTiles := tile.adjacentTiles[4 := Some((i, j + 1))];
      tile.adjacentTiles := tile.adjacentTiles[5 := Some((i + 1, j - 1))];
      tile.adjacentTiles := tile.adjacentTiles[6 := Some((i + 1, j))];
      tile.adjacentTiles := tile.adjacentTiles[7 := Some((i + 1, j + 1))];
    }
  }

  /** Slot content after linking towards cell (r, c): the cell when it is on
      the grid, the previous content p otherwise. */
  function Link(p: Option<Cell>, rows: int, cols: int, r: int, c: int): Option<Cell>
  {
    if InBounds(rows, cols, r, c) then Some((r, c)) else p
  }

  /** The slots after findNeighbors has run on a tile whose slots were prev:
      each slot whose neighbour exists now refers to it; the others are kept. */
  function Wire(prev: seq<Option<Cell>>, rows: int, cols: int, i: int, j: int): seq<Option<Cell>>
    requires |prev| == SlotCount
  {
    [ Link(prev[0], rows, cols, i - 1, j - 1), Link(prev[1], rows, cols, i - 1, j),
      Link(prev[2], rows, cols, i - 1, j + 1), Link(prev[3], rows, cols, i, j - 1),
      Link(prev[4], rows, cols, i, j + 1), Link(prev[5], rows, cols, i + 1, j - 1),
      Link(prev[6], rows, cols, i + 1, j), Link(prev[7], rows, cols, i + 1, j + 1) ]
  }

  /** Wiring a new tile gives exactly the reference slots. */
  lemma WireEmpty(rows: int, cols: int, i: int, j: int)
    ensures Wire(EmptySlots(), rows, cols, i, j) == NeighbourSlots(rows, cols, i, j)
  {
  }

  /** No mined neighbour is counted exactly when no filled slot refers to a
      mined cell. */
  lemma {:induction false} MinedAmongZero(slots: seq<Option<Cell>>, mined: set<Cell>)
    ensures MinedAmong(slots, mined) == 0 <==>
      forall k :: 0 <= k < |slots| && slots[k].Some? ==> slots[k].value !in mined
  {
    if slots != [] {
      MinedAmongZero(slots[1..], mined);
      assert forall k :: 1 <= k < |slots| ==> slots[k] == slots[1..][k - 1];
    }
  }

  /** On a tile's eight slots the indicator is number_k for a count k of
      mined neighbours and none exactly when no neighbour is mined. */
  lemma IndicatorChoice(slots: seq<Option<Cell>>, mined: set<Cell>)
    requires |slots| == SlotCount
    ensures var n := MinedAmong(slots, mined);
      && (NumberIndicator(n) == None <==>
            forall k :: 0 <= k < |slots| && slots[k].Some? ==> slots[k].value !in mined)
      && (n > 0 ==> NumberIndicator(n) == Some(n))
  {
    MinedAmongLimit(slots, mined);
    MinedAmongZero(slots, mined);
  }

  lemma {:induction false} MinedAmongLimit(slots: seq<Option<Cell>>, mined: set<Cell>)
    requires |slots| == SlotCount
    ensures MinedAmong(slots, mined) <= SlotCount
  {
    FilledAtMostLength(slots);
  }

  lemma {:induction false} FilledAtMostLength(s: seq<Option<Cell>>)
    ensures Filled(s) <= |s|
  {
    if s != [] {
      FilledAtMostLength(s[1..]);
    }
  }
}
