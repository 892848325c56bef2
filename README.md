# Minesweeper board and name editor in Dafny

This project models two parts of a small SFML Minesweeper game written in C++.

**The board** (`board.h`, `tile.h`):
- The `Board` constructor builds a `rows x cols` grid of default tiles.
- It places `mines` mines by rejection sampling: a draw on a cell that is already mined is discarded.
- `findNeighbors` links every tile to its in-bounds neighbours in eight fixed slots. It handles nine position classes: four corners, four edges and the interior.
- `setNumberSprites` chooses each tile's number indicator from its count of adjacent mines.
- `eraseTiles` empties every row.

**The welcome screen** (`main.cpp`):
- The player's name always ends in a `|` cursor.
- `addCharacter` and `popCharacter` edit the name.
- `activate` and `deactivate` switch each screen on and off.
- The keyboard filter of the event loop decides which events reach the name editor.
- The window size is derived from the board size.

Module layout:
- `neighbours.dfy` (module `Neighbours`): grid geometry. It defines cells, bounds, the eight neighbour offsets and the reference definition of a tile's neighbour slots. It proves symmetry, bounds, the 3/5/8 neighbour counts and grid cardinality.
- `tile.dfy` (module `Tiles`): the mutable `Tile` record.
- `board.dfy` (module `Boards`): the `Board` class and the placement, wiring, counting and erasing operations.
  - The placement loop is specified by the pure function `Place` over the sequence of draws. Its properties are proved as lemmas.
  - The nine-branch wiring is proved equal to the reference slots.
- `welcome.dfy` (module `Welcome`): the `WelcomeScreen` and `GameScreen` classes and the name functions.
  - `Step` is a pure reference definition of one pass of the event filter. `HandleEvent` is proved to follow it.
  - Lemmas show that any sequence of events keeps the name well formed and exactly one screen active.

Randomness: the `mt19937` generator becomes an input sequence `draws` of in-range cells, consumed in order. The source's loop draws until the quota is met. The model's loop also stops when the draws run out, so it states partial correctness:
- the mined cells are exactly `Place(mines, draws).chosen`;
- when the quota is met, exactly `mines` cells are mined;
- a quota larger than the grid can never be met.

Assumption: `Tile::countAdjacentMines` is called by `setNumberSprites` but defined in no file of the game. `Tile::countAdjacentMines` is not part of this model. It is given the meaning "number of filled neighbour slots whose cell is mined" (`Boards.MinedAmong`).

## Model

| member | source | states |
|---|---|---|
| Tiles.Tile.constructor | tile.h:8-13 | A new tile is unrevealed, unflagged and unmined, and all eight neighbour slots are empty. |
| Tiles.EmptySlots | tile.h:12-13 | A new tile has exactly eight slots, and every one of them is empty. |
| Neighbours.Offset | board.h:149-218 | Slot k refers to one of the eight cells around a tile: each coordinate moves by at most 1, and never to the tile itself. |
| Neighbours.SlotInGrid | board.h:149-218 | A filled slot always refers to an in-bounds cell that is adjacent to its tile and different from it. |
| Neighbours.SlotSymmetry | board.h:152-217 | If slot k of tile A holds B, then slot 7-k of B holds A. |
| Neighbours.SlotsDistinct | board.h:152-217 | Two different slots of one tile never hold the same cell. |
| Neighbours.NeighbourCountByClass | board.h:149-218 | On a grid of at least 2 x 2, corner tiles have 3 neighbours, other border tiles 5 and interior tiles 8. |
| Neighbours.AllCellsCount | board.h:32-67 | The grid has exactly rows * cols cells. |
| Neighbours.QuotaNeedsRoom | board.h:76-84 | A set of distinct in-grid cells has at most rows * cols members. |
| Neighbours.FullGridRejectsEveryDraw | board.h:76-84 | Once every cell is mined, every in-range draw lands on a mined cell, so no further draw can place a mine. |
| Boards.PlaceFromDrawn | board.h:75-89 | Loop invariant of the placement loop: the mined cells are exactly the cells drawn so far. |
| Boards.PlaceFromCount | board.h:75-89 | Loop invariant of the placement loop: mined cells plus mines still to place equal the quota. The loop stops only with the quota met or the draws used up. |
| Boards.PlaceFacts | board.h:71-89 | Only drawn cells are mined, and never more than the quota. A quota of zero or less mines nothing. When the loop stops before the draws run out, exactly `mines` cells are mined. |
| Boards.PlaceMeetsQuota | board.h:75-89 | Whenever the draws hit at least `mines` distinct cells, exactly `mines` cells are mined. |
| Boards.PlaceWithinGrid | board.h:76-84 | Every mined cell lies in [0, rows) x [0, cols), so a met quota never exceeds rows * cols. |
| Boards.OverfullNeverMeetsQuota | board.h:76-84 | With more mines than cells, the quota is never met. |
| Boards.Board.TryPlaceMine | board.h:78-88 | One iteration of the placement loop. A draw on an unmined cell mines it and reports success. A draw on a mined cell changes nothing. |
| Boards.Board.PlaceMines | board.h:75-89 | After the placement loop, the mined cells are exactly those chosen by `Place(mines, draws)`. |
| Boards.NewTileGrid | board.h:32-67 | The constructor's nested loops build exactly rows rows of cols distinct new default tiles. |
| Boards.Board.constructor | board.h:25-94 | After construction: the grid has rows x cols tiles, all hidden and unflagged; both counters are 0; the mined cells are `Place(mines, draws).chosen`; every tile holds its reference neighbour slots; every number indicator matches the count of mined neighbours. |
| Boards.Board.Populate | board.h:71-93 | Placement, wiring and number selection in source order. They leave the tiles hidden, the mines where placement put them, the slots wired and the indicators set. |
| Boards.WireTile | board.h:149-218 | The nine position-class branches write exactly the slots whose neighbour exists and keep the other slots unchanged. |
| Boards.Board.WireRow | board.h:147-219 | Every tile of row i is wired, and tiles of other rows are untouched. |
| Boards.Board.FindNeighbors | board.h:142-221 | Every tile is wired. Starting from new tiles, slot k of tile (i, j) holds (i, j) + offset k exactly when that cell is in bounds, and is empty otherwise. |
| Boards.WireEmpty | board.h:142-221 | Wiring a tile with empty slots yields exactly the reference neighbour slots. |
| Boards.Board.WiredOnGrid | board.h:149-218 | After wiring, no slot of any tile refers outside the grid. |
| Boards.Board.WiredSymmetry | board.h:152-217 | On a wired board, when slot k of tile (i, j) refers to a cell, that cell is on the grid and its slot 7 - k refers back to (i, j). |
| Boards.Board.WiredNeighbourCounts | board.h:149-218 | On a wired board of at least 2 x 2, corner tiles have 3 neighbours, other border tiles 5 and interior tiles 8. |
| Boards.MinedAmongZero | board.h:108 | The assumed mine count of a tile is 0 exactly when none of its filled slots refers to a mined cell. |
| Boards.MinedAmongLimit | board.h:108 | A tile's count of mined neighbours is at most 8. |
| Boards.FilledAtMostLength | tile.h:12-13 | A tile never has more neighbours than slots, so at most 8. |
| Boards.Board.CountAdjacentMines | board.h:108 | The count computed from the board's tiles equals the assumed count of mined neighbour cells. |
| Boards.Board.MinedInSlots | board.h:108 | Counting mined tiles through the slots equals the count over the set of mined cells. |
| Boards.NumberIndicator | board.h:111-134 | The indicator is number_k exactly when the count k lies in 1..8. Otherwise no texture is chosen. |
| Boards.IndicatorChoice | board.h:108-136 | A tile gets no number exactly when no neighbour is mined. Otherwise it gets the number of mined neighbours. |
| Boards.Board.SetNumberSprites | board.h:104-139 | Every tile's indicator is the one chosen for its count of adjacent mines. |
| Boards.Board.EraseTiles | board.h:97-101 | Afterwards there are still rows rows, and every row is empty. |
| Welcome.CaseConversion | main.cpp:104-108 | toupper and tolower map a letter to a letter of the requested case, and converting back and forth loses nothing. |
| Welcome.AddedNameShape | main.cpp:99-110 | Adding inserts exactly one character in front of the last one. That character is upper-case as the first letter and lower-case otherwise. The name grows by one. |
| Welcome.PoppedNameShape | main.cpp:121-127 | Popping removes the last letter and keeps the cursor. The bare cursor is left unchanged. Well-formedness is kept. |
| Welcome.AddKeepsWellFormed | main.cpp:99-110 | Adding an ASCII letter to a well-formed name with room for it keeps the name well formed. Well formed means: letters then the cursor, a capital first letter, lower-case after it, at most 10 characters, and the cursor nowhere else. |
| Welcome.PopAfterAdd | main.cpp:99-127 | Round trip: popCharacter right after addCharacter restores the name. |
| Welcome.WelcomeScreen.constructor | main.cpp:19-34 | The welcome screen starts active with the name "\|". |
| Welcome.WelcomeScreen.AddCharacter | main.cpp:99-110 | The name becomes `AddedName(old name, c)`. |
| Welcome.WelcomeScreen.PopCharacter | main.cpp:121-127 | The name becomes `PoppedName(old name)`. |
| Welcome.WelcomeScreen.Activate | main.cpp:143-145 | The welcome screen is active afterwards. |
| Welcome.WelcomeScreen.Deactivate | main.cpp:148-150 | The welcome screen is inactive afterwards. |
| Welcome.GameScreen.constructor | main.cpp:155-165 | The game screen starts inactive. |
| Welcome.GameScreen.Activate | main.cpp:182-184 | The game screen is active afterwards. |
| Welcome.GameScreen.Deactivate | main.cpp:186-188 | The game screen is inactive afterwards. |
| Welcome.HandleEvent | main.cpp:224-258 | One pass of the event filter changes the window flag, the name and both screens exactly as the reference definition `Step` says. |
| Welcome.Initial | main.cpp:19-20 | The starting state: the window is open, only the welcome screen is active, and the name is the bare cursor, which is well formed. |
| Welcome.StepKeepsConsistent | main.cpp:230-254 | Every event keeps the name well formed and exactly one screen active. |
| Welcome.NonLetterIgnored | main.cpp:237-243 | Text that is not an ASCII letter leaves the state unchanged. |
| Welcome.FullNameIgnoresText | main.cpp:231-235 | A name of 10 characters, cursor included, accepts no more text. |
| Welcome.EnterStartsGame | main.cpp:250-253 | Enter on the welcome screen always fires, even on an empty name. Afterwards only the game screen is active and the name is kept. |
| Welcome.RunKeepsConsistent | main.cpp:219-259 | After any sequence of events, the name is well formed with at most 9 letters, and exactly one screen is active. Events are handled up to and including the one that closes the window. |
| Welcome.WindowSize | main.cpp:206-207 | The width is numColumns * 32 and the height numRows * 32 + 100, so the number of columns and rows can be read back from the window size. |

## Left out

- Sprites, textures, fonts, text placement and drawing are foreign-library presentation. They are not modelled, except for the choice of number indicator, which depends on the game state. This covers the base, flag and mine sprite grids, `setTexture`, `setText`, `drawToScreen` and the screen backgrounds.
- `textures.h` (texture loading from files) is not part of this model.
- `screens.h` is not part of this model. It holds a second copy of the welcome screen, which is modelled once, from `main.cpp`, and a game screen that only positions sprites.
- Reading `files/config.cfg`, the window itself and the SFML polling loop are I/O. `HandleEvent` models one pass of the filter, with the window's open flag as a parameter.
- Boards.Board.PlaceMines: the `mt19937` generator seeded by the clock is replaced by a finite sequence of in-range draws. The loop also stops when the draws run out, so termination of the source's unbounded loop is not modelled. With more mines than cells the source loops forever; the model only shows that such a quota is never met.
- Tiles.Tile: the neighbour list is a `std::vector` of tile pointers, yet `findNeighbors` writes indices 0..7 of an empty vector. The model reads it as eight fixed slots. Each slot holds a grid index, not a pointer, and is a sequence value on the tile rather than a separate array.
- Boards.WireTile: the top-row and left-column branches reach row i + 1 and column j + 1 without a check, so the model requires rows >= 2 and cols >= 2.
- Boards.MinedAmong: the meaning of `countAdjacentMines` is an assumption, because its definition is not in the game's files.
- Memory management is not modelled. This covers the `new Tile()` allocations and the fact that `eraseTiles` drops tile pointers without deleting them.
- Welcome.WindowSize: the window size is computed with unbounded integers. Overflow of `int` is not modelled.
- Revealing, flagging, flood fill, winning and losing are not part of any modelled file, so `nonMinesRevealed` and `minesFlagged` are only shown to start at 0.
- Console messages printed by the event filter and by `addCharacter` are not modelled.
