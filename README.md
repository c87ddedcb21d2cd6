# Minesweeper board engine

A Dafny model of the board engine of a single-page minesweeper game
(`script.js`). The page keeps one global board of cells, and each cell has the
fields `mine`, `revealed`, `adjacentMines` and `flagged`. Beside the board it
keeps the dimensions of the current size preset and two flags: `gameOver` and
`firstClick`.

- A left click reveals a cell. On the first accepted click the engine places
  the mines, keeping them out of the 3x3 block around the clicked cell, and
  counts each cell's neighbouring mines. A revealed mine loses the game and
  reveals the whole board, and the click ends there without a win test. A
  revealed cell whose count is zero clicks every hidden non-mine neighbour, so
  revealing floods outward. After every accepted click that does not hit a
  mine, the engine runs the win test.
- A right click flips a flag.
- The restart button builds a new blank board. The size button moves to the
  next of three presets (9x9 with 10 mines, 16x16 with 40, 22x22 with 99) and
  builds a new blank board of that size.

The model has five modules:

- `Grid` (grid.dfy): the board as a value (`seq<seq<Cell>>`), the sets of
  mines, revealed cells and flags, the clipped 3x3 block around a cell, and the
  whole-board functions that specify each operation (`BlankBoard`,
  `Recounted`, `AllRevealed`, `Toggled`).
- `Placement` (placement.dfy): mine placement as a function `Place` of the
  sequence of random draws, and what it guarantees.
- `Flood` (flood.dfy): what a flood may reveal, flood paths, and the region a
  click reveals.
- `Rules` (rules.dfy): the presets, the state invariant, and the left click
  as ghost functions (`Click`, `Open`, `Sweep`). These follow
  `handleCellClick` and `revealAdjacent` call for call. The module also holds
  the click relation `Clicked` that every click satisfies.
- `Minesweeper` (game.dfy): the class `Game`. Its fields `rows`, `cols`,
  `mines`, `board`, `gameOver`, `firstClick` and `currentSizeIndex` are the
  page's mutable globals (script.js:1-3, 9-11, 17). Its field `overlay` is the
  display state of the overlay element: hidden, or shown with a message. The
  global preset list `gameSizes` (script.js:12-16) never changes, so it is the
  constant `Rules.GameSizes`, not a field. Most of its methods are the page's
  functions, with the loops and the mutual recursion kept. A few methods were split out of a page function:
  - `CountAdjacentMines` is the inner nine-offset loop of
    `calculateAdjacentMines`.
  - `CountRevealedSafe` is the counting loop of `checkWin`.
  - `RevealNeighbourRow` and `RevealNeighbour` are the body of the outer and
    inner loops of `revealAdjacent`.
  - `LeftClick` is the cell's click listener.

  Each state-changing method is proved equal to a specification function of
  the old state:
  - `PlaceMines` to `Placement.Seeded`.
  - `CalculateAdjacentMines`, `RevealAll` and `ToggleFlag` to `Grid.Recounted`,
    `Grid.AllRevealed` and `Grid.Toggled`.
  - `CheckWin`, `HandleCellClick`, `OpenCell` and `RevealAdjacent` to
    `Rules.WinChecked`, `Rules.Click`, `Rules.Open` and `Rules.Sweep`.
  - `RevealNeighbour` to `Rules.SweepStep` (one step of the sweep), and
    `RevealNeighbourRow` to `Rules.SweepTo` (three steps in a row).

  The exception is `LeftClick`. It is proved against the click relation
  `Rules.Clicked` and the state invariant, not against a function. The two
  counting methods `CountAdjacentMines` and `CountRevealedSafe` change no
  state; each is proved to return the size of a set.

The mutual recursion between `handleCellClick` and `revealAdjacent` terminates
because every call that passes the guard reveals a hidden cell. The number of
hidden cells (`HiddenCount`) is the measure, with a second component that
orders the calls between one reveal and the next.

## Model

| member | source | states |
|---|---|---|
| `Minesweeper.Game.constructor` | script.js:1-17 | page load, the globals' initial values and the call to `createBoard` at script.js:220: preset 0 (9x9, 10 mines), a blank board, `firstClick` set, `gameOver` clear, overlay hidden, state valid |
| `Minesweeper.Game.CreateBoard` | script.js:19-37 | the dimensions become those of the current preset; the board is a `rows x cols` grid of blank cells; the overlay is hidden |
| `Minesweeper.Game.FreshGameValid` | script.js:19-37 | a blank board of a preset with `firstClick` set and the game not over satisfies the state invariant |
| `Minesweeper.Game.Restart` | script.js:214-218 | `firstClick` set, `gameOver` clear, same preset, blank board; the state is valid |
| `Minesweeper.Game.CycleSize` | script.js:204-212 | the preset index advances modulo 3; the dimensions and mine count are the new preset's; blank board, `firstClick` set, `gameOver` clear; the state is valid |
| `Rules.NextSizeIndex` | script.js:205 | the next preset index is below 3, is `i + 1` except after the last preset, and wraps to 0 after it |
| `Rules.PresetsLeaveRoom` | script.js:12-16 | every preset has non-empty dimensions and at least nine cells more than mines, so a 3x3 safe block always leaves room for the mines |
| `Grid.BlankBoard` | script.js:25-34 | the new board: `rows` rows of `cols` cells, each not a mine, hidden, unflagged, count 0; the result has exactly that shape |
| `Grid.BlankBoardFacts` | script.js:25-34 | a new board has no mines, no revealed cells, no flags, no revealed mine, and its zero counts are correct |
| `Minesweeper.Game.PlaceMines` | script.js:39-51 | the loop over the random draws leaves the board `Seeded`: the mines `Place` picks from the draws are added, then every count is recomputed |
| `Placement.Place` | script.js:40-49 | the mines the drawing loop leaves, given the draws: each draw is kept when it is not yet a mine and is distant from the excluded cell, until `need` are kept; placement never removes a mine: the result contains the mines it started from |
| `Placement.Seeded` | script.js:39-50 | the board after placement: the mines `Place` gives laid on the board, then every count recomputed; the result keeps the board's shape |
| `Placement.PlaceAvoids` | script.js:44-46 | every mine placement adds is a drawn cell at Chebyshev distance more than 1 from the excluded cell |
| `Placement.PlaceCount` | script.js:40-48 | with at least `need` distinct eligible cells among the draws, placement adds exactly `need` mines |
| `Placement.FreshEnough` | script.js:41-49 | with at least `need` distinct eligible draws, the loop finds its `need` mines before the draws run out |
| `Placement.FirstPlacement` | script.js:39-49 | on an empty board the placed mines number exactly `mines`, lie on the board, and none lies in the 3x3 block around the clicked cell |
| `Placement.CoveringDrawsSuffice` | script.js:41-43 | draws that eventually cover the board are enough for every preset that leaves nine cells free |
| `Placement.SeededKeeps` | script.js:39-50 | placement changes only mines and counts: revealed cells and flags are kept, and every count is correct afterwards |
| `Placement.SeededMines` | script.js:39-50 | after placement the board's mines are exactly the set `Place` gives |
| `Minesweeper.Game.CountAdjacentMines` | script.js:57-66 | the nine-offset scan returns the number of mines in the cell's 3x3 block clipped to the board |
| `Minesweeper.Game.CalculateAdjacentMines` | script.js:53-70 | the nested loops leave the board equal to `Recounted` of the old board |
| `Grid.Recounted` | script.js:53-69 | the reference definition of recounting: a non-mine cell's count is the size of the set of mines in its clipped 3x3 block, a mine cell is kept; the result keeps the board's shape |
| `Grid.RecountedFacts` | script.js:53-69 | after recounting, every non-mine cell's count equals the number of mines within Chebyshev distance 1; mine cells are untouched; only counts change; the mines are the same |
| `Grid.CountAtMostEight` | script.js:58-66 | with correct counts, a non-mine cell's count lies in [0, 8] |
| `Minesweeper.Game.RevealAll` | script.js:168-175 | the nested loops leave the board equal to `AllRevealed` of the old board |
| `Grid.AllRevealed` | script.js:168-173 | the reference definition of revealing all: every cell with `revealed` set and its other fields kept; the result keeps the board's shape |
| `Grid.AllRevealedFacts` | script.js:168-173 | revealing all changes only `revealed`, leaves every cell revealed, and keeps every flag |
| `Minesweeper.Game.CountRevealedSafe` | script.js:179-187 | the scan returns the number of revealed non-mine cells |
| `Minesweeper.Game.CheckWin` | script.js:177-193 | the state after the win test is `WinChecked` of the state before: over with "You Win!" when the revealed non-mine cells number `rows*cols - mines`, otherwise unchanged; the board is not touched |
| `Rules.WinChecked` | script.js:177-192 | the win test on values: it never changes the board or `firstClick`; it never clears `gameOver`; when it ends the game it shows "You Win!" |
| `Grid.WinCount` | script.js:178-189 | with exactly `mines` mines, the count test holds if and only if every non-mine cell is revealed |
| `Rules.WinSound` | script.js:177-192 | the win test on a consistent state with no mine showing gives a valid state that is over exactly when every non-mine cell is revealed |
| `Minesweeper.Game.ToggleFlag` | script.js:161-166 | a finished game is left unchanged; otherwise the board becomes `Toggled`: a hidden cell's flag flips and nothing else changes; the state stays valid |
| `Grid.Toggled` | script.js:161-164 | the reference definition of a right click on a game in progress: the board keeps its shape and the cell's `revealed`; a revealed cell leaves the board unchanged |
| `Grid.ToggledTwice` | script.js:161-164 | flagging the same cell twice restores the board |
| `Grid.ToggledFlag` | script.js:161-164 | only the chosen cell's flag can change, and it flips exactly when the cell is hidden |
| `Grid.ToggledKeeps` | script.js:161-164 | flagging keeps the mines, the revealed cells and the correctness of the counts |
| `Rules.ToggledValid` | script.js:161-164 | flagging keeps a valid state valid, so it has no effect on win or loss |
| `Minesweeper.Game.HandleCellClick` | script.js:118-124 | the state after the click is `Click` of the state before: the guard, mine placement on the first accepted click, then `OpenCell` |
| `Rules.Armed` | script.js:121-124 | the mines settled for an accepted click: the first click seeds them and clears `firstClick`; a later click finds them in place; afterwards `firstClick` is clear and the board keeps its shape |
| `Minesweeper.Game.OpenCell` | script.js:126-140 | the state after revealing the cell is `Open` of the state before: reveal, loss with reveal-all on a mine, sweep on a zero count, then the win test |
| `Minesweeper.Game.RevealAdjacent` | script.js:142-159 | the state after the 3x3 scan is `Sweep` of the state before |
| `Minesweeper.Game.RevealNeighbourRow` | script.js:143-158 | one pass of the inner loop: the new state is the next three steps of the sweep (`SweepTo` from cell k to k + 3) applied to the old state, and no hidden cell is added |
| `Minesweeper.Game.RevealNeighbour` | script.js:145-156 | the new state is `SweepStep` of the old one: the neighbour gets a click of its own when it is on the board, hidden and not a mine, and nothing changes otherwise |
| `Minesweeper.Game.LeftClick` | script.js:107 | a left click on a valid game leaves a valid game, and the states before and after satisfy the click relation `Clicked` |
| `Rules.Click` | script.js:118-140 | the click never adds a hidden cell and never brings back the first click |
| `Rules.Open` | script.js:126-140 | opening a cell never adds a hidden cell and leaves the first click behind |
| `Rules.Sweep` | script.js:142-159 | the sweep never adds a hidden cell and leaves the first click behind |
| `Rules.SweepStep` | script.js:145-156 | one neighbour of the scan: clicked when it is on the board, hidden and not a mine, skipped otherwise; it never adds a hidden cell and leaves `firstClick` clear |
| `Rules.SweepTo` | script.js:143-158 | the steps of the scan from its k-th cell up to its j-th, in the source's order; they never add a hidden cell and leave `firstClick` clear |
| `Rules.SweepToRest` | script.js:143-158 | taking the steps before the j-th and then sweeping on from the j-th gives the same state as sweeping from the k-th |
| `Rules.SweepToJoin` | script.js:143-158 | the steps from k to j followed by the steps from j to l are the steps from k to l |
| `Rules.ClickSound` | script.js:118-159 | from a valid state a click leads to a valid state satisfying `Clicked`: an ignored click (game over, flagged or revealed cell) changes nothing; an accepted click clears `firstClick` and reveals the cell; the first one places exactly the drawn mines, none in the cell's block, so the cell has count zero and its block is opened; flags never change; nothing is hidden again; a mine ends the game with every cell revealed; a safe cell floods, shows no mine, and ends the game exactly when every safe cell is revealed |
| `Rules.ClickedState` | script.js:118-159 | `ClickSound` for a state held as separate fields |
| `Rules.IgnoredClick` | script.js:119 | a click on a finished game, a flagged cell or a revealed cell satisfies the click relation with nothing changed |
| `Rules.FirstMines` | script.js:121-124 | after the first placement there are exactly `mines` mines, none in the clicked cell's block; the clicked cell is safe with count zero, and no mine is revealed |
| `Rules.RevealClicked` | script.js:126-127 | revealing the clicked hidden cell only reveals it, lowers the hidden count, keeps counts correct, and shows a mine exactly when the cell is one |
| `Rules.ClickedMine` | script.js:127-131 | a revealed mine makes every cell revealed, keeps the flags, and gives a valid, lost state showing "Game Over!" |
| `Rules.ZeroSweepSound` | script.js:134-158 | the sweep around a zero cell keeps the state consistent, reveals only safe unflagged cells, and leaves every safe unflagged neighbour revealed |
| `Rules.SweepSound` | script.js:143-158 | the sweep from the k-th cell of the block keeps the state consistent and completes the scan |
| `Rules.NeighbourClickable` | script.js:152-155 | when the sweep clicks a hidden non-mine neighbour, the game is still on and the state is valid, so the recursive click meets its own precondition |
| `Flood.FloodedNoMine` | script.js:147-155 | a flood reveals no mine |
| `Flood.FloodedFromClick` | script.js:126-136 | a click that reveals a safe cell and floods from it reveals only safe, unflagged cells, and every newly revealed zero cell has its neighbourhood revealed |
| `Flood.FloodReaches` | script.js:134-158 | completeness: the flood reveals the end of every flood path that starts at a revealed cell |
| `Flood.ReachedFromClick` | script.js:126-136 | soundness: every cell a click reveals is reachable from the clicked cell along a flood path |
| `Flood.FloodRegion` | script.js:134-158 | a cell is newly revealed if and only if a flood path leads to it from the clicked cell: the connected zero region plus its non-zero border, short of mines and flags |
| `Flood.FloodedTrans` | script.js:142-158 | two floods in turn make one flood |

## Left out

- Rendering (`renderBoard`, script.js:72-116) is left out. So is the overlay
  element (script.js:195-202). The overlay's state is kept as the `overlay`
  field: hidden, or shown with "Game Over!" or "You Win!".
- Event-listener wiring and the size button's label text (script.js:107-111,
  script.js:209-211) are left out. The click listener appears only as
  `LeftClick`.
- `Math.random` and `Math.floor` (script.js:42-43) are not modelled. The
  random draws are a parameter `draws: seq<Pos>`: the k-th draw is the k-th
  cell the loop inspects.
- `Minesweeper.Game.PlaceMines` does not model a run that never ends. In the
  source the loop ends only with probability one. The model requires draws that
  hold at least `mines` distinct eligible cells. `CoveringDrawsSuffice` shows
  that any draws covering the board qualify, for every preset.
- `Minesweeper.Game.HandleCellClick` requires the cell to be on the board. It
  also requires a board without mines while `firstClick` is set, which the
  state invariant guarantees. Every call site in the source passes a board
  position. An off-board position would throw in the source, and that is not
  modelled.
- The source has no configuration error for too many mines. Its three presets
  always leave room (`PresetsLeaveRoom`), so the model has none either.
- The source flood-fills by mutual recursion, and the model keeps that
  recursion. It does not turn it into a worklist.
- The game's outcome is only `gameOver` plus the overlay message. There is no
  separate won/lost status. Whether the game was lost can be read from whether
  a mine is revealed.
- There is no persistence: the source has no save or load code.
- JavaScript numbers are doubles. Every value here is a small integer, so they
  are modelled as unbounded integers.
- The symmetry of the counts is not stated: their sum over non-mine cells
  equals the number of adjacent mine/non-mine pairs. It follows from
  `CountsCorrect` by double counting, and nothing in the source relies on it.
