/** The game engine of script.js: one object holding the board, the
    current size preset and the two flags `gameOver` and `firstClick`,
    with the operations behind a left click (reveal), a right click (flag),
    the restart button and the size button. Rendering is left out; the
    overlay that shows the final message is kept as a field. */
module Minesweeper {
  import opened Grid
  import opened Flood
  import opened Placement
  import opened Rules

  class Game {
    var rows: nat
    var cols: nat
    var mines: nat
    var board: Board
    var gameOver: bool
    var firstClick: bool
    var currentSizeIndex: nat
    var overlay: Overlay

    ghost predicate Sized()
      reads this
    {
      SizedState(currentSizeIndex, rows, cols, mines, board)
    }

    /** The part of the state a click changes. */
    ghost function State(): GameState
      reads this
    {
      GameState(board, gameOver, firstClick, overlay)
    }

    /** Between user actions the game is over exactly when every non-mine cell is revealed. */
    ghost predicate Valid()
      reads this
    {
      ValidState(currentSizeIndex, rows, cols, mines, board, gameOver, firstClick, overlay)
    }

    /** Page load: the first preset, a blank board and the first click to come. */
    constructor ()
      ensures Valid() && currentSizeIndex == 0 && firstClick && !gameOver
      ensures rows == 9 && cols == 9 && mines == 10
      ensures board == BlankBoard(rows, cols) && overlay == OverlayHidden
    {
      rows, cols, mines := 9, 9, 10;
      gameOver, firstClick := false, true;
      currentSizeIndex := 0;
      new;
      CreateBoard();
      FreshGameValid();
    }

    /** Takes the dimensions of the current preset and lays out a blank board. */
    method CreateBoard()
      requires currentSizeIndex < |GameSizes|
      modifies this`rows, this`cols, this`mines, this`board, this`overlay
      ensures Sized()
      ensures board == BlankBoard(rows, cols) && overlay == OverlayHidden
    {
      var size := GameSizes[currentSizeIndex];
      rows := size.rows;
      cols := size.cols;
      mines := size.mines;
      board := BlankBoard(rows, cols);
      overlay := OverlayHidden;
    }

    lemma FreshGameValid()
      requires Sized() && board == BlankBoard(rows, cols) && overlay == OverlayHidden
      requires firstClick && !gameOver
      ensures Valid()
    {
      BlankBoardFacts(rows, cols);
      PresetsLeaveRoom(currentSizeIndex);
      assert !board[0][0].revealed && !board[0][0].mine;
    }

    /** The restart button: a new blank board of the same preset. */
    method Restart()
      requires Sized()
      modifies this
      ensures Valid() && firstClick && !gameOver && currentSizeIndex == old(currentSizeIndex)
      ensures board == BlankBoard(rows, cols) && overlay == OverlayHidden
    {
      firstClick := true;
      gameOver := false;
      CreateBoard();
      FreshGameValid();
    }

    /** The size button: the next preset and a new blank board of its size. */
    method CycleSize()
      requires Sized()
      modifies this
      ensures Valid() && firstClick && !gameOver
      ensures currentSizeIndex == NextSizeIndex(old(currentSizeIndex))
      ensures rows == GameSizes[currentSizeIndex].rows && cols == GameSizes[currentSizeIndex].cols
      ensures mines == GameSizes[currentSizeIndex].mines
      ensures board == BlankBoard(rows, cols) && overlay == OverlayHidden
    {
      currentSizeIndex := (currentSizeIndex + 1) % |GameSizes|;
      firstClick := true;
      gameOver := false;
      CreateBoard();
      FreshGameValid();
    }

    /** The number of mines in the 3x3 block around (row, col), counted by
        scanning the block's nine offsets and skipping those off the board. */
    method CountAdjacentMines(row: int, col: int) returns (count: nat)
      requires Shaped(board, rows, cols) && InBounds(rows, cols, Pos(row, col))
      ensures count == |Block(rows, cols, Pos(row, col)) * Mines(board)|
    {
      var p := Pos(row, col);
      count := 0;
      MinesSeenStart(board, rows, cols, p);
      for dr := -1 to 2
        invariant count == |MinesSeen(board, rows, cols, p, dr, -1)|
      {
        for dc := -1 to 2
          invariant count == |MinesSeen(board, rows, cols, p, dr, dc)|
        {
          var r := row + dr;
          var c := col + dc;
          MinesSeenStep(board, rows, cols, p, dr, dc);
          if r >= 0 && r < rows && c >= 0 && c < cols && board[r][c].mine {
            count := count + 1;
          }
        }
        MinesSeenRowEnd(board, rows, cols, p, dr);
      }
      MinesSeenEnd(board, rows, cols, p);
    }

    /** Stores in every non-mine cell the number of mines in its 3x3 block. */
    method CalculateAdjacentMines()
      requires Shaped(board, rows, cols)
      modifies this`board
      ensures Shaped(board, rows, cols) && board == Recounted(old(board), rows, cols)
    {
      ghost var b0 := board;
      RecountedBeforeStart(b0, rows, cols);
      for row := 0 to rows
        invariant Shaped(board, rows, cols) && RecountedBefore(board, b0, rows, cols, row, 0)
      {
        for col := 0 to cols
          invariant Shaped(board, rows, cols) && RecountedBefore(board, b0, rows, cols, row, col)
        {
          RecountedBeforeAt(board, b0, rows, cols, row, col);
          if board[row][col].mine {
            RecountedBeforeSkip(board, b0, rows, cols, row, col);
            continue;
          }
          RecountedBeforeMines(board, b0, rows, cols, row, col);
          var count := CountAdjacentMines(row, col);
          RecountedBeforeCount(board, b0, rows, cols, row, col, count);
          board := Update(board, Pos(row, col), board[row][col].(adjacentMines := count));
        }
        RecountedBeforeRowEnd(board, b0, rows, cols, row);
      }
      RecountedBeforeEnd(board, b0, rows, cols);
    }

    /** Draws cells until `mines` mines are placed, rejecting a drawn cell
        that is already a mine or lies in the 3x3 block around the excluded
        cell; then recomputes the counts. The k-th random draw is draws[k]. */
    method PlaceMines(excludedRow: int, excludedCol: int, draws: seq<Pos>)
      requires Shaped(board, rows, cols)
      requires forall k | 0 <= k < |draws| :: InBounds(rows, cols, draws[k])
      requires mines <= |Fresh(draws, Pos(excludedRow, excludedCol), Mines(board))|
      modifies this`board
      ensures Shaped(board, rows, cols) && board == Seeded(old(board), rows, cols, mines, draws, Pos(excludedRow, excludedCol))
    {
      var excluded := Pos(excludedRow, excludedCol);
      var b: Board := board;
      ghost var b0 := b;
      ghost var m := Mines(b0);
      ghost var target := Place(draws, excluded, m, mines);
      WithOwnMines(b0, rows, cols);
      FreshEnough(draws, excluded, m, mines);
      var placed := 0;
      var k := 0;
      ghost var need := mines;
      ghost var rest := draws;
      assert rest == draws[0..];
      while placed < mines
        invariant 0 <= placed <= mines && need == mines - placed
        invariant b == WithMines(b0, rows, cols, m)
        invariant k <= |draws| && rest == draws[k..]
        invariant Place(rest, excluded, m, need) == target
        invariant Enough(rest, excluded, m, need)
        decreases |draws| - k
      {
        DrawLeft(rest, excluded, m, need);
        var row := draws[k].row;
        var col := draws[k].col;
        var distant := Abs(row - excludedRow) > 1 || Abs(col - excludedCol) > 1;
        assert draws[k] == Pos(row, col) && distant == Distant(draws[k], excluded);
        assert b[row][col].mine == (Pos(row, col) in m);
        ghost var m0, need0 := m, need;
        if !b[row][col].mine && distant {
          WithMinesStep(b0, rows, cols, m, Pos(row, col));
          b := Update(b, Pos(row, col), b[row][col].(mine := true));
          m := m + {Pos(row, col)};
          placed := placed + 1;
          need := need - 1;
        }
        DrawStep(rest, excluded, m0, need0, target, m, need);
        assert rest[1..] == draws[k + 1..];
        rest := rest[1..];
        k := k + 1;
      }
      board := b;
      CalculateAdjacentMines();
    }

    /** Marks every cell revealed. */
    method RevealAll()
      requires Shaped(board, rows, cols)
      modifies this`board
      ensures Shaped(board, rows, cols) && board == AllRevealed(old(board), rows, cols)
    {
      for row := 0 to rows
        invariant Shaped(board, rows, cols)
        invariant forall i, j | 0 <= i < rows && 0 <= j < cols ::
          board[i][j] == old(board[i][j]).(revealed := old(board[i][j].revealed) || i < row)
      {
        for col := 0 to cols
          invariant Shaped(board, rows, cols)
          invariant forall i, j | 0 <= i < rows && 0 <= j < cols ::
            board[i][j] == old(board[i][j]).(revealed := old(board[i][j].revealed) || Before(i, j, row, col))
        {
          board := Update(board, Pos(row, col), board[row][col].(revealed := true));
        }
      }
      assert forall i | 0 <= i < rows :: board[i] == AllRevealed(old(board), rows, cols)[i];
    }

    /** The number of revealed non-mine cells, counted by a scan of the board. */
    method CountRevealedSafe() returns (revealedCount: nat)
      requires Shaped(board, rows, cols)
      ensures revealedCount == |Revealed(board) - Mines(board)|
    {
      revealedCount := 0;
      ShownBeforeStart(board, rows, cols);
      for row := 0 to rows
        invariant revealedCount == |ShownBefore(board, rows, cols, row, 0)|
      {
        for col := 0 to cols
          invariant revealedCount == |ShownBefore(board, rows, cols, row, col)|
        {
          ShownBeforeStep(board, rows, cols, row, col);
          if board[row][col].revealed && !board[row][col].mine {
            revealedCount := revealedCount + 1;
          }
        }
        ShownBeforeRowEnd(board, rows, cols, row);
      }
      ShownBeforeEnd(board, rows, cols);
    }

    /** The win test: with the revealed non-mine cells numbering
        rows * cols - mines, the game is over and won. */
    method CheckWin()
      requires Shaped(board, rows, cols)
      modifies this`gameOver, this`overlay
      ensures GameState(board, gameOver, firstClick, overlay) == WinChecked(rows, cols, mines, old(GameState(board, gameOver, firstClick, overlay)))
    {
      var nonMineCells := rows * cols - mines;
      var revealedCount := CountRevealedSafe();
      if revealedCount == nonMineCells {
        gameOver := true;
        overlay := OverlayShown("You Win!");
      }
    }

    /** The right click: flips the flag of a hidden cell while the game is on. */
    method ToggleFlag(row: int, col: int)
      requires Valid() && InBounds(rows, cols, Pos(row, col))
      modifies this`board
      ensures Valid()
      ensures board == if old(gameOver) then old(board) else Toggled(old(board), Pos(row, col))
    {
      if gameOver || board[row][col].revealed {
        return;
      }
      ghost var b0 := board;
      board := Update(board, Pos(row, col), board[row][col].(flagged := !board[row][col].flagged));
      assert board == Toggled(b0, Pos(row, col));
      ToggledValid(currentSizeIndex, rows, cols, mines, b0, gameOver, firstClick, overlay, Pos(row, col));
    }

    /** The left click. Ignored on a finished game, a flagged cell or a
        revealed cell. Otherwise the first such click places the mines away
        from the clicked cell, and the cell is opened. The new state is Click
        of the old one. */
    method HandleCellClick(row: int, col: int, draws: seq<Pos>)
      requires Shaped(board, rows, cols) && InBounds(rows, cols, Pos(row, col))
      requires firstClick ==> Mines(board) == {} && DrawsSuffice(rows, cols, mines, draws, Pos(row, col))
      modifies this`board, this`gameOver, this`firstClick, this`overlay
      decreases HiddenCount(board), 2
      ensures Shaped(board, rows, cols)
      ensures GameState(board, gameOver, firstClick, overlay) == Click(rows, cols, mines, draws, Pos(row, col), old(GameState(board, gameOver, firstClick, overlay)))
    {
      var p := Pos(row, col);
      if gameOver || board[row][col].flagged || board[row][col].revealed {
        return;
      }
      ghost var s0 := GameState(board, gameOver, firstClick, overlay);
      SeededKeeps(board, rows, cols, mines, draws, p);
      if firstClick {
        PlaceMines(row, col, draws);
        firstClick := false;
      }
      ghost var a := GameState(board, gameOver, firstClick, overlay);
      ClickOpens(rows, cols, mines, draws, p, s0, a);
      OpenCell(row, col);
    }

    /** A left click from the user on a cell of a valid game. The state it
        leaves is valid again, and it stands to the state before in the click
        relation Clicked: ignored clicks change nothing, the first accepted
        click places the mines away from the cell and floods from it, a mine
        loses the game, and a safe cell floods and is won exactly when every
        safe cell is revealed. */
    method LeftClick(row: int, col: int, draws: seq<Pos>)
      requires Valid() && InBounds(rows, cols, Pos(row, col))
      requires firstClick ==> DrawsSuffice(rows, cols, mines, draws, Pos(row, col))
      modifies this`board, this`gameOver, this`firstClick, this`overlay
      ensures Valid()
      ensures Clicked(rows, cols, mines, draws, Pos(row, col), old(board), old(gameOver), old(firstClick), board, gameOver, firstClick)
    {
      ghost var b0, over0, first0, overlay0 := board, gameOver, firstClick, overlay;
      HandleCellClick(row, col, draws);
      ClickedState(currentSizeIndex, rows, cols, mines, draws, Pos(row, col), b0, over0, first0, overlay0,
                   board, gameOver, firstClick, overlay);
    }

    /** The accepted click once the mines are in place: the cell is
        revealed; a mine loses the game and reveals the board; a cell with
        count zero sweeps its neighbours; then the win test runs. The new
        state is Open of the old one. */
    method OpenCell(row: int, col: int)
      requires Shaped(board, rows, cols) && InBounds(rows, cols, Pos(row, col))
      requires !firstClick && !board[row][col].revealed
      modifies this`board, this`gameOver, this`firstClick, this`overlay
      decreases HiddenCount(board), 1
      ensures Shaped(board, rows, cols)
      ensures GameState(board, gameOver, firstClick, overlay) == Open(rows, cols, mines, Pos(row, col), old(GameState(board, gameOver, firstClick, overlay)))
    {
      var p := Pos(row, col);
      ghost var s0 := GameState(board, gameOver, firstClick, overlay);
      OpenShrinks(board, rows, cols, p);
      board := Update(board, p, board[row][col].(revealed := true));
      ghost var bp := board;
      if board[row][col].mine {
        gameOver := true;
        RevealAll();
        overlay := OverlayShown("Game Over!");
        OpensMine(rows, cols, mines, p, s0, GameState(board, gameOver, firstClick, overlay));
        return;
      }
      assert GameState(board, gameOver, firstClick, overlay) == s0.(board := bp);
      if board[row][col].adjacentMines == 0 {
        RevealAdjacent(row, col);
      }
      ghost var s2 := GameState(board, gameOver, firstClick, overlay);
      CheckWin();
      OpensSafe(rows, cols, mines, p, s0, bp, s2, GameState(board, gameOver, firstClick, overlay));
    }

    /** Clicks every neighbour of (row, col) that is on the board, hidden and
        not a mine, scanning the 3x3 block row by row. The new state is the
        sweep Sweep of the old one. */
    method RevealAdjacent(row: int, col: int)
      requires Shaped(board, rows, cols) && !firstClick && InBounds(rows, cols, Pos(row, col))
      modifies this`board, this`gameOver, this`firstClick, this`overlay
      decreases HiddenCount(board), 5
      ensures Shaped(board, rows, cols)
      ensures GameState(board, gameOver, firstClick, overlay) ==
              Sweep(rows, cols, mines, Pos(row, col), old(GameState(board, gameOver, firstClick, overlay)), 0)
    {
      ghost var h0 := HiddenCount(board);
      ghost var s0 := State();
      for dr := -1 to 2
        invariant Shaped(board, rows, cols) && !firstClick && HiddenCount(board) <= h0
        invariant State() == SweepTo(rows, cols, mines, Pos(row, col), s0, 0, 3 * (dr + 1))
      {
        RevealNeighbourRow(row, col, dr, 3 * (dr + 1));
        SweepToJoin(rows, cols, mines, Pos(row, col), s0, 0, 3 * (dr + 1), 3 * (dr + 1) + 3);
      }
      SweepToRest(rows, cols, mines, Pos(row, col), s0, 0, 9);
      SweepDone(rows, cols, mines, Pos(row, col), State());
    }

    /** The row row + dr of the scan around (row, col), cell by cell from
        column col - 1 to col + 1; k counts the cells of the block scanned
        before it. The new state is the next three steps of the sweep. */
    method RevealNeighbourRow(row: int, col: int, dr: int, ghost k: nat)
      requires Shaped(board, rows, cols) && !firstClick && InBounds(rows, cols, Pos(row, col))
      requires -1 <= dr <= 1 && k == 3 * (dr + 1)
      modifies this`board, this`gameOver, this`firstClick, this`overlay
      decreases HiddenCount(board), 4
      ensures Shaped(board, rows, cols) && !firstClick && HiddenCount(board) <= old(HiddenCount(board))
      ensures State() == SweepTo(rows, cols, mines, Pos(row, col), old(State()), k, k + 3)
    {
      ghost var h0 := HiddenCount(board);
      ghost var s0 := State();
      for dc := -1 to 2
        invariant Shaped(board, rows, cols) && !firstClick && HiddenCount(board) <= h0
        invariant State() == SweepTo(rows, cols, mines, Pos(row, col), s0, k, k + (dc + 1))
      {
        RevealNeighbour(row, col, dr, dc, k + (dc + 1));
      }
    }

    /** The neighbour (row + dr, col + dc), the k-th cell of the 3x3 block:
        it is clicked when it is on the board, hidden and not a mine. The new
        state is the k-th step of the sweep. */
    method RevealNeighbour(row: int, col: int, dr: int, dc: int, ghost k: nat)
      requires Shaped(board, rows, cols) && !firstClick && InBounds(rows, cols, Pos(row, col))
      requires -1 <= dr <= 1 && -1 <= dc <= 1 && k == 3 * (dr + 1) + (dc + 1)
      modifies this`board, this`gameOver, this`firstClick, this`overlay
      decreases HiddenCount(board), 3
      ensures Shaped(board, rows, cols) && !firstClick && HiddenCount(board) <= old(HiddenCount(board))
      ensures State() == SweepStep(rows, cols, mines, Pos(row, col), old(State()), k)
    {
      var r := row + dr;
      var c := col + dc;
      ScanAt(Pos(row, col), dr, dc);
      ghost var s := State();
      if r >= 0 && r < rows && c >= 0 && c < cols && !board[r][c].revealed && !board[r][c].mine {
        HandleCellClick(r, c, []);
        SweepStepClicks(rows, cols, mines, Pos(row, col), s, k, State());
      } else {
        SweepStepSkips(rows, cols, mines, Pos(row, col), s, k);
      }
    }
  }
}
