/** The rules of the game on plain values: the size presets, what holds of
    the global state between and during user actions, and what one left
    click does, stated as a relation between the state before the click and
    the state after it. */
module Rules {
  import opened Grid
  import opened Flood
  import opened Placement

  datatype Size = Size(rows: nat, cols: nat, mines: nat)

  /** The three presets, cycled by the size button. */
  const GameSizes: seq<Size> := [Size(9, 9, 10), Size(16, 16, 40), Size(22, 22, 99)]

  datatype Overlay = OverlayHidden | OverlayShown(message: string)

  /** The part of the engine's state that a click changes. */
  datatype GameState = GameState(board: Board, gameOver: bool, firstClick: bool, overlay: Overlay)

  /** The overlay that goes with a finished or unfinished game. */
  function OverlayFor(gameOver: bool, lost: bool): Overlay {
    if !gameOver then OverlayHidden
    else if lost then OverlayShown("Game Over!")
    else OverlayShown("You Win!")
  }

  /** The size button moves to the next preset, after the last back to the first. */
  function NextSizeIndex(i: nat): (r: nat)
    ensures r < |GameSizes|
    ensures i < |GameSizes| - 1 ==> r == i + 1
    ensures i == |GameSizes| - 1 ==> r == 0
  {
    (i + 1) % |GameSizes|
  }

  /** Every preset leaves room for its mines outside any 3x3 block. */
  lemma PresetsLeaveRoom(i: nat)
    requires i < |GameSizes|
    ensures GameSizes[i].mines + 9 <= GameSizes[i].rows * GameSizes[i].cols
    ensures GameSizes[i].rows > 0 && GameSizes[i].cols > 0
  {
  }

  /** The dimensions are those of preset `idx` and the board has them. */
  ghost predicate SizedState(idx: nat, rows: nat, cols: nat, mines: nat, board: Board) {
    && idx < |GameSizes|
    && rows == GameSizes[idx].rows
    && cols == GameSizes[idx].cols
    && mines == GameSizes[idx].mines
    && Shaped(board, rows, cols)
  }

  /** What holds throughout, also in the middle of a click:
      the counts are right; before the first click there are no mines, no
      revealed cells and the game is not over, after it exactly `mines`
      mines; a finished game has every non-mine cell revealed; a revealed
      mine means the game is lost and the whole board is revealed; the
      overlay fits the outcome. */
  ghost predicate ConsistentState(idx: nat, rows: nat, cols: nat, mines: nat, board: Board,
                                  gameOver: bool, firstClick: bool, overlay: Overlay) {
    && SizedState(idx, rows, cols, mines, board)
    && CountsCorrect(board, rows, cols)
    && (firstClick ==> Mines(board) == {} && Revealed(board) == {} && !gameOver)
    && (!firstClick ==> |Mines(board)| == mines)
    && (gameOver ==> AllSafeRevealed(board, rows, cols))
    && (MineRevealed(board, rows, cols) ==> gameOver && EveryCellRevealed(board, rows, cols))
    && overlay == OverlayFor(gameOver, MineRevealed(board, rows, cols))
  }

  /** Between user actions, moreover, the game is over as soon as every
      non-mine cell is revealed. */
  ghost predicate ValidState(idx: nat, rows: nat, cols: nat, mines: nat, board: Board,
                             gameOver: bool, firstClick: bool, overlay: Overlay) {
    && ConsistentState(idx, rows, cols, mines, board, gameOver, firstClick, overlay)
    && (AllSafeRevealed(board, rows, cols) ==> gameOver)
  }

  /** Flagging a cell keeps a valid state valid. */
  lemma ToggledValid(idx: nat, rows: nat, cols: nat, mines: nat, board: Board,
                     gameOver: bool, firstClick: bool, overlay: Overlay, p: Pos)
    requires ValidState(idx, rows, cols, mines, board, gameOver, firstClick, overlay)
    requires InBounds(rows, cols, p)
    ensures ValidState(idx, rows, cols, mines, Toggled(board, p), gameOver, firstClick, overlay)
  {
    ToggledKeeps(board, rows, cols, p);
    ToggledFlag(board, rows, cols, p);
    SameOutcome(board, Toggled(board, p), rows, cols);
  }

  // ---------------------------------------------------------------------
  // One left click.

  /** The guard of a left click: a finished game, a flagged cell or a
      revealed cell ignore it. */
  predicate Ignored(b: Board, rows: nat, cols: nat, gameOver: bool, p: Pos)
    requires Shaped(b, rows, cols) && InBounds(rows, cols, p)
  {
    gameOver || b[p.row][p.col].flagged || b[p.row][p.col].revealed
  }

  /** A left click on p turns the state (b0, over0, first0) into
      (b, over, first) when:
      an ignored click changes nothing; an accepted one leaves the first
      click behind and p revealed; the first accepted one places the mines
      the draws give, none in the block around p, so that p has count zero
      and its whole block is opened; a later click changes revealed flags
      only; flags are never touched and nothing is hidden again; a mine at
      p ends the game lost with the whole board revealed; a safe p floods
      from p by the flood rules and leaves no mine showing, and the game is
      then over exactly when every non-mine cell is revealed. */
  ghost predicate Clicked(rows: nat, cols: nat, mines: nat, draws: seq<Pos>, p: Pos,
                          b0: Board, over0: bool, first0: bool, b: Board, over: bool, first: bool) {
    && Shaped(b0, rows, cols) && Shaped(b, rows, cols) && InBounds(rows, cols, p)
    && var ignored := Ignored(b0, rows, cols, over0, p);
       && (ignored ==> b == b0 && over == over0 && first == first0)
       && (!ignored ==> !first && b[p.row][p.col].revealed)
       && (!ignored && first0 ==>
             && Mines(b) == Place(draws, p, {}, mines)
             && Mines(b) * Block(rows, cols, p) == {}
             && !b[p.row][p.col].mine && b[p.row][p.col].adjacentMines == 0
             && ZeroClosed(b, rows, cols, p))
       && (!first0 ==> RevealOnly(b0, b, rows, cols))
       && Flagged(b) == Flagged(b0) && Revealed(b0) <= Revealed(b)
       && (!ignored && b[p.row][p.col].mine ==>
             over && MineRevealed(b, rows, cols) && EveryCellRevealed(b, rows, cols))
       && (!b[p.row][p.col].mine ==>
             Flooded(b, rows, cols, Revealed(b0)) && ReachedFrom(b, rows, cols, Revealed(b0), p))
       && (!ignored && !b[p.row][p.col].mine ==>
             !MineRevealed(b, rows, cols) && over == AllSafeRevealed(b, rows, cols))
  }

  /** The board b1 of an accepted click once the mine question is settled:
      from b0 only mines and counts may have changed, the counts are right,
      there are `mines` mines and none is showing; on the first click the
      mines are those the draws give, away from p; on a later click the
      board is as it was. */
  ghost predicate Placed(rows: nat, cols: nat, mines: nat, draws: seq<Pos>, p: Pos,
                         b0: Board, first0: bool, b1: Board) {
    && Shaped(b0, rows, cols) && Shaped(b1, rows, cols) && InBounds(rows, cols, p)
    && CountsCorrect(b1, rows, cols) && |Mines(b1)| == mines && !MineRevealed(b1, rows, cols)
    && (forall i, j | 0 <= i < rows && 0 <= j < cols ::
          b1[i][j].revealed == b0[i][j].revealed && b1[i][j].flagged == b0[i][j].flagged)
    && Revealed(b1) == Revealed(b0) && HiddenCount(b1) == HiddenCount(b0) && Flagged(b1) == Flagged(b0)
    && (first0 ==>
          && Mines(b1) == Place(draws, p, {}, mines)
          && Mines(b1) * Block(rows, cols, p) == {}
          && !b1[p.row][p.col].mine && b1[p.row][p.col].adjacentMines == 0)
    && (!first0 ==> b1 == b0)
  }

  /** An ignored click satisfies the click relation with nothing changed. */
  lemma IgnoredClick(rows: nat, cols: nat, mines: nat, draws: seq<Pos>, p: Pos,
                     b0: Board, over0: bool, first0: bool)
    requires Shaped(b0, rows, cols) && InBounds(rows, cols, p) && Ignored(b0, rows, cols, over0, p)
    ensures Clicked(rows, cols, mines, draws, p, b0, over0, first0, b0, over0, first0)
  {
    FloodedNothingNew(b0, rows, cols, p);
  }

  /** The first accepted click, after placement: exactly `mines` mines, none
      in the block around the clicked cell, which therefore has count zero,
      and, as nothing was revealed yet, no revealed mine. */
  lemma PlacedFirst(idx: nat, rows: nat, cols: nat, mines: nat, draws: seq<Pos>, p: Pos,
                    b0: Board, over0: bool, first0: bool, overlay0: Overlay)
    requires ValidState(idx, rows, cols, mines, b0, over0, first0, overlay0) && InBounds(rows, cols, p)
    requires first0 && DrawsSuffice(rows, cols, mines, draws, p)
    ensures Placed(rows, cols, mines, draws, p, b0, first0, Seeded(b0, rows, cols, mines, draws, p))
  {
    var b1 := Seeded(b0, rows, cols, mines, draws, p);
    SeededKeeps(b0, rows, cols, mines, draws, p);
    SeededMines(b0, rows, cols, mines, draws, p);
    assert Mines(b0) == {} && Revealed(b0) == {};
    FirstMines(rows, cols, mines, draws, p, b1);
  }

  /** The mines placed on a board without mines or reveals. */
  lemma FirstMines(rows: nat, cols: nat, mines: nat, draws: seq<Pos>, p: Pos, b1: Board)
    requires Shaped(b1, rows, cols) && InBounds(rows, cols, p)
    requires DrawsSuffice(rows, cols, mines, draws, p)
    requires Mines(b1) == Place(draws, p, {}, mines) && Revealed(b1) == {} && CountsCorrect(b1, rows, cols)
    ensures |Mines(b1)| == mines && Mines(b1) * Block(rows, cols, p) == {}
    ensures !b1[p.row][p.col].mine && b1[p.row][p.col].adjacentMines == 0
    ensures !MineRevealed(b1, rows, cols)
  {
    FirstPlacement(rows, cols, mines, draws, p);
    BlockCard(rows, cols, p);
    var blk := Block(rows, cols, p);
    assert Mines(b1) * blk == {} && p in blk;
    assert blk * Mines(b1) == {};
    assert p !in Mines(b1) * blk;
    assert p !in Mines(b1);
    assert !b1[p.row][p.col].mine;
    forall i, j | 0 <= i < rows && 0 <= j < cols
      ensures !b1[i][j].revealed
    {
      assert Pos(i, j) !in Revealed(b1);
    }
  }

  /** A later accepted click leaves the board as it is. */
  lemma PlacedLater(idx: nat, rows: nat, cols: nat, mines: nat, draws: seq<Pos>, p: Pos,
                    b0: Board, over0: bool, first0: bool, overlay0: Overlay)
    requires ValidState(idx, rows, cols, mines, b0, over0, first0, overlay0) && InBounds(rows, cols, p)
    requires !over0 && !first0
    ensures Placed(rows, cols, mines, draws, p, b0, first0, b0)
  {
  }

  /** Revealing the clicked hidden cell p. */
  lemma RevealClicked(b1: Board, rows: nat, cols: nat, p: Pos)
    requires Shaped(b1, rows, cols) && InBounds(rows, cols, p)
    requires !b1[p.row][p.col].revealed && !MineRevealed(b1, rows, cols)
    ensures var bp := Update(b1, p, b1[p.row][p.col].(revealed := true));
      && RevealOnly(b1, bp, rows, cols)
      && Mines(bp) == Mines(b1) && Flagged(bp) == Flagged(b1)
      && Revealed(bp) == Revealed(b1) + {p} && HiddenCount(bp) < HiddenCount(b1)
      && (CountsCorrect(b1, rows, cols) ==> CountsCorrect(bp, rows, cols))
      && (MineRevealed(bp, rows, cols) <==> b1[p.row][p.col].mine)
  {
    var bp := Update(b1, p, b1[p.row][p.col].(revealed := true));
    UpdateSets(b1, p, b1[p.row][p.col].(revealed := true));
    assert RevealOnly(b1, bp, rows, cols);
    RevealOnlyKeeps(b1, bp, rows, cols);
    HiddenCountReveal(b1, p, b1[p.row][p.col].(revealed := true));
    RevealedMineIsClicked(b1, rows, cols, p);
  }

  /** After revealing p on a board without a revealed mine, a mine is revealed
      exactly when p is one. */
  lemma RevealedMineIsClicked(b1: Board, rows: nat, cols: nat, p: Pos)
    requires Shaped(b1, rows, cols) && InBounds(rows, cols, p) && !MineRevealed(b1, rows, cols)
    ensures var bp := Update(b1, p, b1[p.row][p.col].(revealed := true));
      MineRevealed(bp, rows, cols) <==> b1[p.row][p.col].mine
  {
    var bp: Board := Update(b1, p, b1[p.row][p.col].(revealed := true));
    if b1[p.row][p.col].mine {
      assert bp[p.row][p.col].mine && bp[p.row][p.col].revealed;
    }
  }

  /** A click on a mine: revealing the whole board loses the game. */
  lemma ClickedMine(idx: nat, rows: nat, cols: nat, mines: nat, b1: Board, bp: Board, p: Pos)
    requires SizedState(idx, rows, cols, mines, bp) && InBounds(rows, cols, p)
    requires RevealOnly(b1, bp, rows, cols) && CountsCorrect(bp, rows, cols) && |Mines(bp)| == mines
    requires bp[p.row][p.col].mine && bp[p.row][p.col].revealed
    ensures var r := AllRevealed(bp, rows, cols);
      && ValidState(idx, rows, cols, mines, r, true, false, OverlayShown("Game Over!"))
      && RevealOnly(b1, r, rows, cols) && Flagged(r) == Flagged(b1) && Revealed(b1) <= Revealed(r)
      && EveryCellRevealed(r, rows, cols) && MineRevealed(r, rows, cols)
      && r[p.row][p.col].mine
  {
    var r := AllRevealed(bp, rows, cols);
    AllRevealedFacts(bp, rows, cols);
    RevealOnlyTrans(b1, bp, r, rows, cols);
    RevealOnlyKeeps(bp, r, rows, cols);
    RevealOnlyKeeps(b1, r, rows, cols);
    assert r[p.row][p.col].mine && r[p.row][p.col].revealed;
  }

  /** The accepted click hit a mine at p: once p is revealed and then the
      whole board, the game is over and lost, the state is valid and the
      click relation holds. */
  lemma MineClickOutcome(idx: nat, rows: nat, cols: nat, mines: nat, draws: seq<Pos>, p: Pos,
                         b0: Board, over0: bool, first0: bool, overlay0: Overlay, b1: Board,
                         b: Board, over: bool, first: bool, overlay: Overlay)
    requires ValidState(idx, rows, cols, mines, b0, over0, first0, overlay0)
    requires InBounds(rows, cols, p) && !Ignored(b0, rows, cols, over0, p)
    requires Placed(rows, cols, mines, draws, p, b0, first0, b1) && b1[p.row][p.col].mine
    requires b == AllRevealed(Update(b1, p, b1[p.row][p.col].(revealed := true)), rows, cols)
    requires over && !first && overlay == OverlayShown("Game Over!")
    ensures ValidState(idx, rows, cols, mines, b, over, first, overlay)
    ensures Clicked(rows, cols, mines, draws, p, b0, over0, first0, b, over, first)
  {
    var bp := Update(b1, p, b1[p.row][p.col].(revealed := true));
    RevealClicked(b1, rows, cols, p);
    ClickedMine(idx, rows, cols, mines, b1, bp, p);
  }

  /** The accepted click found no mine at p: with p revealed the state is
      consistent, shows no mine, and has fewer hidden cells than before. */
  lemma SafeRevealed(idx: nat, rows: nat, cols: nat, mines: nat, draws: seq<Pos>, p: Pos,
                     b0: Board, over0: bool, first0: bool, overlay0: Overlay, b1: Board)
    requires ValidState(idx, rows, cols, mines, b0, over0, first0, overlay0)
    requires InBounds(rows, cols, p) && !Ignored(b0, rows, cols, over0, p)
    requires Placed(rows, cols, mines, draws, p, b0, first0, b1) && !b1[p.row][p.col].mine
    ensures var bp := Update(b1, p, b1[p.row][p.col].(revealed := true));
      && ConsistentState(idx, rows, cols, mines, bp, false, false, overlay0)
      && !MineRevealed(bp, rows, cols) && HiddenCount(bp) < HiddenCount(b0)
  {
    RevealClicked(b1, rows, cols, p);
  }

  /** A click on a safe cell p, revealed in bp and flooded from there to b2,
      measured from b1, the board before the cell was revealed. */
  lemma ClickedSafe(b1: Board, b2: Board, rows: nat, cols: nat, p: Pos)
    requires Shaped(b1, rows, cols) && InBounds(rows, cols, p)
    requires var c := b1[p.row][p.col]; !c.mine && !c.flagged && !c.revealed
    requires !MineRevealed(b1, rows, cols)
    requires var bp := Update(b1, p, b1[p.row][p.col].(revealed := true));
      && RevealOnly(b1, bp, rows, cols)
      && RevealOnly(bp, b2, rows, cols)
      && Flooded(b2, rows, cols, Revealed(bp))
      && (b1[p.row][p.col].adjacentMines == 0 ==>
            ZeroClosed(b2, rows, cols, p) && ReachedAround(b2, rows, cols, Revealed(bp), p))
      && (b1[p.row][p.col].adjacentMines != 0 ==> b2 == bp)
    ensures RevealOnly(b1, b2, rows, cols)
    ensures Mines(b2) == Mines(b1) && Flagged(b2) == Flagged(b1) && Revealed(b1) <= Revealed(b2)
    ensures Flooded(b2, rows, cols, Revealed(b1)) && ReachedFrom(b2, rows, cols, Revealed(b1), p)
    ensures !MineRevealed(b2, rows, cols)
    ensures b2[p.row][p.col] == b1[p.row][p.col].(revealed := true)
  {
    var bp := Update(b1, p, b1[p.row][p.col].(revealed := true));
    RevealOnlyTrans(b1, bp, b2, rows, cols);
    RevealOnlyKeeps(b1, b2, rows, cols);
    FloodedFromClick(b1, b2, rows, cols, p);
    ReachedFromClick(b1, b2, rows, cols, p);
    FloodedNoMine(b1, b2, rows, cols);
  }

  /** The accepted click found no mine at p; p was revealed, a zero count
      swept its block, and the win test set `over`: the click relation holds. */
  lemma SafeClickOutcome(rows: nat, cols: nat, mines: nat, draws: seq<Pos>, p: Pos,
                         b0: Board, over0: bool, first0: bool, b1: Board, bp: Board,
                         b: Board, over: bool, first: bool)
    requires InBounds(rows, cols, p) && Shaped(b0, rows, cols) && !Ignored(b0, rows, cols, over0, p)
    requires Placed(rows, cols, mines, draws, p, b0, first0, b1) && !b1[p.row][p.col].mine
    requires bp == Update(b1, p, b1[p.row][p.col].(revealed := true))
    requires Shaped(b, rows, cols) && over == AllSafeRevealed(b, rows, cols) && !first
    requires b1[p.row][p.col].adjacentMines == 0 ==> Swept(bp, b, rows, cols, p)
    requires b1[p.row][p.col].adjacentMines != 0 ==> b == bp
    ensures Clicked(rows, cols, mines, draws, p, b0, over0, first0, b, over, first)
  {
    RevealClicked(b1, rows, cols, p);
    if b1[p.row][p.col].adjacentMines != 0 {
      FloodedNothingNew(bp, rows, cols, p);
    }
    ClickedSafe(b1, b, rows, cols, p);
  }

  /** The flood clicks a hidden non-mine neighbour only in a state where
      that click may be made: the game is still on, so the state is valid. */
  lemma NeighbourClickable(idx: nat, rows: nat, cols: nat, mines: nat, b0: Board, b: Board,
                           gameOver: bool, overlay: Overlay, p: Pos, q: Pos)
    requires ConsistentState(idx, rows, cols, mines, b, gameOver, false, overlay)
    requires Sweeping(b0, b, rows, cols, p, q.row, q.col)
    requires InBounds(rows, cols, q) && !b[q.row][q.col].revealed && !b[q.row][q.col].mine
    ensures ValidState(idx, rows, cols, mines, b, gameOver, false, overlay) && !gameOver
    ensures HiddenCount(b) <= HiddenCount(b0)
  {
    RevealOnlyKeeps(b0, b, rows, cols);
  }

  /** The flood's click on neighbour q satisfied the click relation: the
      scan moves past q. */
  lemma NeighbourClicked(rows: nat, cols: nat, mines: nat, p: Pos, q: Pos, b0: Board,
                         b1: Board, over1: bool, first1: bool, b2: Board, over2: bool, first2: bool)
    requires Sweeping(b0, b1, rows, cols, p, q.row, q.col) && InBounds(rows, cols, q) && Near(p, q)
    requires !b1[q.row][q.col].revealed && !b1[q.row][q.col].mine && !over1 && !first1
    requires Clicked(rows, cols, mines, [], q, b1, over1, first1, b2, over2, first2)
    ensures Sweeping(b0, b2, rows, cols, p, q.row, q.col + 1) && !first2
  {
    if b1[q.row][q.col].flagged {
      FloodedNothingNew(b1, rows, cols, q);
    } else {
      assert !b2[q.row][q.col].mine && b2[q.row][q.col].revealed;
    }
    SweepClicked(b0, b1, b2, rows, cols, p, q);
  }

  // ---------------------------------------------------------------------
  // The click as a function of the state: handleCellClick and
  // revealAdjacent, step for step, on values.

  /** The k-th cell of the 3x3 block around p in row-major order (k < 9);
      ScanPos(p, 9) is the position where the scan of the block ends. */
  function ScanPos(p: Pos, k: nat): Pos {
    Pos(p.row + k / 3 - 1, p.col + k % 3 - 1)
  }

  /** The win test: the game is won, and the overlay says so, when the
      revealed non-mine cells number rows * cols - mines. */
  function WinChecked(rows: nat, cols: nat, mines: nat, s: GameState): (r: GameState)
    requires Shaped(s.board, rows, cols)
    ensures r.board == s.board && r.firstClick == s.firstClick
    ensures s.gameOver ==> r.gameOver
    ensures r.gameOver && !s.gameOver ==> r.overlay == OverlayShown("You Win!")
  {
    if |Revealed(s.board) - Mines(s.board)| == rows * cols - mines
    then s.(gameOver := true, overlay := OverlayShown("You Win!"))
    else s
  }

  /** The state of an accepted click once the mine question is settled:
      the first click seeds the mines and leaves the first click behind, a
      later one finds the mines in place. */
  ghost function Armed(rows: nat, cols: nat, mines: nat, draws: seq<Pos>, p: Pos, s: GameState): (r: GameState)
    requires Shaped(s.board, rows, cols)
    ensures Shaped(r.board, rows, cols) && !r.firstClick
  {
    if s.firstClick then s.(board := Seeded(s.board, rows, cols, mines, draws, p), firstClick := false) else s
  }

  /** Revealing a hidden cell leaves one hidden cell fewer. */
  lemma OpenShrinks(b: Board, rows: nat, cols: nat, p: Pos)
    requires Shaped(b, rows, cols) && InBounds(rows, cols, p) && !b[p.row][p.col].revealed
    ensures HiddenCount(Update(b, p, b[p.row][p.col].(revealed := true))) < HiddenCount(b)
  {
    HiddenCountReveal(b, p, b[p.row][p.col].(revealed := true));
  }

  /** A left click on p: ignored on a finished game, a flagged or a revealed
      cell; otherwise the mines are settled and p is opened. */
  ghost function Click(rows: nat, cols: nat, mines: nat, draws: seq<Pos>, p: Pos, s: GameState): (r: GameState)
    requires Shaped(s.board, rows, cols) && InBounds(rows, cols, p)
    ensures Shaped(r.board, rows, cols) && HiddenCount(r.board) <= HiddenCount(s.board)
    ensures !s.firstClick ==> !r.firstClick
    decreases HiddenCount(s.board), 1, 1
  {
    SeededKeeps(s.board, rows, cols, mines, draws, p);
    if Ignored(s.board, rows, cols, s.gameOver, p) then s
    else Open(rows, cols, mines, p, Armed(rows, cols, mines, draws, p, s))
  }

  /** Opening the hidden cell p once the mines are in place: a mine ends the
      game lost with the board revealed; a safe p with count zero sweeps its
      block; then the win test. */
  ghost function Open(rows: nat, cols: nat, mines: nat, p: Pos, s: GameState): (r: GameState)
    requires Shaped(s.board, rows, cols) && InBounds(rows, cols, p)
    requires !s.firstClick && !s.board[p.row][p.col].revealed
    ensures Shaped(r.board, rows, cols) && HiddenCount(r.board) <= HiddenCount(s.board) && !r.firstClick
    decreases HiddenCount(s.board), 1, 0
  {
    var bp := Update(s.board, p, s.board[p.row][p.col].(revealed := true));
    OpenShrinks(s.board, rows, cols, p);
    if bp[p.row][p.col].mine then
      AllRevealedFacts(bp, rows, cols);
      RevealOnlyKeeps(bp, AllRevealed(bp, rows, cols), rows, cols);
      GameState(AllRevealed(bp, rows, cols), true, false, OverlayShown("Game Over!"))
    else
      var s1 := s.(board := bp);
      var s2 := if bp[p.row][p.col].adjacentMines == 0 then Sweep(rows, cols, mines, p, s1, 0) else s1;
      WinChecked(rows, cols, mines, s2)
  }

  /** An accepted click opens p in the state where the mines are settled. */
  lemma ClickOpens(rows: nat, cols: nat, mines: nat, draws: seq<Pos>, p: Pos, s: GameState, a: GameState)
    requires Shaped(s.board, rows, cols) && InBounds(rows, cols, p) && !Ignored(s.board, rows, cols, s.gameOver, p)
    requires a == Armed(rows, cols, mines, draws, p, s)
    ensures !a.board[p.row][p.col].revealed
    ensures Click(rows, cols, mines, draws, p, s) == Open(rows, cols, mines, p, a)
  {
    SeededKeeps(s.board, rows, cols, mines, draws, p);
  }

  /** Opening a mine, as the click handler performs it: p revealed, the
      game lost with the board revealed. */
  lemma OpensMine(rows: nat, cols: nat, mines: nat, p: Pos, s: GameState, r: GameState)
    requires Shaped(s.board, rows, cols) && InBounds(rows, cols, p)
    requires !s.firstClick && !s.board[p.row][p.col].revealed && s.board[p.row][p.col].mine
    requires r == GameState(AllRevealed(Update(s.board, p, s.board[p.row][p.col].(revealed := true)), rows, cols),
                            true, false, OverlayShown("Game Over!"))
    ensures r == Open(rows, cols, mines, p, s)
  {
  }

  /** Opening a safe cell, as the click handler performs it: p revealed,
      the block swept on a zero count, then the win test. */
  lemma OpensSafe(rows: nat, cols: nat, mines: nat, p: Pos, s: GameState, bp: Board, s2: GameState, r: GameState)
    requires Shaped(s.board, rows, cols) && InBounds(rows, cols, p)
    requires !s.firstClick && !s.board[p.row][p.col].revealed && !s.board[p.row][p.col].mine
    requires bp == Update(s.board, p, s.board[p.row][p.col].(revealed := true))
    requires s2 == if bp[p.row][p.col].adjacentMines == 0 then Sweep(rows, cols, mines, p, s.(board := bp), 0)
                   else s.(board := bp)
    requires r == WinChecked(rows, cols, mines, s2)
    ensures r == Open(rows, cols, mines, p, s)
  {
  }

  /** Whether the sweep around p clicks q: on the board, hidden and no mine. */
  predicate SweepClicks(rows: nat, cols: nat, s: GameState, q: Pos)
    requires Shaped(s.board, rows, cols)
  {
    InBounds(rows, cols, q) && !s.board[q.row][q.col].revealed && !s.board[q.row][q.col].mine
  }

  /** The sweep of the block around p from its k-th cell on: each cell on
      the board that is still hidden and no mine gets a click of its own. */
  ghost function Sweep(rows: nat, cols: nat, mines: nat, p: Pos, s: GameState, k: nat): (r: GameState)
    requires Shaped(s.board, rows, cols) && k <= 9 && !s.firstClick
    ensures Shaped(r.board, rows, cols) && HiddenCount(r.board) <= HiddenCount(s.board) && !r.firstClick
    decreases HiddenCount(s.board), 2, 9 - k, 1
  {
    if k == 9 then s
    else Sweep(rows, cols, mines, p, SweepStep(rows, cols, mines, p, s, k), k + 1)
  }

  /** The k-th cell of the sweep around p: clicked when it is on the board,
      hidden and no mine, skipped otherwise. */
  ghost function SweepStep(rows: nat, cols: nat, mines: nat, p: Pos, s: GameState, k: nat): (r: GameState)
    requires Shaped(s.board, rows, cols) && k < 9 && !s.firstClick
    ensures Shaped(r.board, rows, cols) && HiddenCount(r.board) <= HiddenCount(s.board) && !r.firstClick
    decreases HiddenCount(s.board), 2, 9 - k, 0
  {
    var q := ScanPos(p, k);
    if SweepClicks(rows, cols, s, q) then Click(rows, cols, mines, [], q, s) else s
  }

  /** The sweep from the k-th cell is the sweep from the next one after the k-th step. */
  lemma SweepUnfold(rows: nat, cols: nat, mines: nat, p: Pos, s: GameState, k: nat)
    requires Shaped(s.board, rows, cols) && k < 9 && !s.firstClick
    ensures Sweep(rows, cols, mines, p, s, k) ==
      Sweep(rows, cols, mines, p, SweepStep(rows, cols, mines, p, s, k), k + 1)
  {
  }

  /** The k-th step of the sweep when it clicks its cell. */
  lemma SweepStepClicks(rows: nat, cols: nat, mines: nat, p: Pos, s: GameState, k: nat, t: GameState)
    requires Shaped(s.board, rows, cols) && k < 9 && !s.firstClick && SweepClicks(rows, cols, s, ScanPos(p, k))
    requires t == Click(rows, cols, mines, [], ScanPos(p, k), s)
    ensures t == SweepStep(rows, cols, mines, p, s, k)
  {
  }

  /** The k-th step of the sweep when it skips its cell. */
  lemma SweepStepSkips(rows: nat, cols: nat, mines: nat, p: Pos, s: GameState, k: nat)
    requires Shaped(s.board, rows, cols) && k < 9 && !s.firstClick && !SweepClicks(rows, cols, s, ScanPos(p, k))
    ensures s == SweepStep(rows, cols, mines, p, s, k)
  {
  }

  /** The steps of the sweep around p from its k-th cell up to, not
      including, its j-th. */
  ghost function SweepTo(rows: nat, cols: nat, mines: nat, p: Pos, s: GameState, k: nat, j: nat): (r: GameState)
    requires Shaped(s.board, rows, cols) && k <= j <= 9 && !s.firstClick
    ensures Shaped(r.board, rows, cols) && HiddenCount(r.board) <= HiddenCount(s.board) && !r.firstClick
    decreases j
  {
    if j == k then s
    else SweepStep(rows, cols, mines, p, SweepTo(rows, cols, mines, p, s, k, j - 1), j - 1)
  }

  /** Taking the steps before the j-th and then sweeping from the j-th is
      the sweep from the k-th. */
  lemma {:induction false} SweepToRest(rows: nat, cols: nat, mines: nat, p: Pos, s: GameState, k: nat, j: nat)
    requires Shaped(s.board, rows, cols) && k <= j <= 9 && !s.firstClick
    ensures Sweep(rows, cols, mines, p, SweepTo(rows, cols, mines, p, s, k, j), j) == Sweep(rows, cols, mines, p, s, k)
    decreases j
  {
    if j != k {
      var t := SweepTo(rows, cols, mines, p, s, k, j - 1);
      SweepUnfold(rows, cols, mines, p, t, j - 1);
      SweepToRest(rows, cols, mines, p, s, k, j - 1);
    }
  }

  /** Steps k to j followed by steps j to l are steps k to l. */
  lemma {:induction false} SweepToJoin(rows: nat, cols: nat, mines: nat, p: Pos, s: GameState, k: nat, j: nat, l: nat)
    requires Shaped(s.board, rows, cols) && k <= j <= l <= 9 && !s.firstClick
    ensures SweepTo(rows, cols, mines, p, SweepTo(rows, cols, mines, p, s, k, j), j, l) == SweepTo(rows, cols, mines, p, s, k, l)
    decreases l
  {
    if l != j {
      SweepToJoin(rows, cols, mines, p, s, k, j, l - 1);
    }
  }

  /** The sweep from the end of the scan leaves the state as it is. */
  lemma SweepDone(rows: nat, cols: nat, mines: nat, p: Pos, s: GameState)
    requires Shaped(s.board, rows, cols) && !s.firstClick
    ensures Sweep(rows, cols, mines, p, s, 9) == s
  {
  }

  /** The win test on a consistent state with no mine showing gives a valid
      state that is over exactly when every non-mine cell is revealed. */
  lemma WinSound(idx: nat, rows: nat, cols: nat, mines: nat, s: GameState)
    requires ConsistentState(idx, rows, cols, mines, s.board, s.gameOver, s.firstClick, s.overlay)
    requires !s.firstClick && !MineRevealed(s.board, rows, cols)
    ensures var r := WinChecked(rows, cols, mines, s);
      && ValidState(idx, rows, cols, mines, r.board, r.gameOver, r.firstClick, r.overlay)
      && r.board == s.board && r.firstClick == s.firstClick
      && r.gameOver == AllSafeRevealed(r.board, rows, cols)
  {
    WinCount(s.board, rows, cols, mines);
  }

  /** The cells the scan visits are in the block around its centre. */
  lemma ScanAt(p: Pos, dr: int, dc: int)
    requires -1 <= dr <= 1 && -1 <= dc <= 1
    ensures ScanPos(p, 3 * (dr + 1) + (dc + 1)) == Pos(p.row + dr, p.col + dc)
  {
  }

  lemma ScanNear(p: Pos, k: nat)
    requires k < 9
    ensures Near(p, ScanPos(p, k))
  {
  }

  /** The scan moves from the k-th cell of the block to the next. */
  lemma ScanNext(b0: Board, b: Board, rows: nat, cols: nat, p: Pos, k: nat)
    requires k < 9 && Sweeping(b0, b, rows, cols, p, ScanPos(p, k).row, ScanPos(p, k).col + 1)
    ensures Sweeping(b0, b, rows, cols, p, ScanPos(p, k + 1).row, ScanPos(p, k + 1).col)
  {
    if k % 3 == 2 {
      SweepRowEnd(b0, b, rows, cols, p, ScanPos(p, k).row);
    }
  }

  /** From a valid state, a click leads to a valid state and its outcome
      satisfies the click relation. */
  lemma ClickSound(idx: nat, rows: nat, cols: nat, mines: nat, draws: seq<Pos>, p: Pos, s: GameState)
    requires ValidState(idx, rows, cols, mines, s.board, s.gameOver, s.firstClick, s.overlay)
    requires InBounds(rows, cols, p)
    requires s.firstClick ==> DrawsSuffice(rows, cols, mines, draws, p)
    ensures var r := Click(rows, cols, mines, draws, p, s);
      && ValidState(idx, rows, cols, mines, r.board, r.gameOver, r.firstClick, r.overlay)
      && Clicked(rows, cols, mines, draws, p, s.board, s.gameOver, s.firstClick, r.board, r.gameOver, r.firstClick)
    decreases HiddenCount(s.board), 1, 1
  {
    if Ignored(s.board, rows, cols, s.gameOver, p) {
      IgnoredClick(rows, cols, mines, draws, p, s.board, s.gameOver, s.firstClick);
    } else {
      ArmedPlaced(idx, rows, cols, mines, draws, p, s);
      OpenSound(idx, rows, cols, mines, draws, p, s, Armed(rows, cols, mines, draws, p, s));
    }
  }

  /** ClickSound for a state given by its fields, as the engine holds them. */
  lemma ClickedState(idx: nat, rows: nat, cols: nat, mines: nat, draws: seq<Pos>, p: Pos,
                     b0: Board, over0: bool, first0: bool, overlay0: Overlay,
                     b: Board, over: bool, first: bool, overlay: Overlay)
    requires ValidState(idx, rows, cols, mines, b0, over0, first0, overlay0)
    requires InBounds(rows, cols, p)
    requires first0 ==> DrawsSuffice(rows, cols, mines, draws, p)
    requires GameState(b, over, first, overlay) == Click(rows, cols, mines, draws, p, GameState(b0, over0, first0, overlay0))
    ensures ValidState(idx, rows, cols, mines, b, over, first, overlay)
    ensures Clicked(rows, cols, mines, draws, p, b0, over0, first0, b, over, first)
  {
    ClickSound(idx, rows, cols, mines, draws, p, GameState(b0, over0, first0, overlay0));
  }

  /** The mines of an accepted click are settled as the relation Placed says. */
  lemma ArmedPlaced(idx: nat, rows: nat, cols: nat, mines: nat, draws: seq<Pos>, p: Pos, s: GameState)
    requires ValidState(idx, rows, cols, mines, s.board, s.gameOver, s.firstClick, s.overlay)
    requires InBounds(rows, cols, p) && !Ignored(s.board, rows, cols, s.gameOver, p)
    requires s.firstClick ==> DrawsSuffice(rows, cols, mines, draws, p)
    ensures var a := Armed(rows, cols, mines, draws, p, s);
      && Placed(rows, cols, mines, draws, p, s.board, s.firstClick, a.board)
      && a.gameOver == s.gameOver && a.overlay == s.overlay
  {
    if s.firstClick {
      PlacedFirst(idx, rows, cols, mines, draws, p, s.board, s.gameOver, s.firstClick, s.overlay);
    } else {
      PlacedLater(idx, rows, cols, mines, draws, p, s.board, s.gameOver, s.firstClick, s.overlay);
    }
  }

  /** Opening p in the state a, whose board b1 has the mines settled from
      the state s before the click. */
  lemma OpenSound(idx: nat, rows: nat, cols: nat, mines: nat, draws: seq<Pos>, p: Pos, s: GameState, a: GameState)
    requires ValidState(idx, rows, cols, mines, s.board, s.gameOver, s.firstClick, s.overlay)
    requires InBounds(rows, cols, p) && !Ignored(s.board, rows, cols, s.gameOver, p)
    requires Placed(rows, cols, mines, draws, p, s.board, s.firstClick, a.board)
    requires a.gameOver == s.gameOver && a.overlay == s.overlay && !a.firstClick
    ensures var r := Open(rows, cols, mines, p, a);
      && ValidState(idx, rows, cols, mines, r.board, r.gameOver, r.firstClick, r.overlay)
      && Clicked(rows, cols, mines, draws, p, s.board, s.gameOver, s.firstClick, r.board, r.gameOver, r.firstClick)
    decreases HiddenCount(a.board), 1, 0
  {
    if a.board[p.row][p.col].mine {
      MineOpenSound(idx, rows, cols, mines, draws, p, s, a);
    } else {
      SafeOpenSound(idx, rows, cols, mines, draws, p, s, a);
    }
  }

  /** Opening a mine. */
  lemma MineOpenSound(idx: nat, rows: nat, cols: nat, mines: nat, draws: seq<Pos>, p: Pos, s: GameState, a: GameState)
    requires ValidState(idx, rows, cols, mines, s.board, s.gameOver, s.firstClick, s.overlay)
    requires InBounds(rows, cols, p) && !Ignored(s.board, rows, cols, s.gameOver, p)
    requires Placed(rows, cols, mines, draws, p, s.board, s.firstClick, a.board)
    requires a.gameOver == s.gameOver && a.overlay == s.overlay && !a.firstClick
    requires a.board[p.row][p.col].mine
    ensures var r := Open(rows, cols, mines, p, a);
      && ValidState(idx, rows, cols, mines, r.board, r.gameOver, r.firstClick, r.overlay)
      && Clicked(rows, cols, mines, draws, p, s.board, s.gameOver, s.firstClick, r.board, r.gameOver, r.firstClick)
  {
    var b1: Board := a.board;
    var bp := Update(b1, p, b1[p.row][p.col].(revealed := true));
    MineClickOutcome(idx, rows, cols, mines, draws, p, s.board, s.gameOver, s.firstClick, s.overlay, b1,
                     AllRevealed(bp, rows, cols), true, false, OverlayShown("Game Over!"));
  }

  /** Opening a safe cell: reveal, sweep when its count is zero, then the
      win test. */
  lemma SafeOpenSound(idx: nat, rows: nat, cols: nat, mines: nat, draws: seq<Pos>, p: Pos, s: GameState, a: GameState)
    requires ValidState(idx, rows, cols, mines, s.board, s.gameOver, s.firstClick, s.overlay)
    requires InBounds(rows, cols, p) && !Ignored(s.board, rows, cols, s.gameOver, p)
    requires Placed(rows, cols, mines, draws, p, s.board, s.firstClick, a.board)
    requires a.gameOver == s.gameOver && a.overlay == s.overlay && !a.firstClick
    requires !a.board[p.row][p.col].mine
    ensures var r := Open(rows, cols, mines, p, a);
      && ValidState(idx, rows, cols, mines, r.board, r.gameOver, r.firstClick, r.overlay)
      && Clicked(rows, cols, mines, draws, p, s.board, s.gameOver, s.firstClick, r.board, r.gameOver, r.firstClick)
    decreases HiddenCount(a.board), 0
  {
    var b1: Board := a.board;
    var bp := Update(b1, p, b1[p.row][p.col].(revealed := true));
    SafeRevealed(idx, rows, cols, mines, draws, p, s.board, s.gameOver, s.firstClick, s.overlay, b1);
    var s1 := a.(board := bp);
    var s2 := if b1[p.row][p.col].adjacentMines == 0 then Sweep(rows, cols, mines, p, s1, 0) else s1;
    if b1[p.row][p.col].adjacentMines == 0 {
      ZeroSweepSound(idx, rows, cols, mines, p, s1);
    }
    WinSound(idx, rows, cols, mines, s2);
    var r := WinChecked(rows, cols, mines, s2);
    SafeClickOutcome(rows, cols, mines, draws, p, s.board, s.gameOver, s.firstClick, b1, bp,
                     r.board, r.gameOver, r.firstClick);
  }

  /** The whole sweep around a freshly revealed cell p keeps the state
      consistent and leaves the block around p closed. */
  lemma ZeroSweepSound(idx: nat, rows: nat, cols: nat, mines: nat, p: Pos, s: GameState)
    requires ConsistentState(idx, rows, cols, mines, s.board, s.gameOver, s.firstClick, s.overlay)
    requires !s.firstClick && InBounds(rows, cols, p) && !MineRevealed(s.board, rows, cols)
    ensures var r := Sweep(rows, cols, mines, p, s, 0);
      && ConsistentState(idx, rows, cols, mines, r.board, r.gameOver, r.firstClick, r.overlay)
      && !r.firstClick && Swept(s.board, r.board, rows, cols, p)
    decreases HiddenCount(s.board), 2, 10, 2
  {
    SweepStart(s.board, rows, cols, p);
    SweepSound(idx, rows, cols, mines, p, s.board, s, 0);
    SweepEnd(s.board, Sweep(rows, cols, mines, p, s, 0).board, rows, cols, p);
  }

  /** The sweep of a block from its k-th cell on keeps the state consistent
      and completes the scan. */
  lemma SweepSound(idx: nat, rows: nat, cols: nat, mines: nat, p: Pos, b0: Board, s: GameState, k: nat)
    requires ConsistentState(idx, rows, cols, mines, s.board, s.gameOver, s.firstClick, s.overlay)
    requires !s.firstClick && InBounds(rows, cols, p) && k <= 9
    requires Sweeping(b0, s.board, rows, cols, p, ScanPos(p, k).row, ScanPos(p, k).col)
    ensures var r := Sweep(rows, cols, mines, p, s, k);
      && ConsistentState(idx, rows, cols, mines, r.board, r.gameOver, r.firstClick, r.overlay)
      && !r.firstClick && Sweeping(b0, r.board, rows, cols, p, p.row + 2, p.col - 1)
    decreases HiddenCount(s.board), 2, 9 - k, 1
  {
    if k < 9 {
      var t := SweepStep(rows, cols, mines, p, s, k);
      SweepStepSound(idx, rows, cols, mines, p, b0, s, k);
      SweepSound(idx, rows, cols, mines, p, b0, t, k + 1);
      SweepUnfold(rows, cols, mines, p, s, k);
    }
  }

  /** One cell of the sweep: clicked when it is on the board, hidden and no
      mine, skipped otherwise; the scan moves past it. */
  lemma SweepStepSound(idx: nat, rows: nat, cols: nat, mines: nat, p: Pos, b0: Board, s: GameState, k: nat)
    requires ConsistentState(idx, rows, cols, mines, s.board, s.gameOver, s.firstClick, s.overlay)
    requires !s.firstClick && InBounds(rows, cols, p) && k < 9
    requires Sweeping(b0, s.board, rows, cols, p, ScanPos(p, k).row, ScanPos(p, k).col)
    ensures var s1 := SweepStep(rows, cols, mines, p, s, k);
      && ConsistentState(idx, rows, cols, mines, s1.board, s1.gameOver, s1.firstClick, s1.overlay)
      && !s1.firstClick && Sweeping(b0, s1.board, rows, cols, p, ScanPos(p, k + 1).row, ScanPos(p, k + 1).col)
    decreases HiddenCount(s.board), 2, 9 - k, 0
  {
    var q := ScanPos(p, k);
    if SweepClicks(rows, cols, s, q) {
      NeighbourClickable(idx, rows, cols, mines, b0, s.board, s.gameOver, s.overlay, p, q);
      ClickSound(idx, rows, cols, mines, [], q, s);
      var s1 := Click(rows, cols, mines, [], q, s);
      ScanNear(p, k);
      NeighbourClicked(rows, cols, mines, p, q, b0, s.board, s.gameOver, s.firstClick,
                       s1.board, s1.gameOver, s1.firstClick);
      ScanNext(b0, s1.board, rows, cols, p, k);
    } else {
      SweepSkipped(b0, s.board, rows, cols, p, q.row, q.col);
      ScanNext(b0, s.board, rows, cols, p, k);
    }
  }
}
