/** The board as a value: its cells, the positions on it, and the sets of
    positions that the game engine reasons about (mines, revealed cells,
    flags, the 3x3 block around a cell). */
module Grid {

  /** One square of the board, with the four fields the engine keeps per cell. */
  datatype Cell = Cell(mine: bool, revealed: bool, adjacentMines: int, flagged: bool)

  /** The state every cell has on a freshly created board. */
  const Blank: Cell := Cell(false, false, 0, false)

  /** The board is an array of rows, each an array of cells. */
  type Board = seq<seq<Cell>>

  datatype Pos = Pos(row: int, col: int)

  predicate Shaped(b: Board, rows: nat, cols: nat) {
    |b| == rows && forall i | 0 <= i < rows :: |b[i]| == cols
  }

  predicate InBounds(rows: nat, cols: nat, p: Pos) {
    0 <= p.row < rows && 0 <= p.col < cols
  }

  /** The positions of the half-open rectangle [r0, r1) x [c0, c1). */
  function Rect(r0: int, r1: int, c0: int, c1: int): set<Pos> {
    set i, j | r0 <= i < r1 && c0 <= j < c1 :: Pos(i, j)
  }

  function AllCells(rows: nat, cols: nat): set<Pos> {
    Rect(0, rows, 0, cols)
  }

  /** Chebyshev distance at most 1: the same cell or one of its eight neighbours. */
  predicate Near(p: Pos, q: Pos) {
    -1 <= p.row - q.row <= 1 && -1 <= p.col - q.col <= 1
  }

  /** The 3x3 block centred on p, clipped to the board. */
  function Block(rows: nat, cols: nat, p: Pos): set<Pos> {
    Rect(p.row - 1, p.row + 2, p.col - 1, p.col + 2) * AllCells(rows, cols)
  }

  function Mines(b: Board): set<Pos> {
    set i, j | 0 <= i < |b| && 0 <= j < |b[i]| && b[i][j].mine :: Pos(i, j)
  }

  function Revealed(b: Board): set<Pos> {
    set i, j | 0 <= i < |b| && 0 <= j < |b[i]| && b[i][j].revealed :: Pos(i, j)
  }

  /** The number of hidden cells in a row. */
  function RowHidden(r: seq<Cell>): nat {
    if r == [] then 0 else (if r[0].revealed then 0 else 1) + RowHidden(r[1..])
  }

  /** The number of hidden cells on the board; every click that is not
      ignored lowers it, which is why the flood comes to an end. */
  function HiddenCount(b: Board): nat {
    if b == [] then 0 else RowHidden(b[0]) + HiddenCount(b[1..])
  }

  function Flagged(b: Board): set<Pos> {
    set i, j | 0 <= i < |b| && 0 <= j < |b[i]| && b[i][j].flagged :: Pos(i, j)
  }

  /** Replaces the cell at p. */
  function Update(b: Board, p: Pos, c: Cell): (r: Board)
    requires 0 <= p.row < |b| && 0 <= p.col < |b[p.row]|
    ensures |r| == |b| && forall i | 0 <= i < |b| :: |r[i]| == |b[i]|
    ensures r[p.row][p.col] == c
    ensures forall i, j | 0 <= i < |b| && 0 <= j < |b[i]| && Pos(i, j) != p :: r[i][j] == b[i][j]
  {
    b[p.row := b[p.row][p.col := c]]
  }

  /** Every non-mine cell holds the number of mines in its 3x3 block. The
      block contains the cell itself, which is no mine, so this is the
      number of mines among its up to eight neighbours. */
  ghost predicate CountsCorrect(b: Board, rows: nat, cols: nat)
    requires Shaped(b, rows, cols)
  {
    forall i, j | 0 <= i < rows && 0 <= j < cols && !b[i][j].mine ::
      b[i][j].adjacentMines == |Block(rows, cols, Pos(i, j)) * Mines(b)|
  }

  predicate AllSafeRevealed(b: Board, rows: nat, cols: nat)
    requires Shaped(b, rows, cols)
  {
    forall i, j | 0 <= i < rows && 0 <= j < cols && !b[i][j].mine :: b[i][j].revealed
  }

  predicate EveryCellRevealed(b: Board, rows: nat, cols: nat)
    requires Shaped(b, rows, cols)
  {
    forall i, j | 0 <= i < rows && 0 <= j < cols :: b[i][j].revealed
  }

  predicate MineRevealed(b: Board, rows: nat, cols: nat)
    requires Shaped(b, rows, cols)
  {
    exists i, j | 0 <= i < rows && 0 <= j < cols :: b[i][j].mine && b[i][j].revealed
  }

  /** b2 differs from b1 at most in revealed flags, and only by revealing. */
  ghost predicate RevealOnly(b1: Board, b2: Board, rows: nat, cols: nat) {
    && Shaped(b1, rows, cols) && Shaped(b2, rows, cols)
    && forall i, j | 0 <= i < rows && 0 <= j < cols ::
         b2[i][j] == b1[i][j].(revealed := b2[i][j].revealed) &&
         (b1[i][j].revealed ==> b2[i][j].revealed)
  }

  // ---------------------------------------------------------------------
  // Whole-board values the operations are specified by.

  function BlankBoard(rows: nat, cols: nat): (b: Board)
    ensures Shaped(b, rows, cols)
  {
    seq(rows, i => seq(cols, j => Blank))
  }

  /** The board with every cell revealed and nothing else changed. */
  function AllRevealed(b: Board, rows: nat, cols: nat): (r: Board)
    requires Shaped(b, rows, cols)
    ensures Shaped(r, rows, cols)
  {
    seq(rows, i requires 0 <= i < rows =>
      seq(cols, j requires 0 <= j < cols => b[i][j].(revealed := true)))
  }

  /** The board with every non-mine cell's count recomputed from the mines. */
  ghost function Recounted(b: Board, rows: nat, cols: nat): (r: Board)
    requires Shaped(b, rows, cols)
    ensures Shaped(r, rows, cols)
  {
    seq(rows, i requires 0 <= i < rows =>
      seq(cols, j requires 0 <= j < cols =>
        if b[i][j].mine then b[i][j]
        else b[i][j].(adjacentMines := |Block(rows, cols, Pos(i, j)) * Mines(b)|)))
  }

  /** Right-click on p: flips the flag unless the cell is revealed. */
  function Toggled(b: Board, p: Pos): (r: Board)
    requires 0 <= p.row < |b| && 0 <= p.col < |b[p.row]|
    ensures |r| == |b| && forall i | 0 <= i < |b| :: |r[i]| == |b[i]|
    ensures r[p.row][p.col].revealed == b[p.row][p.col].revealed
    ensures b[p.row][p.col].revealed ==> r == b
  {
    var c := b[p.row][p.col];
    if c.revealed then b else Update(b, p, c.(flagged := !c.flagged))
  }

  // ---------------------------------------------------------------------
  // Counting positions.

  lemma SubsetCard<T>(a: set<T>, b: set<T>)
    requires a <= b
    ensures |a| <= |b|
    ensures |a| == |b| ==> a == b
  {
    assert b == a + (b - a);
    if |a| == |b| {
      assert |b - a| == 0;
    }
  }

  lemma {:induction false} RowCard(r: int, c0: int, c1: int)
    requires c0 <= c1
    ensures |Rect(r, r + 1, c0, c1)| == c1 - c0
    decreases c1 - c0
  {
    if c0 == c1 {
      assert Rect(r, r + 1, c0, c1) == {};
    } else {
      assert Rect(r, r + 1, c0, c1) == Rect(r, r + 1, c0, c1 - 1) + {Pos(r, c1 - 1)};
      RowCard(r, c0, c1 - 1);
    }
  }

  /** The rectangle [r0, r1) x [c0, c1) has (r1 - r0) * (c1 - c0) positions. */
  lemma {:induction false} RectCard(r0: int, r1: int, c0: int, c1: int)
    requires r0 <= r1 && c0 <= c1
    ensures |Rect(r0, r1, c0, c1)| == (r1 - r0) * (c1 - c0)
    decreases r1 - r0
  {
    if r0 == r1 {
      assert Rect(r0, r1, c0, c1) == {};
    } else {
      var top := Rect(r0, r1 - 1, c0, c1);
      var last := Rect(r1 - 1, r1, c0, c1);
      assert Rect(r0, r1, c0, c1) == top + last;
      assert top * last == {};
      RectCard(r0, r1 - 1, c0, c1);
      RowCard(r1 - 1, c0, c1);
      assert (r1 - r0) * (c1 - c0) == (r1 - 1 - r0) * (c1 - c0) + (c1 - c0);
    }
  }

  /** A board of rows x cols has rows * cols cells. */
  lemma AllCellsCard(rows: nat, cols: nat)
    ensures |AllCells(rows, cols)| == rows * cols
  {
    RectCard(0, rows, 0, cols);
  }

  /** The 3x3 block around a cell holds at most nine cells, the cell itself among them. */
  lemma BlockCard(rows: nat, cols: nat, p: Pos)
    ensures |Block(rows, cols, p)| <= 9
    ensures InBounds(rows, cols, p) ==> p in Block(rows, cols, p)
  {
    var square := Rect(p.row - 1, p.row + 2, p.col - 1, p.col + 2);
    RectCard(p.row - 1, p.row + 2, p.col - 1, p.col + 2);
    SubsetCard(Block(rows, cols, p), square);
  }

  /** The count stored in a non-mine cell lies in [0, 8]. */
  lemma CountAtMostEight(b: Board, rows: nat, cols: nat, p: Pos)
    requires Shaped(b, rows, cols) && InBounds(rows, cols, p)
    requires !b[p.row][p.col].mine && CountsCorrect(b, rows, cols)
    ensures 0 <= b[p.row][p.col].adjacentMines <= 8
  {
    var blk := Block(rows, cols, p);
    BlockCard(rows, cols, p);
    assert p !in Mines(b);
    SubsetCard(blk * Mines(b), blk - {p});
  }

  lemma MinesWithin(b: Board, rows: nat, cols: nat)
    requires Shaped(b, rows, cols)
    ensures Mines(b) <= AllCells(rows, cols)
    ensures Revealed(b) <= AllCells(rows, cols)
  {
  }

  /** With exactly `mines` mines on the board, the engine's win test (the
      number of revealed non-mine cells equals rows * cols - mines) holds
      exactly when every non-mine cell is revealed. */
  lemma WinCount(b: Board, rows: nat, cols: nat, mines: nat)
    requires Shaped(b, rows, cols) && |Mines(b)| == mines
    ensures |Revealed(b) - Mines(b)| == rows * cols - mines <==> AllSafeRevealed(b, rows, cols)
  {
    var safe := AllCells(rows, cols) - Mines(b);
    var shown := Revealed(b) - Mines(b);
    assert |safe| == rows * cols - mines by { SafeCard(b, rows, cols); }
    assert shown <= safe by { MinesWithin(b, rows, cols); }
    if |shown| == rows * cols - mines {
      SubsetCard(shown, safe);
      SafeShownAll(b, rows, cols);
    }
    if AllSafeRevealed(b, rows, cols) {
      AllShownSafe(b, rows, cols);
      assert shown == safe;
    }
  }

  lemma SafeShownAll(b: Board, rows: nat, cols: nat)
    requires Shaped(b, rows, cols)
    requires AllCells(rows, cols) - Mines(b) == Revealed(b) - Mines(b)
    ensures AllSafeRevealed(b, rows, cols)
  {
    forall i, j | 0 <= i < rows && 0 <= j < cols && !b[i][j].mine
      ensures b[i][j].revealed
    {
      assert Pos(i, j) in AllCells(rows, cols) - Mines(b);
    }
  }

  lemma AllShownSafe(b: Board, rows: nat, cols: nat)
    requires Shaped(b, rows, cols) && AllSafeRevealed(b, rows, cols)
    ensures AllCells(rows, cols) - Mines(b) <= Revealed(b) - Mines(b)
  {
    forall q | q in AllCells(rows, cols) - Mines(b) ensures q in Revealed(b) {
      assert b[q.row][q.col].revealed;
    }
  }

  lemma SafeCard(b: Board, rows: nat, cols: nat)
    requires Shaped(b, rows, cols)
    ensures |AllCells(rows, cols) - Mines(b)| == rows * cols - |Mines(b)|
  {
    var all := AllCells(rows, cols);
    MinesWithin(b, rows, cols);
    AllCellsCard(rows, cols);
    assert all == (all - Mines(b)) + Mines(b);
  }

  // ---------------------------------------------------------------------
  // How the sets change when cells change.

  lemma UpdateSets(b: Board, p: Pos, c: Cell)
    requires 0 <= p.row < |b| && 0 <= p.col < |b[p.row]|
    ensures Mines(Update(b, p, c)) == if c.mine then Mines(b) + {p} else Mines(b) - {p}
    ensures Revealed(Update(b, p, c)) == if c.revealed then Revealed(b) + {p} else Revealed(b) - {p}
    ensures Flagged(Update(b, p, c)) == if c.flagged then Flagged(b) + {p} else Flagged(b) - {p}
  {
  }

  /** Boards that agree on every mine bit have the same mine set. */
  lemma SameMineBits(b1: Board, b2: Board, rows: nat, cols: nat)
    requires Shaped(b1, rows, cols) && Shaped(b2, rows, cols)
    requires forall i, j | 0 <= i < rows && 0 <= j < cols :: b2[i][j].mine == b1[i][j].mine
    ensures Mines(b2) == Mines(b1)
  {
    assert forall q | q in Mines(b2) :: q in Mines(b1) by {
      forall q | q in Mines(b2) ensures q in Mines(b1) {
        assert b1[q.row][q.col].mine;
      }
    }
    assert forall q | q in Mines(b1) :: q in Mines(b2) by {
      forall q | q in Mines(b1) ensures q in Mines(b2) {
        assert b2[q.row][q.col].mine;
      }
    }
  }

  /** Boards that agree on every mine and every stored count agree on the
      mine set, and one has correct counts exactly when the other does. */
  lemma SameMines(b1: Board, b2: Board, rows: nat, cols: nat)
    requires Shaped(b1, rows, cols) && Shaped(b2, rows, cols)
    requires forall i, j | 0 <= i < rows && 0 <= j < cols ::
      b2[i][j].mine == b1[i][j].mine && b2[i][j].adjacentMines == b1[i][j].adjacentMines
    ensures Mines(b2) == Mines(b1)
    ensures CountsCorrect(b1, rows, cols) ==> CountsCorrect(b2, rows, cols)
  {
    SameMineBits(b1, b2, rows, cols);
  }

  /** Boards that agree on every revealed and flagged bit have the same
      revealed, hidden and flagged sets. */
  lemma SameRevealsAndFlags(b1: Board, b2: Board, rows: nat, cols: nat)
    requires Shaped(b1, rows, cols) && Shaped(b2, rows, cols)
    requires forall i, j | 0 <= i < rows && 0 <= j < cols ::
      b2[i][j].revealed == b1[i][j].revealed && b2[i][j].flagged == b1[i][j].flagged
    ensures Revealed(b2) == Revealed(b1) && HiddenCount(b2) == HiddenCount(b1) && Flagged(b2) == Flagged(b1)
  {
    HiddenCountMono(b1, b2);
    HiddenCountMono(b2, b1);
    forall q | q in Revealed(b2) ensures q in Revealed(b1) {
      assert b1[q.row][q.col].revealed;
    }
    forall q | q in Revealed(b1) ensures q in Revealed(b2) {
      assert b2[q.row][q.col].revealed;
    }
    forall q | q in Flagged(b2) ensures q in Flagged(b1) {
      assert b1[q.row][q.col].flagged;
    }
    forall q | q in Flagged(b1) ensures q in Flagged(b2) {
      assert b2[q.row][q.col].flagged;
    }
  }

  lemma RevealOnlyKeeps(b1: Board, b2: Board, rows: nat, cols: nat)
    requires RevealOnly(b1, b2, rows, cols)
    ensures Mines(b2) == Mines(b1) && Flagged(b2) == Flagged(b1)
    ensures Revealed(b1) <= Revealed(b2) && HiddenCount(b2) <= HiddenCount(b1)
    ensures CountsCorrect(b1, rows, cols) ==> CountsCorrect(b2, rows, cols)
  {
    RevealOnlyHidden(b1, b2, rows, cols);
    SameMines(b1, b2, rows, cols);
    RevealOnlyFlags(b1, b2, rows, cols);
    RevealOnlyRevealed(b1, b2, rows, cols);
  }

  lemma RevealOnlyFlags(b1: Board, b2: Board, rows: nat, cols: nat)
    requires RevealOnly(b1, b2, rows, cols)
    ensures Flagged(b2) == Flagged(b1)
  {
    forall q | q in Flagged(b2) ensures q in Flagged(b1) {
      assert b1[q.row][q.col].flagged;
    }
    forall q | q in Flagged(b1) ensures q in Flagged(b2) {
      assert b2[q.row][q.col].flagged;
    }
  }

  lemma RevealOnlyRevealed(b1: Board, b2: Board, rows: nat, cols: nat)
    requires RevealOnly(b1, b2, rows, cols)
    ensures Revealed(b1) <= Revealed(b2)
  {
    forall q | q in Revealed(b1) ensures q in Revealed(b2) {
      assert b2[q.row][q.col].revealed;
    }
  }

  lemma RevealOnlyHidden(b1: Board, b2: Board, rows: nat, cols: nat)
    requires RevealOnly(b1, b2, rows, cols)
    ensures HiddenCount(b2) <= HiddenCount(b1)
  {
    HiddenCountMono(b1, b2);
  }

  /** Revealing cells never adds to the hidden count. */
  lemma {:induction false} RowHiddenMono(r1: seq<Cell>, r2: seq<Cell>)
    requires |r1| == |r2| && forall j | 0 <= j < |r1| :: r1[j].revealed ==> r2[j].revealed
    ensures RowHidden(r2) <= RowHidden(r1)
    decreases |r1|
  {
    if r1 != [] {
      RowHiddenMono(r1[1..], r2[1..]);
    }
  }

  lemma {:induction false} HiddenCountMono(b1: Board, b2: Board)
    requires |b1| == |b2| && forall i | 0 <= i < |b1| :: |b1[i]| == |b2[i]|
    requires forall i, j | 0 <= i < |b1| && 0 <= j < |b1[i]| :: b1[i][j].revealed ==> b2[i][j].revealed
    ensures HiddenCount(b2) <= HiddenCount(b1)
    decreases |b1|
  {
    if b1 != [] {
      RowHiddenMono(b1[0], b2[0]);
      HiddenCountMono(b1[1..], b2[1..]);
    }
  }

  /** Revealing one hidden cell lowers the hidden count by one. */
  lemma {:induction false} RowHiddenReveal(r: seq<Cell>, j: nat, c: Cell)
    requires j < |r| && !r[j].revealed && c.revealed
    ensures RowHidden(r[j := c]) + 1 == RowHidden(r)
    decreases j
  {
    if j == 0 {
      assert r[j := c][1..] == r[1..];
    } else {
      RowHiddenReveal(r[1..], j - 1, c);
      assert r[j := c][1..] == r[1..][j - 1 := c];
    }
  }

  lemma {:induction false} HiddenCountReveal(b: Board, p: Pos, c: Cell)
    requires 0 <= p.row < |b| && 0 <= p.col < |b[p.row]|
    requires !b[p.row][p.col].revealed && c.revealed
    ensures HiddenCount(Update(b, p, c)) + 1 == HiddenCount(b)
    decreases p.row
  {
    if p.row == 0 {
      RowHiddenReveal(b[0], p.col, c);
      assert Update(b, p, c)[1..] == b[1..];
    } else {
      HiddenCountReveal(b[1..], Pos(p.row - 1, p.col), c);
      assert Update(b, p, c)[1..] == Update(b[1..], Pos(p.row - 1, p.col), c);
    }
  }

  lemma RevealOnlyTrans(b1: Board, b2: Board, b3: Board, rows: nat, cols: nat)
    requires RevealOnly(b1, b2, rows, cols) && RevealOnly(b2, b3, rows, cols)
    ensures RevealOnly(b1, b3, rows, cols)
  {
  }

  // ---------------------------------------------------------------------
  // Facts about the whole-board values.

  /** A fresh board has no mines, nothing revealed, no flags, and its zero
      counts are correct. */
  lemma BlankBoardFacts(rows: nat, cols: nat)
    ensures Mines(BlankBoard(rows, cols)) == {}
    ensures Revealed(BlankBoard(rows, cols)) == {}
    ensures Flagged(BlankBoard(rows, cols)) == {}
    ensures CountsCorrect(BlankBoard(rows, cols), rows, cols)
    ensures !MineRevealed(BlankBoard(rows, cols), rows, cols)
  {
  }

  /** Revealing everything changes only revealed flags and leaves every cell revealed. */
  lemma AllRevealedFacts(b: Board, rows: nat, cols: nat)
    requires Shaped(b, rows, cols)
    ensures RevealOnly(b, AllRevealed(b, rows, cols), rows, cols)
    ensures EveryCellRevealed(AllRevealed(b, rows, cols), rows, cols)
    ensures Flagged(AllRevealed(b, rows, cols)) == Flagged(b)
  {
    RevealOnlyKeeps(b, AllRevealed(b, rows, cols), rows, cols);
  }

  /** Recounting makes every non-mine count correct, keeps the mines, and
      touches no other field and no mine cell. */
  lemma RecountedFacts(b: Board, rows: nat, cols: nat)
    requires Shaped(b, rows, cols)
    ensures Mines(Recounted(b, rows, cols)) == Mines(b)
    ensures CountsCorrect(Recounted(b, rows, cols), rows, cols)
    ensures forall i, j | 0 <= i < rows && 0 <= j < cols ::
      Recounted(b, rows, cols)[i][j] == b[i][j].(adjacentMines := Recounted(b, rows, cols)[i][j].adjacentMines)
    ensures forall i, j | 0 <= i < rows && 0 <= j < cols && b[i][j].mine ::
      Recounted(b, rows, cols)[i][j] == b[i][j]
  {
    var r: Board := Recounted(b, rows, cols);
    assert forall i, j | 0 <= i < rows && 0 <= j < cols :: r[i][j].mine == b[i][j].mine;
    forall q | q in Mines(r) ensures q in Mines(b) {
      assert b[q.row][q.col].mine;
    }
    forall q | q in Mines(b) ensures q in Mines(r) {
      assert r[q.row][q.col].mine;
    }
    assert Mines(r) == Mines(b);
    forall i, j | 0 <= i < rows && 0 <= j < cols && !r[i][j].mine
      ensures r[i][j].adjacentMines == |Block(rows, cols, Pos(i, j)) * Mines(r)|
    {
    }
  }

  /** Flagging a cell twice restores the board. */
  lemma ToggledTwice(b: Board, p: Pos)
    requires 0 <= p.row < |b| && 0 <= p.col < |b[p.row]|
    ensures |Toggled(b, p)| == |b| && |Toggled(b, p)[p.row]| == |b[p.row]|
    ensures Toggled(Toggled(b, p), p) == b
  {
    var c := b[p.row][p.col];
    if !c.revealed {
      var t := Toggled(b, p);
      assert t[p.row][p.col] == c.(flagged := !c.flagged);
      assert Toggled(t, p) == Update(t, p, c);
      assert Update(t, p, c)[p.row] == b[p.row];
    }
  }

  /** Flagging changes only the flag of the chosen cell, and only when it is
      not revealed. */
  lemma ToggledFlag(b: Board, rows: nat, cols: nat, p: Pos)
    requires Shaped(b, rows, cols) && InBounds(rows, cols, p)
    ensures Shaped(Toggled(b, p), rows, cols)
    ensures Toggled(b, p)[p.row][p.col].flagged == (b[p.row][p.col].flagged != !b[p.row][p.col].revealed)
    ensures forall i, j | 0 <= i < rows && 0 <= j < cols ::
      Toggled(b, p)[i][j] == b[i][j].(flagged := Toggled(b, p)[i][j].flagged)
    ensures forall i, j | 0 <= i < rows && 0 <= j < cols && Pos(i, j) != p ::
      Toggled(b, p)[i][j] == b[i][j]
  {
  }

  /** The outcome of a board depends only on which cells are mines and which are revealed. */
  lemma SameOutcome(b1: Board, b2: Board, rows: nat, cols: nat)
    requires Shaped(b1, rows, cols) && Shaped(b2, rows, cols)
    requires forall i, j | 0 <= i < rows && 0 <= j < cols ::
      b2[i][j].mine == b1[i][j].mine && b2[i][j].revealed == b1[i][j].revealed
    ensures AllSafeRevealed(b2, rows, cols) == AllSafeRevealed(b1, rows, cols)
    ensures EveryCellRevealed(b2, rows, cols) == EveryCellRevealed(b1, rows, cols)
    ensures MineRevealed(b2, rows, cols) == MineRevealed(b1, rows, cols)
  {
  }

  /** Flagging keeps the mines, the revealed cells and the counts. */
  lemma ToggledKeeps(b: Board, rows: nat, cols: nat, p: Pos)
    requires Shaped(b, rows, cols) && InBounds(rows, cols, p)
    ensures Shaped(Toggled(b, p), rows, cols)
    ensures Mines(Toggled(b, p)) == Mines(b) && Revealed(Toggled(b, p)) == Revealed(b)
    ensures CountsCorrect(b, rows, cols) ==> CountsCorrect(Toggled(b, p), rows, cols)
  {
    var c := b[p.row][p.col];
    if !c.revealed {
      UpdateSets(b, p, c.(flagged := !c.flagged));
    }
    ToggledFlag(b, rows, cols, p);
    SameMines(b, Toggled(b, p), rows, cols);
  }

  // ---------------------------------------------------------------------
  // Sets a row-major scan has seen so far.

  /** (i, j) comes before (row, col) in row-major order. */
  predicate Before(i: int, j: int, row: int, col: int) {
    i < row || (i == row && j < col)
  }

  /** The revealed non-mine cells a row-major scan has passed before reaching (row, col). */
  function ShownBefore(b: Board, rows: nat, cols: nat, row: int, col: int): set<Pos>
    requires Shaped(b, rows, cols)
  {
    set i, j | 0 <= i < rows && 0 <= j < cols && Before(i, j, row, col) &&
      b[i][j].revealed && !b[i][j].mine :: Pos(i, j)
  }

  lemma ShownBeforeStart(b: Board, rows: nat, cols: nat)
    requires Shaped(b, rows, cols)
    ensures ShownBefore(b, rows, cols, 0, 0) == {}
  {
  }

  lemma ShownBeforeStep(b: Board, rows: nat, cols: nat, row: int, col: int)
    requires Shaped(b, rows, cols) && InBounds(rows, cols, Pos(row, col))
    ensures |ShownBefore(b, rows, cols, row, col + 1)| ==
      |ShownBefore(b, rows, cols, row, col)| + (if b[row][col].revealed && !b[row][col].mine then 1 else 0)
  {
    var x := Pos(row, col);
    var s0 := ShownBefore(b, rows, cols, row, col);
    var s1 := ShownBefore(b, rows, cols, row, col + 1);
    var hit := b[row][col].revealed && !b[row][col].mine;
    forall q | q in s1
      ensures q in s0 || (hit && q == x)
    {
      if q != x {
        assert Before(q.row, q.col, row, col);
      }
    }
    forall q | q in s0
      ensures q in s1 && q != x
    {
    }
    if hit {
      assert x in s1 && x !in s0;
      assert s1 == s0 + {x};
      assert |s1| == |s0| + 1;
    } else {
      assert s1 == s0;
    }
  }

  lemma ShownBeforeRowEnd(b: Board, rows: nat, cols: nat, row: int)
    requires Shaped(b, rows, cols)
    ensures ShownBefore(b, rows, cols, row, cols) == ShownBefore(b, rows, cols, row + 1, 0)
  {
  }

  lemma ShownBeforeEnd(b: Board, rows: nat, cols: nat)
    requires Shaped(b, rows, cols)
    ensures ShownBefore(b, rows, cols, rows, 0) == Revealed(b) - Mines(b)
  {
    forall q | q in Revealed(b) - Mines(b) ensures q in ShownBefore(b, rows, cols, rows, 0) {
      assert b[q.row][q.col].revealed && !b[q.row][q.col].mine;
    }
  }

  /** The mines a scan of the 3x3 block around p, by row offset dr and then
      column offset dc, has passed before reaching offset (dr, dc). */
  function MinesSeen(b: Board, rows: nat, cols: nat, p: Pos, dr: int, dc: int): set<Pos>
    requires Shaped(b, rows, cols)
  {
    set i, j | 0 <= i < rows && 0 <= j < cols && Near(Pos(i, j), p) &&
      Before(i - p.row, j - p.col, dr, dc) && b[i][j].mine :: Pos(i, j)
  }

  lemma MinesSeenStart(b: Board, rows: nat, cols: nat, p: Pos)
    requires Shaped(b, rows, cols)
    ensures MinesSeen(b, rows, cols, p, -1, -1) == {}
  {
  }

  lemma MinesSeenStep(b: Board, rows: nat, cols: nat, p: Pos, dr: int, dc: int)
    requires Shaped(b, rows, cols) && -1 <= dr <= 1 && -1 <= dc <= 1
    ensures |MinesSeen(b, rows, cols, p, dr, dc + 1)| == |MinesSeen(b, rows, cols, p, dr, dc)| + MineAt(b, rows, cols, p.row + dr, p.col + dc)
  {
    MinesSeenNext(b, rows, cols, p, dr, dc);
    CardStep(MinesSeen(b, rows, cols, p, dr, dc), MinesSeen(b, rows, cols, p, dr, dc + 1), Pos(p.row + dr, p.col + dc),
             MineAt(b, rows, cols, p.row + dr, p.col + dc) == 1);
  }

  /** 1 when (r, c) is on the board and holds a mine, otherwise 0. */
  function MineAt(b: Board, rows: nat, cols: nat, r: int, c: int): nat
    requires Shaped(b, rows, cols)
  {
    if 0 <= r < rows && 0 <= c < cols && b[r][c].mine then 1 else 0
  }

  /** One step of the scan adds the cell at offset (dr, dc) when it is a mine on the board. */
  lemma MinesSeenNext(b: Board, rows: nat, cols: nat, p: Pos, dr: int, dc: int)
    requires Shaped(b, rows, cols) && -1 <= dr <= 1 && -1 <= dc <= 1
    ensures var r, c := p.row + dr, p.col + dc;
      var s0, s1 := MinesSeen(b, rows, cols, p, dr, dc), MinesSeen(b, rows, cols, p, dr, dc + 1);
      Pos(r, c) !in s0 &&
      s1 == if 0 <= r < rows && 0 <= c < cols && b[r][c].mine then s0 + {Pos(r, c)} else s0
  {
    var r, c := p.row + dr, p.col + dc;
    var x := Pos(r, c);
    var s0 := MinesSeen(b, rows, cols, p, dr, dc);
    var s1 := MinesSeen(b, rows, cols, p, dr, dc + 1);
    var hit := 0 <= r < rows && 0 <= c < cols && b[r][c].mine;
    forall q | q in s1
      ensures q in s0 || (hit && q == x)
    {
      if q != x {
        assert Before(q.row - p.row, q.col - p.col, dr, dc);
      }
    }
    forall q | q in s0
      ensures q in s1 && q != x
    {
    }
    if hit {
      assert Near(x, p) && Before(r - p.row, c - p.col, dr, dc + 1);
      assert x in s1;
      assert s1 == s0 + {x};
    } else {
      assert s1 == s0;
    }
  }

  /** A set that gains one element it did not hold grows by one. */
  lemma CardStep<T>(s0: set<T>, s1: set<T>, x: T, hit: bool)
    requires x !in s0 && s1 == if hit then s0 + {x} else s0
    ensures |s1| == |s0| + (if hit then 1 else 0)
  {
  }

  lemma MinesSeenRowEnd(b: Board, rows: nat, cols: nat, p: Pos, dr: int)
    requires Shaped(b, rows, cols)
    ensures MinesSeen(b, rows, cols, p, dr, 2) == MinesSeen(b, rows, cols, p, dr + 1, -1)
  {
  }

  lemma MinesSeenEnd(b: Board, rows: nat, cols: nat, p: Pos)
    requires Shaped(b, rows, cols)
    ensures MinesSeen(b, rows, cols, p, 2, -1) == Block(rows, cols, p) * Mines(b)
  {
    forall q | q in Block(rows, cols, p) * Mines(b) ensures q in MinesSeen(b, rows, cols, p, 2, -1) {
      assert b[q.row][q.col].mine;
    }
  }

  /** A row-major scan that recounts b0 has reached (row, col): the cells it
      has passed hold their recounted values, the others are as in b0. */
  ghost predicate RecountedBefore(b: Board, b0: Board, rows: nat, cols: nat, row: int, col: int) {
    && Shaped(b, rows, cols) && Shaped(b0, rows, cols)
    && forall i, j | 0 <= i < rows && 0 <= j < cols ::
         b[i][j] == if Before(i, j, row, col) then Recounted(b0, rows, cols)[i][j] else b0[i][j]
  }

  lemma RecountedBeforeStart(b0: Board, rows: nat, cols: nat)
    requires Shaped(b0, rows, cols)
    ensures RecountedBefore(b0, b0, rows, cols, 0, 0)
  {
  }

  /** Recounting in progress keeps the mines. */
  lemma RecountedBeforeMines(b: Board, b0: Board, rows: nat, cols: nat, row: int, col: int)
    requires RecountedBefore(b, b0, rows, cols, row, col)
    ensures Mines(b) == Mines(b0)
  {
    RecountedFacts(b0, rows, cols);
    SameMineBits(b0, b, rows, cols);
  }

  /** The scan has not yet touched the cell it reaches. */
  lemma RecountedBeforeAt(b: Board, b0: Board, rows: nat, cols: nat, row: int, col: int)
    requires RecountedBefore(b, b0, rows, cols, row, col) && InBounds(rows, cols, Pos(row, col))
    ensures b[row][col] == b0[row][col]
  {
  }

  /** One step of the scan over a mine: the cell is skipped. */
  lemma RecountedBeforeSkip(b: Board, b0: Board, rows: nat, cols: nat, row: int, col: int)
    requires RecountedBefore(b, b0, rows, cols, row, col) && InBounds(rows, cols, Pos(row, col))
    requires b[row][col].mine
    ensures RecountedBefore(b, b0, rows, cols, row, col + 1)
  {
    RecountedFacts(b0, rows, cols);
    assert Recounted(b0, rows, cols)[row][col] == b0[row][col];
  }

  /** One step of the scan over a non-mine cell: the cell gets the number
      n of mines in its block. */
  lemma RecountedBeforeCount(b: Board, b0: Board, rows: nat, cols: nat, row: int, col: int, n: nat)
    requires RecountedBefore(b, b0, rows, cols, row, col) && InBounds(rows, cols, Pos(row, col))
    requires !b[row][col].mine && n == |Block(rows, cols, Pos(row, col)) * Mines(b0)|
    ensures RecountedBefore(Update(b, Pos(row, col), b[row][col].(adjacentMines := n)), b0, rows, cols, row, col + 1)
  {
    assert Recounted(b0, rows, cols)[row][col] == b0[row][col].(adjacentMines := n);
  }

  lemma RecountedBeforeRowEnd(b: Board, b0: Board, rows: nat, cols: nat, row: int)
    requires RecountedBefore(b, b0, rows, cols, row, cols)
    ensures RecountedBefore(b, b0, rows, cols, row + 1, 0)
  {
  }

  lemma RecountedBeforeEnd(b: Board, b0: Board, rows: nat, cols: nat)
    requires RecountedBefore(b, b0, rows, cols, rows, 0)
    ensures b == Recounted(b0, rows, cols)
  {
    assert forall i | 0 <= i < rows :: b[i] == Recounted(b0, rows, cols)[i];
  }

  /** b2 differs from b1 at most in which cells are mines. */
  ghost predicate MinesOnly(b1: Board, b2: Board, rows: nat, cols: nat) {
    && Shaped(b1, rows, cols) && Shaped(b2, rows, cols)
    && forall i, j | 0 <= i < rows && 0 <= j < cols :: b2[i][j] == b1[i][j].(mine := b2[i][j].mine)
  }

  /** Laying mines and then recounting keeps which cells are revealed and flagged. */
  lemma MinesOnlyRecounted(b0: Board, b: Board, rows: nat, cols: nat)
    requires MinesOnly(b0, b, rows, cols)
    ensures var r := Recounted(b, rows, cols);
      && Mines(r) == Mines(b) && CountsCorrect(r, rows, cols)
      && Revealed(r) == Revealed(b0) && HiddenCount(r) == HiddenCount(b0) && Flagged(r) == Flagged(b0)
      && forall i, j | 0 <= i < rows && 0 <= j < cols ::
           r[i][j].revealed == b0[i][j].revealed && r[i][j].flagged == b0[i][j].flagged
  {
    RecountedFacts(b, rows, cols);
    SameRevealsAndFlags(b0, Recounted(b, rows, cols), rows, cols);
  }

  /** The board b with exactly the cells of m as mines. */
  function WithMines(b: Board, rows: nat, cols: nat, m: set<Pos>): (r: Board)
    requires Shaped(b, rows, cols)
    ensures Shaped(r, rows, cols)
  {
    seq(rows, i requires 0 <= i < rows => seq(cols, j requires 0 <= j < cols => b[i][j].(mine := Pos(i, j) in m)))
  }

  /** Setting the mines to m changes nothing else, and the board then has
      the cells of m that lie on it as its mines. */
  lemma WithMinesFacts(b: Board, rows: nat, cols: nat, m: set<Pos>)
    requires Shaped(b, rows, cols)
    ensures MinesOnly(b, WithMines(b, rows, cols, m), rows, cols)
    ensures Mines(WithMines(b, rows, cols, m)) == m * AllCells(rows, cols)
  {
  }

  /** A board is itself with its own mines. */
  lemma WithOwnMines(b: Board, rows: nat, cols: nat)
    requires Shaped(b, rows, cols)
    ensures WithMines(b, rows, cols, Mines(b)) == b
  {
    MinesOnlyWithMines(b, b, rows, cols);
  }

  /** Laying a mine at p on b0 with the mines m gives b0 with the mines m + {p}. */
  lemma WithMinesStep(b0: Board, rows: nat, cols: nat, m: set<Pos>, p: Pos)
    requires Shaped(b0, rows, cols) && InBounds(rows, cols, p)
    ensures var b := WithMines(b0, rows, cols, m);
      Update(b, p, b[p.row][p.col].(mine := true)) == WithMines(b0, rows, cols, m + {p})
  {
    var b: Board := WithMines(b0, rows, cols, m);
    var u: Board := Update(b, p, b[p.row][p.col].(mine := true));
    var w: Board := WithMines(b0, rows, cols, m + {p});
    forall i | 0 <= i < rows
      ensures u[i] == w[i]
    {
      forall j | 0 <= j < cols
        ensures u[i][j] == w[i][j]
      {
      }
    }
  }

  /** A board that differs from b0 in its mines only is b0 with its own mines. */
  lemma MinesOnlyWithMines(b0: Board, b: Board, rows: nat, cols: nat)
    requires MinesOnly(b0, b, rows, cols)
    ensures b == WithMines(b0, rows, cols, Mines(b))
  {
    var w := WithMines(b0, rows, cols, Mines(b));
    forall i | 0 <= i < rows
      ensures b[i] == w[i]
    {
      forall j | 0 <= j < cols
        ensures b[i][j] == w[i][j]
      {
        assert b[i][j].mine <==> Pos(i, j) in Mines(b);
      }
    }
  }
}
