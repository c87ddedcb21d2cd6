/** What a click reveals. Starting from a clicked safe cell, revealing
    spreads from every newly revealed cell whose count is zero to its
    neighbours that are neither mines nor flagged; a newly revealed cell
    with a non-zero count is revealed but spreads no further. */
module Flood {
  import opened Grid

  /** Every neighbour of p that is neither a mine nor flagged is revealed. */
  ghost predicate ZeroClosed(b: Board, rows: nat, cols: nat, p: Pos)
    requires Shaped(b, rows, cols)
  {
    forall i, j | 0 <= i < rows && 0 <= j < cols && Near(Pos(i, j), p) ::
      !b[i][j].mine && !b[i][j].flagged ==> b[i][j].revealed
  }

  /** Measured against the cells revealed before: every cell revealed since
      is neither a mine nor flagged, and every one of them with count zero
      has had its whole neighbourhood revealed. */
  ghost predicate Flooded(b: Board, rows: nat, cols: nat, before: set<Pos>)
    requires Shaped(b, rows, cols)
  {
    forall i, j | 0 <= i < rows && 0 <= j < cols && b[i][j].revealed && Pos(i, j) !in before ::
      && !b[i][j].mine && !b[i][j].flagged
      && (b[i][j].adjacentMines == 0 ==> ZeroClosed(b, rows, cols, Pos(i, j)))
  }

  /** A path along which a flood can travel: every cell on it lies on the
      board, was hidden before, is neither a mine nor flagged, and every
      cell but the last has count zero and is next to its successor. */
  ghost predicate FloodPath(b: Board, rows: nat, cols: nat, before: set<Pos>, path: seq<Pos>)
    requires Shaped(b, rows, cols)
  {
    && |path| > 0
    && (forall k | 0 <= k < |path| ::
          InBounds(rows, cols, path[k]) && path[k] !in before &&
          !b[path[k].row][path[k].col].mine && !b[path[k].row][path[k].col].flagged)
    && (forall k | 0 <= k < |path| - 1 ::
          Near(path[k], path[k + 1]) && b[path[k].row][path[k].col].adjacentMines == 0)
  }

  ghost predicate Reach(b: Board, rows: nat, cols: nat, before: set<Pos>, from: Pos, to: Pos)
    requires Shaped(b, rows, cols)
  {
    exists path :: FloodPath(b, rows, cols, before, path) && path[0] == from && path[|path| - 1] == to
  }

  /** Every cell revealed since `before` is reachable from origin. */
  ghost predicate ReachedFrom(b: Board, rows: nat, cols: nat, before: set<Pos>, origin: Pos)
    requires Shaped(b, rows, cols)
  {
    forall i, j | 0 <= i < rows && 0 <= j < cols && b[i][j].revealed && Pos(i, j) !in before ::
      Reach(b, rows, cols, before, origin, Pos(i, j))
  }

  /** Every cell revealed since `before` is reachable from a neighbour of centre. */
  ghost predicate ReachedAround(b: Board, rows: nat, cols: nat, before: set<Pos>, centre: Pos)
    requires Shaped(b, rows, cols)
  {
    forall i, j | 0 <= i < rows && 0 <= j < cols && b[i][j].revealed && Pos(i, j) !in before ::
      exists q | Near(centre, q) :: Reach(b, rows, cols, before, q, Pos(i, j))
  }

  // ---------------------------------------------------------------------

  lemma ZeroClosedGrows(b1: Board, b2: Board, rows: nat, cols: nat, p: Pos)
    requires RevealOnly(b1, b2, rows, cols) && ZeroClosed(b1, rows, cols, p)
    ensures ZeroClosed(b2, rows, cols, p)
  {
  }

  /** Nothing has been revealed since the current board. */
  lemma FloodedNothingNew(b: Board, rows: nat, cols: nat, origin: Pos)
    requires Shaped(b, rows, cols)
    ensures Flooded(b, rows, cols, Revealed(b))
    ensures ReachedFrom(b, rows, cols, Revealed(b), origin)
    ensures ReachedAround(b, rows, cols, Revealed(b), origin)
  {
    forall i, j | 0 <= i < rows && 0 <= j < cols && b[i][j].revealed
      ensures Pos(i, j) in Revealed(b)
    {
    }
  }

  /** A flood reveals no mine. */
  lemma FloodedNoMine(b1: Board, b2: Board, rows: nat, cols: nat)
    requires RevealOnly(b1, b2, rows, cols) && !MineRevealed(b1, rows, cols)
    requires Flooded(b2, rows, cols, Revealed(b1))
    ensures !MineRevealed(b2, rows, cols)
  {
    forall i, j | 0 <= i < rows && 0 <= j < cols && b2[i][j].revealed
      ensures !b2[i][j].mine
    {
      if !b1[i][j].revealed {
        assert Pos(i, j) !in Revealed(b1);
      }
    }
  }

  /** Two floods one after the other make one flood. */
  lemma FloodedTrans(b1: Board, b2: Board, rows: nat, cols: nat, before: set<Pos>)
    requires RevealOnly(b1, b2, rows, cols)
    requires Flooded(b1, rows, cols, before) && Flooded(b2, rows, cols, Revealed(b1))
    ensures Flooded(b2, rows, cols, before)
  {
    forall i, j | 0 <= i < rows && 0 <= j < cols && b2[i][j].revealed && Pos(i, j) !in before
      ensures !b2[i][j].mine && !b2[i][j].flagged
      ensures b2[i][j].adjacentMines == 0 ==> ZeroClosed(b2, rows, cols, Pos(i, j))
    {
      if b1[i][j].revealed {
        if b2[i][j].adjacentMines == 0 {
          ZeroClosedGrows(b1, b2, rows, cols, Pos(i, j));
        }
      } else {
        assert Pos(i, j) !in Revealed(b1);
      }
    }
  }

  /** A click on a hidden safe cell p that reveals p, and, when p has count
      zero, then floods from p until all of p's neighbourhood is revealed,
      is a flood measured from the board before the click. */
  lemma FloodedFromClick(b0: Board, b2: Board, rows: nat, cols: nat, p: Pos)
    requires Shaped(b0, rows, cols) && InBounds(rows, cols, p)
    requires var c := b0[p.row][p.col]; !c.mine && !c.flagged && !c.revealed
    requires var bp := Update(b0, p, b0[p.row][p.col].(revealed := true));
      && RevealOnly(bp, b2, rows, cols)
      && Flooded(b2, rows, cols, Revealed(bp))
      && (b0[p.row][p.col].adjacentMines == 0 ==> ZeroClosed(b2, rows, cols, p))
    ensures Flooded(b2, rows, cols, Revealed(b0))
  {
    var bp := Update(b0, p, b0[p.row][p.col].(revealed := true));
    UpdateSets(b0, p, b0[p.row][p.col].(revealed := true));
    forall i, j | 0 <= i < rows && 0 <= j < cols && b2[i][j].revealed && Pos(i, j) !in Revealed(b0)
      ensures !b2[i][j].mine && !b2[i][j].flagged
      ensures b2[i][j].adjacentMines == 0 ==> ZeroClosed(b2, rows, cols, Pos(i, j))
    {
      if Pos(i, j) != p {
        assert Pos(i, j) !in Revealed(bp);
      }
    }
  }

  /** Completeness: a flood reveals the end of every flood path from a cell
      it revealed. */
  lemma {:induction false} FloodReaches(b: Board, rows: nat, cols: nat, before: set<Pos>, path: seq<Pos>)
    requires Shaped(b, rows, cols)
    requires Flooded(b, rows, cols, before) && FloodPath(b, rows, cols, before, path)
    requires b[path[0].row][path[0].col].revealed
    ensures b[path[|path| - 1].row][path[|path| - 1].col].revealed
    decreases |path|
  {
    if |path| > 1 {
      var p := path[0];
      assert ZeroClosed(b, rows, cols, p);
      assert Near(path[1], p);
      assert b[path[1].row][path[1].col].revealed;
      assert FloodPath(b, rows, cols, before, path[1..]);
      FloodReaches(b, rows, cols, before, path[1..]);
    }
  }

  /** Flood paths depend only on mines, flags and counts, and a path that
      avoids a set of cells avoids every subset of it. */
  lemma PathTransfer(b1: Board, b2: Board, rows: nat, cols: nat,
                     before: set<Pos>, smaller: set<Pos>, path: seq<Pos>)
    requires RevealOnly(b1, b2, rows, cols) && smaller <= before
    requires FloodPath(b1, rows, cols, before, path)
    ensures FloodPath(b2, rows, cols, smaller, path)
  {
  }

  /** The cells reachable around a centre stay reachable as the flood goes on,
      and the cells a neighbour q floods from are reachable from q. */
  lemma ReachedAroundStep(b1: Board, b2: Board, rows: nat, cols: nat,
                          before: set<Pos>, centre: Pos, q: Pos)
    requires RevealOnly(b1, b2, rows, cols) && before <= Revealed(b1)
    requires ReachedAround(b1, rows, cols, before, centre)
    requires ReachedFrom(b2, rows, cols, Revealed(b1), q) && Near(centre, q)
    ensures ReachedAround(b2, rows, cols, before, centre)
  {
    forall i, j | 0 <= i < rows && 0 <= j < cols && b2[i][j].revealed && Pos(i, j) !in before
      ensures exists q' | Near(centre, q') :: Reach(b2, rows, cols, before, q', Pos(i, j))
    {
      if b1[i][j].revealed {
        var q' :| Near(centre, q') && Reach(b1, rows, cols, before, q', Pos(i, j));
        var path :| FloodPath(b1, rows, cols, before, path) && path[0] == q' && path[|path| - 1] == Pos(i, j);
        PathTransfer(b1, b2, rows, cols, before, before, path);
        assert Reach(b2, rows, cols, before, q', Pos(i, j));
      } else {
        assert Pos(i, j) !in Revealed(b1);
        var path :| FloodPath(b2, rows, cols, Revealed(b1), path) && path[0] == q && path[|path| - 1] == Pos(i, j);
        PathTransfer(b2, b2, rows, cols, Revealed(b1), before, path);
        assert Reach(b2, rows, cols, before, q, Pos(i, j));
      }
    }
  }

  /** Soundness of a click: every cell revealed by clicking p and flooding
      from it is reachable from p along a flood path. */
  lemma ReachedFromClick(b0: Board, b2: Board, rows: nat, cols: nat, p: Pos)
    requires Shaped(b0, rows, cols) && InBounds(rows, cols, p)
    requires var c := b0[p.row][p.col]; !c.mine && !c.flagged && !c.revealed
    requires var bp := Update(b0, p, b0[p.row][p.col].(revealed := true));
      && RevealOnly(bp, b2, rows, cols)
      && (b0[p.row][p.col].adjacentMines == 0 ==> ReachedAround(b2, rows, cols, Revealed(bp), p))
      && (b0[p.row][p.col].adjacentMines != 0 ==> b2 == bp)
    ensures ReachedFrom(b2, rows, cols, Revealed(b0), p)
  {
    var c := b0[p.row][p.col];
    var bp := Update(b0, p, c.(revealed := true));
    UpdateSets(b0, p, c.(revealed := true));
    forall i, j | 0 <= i < rows && 0 <= j < cols && b2[i][j].revealed && Pos(i, j) !in Revealed(b0)
      ensures Reach(b2, rows, cols, Revealed(b0), p, Pos(i, j))
    {
      if Pos(i, j) == p {
        assert FloodPath(b2, rows, cols, Revealed(b0), [p]);
        ReachBy(b2, rows, cols, Revealed(b0), [p]);
      } else {
        assert Pos(i, j) !in Revealed(bp);
        assert c.adjacentMines == 0;
        assert b2[p.row][p.col] == c.(revealed := b2[p.row][p.col].revealed);
        ReachThroughZero(b2, rows, cols, Revealed(b0), Revealed(bp), p, Pos(i, j));
      }
    }
  }

  /** A cell reachable from a neighbour of the zero cell p is reachable from p. */
  lemma ReachThroughZero(b: Board, rows: nat, cols: nat, before: set<Pos>, wider: set<Pos>, p: Pos, t: Pos)
    requires Shaped(b, rows, cols) && InBounds(rows, cols, p) && before <= wider
    requires p !in before && !b[p.row][p.col].mine && !b[p.row][p.col].flagged
    requires b[p.row][p.col].adjacentMines == 0
    requires exists q | Near(p, q) :: Reach(b, rows, cols, wider, q, t)
    ensures Reach(b, rows, cols, before, p, t)
  {
    var q :| Near(p, q) && Reach(b, rows, cols, wider, q, t);
    var path :| FloodPath(b, rows, cols, wider, path) && path[0] == q && path[|path| - 1] == t;
    PathPrepend(b, rows, cols, before, wider, p, path);
    var longer := [p] + path;
    assert longer[0] == p && longer[|longer| - 1] == t;
    ReachBy(b, rows, cols, before, longer);
  }

  /** A flood path reaches its last cell from its first. */
  lemma ReachBy(b: Board, rows: nat, cols: nat, before: set<Pos>, path: seq<Pos>)
    requires Shaped(b, rows, cols) && FloodPath(b, rows, cols, before, path)
    ensures Reach(b, rows, cols, before, path[0], path[|path| - 1])
  {
  }

  /** A flood path starting next to p extends back to p when p is outside
      `before` and is neither a mine nor flagged and has count zero. */
  lemma PathPrepend(b: Board, rows: nat, cols: nat, before: set<Pos>, wider: set<Pos>, p: Pos, path: seq<Pos>)
    requires Shaped(b, rows, cols) && InBounds(rows, cols, p) && before <= wider
    requires FloodPath(b, rows, cols, wider, path) && Near(p, path[0])
    requires p !in before && !b[p.row][p.col].mine && !b[p.row][p.col].flagged
    requires b[p.row][p.col].adjacentMines == 0
    ensures FloodPath(b, rows, cols, before, [p] + path)
  {
    var longer := [p] + path;
    forall k | 0 <= k < |longer|
      ensures InBounds(rows, cols, longer[k]) && longer[k] !in before
      ensures !b[longer[k].row][longer[k].col].mine && !b[longer[k].row][longer[k].col].flagged
    {
      if k > 0 {
        assert longer[k] == path[k - 1];
      }
    }
    forall k | 0 <= k < |longer| - 1
      ensures Near(longer[k], longer[k + 1]) && b[longer[k].row][longer[k].col].adjacentMines == 0
    {
      if k > 0 {
        assert longer[k] == path[k - 1] && longer[k + 1] == path[k];
      }
    }
  }

  /** The cells a click reveals are exactly those reachable from the clicked
      cell along a flood path: the whole zero region around it together with
      its border of cells with non-zero counts, short of mines and flags. */
  lemma FloodRegion(b: Board, rows: nat, cols: nat, before: set<Pos>, p: Pos, q: Pos)
    requires Shaped(b, rows, cols) && InBounds(rows, cols, p) && InBounds(rows, cols, q)
    requires b[p.row][p.col].revealed
    requires Flooded(b, rows, cols, before) && ReachedFrom(b, rows, cols, before, p)
    ensures (b[q.row][q.col].revealed && q !in before) <==> Reach(b, rows, cols, before, p, q)
  {
    if Reach(b, rows, cols, before, p, q) {
      var path :| FloodPath(b, rows, cols, before, path) && path[0] == p && path[|path| - 1] == q;
      FloodReaches(b, rows, cols, before, path);
    }
  }

  // ---------------------------------------------------------------------
  // The neighbour scan of a flood step.

  /** The scan of the 3x3 block around p has passed every position before
      (r, c), row by row: measured from b0 the board has only gained reveals,
      shows no mine, satisfies the flood invariants, and every passed
      neighbour that is neither a mine nor flagged is revealed. */
  ghost predicate Sweeping(b0: Board, b: Board, rows: nat, cols: nat, p: Pos, r: int, c: int) {
    && RevealOnly(b0, b, rows, cols) && !MineRevealed(b, rows, cols)
    && Flooded(b, rows, cols, Revealed(b0))
    && ReachedAround(b, rows, cols, Revealed(b0), p)
    && forall i, j | 0 <= i < rows && 0 <= j < cols && Near(Pos(i, j), p) && Before(i, j, r, c) ::
         !b[i][j].mine && !b[i][j].flagged ==> b[i][j].revealed
  }

  /** The finished scan: as above, and the whole block around p is closed. */
  ghost predicate Swept(b0: Board, b: Board, rows: nat, cols: nat, p: Pos) {
    && RevealOnly(b0, b, rows, cols) && !MineRevealed(b, rows, cols)
    && Flooded(b, rows, cols, Revealed(b0))
    && ReachedAround(b, rows, cols, Revealed(b0), p)
    && ZeroClosed(b, rows, cols, p)
  }

  lemma SweepStart(b0: Board, rows: nat, cols: nat, p: Pos)
    requires Shaped(b0, rows, cols) && !MineRevealed(b0, rows, cols)
    ensures Sweeping(b0, b0, rows, cols, p, p.row - 1, p.col - 1)
  {
    FloodedNothingNew(b0, rows, cols, p);
  }

  /** A neighbour the scan does not click: off the board, revealed or a mine. */
  lemma SweepSkipped(b0: Board, b: Board, rows: nat, cols: nat, p: Pos, r: int, c: int)
    requires Sweeping(b0, b, rows, cols, p, r, c)
    requires !(0 <= r < rows && 0 <= c < cols && !b[r][c].revealed && !b[r][c].mine)
    ensures Sweeping(b0, b, rows, cols, p, r, c + 1)
  {
    forall i, j | 0 <= i < rows && 0 <= j < cols && Near(Pos(i, j), p) && Before(i, j, r, c + 1)
      ensures !b[i][j].mine && !b[i][j].flagged ==> b[i][j].revealed
    {
      if !Before(i, j, r, c) {
        assert i == r && j == c;
      }
    }
  }

  /** A neighbour q the scan clicks: the click left it flagged and the board
      unchanged, or revealed it and flooded from it. */
  lemma SweepClicked(b0: Board, b1: Board, b2: Board, rows: nat, cols: nat, p: Pos, q: Pos)
    requires Sweeping(b0, b1, rows, cols, p, q.row, q.col) && InBounds(rows, cols, q) && Near(p, q)
    requires RevealOnly(b1, b2, rows, cols) && !MineRevealed(b2, rows, cols)
    requires b2[q.row][q.col].flagged || b2[q.row][q.col].revealed
    requires Flooded(b2, rows, cols, Revealed(b1)) && ReachedFrom(b2, rows, cols, Revealed(b1), q)
    ensures Sweeping(b0, b2, rows, cols, p, q.row, q.col + 1)
  {
    RevealOnlyKeeps(b0, b1, rows, cols);
    RevealOnlyTrans(b0, b1, b2, rows, cols);
    FloodedTrans(b1, b2, rows, cols, Revealed(b0));
    ReachedAroundStep(b1, b2, rows, cols, Revealed(b0), p, q);
    forall i, j | 0 <= i < rows && 0 <= j < cols && Near(Pos(i, j), p) && Before(i, j, q.row, q.col + 1)
      ensures !b2[i][j].mine && !b2[i][j].flagged ==> b2[i][j].revealed
    {
      if Before(i, j, q.row, q.col) {
        assert b2[i][j] == b1[i][j].(revealed := b2[i][j].revealed);
      } else {
        assert i == q.row && j == q.col;
      }
    }
  }

  lemma SweepRowEnd(b0: Board, b: Board, rows: nat, cols: nat, p: Pos, r: int)
    requires Sweeping(b0, b, rows, cols, p, r, p.col + 2)
    ensures Sweeping(b0, b, rows, cols, p, r + 1, p.col - 1)
  {
  }

  lemma SweepEnd(b0: Board, b: Board, rows: nat, cols: nat, p: Pos)
    requires Sweeping(b0, b, rows, cols, p, p.row + 2, p.col - 1)
    ensures Swept(b0, b, rows, cols, p)
  {
  }
}
