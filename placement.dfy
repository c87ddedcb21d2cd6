/** Mine placement on the first click. The engine draws random cells one
    after another and turns a drawn cell into a mine when it is not a mine
    yet and lies outside the 3x3 block around the clicked cell, until the
    preset number of mines is on the board. Here the random draws are given
    as a sequence. */
module Placement {
  import opened Grid

  function Abs(x: int): nat {
    if x < 0 then -x else x
  }

  /** Outside the 3x3 block around the excluded cell (row or column differs by more than 1). */
  predicate Distant(p: Pos, excluded: Pos) {
    !Near(p, excluded)
  }

  /** The distinct cells among the draws that could still become mines. */
  function Fresh(draws: seq<Pos>, excluded: Pos, placed: set<Pos>): set<Pos> {
    set p | p in draws && Distant(p, excluded) && p !in placed
  }

  /** The mines on the board after placing `need` more mines from the draws,
      starting from `placed`; each draw is kept or rejected in turn. */
  function Place(draws: seq<Pos>, excluded: Pos, placed: set<Pos>, need: nat): (r: set<Pos>)
    ensures placed <= r
    decreases |draws|
  {
    if need == 0 || draws == [] then placed
    else if draws[0] !in placed && Distant(draws[0], excluded) then
      Place(draws[1..], excluded, placed + {draws[0]}, need - 1)
    else
      Place(draws[1..], excluded, placed, need)
  }

  /** Enough draws: all on the board, and at least `mines` distinct eligible cells among them. */
  predicate DrawsSuffice(rows: nat, cols: nat, mines: nat, draws: seq<Pos>, excluded: Pos) {
    && (forall k | 0 <= k < |draws| :: InBounds(rows, cols, draws[k]))
    && mines <= |Fresh(draws, excluded, {})|
  }

  /** While eligible cells remain among the draws, there is a next draw. */
  lemma FreshNonEmpty(draws: seq<Pos>, excluded: Pos, placed: set<Pos>)
    requires |Fresh(draws, excluded, placed)| > 0
    ensures draws != []
  {
  }

  /** One draw: the eligible cells left after it are those before it, less the drawn cell. */
  lemma FreshStep(draws: seq<Pos>, excluded: Pos, placed: set<Pos>)
    requires draws != []
    ensures var d := draws[0];
      var next := if d !in placed && Distant(d, excluded) then placed + {d} else placed;
      Fresh(draws[1..], excluded, next) == Fresh(draws, excluded, placed) - {d}
    ensures var d := draws[0];
      |Fresh(draws, excluded, placed) - {d}| ==
        |Fresh(draws, excluded, placed)| - (if d !in placed && Distant(d, excluded) then 1 else 0)
  {
    var d := draws[0];
    var next := if d !in placed && Distant(d, excluded) then placed + {d} else placed;
    forall p | p in Fresh(draws, excluded, placed) - {d} ensures p in Fresh(draws[1..], excluded, next) {
      var k :| 0 <= k < |draws| && draws[k] == p;
      assert k != 0;
      assert draws[1..][k - 1] == p;
    }
  }

  /** Every mine placement adds is a drawn cell outside the 3x3 block around the excluded cell. */
  lemma {:induction false} PlaceAvoids(draws: seq<Pos>, excluded: Pos, placed: set<Pos>, need: nat)
    ensures forall q | q in Place(draws, excluded, placed, need) && q !in placed ::
      q in draws && Distant(q, excluded)
    decreases |draws|
  {
    if need != 0 && draws != [] {
      var d := draws[0];
      if d !in placed && Distant(d, excluded) {
        PlaceAvoids(draws[1..], excluded, placed + {d}, need - 1);
      } else {
        PlaceAvoids(draws[1..], excluded, placed, need);
      }
    }
  }

  /** With enough eligible draws, placement adds exactly `need` mines. */
  lemma {:induction false} PlaceCount(draws: seq<Pos>, excluded: Pos, placed: set<Pos>, need: nat)
    requires need <= |Fresh(draws, excluded, placed)|
    ensures |Place(draws, excluded, placed, need)| == |placed| + need
    decreases |draws|
  {
    if need != 0 {
      if draws == [] {
        assert false;
      } else {
        var d := draws[0];
        FreshStep(draws, excluded, placed);
        if d !in placed && Distant(d, excluded) {
          PlaceCount(draws[1..], excluded, placed + {d}, need - 1);
        } else {
          PlaceCount(draws[1..], excluded, placed, need);
        }
      }
    }
  }

  /** The mines placed on the first click: exactly `mines` of them, all on the
      board and none in the 3x3 block around the clicked cell. */
  lemma FirstPlacement(rows: nat, cols: nat, mines: nat, draws: seq<Pos>, excluded: Pos)
    requires DrawsSuffice(rows, cols, mines, draws, excluded)
    ensures |Place(draws, excluded, {}, mines)| == mines
    ensures Place(draws, excluded, {}, mines) <= AllCells(rows, cols)
    ensures Place(draws, excluded, {}, mines) * Block(rows, cols, excluded) == {}
  {
    PlaceCount(draws, excluded, {}, mines);
    PlaceAvoids(draws, excluded, {}, mines);
  }

  /** With probability one the random draws eventually cover the board; any
      draws that do cover it suffice whenever the preset leaves nine cells
      free of mines, since the excluded block has at most nine cells. */
  lemma CoveringDrawsSuffice(rows: nat, cols: nat, mines: nat, draws: seq<Pos>, excluded: Pos)
    requires mines + 9 <= rows * cols
    requires forall k | 0 <= k < |draws| :: InBounds(rows, cols, draws[k])
    requires forall q | q in AllCells(rows, cols) :: q in draws
    ensures DrawsSuffice(rows, cols, mines, draws, excluded)
  {
    var all := AllCells(rows, cols);
    var blk := Block(rows, cols, excluded);
    AllCellsCard(rows, cols);
    BlockCard(rows, cols, excluded);
    assert all - blk <= Fresh(draws, excluded, {});
    assert all == (all - blk) + blk;
    SubsetCard(all - blk, Fresh(draws, excluded, {}));
  }

  /** Placement from the draws finds `need` eligible cells before the draws run out. */
  predicate Enough(draws: seq<Pos>, excluded: Pos, placed: set<Pos>, need: nat)
    decreases |draws|
  {
    || need == 0
    || (&& draws != []
        && if draws[0] !in placed && Distant(draws[0], excluded) then
             Enough(draws[1..], excluded, placed + {draws[0]}, need - 1)
           else
             Enough(draws[1..], excluded, placed, need))
  }

  /** With at least `need` distinct eligible cells among the draws, placement finds `need` of them. */
  lemma {:induction false} FreshEnough(draws: seq<Pos>, excluded: Pos, placed: set<Pos>, need: nat)
    requires need <= |Fresh(draws, excluded, placed)|
    ensures Enough(draws, excluded, placed, need)
    decreases |draws|
  {
    if need != 0 {
      FreshNonEmpty(draws, excluded, placed);
      FreshStep(draws, excluded, placed);
      var d := draws[0];
      if d !in placed && Distant(d, excluded) {
        FreshEnough(draws[1..], excluded, placed + {d}, need - 1);
      } else {
        FreshEnough(draws[1..], excluded, placed, need);
      }
    }
  }

  /** While mines are still needed, a draw is left. */
  lemma DrawLeft(rest: seq<Pos>, excluded: Pos, m: set<Pos>, need: nat)
    requires Enough(rest, excluded, m, need) && 0 < need
    ensures rest != []
  {
  }

  /** One pass of the drawing loop over the next draw rest[0]: the drawn
      cell is kept when eligible, and placement then goes on from the draw
      after it with the mines m' and the count need' left. */
  lemma DrawStep(rest: seq<Pos>, excluded: Pos, m: set<Pos>, need: nat, target: set<Pos>, m': set<Pos>, need': nat)
    requires rest != [] && 0 < need
    requires Place(rest, excluded, m, need) == target && Enough(rest, excluded, m, need)
    requires var e := rest[0] !in m && Distant(rest[0], excluded);
      m' == (if e then m + {rest[0]} else m) && need' == (if e then need - 1 else need)
    ensures Place(rest[1..], excluded, m', need') == target && Enough(rest[1..], excluded, m', need')
  {
  }

  /** The board placement leaves behind: the drawn mines added to those of
      b, then every count recomputed. */
  ghost function Seeded(b: Board, rows: nat, cols: nat, mines: nat, draws: seq<Pos>, excluded: Pos): (r: Board)
    requires Shaped(b, rows, cols)
    ensures Shaped(r, rows, cols)
  {
    Recounted(WithMines(b, rows, cols, Place(draws, excluded, Mines(b), mines)), rows, cols)
  }

  /** Placement changes mines and counts only. */
  lemma SeededKeeps(b: Board, rows: nat, cols: nat, mines: nat, draws: seq<Pos>, excluded: Pos)
    requires Shaped(b, rows, cols)
    ensures var r := Seeded(b, rows, cols, mines, draws, excluded);
      && CountsCorrect(r, rows, cols)
      && Revealed(r) == Revealed(b) && HiddenCount(r) == HiddenCount(b) && Flagged(r) == Flagged(b)
      && forall i, j | 0 <= i < rows && 0 <= j < cols ::
           r[i][j].revealed == b[i][j].revealed && r[i][j].flagged == b[i][j].flagged
  {
    var m := Place(draws, excluded, Mines(b), mines);
    WithMinesFacts(b, rows, cols, m);
    MinesOnlyRecounted(b, WithMines(b, rows, cols, m), rows, cols);
  }

  /** With draws on the board, the mines after placement are exactly those Place gives. */
  lemma SeededMines(b: Board, rows: nat, cols: nat, mines: nat, draws: seq<Pos>, excluded: Pos)
    requires Shaped(b, rows, cols)
    requires forall k | 0 <= k < |draws| :: InBounds(rows, cols, draws[k])
    ensures Mines(Seeded(b, rows, cols, mines, draws, excluded)) == Place(draws, excluded, Mines(b), mines)
  {
    var m := Place(draws, excluded, Mines(b), mines);
    var w := WithMines(b, rows, cols, m);
    WithMinesFacts(b, rows, cols, m);
    MinesOnlyRecounted(b, w, rows, cols);
    MinesWithin(b, rows, cols);
    PlaceAvoids(draws, excluded, Mines(b), mines);
    forall q | q in m
      ensures q in AllCells(rows, cols)
    {
      if q !in Mines(b) {
        var k :| 0 <= k < |draws| && draws[k] == q;
        assert InBounds(rows, cols, draws[k]);
      }
    }
    assert m * AllCells(rows, cols) == m;
  }
}
