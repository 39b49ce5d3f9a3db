/**
 * A mid-game position with 25 black and 22 white stones, and what the rules
 * compute on it for White at (0, 3): the flip counts of the move, one flipped
 * run, and the whole move.
 */
module SampleBoard {
  import opened Pieces
  import opened Coords
  import opened Rules

  function SampleGrid(): (g: Grid)
    ensures IsGrid(g)
  {
    [ [N, N, W, W, N, B, N, N],
      [N, N, N, W, W, B, N, B],
      [B, W, W, W, B, W, W, B],
      [N, B, W, B, B, W, W, B],
      [B, B, B, W, W, B, W, B],
      [W, N, B, W, W, W, B, B],
      [N, N, B, W, W, W, N, B],
      [N, B, B, B, B, B, N, N] ]
  }

  function SampleState(): BoardState {
    BoardState(SampleGrid(), 25, 22)
  }

  /** White at (0, 3) flips one stone to the right, one downwards and two down-right. */
  lemma SampleMoveFlips()
    ensures MoveAt(SampleGrid(), White, Coord(0, 3)).flips == [0, 0, 0, 0, 1, 0, 1, 2]
  {
    DirectionsAreSteps();
    var g, pos := SampleGrid(), Coord(0, 3);
    assert Get(g, pos) == N;
    forall i | 0 <= i < 8
      ensures FlipRun(g, White, pos, Directions[i]) == [0, 0, 0, 0, 1, 0, 1, 2][i]
    {
      SampleRun(i);
    }
    MoveFlipsOf(g, White, pos, [0, 0, 0, 0, 1, 0, 1, 2]);
  }

  /** On an empty cell, the move's flip counts are the eight runs. */
  lemma MoveFlipsOf(g: Grid, piece: Piece, pos: Coord, expected: seq<int>)
    requires IsGrid(g) && IsInRange(pos) && Get(g, pos) == N && |expected| == 8
    requires |Directions| == 8 && forall i :: 0 <= i < 8 ==> IsStep(Directions[i])
    requires forall i :: 0 <= i < 8 ==> FlipRun(g, piece, pos, Directions[i]) == expected[i]
    ensures MoveAt(g, piece, pos).flips == expected
  {
  }

  /**
   * The run from (0, 3) in direction `i`: off the board, an empty cell or a
   * white stone closes five directions; right, down and down-right a black
   * run ends on a white stone.
   */
  lemma SampleRun(i: int)
    requires 0 <= i < 8
    ensures |Directions| == 8 && IsStep(Directions[i])
    ensures FlipRun(SampleGrid(), White, Coord(0, 3), Directions[i]) == [0, 0, 0, 0, 1, 0, 1, 2][i]
  {
    DirectionsAreSteps();
    var g, pos, dir := SampleGrid(), Coord(0, 3), Directions[i];
    if i == 0 {
      RunClosedAtOnce(g, White, pos, dir, Coord(-1, 2));
    } else if i == 1 {
      RunOpenAfterOne(g, White, pos, dir, Coord(0, 2), Coord(0, 1));
    } else if i == 2 {
      RunClosedAtOnce(g, White, pos, dir, Coord(1, 2));
    } else if i == 3 {
      RunClosedAtOnce(g, White, pos, dir, Coord(-1, 3));
    } else if i == 4 {
      RunOfOne(g, White, pos, dir, Coord(1, 3), Coord(2, 3));
    } else if i == 5 {
      RunClosedAtOnce(g, White, pos, dir, Coord(-1, 4));
    } else if i == 6 {
      RunOfOne(g, White, pos, dir, Coord(0, 4), Coord(0, 5));
    } else {
      RunOfTwo(g, White, pos, dir, Coord(1, 4), Coord(2, 5), Coord(3, 6));
    }
  }

  /** `b` is one `dir` step on from `a`. */
  predicate StepTo(a: Coord, dir: Coord, b: Coord) {
    b.x as int == a.x + dir.x && b.y as int == a.y + dir.y
  }

  /** A ray whose first cell is empty, off the board or the mover's own flips nothing. */
  lemma RunClosedAtOnce(g: Grid, piece: Piece, pos: Coord, dir: Coord, c1: Coord)
    requires IsGrid(g) && IsInRange(pos) && IsStep(dir)
    requires StepTo(pos, dir, c1) && (Get(g, c1) == N || Get(g, c1) == Some(piece))
    ensures FlipRun(g, piece, pos, dir) == 0
  {
    assert Along(pos, dir, 1) == c1;
    RunFromStep(g, piece, pos, dir, 1);
  }

  /** An opponent stone followed by an empty cell flips nothing. */
  lemma RunOpenAfterOne(g: Grid, piece: Piece, pos: Coord, dir: Coord, c1: Coord, c2: Coord)
    requires IsGrid(g) && IsInRange(pos) && IsStep(dir)
    requires StepTo(pos, dir, c1) && Get(g, c1) == Some(Opponent(piece))
    requires StepTo(c1, dir, c2) && Get(g, c2) == N
    ensures FlipRun(g, piece, pos, dir) == 0
  {
    assert Along(pos, dir, 1) == c1;
    assert Along(pos, dir, 2) == c2;
    RunFromStep(g, piece, pos, dir, 1);
    RunFromStep(g, piece, pos, dir, 2);
  }

  /** One opponent stone closed by the mover's stone is a run of one. */
  lemma RunOfOne(g: Grid, piece: Piece, pos: Coord, dir: Coord, c1: Coord, c2: Coord)
    requires IsGrid(g) && IsInRange(pos) && IsStep(dir)
    requires StepTo(pos, dir, c1) && Get(g, c1) == Some(Opponent(piece))
    requires StepTo(c1, dir, c2) && Get(g, c2) == Some(piece)
    ensures FlipRun(g, piece, pos, dir) == 1
  {
    assert Along(pos, dir, 1) == c1;
    assert Along(pos, dir, 2) == c2;
    RunFromStep(g, piece, pos, dir, 1);
    RunFromStep(g, piece, pos, dir, 2);
  }

  /** Two opponent stones closed by the mover's stone are a run of two. */
  lemma RunOfTwo(g: Grid, piece: Piece, pos: Coord, dir: Coord, c1: Coord, c2: Coord, c3: Coord)
    requires IsGrid(g) && IsInRange(pos) && IsStep(dir)
    requires StepTo(pos, dir, c1) && Get(g, c1) == Some(Opponent(piece))
    requires StepTo(c1, dir, c2) && Get(g, c2) == Some(Opponent(piece))
    requires StepTo(c2, dir, c3) && Get(g, c3) == Some(piece)
    ensures FlipRun(g, piece, pos, dir) == 2
  {
    assert Along(pos, dir, 1) == c1;
    assert Along(pos, dir, 2) == c2;
    assert Along(pos, dir, 3) == c3;
    RunFromStep(g, piece, pos, dir, 1);
    RunFromStep(g, piece, pos, dir, 2);
    RunFromStep(g, piece, pos, dir, 3);
  }

  /** Flipping two stones down-right from (0, 3): (1, 4) and (2, 5) turn white, and two stones change hands. */
  lemma SampleFlipDir()
    ensures RunInRange(Coord(0, 3), Coord(1, 1), 2)
    ensures var r := FlipDir(SampleState(), White, Coord(0, 3), Coord(1, 1), 2);
      r.white == 24 && r.black == 23 && r.grid == FlippedGrid()
  {
    var g := SampleGrid();
    var pos, dir := Coord(0, 3), Coord(1, 1);
    assert Along(pos, dir, 1) == Coord(1, 4);
    assert Along(pos, dir, 2) == Coord(2, 5);
    assert RunInRange(pos, dir, 2);
    var g1 := FlipAlong(g, White, pos, dir, 1);
    assert g1 == SetCell(g, Coord(1, 4), W);
    assert g1[4] == [B, W, B, W, W, B, W, B];
    var g2 := FlipAlong(g, White, pos, dir, 2);
    assert g2 == SetCell(g1, Coord(2, 5), W);
    assert g2[5] == [W, N, W, W, W, W, B, B];
    assert g2[4] == g1[4];
    forall y | 0 <= y < 8 ensures g2[y] == FlippedGrid()[y] {
    }
  }

  /** The sample grid after the down-right run from (0, 3) is flipped to white. */
  function FlippedGrid(): Grid {
    [ [N, N, W, W, N, B, N, N],
      [N, N, N, W, W, B, N, B],
      [B, W, W, W, B, W, W, B],
      [N, B, W, B, B, W, W, B],
      [B, W, B, W, W, B, W, B],
      [W, N, W, W, W, W, B, B],
      [N, N, B, W, W, W, N, B],
      [N, B, B, B, B, B, N, N] ]
  }

  /** The sample grid after White plays (0, 3). */
  function MovedGrid(): Grid {
    [ [N, N, W, W, N, B, N, N],
      [N, N, N, W, W, B, N, B],
      [B, W, W, W, B, W, W, B],
      [W, W, W, B, B, W, W, B],
      [W, W, B, W, W, B, W, B],
      [W, N, W, W, W, W, B, B],
      [N, N, B, W, W, W, N, B],
      [N, B, B, B, B, B, N, N] ]
  }

  /** The runs of White's move at (0, 3) all stay on the board (they are the runs `MoveAt` found). */
  lemma SampleRunsInRange()
    ensures RunsInRange(Coord(0, 3), [0, 0, 0, 0, 1, 0, 1, 2])
  {
    SampleMoveFlips();
  }

  /** White playing (0, 3) gains the placed stone and four flipped ones; Black loses four. */
  lemma SampleApplyMove()
    ensures IsInRange(Coord(0, 3)) && RunsInRange(Coord(0, 3), [0, 0, 0, 0, 1, 0, 1, 2])
    ensures var r := ApplyMove(SampleState(), White, Move(Coord(0, 3), [0, 0, 0, 0, 1, 0, 1, 2]));
      r.white == 27 && r.black == 21 && r.grid == MovedGrid()
  {
    SampleRunsInRange();
    SamplePlace();
    SampleFlips();
  }

  /** The stone placed at (0, 3), before any flip. */
  function PlacedGrid(): Grid {
    [ [N, N, W, W, N, B, N, N],
      [N, N, N, W, W, B, N, B],
      [B, W, W, W, B, W, W, B],
      [W, B, W, B, B, W, W, B],
      [B, B, B, W, W, B, W, B],
      [W, N, B, W, W, W, B, B],
      [N, N, B, W, W, W, N, B],
      [N, B, B, B, B, B, N, N] ]
  }

  /** After the run to the right of (0, 3). */
  function RightGrid(): Grid {
    [ [N, N, W, W, N, B, N, N],
      [N, N, N, W, W, B, N, B],
      [B, W, W, W, B, W, W, B],
      [W, W, W, B, B, W, W, B],
      [B, B, B, W, W, B, W, B],
      [W, N, B, W, W, W, B, B],
      [N, N, B, W, W, W, N, B],
      [N, B, B, B, B, B, N, N] ]
  }

  /** After the run below (0, 3) as well. */
  function DownGrid(): Grid {
    [ [N, N, W, W, N, B, N, N],
      [N, N, N, W, W, B, N, B],
      [B, W, W, W, B, W, W, B],
      [W, W, W, B, B, W, W, B],
      [W, B, B, W, W, B, W, B],
      [W, N, B, W, W, W, B, B],
      [N, N, B, W, W, W, N, B],
      [N, B, B, B, B, B, N, N] ]
  }

  lemma SamplePlace()
    ensures Place(SampleState(), White, Coord(0, 3)) == BoardState(PlacedGrid(), 25, 23)
  {
    var g := SampleGrid();
    assert SetCell(g, Coord(0, 3), W)[3] == PlacedGrid()[3];
    forall y | 0 <= y < 8 ensures SetCell(g, Coord(0, 3), W)[y] == PlacedGrid()[y] {
    }
  }

  /** A run of length one recolours the single cell next to `pos`. */
  lemma FlipDirOne(s: BoardState, piece: Piece, pos: Coord, dir: Coord)
    requires IsGrid(s.grid) && IsInRange(pos) && IsStep(dir) && RunInRange(pos, dir, 1)
    ensures FlipDir(s, piece, pos, dir, 1).grid == SetCell(s.grid, Along(pos, dir, 1), Some(piece))
  {
    assert FlipAlong(s.grid, piece, pos, dir, 0) == s.grid;
  }

  /** A run of length two recolours the two cells next to `pos`, nearer one first. */
  lemma FlipDirTwo(s: BoardState, piece: Piece, pos: Coord, dir: Coord)
    requires IsGrid(s.grid) && IsInRange(pos) && IsStep(dir) && RunInRange(pos, dir, 2)
    ensures FlipDir(s, piece, pos, dir, 2).grid ==
      SetCell(SetCell(s.grid, Along(pos, dir, 1), Some(piece)), Along(pos, dir, 2), Some(piece))
  {
    assert RunInRange(pos, dir, 1);
    assert FlipAlong(s.grid, piece, pos, dir, 0) == s.grid;
    assert FlipAlong(s.grid, piece, pos, dir, 1) == SetCell(s.grid, Along(pos, dir, 1), Some(piece));
  }

  lemma RightStep()
    ensures SetCell(PlacedGrid(), Coord(1, 3), W) == RightGrid()
  {
    var g := SetCell(PlacedGrid(), Coord(1, 3), W);
    assert g[3] == RightGrid()[3];
    forall y | 0 <= y < 8 ensures g[y] == RightGrid()[y] {
    }
  }

  lemma DownStep()
    ensures SetCell(RightGrid(), Coord(0, 4), W) == DownGrid()
  {
    var g := SetCell(RightGrid(), Coord(0, 4), W);
    assert g[4] == DownGrid()[4];
    forall y | 0 <= y < 8 ensures g[y] == DownGrid()[y] {
    }
  }

  lemma DiagonalStep()
    ensures SetCell(SetCell(DownGrid(), Coord(1, 4), W), Coord(2, 5), W) == MovedGrid()
  {
    var g1 := SetCell(DownGrid(), Coord(1, 4), W);
    assert g1[4] == MovedGrid()[4];
    var g := SetCell(g1, Coord(2, 5), W);
    assert g[5] == MovedGrid()[5];
    assert g[4] == g1[4];
    forall y | 0 <= y < 8 ensures g[y] == MovedGrid()[y] {
    }
  }

  /** Directions whose counts are all zero leave the board as it was. */
  lemma {:induction false} ZeroCountsSkip(s: BoardState, piece: Piece, pos: Coord, flips: Flips, i: nat)
    requires IsGrid(s.grid) && IsInRange(pos) && RunsInRange(pos, flips) && i <= 8
    requires forall j :: 0 <= j < i ==> flips[j] == 0
    ensures FlipAll(s, piece, pos, flips, i) == s
  {
    if i > 0 {
      ZeroCountsSkip(s, piece, pos, flips, i - 1);
    }
  }

  /** The placed board, with the four leading zero counts skipped and the run to the right flipped. */
  lemma SampleFlipsRight()
    ensures RunsInRange(Coord(0, 3), [0, 0, 0, 0, 1, 0, 1, 2])
    ensures FlipAll(BoardState(PlacedGrid(), 25, 23), White, Coord(0, 3), [0, 0, 0, 0, 1, 0, 1, 2], 5) ==
      BoardState(RightGrid(), 24, 24)
  {
    SampleRunsInRange();
    DirectionsAreSteps();
    var p := BoardState(PlacedGrid(), 25, 23);
    var pos := Coord(0, 3);
    var flips: Flips := [0, 0, 0, 0, 1, 0, 1, 2];
    ZeroCountsSkip(p, White, pos, flips, 4);
    FlipDirOne(p, White, pos, Directions[4]);
    assert Along(pos, Directions[4], 1) == Coord(1, 3);
    RightStep();
  }

  /** Then the run below (0, 3). */
  lemma SampleFlipsDown()
    ensures RunsInRange(Coord(0, 3), [0, 0, 0, 0, 1, 0, 1, 2])
    ensures FlipAll(BoardState(PlacedGrid(), 25, 23), White, Coord(0, 3), [0, 0, 0, 0, 1, 0, 1, 2], 7) ==
      BoardState(DownGrid(), 23, 25)
  {
    SampleFlipsRight();
    DirectionsAreSteps();
    var p := BoardState(PlacedGrid(), 25, 23);
    var pos := Coord(0, 3);
    var flips: Flips := [0, 0, 0, 0, 1, 0, 1, 2];
    var a5 := BoardState(RightGrid(), 24, 24);
    assert FlipAll(p, White, pos, flips, 6) == a5;
    FlipDirOne(a5, White, pos, Directions[6]);
    assert Along(pos, Directions[6], 1) == Coord(0, 4);
    DownStep();
  }

  /** Then the run down-right of (0, 3), which completes the move. */
  lemma SampleFlips()
    ensures RunsInRange(Coord(0, 3), [0, 0, 0, 0, 1, 0, 1, 2])
    ensures FlipAll(BoardState(PlacedGrid(), 25, 23), White, Coord(0, 3), [0, 0, 0, 0, 1, 0, 1, 2], 8) ==
      BoardState(MovedGrid(), 21, 27)
  {
    SampleFlipsDown();
    DirectionsAreSteps();
    var pos := Coord(0, 3);
    var a7 := BoardState(DownGrid(), 23, 25);
    FlipDirTwo(a7, White, pos, Directions[7]);
    assert Along(pos, Directions[7], 1) == Coord(1, 4);
    assert Along(pos, Directions[7], 2) == Coord(2, 5);
    DiagonalStep();
  }
}
