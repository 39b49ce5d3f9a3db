/**
 * Facts about the opening position: which of its cells are legal for whom and
 * how far the ray walk runs from one of them.
 */
module Opening {
  import opened Pieces
  import opened Coords
  import opened Rules

  /** From (2, 3) Black brackets one white stone to the right, nothing to the left or below. */
  lemma OpeningFlipRuns()
    ensures FlipRun(InitialGrid(), Black, Coord(2, 3), Coord(1, 0)) == 1
    ensures FlipRun(InitialGrid(), Black, Coord(2, 3), Coord(-1, 0)) == 0
    ensures FlipRun(InitialGrid(), Black, Coord(2, 3), Coord(0, 1)) == 0
  {
    InitialGridCells(Along(Coord(2, 3), Coord(1, 0), 1));
    InitialGridCells(Along(Coord(2, 3), Coord(1, 0), 2));
    InitialGridCells(Along(Coord(2, 3), Coord(-1, 0), 1));
    InitialGridCells(Along(Coord(2, 3), Coord(0, 1), 1));
  }

  /** The move of `piece` at `pos` flips one stone straight down. */
  lemma FlipsOneDown(piece: Piece, pos: Coord)
    requires IsInRange(pos) && pos.y <= 5
    requires Get(InitialGrid(), pos) == N
    requires Get(InitialGrid(), Coord(pos.x, pos.y + 1)) == Some(Opponent(piece))
    requires Get(InitialGrid(), Coord(pos.x, pos.y + 2)) == Some(piece)
    ensures IsLegal(MoveAt(InitialGrid(), piece, pos))
    ensures MoveAt(InitialGrid(), piece, pos).flips[6] == 1
  {
    var g := InitialGrid();
    MoveAtShape(g, piece, pos, 6);
    assert Along(pos, Directions[6], 1) == Coord(pos.x, pos.y + 1);
    assert Along(pos, Directions[6], 2) == Coord(pos.x, pos.y + 2);
    assert FlipRun(g, piece, pos, Directions[6]) == 1;
    assert MoveAt(g, piece, pos).flips[6] != ZeroFlips[6];
  }

  /** Black may play above the upper-left white stone, White to the right of it. */
  lemma OpeningLegalMoves()
    ensures IsLegal(MoveAt(InitialGrid(), Black, Coord(3, 2)))
    ensures IsLegal(MoveAt(InitialGrid(), White, Coord(4, 2)))
  {
    InitialGridCells(Coord(3, 2));
    InitialGridCells(Coord(3, 3));
    InitialGridCells(Coord(3, 4));
    FlipsOneDown(Black, Coord(3, 2));
    InitialGridCells(Coord(4, 2));
    InitialGridCells(Coord(4, 3));
    InitialGridCells(Coord(4, 4));
    FlipsOneDown(White, Coord(4, 2));
  }

  /** Neither the corner for Black nor the cell above the upper-left white stone for White is legal. */
  lemma OpeningIllegalMoves()
    ensures !IsLegal(MoveAt(InitialGrid(), Black, Coord(0, 0)))
    ensures !IsLegal(MoveAt(InitialGrid(), White, Coord(3, 2)))
  {
    NoRunWithinTwo(Black, Coord(0, 0));
    NoRunWithinTwo(White, Coord(3, 2));
  }

  /**
   * The corner for Black and the cell (3, 2) for White: within two cells every
   * ray meets the edge, an empty cell or one's own stone first, so the move
   * there flips nothing.
   */
  lemma NoRunWithinTwo(piece: Piece, pos: Coord)
    requires IsInRange(pos) && Get(InitialGrid(), pos) == N
    requires pos == Coord(0, 0) || pos == Coord(3, 2)
    requires pos == Coord(3, 2) ==> piece == White
    ensures !IsLegal(MoveAt(InitialGrid(), piece, pos))
  {
    var g := InitialGrid();
    var m := MoveAt(g, piece, pos);
    forall i | 0 <= i < 8 ensures m.flips[i] == 0 {
      MoveAtShape(g, piece, pos, i);
      InitialGridCells(Along(pos, Directions[i], 1));
      InitialGridCells(Along(pos, Directions[i], 2));
    }
    assert m.flips == ZeroFlips;
  }
}
