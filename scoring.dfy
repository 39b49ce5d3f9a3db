/**
 * What the two search players share: the static evaluation of a board (stone
 * difference from one side's point of view) and the fact that every move of
 * the legal-move list can be played on a consistent board.
 */
module Scoring {
  import opened Pieces
  import opened Coords
  import opened Rules
  import opened Boards

  /** Stones of `piece` minus stones of its opponent. */
  function Evaluate(s: BoardState, piece: Piece): (v: int)
    requires ValidState(s)
    ensures v == CountGrid(s.grid, Some(piece)) - CountGrid(s.grid, Some(Opponent(piece)))
    ensures -64 <= v <= 64
  {
    CountersBounded(s);
    CounterIsCount(s, piece);
    CounterIsCount(s, Opponent(piece));
    if piece == Black then s.black - s.white else s.white - s.black
  }

  /** The evaluation is antisymmetric in colour: one side's gain is the other's loss. */
  lemma EvaluateAntisymmetric(s: BoardState, piece: Piece)
    requires ValidState(s)
    ensures Evaluate(s, piece) == -Evaluate(s, Opponent(piece))
  {
    OpponentInvolutive(piece);
  }

  /** Every listed move can be applied, and applying it yields a consistent board. */
  lemma LegalMoveApplies(s: BoardState, piece: Piece, m: Move)
    requires ValidState(s) && m in LegalMoves(s.grid, piece)
    ensures IsInRange(m.pos) && m == MoveAt(s.grid, piece, m.pos) && IsLegal(m)
    ensures RunsInRange(m.pos, m.flips)
    ensures ValidState(ApplyMove(s, piece, m))
  {
    LegalMovesSpec(s.grid, piece);
    ApplyMoveSpec(s, piece, m);
  }

  /**
   * The first step of scoring a move in either search: a private clone of the
   * board with the move played on it. The original board is not modified.
   */
  method CloneAndMove(piece: Piece, board: Board, mov: Move) returns (child: Board)
    requires board.Valid() && mov in LegalMoves(board.Value().grid, piece)
    ensures IsInRange(mov.pos) && RunsInRange(mov.pos, mov.flips)
    ensures fresh(child) && fresh(child.matrix) && fresh(child.matrix.data)
    ensures child.Valid() && child.Value() == ApplyMove(board.Value(), piece, mov)
  {
    child := new Board.Clone(board);
    LegalMoveApplies(board.Value(), piece, mov);
    child.DoMove(piece, mov);
  }
}
