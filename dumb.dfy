/**
 * The dumb player: it plays the first move of the legal-move list, that is, the
 * legal move whose position comes first in row-major order, and passes when
 * there is none.
 */
module Dumb {
  import opened Pieces
  import opened Coords
  import opened Rules
  import opened Boards

  /** The dumb player's answer on grid `g`: the head of the legal-move list, or None when it is empty. */
  function DumbMove(g: Grid, piece: Piece): (r: Option<Move>)
    requires IsGrid(g)
    ensures r != None ==> r.value in LegalMoves(g, piece)
  {
    var ms := LegalMoves(g, piece);
    if |ms| == 0 then None else Some(ms[0])
  }

  /**
   * The dumb player passes exactly when no position is legal; otherwise it
   * plays the legal move at the earliest legal position in row-major order.
   */
  lemma DumbMoveSpec(g: Grid, piece: Piece)
    requires IsGrid(g)
    ensures DumbMove(g, piece) == None <==> forall pos :: IsInRange(pos) ==> !IsLegal(MoveAt(g, piece, pos))
    ensures var r := DumbMove(g, piece);
      r != None ==> IsInRange(r.value.pos) && r.value == MoveAt(g, piece, r.value.pos) && IsLegal(r.value)
    ensures var r := DumbMove(g, piece);
      r != None ==> forall pos :: IsInRange(pos) && IsLegal(MoveAt(g, piece, pos)) ==> RowMajor(r.value.pos) <= RowMajor(pos)
  {
    var ms := LegalMoves(g, piece);
    LegalMovesSpec(g, piece);
    if |ms| > 0 {
      assert ms[0] in ms;
      assert IsInRange(ms[0].pos) && IsLegal(MoveAt(g, piece, ms[0].pos));
    }
    forall pos | IsInRange(pos) && IsLegal(MoveAt(g, piece, pos))
      ensures |ms| > 0 && RowMajor(ms[0].pos) <= RowMajor(pos)
    {
      EarlierThanLegal(g, piece, pos);
    }
  }

  /** Any legal position comes no earlier than the head of the legal-move list. */
  lemma EarlierThanLegal(g: Grid, piece: Piece, pos: Coord)
    requires IsGrid(g) && IsInRange(pos) && IsLegal(MoveAt(g, piece, pos))
    ensures |LegalMoves(g, piece)| > 0 && RowMajor(LegalMoves(g, piece)[0].pos) <= RowMajor(pos)
  {
    var ms := LegalMoves(g, piece);
    var m := MoveAt(g, piece, pos);
    LegalMovesSpec(g, piece);
    var i :| 0 <= i < |ms| && ms[i] == m;
    if i > 0 {
      assert RowMajor(ms[0].pos) < RowMajor(ms[i].pos);
    }
  }

  /** The dumb player has no state. */
  class DumbPlayer {
    constructor New() {
    }

    /** The first legal move of `piece`, or None (a pass) when there is none. The board is only read. */
    method Play(piece: Piece, board: Board) returns (mov: Option<Move>)
      requires board.Valid()
      ensures mov == DumbMove(board.Value().grid, piece)
    {
      var moves := board.Moves(piece);
      mov := if |moves| == 0 then None else Some(moves[0]);
    }
  }
}
