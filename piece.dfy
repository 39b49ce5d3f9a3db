/** Stone colours and the three cell values of the board. */
module Pieces {

  /** The Option of the host language; a board cell is an `Option<Piece>`. */
  datatype Option<+T> = None | Some(value: T)

  /** The colour of a stone. */
  datatype Piece = Black | White

  /** The other colour. */
  function Opponent(p: Piece): (q: Piece)
    ensures q != p
    ensures p == Black <==> q == White
  {
    match p
    case Black => White
    case White => Black
  }

  /** Taking the opponent twice gives back the colour one started from. */
  lemma OpponentInvolutive(p: Piece)
    ensures Opponent(Opponent(p)) == p
  {
  }

  /** The value of one cell of the board. */
  type Cell = Option<Piece>

  /** Empty cell, black stone, white stone. */
  const N: Cell := None
  const B: Cell := Some(Black)
  const W: Cell := Some(White)

  /** The three cell constants are pairwise distinct and are the only cell values. */
  lemma CellConstantsDistinct(c: Cell)
    ensures N != B && B != W && N != W
    ensures c == N || c == B || c == W
  {
    match c
    case None =>
    case Some(p) =>
      match p
      case Black =>
      case White =>
  }
}
