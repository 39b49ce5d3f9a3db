/**
 * The unpruned negamax player. The search itself is pure: a child position is
 * the value `ApplyMove` returns. A node with no legal move scores -127 for the
 * side to move (no pass is explored), and among equally good moves the LAST one
 * in move-list order wins, as the standard library's `max_by_key` keeps the last
 * maximum.
 */
module NegaMax {
  import opened Pieces
  import opened Coords
  import opened Rules
  import opened Boards
  import opened Scoring

  /** Scores the search can produce: the evaluation range and the two no-move sentinels. */
  predicate IsScore(v: int) {
    v == -127 || v == 127 || -64 <= v <= 64
  }

  /**
   * `max_by_key` over the first `k` scores: the maximum and the index of the LAST
   * score attaining it (a later score replaces an equal one).
   */
  function LastMax(xs: seq<int>, k: nat): (r: (int, nat))
    requires 1 <= k <= |xs|
    ensures r.1 < k && r.0 == xs[r.1]
  {
    if k == 1 then (xs[0], 0)
    else
      var prev := LastMax(xs, k - 1);
      if xs[k - 1] >= prev.0 then (xs[k - 1], k - 1) else prev
  }

  /** One more score folded in: it replaces the running best when at least as large. */
  lemma LastMaxNext(xs: seq<int>, k: nat, prev: (int, nat))
    requires k < |xs| && (k > 0 ==> prev == LastMax(xs, k))
    ensures LastMax(xs, k + 1) == if k == 0 || xs[k] >= prev.0 then (xs[k], k) else prev
  {
  }

  /** The fold returns a maximum, and no later score reaches it. */
  lemma {:induction false} LastMaxSpec(xs: seq<int>, k: nat)
    requires 1 <= k <= |xs|
    ensures forall i :: 0 <= i < k ==> xs[i] <= LastMax(xs, k).0
    ensures forall i :: LastMax(xs, k).1 < i < k ==> xs[i] < LastMax(xs, k).0
  {
    if k > 1 {
      LastMaxSpec(xs, k - 1);
    }
  }

  /**
   * `max_by_key(..).unwrap_or(..)` as a loop: None for no scores, otherwise the
   * maximum and the index of its last occurrence.
   */
  method MaxByKey(xs: seq<int>) returns (r: Option<(int, nat)>)
    ensures r == None <==> |xs| == 0
    ensures r != None ==> r.value == LastMax(xs, |xs|)
  {
    r := None;
    for k := 0 to |xs|
      invariant r == None <==> k == 0
      invariant r != None ==> r.value == LastMax(xs, k)
    {
      ghost var prev := if k == 0 then (0, 0) else LastMax(xs, k);
      if r == None || xs[k] >= r.value.0 {
        r := Some((xs[k], k));
      }
      LastMaxNext(xs, k, prev);
    }
  }

  /** Negamax value and move of `piece` to play on `s`, searching `depth` plies. */
  function Negamax(s: BoardState, piece: Piece, depth: nat): (r: (int, Option<Move>))
    requires ValidState(s)
    ensures IsScore(r.0)
    ensures r.1 == None <==> depth == 0 || |LegalMoves(s.grid, piece)| == 0
    ensures r.1 != None ==> r.1.value in LegalMoves(s.grid, piece)
    decreases depth, 2
  {
    if depth == 0 then (Evaluate(s, piece), None)
    else
      var ms := LegalMoves(s.grid, piece);
      if |ms| == 0 then (-127, None)
      else
        var best := LastMax(ChildScores(s, piece, depth), |ms|);
        (best.0, Some(ms[best.1]))
  }

  /** Score of move `m` for the mover: minus the opponent's score one ply shallower. */
  function ChildScore(s: BoardState, piece: Piece, depth: nat, m: Move): (v: int)
    requires ValidState(s) && 0 < depth && m in LegalMoves(s.grid, piece)
    ensures IsScore(v)
    decreases depth, 0
  {
    LegalMoveApplies(s, piece, m);
    -Negamax(ApplyMove(s, piece, m), Opponent(piece), depth - 1).0
  }

  /** The scores of the legal moves, in move-list order. */
  function ChildScores(s: BoardState, piece: Piece, depth: nat): (cs: seq<int>)
    requires ValidState(s) && 0 < depth
    ensures |cs| == |LegalMoves(s.grid, piece)|
    ensures forall i :: 0 <= i < |cs| ==> IsScore(cs[i])
    decreases depth, 1
  {
    var ms := LegalMoves(s.grid, piece);
    seq(|ms|, i requires 0 <= i < |ms| => ChildScore(s, piece, depth, ms[i]))
  }

  /** Above depth zero the search folds the scores of all legal moves. */
  lemma NegamaxRoot(s: BoardState, piece: Piece, depth: nat)
    requires ValidState(s) && 0 < depth
    ensures var ms, cs := LegalMoves(s.grid, piece), ChildScores(s, piece, depth);
      Negamax(s, piece, depth) ==
        if |ms| == 0 then (-127, None) else (LastMax(cs, |ms|).0, Some(ms[LastMax(cs, |ms|).1]))
  {
  }

  /** Entry `i` of the score list is the score of move `i`. */
  lemma ChildScoresAt(s: BoardState, piece: Piece, depth: nat, i: nat)
    requires ValidState(s) && 0 < depth && i < |LegalMoves(s.grid, piece)|
    ensures ChildScores(s, piece, depth)[i] == ChildScore(s, piece, depth, LegalMoves(s.grid, piece)[i])
  {
  }

  /**
   * With legal moves to choose from, the negamax score is the maximum over the
   * moves of minus the opponent's score, and the move is the last one attaining it.
   */
  lemma NegamaxBestMove(s: BoardState, piece: Piece, depth: nat)
    requires ValidState(s) && 0 < depth && |LegalMoves(s.grid, piece)| > 0
    ensures var ms, r := LegalMoves(s.grid, piece), Negamax(s, piece, depth);
      exists j :: 0 <= j < |ms| && r.1 == Some(ms[j]) &&
        r.0 == ChildScore(s, piece, depth, ms[j]) &&
        (forall i :: 0 <= i < |ms| ==> ChildScore(s, piece, depth, ms[i]) <= r.0) &&
        (forall i :: j < i < |ms| ==> ChildScore(s, piece, depth, ms[i]) < r.0)
  {
    var ms, cs := LegalMoves(s.grid, piece), ChildScores(s, piece, depth);
    LastMaxSpec(cs, |ms|);
    var best := LastMax(cs, |ms|);
    var j := best.1;
    assert Negamax(s, piece, depth) == (best.0, Some(ms[j]));
    assert best.0 == ChildScore(s, piece, depth, ms[j]) by {
      assert cs[j] == ChildScore(s, piece, depth, ms[j]);
    }
    forall i | 0 <= i < |ms|
      ensures ChildScore(s, piece, depth, ms[i]) <= best.0
      ensures j < i ==> ChildScore(s, piece, depth, ms[i]) < best.0
    {
      assert cs[i] == ChildScore(s, piece, depth, ms[i]);
    }
  }

  /** At depth zero the evaluation is returned and no move is chosen. */
  lemma NegamaxLeaf(s: BoardState, piece: Piece)
    requires ValidState(s)
    ensures Negamax(s, piece, 0) == (Evaluate(s, piece), None)
  {
  }

  /**
   * A side with no legal move scores -127 (its parent then sees +127), which
   * lies outside the evaluation range: it is not the evaluation.
   */
  lemma NegamaxNoMove(s: BoardState, piece: Piece, depth: nat)
    requires ValidState(s) && 0 < depth && |LegalMoves(s.grid, piece)| == 0
    ensures Negamax(s, piece, depth) == (-127, None)
    ensures Negamax(s, piece, depth).0 != Evaluate(s, piece)
  {
  }

  /** The negamax player; its only state is the search depth. */
  class NegaMaxPlayer {
    const depth: nat

    constructor New(depth: nat)
      ensures this.depth == depth
    {
      this.depth := depth;
    }

    /**
     * The root of the search: the legal moves are mapped to their scores, each
     * computed on a private clone of the board, and `max_by_key` picks the best,
     * a later move replacing an equal one. The board is only read.
     */
    method NegamaxMt(piece: Piece, board: Board, depth: nat) returns (score: int, mov: Option<Move>)
      requires board.Valid()
      ensures (score, mov) == Negamax(board.Value(), piece, depth)
    {
      if depth == 0 {
        return Evaluate(board.Value(), piece), None;
      }
      var moves := board.Moves(piece);
      var scores := ScoreMoves(piece, board, moves, depth);
      var best := MaxByKey(scores);
      match best {
        case None =>
          score, mov := -127, None;
        case Some((v, i)) =>
          score, mov := v, Some(moves[i]);
      }
      NegamaxRoot(board.Value(), piece, depth);
    }

    /** The mapping step of the root: the score of every legal move, in move-list order. */
    method ScoreMoves(piece: Piece, board: Board, moves: seq<Move>, depth: nat) returns (scores: seq<int>)
      requires board.Valid() && 0 < depth && moves == LegalMoves(board.Value().grid, piece)
      ensures scores == ChildScores(board.Value(), piece, depth)
    {
      ghost var s := board.Value();
      ghost var cs := ChildScores(s, piece, depth);
      scores := [];
      for k := 0 to |moves|
        invariant board.Valid() && board.Value() == s
        invariant scores == cs[..k]
      {
        var v := ScoreMove(piece, board, moves, k, depth, s);
        assert cs[..k + 1] == cs[..k] + [v];
        scores := scores + [v];
      }
    }

    /** Play move `k` on a private clone and score it with the sequential search one ply deeper. */
    method ScoreMove(piece: Piece, board: Board, moves: seq<Move>, k: nat, depth: nat, ghost s: BoardState)
      returns (score: int)
      requires board.Valid() && board.Value() == s
      requires 0 < depth && moves == LegalMoves(s.grid, piece) && k < |moves|
      ensures score == ChildScores(s, piece, depth)[k]
    {
      var mov := moves[k];
      var child := CloneAndMove(piece, board, mov);
      var (childScore, _) := Negamax(child.Value(), Opponent(piece), depth - 1);
      score := -childScore;
      ChildScoresAt(s, piece, depth, k);
    }

    /** The move of a depth-`depth` negamax search; None exactly when depth is 0 or no move is legal. */
    method Play(piece: Piece, board: Board) returns (mov: Option<Move>)
      requires board.Valid()
      ensures mov == Negamax(board.Value(), piece, depth).1
      ensures mov == None <==> depth == 0 || |LegalMoves(board.Value().grid, piece)| == 0
    {
      var _, m := NegamaxMt(piece, board, depth);
      mov := m;
    }
  }
}
