/**
 * The alpha-beta player. Its reference is `Minimax`, the negamax value of the
 * game tree in which a node at depth zero OR with no legal move is scored by
 * the static evaluation (no pass is explored). The search is fail-soft: a score
 * at or below the window's lower bound is an upper bound of that value, one at
 * or above the upper bound is a lower bound, and one strictly inside is exact.
 * Among equally good moves the FIRST one in move-list order is kept, because the
 * running best is only replaced by a strictly larger score.
 */
module AlphaBeta {
  import opened Pieces
  import opened Coords
  import opened Rules
  import opened Boards
  import opened Scoring

  /**
   * Running maximum with strict replacement over the first `k` scores: the
   * maximum and the index of its FIRST occurrence.
   */
  function FirstMax(xs: seq<int>, k: nat): (r: (int, nat))
    requires 1 <= k <= |xs|
    ensures r.1 < k && r.0 == xs[r.1]
  {
    if k == 1 then (xs[0], 0)
    else
      var prev := FirstMax(xs, k - 1);
      if xs[k - 1] > prev.0 then (xs[k - 1], k - 1) else prev
  }

  /** The fold returns a maximum, and no earlier score reaches it. */
  lemma {:induction false} FirstMaxSpec(xs: seq<int>, k: nat)
    requires 1 <= k <= |xs|
    ensures forall i :: 0 <= i < k ==> xs[i] <= FirstMax(xs, k).0
    ensures forall i :: 0 <= i < FirstMax(xs, k).1 ==> xs[i] < FirstMax(xs, k).0
  {
    if k > 1 {
      FirstMaxSpec(xs, k - 1);
    }
  }

  /** A maximum attained first at `j` is the one the fold reports. */
  lemma FirstMaxUnique(xs: seq<int>, j: nat)
    requires j < |xs|
    requires forall i :: 0 <= i < |xs| ==> xs[i] <= xs[j]
    requires forall i :: 0 <= i < j ==> xs[i] < xs[j]
    ensures FirstMax(xs, |xs|) == (xs[j], j)
  {
    FirstMaxSpec(xs, |xs|);
  }

  /** Negamax value of `s` for `piece` over `depth` plies, a no-move node scored by the evaluation. */
  function Minimax(s: BoardState, piece: Piece, depth: nat): (v: int)
    requires ValidState(s)
    ensures -64 <= v <= 64
    decreases depth, 2
  {
    if depth == 0 then Evaluate(s, piece)
    else
      var ms := LegalMoves(s.grid, piece);
      if |ms| == 0 then Evaluate(s, piece)
      else FirstMax(MinimaxScores(s, piece, depth), |ms|).0
  }

  /** Value of move `m` for the mover: minus the opponent's value one ply shallower. */
  function MinimaxChild(s: BoardState, piece: Piece, depth: nat, m: Move): (v: int)
    requires ValidState(s) && 0 < depth && m in LegalMoves(s.grid, piece)
    ensures -64 <= v <= 64
    decreases depth, 0
  {
    LegalMoveApplies(s, piece, m);
    -Minimax(ApplyMove(s, piece, m), Opponent(piece), depth - 1)
  }

  /** The values of the legal moves, in move-list order. */
  function MinimaxScores(s: BoardState, piece: Piece, depth: nat): (cs: seq<int>)
    requires ValidState(s) && 0 < depth
    ensures |cs| == |LegalMoves(s.grid, piece)|
    decreases depth, 1
  {
    var ms := LegalMoves(s.grid, piece);
    seq(|ms|, i requires 0 <= i < |ms| => MinimaxChild(s, piece, depth, ms[i]))
  }

  /** The move the full-window search chooses: the earliest legal move of maximal value. */
  function MinimaxMove(s: BoardState, piece: Piece, depth: nat): (r: Option<Move>)
    requires ValidState(s)
    ensures r == None <==> depth == 0 || |LegalMoves(s.grid, piece)| == 0
    ensures r != None ==> r.value in LegalMoves(s.grid, piece)
  {
    if depth == 0 then None
    else
      var ms := LegalMoves(s.grid, piece);
      if |ms| == 0 then None else Some(ms[FirstMax(MinimaxScores(s, piece, depth), |ms|).1])
  }

  /** Entry `i` of the value list is the value of move `i`. */
  lemma MinimaxScoresAt(s: BoardState, piece: Piece, depth: nat, i: nat)
    requires ValidState(s) && 0 < depth && i < |LegalMoves(s.grid, piece)|
    ensures MinimaxScores(s, piece, depth)[i] == MinimaxChild(s, piece, depth, LegalMoves(s.grid, piece)[i])
  {
  }

  /** Above depth zero with legal moves, the value is the fold of the move values. */
  lemma MinimaxRoot(s: BoardState, piece: Piece, depth: nat)
    requires ValidState(s) && 0 < depth && |LegalMoves(s.grid, piece)| > 0
    ensures var ms, cs := LegalMoves(s.grid, piece), MinimaxScores(s, piece, depth);
      Minimax(s, piece, depth) == FirstMax(cs, |ms|).0 &&
      MinimaxMove(s, piece, depth) == Some(ms[FirstMax(cs, |ms|).1])
  {
  }

  /**
   * The chosen move attains the value, every move is worth at most that much,
   * and every earlier move is worth strictly less.
   */
  lemma MinimaxMoveSpec(s: BoardState, piece: Piece, depth: nat)
    requires ValidState(s) && 0 < depth && |LegalMoves(s.grid, piece)| > 0
    ensures var ms, v := LegalMoves(s.grid, piece), Minimax(s, piece, depth);
      exists j :: 0 <= j < |ms| && MinimaxMove(s, piece, depth) == Some(ms[j]) &&
        MinimaxChild(s, piece, depth, ms[j]) == v &&
        (forall i :: 0 <= i < |ms| ==> MinimaxChild(s, piece, depth, ms[i]) <= v) &&
        (forall i :: 0 <= i < j ==> MinimaxChild(s, piece, depth, ms[i]) < v)
  {
    var ms, cs := LegalMoves(s.grid, piece), MinimaxScores(s, piece, depth);
    MinimaxRoot(s, piece, depth);
    FirstMaxSpec(cs, |ms|);
    var j := FirstMax(cs, |ms|).1;
    MinimaxScoresAt(s, piece, depth, j);
    forall i | 0 <= i < |ms|
      ensures MinimaxChild(s, piece, depth, ms[i]) <= Minimax(s, piece, depth)
      ensures i < j ==> MinimaxChild(s, piece, depth, ms[i]) < Minimax(s, piece, depth)
    {
      MinimaxScoresAt(s, piece, depth, i);
    }
  }

  /** Where a depth-0 or no-move node stands: the evaluation, and no move. */
  lemma MinimaxLeaf(s: BoardState, piece: Piece, depth: nat)
    requires ValidState(s) && (depth == 0 || |LegalMoves(s.grid, piece)| == 0)
    ensures Minimax(s, piece, depth) == Evaluate(s, piece)
    ensures MinimaxMove(s, piece, depth) == None
  {
  }

  function Max(a: int, b: int): int {
    if a >= b then a else b
  }

  /**
   * Fail-soft reading of `score` against the window `(al, be)`: at or below `al`
   * it bounds the value `v` from above, at or above `be` from below, and strictly
   * inside it is exact.
   */
  predicate FailSoft(v: int, score: int, al: int, be: int) {
    (score <= al ==> v <= score) && (score >= be ==> v >= score) && (al < score < be ==> v == score)
  }

  /** The child's window `(-be, -al)` read back from the parent's side. */
  lemma FailSoftNegate(v: int, score: int, al: int, be: int)
    requires FailSoft(v, score, -be, -al)
    ensures FailSoft(-v, -score, al, be)
  {
  }

  /**
   * The state of the move loop after `k` moves without a cutoff: `al` is the
   * larger of the initial bound and the best score `b` (-127 before any move);
   * no move so far is worth more than `b`; and once `b` is above the initial
   * bound it is exact, attained first at move `j`.
   */
  ghost predicate Window(cs: seq<int>, k: nat, al0: int, be: int, al: int, b: int, j: nat) {
    k <= |cs| && -127 <= al0 && al < be && al == Max(al0, b) &&
    (k == 0 ==> b == -127) &&
    (k > 0 ==>
      -64 <= b <= 64 && j < k &&
      (forall i :: 0 <= i < k ==> cs[i] <= b) &&
      (b > al0 ==> cs[j] == b && forall i :: 0 <= i < j ==> cs[i] < b))
  }

  /**
   * One move of the loop: the child's fail-soft score `sc` updates the best
   * (strictly larger only) and `al`; either the loop state is kept, or the
   * cutoff fires with a new best that bounds the value from below.
   */
  lemma WindowStep(cs: seq<int>, k: nat, al0: int, be: int, al: int, b: int, j: nat, sc: int)
    requires Window(cs, k, al0, be, al, b, j) && k < |cs|
    requires -64 <= sc <= 64 && FailSoft(cs[k], sc, al, be)
    ensures var b', j' := if sc > b then sc else b, if sc > b then k else j;
      var al' := Max(al, sc);
      (al' < be ==> Window(cs, k + 1, al0, be, al', b', j')) &&
      (al' >= be ==> b' == sc && cs[k] >= sc && sc >= be)
  {
  }

  /** The loop ran through every move: the best is a fail-soft score for the maximum. */
  lemma WindowDone(cs: seq<int>, al0: int, be: int, al: int, b: int, j: nat)
    requires Window(cs, |cs|, al0, be, al, b, j) && |cs| > 0
    ensures FailSoft(FirstMax(cs, |cs|).0, b, al0, be)
    ensures al0 < b < be ==> FirstMax(cs, |cs|).1 == j
  {
    FirstMaxSpec(cs, |cs|);
    if al0 < b {
      FirstMaxUnique(cs, j);
    }
  }

  /** The cutoff fired at move `k`: the best bounds the maximum from below. */
  lemma CutoffDone(cs: seq<int>, k: nat, al0: int, be: int, b: int)
    requires k < |cs| && al0 < be && cs[k] >= b >= be
    ensures FailSoft(FirstMax(cs, |cs|).0, b, al0, be)
  {
    FirstMaxSpec(cs, |cs|);
  }

  /** The alpha-beta player; its only state is the search depth. */
  class AlphaBetaPlayer {
    const depth: nat

    constructor New(depth: nat)
      ensures this.depth == depth
    {
      this.depth := depth;
    }

    /**
     * Alpha-beta search of `board` (whose value is `s`) for `piece` in the window
     * `(al0, be)`. The board is only read: every move is played on a private clone.
     */
    method AlphaBeta(piece: Piece, board: Board, al0: int, be: int, depth: nat, ghost s: BoardState)
      returns (score: int, mov: Option<Move>)
      requires board.Valid() && board.Value() == s && -127 <= al0 < be <= 127
      ensures -64 <= score <= 64
      ensures mov == None <==> depth == 0 || |LegalMoves(s.grid, piece)| == 0
      ensures mov == None ==> score == Evaluate(s, piece)
      ensures mov != None ==> mov.value in LegalMoves(s.grid, piece)
      ensures FailSoft(Minimax(s, piece, depth), score, al0, be)
      ensures al0 < score < be ==> mov == MinimaxMove(s, piece, depth)
      decreases depth, 1
    {
      if depth == 0 {
        MinimaxLeaf(s, piece, depth);
        return Evaluate(board.Value(), piece), None;
      }
      var moves := board.Moves(piece);
      if |moves| == 0 {
        MinimaxLeaf(s, piece, depth);
        return Evaluate(board.Value(), piece), None;
      }
      ghost var cs := MinimaxScores(s, piece, depth);
      ghost var j: nat := 0;
      var al := al0;
      score, mov := -127, None;
      for k := 0 to |moves|
        invariant Window(cs, k, al0, be, al, score, j)
        invariant mov == None <==> k == 0
        invariant mov != None ==> mov == Some(moves[j])
      {
        var sc := SearchChild(piece, board, moves, k, al, be, depth, s);
        WindowStep(cs, k, al0, be, al, score, j, sc);
        if sc > score {
          score, mov := sc, Some(moves[k]);
          j := k;
        }
        al := Max(al, sc);
        if al >= be {
          CutoffDone(cs, k, al0, be, score);
          break;
        }
      }
      if al < be {
        WindowDone(cs, al0, be, al, score, j);
      }
      MinimaxRoot(s, piece, depth);
    }

    /**
     * One iteration's child: play move `k` on a private clone and search it for
     * the opponent in the negated window; the negated result is a fail-soft
     * score for that move's value.
     */
    method SearchChild(piece: Piece, board: Board, moves: seq<Move>, k: nat, al: int, be: int, depth: nat, ghost s: BoardState)
      returns (sc: int)
      requires board.Valid() && board.Value() == s
      requires 0 < depth && moves == LegalMoves(s.grid, piece) && k < |moves|
      requires -127 <= al < be <= 127
      ensures -64 <= sc <= 64
      ensures FailSoft(MinimaxScores(s, piece, depth)[k], sc, al, be)
      decreases depth, 0
    {
      var mov := moves[k];
      var child := CloneAndMove(piece, board, mov);
      ghost var t := ApplyMove(s, piece, mov);
      var childScore, _ := AlphaBeta(Opponent(piece), child, -be, -al, depth - 1, t);
      sc := -childScore;
      FailSoftNegate(Minimax(t, Opponent(piece), depth - 1), childScore, al, be);
      MinimaxScoresAt(s, piece, depth, k);
    }

    /** The full-window search: its move is the earliest legal move of maximal value. */
    method Play(piece: Piece, board: Board) returns (mov: Option<Move>)
      requires board.Valid()
      ensures mov == MinimaxMove(board.Value(), piece, depth)
    {
      var _, m := AlphaBeta(piece, board, -127, 127, depth, board.Value());
      mov := m;
    }
  }
}
