/**
 * The game driver: two players, one per colour, are asked in turn for a move on
 * the shared board. A move is played and clears the pass flag; an answer of
 * None is a pass, and a pass right after a pass ends the game.
 */
module Games {
  import opened Pieces
  import opened Rules
  import opened Boards
  import opened Scoring
  import opened NegaMax
  import opened AlphaBeta
  import opened Dumb

  /** The automatic players a game can be set up with, with their parameters. */
  datatype Strategy = DumbChoice | NegaMaxSearch(depth: nat) | AlphaBetaSearch(depth: nat)

  /** Everything a step reads and writes: the board, whose turn it is, and whether the last turn was a pass. */
  datatype GameState = GameState(board: BoardState, turn: Piece, isPassed: bool)

  /** The answer the player using `st` gives for `piece` on `s`: a legal move or a pass. */
  function Answer(st: Strategy, s: BoardState, piece: Piece): (r: Option<Move>)
    requires ValidState(s)
    ensures r != None ==> r.value in LegalMoves(s.grid, piece)
  {
    match st
    case DumbChoice => DumbMove(s.grid, piece)
    case NegaMaxSearch(d) => Negamax(s, piece, d).1
    case AlphaBetaSearch(d) => MinimaxMove(s, piece, d)
  }

  /**
   * One step of the game given the current player's answer: the new state and
   * whether the game goes on.
   */
  function Next(gs: GameState, answer: Option<Move>): (r: (GameState, bool))
    requires ValidState(gs.board)
    requires answer != None ==> answer.value in LegalMoves(gs.board.grid, gs.turn)
    ensures ValidState(r.0.board)
    ensures !r.1 <==> answer == None && gs.isPassed
    ensures !r.1 ==> r.0 == gs
    ensures r.1 ==> r.0.turn == Opponent(gs.turn) && r.0.isPassed == (answer == None)
    ensures answer != None ==>
      IsInRange(answer.value.pos) && RunsInRange(answer.value.pos, answer.value.flips) &&
      r.0.board == ApplyMove(gs.board, gs.turn, answer.value)
    ensures answer == None ==> r.0.board == gs.board
  {
    match answer
    case Some(m) =>
      LegalMoveApplies(gs.board, gs.turn, m);
      (GameState(ApplyMove(gs.board, gs.turn, m), Opponent(gs.turn), false), true)
    case None =>
      if gs.isPassed then (gs, false) else (GameState(gs.board, Opponent(gs.turn), true), true)
  }

  /** The game ends only on the second of two consecutive passes. */
  lemma GameOverAfterTwoPasses(gs: GameState, a1: Option<Move>, a2: Option<Move>)
    requires ValidState(gs.board)
    requires a1 != None ==> a1.value in LegalMoves(gs.board.grid, gs.turn)
    requires Next(gs, a1).1
    requires a2 != None ==> a2.value in LegalMoves(Next(gs, a1).0.board.grid, Next(gs, a1).0.turn)
    requires !Next(Next(gs, a1).0, a2).1
    ensures a1 == None && a2 == None
  {
  }

  /**
   * Stones are only ever added: a move puts exactly one more stone on the board,
   * the mover gains at least two (the placed one and a flipped one) and the
   * opponent loses what was flipped; a pass changes no count.
   */
  lemma NextStoneCounts(gs: GameState, answer: Option<Move>)
    requires ValidState(gs.board)
    requires answer != None ==> answer.value in LegalMoves(gs.board.grid, gs.turn)
    ensures var b, b' := gs.board, Next(gs, answer).0.board;
      b'.black + b'.white == b.black + b.white + (if answer == None then 0 else 1)
    ensures var b, b' := gs.board, Next(gs, answer).0.board;
      answer != None ==>
        Counter(b', gs.turn) >= Counter(b, gs.turn) + 2 &&
        Counter(b', gs.turn) - Counter(b, gs.turn) == 1 + (Counter(b, Opponent(gs.turn)) - Counter(b', Opponent(gs.turn)))
  {
    if answer != None {
      var m := answer.value;
      LegalMoveApplies(gs.board, gs.turn, m);
      ApplyMoveSpec(gs.board, gs.turn, m);
    }
  }

  /** A continuing step hands the turn over, pass or move. */
  lemma TurnsAlternate(gs: GameState, answer: Option<Move>)
    requires ValidState(gs.board)
    requires answer != None ==> answer.value in LegalMoves(gs.board.grid, gs.turn)
    requires Next(gs, answer).1
    ensures Next(gs, answer).0.turn != gs.turn
  {
  }

  /** The game: the shared board, the turn, the two players and the pass flag. */
  class Game {
    const board: Board
    var turn: Piece
    const black: Strategy
    const white: Strategy
    var isPassed: bool

    predicate Valid()
      reads this, board, board.matrix.data
    {
      board.Valid()
    }

    function State(): GameState
      requires Valid()
      reads this, board, board.matrix.data
    {
      GameState(board.Value(), turn, isPassed)
    }

    /** A fresh game: the opening position, Black to move, no pass yet. */
    constructor New(black: Strategy, white: Strategy)
      ensures Valid() && fresh(board) && fresh(board.matrix) && fresh(board.matrix.data)
      ensures State() == GameState(InitialState(), Black, false)
      ensures this.black == black && this.white == white
    {
      board := new Board.New();
      turn := Black;
      this.black := black;
      this.white := white;
      isPassed := false;
    }

    /** The strategy of the player of colour `piece`. */
    function StrategyOf(piece: Piece): Strategy {
      if piece == Black then black else white
    }

    /**
     * One turn: the player of the current colour answers, the answer is played
     * or counted as a pass, and the result says whether the game goes on.
     */
    method Step() returns (cont: bool)
      requires Valid()
      modifies this, board, board.matrix.data
      ensures Valid()
      ensures (State(), cont) == Next(old(State()), Answer(StrategyOf(old(turn)), old(board.Value()), old(turn)))
    {
      var mov := Ask(StrategyOf(turn), turn, board);
      match mov {
        case Some(m) =>
          LegalMoveApplies(board.Value(), turn, m);
          board.DoMove(turn, m);
          isPassed := false;
        case None =>
          if isPassed {
            return false;
          }
          isPassed := true;
      }
      turn := Opponent(turn);
      cont := true;
    }
  }

  /** Asks the player using `st` for its answer; the board is only read. */
  method Ask(st: Strategy, piece: Piece, board: Board) returns (mov: Option<Move>)
    requires board.Valid()
    ensures mov == Answer(st, board.Value(), piece)
  {
    if st.DumbChoice? {
      var p := new DumbPlayer.New();
      mov := p.Play(piece, board);
    } else if st.NegaMaxSearch? {
      var p := new NegaMaxPlayer.New(st.depth);
      mov := p.Play(piece, board);
    } else {
      var p := new AlphaBetaPlayer.New(st.depth);
      mov := p.Play(piece, board);
    }
  }
}
