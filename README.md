# Reversi board, players and game driver in Dafny

This project models the core of `rust-reversi`, a terminal Reversi (Othello)
game. The core has four parts:

- the 8x8 board with its two stone counters;
- the rule that a move flips the runs of opponent stones it brackets in the
  eight directions;
- the enumeration of legal moves in row-major order;
- three automatic players and the turn-by-turn game driver. The players are
  "dumb" (first legal move), negamax, and alpha-beta.

The model has two layers:

- **Rules** (module `Rules`) describes the board as a value: a grid of
  `Option<Piece>` cells plus the two counters. It defines the ray walk
  (`FlipRun`), the move record (`MoveAt`), the legal-move list
  (`LegalMoves`) and the effect of a move (`ApplyMove`). Lemmas state what
  these mean, for example:
  - the ray walk returns exactly the length of the bracketed run;
  - the legal-move list is complete and in strictly increasing row-major
    order;
  - a move recolours exactly the target and its runs, and keeps the counters
    equal to the stone counts.
- **Boards** (module `Boards`) is the mutable board, as in the program. A
  `Matrix` class wraps a two-dimensional array, and a `Board` class adds the
  two `u8` counters. Each board method is proved to compute the matching rule
  function, or to change the board's value exactly as it does.

The players build on both layers:

- Negamax. Its recursive search is the pure function `NegaMax.Negamax`. The
  root (`negamax_mt`) is a method over cloned boards, proved equal to it.
- Alpha-beta. It is a recursive method over cloned boards. It is proved
  fail-soft against a reference value `AlphaBeta.Minimax`: a score inside the
  window is exact, and one at a bound is a bound. With the full window it
  returns exactly the earliest best move.
- Dumb. It is proved to pick the legal move at the earliest legal position.

The game driver (`Games`) asks the player of the current colour for a move.
It plays the move, or counts a pass, and ends after two consecutive passes.

The static evaluation is written twice in the program, identically (in
`src/players/negamax.rs` and `src/players/alphabeta.rs`). It is defined once
here, as `Scoring.Evaluate`.

`Board::count_mut`, `Board::do_flip` and `Board::do_move` have no body in the
program: they are `unimplemented!()`. Their models follow their doc comments
and the unit tests `test_board_count_mut`, `test_do_flip` and
`test_board_do_move` in `src/board.rs`:

- a flip recolours the run and moves its length from one counter to the other;
- a move places the stone, counts it, and flips every direction with a
  nonzero count.

The modules `Opening` and `SampleBoard` state the unit tests of
`src/board.rs` on the opening board and on the test's sample board as lemmas
about the rule functions.

Fixed-width integers of the program take two forms in the model:

- Subset types (`I8`, `U8`) hold the components of a `Coord`, the flip counts
  (a `Move` carries exactly eight, as the type `Flips`) and the two counters
  of the `Board` class. The model proves that no value written to them leaves
  their range.
- Scores and the counters of the value `BoardState` are plain `int`. Contracts
  keep them in range: `ValidState` ties each counter to a stone count (at most
  64), evaluations lie within ±64, and the sentinels are ±127.

## Model

| member | source | states |
|---|---|---|
| Pieces.Opponent | src/piece.rs:9-14 | the opponent is never the same colour; Black and White swap |
| Pieces.OpponentInvolutive | src/piece.rs:9-14 | taking the opponent twice gives back the original colour |
| Pieces.CellConstantsDistinct | src/piece.rs:17-19 | the constants `N`, `B`, `W` are pairwise distinct and are the only cell values |
| Coords.Add | src/coord.rs:9-16 | the sum differs from the left operand by exactly the right operand, component by component |
| Coords.AddAssign | src/coord.rs:18-25 | updating the two components in place gives the same vector as `+` |
| Coords.AddExample | src/coord.rs:38-44 | `Coord(5, 5) + Coord(-2, 3) == Coord(3, 8)` |
| Coords.AddAssignExample | src/coord.rs:47-52 | the same example through `+=` |
| Rules.IsInRange | src/board.rs:34-37 | definition: a cell is on the board when both coordinates lie in `0..8`; its consequences are stated by `Rules.RowMajorInjective`, `Rules.AlongLeaves` and `Rules.MoveAt` |
| Rules.Get | src/board.rs:50-56 | definition of the total read: an off-board position reads as empty, an on-board one reads its cell; `Boards.Matrix.Index` states the same of the array |
| Rules.RowMajorInjective | src/board.rs:196-197 | the scan rank `y * 8 + x` of an on-board cell is below 64 and distinct cells have distinct ranks |
| Rules.SetCell | src/board.rs:63-66 | writing a cell changes that cell to the value and no other cell |
| Rules.CountSetCell | src/board.rs:63-66 | writing a cell moves at most one unit between the per-value stone counts |
| Rules.InitialGrid | src/board.rs:20-31 | the opening grid is an 8x8 grid; its cells are stated by `Rules.InitialGridCells` |
| Rules.InitialGridCells | src/board.rs:20-31 | the opening grid holds white at (3,3),(4,4), black at (4,3),(3,4), and nothing else |
| Rules.InitialCounts | src/board.rs:145-151 | the opening grid has two stones of each colour, matching the initial counters |
| Rules.CountsCoverBoard | src/board.rs:14 | every one of the 64 cells is empty, black or white |
| Rules.DirectionsAreSteps | src/board.rs:125-134 | the direction table holds eight pairwise distinct neighbour steps |
| Rules.StepsAreDirections | src/board.rs:125-134 | every neighbour step appears in the direction table |
| Rules.AlongNext | src/board.rs:162 | `pos += dir` stays within `i8` and moves one cell further along the ray |
| Rules.AlongLeaves | src/board.rs:161-171 | a ray leaves the board within seven steps, so the walk of `get_flip` ends |
| Rules.RaysDisjoint | src/board.rs:125-134 | rays from one cell in different directions, or at different distances, never meet |
| Rules.RunFromStep | src/board.rs:161-171 | one iteration of the walk: an empty or off-board cell gives 0, an own stone gives the count so far, an opponent stone continues |
| Rules.FlipRun | src/board.rs:158-172 | the count of the ray walk is at most 6 |
| Rules.FlipRunSpec | src/board.rs:158-172 | the ray walk returns the length of the bracketed run of opponent stones when there is one, and 0 otherwise |
| Rules.IsLegal | src/board.rs:106-108 | definition: a move is legal when its flips differ from the all-zero flips; `Rules.IsLegalIff` states what that means |
| Rules.IsLegalIff | src/board.rs:106-108 | a move is legal exactly when some direction flips at least one stone |
| Rules.MoveAt | src/board.rs:177-189 | the move keeps its position and each of its runs lies on the board |
| Rules.MoveAtShape | src/board.rs:177-189 | on an occupied cell every count is 0; on an empty cell count `i` is the ray walk along direction `i` |
| Rules.MoveAtLegalIff | src/board.rs:177-189 | a move is legal exactly when its cell is empty and some direction brackets a run of opponent stones |
| Rules.LegalMoves | src/board.rs:194-205 | definition of the row-major scan that keeps the legal moves; its properties are `Rules.LegalMovesSpec` |
| Rules.LegalMovesSpec | src/board.rs:194-205 | at most 64 moves; each is on the board, equals `MoveAt` there and is legal; every legal position is listed; positions strictly increase in row-major order |
| Rules.WithCounter | src/board.rs:208-210 | only the counter of the given colour changes; the grid stays the same |
| Rules.CountersBounded | src/board.rs:138-142 | on a consistent board both counters are non-negative and sum to at most 64 |
| Rules.InitialState | src/board.rs:145-151 | the opening board is consistent with counters 2 and 2 |
| Rules.FlipAlong | src/board.rs:212-222 | recolouring the first `k` cells of a ray keeps an 8x8 grid |
| Rules.FlipAlongSpec | src/board.rs:212-222 | the first `k` cells of the ray become `piece`; every other cell is unchanged |
| Rules.FlipAlongCounts | src/board.rs:212-222 | flipping `k` opponent stones adds `k` to the mover's stone count and removes `k` from the opponent's |
| Rules.FlipDir | src/board.rs:212-222 | the run is recoloured and `k` moves from the opponent's counter to the mover's |
| Rules.FlipAll | src/board.rs:224-227 | after flipping the directions in turn, the counters have moved by the sum of the flip counts |
| Rules.Place | src/board.rs:224-227 | the target cell gets the stone and only the mover's counter grows, by one |
| Rules.ApplyMove | src/board.rs:224-227 | definition of a move: place the stone, then flip every direction in table order; its properties are `Rules.ApplyMoveSpec` and `Rules.ApplyMoveCells` |
| Rules.ApplyMoveSpec | src/board.rs:224-227 | a legal move targets an empty cell, flips at least one stone and keeps the board consistent; the mover gains 1 plus the flips and the opponent loses the flips |
| Rules.ApplyMoveCells | src/board.rs:224-227 | after a move, exactly the target and the cells of its runs hold the mover's colour; every other cell is unchanged |
| Opening.OpeningFlipRuns | src/board.rs:313-321 | on the opening board, Black at (2,3) flips one stone to the right, none to the left and none downwards |
| Opening.OpeningLegalMoves | src/board.rs:288-310 | on the opening board, Black may play at (3,2) and White at (4,2) |
| Opening.OpeningIllegalMoves | src/board.rs:288-310 | on the opening board, Black may not play the corner (0,0) and White may not play (3,2) |
| SampleBoard.SampleMoveFlips | src/board.rs:323-336 | on the sample board, White at (0,3) flips one stone right, one down and two down-right, and none in the other five directions |
| SampleBoard.SampleFlipDir | src/board.rs:409-428 | on the sample board, flipping two stones down-right from (0,3) gives white 24, black 23 and the expected grid |
| SampleBoard.SampleApplyMove | src/board.rs:430-459 | on the sample board, White's move at (0,3) gives white 27, black 21 and the expected grid |
| Boards.Matrix.New | src/board.rs:20-31 | the new matrix holds the opening grid |
| Boards.Matrix.Copy | src/board.rs:13-14 | the copy has a fresh array with the same cells |
| Boards.Matrix.Index | src/board.rs:50-56 | an off-board position reads as empty; an on-board position reads its cell |
| Boards.Matrix.SetIndex | src/board.rs:63-66 | the written cell holds the value afterwards and no other cell changes |
| Boards.Board.New | src/board.rs:145-151 | the new board is the consistent opening board |
| Boards.Board.Clone | src/board.rs:137-142 | the clone has the same value and shares no array with the original |
| Boards.Board.CountOf | src/board.rs:207-210 | definition of the read side of `count_mut`: the counter of the given colour |
| Boards.Board.CountOfCounts | src/board.rs:401-407 | on a consistent board, the counter read for a colour is the number of that colour's stones (two each on the opening board) |
| Boards.Board.SetCount | src/board.rs:207-210 | only the selected colour's counter is written |
| Boards.Board.GetFlip | src/board.rs:158-172 | the loop returns the ray walk `FlipRun` |
| Boards.Board.GetMove | src/board.rs:177-189 | the returned move is `MoveAt` |
| Boards.Board.Moves | src/board.rs:194-205 | the nested scan returns `LegalMoves`, in the same order |
| Boards.Board.DoFlip | src/board.rs:212-222 | the board's new value is the old one with the run recoloured and the counters moved by `flip` |
| Boards.Board.DoMove | src/board.rs:224-227 | the board stays consistent and its new value is `ApplyMove` of the old value |
| Scoring.Evaluate | src/players/negamax.rs:14-19 | the score is the mover's stone count minus the opponent's, within ±64 |
| Scoring.EvaluateAntisymmetric | src/players/negamax.rs:14-19 | the two colours' evaluations are negatives of each other |
| Scoring.LegalMoveApplies | src/players/negamax.rs:25-28 | every listed move can be played and leaves a consistent board |
| Scoring.CloneAndMove | src/players/negamax.rs:27-28 | the clone is fresh, consistent and holds the position after the move; the original is untouched |
| NegaMax.LastMax | src/players/negamax.rs:31 | the fold returns one of the scores together with its index |
| NegaMax.LastMaxSpec | src/players/negamax.rs:31 | `max_by_key` returns a maximum score, and no later score reaches it (the last maximum wins) |
| NegaMax.LastMaxNext | src/players/negamax.rs:31 | folding one more score replaces the best when the new score is at least as large |
| NegaMax.MaxByKey | src/players/negamax.rs:31 | None exactly for no scores; otherwise the maximum and the index of its last occurrence |
| NegaMax.Negamax | src/players/negamax.rs:21-32 | the score is an evaluation or a ±127 sentinel; there is no move exactly at depth 0 or with no legal move; a chosen move is legal |
| NegaMax.ChildScore | src/players/negamax.rs:26-30 | the score of a move for the mover is a valid score |
| NegaMax.ChildScores | src/players/negamax.rs:25-31 | one valid score per legal move |
| NegaMax.NegamaxRoot | src/players/negamax.rs:25-31 | above depth 0 the result is the `max_by_key` fold of the move scores, or `(-127, None)` without moves |
| NegaMax.ChildScoresAt | src/players/negamax.rs:26-30 | entry `i` of the score list is minus the opponent's score after move `i` |
| NegaMax.NegamaxBestMove | src/players/negamax.rs:21-32 | the chosen move attains the score; no move scores more; every later move scores strictly less |
| NegaMax.NegamaxLeaf | src/players/negamax.rs:22-24 | at depth 0 the result is the evaluation and no move |
| NegaMax.NegamaxNoMove | src/players/negamax.rs:31 | with no legal move the result is `(-127, None)`, which is never the evaluation |
| NegaMax.NegaMaxPlayer.New | src/players/negamax.rs:10-12 | the player keeps the given depth |
| NegaMax.NegaMaxPlayer.NegamaxMt | src/players/negamax.rs:34-46 | the parallel root returns exactly the sequential negamax result |
| NegaMax.NegaMaxPlayer.ScoreMoves | src/players/negamax.rs:39-43 | the mapping step yields the score of every legal move, in list order |
| NegaMax.NegaMaxPlayer.ScoreMove | src/players/negamax.rs:40-43 | scoring one move on a clone gives minus the opponent's negamax score |
| NegaMax.NegaMaxPlayer.Play | src/players/negamax.rs:48-53 | the move of the depth-limited negamax search; a pass exactly at depth 0 or with no legal move |
| AlphaBeta.FirstMax | src/players/alphabeta.rs:34-36 | the strict-improvement fold returns one of the scores together with its index |
| AlphaBeta.FirstMaxSpec | src/players/alphabeta.rs:34-36 | the fold returns a maximum, and every earlier score is strictly smaller (the first maximum wins) |
| AlphaBeta.FirstMaxUnique | src/players/alphabeta.rs:34-36 | a maximum that is reached first at index `j` is the one the fold reports |
| AlphaBeta.Minimax | src/players/alphabeta.rs:21-43 | the reference value of the search lies within ±64 |
| AlphaBeta.MinimaxChild | src/players/alphabeta.rs:31-33 | the value of a move for the mover lies within ±64 |
| AlphaBeta.MinimaxScores | src/players/alphabeta.rs:30-33 | one value per legal move |
| AlphaBeta.MinimaxMove | src/players/alphabeta.rs:21-43 | no move exactly at depth 0 or with no legal move; otherwise a legal move |
| AlphaBeta.MinimaxScoresAt | src/players/alphabeta.rs:31-33 | entry `i` of the value list is the value of move `i` |
| AlphaBeta.MinimaxRoot | src/players/alphabeta.rs:29-42 | with legal moves, value and move come from the strict-improvement fold |
| AlphaBeta.MinimaxMoveSpec | src/players/alphabeta.rs:29-42 | the chosen move attains the value; no move is worth more; every earlier move is worth strictly less |
| AlphaBeta.MinimaxLeaf | src/players/alphabeta.rs:22-28 | at depth 0 or with no legal move the value is the evaluation and there is no move |
| AlphaBeta.FailSoftNegate | src/players/alphabeta.rs:33 | the child's fail-soft result for the window `(-be, -al)`, negated, is fail-soft for `(al, be)` |
| AlphaBeta.WindowStep | src/players/alphabeta.rs:34-40 | one loop iteration either keeps the loop invariant or ends in a cutoff whose best bounds the value from below |
| AlphaBeta.WindowDone | src/players/alphabeta.rs:30-42 | after every move, the best is fail-soft for the maximum; inside the window it is exact and its move is the first maximal one |
| AlphaBeta.CutoffDone | src/players/alphabeta.rs:38-40 | a cutoff's best is a lower bound of the maximum |
| AlphaBeta.AlphaBetaPlayer.New | src/players/alphabeta.rs:10-12 | the player keeps the given depth |
| AlphaBeta.AlphaBetaPlayer.AlphaBeta | src/players/alphabeta.rs:21-43 | the score lies within ±64 and is fail-soft for `Minimax`; inside the window the move is `MinimaxMove`; no move exactly at depth 0 or with no legal move, and then the evaluation |
| AlphaBeta.AlphaBetaPlayer.SearchChild | src/players/alphabeta.rs:31-33 | the negated child search is a fail-soft score for that move's value |
| AlphaBeta.AlphaBetaPlayer.Play | src/players/alphabeta.rs:45-51 | with the full window, the move is exactly the earliest best move of the depth-limited search |
| Dumb.DumbMove | src/players/dumb.rs:7-9 | the answer, when there is one, is a listed legal move |
| Dumb.DumbMoveSpec | src/players/dumb.rs:7-9 | a pass exactly when no cell is legal; otherwise a legal move at the earliest legal cell in row-major order |
| Dumb.EarlierThanLegal | src/players/dumb.rs:8 | the head of the legal-move list comes no later than any legal cell |
| Dumb.DumbPlayer.Play | src/players/dumb.rs:7-9 | the player's answer is `DumbMove` of the board |
| Games.Answer | src/game.rs:29-32 | whichever player answers, a move it returns is legal for the side to move |
| Games.Next | src/game.rs:33-47 | the board stays consistent; a move is played on the board with `ApplyMove`, and a pass leaves the board as it is; the game stops exactly on a pass right after a pass, and then nothing changes; otherwise the turn passes and the pass flag records this answer |
| Games.GameOverAfterTwoPasses | src/game.rs:39-42 | the game ends only on the second of two consecutive passes |
| Games.NextStoneCounts | src/game.rs:35 | a move adds exactly one stone to the board, and the mover gains at least two while the opponent loses what was flipped; a pass changes no count |
| Games.TurnsAlternate | src/game.rs:46 | a step that continues hands the turn to the other colour |
| Games.Game.New | src/game.rs:17-26 | the new game is the opening board, Black to move, no pass yet |
| Games.Game.StrategyOf | src/game.rs:29-32 | definition: the black player answers for Black, the white player for White |
| Games.Game.Step | src/game.rs:28-48 | the board stays consistent and the game's new state and result are `Next` of the old state and the current player's answer |
| Games.Ask | src/game.rs:29-32 | the answer is the one the player's strategy gives on the board |

## Left out

- Display and printing (`fmt::Display` for `Coord`, `Matrix` and `Board`, `Game::print`) are not modelled: they are output only.
- `src/players/human.rs` (reads moves from standard input), `src/main.rs` (sets up and runs a game) and `src/players/mod.rs` (module list) are not part of this model.
- The `Play` trait and the generic players of `Game<P1, P2>` become a `Strategy` datatype over the three automatic players. The player objects are stateless apart from their depth, so `Games.Ask` builds one per call.
- NegaMax.NegaMaxPlayer.NegamaxMt: the parallel iterator (`into_par_iter` from rayon) is modelled as a sequential map followed by `max_by_key`. The result is the same because `max_by_key` keeps the last maximum in list order.
- `SmallVec` is modelled as a sequence; its inline capacity (64) is the bound proved in `Rules.LegalMovesSpec`.
- `Move.flips` is private to the board module, so the only moves that reach `do_move` are ones `get_move` built. Boards.Board.DoMove therefore requires the move to be `MoveAt` of its cell and legal. The program itself does not check this.
- Boards.Matrix.SetIndex: writing off the board is undefined in the program (an index panic). The model requires an on-board position.
- Coords.Add: an `i8` overflow panics in debug builds and wraps in release builds. The model requires both sums to stay within `i8`, and the model proves that every addition it performs does.
- Games.Next: the game does not check that a player's move is legal. `Games.Next` requires the answer to be legal. `Games.Game.Step` needs no such requires: it gets legality from `Games.Answer`, which proves that every modelled player answers with a legal move.
- The no-move score is inconsistent between the two searches. Negamax scores a node without moves as `-127`; alpha-beta evaluates it. Neither explores a pass. Both behaviours are modelled as written (`NegaMax.NegamaxNoMove`, `AlphaBeta.MinimaxLeaf`).
