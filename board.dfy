/**
 * The mutable board: an 8x8 array of cells plus two stone counters, updated in
 * place. Every operation is proved to agree with the rule functions of module
 * Rules on the board's value.
 */
module Boards {
  import opened Pieces
  import opened Coords
  import opened Rules

  /** The stones on the board, without counters. */
  class Matrix {
    const data: array2<Cell>

    predicate Valid() {
      data.Length0 == Size && data.Length1 == Size
    }

    /** The contents as rows indexed by y. */
    function Cells(): (g: Grid)
      requires Valid()
      reads data
      ensures IsGrid(g)
    {
      seq(Size, y requires 0 <= y < Size reads data =>
        seq(Size, x requires 0 <= x < Size reads data => data[y, x]))
    }

    /** The opening position. */
    constructor New()
      ensures Valid() && fresh(data)
      ensures Cells() == InitialGrid()
    {
      var init := InitialGrid();
      data := new Cell[Size, Size]((y, x) requires 0 <= y < Size && 0 <= x < Size => init[y][x]);
      new;
      assert forall y :: 0 <= y < Size ==> Cells()[y] == init[y];
    }

    /** A copy whose array is new. */
    constructor Copy(from: Matrix)
      requires from.Valid()
      ensures Valid() && fresh(data)
      ensures Cells() == from.Cells()
    {
      var src := from.data;
      data := new Cell[Size, Size]((y, x) requires 0 <= y < Size && 0 <= x < Size reads src => src[y, x]);
      new;
      assert forall y :: 0 <= y < Size ==> Cells()[y] == from.Cells()[y];
    }

    /** Read of a cell; a position off the board reads as empty. */
    function Index(pos: Coord): (c: Cell)
      requires Valid()
      reads data
      ensures !IsInRange(pos) ==> c == N
      ensures IsInRange(pos) ==> c == Cells()[pos.y][pos.x]
    {
      if !IsInRange(pos) then N else data[pos.y, pos.x]
    }

    /** Write of an on-board cell: that cell reads `v` afterwards and no other cell changes. */
    method SetIndex(pos: Coord, v: Cell)
      requires Valid() && IsInRange(pos)
      modifies data
      ensures Cells() == SetCell(old(Cells()), pos, v)
      ensures Index(pos) == v
      ensures forall q :: q != pos ==> Index(q) == old(Index(q))
    {
      data[pos.y, pos.x] := v;
      assert forall y :: 0 <= y < Size ==> Cells()[y] == SetCell(old(Cells()), pos, v)[y];
    }
  }

  /** The board proper: the matrix and the running counts of black and white stones. */
  class Board {
    const matrix: Matrix
    var black: U8
    var white: U8

    /** The board as a value. */
    function Value(): BoardState
      requires matrix.Valid()
      reads this, matrix.data
    {
      BoardState(matrix.Cells(), black, white)
    }

    /** The array has the right shape and the counters equal the stone counts. */
    predicate Valid()
      reads this, matrix.data
    {
      matrix.Valid() && ValidState(Value())
    }

    /** The opening board. */
    constructor New()
      ensures Valid() && fresh(matrix) && fresh(matrix.data)
      ensures Value() == InitialState()
    {
      matrix := new Matrix.New();
      black, white := 2, 2;
      new;
      assert Value() == InitialState();
    }

    /** A deep copy: the clone shares no array with this board. */
    constructor Clone(from: Board)
      requires from.Valid()
      ensures Valid() && fresh(matrix) && fresh(matrix.data)
      ensures Value() == from.Value()
    {
      matrix := new Matrix.Copy(from.matrix);
      black, white := from.black, from.white;
    }

    /** Read side of the counter that belongs to `p`. */
    function CountOf(p: Piece): U8
      reads this
    {
      if p == Black then black else white
    }

    /** On a consistent board, the counter of `p` is the number of `p`'s stones. */
    lemma CountOfCounts(p: Piece)
      requires Valid()
      ensures CountOf(p) == CountGrid(matrix.Cells(), Some(p))
    {
      CounterIsCount(Value(), p);
    }

    /** Write side of the counter that belongs to `p`; the other counter is untouched. */
    method SetCount(p: Piece, v: U8)
      modifies this
      ensures CountOf(p) == v && CountOf(Opponent(p)) == old(CountOf(Opponent(p)))
    {
      if p == Black { black := v; } else { white := v; }
    }

    /** The ray walk: stones of the opponent passed before one of `piece`'s own. */
    method GetFlip(piece: Piece, pos: Coord, dir: Coord) returns (count: U8)
      requires matrix.Valid() && IsInRange(pos) && IsStep(dir)
      ensures count == FlipRun(matrix.Cells(), piece, pos, dir)
    {
      ghost var g := matrix.Cells();
      var me := Some(piece);
      count := 0;
      var p := pos;
      while true
        invariant count <= 7
        invariant p == Along(pos, dir, count)
        invariant FlipRun(g, piece, pos, dir) == RunFrom(g, piece, pos, dir, count + 1)
        decreases 8 - count
      {
        AlongNext(pos, dir, count);
        RunFromStep(g, piece, pos, dir, count + 1);
        p := AddAssign(p, dir);
        var cell := matrix.Index(p);
        if cell == N {
          return 0;
        }
        if cell == me {
          return count;
        }
        count := count + 1;
      }
    }

    /** The move of `piece` at `pos`, with the eight ray counts filled in one by one. */
    method GetMove(piece: Piece, pos: Coord) returns (m: Move)
      requires matrix.Valid() && IsInRange(pos)
      ensures m == MoveAt(matrix.Cells(), piece, pos)
    {
      if matrix.Index(pos) != N {
        return Move(pos, ZeroFlips);
      }
      DirectionsAreSteps();
      var flips := new U8[8](_ => 0);
      for i := 0 to 8
        invariant forall j :: 0 <= j < i ==> flips[j] == FlipRun(matrix.Cells(), piece, pos, Directions[j])
      {
        flips[i] := GetFlip(piece, pos, Directions[i]);
      }
      m := Move(pos, flips[..]);
      assert m.flips == MoveAt(matrix.Cells(), piece, pos).flips;
    }

    /** The legal moves of `piece`, scanning rows top to bottom and each row left to right. */
    method Moves(piece: Piece) returns (ms: seq<Move>)
      requires matrix.Valid()
      ensures ms == LegalMoves(matrix.Cells(), piece)
    {
      ghost var g := matrix.Cells();
      ms := [];
      for y := 0 to Size
        invariant ms == LegalInRows(g, piece, y)
      {
        for x := 0 to Size
          invariant ms == LegalInRows(g, piece, y) + LegalInRow(g, piece, y, x)
        {
          var mov := GetMove(piece, Coord(x, y));
          LegalInRowNext(g, piece, y, x, mov, LegalInRows(g, piece, y), ms);
          if IsLegal(mov) {
            ms := ms + [mov];
          }
        }
        LegalInRowsNext(g, piece, y);
      }
      assert |g| == Size;
    }

    /** Recolour `flip` cells after `pos` along `dir` and move `flip` between the counters. */
    method DoFlip(piece: Piece, pos: Coord, dir: Coord, flip: U8)
      requires matrix.Valid() && IsInRange(pos) && IsStep(dir) && RunInRange(pos, dir, flip)
      requires CountOf(piece) + flip <= 255 && CountOf(Opponent(piece)) >= flip
      modifies this, matrix.data
      ensures Value() == FlipDir(old(Value()), piece, pos, dir, flip)
    {
      var p := pos;
      for i := 0 to flip
        invariant p == Along(pos, dir, i)
        invariant matrix.Cells() == FlipAlong(old(matrix.Cells()), piece, pos, dir, i)
        invariant black == old(black) && white == old(white)
      {
        assert IsInRange(Along(pos, dir, i + 1));
        AlongNext(pos, dir, i);
        p := AddAssign(p, dir);
        matrix.SetIndex(p, Some(piece));
      }
      OpponentInvolutive(piece);
      SetCount(piece, CountOf(piece) + flip);
      SetCount(Opponent(piece), CountOf(Opponent(piece)) - flip);
    }

    /** Play a legal move of `piece`: place the stone, then flip each direction with a nonzero count. */
    method DoMove(piece: Piece, mov: Move)
      requires Valid() && IsInRange(mov.pos) && mov == MoveAt(matrix.Cells(), piece, mov.pos) && IsLegal(mov)
      modifies this, matrix.data
      ensures Valid()
      ensures Value() == ApplyMove(old(Value()), piece, mov)
    {
      ghost var s := Value();
      ApplyMoveSpec(s, piece, mov);
      ghost var done := ApplyMove(s, piece, mov);
      CountersBounded(done);
      DirectionsAreSteps();
      ghost var placed := Place(s, piece, mov.pos);
      matrix.SetIndex(mov.pos, Some(piece));
      SetCount(piece, CountOf(piece) + 1);
      assert Value() == placed;
      for i := 0 to 8
        invariant Value() == FlipAll(placed, piece, mov.pos, mov.flips, i)
      {
        ghost var before := Value();
        SumBelow(mov.flips, i + 1, 8);
        assert CountOf(piece) == Counter(placed, piece) + SumTo(mov.flips, i);
        assert CountOf(Opponent(piece)) == Counter(placed, Opponent(piece)) - SumTo(mov.flips, i);
        assert Counter(done, piece) == Counter(placed, piece) + SumTo(mov.flips, 8);
        assert Counter(done, Opponent(piece)) == Counter(placed, Opponent(piece)) - SumTo(mov.flips, 8);
        if mov.flips[i] != 0 {
          DoFlip(piece, mov.pos, Directions[i], mov.flips[i]);
        }
      }
    }
  }

  /** Partial sums of non-negative counts grow with the prefix. */
  lemma {:induction false} SumBelow(f: seq<U8>, i: nat, k: nat)
    requires i <= k <= |f|
    ensures SumTo(f, i) <= SumTo(f, k)
  {
    if i < k {
      SumBelow(f, i, k - 1);
    }
  }
}
