/**
 * The rules of the game on board VALUES: the 8x8 grid, the ray walk that counts
 * bracketed stones, the move record, legal-move enumeration in row-major order
 * and the effect of playing a move. The imperative board in module Boards is
 * proved to compute exactly these functions.
 */
module Rules {
  import opened Pieces
  import opened Coords

  /** Length of one side of the board. */
  const Size: int := 8

  /** The range of an unsigned 8-bit integer (flip counts and stone counters). */
  type U8 = x: int | 0 <= x <= 255

  /** `pos` lies on the board. */
  predicate IsInRange(pos: Coord) {
    0 <= pos.x < Size && 0 <= pos.y < Size
  }

  /** Row-major rank of a cell: y outer, x inner. */
  function RowMajor(pos: Coord): int {
    pos.y * 8 + pos.x
  }

  /** Distinct cells of the board have distinct ranks, all below 64. */
  lemma RowMajorInjective(p: Coord, q: Coord)
    requires IsInRange(p) && IsInRange(q)
    ensures 0 <= RowMajor(p) < Size * Size
    ensures RowMajor(p) == RowMajor(q) ==> p == q
  {
  }

  // ---------------------------------------------------------------------------
  // The grid

  /** Rows indexed by y, each row indexed by x. */
  type Grid = seq<seq<Cell>>

  predicate IsGrid(g: Grid) {
    |g| == Size && forall y :: 0 <= y < Size ==> |g[y]| == Size
  }

  /** Total read: a coordinate off the board reads as an empty cell. */
  function Get(g: Grid, pos: Coord): Cell
    requires IsGrid(g)
  {
    if IsInRange(pos) then g[pos.y][pos.x] else N
  }

  /** Write of one on-board cell. */
  function SetCell(g: Grid, pos: Coord, v: Cell): (r: Grid)
    requires IsGrid(g) && IsInRange(pos)
    ensures IsGrid(r)
    ensures Get(r, pos) == v
    ensures forall q :: q != pos ==> Get(r, q) == Get(g, q)
  {
    g[pos.y := g[pos.y][pos.x := v]]
  }

  /** The opening position. */
  function InitialGrid(): (g: Grid)
    ensures IsGrid(g)
  {
    [ [N, N, N, N, N, N, N, N],
      [N, N, N, N, N, N, N, N],
      [N, N, N, N, N, N, N, N],
      [N, N, N, W, B, N, N, N],
      [N, N, N, B, W, N, N, N],
      [N, N, N, N, N, N, N, N],
      [N, N, N, N, N, N, N, N],
      [N, N, N, N, N, N, N, N] ]
  }

  /** The opening position holds exactly the four centre stones. */
  lemma InitialGridCells(pos: Coord)
    ensures Get(InitialGrid(), pos) ==
      if pos == Coord(3, 3) || pos == Coord(4, 4) then W
      else if pos == Coord(4, 3) || pos == Coord(3, 4) then B
      else N
  {
    var g := InitialGrid();
    if IsInRange(pos) {
      assert g[pos.y][pos.x] == Get(g, pos);
    }
  }

  // ---------------------------------------------------------------------------
  // Counting stones

  function CountRow(row: seq<Cell>, c: Cell): (n: nat)
    ensures n <= |row|
  {
    if row == [] then 0 else (if row[0] == c then 1 else 0) + CountRow(row[1..], c)
  }

  function CountGrid(rows: seq<seq<Cell>>, c: Cell): nat {
    if rows == [] then 0 else CountRow(rows[0], c) + CountGrid(rows[1..], c)
  }

  lemma {:induction false} CountRowUpdate(row: seq<Cell>, x: nat, v: Cell, c: Cell)
    requires x < |row|
    ensures CountRow(row[x := v], c) ==
      CountRow(row, c) - (if row[x] == c then 1 else 0) + (if v == c then 1 else 0)
  {
    if x > 0 {
      assert row[x := v][1..] == row[1..][x - 1 := v];
      CountRowUpdate(row[1..], x - 1, v, c);
    } else {
      assert row[x := v][1..] == row[1..];
    }
  }

  lemma {:induction false} CountGridUpdate(rows: seq<seq<Cell>>, y: nat, r: seq<Cell>, c: Cell)
    requires y < |rows|
    ensures CountGrid(rows[y := r], c) == CountGrid(rows, c) - CountRow(rows[y], c) + CountRow(r, c)
  {
    if y > 0 {
      assert rows[y := r][1..] == rows[1..][y - 1 := r];
      CountGridUpdate(rows[1..], y - 1, r, c);
    } else {
      assert rows[y := r][1..] == rows[1..];
    }
  }

  /** Writing one cell moves at most one unit between the per-value counts. */
  lemma CountSetCell(g: Grid, pos: Coord, v: Cell, c: Cell)
    requires IsGrid(g) && IsInRange(pos)
    ensures CountGrid(SetCell(g, pos, v), c) ==
      CountGrid(g, c) - (if Get(g, pos) == c then 1 else 0) + (if v == c then 1 else 0)
  {
    CountRowUpdate(g[pos.y], pos.x, v, c);
    CountGridUpdate(g, pos.y, g[pos.y][pos.x := v], c);
  }

  lemma {:induction false} CountRowTotal(row: seq<Cell>)
    ensures CountRow(row, N) + CountRow(row, B) + CountRow(row, W) == |row|
  {
    if row != [] {
      CountRowTotal(row[1..]);
      CellConstantsDistinct(row[0]);
    }
  }

  lemma {:induction false} CountGridTotal(rows: seq<seq<Cell>>, width: nat)
    requires forall y :: 0 <= y < |rows| ==> |rows[y]| == width
    ensures CountGrid(rows, N) + CountGrid(rows, B) + CountGrid(rows, W) == |rows| * width
  {
    if rows != [] {
      CountRowTotal(rows[0]);
      CountGridTotal(rows[1..], width);
    }
  }

  /** Every one of the 64 cells is empty, black or white. */
  lemma CountsCoverBoard(g: Grid)
    requires IsGrid(g)
    ensures CountGrid(g, N) + CountGrid(g, B) + CountGrid(g, W) == Size * Size
  {
    CountGridTotal(g, Size);
  }

  lemma {:induction false} CountRowAbsent(row: seq<Cell>, c: Cell)
    requires c !in row
    ensures CountRow(row, c) == 0
  {
    if row != [] {
      assert row[0] != c;
      CountRowAbsent(row[1..], c);
    }
  }

  lemma {:induction false} CountGridAbsent(rows: seq<seq<Cell>>, c: Cell)
    requires forall y :: 0 <= y < |rows| ==> c !in rows[y]
    ensures CountGrid(rows, c) == 0
  {
    if rows != [] {
      CountRowAbsent(rows[0], c);
      CountGridAbsent(rows[1..], c);
    }
  }

  /** The opening position has two stones of each colour. */
  lemma InitialCounts()
    ensures CountGrid(InitialGrid(), B) == 2 && CountGrid(InitialGrid(), W) == 2
  {
    InitialBlackCount();
    InitialWhiteCount();
  }

  /** The opening position as an empty board with the two centre rows written in. */
  lemma InitialGridShape(e: seq<Cell>)
    requires e == [N, N, N, N, N, N, N, N]
    ensures InitialGrid() == [e, e, e, e, e, e, e, e][3 := e[3 := W][4 := B]][4 := e[3 := B][4 := W]]
  {
    assert e[3 := W][4 := B] == [N, N, N, W, B, N, N, N];
    assert e[3 := B][4 := W] == [N, N, N, B, W, N, N, N];
  }

  lemma InitialBlackCount()
    ensures CountGrid(InitialGrid(), B) == 2
  {
    var e: seq<Cell> := [N, N, N, N, N, N, N, N];
    var r3, r4 := e[3 := W][4 := B], e[3 := B][4 := W];
    var blank := [e, e, e, e, e, e, e, e];
    InitialGridShape(e);
    CountRowAbsent(e, B);
    CountGridAbsent(blank, B);
    CountRowUpdate(e, 3, W, B);
    CountRowUpdate(e[3 := W], 4, B, B);
    CountRowUpdate(e, 3, B, B);
    CountRowUpdate(e[3 := B], 4, W, B);
    CountGridUpdate(blank, 3, r3, B);
    CountGridUpdate(blank[3 := r3], 4, r4, B);
  }

  lemma InitialWhiteCount()
    ensures CountGrid(InitialGrid(), W) == 2
  {
    var e: seq<Cell> := [N, N, N, N, N, N, N, N];
    var r3, r4 := e[3 := W][4 := B], e[3 := B][4 := W];
    var blank := [e, e, e, e, e, e, e, e];
    InitialGridShape(e);
    CountRowAbsent(e, W);
    CountGridAbsent(blank, W);
    CountRowUpdate(e, 3, W, W);
    CountRowUpdate(e[3 := W], 4, B, W);
    CountRowUpdate(e, 3, B, W);
    CountRowUpdate(e[3 := B], 4, W, W);
    CountGridUpdate(blank, 3, r3, W);
    CountGridUpdate(blank[3 := r3], 4, r4, W);
  }

  // ---------------------------------------------------------------------------
  // Directions and rays

  /** The eight neighbour steps: up-left, up, up-right, left, right, down-left, down, down-right. */
  const Directions: seq<Coord> := [
    Coord(-1, -1), Coord(0, -1), Coord(1, -1),
    Coord(-1, 0),                Coord(1, 0),
    Coord(-1, 1),  Coord(0, 1),  Coord(1, 1)]

  /** A step to one of the eight neighbouring cells. */
  predicate IsStep(d: Coord) {
    -1 <= d.x <= 1 && -1 <= d.y <= 1 && d != Coord(0, 0)
  }

  /** The table holds the eight neighbour steps, each exactly once. */
  lemma DirectionsAreSteps()
    ensures |Directions| == 8
    ensures forall i :: 0 <= i < 8 ==> IsStep(Directions[i])
    ensures forall i, j :: 0 <= i < j < 8 ==> Directions[i] != Directions[j]
  {
  }

  /** Every neighbour step is in the table. */
  lemma StepsAreDirections(d: Coord)
    requires IsStep(d)
    ensures d in Directions
  {
    assert d.x == -1 || d.x == 0 || d.x == 1;
    assert d.y == -1 || d.y == 0 || d.y == 1;
  }

  /** `d * t` for a step component `d`. */
  function Scale(d: int, t: int): int {
    if d > 0 then t else if d < 0 then -t else 0
  }

  /** The cell `t` steps away from `pos` along `dir`. */
  function Along(pos: Coord, dir: Coord, t: nat): Coord
    requires IsInRange(pos) && IsStep(dir) && t <= 100
  {
    Coord(pos.x + Scale(dir.x, t), pos.y + Scale(dir.y, t))
  }

  /** One more step along a ray. */
  lemma AlongNext(pos: Coord, dir: Coord, t: nat)
    requires IsInRange(pos) && IsStep(dir) && t <= 99
    ensures -128 <= Along(pos, dir, t).x + dir.x <= 127 && -128 <= Along(pos, dir, t).y + dir.y <= 127
    ensures Add(Along(pos, dir, t), dir) == Along(pos, dir, t + 1)
  {
  }

  /** Eight steps in any direction leave the board. */
  lemma AlongLeaves(pos: Coord, dir: Coord, t: nat)
    requires IsInRange(pos) && IsStep(dir) && t <= 100
    requires IsInRange(Along(pos, dir, t))
    ensures t <= 7
  {
  }

  /** Rays from one cell in two different directions never meet. */
  lemma RaysDisjoint(pos: Coord, d1: Coord, t1: nat, d2: Coord, t2: nat)
    requires IsInRange(pos) && IsStep(d1) && IsStep(d2) && 1 <= t1 <= 100 && 1 <= t2 <= 100
    requires Along(pos, d1, t1) == Along(pos, d2, t2)
    ensures d1 == d2 && t1 == t2
  {
  }

  /** Rays in two different directions from one cell share no cell. */
  lemma RaysApart(pos: Coord, d1: Coord, t1: nat, d2: Coord, t2: nat)
    requires IsInRange(pos) && IsStep(d1) && IsStep(d2) && 1 <= t1 <= 100 && 1 <= t2 <= 100 && d1 != d2
    ensures Along(pos, d1, t1) != Along(pos, d2, t2)
  {
  }

  /** A ray never comes back to its origin. */
  lemma RayAvoidsOrigin(pos: Coord, dir: Coord, t: nat)
    requires IsInRange(pos) && IsStep(dir) && 1 <= t <= 100
    ensures Along(pos, dir, t) != pos
  {
  }

  /**
   * `m` opponent stones follow `pos` along `dir` and are closed by a stone of
   * `piece`: placing `piece` at `pos` would flip exactly those `m` stones.
   */
  ghost predicate Bracketed(g: Grid, piece: Piece, pos: Coord, dir: Coord, m: int)
    requires IsGrid(g) && IsInRange(pos) && IsStep(dir)
  {
    1 <= m <= 7 &&
    (forall t :: 1 <= t <= m ==> Get(g, Along(pos, dir, t)) == Some(Opponent(piece))) &&
    Get(g, Along(pos, dir, m + 1)) == Some(piece)
  }

  /** The ray walk from step `t` on, having passed `t - 1` opponent stones. */
  function RunFrom(g: Grid, piece: Piece, pos: Coord, dir: Coord, t: nat): (k: nat)
    requires IsGrid(g) && IsInRange(pos) && IsStep(dir) && 1 <= t <= 8
    ensures k <= 6
    decreases 8 - t
  {
    var c := Get(g, Along(pos, dir, t));
    if c == N then 0
    else if c == Some(piece) then t - 1
    else RunFrom(g, piece, pos, dir, t + 1)
  }

  /** One step of the ray walk. */
  lemma RunFromStep(g: Grid, piece: Piece, pos: Coord, dir: Coord, t: nat)
    requires IsGrid(g) && IsInRange(pos) && IsStep(dir) && 1 <= t <= 8
    ensures Get(g, Along(pos, dir, t)) != N ==> t <= 7
    ensures Get(g, Along(pos, dir, t)) == N ==> RunFrom(g, piece, pos, dir, t) == 0
    ensures Get(g, Along(pos, dir, t)) == Some(piece) ==> RunFrom(g, piece, pos, dir, t) == t - 1
    ensures Get(g, Along(pos, dir, t)) != N && Get(g, Along(pos, dir, t)) != Some(piece) ==>
      RunFrom(g, piece, pos, dir, t) == RunFrom(g, piece, pos, dir, t + 1)
  {
  }

  /** How many opponent stones placing `piece` at `pos` flips along `dir`. */
  function FlipRun(g: Grid, piece: Piece, pos: Coord, dir: Coord): (k: nat)
    requires IsGrid(g) && IsInRange(pos) && IsStep(dir)
    ensures k <= 6
  {
    RunFrom(g, piece, pos, dir, 1)
  }

  lemma {:induction false} RunFromSpec(g: Grid, piece: Piece, pos: Coord, dir: Coord, t: nat)
    requires IsGrid(g) && IsInRange(pos) && IsStep(dir) && 1 <= t <= 8
    requires forall u :: 1 <= u < t ==> Get(g, Along(pos, dir, u)) == Some(Opponent(piece))
    ensures RunFrom(g, piece, pos, dir, t) <= 6
    ensures RunFrom(g, piece, pos, dir, t) > 0 ==> Bracketed(g, piece, pos, dir, RunFrom(g, piece, pos, dir, t))
    ensures forall m :: Bracketed(g, piece, pos, dir, m) ==> RunFrom(g, piece, pos, dir, t) == m
    decreases 8 - t
  {
    var c := Get(g, Along(pos, dir, t));
    forall m | Bracketed(g, piece, pos, dir, m)
      ensures m + 1 >= t
    {
      if m + 1 < t {
        assert false;
      }
    }
    if c == N {
      forall m | Bracketed(g, piece, pos, dir, m) ensures false {
      }
    } else if c == Some(piece) {
      if t > 1 {
        AlongLeaves(pos, dir, t);
      }
      forall m | Bracketed(g, piece, pos, dir, m) ensures m == t - 1 {
        assert Get(g, Along(pos, dir, t)) == Some(piece);
      }
    } else {
      AlongLeaves(pos, dir, t);
      assert c == Some(Opponent(piece)) by {
        match c
        case Some(p) => assert p != piece;
      }
      RunFromSpec(g, piece, pos, dir, t + 1);
    }
  }

  /**
   * The ray walk returns the length of the bracketed run when there is one and
   * 0 when the board edge or an empty cell comes first; it never exceeds 6.
   */
  lemma FlipRunSpec(g: Grid, piece: Piece, pos: Coord, dir: Coord)
    requires IsGrid(g) && IsInRange(pos) && IsStep(dir)
    ensures FlipRun(g, piece, pos, dir) <= 6
    ensures FlipRun(g, piece, pos, dir) > 0 ==> Bracketed(g, piece, pos, dir, FlipRun(g, piece, pos, dir))
    ensures forall m :: Bracketed(g, piece, pos, dir, m) ==> FlipRun(g, piece, pos, dir) == m
  {
    RunFromSpec(g, piece, pos, dir, 1);
  }

  // ---------------------------------------------------------------------------
  // Moves

  /** Eight flip counts, one per entry of `Directions`. */
  type Flips = f: seq<U8> | |f| == 8 witness [0, 0, 0, 0, 0, 0, 0, 0]

  /** A placement and, per entry of `Directions`, how many stones it flips that way. */
  datatype Move = Move(pos: Coord, flips: Flips)

  /** The flips of a move that flips nothing. */
  const ZeroFlips: seq<U8> := [0, 0, 0, 0, 0, 0, 0, 0]

  /** A move is legal when its flips differ from `ZeroFlips`. */
  predicate IsLegal(m: Move) {
    m.flips != ZeroFlips
  }

  /** With eight entries, legality is "some direction flips at least one stone". */
  lemma IsLegalIff(m: Move)
    ensures IsLegal(m) <==> exists i :: 0 <= i < 8 && m.flips[i] != 0
  {
    if forall i :: 0 <= i < 8 ==> m.flips[i] == 0 {
      assert m.flips == ZeroFlips;
    } else {
      var i :| 0 <= i < 8 && m.flips[i] != 0;
      assert m.flips[i] != ZeroFlips[i];
    }
  }

  /** The move of `piece` at `pos`: all zero on an occupied cell, else one ray walk per direction. */
  function MoveAt(g: Grid, piece: Piece, pos: Coord): (m: Move)
    requires IsGrid(g) && IsInRange(pos)
    ensures m.pos == pos && RunsInRange(pos, m.flips)
  {
    if Get(g, pos) != N then Move(pos, ZeroFlips)
    else
      RunsStayOnBoard(g, piece, pos);
      Move(pos, seq(8, i requires 0 <= i < 8 => FlipRun(g, piece, pos, Directions[i])))
  }

  /** Each bracketed run lies on the board. */
  lemma RunsStayOnBoard(g: Grid, piece: Piece, pos: Coord)
    requires IsGrid(g) && IsInRange(pos)
    ensures |Directions| == 8 && forall i :: 0 <= i < 8 ==> IsStep(Directions[i])
    ensures forall i :: 0 <= i < 8 ==> RunInRange(pos, Directions[i], FlipRun(g, piece, pos, Directions[i]))
  {
    DirectionsAreSteps();
    forall i | 0 <= i < 8
      ensures RunInRange(pos, Directions[i], FlipRun(g, piece, pos, Directions[i]))
    {
      FlipRunSpec(g, piece, pos, Directions[i]);
    }
  }

  /** The record `MoveAt` builds: eight counts, each the ray walk on an empty target. */
  lemma MoveAtShape(g: Grid, piece: Piece, pos: Coord, i: int)
    requires IsGrid(g) && IsInRange(pos) && 0 <= i < 8
    ensures MoveAt(g, piece, pos).pos == pos && |MoveAt(g, piece, pos).flips| == 8
    ensures IsStep(Directions[i])
    ensures MoveAt(g, piece, pos).flips[i] ==
      if Get(g, pos) == N then FlipRun(g, piece, pos, Directions[i]) else 0
  {
    DirectionsAreSteps();
  }

  /**
   * A move is legal exactly when its target is empty and some direction holds a
   * run of opponent stones closed by one of the mover's stones.
   */
  lemma MoveAtLegalIff(g: Grid, piece: Piece, pos: Coord)
    requires IsGrid(g) && IsInRange(pos)
    ensures IsLegal(MoveAt(g, piece, pos)) <==>
      Get(g, pos) == N &&
      exists i, k :: 0 <= i < 8 && IsStep(Directions[i]) && Bracketed(g, piece, pos, Directions[i], k)
  {
    DirectionsAreSteps();
    var m := MoveAt(g, piece, pos);
    IsLegalIff(m);
    if IsLegal(m) {
      var i :| 0 <= i < 8 && m.flips[i] != 0;
      MoveAtShape(g, piece, pos, i);
      FlipRunSpec(g, piece, pos, Directions[i]);
    } else if Get(g, pos) == N {
      forall i, k | 0 <= i < 8 && IsStep(Directions[i]) && Bracketed(g, piece, pos, Directions[i], k)
        ensures false
      {
        MoveAtShape(g, piece, pos, i);
        FlipRunSpec(g, piece, pos, Directions[i]);
      }
    }
  }

  /** The move at `pos` when it is legal, nothing otherwise. */
  function CellMoves(g: Grid, piece: Piece, pos: Coord): seq<Move>
    requires IsGrid(g) && IsInRange(pos)
  {
    var m := MoveAt(g, piece, pos);
    if IsLegal(m) then [m] else []
  }

  /** Legal moves among the cells `(0, y) .. (x - 1, y)`, left to right. */
  function LegalInRow(g: Grid, piece: Piece, y: int, x: nat): seq<Move>
    requires IsGrid(g) && 0 <= y < Size && x <= Size
  {
    if x == 0 then [] else LegalInRow(g, piece, y, x - 1) + CellMoves(g, piece, Coord(x - 1, y))
  }

  /** Legal moves of rows `0 .. y - 1`, top to bottom. */
  function LegalInRows(g: Grid, piece: Piece, y: nat): seq<Move>
    requires IsGrid(g) && y <= Size
  {
    if y == 0 then [] else LegalInRows(g, piece, y - 1) + LegalInRow(g, piece, y - 1, Size)
  }

  /** One more cell of a row scanned: its move is appended when legal. */
  lemma LegalInRowNext(g: Grid, piece: Piece, y: int, x: int, m: Move, above: seq<Move>, ms: seq<Move>)
    requires IsGrid(g) && 0 <= y < Size && 0 <= x < Size && m == MoveAt(g, piece, Coord(x, y))
    requires ms == above + LegalInRow(g, piece, y, x)
    ensures (if IsLegal(m) then ms + [m] else ms) == above + LegalInRow(g, piece, y, x + 1)
  {
  }

  /** One more row scanned. */
  lemma LegalInRowsNext(g: Grid, piece: Piece, y: int)
    requires IsGrid(g) && 0 <= y < Size
    ensures LegalInRows(g, piece, y + 1) == LegalInRows(g, piece, y) + LegalInRow(g, piece, y, Size)
  {
  }

  /** All legal moves of `piece`, scanning rows top to bottom and each row left to right. */
  function LegalMoves(g: Grid, piece: Piece): seq<Move>
    requires IsGrid(g)
  {
    LegalInRows(g, piece, |g|)
  }

  /**
   * `ms` is exactly the legal moves whose row-major rank lies in `[lo, hi)`,
   * each as `MoveAt` builds it, in strictly increasing rank.
   */
  ghost predicate ScanOf(g: Grid, piece: Piece, ms: seq<Move>, lo: int, hi: int)
    requires IsGrid(g)
  {
    |ms| <= hi - lo &&
    (forall i :: 0 <= i < |ms| ==>
      IsInRange(ms[i].pos) && lo <= RowMajor(ms[i].pos) < hi &&
      ms[i] == MoveAt(g, piece, ms[i].pos) && IsLegal(ms[i])) &&
    (forall pos :: IsInRange(pos) && lo <= RowMajor(pos) < hi && IsLegal(MoveAt(g, piece, pos)) ==>
      MoveAt(g, piece, pos) in ms) &&
    (forall i, j :: 0 <= i < j < |ms| ==> RowMajor(ms[i].pos) < RowMajor(ms[j].pos))
  }

  lemma ScanOfConcat(g: Grid, piece: Piece, a: seq<Move>, b: seq<Move>, lo: int, mid: int, hi: int)
    requires IsGrid(g) && ScanOf(g, piece, a, lo, mid) && ScanOf(g, piece, b, mid, hi)
    ensures ScanOf(g, piece, a + b, lo, hi)
  {
    var ab := a + b;
    forall i, j | 0 <= i < j < |ab| ensures RowMajor(ab[i].pos) < RowMajor(ab[j].pos) {
      if j < |a| {
      } else if i < |a| {
        assert ab[j] == b[j - |a|];
      } else {
        assert ab[i] == b[i - |a|] && ab[j] == b[j - |a|];
      }
    }
  }

  /** One cell scanned: its move if legal, nothing otherwise. */
  lemma ScanOfCell(g: Grid, piece: Piece, pos: Coord)
    requires IsGrid(g) && IsInRange(pos)
    ensures ScanOf(g, piece, CellMoves(g, piece, pos), RowMajor(pos), RowMajor(pos) + 1)
  {
    var m := MoveAt(g, piece, pos);
    forall q | IsInRange(q) && RowMajor(pos) <= RowMajor(q) < RowMajor(pos) + 1
      ensures q == pos
    {
      RowMajorInjective(q, pos);
    }
  }

  lemma {:induction false} LegalInRowSpec(g: Grid, piece: Piece, y: int, x: nat)
    requires IsGrid(g) && 0 <= y < Size && x <= Size
    ensures ScanOf(g, piece, LegalInRow(g, piece, y, x), y * 8, y * 8 + x)
  {
    if x > 0 {
      LegalInRowSpec(g, piece, y, x - 1);
      ScanOfCell(g, piece, Coord(x - 1, y));
      ScanOfConcat(g, piece, LegalInRow(g, piece, y, x - 1), CellMoves(g, piece, Coord(x - 1, y)),
        y * 8, y * 8 + x - 1, y * 8 + x);
    }
  }

  /** One more row scanned keeps the scan exact. */
  lemma LegalInRowsStep(g: Grid, piece: Piece, y: nat)
    requires IsGrid(g) && 0 < y <= Size && ScanOf(g, piece, LegalInRows(g, piece, y - 1), 0, (y - 1) * 8)
    ensures ScanOf(g, piece, LegalInRows(g, piece, y), 0, y * 8)
  {
    LegalInRowSpec(g, piece, y - 1, Size);
    ScanOfConcat(g, piece, LegalInRows(g, piece, y - 1), LegalInRow(g, piece, y - 1, Size),
      0, (y - 1) * 8, y * 8);
  }

  lemma {:induction false} LegalInRowsSpec(g: Grid, piece: Piece, y: nat)
    requires IsGrid(g) && y <= Size
    ensures ScanOf(g, piece, LegalInRows(g, piece, y), 0, y * 8)
  {
    if y > 0 {
      LegalInRowsSpec(g, piece, y - 1);
      LegalInRowsStep(g, piece, y);
    }
  }

  /**
   * The enumeration holds every legal move of the board and nothing else, each
   * as `MoveAt` builds it, in strictly increasing row-major order (so no
   * position twice), and at most 64 of them.
   */
  lemma LegalMovesSpec(g: Grid, piece: Piece)
    requires IsGrid(g)
    ensures |LegalMoves(g, piece)| <= Size * Size
    ensures forall m :: m in LegalMoves(g, piece) ==>
      IsInRange(m.pos) && m == MoveAt(g, piece, m.pos) && IsLegal(m)
    ensures forall pos :: IsInRange(pos) && IsLegal(MoveAt(g, piece, pos)) ==>
      MoveAt(g, piece, pos) in LegalMoves(g, piece)
    ensures forall i, j :: 0 <= i < j < |LegalMoves(g, piece)| ==>
      RowMajor(LegalMoves(g, piece)[i].pos) < RowMajor(LegalMoves(g, piece)[j].pos)
  {
    LegalInRowsSpec(g, piece, Size);
    forall pos | IsInRange(pos) ensures 0 <= RowMajor(pos) < Size * Size {
      RowMajorInjective(pos, pos);
    }
  }

  // ---------------------------------------------------------------------------
  // Board values and playing a move

  /** A board as a value: the grid and the two running stone counters. */
  datatype BoardState = BoardState(grid: Grid, black: int, white: int)

  /** The counter that belongs to `p`. */
  function Counter(s: BoardState, p: Piece): int {
    if p == Black then s.black else s.white
  }

  /** The same board with `p`'s counter set to `v`. */
  function WithCounter(s: BoardState, p: Piece, v: int): (r: BoardState)
    ensures r.grid == s.grid && Counter(r, p) == v && Counter(r, Opponent(p)) == Counter(s, Opponent(p))
  {
    if p == Black then s.(black := v) else s.(white := v)
  }

  /** The counters equal the number of stones of each colour on the grid. */
  predicate ValidState(s: BoardState) {
    IsGrid(s.grid) && s.black == CountGrid(s.grid, B) && s.white == CountGrid(s.grid, W)
  }

  /** Counter of `p` as a count of cells. */
  lemma CounterIsCount(s: BoardState, p: Piece)
    requires ValidState(s)
    ensures Counter(s, p) == CountGrid(s.grid, Some(p))
  {
  }

  /** On a consistent board the two counters together never exceed 64. */
  lemma CountersBounded(s: BoardState)
    requires ValidState(s)
    ensures 0 <= s.black && 0 <= s.white && s.black + s.white <= Size * Size
  {
    CountsCoverBoard(s.grid);
  }

  /** The opening board: four centre stones and both counters at 2. */
  function InitialState(): (s: BoardState)
    ensures ValidState(s)
    ensures s.black == 2 && s.white == 2
  {
    InitialCounts();
    BoardState(InitialGrid(), 2, 2)
  }

  /** The first `k` cells after `pos` along `dir` are on the board. */
  predicate RunInRange(pos: Coord, dir: Coord, k: nat)
    requires IsInRange(pos)
  {
    IsStep(dir) && k <= 7 && forall t :: 1 <= t <= k ==> IsInRange(Along(pos, dir, t))
  }

  /** Recolour the first `k` cells after `pos` along `dir` to `piece`. */
  function FlipAlong(g: Grid, piece: Piece, pos: Coord, dir: Coord, k: nat): (r: Grid)
    requires IsGrid(g) && IsInRange(pos) && IsStep(dir) && RunInRange(pos, dir, k)
    ensures IsGrid(r)
  {
    if k == 0 then g
    else SetCell(FlipAlong(g, piece, pos, dir, k - 1), Along(pos, dir, k), Some(piece))
  }

  /** The first `k` cells of the ray hold `piece` afterwards; every other cell is unchanged. */
  lemma {:induction false} FlipAlongSpec(g: Grid, piece: Piece, pos: Coord, dir: Coord, k: nat)
    requires IsGrid(g) && IsInRange(pos) && IsStep(dir) && RunInRange(pos, dir, k)
    ensures forall t :: 1 <= t <= k ==> Get(FlipAlong(g, piece, pos, dir, k), Along(pos, dir, t)) == Some(piece)
    ensures forall q :: (forall t :: 1 <= t <= k ==> q != Along(pos, dir, t)) ==>
      Get(FlipAlong(g, piece, pos, dir, k), q) == Get(g, q)
  {
    if k > 0 {
      FlipAlongSpec(g, piece, pos, dir, k - 1);
      var last := Along(pos, dir, k);
      forall t | 1 <= t < k
        ensures Get(FlipAlong(g, piece, pos, dir, k), Along(pos, dir, t)) == Some(piece)
      {
        if Along(pos, dir, t) == last {
          RaysDisjoint(pos, dir, k, dir, t);
        }
      }
    }
  }

  /** Flipping a run of opponent stones moves `k` stones from the opponent's count to `piece`'s. */
  lemma {:induction false} FlipAlongCounts(g: Grid, piece: Piece, pos: Coord, dir: Coord, k: nat)
    requires IsGrid(g) && IsInRange(pos) && IsStep(dir) && RunInRange(pos, dir, k)
    requires forall t :: 1 <= t <= k ==> Get(g, Along(pos, dir, t)) == Some(Opponent(piece))
    ensures CountGrid(FlipAlong(g, piece, pos, dir, k), Some(piece)) == CountGrid(g, Some(piece)) + k
    ensures CountGrid(FlipAlong(g, piece, pos, dir, k), Some(Opponent(piece))) ==
      CountGrid(g, Some(Opponent(piece))) - k
  {
    if k > 0 {
      FlipAlongCounts(g, piece, pos, dir, k - 1);
      FlipAlongStepCounts(g, piece, pos, dir, k);
    }
  }

  /** The `k`-th cell of the run still holds an opponent stone when it is recoloured. */
  lemma FlipAlongStepCounts(g: Grid, piece: Piece, pos: Coord, dir: Coord, k: nat)
    requires IsGrid(g) && IsInRange(pos) && IsStep(dir) && RunInRange(pos, dir, k) && 0 < k
    requires Get(g, Along(pos, dir, k)) == Some(Opponent(piece))
    ensures CountGrid(FlipAlong(g, piece, pos, dir, k), Some(piece)) ==
      CountGrid(FlipAlong(g, piece, pos, dir, k - 1), Some(piece)) + 1
    ensures CountGrid(FlipAlong(g, piece, pos, dir, k), Some(Opponent(piece))) ==
      CountGrid(FlipAlong(g, piece, pos, dir, k - 1), Some(Opponent(piece))) - 1
  {
    var prev := FlipAlong(g, piece, pos, dir, k - 1);
    var q := Along(pos, dir, k);
    FlipAlongAhead(g, piece, pos, dir, k);
    CountSetCell(prev, q, Some(piece), Some(piece));
    CountSetCell(prev, q, Some(piece), Some(Opponent(piece)));
  }

  /** Recolouring the first `k - 1` cells of a run leaves its `k`-th cell alone. */
  lemma FlipAlongAhead(g: Grid, piece: Piece, pos: Coord, dir: Coord, k: nat)
    requires IsGrid(g) && IsInRange(pos) && IsStep(dir) && RunInRange(pos, dir, k) && 0 < k
    ensures Get(FlipAlong(g, piece, pos, dir, k - 1), Along(pos, dir, k)) == Get(g, Along(pos, dir, k))
  {
    var q := Along(pos, dir, k);
    FlipAlongSpec(g, piece, pos, dir, k - 1);
    forall t | 1 <= t <= k - 1 ensures q != Along(pos, dir, t) {
      if q == Along(pos, dir, t) {
        RaysDisjoint(pos, dir, k, dir, t);
      }
    }
  }

  /** One direction of a move: the run is recoloured and `k` moves between the counters. */
  function FlipDir(s: BoardState, piece: Piece, pos: Coord, dir: Coord, k: nat): (r: BoardState)
    requires IsGrid(s.grid) && IsInRange(pos) && IsStep(dir) && RunInRange(pos, dir, k)
    ensures r.grid == FlipAlong(s.grid, piece, pos, dir, k)
    ensures Counter(r, piece) == Counter(s, piece) + k
    ensures Counter(r, Opponent(piece)) == Counter(s, Opponent(piece)) - k
  {
    var t := WithCounter(s, piece, Counter(s, piece) + k);
    var u := WithCounter(t, Opponent(piece), Counter(t, Opponent(piece)) - k);
    OpponentInvolutive(piece);
    u.(grid := FlipAlong(s.grid, piece, pos, dir, k))
  }

  /** Every run a flips vector asks for stays on the board. */
  predicate RunsInRange(pos: Coord, flips: seq<U8>)
    requires IsInRange(pos)
  {
    |flips| == 8 && forall j :: 0 <= j < 8 ==> RunInRange(pos, Directions[j], flips[j])
  }

  /** Sum of the first `i` entries. */
  function SumTo(f: seq<U8>, i: nat): int
    requires i <= |f|
  {
    if i == 0 then 0 else SumTo(f, i - 1) + f[i - 1]
  }

  /** `q` is one of the cells recoloured by directions `0 .. i-1`. */
  ghost predicate Flipped(pos: Coord, flips: seq<U8>, i: nat, q: Coord)
    requires IsInRange(pos) && RunsInRange(pos, flips) && i <= 8
  {
    exists j, t :: 0 <= j < i && 1 <= t <= flips[j] && q == Along(pos, Directions[j], t)
  }

  /** Directions `0 .. i-1` of a move applied one after the other, skipping zero counts. */
  function FlipAll(s: BoardState, piece: Piece, pos: Coord, flips: seq<U8>, i: nat): (r: BoardState)
    requires IsGrid(s.grid) && IsInRange(pos) && RunsInRange(pos, flips) && i <= 8
    ensures IsGrid(r.grid)
    ensures Counter(r, piece) == Counter(s, piece) + SumTo(flips, i)
    ensures Counter(r, Opponent(piece)) == Counter(s, Opponent(piece)) - SumTo(flips, i)
  {
    if i == 0 then s
    else
      var prev := FlipAll(s, piece, pos, flips, i - 1);
      if flips[i - 1] != 0 then FlipDir(prev, piece, pos, Directions[i - 1], flips[i - 1]) else prev
  }

  /** Put `piece` on `pos` and count it. */
  function Place(s: BoardState, piece: Piece, pos: Coord): (r: BoardState)
    requires IsGrid(s.grid) && IsInRange(pos)
    ensures r.grid == SetCell(s.grid, pos, Some(piece))
    ensures Counter(r, piece) == Counter(s, piece) + 1
    ensures Counter(r, Opponent(piece)) == Counter(s, Opponent(piece))
  {
    WithCounter(s, piece, Counter(s, piece) + 1).(grid := SetCell(s.grid, pos, Some(piece)))
  }

  /** Playing `m`: place the stone, then flip every direction with a nonzero count. */
  function ApplyMove(s: BoardState, piece: Piece, m: Move): BoardState
    requires IsGrid(s.grid) && IsInRange(m.pos) && RunsInRange(m.pos, m.flips)
  {
    FlipAll(Place(s, piece, m.pos), piece, m.pos, m.flips, 8)
  }

  /** After directions `0 .. i-1`, exactly the cells of their runs hold `piece`; the rest is as before. */
  lemma {:induction false} FlipAllGrid(s: BoardState, piece: Piece, pos: Coord, flips: seq<U8>, i: nat, q: Coord)
    requires IsGrid(s.grid) && IsInRange(pos) && RunsInRange(pos, flips) && i <= 8
    ensures Get(FlipAll(s, piece, pos, flips, i).grid, q) ==
      if Flipped(pos, flips, i, q) then Some(piece) else Get(s.grid, q)
  {
    if i > 0 {
      FlipAllGrid(s, piece, pos, flips, i - 1, q);
      DirectionsAreSteps();
      var k := flips[i - 1];
      if k != 0 {
        FlipAlongAt(FlipAll(s, piece, pos, flips, i - 1).grid, piece, pos, Directions[i - 1], k, q);
      }
      FlippedStep(pos, flips, i, q);
    }
  }

  /** `q` is one of the first `k` cells after `pos` along `dir`. */
  ghost predicate OnRun(pos: Coord, dir: Coord, k: nat, q: Coord)
    requires IsInRange(pos) && IsStep(dir) && k <= 100
  {
    exists t :: 1 <= t <= k && q == Along(pos, dir, t)
  }

  /** One cell after a run is recoloured: `piece` on the run, as before elsewhere. */
  lemma FlipAlongAt(g: Grid, piece: Piece, pos: Coord, dir: Coord, k: nat, q: Coord)
    requires IsGrid(g) && IsInRange(pos) && IsStep(dir) && RunInRange(pos, dir, k)
    ensures Get(FlipAlong(g, piece, pos, dir, k), q) == if OnRun(pos, dir, k, q) then Some(piece) else Get(g, q)
  {
    FlipAlongSpec(g, piece, pos, dir, k);
    if OnRun(pos, dir, k, q) {
      var t :| 1 <= t <= k && q == Along(pos, dir, t);
    }
  }

  /** The cells flipped by directions `0 .. i-1` are those of `0 .. i-2` and the run of direction `i-1`. */
  lemma FlippedStep(pos: Coord, flips: seq<U8>, i: nat, q: Coord)
    requires IsInRange(pos) && RunsInRange(pos, flips) && 0 < i <= 8
    ensures IsStep(Directions[i - 1]) && RunInRange(pos, Directions[i - 1], flips[i - 1])
    ensures Flipped(pos, flips, i, q) <==>
      Flipped(pos, flips, i - 1, q) || OnRun(pos, Directions[i - 1], flips[i - 1], q)
  {
    DirectionsAreSteps();
    var dir := Directions[i - 1];
    if OnRun(pos, dir, flips[i - 1], q) {
      var t :| 1 <= t <= flips[i - 1] && q == Along(pos, dir, t);
      assert Flipped(pos, flips, i, q);
    }
    if Flipped(pos, flips, i, q) {
      var j, t :| 0 <= j < i && 1 <= t <= flips[j] && q == Along(pos, Directions[j], t);
      if j < i - 1 {
        assert Flipped(pos, flips, i - 1, q);
      }
    }
  }

  /** The runs of a move built by `MoveAt` are on the board and hold opponent stones. */
  lemma MoveRunsAreOpponent(g: Grid, piece: Piece, m: Move)
    requires IsGrid(g) && IsInRange(m.pos) && m == MoveAt(g, piece, m.pos)
    ensures RunsInRange(m.pos, m.flips)
    ensures forall j, t :: 0 <= j < 8 && 1 <= t <= m.flips[j] ==>
      Get(g, Along(m.pos, Directions[j], t)) == Some(Opponent(piece))
  {
    DirectionsAreSteps();
    forall j | 0 <= j < 8
      ensures RunInRange(m.pos, Directions[j], m.flips[j])
      ensures forall t :: 1 <= t <= m.flips[j] ==> Get(g, Along(m.pos, Directions[j], t)) == Some(Opponent(piece))
    {
      MoveAtShape(g, piece, m.pos, j);
      FlipRunSpec(g, piece, m.pos, Directions[j]);
    }
  }

  lemma {:induction false} FlipAllValid(s: BoardState, piece: Piece, pos: Coord, flips: seq<U8>, i: nat)
    requires ValidState(s) && IsInRange(pos) && RunsInRange(pos, flips) && i <= 8
    requires forall j, t :: 0 <= j < 8 && 1 <= t <= flips[j] ==>
      Get(s.grid, Along(pos, Directions[j], t)) == Some(Opponent(piece))
    ensures ValidState(FlipAll(s, piece, pos, flips, i))
  {
    if i > 0 {
      FlipAllValid(s, piece, pos, flips, i - 1);
      var prev := FlipAll(s, piece, pos, flips, i - 1);
      var k := flips[i - 1];
      if k != 0 {
        DirectionsAreSteps();
        var dir := Directions[i - 1];
        NextRunUnflipped(s, piece, pos, flips, i, dir);
        FlipAlongCounts(prev.grid, piece, pos, dir, k);
        CounterIsCount(prev, piece);
        CounterIsCount(prev, Opponent(piece));
        var r := FlipAll(s, piece, pos, flips, i);
        assert Counter(r, piece) == CountGrid(r.grid, Some(piece));
        assert Counter(r, Opponent(piece)) == CountGrid(r.grid, Some(Opponent(piece)));
      }
    }
  }

  /** Directions before `i - 1` leave the run of direction `i - 1` holding opponent stones. */
  lemma NextRunUnflipped(s: BoardState, piece: Piece, pos: Coord, flips: seq<U8>, i: nat, dir: Coord)
    requires IsGrid(s.grid) && IsInRange(pos) && RunsInRange(pos, flips) && 0 < i <= 8 && dir == Directions[i - 1]
    requires forall j, t :: 0 <= j < 8 && 1 <= t <= flips[j] ==>
      Get(s.grid, Along(pos, Directions[j], t)) == Some(Opponent(piece))
    ensures IsStep(dir)
    ensures forall t :: 1 <= t <= flips[i - 1] ==>
      Get(FlipAll(s, piece, pos, flips, i - 1).grid, Along(pos, dir, t)) == Some(Opponent(piece))
  {
    DirectionsAreSteps();
    forall t | 1 <= t <= flips[i - 1]
      ensures Get(FlipAll(s, piece, pos, flips, i - 1).grid, Along(pos, dir, t)) == Some(Opponent(piece))
    {
      var q := Along(pos, dir, t);
      FlipAllGrid(s, piece, pos, flips, i - 1, q);
      forall j, u | 0 <= j < i - 1 && 1 <= u <= flips[j] ensures q != Along(pos, Directions[j], u) {
        RaysApart(pos, Directions[j], u, dir, t);
      }
    }
  }

  /** Placing on an empty cell keeps the counters consistent and leaves every ray cell alone. */
  lemma PlaceValid(s: BoardState, piece: Piece, pos: Coord)
    requires ValidState(s) && IsInRange(pos) && Get(s.grid, pos) == N
    ensures ValidState(Place(s, piece, pos))
  {
    var placed := Place(s, piece, pos);
    CountSetCell(s.grid, pos, Some(piece), Some(piece));
    CountSetCell(s.grid, pos, Some(piece), Some(Opponent(piece)));
    CounterIsCount(s, piece);
    CounterIsCount(s, Opponent(piece));
    assert Counter(placed, piece) == CountGrid(placed.grid, Some(piece));
    assert Counter(placed, Opponent(piece)) == CountGrid(placed.grid, Some(Opponent(piece)));
  }

  /**
   * Playing a legal move keeps the counters equal to the stone counts of the
   * grid; the mover's counter rises by one plus the number of flipped stones
   * (at least one) and the opponent's falls by that number.
   */
  lemma ApplyMoveSpec(s: BoardState, piece: Piece, m: Move)
    requires ValidState(s) && IsInRange(m.pos) && m == MoveAt(s.grid, piece, m.pos) && IsLegal(m)
    ensures Get(s.grid, m.pos) == N
    ensures RunsInRange(m.pos, m.flips)
    ensures ValidState(ApplyMove(s, piece, m))
    ensures SumTo(m.flips, 8) >= 1
    ensures Counter(ApplyMove(s, piece, m), piece) == Counter(s, piece) + 1 + SumTo(m.flips, 8)
    ensures Counter(ApplyMove(s, piece, m), Opponent(piece)) == Counter(s, Opponent(piece)) - SumTo(m.flips, 8)
  {
    var pos := m.pos;
    MoveRunsAreOpponent(s.grid, piece, m);
    var placed := Place(s, piece, pos);
    PlaceValid(s, piece, pos);
    DirectionsAreSteps();
    forall j, t | 0 <= j < 8 && 1 <= t <= m.flips[j]
      ensures Get(placed.grid, Along(pos, Directions[j], t)) == Some(Opponent(piece))
    {
      RayAvoidsOrigin(pos, Directions[j], t);
    }
    FlipAllValid(placed, piece, pos, m.flips, 8);
    IsLegalIff(m);
    var j :| 0 <= j < 8 && m.flips[j] != 0;
    SumPositive(m.flips, 8, j);
  }

  /** Playing a move puts `piece` on the target and recolours exactly the cells of its runs. */
  lemma ApplyMoveCells(s: BoardState, piece: Piece, m: Move, q: Coord)
    requires IsGrid(s.grid) && IsInRange(m.pos) && RunsInRange(m.pos, m.flips)
    ensures Get(ApplyMove(s, piece, m).grid, q) ==
      (if q == m.pos || Flipped(m.pos, m.flips, 8, q) then Some(piece) else Get(s.grid, q))
  {
    var placed := Place(s, piece, m.pos);
    FlipAllGrid(placed, piece, m.pos, m.flips, 8, q);
    if Flipped(m.pos, m.flips, 8, q) && q == m.pos {
      DirectionsAreSteps();
      var j, t :| 0 <= j < 8 && 1 <= t <= m.flips[j] && q == Along(m.pos, Directions[j], t);
      RayAvoidsOrigin(m.pos, Directions[j], t);
    }
  }

  lemma {:induction false} SumPositive(f: seq<U8>, i: nat, j: nat)
    requires j < i <= |f| && f[j] != 0
    ensures SumTo(f, i) >= 1
  {
    if j < i - 1 {
      SumPositive(f, i - 1, j);
    } else {
      SumNonNegative(f, i - 1);
    }
  }

  lemma {:induction false} SumNonNegative(f: seq<U8>, i: nat)
    requires i <= |f|
    ensures SumTo(f, i) >= 0
  {
    if i > 0 {
      SumNonNegative(f, i - 1);
    }
  }
}
