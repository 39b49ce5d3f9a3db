/** Integer vectors, used both as board positions and as direction steps. */
module Coords {

  /** The range of a signed 8-bit integer. */
  type I8 = x: int | -128 <= x <= 127

  /** A vector `Coord(x, y)` with 8-bit signed components. */
  datatype Coord = Coord(x: I8, y: I8)

  /** Componentwise addition; the caller keeps both sums inside the 8-bit range. */
  function Add(a: Coord, b: Coord): (r: Coord)
    requires -128 <= a.x + b.x <= 127 && -128 <= a.y + b.y <= 127
    ensures r.x - a.x == b.x && r.y - a.y == b.y
  {
    Coord(a.x + b.x, a.y + b.y)
  }

  /** `a += b`: the two components of `a` are updated one after the other. */
  method AddAssign(a: Coord, b: Coord) returns (a': Coord)
    requires -128 <= a.x + b.x <= 127 && -128 <= a.y + b.y <= 127
    ensures a' == Add(a, b)
  {
    a' := a;
    a' := a'.(x := a'.x + b.x);
    a' := a'.(y := a'.y + b.y);
  }

  /** The worked example: `Coord(5, 5) + Coord(-2, 3) == Coord(3, 8)`. */
  lemma AddExample()
    ensures Add(Coord(5, 5), Coord(-2, 3)) == Coord(3, 8)
  {
  }

  /** The same example through `+=`. */
  method AddAssignExample() returns (c: Coord)
    ensures c == Coord(3, 8)
  {
    c := AddAssign(Coord(5, 5), Coord(-2, 3));
  }
}
