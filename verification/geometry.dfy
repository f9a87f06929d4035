/**
 * Board geometry of the solver: cells of the 32x32 board, their packed
 * one-dimensional index, the raster order used for canonical stone shapes,
 * and the inside-the-board test.
 */
module Geometry {

  /** Side of the square board. */
  const Size: int := 32
  /** Number of cells of the board. */
  const CellCount: int := 1024

  /** A cell or an offset; solver.cpp stores both coordinates in a signed byte. */
  datatype Point = Point(x: int, y: int)

  /** The four neighbour directions, in the order of solver.cpp's dx/dy tables. */
  const Dx: seq<int> := [1, 0, -1, 0]
  const Dy: seq<int> := [0, 1, 0, -1]

  function Add(a: Point, b: Point): (r: Point)
    ensures r.x - b.x == a.x && r.y - b.y == a.y
  {
    Point(a.x + b.x, a.y + b.y)
  }

  function Sub(a: Point, b: Point): (r: Point)
    ensures Add(r, b) == a
  {
    Point(a.x - b.x, a.y - b.y)
  }

  /** Point addition is commutative and associative, (0, 0) adds nothing, and Sub undoes it. */
  lemma AddLaws(a: Point, b: Point, c: Point)
    ensures Add(a, b) == Add(b, a)
    ensures Add(Add(a, b), c) == Add(a, Add(b, c))
    ensures Add(a, Point(0, 0)) == a
    ensures Sub(Add(a, b), b) == a
  {
  }

  /** The 4-neighbour of p in direction r (0: +x, 1: +y, 2: -x, 3: -y). */
  function Neighbour(p: Point, r: int): (q: Point)
    requires 0 <= r < 4
    ensures (q.x - p.x) * (q.x - p.x) + (q.y - p.y) * (q.y - p.y) == 1
  {
    Point(p.x + Dx[r], p.y + Dy[r])
  }

  /** Raster order: by row first, then by column. */
  predicate Less(a: Point, b: Point) {
    if a.y != b.y then a.y < b.y else a.x < b.x
  }

  lemma LessIsStrictTotalOrder(a: Point, b: Point, c: Point)
    ensures !Less(a, a)
    ensures Less(a, b) ==> !Less(b, a)
    ensures Less(a, b) && Less(b, c) ==> Less(a, c)
    ensures a != b ==> Less(a, b) || Less(b, a)
  {
  }

  /** Translating both points by the same offset keeps their raster order. */
  lemma LessTranslate(a: Point, b: Point, d: Point)
    ensures Less(Add(a, d), Add(b, d)) <==> Less(a, b)
  {
  }

  /** The right shift by 5 of a signed integer: rounds towards minus infinity. */
  function Shr5(v: int): (r: int)
    ensures 32 * r <= v < 32 * r + 32
  {
    v / 32
  }

  /**
   * solver.cpp's isInsideField: `!(x >> 5 | y >> 5)`. The bitwise or of the
   * two shifted values is zero exactly when both are zero.
   */
  predicate InsideField(x: int, y: int)
    ensures InsideField(x, y) <==> 0 <= x < Size && 0 <= y < Size
  {
    Shr5(x) == 0 && Shr5(y) == 0
  }

  /** A cell of the board. */
  predicate InField(p: Point) {
    0 <= p.x < Size && 0 <= p.y < Size
  }

  /**
   * Point::to1d, `y << 5 | x`: the shift multiplies by 32 and, since a board
   * column fits the low five bits, the or adds the column.
   */
  function To1d(p: Point): (k: int)
    requires InField(p)
    ensures 0 <= k < CellCount
  {
    p.y * Size + p.x
  }

  /** Point::from1d, `(v & 0x1f, v >> 5)`: the low five bits and the rest. */
  function From1d(v: int): (p: Point)
    requires 0 <= v < CellCount
    ensures InField(p) && To1d(p) == v
  {
    Point(v % Size, v / Size)
  }

  lemma To1dInjective(p: Point, q: Point)
    requires InField(p) && InField(q)
    ensures To1d(p) == To1d(q) <==> p == q
  {
  }

  lemma From1dTo1d(p: Point)
    requires InField(p)
    ensures From1d(To1d(p)) == p
  {
  }
}
