/**
 * The precomputation of `g.init`: the eight orientations of every stone as
 * 8x8 grids, the offset list of each orientation (relative to its first
 * cell in raster order), the window masks used to rule out stones quickly,
 * and the obstacle board seen in each of the eight board orientations.
 */
module Patterns {
  import opened Geometry
  import opened Transform
  import opened Fields
  import opened Common

  /* ---------------------------------------------------------------------- */
  /* Shapes of the input                                                     */
  /* ---------------------------------------------------------------------- */

  predicate IsStone(s: seq<seq<int>>) {
    |s| == 8 && forall y | 0 <= y < 8 :: |s[y]| == 8
  }

  /**
   * A problem as the reader produces it. At most 256 stones: the masks keep
   * 8 bits for each of 256 stones, and a stone id is a byte.
   */
  predicate WellShaped(p: Problem) {
    && |p.field| == Size
    && (forall y | 0 <= y < Size :: |p.field[y]| == Size)
    && |p.stoneList| <= 256
    && (forall i | 0 <= i < |p.stoneList| :: IsStone(p.stoneList[i]))
  }

  /* ---------------------------------------------------------------------- */
  /* Orientations of a stone                                                 */
  /* ---------------------------------------------------------------------- */

  /**
   * Cell (x, y) of orientation j of a stone: 0 is the stone as given, 4 its
   * mirror image (x becomes 7 - x), and every other orientation is the
   * previous one turned a quarter: (x, y) takes the value of (y, 7 - x).
   */
  function PatternCell(stone: seq<seq<int>>, j: int, y: int, x: int): bool
    requires IsStone(stone) && IsOrientation(j) && 0 <= y < 8 && 0 <= x < 8
    decreases j
  {
    if j == 0 then stone[y][x] != 0
    else if j == 4 then stone[y][7 - x] != 0
    else PatternCell(stone, j - 1, 7 - x, y)
  }

  /** An 8x8 grid of booleans, packed row by row: cell (x, y) is at y * 8 + x. */
  type Grid8 = seq<bool>

  predicate IsGrid8(g: Grid8) {
    |g| == 64
  }

  function Cell8(p: Point): int {
    p.y * 8 + p.x
  }

  predicate InBox(p: Point) {
    0 <= p.x < 8 && 0 <= p.y < 8
  }

  function BoxPoint(c: int): (p: Point)
    requires 0 <= c < 64
    ensures InBox(p) && Cell8(p) == c
  {
    Point(c % 8, c / 8)
  }

  /** Orientation j of a stone as a grid. */
  function PatternGrid(stone: seq<seq<int>>, j: int): (g: Grid8)
    requires IsStone(stone) && IsOrientation(j)
    ensures IsGrid8(g)
  {
    seq(64, c requires 0 <= c < 64 => PatternCell(stone, j, c / 8, c % 8))
  }

  /** The eight grids g.init stores for a stone. */
  predicate HasPatterns(stone: seq<seq<int>>, grids: seq<Grid8>)
    requires IsStone(stone)
  {
    |grids| == 8 && forall j | 0 <= j < 8 :: grids[j] == PatternGrid(stone, j)
  }

  /* ---------------------------------------------------------------------- */
  /* Offset lists                                                            */
  /* ---------------------------------------------------------------------- */

  predicate Ascending(s: seq<Point>) {
    forall a, b | 0 <= a < b < |s| :: Less(s[a], s[b])
  }

  /** The set cells of the first c positions of a grid, in raster order. */
  function Scan(g: Grid8, c: nat): (s: seq<Point>)
    requires IsGrid8(g) && c <= 64
    ensures forall k | 0 <= k < |s| :: InBox(s[k]) && Cell8(s[k]) < c && g[Cell8(s[k])]
  {
    if c == 0 then []
    else Scan(g, c - 1) + (if g[c - 1] then [BoxPoint(c - 1)] else [])
  }

  function Cells(g: Grid8): seq<Point>
    requires IsGrid8(g)
  {
    Scan(g, 64)
  }

  /** The first set cell in raster order; (0, 0) for an empty grid. */
  function Anchor(g: Grid8): Point
    requires IsGrid8(g)
  {
    if |Cells(g)| == 0 then Point(0, 0) else Cells(g)[0]
  }

  /**
   * The offsets of the set cells from the first one, in raster order. An
   * empty grid still yields [(0, 0)]: solver.cpp seeds the list with it.
   */
  function Offsets(g: Grid8): seq<Point>
    requires IsGrid8(g)
  {
    var cells := Cells(g);
    if |cells| == 0 then [Point(0, 0)]
    else seq(|cells|, k requires 0 <= k < |cells| => Sub(cells[k], cells[0]))
  }

  function SetOf(s: seq<Point>): set<Point> {
    set p | p in s
  }

  lemma {:induction false} ScanAscending(g: Grid8, c: nat)
    requires IsGrid8(g) && c <= 64
    ensures Ascending(Scan(g, c))
  {
    if c > 0 {
      ScanAscending(g, c - 1);
      var s := Scan(g, c);
      forall a, b | 0 <= a < b < |s|
        ensures Less(s[a], s[b])
      {
        if b == |s| - 1 && g[c - 1] {
          assert s[b] == BoxPoint(c - 1);
          assert s[a] == Scan(g, c - 1)[a];
        } else {
          assert s[a] == Scan(g, c - 1)[a] && s[b] == Scan(g, c - 1)[b];
        }
      }
    }
  }

  /** A cell is listed by the scan exactly when it is set and lies before position c. */
  lemma {:induction false} ScanMembers(g: Grid8, c: nat, p: Point)
    requires IsGrid8(g) && c <= 64
    ensures p in Scan(g, c) <==> InBox(p) && Cell8(p) < c && g[Cell8(p)]
  {
    if c > 0 {
      ScanMembers(g, c - 1, p);
      if InBox(p) && Cell8(p) == c - 1 && g[c - 1] {
        assert p == BoxPoint(c - 1);
      }
    }
  }

  /**
   * Every offset list is strictly ascending in raster order, starts at
   * (0, 0), and stays within -8 < x < 8 and 0 <= y < 8.
   */
  lemma OffsetsShape(g: Grid8)
    requires IsGrid8(g)
    ensures |Offsets(g)| > 0 && Offsets(g)[0] == Point(0, 0)
    ensures Ascending(Offsets(g))
    ensures forall k | 0 <= k < |Offsets(g)| ::
      -8 < Offsets(g)[k].x < 8 && 0 <= Offsets(g)[k].y < 8
  {
    var cells := Cells(g);
    ScanAscending(g, 64);
    if |cells| > 0 {
      var s := Offsets(g);
      forall a, b | 0 <= a < b < |s|
        ensures Less(s[a], s[b])
      {
        LessTranslate(cells[a], cells[b], Point(-cells[0].x, -cells[0].y));
      }
      forall k | 0 <= k < |s|
        ensures -8 < s[k].x < 8 && 0 <= s[k].y < 8
      {
        if k > 0 {
          assert Less(cells[0], cells[k]);
        }
      }
    }
  }

  /** Adding the anchor back to the offsets gives exactly the set cells of the grid. */
  lemma OffsetsCells(g: Grid8)
    requires IsGrid8(g) && |Cells(g)| > 0
    ensures forall o | o in Offsets(g) :: InBox(Add(Anchor(g), o)) && g[Cell8(Add(Anchor(g), o))]
    ensures forall p | InBox(p) && g[Cell8(p)] :: Sub(p, Anchor(g)) in Offsets(g)
  {
    var cells := Cells(g);
    var s := Offsets(g);
    forall o | o in s
      ensures InBox(Add(Anchor(g), o)) && g[Cell8(Add(Anchor(g), o))]
    {
      var k :| 0 <= k < |s| && s[k] == o;
      assert Add(Anchor(g), o) == cells[k];
    }
    forall p | InBox(p) && g[Cell8(p)]
      ensures Sub(p, Anchor(g)) in s
    {
      ScanMembers(g, 64, p);
      var k :| 0 <= k < |cells| && cells[k] == p;
      assert s[k] == Sub(p, Anchor(g));
    }
  }

  /* ---------------------------------------------------------------------- */
  /* What g.init keeps                                                       */
  /* ---------------------------------------------------------------------- */

  /** Orientation j is kept when no earlier orientation of the stone has the same offset set. */
  predicate Kept(stone: seq<seq<int>>, j: int)
    requires IsStone(stone) && IsOrientation(j)
  {
    forall j' | 0 <= j' < j :: SetOf(Offsets(PatternGrid(stone, j'))) != SetOf(Offsets(PatternGrid(stone, j)))
  }

  /** stone_pattern_vector[i][j]: the offsets of a kept orientation, nothing for a repeat. */
  function Vector(stone: seq<seq<int>>, j: int): seq<Point>
    requires IsStone(stone) && IsOrientation(j)
  {
    if Kept(stone, j) then Offsets(PatternGrid(stone, j)) else []
  }

  /** stone_pattern_origin[i][j]: where the anchor lies in the 8x8 box, (0, 0) for a repeat. */
  function Origin(stone: seq<seq<int>>, j: int): Point
    requires IsStone(stone) && IsOrientation(j)
  {
    if Kept(stone, j) then Anchor(PatternGrid(stone, j)) else Point(0, 0)
  }

  /**
   * Whether orientation j of a stone sets window cell (x, y) of the mask:
   * when it covers cell (x - 8, y) relative to its anchor, and everywhere
   * when the orientation is a repeat.
   */
  predicate WindowBit(stone: seq<seq<int>>, j: int, y: int, x: int)
    requires IsStone(stone) && IsOrientation(j)
  {
    !Kept(stone, j) || exists o | o in Vector(stone, j) :: o.y == y && o.x + 8 == x
  }

  /** Bit idx = 8 * i + j of stone_pattern_mask[y][x]. */
  predicate MaskBit(stones: seq<seq<seq<int>>>, y: int, x: int, idx: int)
    requires forall i | 0 <= i < |stones| :: IsStone(stones[i])
    requires 0 <= idx < 8 * |stones|
  {
    WindowBit(stones[idx / 8], idx % 8, y, x)
  }

  /** The values a cell of type uint8_t keeps. */
  function Byte(v: int): int {
    v % 256
  }

  /** default_field[0]: the obstacle board as given, one byte per packed cell. */
  function DefaultField0(field: seq<seq<int>>): (f: seq<int>)
    requires |field| == Size && forall y | 0 <= y < Size :: |field[y]| == Size
    ensures |f| == CellCount
  {
    seq(CellCount, k requires 0 <= k < CellCount => Byte(field[k / Size][k % Size]))
  }

  /** Number of nonzero cells among the first n packed cells. */
  function CountBlocked(field: seq<seq<int>>, n: nat): (c: nat)
    requires |field| == Size && forall y | 0 <= y < Size :: |field[y]| == Size
    requires n <= CellCount
    ensures c <= n
  {
    if n == 0 then 0
    else CountBlocked(field, n - 1) + (if field[(n - 1) / Size][(n - 1) % Size] != 0 then 1 else 0)
  }

  /** The eight offset lists of a stone. */
  function VectorsOf(stone: seq<seq<int>>): (vs: seq<seq<Point>>)
    requires IsStone(stone)
    ensures |vs| == 8 && forall j | 0 <= j < 8 :: vs[j] == Vector(stone, j)
  {
    seq(8, j requires 0 <= j < 8 => Vector(stone, j))
  }

  /** The eight anchors of a stone. */
  function OriginsOf(stone: seq<seq<int>>): (os: seq<Point>)
    requires IsStone(stone)
    ensures |os| == 8 && forall j | 0 <= j < 8 :: os[j] == Origin(stone, j)
  {
    seq(8, j requires 0 <= j < 8 => Origin(stone, j))
  }

  /** The mask bits of the first n stones, as (y, x, idx) triples. */
  ghost function MaskUpTo(stones: seq<seq<seq<int>>>, n: int): set<(int, int, int)>
    requires forall i | 0 <= i < |stones| :: IsStone(stones[i])
    requires 0 <= n <= |stones|
  {
    set y, x, idx | 0 <= y < 8 && 0 <= x < 16 && 0 <= idx < 8 * n && MaskBit(stones, y, x, idx) :: (y, x, idx)
  }

  /** The mask bits of stone i alone. */
  ghost function StoneMask(stones: seq<seq<seq<int>>>, i: int): set<(int, int, int)>
    requires forall i' | 0 <= i' < |stones| :: IsStone(stones[i'])
    requires 0 <= i < |stones|
  {
    set y, x, idx | 0 <= y < 8 && 0 <= x < 16 && 8 * i <= idx < 8 * i + 8 && MaskBit(stones, y, x, idx) :: (y, x, idx)
  }

  lemma MaskUpToStep(stones: seq<seq<seq<int>>>, i: int)
    requires forall i' | 0 <= i' < |stones| :: IsStone(stones[i'])
    requires 0 <= i < |stones|
    ensures MaskUpTo(stones, i + 1) == MaskUpTo(stones, i) + StoneMask(stones, i)
  {
    forall t | t in MaskUpTo(stones, i + 1)
      ensures t in MaskUpTo(stones, i) + StoneMask(stones, i)
    {
      var (y, x, idx) := t;
    }
    forall t | t in MaskUpTo(stones, i) + StoneMask(stones, i)
      ensures t in MaskUpTo(stones, i + 1)
    {
      var (y, x, idx) := t;
    }
  }

  /** Everything g.init computes, as one value. */
  datatype Rules = Rules(
    vectors: seq<seq<seq<Point>>>,
    origins: seq<seq<Point>>,
    mask: set<(int, int, int)>,
    defaultField: seq<seq<int>>,
    defaultEmptyCount: int,
    weightDiffId: int)

  /** The value g.init must produce for a problem. */
  ghost function RulesOf(problem: Problem): Rules
    requires WellShaped(problem)
  {
    var stones := problem.stoneList;
    var n := |stones|;
    var f0 := DefaultField0(problem.field);
    Rules(
      seq(n, i requires 0 <= i < n => VectorsOf(stones[i])),
      seq(n, i requires 0 <= i < n => OriginsOf(stones[i])),
      MaskUpTo(stones, n),
      seq(8, t requires 0 <= t < 8 => seq(CellCount, k requires 0 <= k < CellCount =>
        f0[To1d(Source(0, t, k))])),
      CellCount - CountBlocked(problem.field, CellCount),
      5)
  }

  /* ---------------------------------------------------------------------- */
  /* g.init                                                                  */
  /* ---------------------------------------------------------------------- */

  /** The first loop over a stone: orientation 0 as given, orientation 4 mirrored. */
  method Seed(stone: seq<seq<int>>, g: seq<Grid8>) returns (r: seq<Grid8>)
    requires IsStone(stone)
    requires |g| == 8 && forall j | 0 <= j < 8 :: g[j] == seq(64, _ => false)
    ensures |r| == 8 && forall j | 0 <= j < 8 :: IsGrid8(r[j])
    ensures r[0] == PatternGrid(stone, 0) && r[4] == PatternGrid(stone, 4)
    ensures forall j | 0 <= j < 8 && j != 0 && j != 4 :: r[j] == g[j]
  {
    var g0, g4 := g[0], g[4];
    for y := 0 to 8
      invariant |g0| == 64 && |g4| == 64
      invariant forall c | 0 <= c < 64 :: g0[c] == (c < 8 * y && stone[c / 8][c % 8] != 0)
      invariant forall c | 0 <= c < 64 :: g4[c] == (c < 8 * y && stone[c / 8][7 - c % 8] != 0)
    {
      for x := 0 to 8
        invariant |g0| == 64 && |g4| == 64
        invariant forall c | 0 <= c < 64 :: g0[c] == ((c < 8 * y || (c / 8 == y && c % 8 < x)) && stone[c / 8][c % 8] != 0)
        invariant forall c | 0 <= c < 64 ::
          g4[c] == ((c < 8 * y || (c / 8 == y && 7 - c % 8 < x)) && stone[c / 8][7 - c % 8] != 0)
      {
        if stone[y][x] != 0 {
          g0 := g0[8 * y + x := true];
          g4 := g4[8 * y + 7 - x := true];
        }
      }
    }
    r := g[0 := g0][4 := g4];
  }

  /** r holds the grids of orientations 0 .. j - 1 and of orientation 4. */
  ghost predicate RotatedThrough(stone: seq<seq<int>>, j: int, r: seq<Grid8>)
    requires IsStone(stone) && 0 <= j <= 8
  {
    && |r| == 8 && (forall j' | 0 <= j' < 8 :: IsGrid8(r[j']))
    && (forall j' | 0 <= j' < j :: r[j'] == PatternGrid(stone, j'))
    && r[4] == PatternGrid(stone, 4)
  }

  /** A quarter turn of the grid of orientation j - 1 is the grid of orientation j, for j not 0 or 4. */
  lemma TurnedPattern(stone: seq<seq<int>>, j: int, prev: Grid8, cur: Grid8)
    requires IsStone(stone) && 0 < j < 8 && j != 4 && prev == PatternGrid(stone, j - 1) && IsGrid8(cur)
    requires forall y', x' | 0 <= y' < 8 && 0 <= x' < 8 :: cur[8 * x' + 7 - y'] == prev[8 * y' + x']
    ensures cur == PatternGrid(stone, j)
  {
    forall c | 0 <= c < 64
      ensures cur[c] == PatternCell(stone, j, c / 8, c % 8)
    {
      var y', x' := 7 - c % 8, c / 8;
      assert 8 * x' + 7 - y' == c;
      assert cur[c] == prev[8 * y' + x'];
      assert (8 * y' + x') / 8 == y' && (8 * y' + x') % 8 == x';
      assert prev[8 * y' + x'] == PatternCell(stone, j - 1, y', x');
    }
  }

  lemma RotatedStep(stone: seq<seq<int>>, j: int, r: seq<Grid8>, cur: Grid8)
    requires IsStone(stone) && 0 <= j < 8 && RotatedThrough(stone, j, r)
    requires IsGrid8(cur) && cur == PatternGrid(stone, j)
    ensures RotatedThrough(stone, j + 1, r[j := cur])
  {
  }

  /** The second loop over a stone: orientations 1-3 and 5-7 as quarter turns of the previous one. */
  method RotateAll(stone: seq<seq<int>>, g: seq<Grid8>) returns (r: seq<Grid8>)
    requires IsStone(stone)
    requires |g| == 8 && forall j | 0 <= j < 8 :: IsGrid8(g[j])
    requires g[0] == PatternGrid(stone, 0) && g[4] == PatternGrid(stone, 4)
    ensures HasPatterns(stone, r)
  {
    r := g;
    for j := 1 to 8
      invariant RotatedThrough(stone, j, r)
    {
      if j % 4 == 0 {
        RotatedStep(stone, j, r, r[j]);
        assert r[j := r[j]] == r;
        continue;
      }
      var prev := r[j - 1];
      var cur := QuarterTurn(prev, r[j]);
      TurnedPattern(stone, j, prev, cur);
      RotatedStep(stone, j, r, cur);
      r := r[j := cur];
    }
  }

  /** The cells of prev before packed cell n are at their turned places in r. */
  ghost predicate TurnedUpTo(prev: Grid8, r: Grid8, n: int)
    requires IsGrid8(prev) && IsGrid8(r)
  {
    forall y', x' | 0 <= y' < 8 && 0 <= x' < 8 && 8 * y' + x' < n :: r[8 * x' + 7 - y'] == prev[8 * y' + x']
  }

  /** Distinct cells of an 8x8 grid have distinct turned places. */
  lemma TurnedPlaceInjective(y: int, x: int, y': int, x': int)
    requires 0 <= y < 8 && 0 <= x < 8 && 0 <= y' < 8 && 0 <= x' < 8
    ensures 8 * x' + 7 - y' == 8 * x + 7 - y ==> y' == y && x' == x
  {
  }

  lemma TurnedStep(prev: Grid8, r: Grid8, y: int, x: int)
    requires IsGrid8(prev) && IsGrid8(r) && 0 <= y < 8 && 0 <= x < 8 && TurnedUpTo(prev, r, 8 * y + x)
    ensures TurnedUpTo(prev, r[8 * x + 7 - y := prev[8 * y + x]], 8 * y + x + 1)
  {
    var r' := r[8 * x + 7 - y := prev[8 * y + x]];
    forall y', x' | 0 <= y' < 8 && 0 <= x' < 8 && 8 * y' + x' < 8 * y + x + 1
      ensures r'[8 * x' + 7 - y'] == prev[8 * y' + x']
    {
      TurnedPlaceInjective(y, x, y', x');
    }
  }

  /** The inner loops of the second pass: cell (x, y) of prev goes to (7 - y, x). */
  method QuarterTurn(prev: Grid8, cur: Grid8) returns (r: Grid8)
    requires IsGrid8(prev) && IsGrid8(cur)
    ensures IsGrid8(r)
    ensures forall y', x' | 0 <= y' < 8 && 0 <= x' < 8 :: r[8 * x' + 7 - y'] == prev[8 * y' + x']
  {
    r := cur;
    for y := 0 to 8
      invariant |r| == 64 && TurnedUpTo(prev, r, 8 * y)
    {
      for x := 0 to 8
        invariant |r| == 64 && TurnedUpTo(prev, r, 8 * y + x)
      {
        TurnedStep(prev, r, y, x);
        r := r[8 * x + 7 - y := prev[8 * y + x]];
      }
    }
  }

  /** The scan of one orientation: the offset list and the first set cell. */
  method ScanOffsets(g: Grid8) returns (sample: seq<Point>, p: Point)
    requires IsGrid8(g)
    ensures sample == Offsets(g) && p == Anchor(g)
  {
    sample := [Point(0, 0)];
    var found := false;
    p := Point(0, 0);
    for y := 0 to 8
      invariant ScanState(g, 8 * y, sample, p, found)
    {
      for x := 0 to 8
        invariant ScanState(g, 8 * y + x, sample, p, found)
      {
        sample, p, found := ScanCell(g, x, y, sample, p, found);
      }
    }
    assert Cells(g) == Scan(g, 64);
  }

  /** The loop state of the scan after the first c cells. */
  ghost predicate ScanState(g: Grid8, c: nat, sample: seq<Point>, p: Point, found: bool)
    requires IsGrid8(g) && c <= 64
  {
    var cells := Scan(g, c);
    && (found <==> |cells| > 0)
    && (!found ==> p == Point(0, 0) && sample == [Point(0, 0)])
    && (found ==>
          && p == cells[0] && |sample| == |cells|
          && forall k | 0 <= k < |cells| :: sample[k] == Sub(cells[k], p))
  }

  /** The body of the scan for cell (x, y). */
  method ScanCell(g: Grid8, x: int, y: int, sample: seq<Point>, p: Point, found: bool)
    returns (sample': seq<Point>, p': Point, found': bool)
    requires IsGrid8(g) && 0 <= x < 8 && 0 <= y < 8
    requires ScanState(g, 8 * y + x, sample, p, found)
    ensures ScanState(g, 8 * y + x + 1, sample', p', found')
  {
    sample', p', found' := sample, p, found;
    if g[8 * y + x] {
      var q := Point(x, y);
      assert q == BoxPoint(8 * y + x);
      ScanHit(g, 8 * y + x, sample, p, found);
      if !found {
        p' := q;
        found' := true;
      } else {
        sample' := sample + [Sub(q, p)];
      }
    } else {
      ScanMiss(g, 8 * y + x, sample, p, found);
    }
  }

  /** A set cell becomes the anchor when it is the first, and adds its offset from the anchor otherwise. */
  lemma ScanHit(g: Grid8, c: nat, sample: seq<Point>, p: Point, found: bool)
    requires IsGrid8(g) && c < 64 && g[c] && ScanState(g, c, sample, p, found)
    ensures found ==> ScanState(g, c + 1, sample + [Sub(BoxPoint(c), p)], p, true)
    ensures !found ==> ScanState(g, c + 1, sample, BoxPoint(c), true)
  {
    ScanStep(g, c);
    var cells := Scan(g, c + 1);
    if !found {
      assert cells == [BoxPoint(c)];
    } else {
      assert cells[0] == p;
    }
  }

  /** A clear cell changes nothing. */
  lemma ScanMiss(g: Grid8, c: nat, sample: seq<Point>, p: Point, found: bool)
    requires IsGrid8(g) && c < 64 && !g[c] && ScanState(g, c, sample, p, found)
    ensures ScanState(g, c + 1, sample, p, found)
  {
    ScanStep(g, c);
  }

  lemma ScanStep(g: Grid8, c: nat)
    requires IsGrid8(g) && c < 64
    ensures Scan(g, c + 1) == Scan(g, c) + (if g[c] then [BoxPoint(c)] else [])
  {
  }

  /**
   * A kept orientation: the offsets become stone_pattern_vector[i][j] and
   * set bit 8 * i + j of the mask at every covered window cell.
   */
  method EmitOffsets(sample: seq<Point>, idx: int, mask: set<(int, int, int)>)
    returns (vec: seq<Point>, mask': set<(int, int, int)>)
    requires forall k | 0 <= k < |sample| :: -8 < sample[k].x < 8 && 0 <= sample[k].y < 8
    ensures vec == sample
    ensures forall y, x, i :: (y, x, i) in mask' <==>
      (y, x, i) in mask || (i == idx && 0 <= y < 8 && 0 <= x < 16 && exists o | o in sample :: o.y == y && o.x + 8 == x)
  {
    vec := [];
    mask' := mask;
    for m := 0 to |sample|
      invariant vec == sample[..m]
      invariant forall y, x, i :: (y, x, i) in mask' <==>
        (y, x, i) in mask || (i == idx && 0 <= y < 8 && 0 <= x < 16 && exists o | o in sample[..m] :: o.y == y && o.x + 8 == x)
    {
      var o := sample[m];
      assert o.x > -8 && o.x < 8;
      assert o.y >= 0 && o.y < 8;
      vec := vec + [o];
      mask' := mask' + {(o.y, o.x + 8, idx)};
      assert sample[..m + 1] == sample[..m] + [o];
    }
    assert sample[..|sample|] == sample;
  }

  /** A repeated orientation: bit 8 * i + j is set in every window cell. */
  method ForbidAll(idx: int, mask: set<(int, int, int)>) returns (mask': set<(int, int, int)>)
    ensures forall y, x, i :: (y, x, i) in mask' <==>
      (y, x, i) in mask || (i == idx && 0 <= y < 8 && 0 <= x < 16)
  {
    mask' := mask;
    for y := 0 to 8
      invariant forall y', x', i :: (y', x', i) in mask' <==>
        (y', x', i) in mask || (i == idx && 0 <= y' < y && 0 <= x' < 16)
    {
      for x := 0 to 16
        invariant forall y', x', i :: (y', x', i) in mask' <==>
          (y', x', i) in mask || (i == idx && ((0 <= y' < y && 0 <= x' < 16) || (y' == y && 0 <= x' < x)))
      {
        mask' := mask' + {(y, x, idx)};
      }
    }
  }

  /** The set of offsets g.init has seen for a stone before orientation j. */
  ghost function SeenSets(stone: seq<seq<int>>, j: int): set<set<Point>>
    requires IsStone(stone) && 0 <= j <= 8
  {
    set j' | 0 <= j' < j :: SetOf(Offsets(PatternGrid(stone, j')))
  }

  /** An orientation is kept exactly when its offset set has not been seen before. */
  lemma SeenSetsKept(stone: seq<seq<int>>, j: int)
    requires IsStone(stone) && IsOrientation(j)
    ensures SetOf(Offsets(PatternGrid(stone, j))) !in SeenSets(stone, j) <==> Kept(stone, j)
    ensures SeenSets(stone, j + 1) == SeenSets(stone, j) + {SetOf(Offsets(PatternGrid(stone, j)))}
  {
  }

  /** mask' is mask with bit idx set at the window cells of orientation j of stone. */
  ghost predicate AddsBits(stone: seq<seq<int>>, j: int, idx: int, mask: set<(int, int, int)>,
                           mask': set<(int, int, int)>)
    requires IsStone(stone) && IsOrientation(j)
  {
    forall y, x, k :: (y, x, k) in mask' <==>
      (y, x, k) in mask || (k == idx && 0 <= y < 8 && 0 <= x < 16 && WindowBit(stone, j, y, x))
  }

  /** Orientation j of one stone in the third loop of g.init. */
  method OrientationEntry(stone: seq<seq<int>>, idx: int, j: int, grid: Grid8,
                          vectorSet: set<set<Point>>, mask: set<(int, int, int)>)
    returns (vec: seq<Point>, origin: Point, vectorSet': set<set<Point>>, mask': set<(int, int, int)>)
    requires IsStone(stone) && IsOrientation(j)
    requires grid == PatternGrid(stone, j)
    requires vectorSet == SeenSets(stone, j)
    ensures vec == Vector(stone, j) && origin == Origin(stone, j)
    ensures vectorSet' == SeenSets(stone, j + 1)
    ensures AddsBits(stone, j, idx, mask, mask')
  {
    var sample, p := ScanOffsets(grid);
    OffsetsShape(grid);
    SeenSetsKept(stone, j);
    var s := SetOf(sample);
    var inserted := s !in vectorSet;
    vectorSet' := vectorSet + {s};
    if inserted {
      origin := p;
      vec, mask' := EmitOffsets(sample, idx, mask);
    } else {
      vec, origin := [], Point(0, 0);
      mask' := ForbidAll(idx, mask);
    }
  }

  /** Bit 8 * i + j of the mask is the window bit of orientation j of stone i. */
  lemma MaskBitOf(stones: seq<seq<seq<int>>>, i: int, j: int, y: int, x: int)
    requires forall i' | 0 <= i' < |stones| :: IsStone(stones[i'])
    requires 0 <= i < |stones| && IsOrientation(j)
    ensures MaskBit(stones, y, x, 8 * i + j) == WindowBit(stones[i], j, y, x)
  {
    assert (8 * i + j) / 8 == i && (8 * i + j) % 8 == j;
  }

  /** mask' is mask with the bits of the first j orientations of stone i set. */
  ghost predicate MaskThrough(stones: seq<seq<seq<int>>>, i: int, j: int, mask: set<(int, int, int)>,
                              mask': set<(int, int, int)>)
    requires forall i' | 0 <= i' < |stones| :: IsStone(stones[i'])
    requires 0 <= i < |stones| && 0 <= j <= 8
  {
    forall y, x, idx :: (y, x, idx) in mask' <==>
      (y, x, idx) in mask || (8 * i <= idx < 8 * i + j && 0 <= y < 8 && 0 <= x < 16 && MaskBit(stones, y, x, idx))
  }

  /** Setting the bits of orientation j extends the mask bits of stone i by one orientation. */
  lemma MaskThroughStep(stones: seq<seq<seq<int>>>, i: int, j: int, mask: set<(int, int, int)>,
                        before: set<(int, int, int)>, after: set<(int, int, int)>)
    requires forall i' | 0 <= i' < |stones| :: IsStone(stones[i'])
    requires 0 <= i < |stones| && 0 <= j < 8
    requires MaskThrough(stones, i, j, mask, before) && AddsBits(stones[i], j, 8 * i + j, before, after)
    ensures MaskThrough(stones, i, j + 1, mask, after)
  {
    forall y, x
      ensures MaskBit(stones, y, x, 8 * i + j) == WindowBit(stones[i], j, y, x)
    {
      MaskBitOf(stones, i, j, y, x);
    }
  }

  /** After all eight orientations, the bits set are those of StoneMask. */
  lemma MaskThroughAll(stones: seq<seq<seq<int>>>, i: int, mask: set<(int, int, int)>, mask': set<(int, int, int)>)
    requires forall i' | 0 <= i' < |stones| :: IsStone(stones[i'])
    requires 0 <= i < |stones| && MaskThrough(stones, i, 8, mask, mask')
    ensures mask' == mask + StoneMask(stones, i)
  {
    forall t | t in mask'
      ensures t in mask + StoneMask(stones, i)
    {
      var (y, x, idx) := t;
    }
    forall t | t in mask + StoneMask(stones, i)
      ensures t in mask'
    {
      var (y, x, idx) := t;
    }
  }

  /** vecs and origs hold the entries of the first j orientations of stone. */
  ghost predicate EntriesThrough(stone: seq<seq<int>>, j: int, vecs: seq<seq<Point>>, origs: seq<Point>)
    requires IsStone(stone) && 0 <= j <= 8
  {
    |vecs| == j && |origs| == j && forall j' | 0 <= j' < j :: vecs[j'] == Vector(stone, j') && origs[j'] == Origin(stone, j')
  }

  lemma EntriesStep(stone: seq<seq<int>>, j: int, vecs: seq<seq<Point>>, origs: seq<Point>)
    requires IsStone(stone) && 0 <= j < 8 && EntriesThrough(stone, j, vecs, origs)
    ensures EntriesThrough(stone, j + 1, vecs + [Vector(stone, j)], origs + [Origin(stone, j)])
  {
  }

  lemma EntriesAll(stone: seq<seq<int>>, vecs: seq<seq<Point>>, origs: seq<Point>)
    requires IsStone(stone) && EntriesThrough(stone, 8, vecs, origs)
    ensures vecs == VectorsOf(stone) && origs == OriginsOf(stone)
  {
  }

  /** The third loop, for one stone: every orientation in turn. */
  method StoneVectors(stones: seq<seq<seq<int>>>, i: int, grids: seq<Grid8>, mask: set<(int, int, int)>)
    returns (vecs: seq<seq<Point>>, origs: seq<Point>, mask': set<(int, int, int)>)
    requires forall i' | 0 <= i' < |stones| :: IsStone(stones[i'])
    requires 0 <= i < |stones|
    requires HasPatterns(stones[i], grids)
    ensures vecs == VectorsOf(stones[i]) && origs == OriginsOf(stones[i])
    ensures mask' == mask + StoneMask(stones, i)
  {
    var vectorSet: set<set<Point>> := {};
    vecs, origs, mask' := [], [], mask;
    for j := 0 to 8
      invariant vectorSet == SeenSets(stones[i], j)
      invariant EntriesThrough(stones[i], j, vecs, origs)
      invariant MaskThrough(stones, i, j, mask, mask')
    {
      var vec, origin;
      ghost var before := mask';
      vec, origin, vectorSet, mask' := OrientationEntry(stones[i], 8 * i + j, j, grids[j], vectorSet, mask');
      MaskThroughStep(stones, i, j, mask, before, mask');
      EntriesStep(stones[i], j, vecs, origs);
      vecs := vecs + [vec];
      origs := origs + [origin];
    }
    EntriesAll(stones[i], vecs, origs);
    MaskThroughAll(stones, i, mask, mask');
  }

  /** The first loop of g.init: default_field[0], cell by cell, counting the free cells. */
  method Field0(field: seq<seq<int>>) returns (f0: seq<int>, emptyCount: int)
    requires |field| == Size && forall y | 0 <= y < Size :: |field[y]| == Size
    ensures f0 == DefaultField0(field)
    ensures emptyCount == CellCount - CountBlocked(field, CellCount)
  {
    f0 := [];
    emptyCount := CellCount;
    for y := 0 to Size
      invariant |f0| == Size * y && f0 == DefaultField0(field)[..|f0|]
      invariant emptyCount == CellCount - CountBlocked(field, |f0|)
    {
      for x := 0 to Size
        invariant |f0| == Size * y + x && f0 == DefaultField0(field)[..|f0|]
        invariant emptyCount == CellCount - CountBlocked(field, |f0|)
      {
        Field0Step(field, f0, y, x);
        f0 := f0 + [Byte(field[y][x])];
        if field[y][x] != 0 {
          emptyCount := emptyCount - 1;
        }
      }
    }
    assert f0 == DefaultField0(field);
  }

  /** Cell (x, y) is the next packed cell of default_field[0], and the next one CountBlocked looks at. */
  lemma Field0Step(field: seq<seq<int>>, f0: seq<int>, y: int, x: int)
    requires |field| == Size && forall y' | 0 <= y' < Size :: |field[y']| == Size
    requires 0 <= y < Size && 0 <= x < Size && f0 == DefaultField0(field)[..Size * y + x]
    ensures f0 + [Byte(field[y][x])] == DefaultField0(field)[..Size * y + x + 1]
    ensures CountBlocked(field, Size * y + x + 1)
            == CountBlocked(field, Size * y + x) + (if field[y][x] != 0 then 1 else 0)
  {
    assert (Size * y + x) / Size == y && (Size * y + x) % Size == x;
  }

  /** defaultField holds the images of f0 in orientations 0 .. t - 1. */
  ghost predicate LayersThrough(f0: seq<int>, t: int, defaultField: seq<seq<int>>)
    requires |f0| == CellCount && 0 <= t <= 8
  {
    && |defaultField| == t
    && forall t' | 0 <= t' < t ::
         && |defaultField[t']| == CellCount
         && forall k | 0 <= k < CellCount :: defaultField[t'][k] == f0[To1d(Source(0, t', k))]
  }

  lemma LayersStep(f0: seq<int>, t: int, defaultField: seq<seq<int>>, ft: seq<int>)
    requires |f0| == CellCount && 0 <= t < 8 && LayersThrough(f0, t, defaultField)
    requires |ft| == CellCount && forall k | 0 <= k < CellCount :: ft[k] == f0[To1d(Source(0, t, k))]
    ensures LayersThrough(f0, t + 1, defaultField + [ft])
  {
  }

  /** Orientation 0 is f0 itself. */
  lemma LayerZero(f0: seq<int>)
    requires |f0| == CellCount
    ensures forall k | 0 <= k < CellCount :: f0[k] == f0[To1d(Source(0, 0, k))]
  {
    forall k | 0 <= k < CellCount
      ensures f0[k] == f0[To1d(Source(0, 0, k))]
    {
      TransIdentity(0, From1d(k));
    }
  }

  /** The first part of g.init: default_field[0] with the free-cell count, then its seven images. */
  method DefaultFields(tt: Table, field: seq<seq<int>>) returns (defaultField: seq<seq<int>>, emptyCount: int)
    requires tt.Valid() && tt.built
    requires |field| == Size && forall y | 0 <= y < Size :: |field[y]| == Size
    ensures |defaultField| == 8
    ensures forall t | 0 <= t < 8 ::
      && |defaultField[t]| == CellCount
      && forall k | 0 <= k < CellCount :: defaultField[t][k] == DefaultField0(field)[To1d(Source(0, t, k))]
    ensures emptyCount == CellCount - CountBlocked(field, CellCount)
  {
    var f0;
    f0, emptyCount := Field0(field);
    LayerZero(f0);
    LayersStep(f0, 0, [], f0);
    defaultField := [f0];
    for t := 1 to 8
      invariant LayersThrough(f0, t, defaultField)
    {
      var ft := TransformLayer(tt, f0, 0, 0, t);
      LayersStep(f0, t, defaultField, ft);
      defaultField := defaultField + [ft];
    }
  }

  /** The first two loops over the stones: the eight orientation grids of each. */
  method StonePatterns(stones: seq<seq<seq<int>>>) returns (pats: seq<seq<Grid8>>)
    requires forall i | 0 <= i < |stones| :: IsStone(stones[i])
    ensures |pats| == |stones|
    ensures forall i | 0 <= i < |stones| :: HasPatterns(stones[i], pats[i])
  {
    var n := |stones|;
    pats := seq(n, _ => seq(8, _ => seq(64, _ => false)));
    for i := 0 to n
      invariant |pats| == n
      invariant forall i' | 0 <= i' < i ::
        && |pats[i']| == 8
        && pats[i'][0] == PatternGrid(stones[i'], 0) && pats[i'][4] == PatternGrid(stones[i'], 4)
        && forall j | 0 <= j < 8 :: IsGrid8(pats[i'][j])
      invariant forall i' | i <= i' < n :: pats[i'] == seq(8, _ => seq(64, _ => false))
    {
      var gi := Seed(stones[i], pats[i]);
      pats := pats[i := gi];
    }
    for i := 0 to n
      invariant |pats| == n
      invariant forall i' | 0 <= i' < i :: HasPatterns(stones[i'], pats[i'])
      invariant forall i' | i <= i' < n ::
        && |pats[i']| == 8
        && pats[i'][0] == PatternGrid(stones[i'], 0) && pats[i'][4] == PatternGrid(stones[i'], 4)
        && forall j | 0 <= j < 8 :: IsGrid8(pats[i'][j])
    {
      var gi := RotateAll(stones[i], pats[i]);
      pats := pats[i := gi];
    }
  }

  /** vectors and origins hold the entries of the first i stones. */
  ghost predicate StonesThrough(stones: seq<seq<seq<int>>>, i: int, vectors: seq<seq<seq<Point>>>,
                                origins: seq<seq<Point>>)
    requires forall i' | 0 <= i' < |stones| :: IsStone(stones[i'])
    requires 0 <= i <= |stones|
  {
    && |vectors| == i && |origins| == i
    && forall i' | 0 <= i' < i :: vectors[i'] == VectorsOf(stones[i']) && origins[i'] == OriginsOf(stones[i'])
  }

  lemma StonesStep(stones: seq<seq<seq<int>>>, i: int, vectors: seq<seq<seq<Point>>>, origins: seq<seq<Point>>)
    requires forall i' | 0 <= i' < |stones| :: IsStone(stones[i'])
    requires 0 <= i < |stones| && StonesThrough(stones, i, vectors, origins)
    ensures StonesThrough(stones, i + 1, vectors + [VectorsOf(stones[i])], origins + [OriginsOf(stones[i])])
  {
  }

  /** The third loop over the stones. */
  method AllVectors(stones: seq<seq<seq<int>>>, pats: seq<seq<Grid8>>)
    returns (vectors: seq<seq<seq<Point>>>, origins: seq<seq<Point>>, mask: set<(int, int, int)>)
    requires forall i | 0 <= i < |stones| :: IsStone(stones[i])
    requires |pats| == |stones|
    requires forall i | 0 <= i < |stones| :: HasPatterns(stones[i], pats[i])
    ensures |vectors| == |stones| && forall i | 0 <= i < |stones| :: vectors[i] == VectorsOf(stones[i])
    ensures |origins| == |stones| && forall i | 0 <= i < |stones| :: origins[i] == OriginsOf(stones[i])
    ensures mask == MaskUpTo(stones, |stones|)
  {
    vectors, origins, mask := [], [], {};
    for i := 0 to |stones|
      invariant StonesThrough(stones, i, vectors, origins)
      invariant mask == MaskUpTo(stones, i)
    {
      var vecs, origs, mask' := StoneVectors(stones, i, pats[i], mask);
      MaskUpToStep(stones, i);
      StonesStep(stones, i, vectors, origins);
      vectors := vectors + [vecs];
      origins := origins + [origs];
      mask := mask';
    }
  }

  /**
   * g.init: builds the transform tables, the obstacle board in every
   * orientation with the number of free cells, and the stone patterns.
   */
  method Init(tt: Table, problem: Problem) returns (rules: Rules)
    requires tt.Valid() && WellShaped(problem)
    modifies tt, tt.table
    ensures tt.Valid() && tt.built
    ensures rules == RulesOf(problem)
  {
    tt.Build();
    var defaultField, emptyCount := DefaultFields(tt, problem.field);
    var pats := StonePatterns(problem.stoneList);
    var vectors, origins, mask := AllVectors(problem.stoneList, pats);
    rules := Rules(vectors, origins, mask, defaultField, emptyCount, 5);
    ghost var spec := RulesOf(problem);
    assert vectors == spec.vectors;
    assert origins == spec.origins;
    assert forall t | 0 <= t < 8 :: defaultField[t] == spec.defaultField[t];

  }

  /* ---------------------------------------------------------------------- */
  /* What the rest of the solver relies on                                   */
  /* ---------------------------------------------------------------------- */

  /** An offset list as g.init leaves it: empty, or ascending from (0, 0) inside the window. */
  predicate OffsetList(v: seq<Point>) {
    v == [] ||
      (&& v[0] == Point(0, 0)
       && Ascending(v)
       && forall k | 0 <= k < |v| :: -8 < v[k].x < 8 && 0 <= v[k].y < 8)
  }

  /** A set mask bit (y, x, idx) belongs to a repeat or to a cell the orientation covers. */
  predicate MaskSound(r: Rules, t: (int, int, int))
    requires |r.vectors| <= 256 && forall i | 0 <= i < |r.vectors| :: |r.vectors[i]| == 8
  {
    && 0 <= t.2 < 8 * |r.vectors|
    && (r.vectors[t.2 / 8][t.2 % 8] == []
        || exists o | o in r.vectors[t.2 / 8][t.2 % 8] :: o.y == t.0 && o.x + 8 == t.1)
  }

  /** The facts about g's tables that GameState and the search use. */
  predicate WfRules(r: Rules) {
    && |r.vectors| <= 256
    && |r.origins| == |r.vectors|
    && (forall i | 0 <= i < |r.vectors| :: |r.vectors[i]| == 8 && |r.origins[i]| == 8)
    && (forall i, j | 0 <= i < |r.vectors| && 0 <= j < 8 :: OffsetList(r.vectors[i][j]))
    && (forall i, j | 0 <= i < |r.vectors| && 0 <= j < 8 :: InBox(r.origins[i][j]))
    && (forall t | t in r.mask :: MaskSound(r, t))
    && |r.defaultField| == 8
    && (forall t | 0 <= t < 8 ::
          && |r.defaultField[t]| == CellCount
          && forall k | 0 <= k < CellCount :: 0 <= r.defaultField[t][k] < 256)
  }

  /** The tables g.init builds for a well-shaped problem have those properties. */
  lemma RulesOfWf(problem: Problem)
    requires WellShaped(problem)
    ensures WfRules(RulesOf(problem))
  {
    var r := RulesOf(problem);
    var stones := problem.stoneList;
    forall i, j | 0 <= i < |r.vectors| && 0 <= j < 8
      ensures OffsetList(r.vectors[i][j])
    {
      assert r.vectors[i][j] == Vector(stones[i], j);
      OffsetsShape(PatternGrid(stones[i], j));
    }
    forall i, j | 0 <= i < |r.vectors| && 0 <= j < 8
      ensures InBox(r.origins[i][j])
    {
      assert r.origins[i][j] == Origin(stones[i], j);
    }
    forall t | t in r.mask
      ensures MaskSound(r, t)
    {
      var (y, x, idx) := t;
      assert 0 <= idx < 8 * |stones| && MaskBit(stones, y, x, idx);
      assert r.vectors[idx / 8][idx % 8] == Vector(stones[idx / 8], idx % 8);
    }
  }

  /** Kept orientations of one stone have pairwise different offset sets. */
  lemma KeptDistinct(stone: seq<seq<int>>, j: int, j': int)
    requires IsStone(stone) && IsOrientation(j) && IsOrientation(j') && j != j'
    requires Kept(stone, j) && Kept(stone, j')
    ensures SetOf(Vector(stone, j)) != SetOf(Vector(stone, j'))
  {
    if j < j' {
      assert SetOf(Offsets(PatternGrid(stone, j))) != SetOf(Offsets(PatternGrid(stone, j')));
    } else {
      assert SetOf(Offsets(PatternGrid(stone, j'))) != SetOf(Offsets(PatternGrid(stone, j)));
    }
  }

  /**
   * A repeated orientation of stone i gets no offsets, origin (0, 0) and
   * the bit 8 * i + j of every window cell.
   */
  lemma RepeatForbidden(problem: Problem, i: int, j: int, y: int, x: int)
    requires WellShaped(problem) && 0 <= i < |problem.stoneList| && IsOrientation(j)
    requires !Kept(problem.stoneList[i], j) && 0 <= y < 8 && 0 <= x < 16
    ensures RulesOf(problem).vectors[i][j] == [] && RulesOf(problem).origins[i][j] == Point(0, 0)
    ensures (y, x, 8 * i + j) in RulesOf(problem).mask
  {
    MaskBitOf(problem.stoneList, i, j, y, x);
  }
}
