/**
 * Turning a final state back into an answer. backCalcPutList reads the two
 * board layers (ids and occupancy bits) in raster order and recovers one
 * placement per stone: the anchor is the first cell of the stone met, the
 * orientation the first one whose offset list equals the cells found around
 * it. GameState::toAnswer turns those placements into answer entries.
 *
 * The round trip proved here: when the layers were produced by putting a
 * list of non-overlapping placements, the recovery succeeds, gives the same
 * stones at the same anchors with the same cells, and putting the recovered
 * list on a fresh board reproduces the layers.
 */
module BackCalc {
  import opened Geometry
  import opened Transform
  import opened Patterns
  import opened States
  import opened Common

  datatype Option<T> = None | Some(value: T)

  /* ---------------------------------------------------------------------- */
  /* The window around a cell                                                */
  /* ---------------------------------------------------------------------- */

  /** The window backCalcPutList scans: rows 0..7 below the cell, columns -8..7. */
  predicate InWindow(o: Point) {
    0 <= o.y < 8 && -8 <= o.x < 8
  }

  /** Position of a window offset in the scan, row by row. */
  function WindowIndex(o: Point): int {
    16 * o.y + o.x + 8
  }

  /** The offset scanned at position w. */
  function WindowOffset(w: int): (o: Point)
    requires 0 <= w < 128
    ensures InWindow(o) && WindowIndex(o) == w
  {
    Point(w % 16 - 8, w / 16)
  }

  /** For offsets of the window, scan position order is raster order. */
  lemma WindowIndexOrder(a: Point, b: Point)
    requires InWindow(a) && InWindow(b)
    ensures Less(a, b) <==> WindowIndex(a) < WindowIndex(b)
    ensures a == b <==> WindowIndex(a) == WindowIndex(b)
  {
  }

  /** The layers backCalcPutList reads: a byte id and a bit per cell, a bit per stone id. */
  predicate Layers(field: seq<int>, bits: seq<bool>, used: seq<bool>) {
    && |field| == CellCount && |bits| == CellCount && |used| == 256
    && forall k | 0 <= k < CellCount :: 0 <= field[k] < 256
  }

  /** Cell p + o holds a stone whose id is the one written at p. */
  predicate SameStone(field: seq<int>, bits: seq<bool>, p: Point, o: Point)
    requires |field| == CellCount && |bits| == CellCount && InField(p)
  {
    InField(Add(p, o)) && bits[To1d(Add(p, o))] && field[To1d(Add(p, o))] == field[To1d(p)]
  }

  /** The offsets gathered over the first w window positions. */
  function WindowScan(field: seq<int>, bits: seq<bool>, p: Point, w: nat): seq<Point>
    requires |field| == CellCount && |bits| == CellCount && InField(p) && w <= 128
  {
    if w == 0 then []
    else
      var o := WindowOffset(w - 1);
      WindowScan(field, bits, p, w - 1) + (if SameStone(field, bits, p, o) then [o] else [])
  }

  /** The `stone` vector backCalcPutList gathers around p. */
  function Collected(field: seq<int>, bits: seq<bool>, p: Point): seq<Point>
    requires |field| == CellCount && |bits| == CellCount && InField(p)
  {
    WindowScan(field, bits, p, 128)
  }

  /**
   * The gathered offsets are strictly ascending in raster order (so the
   * std::sort in solver.cpp leaves them as they are) and are exactly the window
   * offsets, before position w, of cells with the same id.
   */
  lemma {:induction false} WindowScanShape(field: seq<int>, bits: seq<bool>, p: Point, w: nat)
    requires |field| == CellCount && |bits| == CellCount && InField(p) && w <= 128
    ensures Ascending(WindowScan(field, bits, p, w))
    ensures forall o :: o in WindowScan(field, bits, p, w) <==>
      InWindow(o) && WindowIndex(o) < w && SameStone(field, bits, p, o)
  {
    if w > 0 {
      WindowScanShape(field, bits, p, w - 1);
      var s := WindowScan(field, bits, p, w);
      var o := WindowOffset(w - 1);
      forall a, b | 0 <= a < b < |s|
        ensures Less(s[a], s[b])
      {
        if b == |s| - 1 && SameStone(field, bits, p, o) {
          assert s[a] in WindowScan(field, bits, p, w - 1);
          WindowIndexOrder(s[a], o);
        } else {
          assert s[a] == WindowScan(field, bits, p, w - 1)[a];
        }
      }
      forall o' | InWindow(o') && WindowIndex(o') == w - 1
        ensures o' == o
      {
        WindowIndexOrder(o', o);
      }
    }
  }

  /** Two strictly ascending lists with the same elements are the same list. */
  lemma {:induction false} AscendingUnique(s: seq<Point>, t: seq<Point>)
    requires Ascending(s) && Ascending(t)
    requires forall o :: o in s <==> o in t
    ensures s == t
    decreases |s|
  {
    EmptyMembers(s, t);
    if s != [] {
      assert s[0] in t && t[0] in s;
      var i :| 0 <= i < |s| && s[i] == t[0];
      var j :| 0 <= j < |t| && t[j] == s[0];
      assert i == 0 || Less(s[0], s[i]);
      assert j == 0 || Less(t[0], t[j]);
      LessIsStrictTotalOrder(s[0], t[0], s[0]);
      assert s[0] == t[0];
      forall o
        ensures o in s[1..] <==> o in t[1..]
      {
        TailMember(s, o);
        TailMember(t, o);
      }
      AscendingUnique(s[1..], t[1..]);
      assert s == [s[0]] + s[1..] && t == [t[0]] + t[1..];
    }
  }

  /** Lists with the same elements are empty together. */
  lemma EmptyMembers(s: seq<Point>, t: seq<Point>)
    requires forall o :: o in s <==> o in t
    ensures s == [] <==> t == []
  {
    if s != [] {
      assert s[0] in t;
    }
    if t != [] {
      assert t[0] in s;
    }
  }

  /** Past its head, a strictly ascending list holds exactly its elements other than the head. */
  lemma TailMember(s: seq<Point>, o: Point)
    requires Ascending(s) && s != []
    ensures o in s[1..] <==> o in s && o != s[0]
  {
    if o in s[1..] {
      var i :| 1 <= i < |s| && s[i] == o;
      assert Less(s[0], s[i]);
      LessIsStrictTotalOrder(s[0], o, o);
    }
    if o in s && o != s[0] {
      var i :| 0 <= i < |s| && s[i] == o;
      assert s[1..][i - 1] == o;
    }
  }

  /** The first orientation from r on whose offset list equals the stone; 8 when there is none. */
  function MatchFrom(vs: seq<seq<Point>>, stone: seq<Point>, r: nat): (j: int)
    requires |vs| == 8 && r <= 8
    ensures r <= j <= 8
    ensures j < 8 ==> vs[j] == stone
    ensures forall j' | r <= j' < j :: vs[j'] != stone
    decreases 8 - r
  {
    if r == 8 || vs[r] == stone then r else MatchFrom(vs, stone, r + 1)
  }

  /* ---------------------------------------------------------------------- */
  /* backCalcPutList                                                         */
  /* ---------------------------------------------------------------------- */

  /**
   * What backCalcPutList needs of its arguments: well-formed layers, and an
   * entry of the stone tables for every id marked used.
   */
  predicate BackCalcInput(rules: Rules, field: seq<int>, bits: seq<bool>, used: seq<bool>) {
    && WfRules(rules)
    && Layers(field, bits, used)
    && forall i | 0 <= i < 256 && used[i] :: i < |rules.vectors|
  }

  /** Cell c is where the raster scan first meets a used id: no earlier cell holds that id. */
  predicate FirstCell(field: seq<int>, bits: seq<bool>, used: seq<bool>, c: int)
    requires Layers(field, bits, used) && 0 <= c < CellCount
  {
    && bits[c] && used[field[c]]
    && forall c' | 0 <= c' < c :: !(bits[c'] && field[c'] == field[c])
  }

  /** The placements recovered from cell c on, or None when a stone matches no orientation. */
  function BackCalcFrom(rules: Rules, field: seq<int>, bits: seq<bool>, used: seq<bool>, c: int): Option<seq<Put>>
    requires BackCalcInput(rules, field, bits, used) && 0 <= c <= CellCount
    decreases CellCount - c
  {
    if c == CellCount then Some([])
    else
      var rest := BackCalcFrom(rules, field, bits, used, c + 1);
      if !FirstCell(field, bits, used, c) then rest
      else
        var p := From1d(c);
        var r := MatchFrom(rules.vectors[field[c]], Collected(field, bits, p), 0);
        if r == 8 || rest.None? then None
        else Some([Put(field[c], p.x, p.y, r)] + rest.value)
  }

  function BackCalcSpec(rules: Rules, field: seq<int>, bits: seq<bool>, used: seq<bool>): Option<seq<Put>>
    requires BackCalcInput(rules, field, bits, used)
  {
    BackCalcFrom(rules, field, bits, used, 0)
  }

  /** The recovered placements so far followed by the ones still to come. */
  function Join(done: seq<Put>, rest: Option<seq<Put>>): Option<seq<Put>> {
    if rest.None? then None else Some(done + rest.value)
  }

  /** One more window position: offset (sx, sy) is gathered when its cell holds the same stone. */
  lemma WindowScanStep(field: seq<int>, bits: seq<bool>, p: Point, sx: int, sy: int)
    requires |field| == CellCount && |bits| == CellCount && InField(p)
    requires 0 <= sy < 8 && -8 <= sx < 8
    ensures WindowScan(field, bits, p, 16 * sy + sx + 9)
         == WindowScan(field, bits, p, 16 * sy + sx + 8)
            + (if SameStone(field, bits, p, Point(sx, sy)) then [Point(sx, sy)] else [])
  {
    var w := 16 * sy + sx + 8;
    WindowIndexOrder(WindowOffset(w), Point(sx, sy));
    assert WindowScan(field, bits, p, w + 1)
        == WindowScan(field, bits, p, w) + (if SameStone(field, bits, p, WindowOffset(w)) then [WindowOffset(w)] else []);
  }

  /** The loop over sy and sx of backCalcPutList. */
  method CollectStone(field: seq<int>, bits: seq<bool>, x: int, y: int) returns (stone: seq<Point>)
    requires |field| == CellCount && |bits| == CellCount && InField(Point(x, y))
    ensures stone == Collected(field, bits, Point(x, y))
  {
    var p := Point(x, y);
    stone := [];
    for sy := 0 to 8
      invariant stone == WindowScan(field, bits, p, 16 * sy)
    {
      for sx := -8 to 8
        invariant stone == WindowScan(field, bits, p, 16 * sy + sx + 8)
      {
        stone := GatherOffset(field, bits, x, y, sx, sy, stone);
      }
    }
    // solver.cpp sorts `stone` here; WindowScanShape shows it is already strictly ascending.
  }

  /** The body of the loop over sx: offset (sx, sy) is appended when its cell holds the same stone. */
  method GatherOffset(field: seq<int>, bits: seq<bool>, x: int, y: int, sx: int, sy: int, stone: seq<Point>)
    returns (stone': seq<Point>)
    requires |field| == CellCount && |bits| == CellCount && InField(Point(x, y))
    requires 0 <= sy < 8 && -8 <= sx < 8
    requires stone == WindowScan(field, bits, Point(x, y), 16 * sy + sx + 8)
    ensures stone' == WindowScan(field, bits, Point(x, y), 16 * sy + sx + 9)
  {
    var p := Point(x, y);
    WindowScanStep(field, bits, p, sx, sy);
    assert Add(p, Point(sx, sy)) == Point(x + sx, y + sy);
    stone' := stone;
    if InsideField(x + sx, y + sy) {
      if bits[To1d(Point(x + sx, y + sy))] && field[To1d(p)] == field[To1d(Point(x + sx, y + sy))] {
        assert SameStone(field, bits, p, Point(sx, sy));
        stone' := stone + [Point(sx, sy)];
      } else {
        assert !SameStone(field, bits, p, Point(sx, sy));
      }
    } else {
      assert !SameStone(field, bits, p, Point(sx, sy));
    }
  }

  /** The loop over r of backCalcPutList: the first orientation with this offset list. */
  method MatchOrientation(vs: seq<seq<Point>>, stone: seq<Point>) returns (r: int)
    requires |vs| == 8
    ensures r == MatchFrom(vs, stone, 0)
  {
    r := 0;
    while r < 8 && vs[r] != stone
      invariant 0 <= r <= 8 && MatchFrom(vs, stone, r) == MatchFrom(vs, stone, 0)
    {
      r := r + 1;
    }
  }

  /**
   * backCalcPutList(f, bf, u). solver.cpp asserts that every stone matches
   * one of its orientations; None stands for that assertion failing.
   */
  method BackCalcPutList(rules: Rules, field: seq<int>, bits: seq<bool>, used: seq<bool>)
    returns (res: Option<seq<Put>>)
    requires BackCalcInput(rules, field, bits, used)
    ensures res == BackCalcSpec(rules, field, bits, used)
  {
    var u := used;
    var ret: seq<Put> := [];
    JoinNothing(BackCalcSpec(rules, field, bits, used));
    assert Unseen(field, bits, used, u, 0);
    for y := 0 to Size
      invariant Scanned(rules, field, bits, used, u, ret, Size * y)
    {
      for x := 0 to Size
        invariant Scanned(rules, field, bits, used, u, ret, Size * y + x)
      {
        var ok;
        u, ret, ok := CellPut(rules, field, bits, used, u, ret, x, y);
        if !ok {
          return None;
        }
      }
    }
    assert ret + [] == ret;
    res := Some(ret);
  }

  /** u[i] is still true exactly for the used ids that no cell before n holds. */
  ghost predicate Unseen(field: seq<int>, bits: seq<bool>, used: seq<bool>, u: seq<bool>, n: int)
    requires Layers(field, bits, used) && 0 <= n <= CellCount
  {
    && |u| == 256
    && forall i | 0 <= i < 256 :: u[i] == (used[i] && forall c | 0 <= c < n :: !(bits[c] && field[c] == i))
  }

  /** The scan before cell n: u as it has been cleared, ret followed by what remains gives the answer. */
  ghost predicate Scanned(rules: Rules, field: seq<int>, bits: seq<bool>, used: seq<bool>, u: seq<bool>, ret: seq<Put>, n: int)
    requires BackCalcInput(rules, field, bits, used) && 0 <= n <= CellCount
  {
    && Unseen(field, bits, used, u, n)
    && Join(ret, BackCalcFrom(rules, field, bits, used, n)) == BackCalcSpec(rules, field, bits, used)
  }

  /** Cell c clears the id it holds; it is a first cell exactly when that id was still set. */
  lemma UnseenStep(field: seq<int>, bits: seq<bool>, used: seq<bool>, u: seq<bool>, c: int)
    requires Layers(field, bits, used) && 0 <= c < CellCount && Unseen(field, bits, used, u, c)
    ensures bits[c] ==> (u[field[c]] <==> FirstCell(field, bits, used, c))
    ensures Unseen(field, bits, used, if bits[c] && u[field[c]] then u[field[c] := false] else u, c + 1)
  {
  }

  /** The body of the loops over y and x of backCalcPutList; ok is false where solver.cpp's assert fails. */
  method CellPut(rules: Rules, field: seq<int>, bits: seq<bool>, used: seq<bool>, u: seq<bool>, ret: seq<Put>, x: int, y: int)
    returns (u': seq<bool>, ret': seq<Put>, ok: bool)
    requires BackCalcInput(rules, field, bits, used) && InField(Point(x, y))
    requires Scanned(rules, field, bits, used, u, ret, To1d(Point(x, y)))
    ensures ok ==> Scanned(rules, field, bits, used, u', ret', To1d(Point(x, y)) + 1)
    ensures !ok ==> BackCalcSpec(rules, field, bits, used) == None
  {
    var c := To1d(Point(x, y));
    assert From1d(c) == Point(x, y);
    BackCalcFromStep(rules, field, bits, used, c, ret);
    UnseenStep(field, bits, used, u, c);
    u', ret', ok := u, ret, true;
    if bits[c] && u[field[c]] {
      var id := field[c];
      u' := u[id := false];
      var stone := CollectStone(field, bits, x, y);
      var r := MatchOrientation(rules.vectors[id], stone);
      if r == 8 {
        ok := false;
        return;
      }
      ret' := ret + [Put(id, x, y, r)];
    }
  }

  lemma JoinNothing(o: Option<seq<Put>>)
    ensures Join([], o) == o
  {
    if o.Some? {
      assert [] + o.value == o.value;
    }
  }

  /** One cell of the scan, as BackCalcFrom states it. */
  lemma BackCalcFromStep(rules: Rules, field: seq<int>, bits: seq<bool>, used: seq<bool>, c: int, ret: seq<Put>)
    requires BackCalcInput(rules, field, bits, used) && 0 <= c < CellCount
    ensures !FirstCell(field, bits, used, c) ==>
      BackCalcFrom(rules, field, bits, used, c) == BackCalcFrom(rules, field, bits, used, c + 1)
    ensures FirstCell(field, bits, used, c) ==>
      var p := From1d(c);
      var r := MatchFrom(rules.vectors[field[c]], Collected(field, bits, p), 0);
      && (r == 8 ==> BackCalcFrom(rules, field, bits, used, c).None?)
      && (r < 8 ==> Join(ret + [Put(field[c], p.x, p.y, r)], BackCalcFrom(rules, field, bits, used, c + 1))
                    == Join(ret, BackCalcFrom(rules, field, bits, used, c)))
  {
    var rest := BackCalcFrom(rules, field, bits, used, c + 1);
    if FirstCell(field, bits, used, c) && rest.Some? {
      var p := From1d(c);
      var put := Put(field[c], p.x, p.y, MatchFrom(rules.vectors[field[c]], Collected(field, bits, p), 0));
      assert ret + [put] + rest.value == ret + ([put] + rest.value);
    }
  }

  /** The recovered placements are stones of the tables in one of their orientations, anchored on the board. */
  lemma {:induction false} BackCalcFromShape(rules: Rules, field: seq<int>, bits: seq<bool>, used: seq<bool>, c: int)
    requires BackCalcInput(rules, field, bits, used) && 0 <= c <= CellCount
    ensures BackCalcFrom(rules, field, bits, used, c).Some? ==>
      forall j | 0 <= j < |BackCalcFrom(rules, field, bits, used, c).value| ::
        var put := BackCalcFrom(rules, field, bits, used, c).value[j];
        0 <= put.id < |rules.vectors| && IsOrientation(put.r) && InField(AnchorCell(put))
    decreases CellCount - c
  {
    if c < CellCount {
      BackCalcFromShape(rules, field, bits, used, c + 1);
    }
  }

  /* ---------------------------------------------------------------------- */
  /* Boards made of placements                                               */
  /* ---------------------------------------------------------------------- */

  function PutVec(env: Env, put: Put): seq<Point>
    requires WfEnv(env) && 0 <= put.id < |env.rules.vectors| && IsOrientation(put.r)
  {
    Vec(env, put.id, put.r)
  }

  /** A placement put can accept on some board: a stone of 1 to 16 cells, all on the board. */
  predicate Placed(env: Env, put: Put)
    requires WfEnv(env)
  {
    && 0 <= put.id < |env.rules.vectors| && IsOrientation(put.r)
    && 1 <= |PutVec(env, put)| <= 16
    && CoverInside(put, PutVec(env, put))
  }

  predicate AllPlaced(env: Env, puts: seq<Put>)
    requires WfEnv(env)
  {
    forall i {:trigger puts[i]} | 0 <= i < |puts| :: Placed(env, puts[i])
  }

  /** Placements of different stones whose cells do not overlap. */
  predicate Placements(env: Env, puts: seq<Put>)
    requires WfEnv(env)
  {
    && AllPlaced(env, puts)
    && (forall i, j | 0 <= i < j < |puts| :: puts[i].id != puts[j].id)
    && (forall i, j, k | 0 <= i < j < |puts| && 0 <= k < CellCount ::
          !(Covers(puts[i], PutVec(env, puts[i]), k) && Covers(puts[j], PutVec(env, puts[j]), k)))
  }

  /** Cell k is covered by one of the first n placements. */
  predicate CoveredBy(env: Env, puts: seq<Put>, n: int, k: int)
    requires WfEnv(env) && n <= |puts| && AllPlaced(env, puts)
  {
    exists i | 0 <= i < n :: Covers(puts[i], PutVec(env, puts[i]), k)
  }

  /** Some placement among the first n is of stone id. */
  predicate HasId(puts: seq<Put>, n: int, id: int)
    requires n <= |puts|
  {
    exists i | 0 <= i < n :: puts[i].id == id
  }

  /**
   * The layers and used stones of b are those of the first n placements: a
   * cell is occupied exactly when one of them covers it, it then holds
   * that placement's id and otherwise 0, and the used stones are theirs.
   */
  predicate Layout(env: Env, b: Board, puts: seq<Put>, n: int)
    requires WfEnv(env) && Shaped(b) && AllPlaced(env, puts) && 0 <= n <= |puts|
  {
    && (forall k | 0 <= k < CellCount :: b.bits[k] == CoveredBy(env, puts, n, k))
    && (forall i, k | 0 <= i < n && 0 <= k < CellCount && Covers(puts[i], PutVec(env, puts[i]), k) ::
          b.field[k] == puts[i].id)
    && (forall k | 0 <= k < CellCount && !b.bits[k] :: b.field[k] == 0)
    && (forall id | 0 <= id < 256 :: b.used[id] == HasId(puts, n, id))
  }

  /** A board made of exactly these placements. */
  predicate Tiling(env: Env, b: Board, puts: seq<Put>)
    requires WfEnv(env)
  {
    Shaped(b) && Placements(env, puts) && Layout(env, b, puts, |puts|)
  }

  /** Before placement n of a list is put, the board is ready for it. */
  lemma ReplayReady(env: Env, puts: seq<Put>, n: int, prev: Board)
    requires WfEnv(env) && Placements(env, puts) && 0 <= n < |puts| && Shaped(prev)
    requires Layout(env, prev, puts, n)
    ensures PutReady(env, prev, puts[n])
  {
    var put := puts[n];
    var vec := PutVec(env, put);
    forall m | 0 <= m < |vec|
      ensures !prev.bits[To1d(Cell(put, vec[m]))]
    {
      var k := To1d(Cell(put, vec[m]));
      assert Covers(put, vec, k);
      forall i | 0 <= i < n
        ensures !Covers(puts[i], PutVec(env, puts[i]), k)
      {
      }
    }
  }

  /** Putting placement n on a board made of the first n gives a board made of the first n + 1. */
  lemma ReplayStep(env: Env, puts: seq<Put>, n: int, prev: Board)
    requires WfEnv(env) && Placements(env, puts) && 0 <= n < |puts| && Shaped(prev)
    requires Layout(env, prev, puts, n)
    ensures PutReady(env, prev, puts[n])
    ensures Layout(env, PutSpec(env, prev, puts[n]), puts, n + 1)
  {
    ReplayReady(env, puts, n, prev);
    var b := PutSpec(env, prev, puts[n]);
    var put := puts[n];
    forall k | 0 <= k < CellCount
      ensures b.bits[k] == CoveredBy(env, puts, n + 1, k)
    {
      if Covers(put, PutVec(env, put), k) {
        assert Covers(puts[n], PutVec(env, puts[n]), k);
      } else if CoveredBy(env, puts, n, k) {
        var i :| 0 <= i < n && Covers(puts[i], PutVec(env, puts[i]), k);
      }
    }
    forall i, k | 0 <= i < n + 1 && 0 <= k < CellCount && Covers(puts[i], PutVec(env, puts[i]), k)
      ensures b.field[k] == puts[i].id
    {
      if i < n {
        assert !Covers(puts[n], PutVec(env, puts[n]), k);
      }
    }
    forall id | 0 <= id < 256
      ensures b.used[id] == HasId(puts, n + 1, id)
    {
      if HasId(puts, n + 1, id) && put.id != id {
        var i :| 0 <= i < n + 1 && puts[i].id == id;
      }
    }
  }

  /**
   * The board reached by putting the first n placements, in order, on a
   * fresh board: a consistent state whose cells are those of the
   * placements.
   */
  function Replay(env: Env, puts: seq<Put>, n: int): (b: Board)
    requires WfEnv(env) && Placements(env, puts) && 0 <= n <= |puts|
    ensures Consistent(env, b) && b.transState == 0 && b.score == InitialScore
    ensures Layout(env, b, puts, n)
    decreases n
  {
    if n == 0 then
      FreshConsistent(env);
      Fresh(env)
    else
      var prev := Replay(env, puts, n - 1);
      ReplayStep(env, puts, n - 1, prev);
      PutConsistent(env, prev, puts[n - 1]);
      PutSpec(env, prev, puts[n - 1])
  }

  /** Replaying placements gives a board they tile. */
  lemma ReplayTiles(env: Env, puts: seq<Put>)
    requires WfEnv(env) && Placements(env, puts)
    ensures Tiling(env, Replay(env, puts, |puts|), puts)
  {
  }

  /** A tiled board is reproduced by replaying its placements: same layers, same used stones. */
  lemma ReplayReproduces(env: Env, b: Board, puts: seq<Put>)
    requires WfEnv(env) && Tiling(env, b, puts)
    ensures var r := Replay(env, puts, |puts|);
      r.bits == b.bits && r.field == b.field && r.used == b.used
  {
    var r := Replay(env, puts, |puts|);
    forall k | 0 <= k < CellCount
      ensures r.field[k] == b.field[k]
    {
      if b.bits[k] {
        var i :| 0 <= i < |puts| && Covers(puts[i], PutVec(env, puts[i]), k);
      }
    }
  }

  /* ---------------------------------------------------------------------- */
  /* Recovering the placements of a tiled board                              */
  /* ---------------------------------------------------------------------- */

  /** Raster index of a placement's anchor. */
  function AnchorIndex(put: Put): int {
    put.y * Size + put.x
  }

  /** The first offset is (0, 0), so the anchor is covered, and every other covered cell comes after it. */
  lemma AnchorFirst(env: Env, put: Put, k: int)
    requires WfEnv(env) && Placed(env, put) && 0 <= k < CellCount
    ensures InField(AnchorCell(put)) && To1d(AnchorCell(put)) == AnchorIndex(put)
    ensures Covers(put, PutVec(env, put), AnchorIndex(put))
    ensures Covers(put, PutVec(env, put), k) ==> AnchorIndex(put) <= k
  {
    var vec := PutVec(env, put);
    assert OffsetList(vec);
    assert Cell(put, vec[0]) == AnchorCell(put);
    if Covers(put, vec, k) {
      var m :| 0 <= m < |vec| && To1d(Cell(put, vec[m])) == k;
      if m > 0 {
        assert Less(vec[0], vec[m]);
      }
    }
  }

  /** On a tiled board the cells holding a placement's id are exactly the ones it covers. */
  lemma StoneCells(env: Env, b: Board, puts: seq<Put>, i: int, k: int)
    requires WfEnv(env) && Tiling(env, b, puts) && 0 <= i < |puts| && 0 <= k < CellCount
    ensures (b.bits[k] && b.field[k] == puts[i].id) <==> Covers(puts[i], PutVec(env, puts[i]), k)
  {
    if b.bits[k] && b.field[k] == puts[i].id {
      var j :| 0 <= j < |puts| && Covers(puts[j], PutVec(env, puts[j]), k);
      assert puts[j].id == puts[i].id;
    }
  }

  /** On a tiled board, the scan's first cells of used ids are exactly the anchors. */
  lemma FirstCellAnchor(env: Env, b: Board, puts: seq<Put>, c: int)
    requires WfEnv(env) && Tiling(env, b, puts) && 0 <= c < CellCount
    requires Layers(b.field, b.bits, b.used)
    ensures FirstCell(b.field, b.bits, b.used, c) <==> exists i | 0 <= i < |puts| :: AnchorIndex(puts[i]) == c
  {
    if FirstCell(b.field, b.bits, b.used, c) {
      var i :| 0 <= i < |puts| && Covers(puts[i], PutVec(env, puts[i]), c);
      AnchorFirst(env, puts[i], c);
      var a := AnchorIndex(puts[i]);
      StoneCells(env, b, puts, i, a);
      StoneCells(env, b, puts, i, c);
      assert a == c;
    }
    if exists i | 0 <= i < |puts| :: AnchorIndex(puts[i]) == c {
      var i :| 0 <= i < |puts| && AnchorIndex(puts[i]) == c;
      AnchorFirst(env, puts[i], c);
      StoneCells(env, b, puts, i, c);
      forall c' | 0 <= c' < c
        ensures !(b.bits[c'] && b.field[c'] == b.field[c])
      {
        AnchorFirst(env, puts[i], c');
        StoneCells(env, b, puts, i, c');
      }
    }
  }

  /** The offsets gathered at a placement's anchor are its offset list. */
  lemma CollectedIsVec(env: Env, b: Board, puts: seq<Put>, i: int)
    requires WfEnv(env) && Tiling(env, b, puts) && 0 <= i < |puts|
    ensures InField(AnchorCell(puts[i]))
    ensures Collected(b.field, b.bits, AnchorCell(puts[i])) == PutVec(env, puts[i])
  {
    var vec := PutVec(env, puts[i]);
    var p := AnchorCell(puts[i]);
    AnchorFirst(env, puts[i], 0);
    WindowScanShape(b.field, b.bits, p, 128);
    assert OffsetList(vec);
    forall o
      ensures o in Collected(b.field, b.bits, p) <==> o in vec
    {
      SameStoneMember(env, b, puts, i, o);
    }
    AscendingUnique(Collected(b.field, b.bits, p), vec);
  }

  /** Around a placement's anchor, the window offsets holding the same id are its offsets. */
  lemma SameStoneMember(env: Env, b: Board, puts: seq<Put>, i: int, o: Point)
    requires WfEnv(env) && Tiling(env, b, puts) && 0 <= i < |puts| && InField(AnchorCell(puts[i]))
    ensures o in PutVec(env, puts[i]) <==> InWindow(o) && SameStone(b.field, b.bits, AnchorCell(puts[i]), o)
  {
    if o in PutVec(env, puts[i]) {
      OwnOffsetSame(env, b, puts, i, o);
    }
    if InWindow(o) && SameStone(b.field, b.bits, AnchorCell(puts[i]), o) {
      SameOffsetOwn(env, b, puts, i, o);
    }
  }

  /** Each offset of a placement lies in the window and holds the placement's id. */
  lemma OwnOffsetSame(env: Env, b: Board, puts: seq<Put>, i: int, o: Point)
    requires WfEnv(env) && Tiling(env, b, puts) && 0 <= i < |puts| && InField(AnchorCell(puts[i]))
    requires o in PutVec(env, puts[i])
    ensures InWindow(o) && SameStone(b.field, b.bits, AnchorCell(puts[i]), o)
  {
    var put := puts[i];
    var vec := PutVec(env, put);
    var p := AnchorCell(put);
    AnchorFirst(env, put, 0);
    StoneCells(env, b, puts, i, To1d(p));
    assert OffsetList(vec);
    var m :| 0 <= m < |vec| && vec[m] == o;
    assert Add(p, o) == Cell(put, vec[m]);
    StoneCells(env, b, puts, i, To1d(Add(p, o)));
  }

  /** A window offset holding the placement's id is one of its offsets. */
  lemma SameOffsetOwn(env: Env, b: Board, puts: seq<Put>, i: int, o: Point)
    requires WfEnv(env) && Tiling(env, b, puts) && 0 <= i < |puts| && InField(AnchorCell(puts[i]))
    requires InWindow(o) && SameStone(b.field, b.bits, AnchorCell(puts[i]), o)
    ensures o in PutVec(env, puts[i])
  {
    var put := puts[i];
    var vec := PutVec(env, put);
    var p := AnchorCell(put);
    var k := To1d(Add(p, o));
    AnchorFirst(env, put, 0);
    StoneCells(env, b, puts, i, To1d(p));
    assert b.bits[k] && b.field[k] == put.id;
    StoneCells(env, b, puts, i, k);
    assert Covers(put, vec, k);
    var m :| 0 <= m < |vec| && To1d(Cell(put, vec[m])) == k;
    To1dInjective(Cell(put, vec[m]), Add(p, o));
    assert vec[m] == o;
  }

  /** q recovers placement p: the same stone at the same anchor, covering the same cells. */
  predicate SamePlacement(env: Env, p: Put, q: Put)
    requires WfEnv(env) && Placed(env, p)
  {
    && p.id == q.id && p.x == q.x && p.y == q.y && IsOrientation(q.r)
    && Vec(env, q.id, q.r) == PutVec(env, p)
  }

  /** q recovers one of the placements. */
  predicate Recovers(env: Env, puts: seq<Put>, q: Put)
    requires WfEnv(env) && Placements(env, puts)
  {
    exists i | 0 <= i < |puts| :: SamePlacement(env, puts[i], q)
  }

  /** The recovered list from cell c on: placements recovered in anchor order, every one anchored there found. */
  predicate RecoveredFrom(env: Env, puts: seq<Put>, c: int, q: seq<Put>)
    requires WfEnv(env) && Placements(env, puts)
  {
    && (forall j | 0 <= j < |q| :: c <= AnchorIndex(q[j]) && Recovers(env, puts, q[j]))
    && (forall a, d | 0 <= a < d < |q| :: AnchorIndex(q[a]) < AnchorIndex(q[d]))
    && (forall i | 0 <= i < |puts| && c <= AnchorIndex(puts[i]) :: HasId(q, |q|, puts[i].id))
  }

  /** Past a cell that anchors nothing, the recovered list stays as it is. */
  lemma SkipCell(env: Env, puts: seq<Put>, c: int, q: seq<Put>)
    requires WfEnv(env) && Placements(env, puts) && RecoveredFrom(env, puts, c + 1, q)
    requires forall i | 0 <= i < |puts| :: AnchorIndex(puts[i]) != c
    ensures RecoveredFrom(env, puts, c, q)
  {
  }

  /** The placement the scan records at cell c. */
  function ScanPut(rules: Rules, field: seq<int>, bits: seq<bool>, used: seq<bool>, c: int): Put
    requires BackCalcInput(rules, field, bits, used) && 0 <= c < CellCount
    requires FirstCell(field, bits, used, c)
  {
    var p := From1d(c);
    Put(field[c], p.x, p.y, MatchFrom(rules.vectors[field[c]], Collected(field, bits, p), 0))
  }

  /** At the anchor of placement i the scan records a placement recovering it. */
  lemma AnchorMatch(env: Env, b: Board, puts: seq<Put>, c: int, i: int)
    requires WfEnv(env) && Tiling(env, b, puts) && 0 <= c < CellCount
    requires BackCalcInput(env.rules, b.field, b.bits, b.used)
    requires 0 <= i < |puts| && AnchorIndex(puts[i]) == c
    requires FirstCell(b.field, b.bits, b.used, c)
    ensures ScanPut(env.rules, b.field, b.bits, b.used, c).r < 8
    ensures SamePlacement(env, puts[i], ScanPut(env.rules, b.field, b.bits, b.used, c))
    ensures AnchorIndex(ScanPut(env.rules, b.field, b.bits, b.used, c)) == c
  {
    AnchorFirst(env, puts[i], 0);
    CollectedIsVec(env, b, puts, i);
    StoneCells(env, b, puts, i, c);
    var p := From1d(c);
    assert p == AnchorCell(puts[i]);
    assert env.rules.vectors[b.field[c]][puts[i].r] == Collected(b.field, b.bits, p);
  }

  /** At the anchor of placement i the recovery adds a placement recovering it. */
  lemma AnchorCellStep(env: Env, b: Board, puts: seq<Put>, c: int, i: int, rest: seq<Put>)
    requires WfEnv(env) && Tiling(env, b, puts) && 0 <= c < CellCount
    requires BackCalcInput(env.rules, b.field, b.bits, b.used)
    requires 0 <= i < |puts| && AnchorIndex(puts[i]) == c
    requires BackCalcFrom(env.rules, b.field, b.bits, b.used, c + 1) == Some(rest)
    requires RecoveredFrom(env, puts, c + 1, rest)
    requires FirstCell(b.field, b.bits, b.used, c)
    ensures BackCalcFrom(env.rules, b.field, b.bits, b.used, c).Some?
    ensures RecoveredFrom(env, puts, c, BackCalcFrom(env.rules, b.field, b.bits, b.used, c).value)
  {
    AnchorMatch(env, b, puts, c, i);
    var put := ScanPut(env.rules, b.field, b.bits, b.used, c);
    var q := [put] + rest;
    assert BackCalcFrom(env.rules, b.field, b.bits, b.used, c) == Some(q);
    PrependRecovered(env, puts, c, i, put, rest);
  }

  /** Putting the recovery of the placement anchored at c in front of the rest. */
  lemma PrependRecovered(env: Env, puts: seq<Put>, c: int, i: int, put: Put, rest: seq<Put>)
    requires WfEnv(env) && Placements(env, puts)
    requires 0 <= i < |puts| && AnchorIndex(puts[i]) == c
    requires SamePlacement(env, puts[i], put) && AnchorIndex(put) == c
    requires RecoveredFrom(env, puts, c + 1, rest)
    ensures RecoveredFrom(env, puts, c, [put] + rest)
  {
    PrependOrdered(env, puts, c, i, put, rest);
    PrependIds(env, puts, c, i, put, rest);
  }

  /** The entries of [put] + rest are recoveries anchored from c on, in increasing anchor order. */
  lemma PrependOrdered(env: Env, puts: seq<Put>, c: int, i: int, put: Put, rest: seq<Put>)
    requires WfEnv(env) && Placements(env, puts)
    requires 0 <= i < |puts| && SamePlacement(env, puts[i], put) && AnchorIndex(put) == c
    requires RecoveredFrom(env, puts, c + 1, rest)
    ensures forall j | 0 <= j < |[put] + rest| :: c <= AnchorIndex(([put] + rest)[j]) && Recovers(env, puts, ([put] + rest)[j])
    ensures forall a, d | 0 <= a < d < |[put] + rest| :: AnchorIndex(([put] + rest)[a]) < AnchorIndex(([put] + rest)[d])
  {
    var q := [put] + rest;
    forall j | 0 <= j < |q|
      ensures c <= AnchorIndex(q[j]) && Recovers(env, puts, q[j])
    {
      if j > 0 {
        assert q[j] == rest[j - 1];
      }
    }
    forall a, d | 0 <= a < d < |q|
      ensures AnchorIndex(q[a]) < AnchorIndex(q[d])
    {
      assert q[d] == rest[d - 1];
      if a > 0 {
        assert q[a] == rest[a - 1];
      }
    }
  }

  /** Every placement anchored from c on has its stone in [put] + rest. */
  lemma PrependIds(env: Env, puts: seq<Put>, c: int, i: int, put: Put, rest: seq<Put>)
    requires WfEnv(env) && Placements(env, puts)
    requires 0 <= i < |puts| && AnchorIndex(puts[i]) == c && SamePlacement(env, puts[i], put)
    requires RecoveredFrom(env, puts, c + 1, rest)
    ensures forall i' | 0 <= i' < |puts| && c <= AnchorIndex(puts[i']) :: HasId([put] + rest, |rest| + 1, puts[i'].id)
  {
    var q := [put] + rest;
    forall i' | 0 <= i' < |puts| && c <= AnchorIndex(puts[i'])
      ensures HasId(q, |q|, puts[i'].id)
    {
      if AnchorIndex(puts[i']) == c {
        AnchorsDistinct(env, puts, i, i');
        assert q[0].id == puts[i'].id;
      } else {
        var j :| 0 <= j < |rest| && rest[j].id == puts[i'].id;
        assert q[j + 1] == rest[j];
      }
    }
  }

  /** Non-overlapping placements have different anchors. */
  lemma AnchorsDistinct(env: Env, puts: seq<Put>, i: int, i': int)
    requires WfEnv(env) && Placements(env, puts) && 0 <= i < |puts| && 0 <= i' < |puts|
    requires AnchorIndex(puts[i]) == AnchorIndex(puts[i'])
    ensures i == i'
  {
    AnchorFirst(env, puts[i], 0);
    AnchorFirst(env, puts[i'], 0);
    var c := AnchorIndex(puts[i]);
    assert Covers(puts[i'], PutVec(env, puts[i']), c) && Covers(puts[i], PutVec(env, puts[i]), c);
  }

  /** The recovery from cell c on: it succeeds, in anchor order, and finds every placement anchored there. */
  lemma {:induction false} BackCalcFromTiled(env: Env, b: Board, puts: seq<Put>, c: int)
    requires WfEnv(env) && Tiling(env, b, puts) && 0 <= c <= CellCount
    requires BackCalcInput(env.rules, b.field, b.bits, b.used)
    ensures BackCalcFrom(env.rules, b.field, b.bits, b.used, c).Some?
    ensures RecoveredFrom(env, puts, c, BackCalcFrom(env.rules, b.field, b.bits, b.used, c).value)
    decreases CellCount - c
  {
    if c == CellCount {
      forall i | 0 <= i < |puts|
        ensures AnchorIndex(puts[i]) < CellCount
      {
        AnchorFirst(env, puts[i], 0);
      }
    } else {
      BackCalcFromTiled(env, b, puts, c + 1);
      var rest := BackCalcFrom(env.rules, b.field, b.bits, b.used, c + 1).value;
      FirstCellAnchor(env, b, puts, c);
      if FirstCell(b.field, b.bits, b.used, c) {
        var i :| 0 <= i < |puts| && AnchorIndex(puts[i]) == c;
        AnchorCellStep(env, b, puts, c, i, rest);
      } else {
        SkipCell(env, puts, c, rest);
      }
    }
  }

  /** A tiled board meets what backCalcPutList needs. */
  lemma TiledInput(env: Env, b: Board, puts: seq<Put>)
    requires WfEnv(env) && Tiling(env, b, puts)
    ensures BackCalcInput(env.rules, b.field, b.bits, b.used)
  {
    forall k | 0 <= k < CellCount
      ensures 0 <= b.field[k] < 256
    {
      if b.bits[k] {
        var i :| 0 <= i < |puts| && Covers(puts[i], PutVec(env, puts[i]), k);
      }
    }
    forall id | 0 <= id < 256 && b.used[id]
      ensures id < |env.rules.vectors|
    {
      var i :| 0 <= i < |puts| && puts[i].id == id;
    }
  }

  /** A placement recovering p covers the cells p covers. */
  lemma SameCovers(env: Env, p: Put, q: Put)
    requires WfEnv(env) && Placed(env, p) && SamePlacement(env, p, q)
    ensures Placed(env, q)
    ensures forall k | 0 <= k < CellCount :: Covers(q, PutVec(env, q), k) <==> Covers(p, PutVec(env, p), k)
  {
    assert forall o :: Cell(q, o) == Cell(p, o);
  }

  /** Recovered placements, in strictly increasing anchor order, are themselves placements. */
  lemma RecoveredPlacements(env: Env, puts: seq<Put>, q: seq<Put>)
    requires WfEnv(env) && Placements(env, puts) && RecoveredFrom(env, puts, 0, q)
    ensures Placements(env, q)
  {
    forall j | 0 <= j < |q|
      ensures Placed(env, q[j])
    {
      var i :| 0 <= i < |puts| && SamePlacement(env, puts[i], q[j]);
      SameCovers(env, puts[i], q[j]);
    }
    assert AllPlaced(env, q);
    forall a, d | 0 <= a < d < |q|
      ensures q[a].id != q[d].id
      ensures forall k | 0 <= k < CellCount :: !(Covers(q[a], PutVec(env, q[a]), k) && Covers(q[d], PutVec(env, q[d]), k))
    {
      RecoveredPair(env, puts, q, a, d);
    }
  }

  /** Two entries of a recovered list are of different stones and share no cell. */
  lemma RecoveredPair(env: Env, puts: seq<Put>, q: seq<Put>, a: int, d: int)
    requires WfEnv(env) && Placements(env, puts) && RecoveredFrom(env, puts, 0, q) && 0 <= a < d < |q|
    ensures Placed(env, q[a]) && Placed(env, q[d]) && q[a].id != q[d].id
    ensures forall k | 0 <= k < CellCount :: !(Covers(q[a], PutVec(env, q[a]), k) && Covers(q[d], PutVec(env, q[d]), k))
  {
    assert Recovers(env, puts, q[a]) && Recovers(env, puts, q[d]);
    assert AnchorIndex(q[a]) < AnchorIndex(q[d]);
    var i :| 0 <= i < |puts| && SamePlacement(env, puts[i], q[a]);
    var i' :| 0 <= i' < |puts| && SamePlacement(env, puts[i'], q[d]);
    SameCovers(env, puts[i], q[a]);
    SameCovers(env, puts[i'], q[d]);
    IdsDistinct(env, puts, i, i');
    forall k | 0 <= k < CellCount
      ensures !(Covers(q[a], PutVec(env, q[a]), k) && Covers(q[d], PutVec(env, q[d]), k))
    {
      Disjoint(env, puts, i, i', k);
    }
  }

  /** Placements of a list are of different stones. */
  lemma IdsDistinct(env: Env, puts: seq<Put>, i: int, i': int)
    requires WfEnv(env) && Placements(env, puts) && 0 <= i < |puts| && 0 <= i' < |puts|
    ensures puts[i].id == puts[i'].id <==> i == i'
  {
    if i < i' {
      assert puts[i].id != puts[i'].id;
    } else if i' < i {
      assert puts[i'].id != puts[i].id;
    }
  }

  /** Different placements of a list share no cell. */
  lemma Disjoint(env: Env, puts: seq<Put>, i: int, i': int, k: int)
    requires WfEnv(env) && Placements(env, puts) && 0 <= i < |puts| && 0 <= i' < |puts| && i != i'
    requires 0 <= k < CellCount
    ensures !(Covers(puts[i], PutVec(env, puts[i]), k) && Covers(puts[i'], PutVec(env, puts[i']), k))
  {
    if i < i' {
      assert !(Covers(puts[i], PutVec(env, puts[i]), k) && Covers(puts[i'], PutVec(env, puts[i']), k));
    } else {
      assert !(Covers(puts[i'], PutVec(env, puts[i']), k) && Covers(puts[i], PutVec(env, puts[i]), k));
    }
  }

  /** The recovered list uses exactly the stones of the placements. */
  lemma RecoveredIds(env: Env, puts: seq<Put>, q: seq<Put>)
    requires WfEnv(env) && Placements(env, puts) && RecoveredFrom(env, puts, 0, q)
    ensures forall id :: HasId(q, |q|, id) <==> HasId(puts, |puts|, id)
  {
    forall id
      ensures HasId(q, |q|, id) <==> HasId(puts, |puts|, id)
    {
      if HasId(q, |q|, id) {
        var j :| 0 <= j < |q| && q[j].id == id;
        var i :| 0 <= i < |puts| && SamePlacement(env, puts[i], q[j]);
      }
      if HasId(puts, |puts|, id) {
        var i :| 0 <= i < |puts| && puts[i].id == id;
        assert 0 <= AnchorIndex(puts[i]);
      }
    }
  }

  /** The recovered placement of stone puts[i].id covers what puts[i] covers. */
  lemma RecoveredCover(env: Env, puts: seq<Put>, q: seq<Put>, i: int, j: int)
    requires WfEnv(env) && Placements(env, puts) && RecoveredFrom(env, puts, 0, q)
    requires 0 <= i < |puts| && 0 <= j < |q| && q[j].id == puts[i].id
    ensures SamePlacement(env, puts[i], q[j])
  {
    var i' :| 0 <= i' < |puts| && SamePlacement(env, puts[i'], q[j]);
    IdsDistinct(env, puts, i, i');
  }

  /** The recovered list tiles the board too. */
  lemma RecoveredTiling(env: Env, b: Board, puts: seq<Put>, q: seq<Put>)
    requires WfEnv(env) && Tiling(env, b, puts) && RecoveredFrom(env, puts, 0, q)
    ensures Tiling(env, b, q)
  {
    RecoveredPlacements(env, puts, q);
    RecoveredIds(env, puts, q);
    forall k | 0 <= k < CellCount
      ensures b.bits[k] == CoveredBy(env, q, |q|, k)
    {
      RecoveredBit(env, b, puts, q, k);
    }
    forall j, k | 0 <= j < |q| && 0 <= k < CellCount && Covers(q[j], PutVec(env, q[j]), k)
      ensures b.field[k] == q[j].id
    {
      var i :| 0 <= i < |puts| && SamePlacement(env, puts[i], q[j]);
      SameCovers(env, puts[i], q[j]);
    }
  }

  /** A cell is occupied exactly when a recovered placement covers it. */
  lemma RecoveredBit(env: Env, b: Board, puts: seq<Put>, q: seq<Put>, k: int)
    requires WfEnv(env) && Tiling(env, b, puts) && RecoveredFrom(env, puts, 0, q) && 0 <= k < CellCount
    requires Placements(env, q) && forall id :: HasId(q, |q|, id) <==> HasId(puts, |puts|, id)
    ensures b.bits[k] == CoveredBy(env, q, |q|, k)
  {
    if b.bits[k] {
      var i :| 0 <= i < |puts| && Covers(puts[i], PutVec(env, puts[i]), k);
      assert HasId(puts, |puts|, puts[i].id);
      var j :| 0 <= j < |q| && q[j].id == puts[i].id;
      RecoveredCover(env, puts, q, i, j);
      SameCovers(env, puts[i], q[j]);
    }
    if CoveredBy(env, q, |q|, k) {
      var j :| 0 <= j < |q| && Covers(q[j], PutVec(env, q[j]), k);
      var i :| 0 <= i < |puts| && SamePlacement(env, puts[i], q[j]);
      SameCovers(env, puts[i], q[j]);
    }
  }

  /**
   * backCalcPutList on a tiled board: it succeeds, recovers each placement
   * once (same stone, anchor and cells), lists them in raster order of
   * their anchors, and the recovered list tiles the board as well.
   */
  lemma BackCalcRecovers(env: Env, b: Board, puts: seq<Put>)
    requires WfEnv(env) && Tiling(env, b, puts)
    ensures BackCalcInput(env.rules, b.field, b.bits, b.used)
    ensures BackCalcSpec(env.rules, b.field, b.bits, b.used).Some?
    ensures var q := BackCalcSpec(env.rules, b.field, b.bits, b.used).value;
      && (forall j | 0 <= j < |q| :: Recovers(env, puts, q[j]))
      && (forall a, d | 0 <= a < d < |q| :: AnchorIndex(q[a]) < AnchorIndex(q[d]))
      && (forall id :: HasId(q, |q|, id) <==> HasId(puts, |puts|, id))
      && Tiling(env, b, q)
  {
    TiledInput(env, b, puts);
    BackCalcFromTiled(env, b, puts, 0);
    var q := BackCalcSpec(env.rules, b.field, b.bits, b.used).value;
    RecoveredIds(env, puts, q);
    RecoveredTiling(env, b, puts, q);
  }

  /**
   * The round trip: put a list of non-overlapping placements on a fresh
   * board, recover them with backCalcPutList, and putting the recovered
   * list on a fresh board gives the same layers and used stones.
   */
  lemma BackCalcRoundTrip(env: Env, puts: seq<Put>)
    requires WfEnv(env) && Placements(env, puts)
    ensures var b := Replay(env, puts, |puts|);
      && BackCalcInput(env.rules, b.field, b.bits, b.used)
      && BackCalcSpec(env.rules, b.field, b.bits, b.used).Some?
      && var q := BackCalcSpec(env.rules, b.field, b.bits, b.used).value;
      && Placements(env, q)
      && Replay(env, q, |q|).bits == b.bits
      && Replay(env, q, |q|).field == b.field
      && Replay(env, q, |q|).used == b.used
  {
    var b := Replay(env, puts, |puts|);
    ReplayTiles(env, puts);
    BackCalcRecovers(env, b, puts);
    var q := BackCalcSpec(env.rules, b.field, b.bits, b.used).value;
    ReplayReproduces(env, b, q);
  }

  /* ---------------------------------------------------------------------- */
  /* GameState::toAnswer                                                     */
  /* ---------------------------------------------------------------------- */

  /**
   * The answer entry of a placement: the top-left corner of the stone's 8x8
   * box (the anchor minus where the anchor lies in the box), the flip and
   * the quarter turns.
   */
  function AnswerOf(rules: Rules, put: Put): (a: AnswerPut)
    requires WfRules(rules) && 0 <= put.id < |rules.vectors| && IsOrientation(put.r)
    ensures a.stoneIndex == put.id && 4 * a.flip + a.rotate == put.r && 0 <= a.rotate < 4
  {
    var o := rules.origins[put.id][put.r];
    AnswerPut(put.id, put.x - o.x, put.y - o.y, put.r / 4, put.r % 4)
  }

  /**
   * The meaning of an answer entry: the m-th cell a placement covers is
   * the m-th cell of the stone grid in orientation (flip, rotate), shifted
   * to the entry's corner. So the answer puts the stone on the same cells.
   */
  lemma AnswerCovers(problem: Problem, put: Put)
    requires WellShaped(problem) && 0 <= put.id < |problem.stoneList| && IsOrientation(put.r)
    requires RulesOf(problem).vectors[put.id][put.r] != []
    requires |Cells(PatternGrid(problem.stoneList[put.id], put.r))| > 0
    ensures var a := (RulesOfWf(problem); AnswerOf(RulesOf(problem), put));
      var vec := RulesOf(problem).vectors[put.id][put.r];
      var cells := Cells(PatternGrid(problem.stoneList[put.id], 4 * a.flip + a.rotate));
      |vec| == |cells| && forall m | 0 <= m < |vec| :: Cell(put, vec[m]) == Add(Point(a.x, a.y), cells[m])
  {
    RulesOfWf(problem);
    var stone := problem.stoneList[put.id];
    var r := RulesOf(problem);
    assert r.vectors[put.id][put.r] == Vector(stone, put.r);
    assert r.origins[put.id][put.r] == Origin(stone, put.r);
  }

  /** The answer entries of a list of placements, in the same order. */
  function AnswerList(rules: Rules, puts: seq<Put>): (s: seq<AnswerPut>)
    requires WfRules(rules) && forall j | 0 <= j < |puts| :: 0 <= puts[j].id < |rules.vectors| && IsOrientation(puts[j].r)
    ensures |s| == |puts| && forall j | 0 <= j < |puts| :: s[j] == AnswerOf(rules, puts[j])
  {
    seq(|puts|, j requires 0 <= j < |puts| => AnswerOf(rules, puts[j]))
  }

  /** The entries of two lists of placements, one after the other, are the entries of the joined list. */
  lemma AnswerListAppend(rules: Rules, a: seq<Put>, c: seq<Put>)
    requires WfRules(rules)
    requires forall j | 0 <= j < |a| :: 0 <= a[j].id < |rules.vectors| && IsOrientation(a[j].r)
    requires forall j | 0 <= j < |c| :: 0 <= c[j].id < |rules.vectors| && IsOrientation(c[j].r)
    ensures AnswerList(rules, a + c) == AnswerList(rules, a) + AnswerList(rules, c)
  {
  }

  /** The answer entries toAnswer records for a board, before the builder sorts them. */
  function AnswerSpec(rules: Rules, b: Board): Option<seq<AnswerPut>>
    requires BackCalcInput(rules, b.field, b.bits, b.used)
  {
    var res := BackCalcSpec(rules, b.field, b.bits, b.used);
    if res.None? then None
    else
      BackCalcFromShape(rules, b.field, b.bits, b.used, 0);
      Some(AnswerList(rules, res.value))
  }

  /** The loop of toAnswer: one builder entry per recovered placement, in order. */
  method RecordAnswers(rules: Rules, builder: SolverAnswerBuilder, puts: seq<Put>)
    requires WfRules(rules) && builder.stoneMax == |rules.vectors|
    requires forall j | 0 <= j < |puts| ::
      0 <= puts[j].id < |rules.vectors| && IsOrientation(puts[j].r) && InField(AnchorCell(puts[j]))
    modifies builder
    ensures builder.putList == old(builder.putList) + AnswerList(rules, puts)
  {
    ghost var start := builder.putList;
    for j := 0 to |puts|
      invariant builder.putList == start + AnswerList(rules, puts[..j])
    {
      var put := puts[j];
      var origin := rules.origins[put.id][put.r];
      var x := put.x - origin.x;
      var y := put.y - origin.y;
      builder.Put(put.id, x, y, put.r / 4, put.r % 4);
      assert AnswerList(rules, puts[..j + 1]) == AnswerList(rules, puts[..j]) + [AnswerOf(rules, put)];
    }
    assert puts[..|puts|] == puts;
  }

  /**
   * GameState::toAnswer: on a copy of the state moved back to orientation
   * 0, recover the placements and record each as an answer entry; the
   * builder then sorts them by stone index. The state itself is not
   * changed. None stands for backCalcPutList's assertion failing.
   */
  method ToAnswer(env: Env, tt: Table, state: GameState, problem: Problem) returns (answer: Option<SolverAnswer>)
    requires WfEnv(env) && tt.Valid() && tt.built && Consistent(env, state.View())
    requires |problem.stoneList| == |env.rules.vectors|
    requires forall i | 0 <= i < 256 && state.used[i] :: i < |env.rules.vectors|
    ensures BackCalcInput(env.rules, TransSpec(state.View(), 0).field, TransSpec(state.View(), 0).bits,
                          TransSpec(state.View(), 0).used)
    ensures answer.Some? == AnswerSpec(env.rules, TransSpec(state.View(), 0)).Some?
    ensures answer.Some? ==>
      && SortedByIndex(answer.value.putList)
      && multiset(answer.value.putList) == multiset(AnswerSpec(env.rules, TransSpec(state.View(), 0)).value)
  {
    ghost var v := state.View();
    DefaultInput(env, v);
    var s := state.Clone();
    s.TransDefault(tt);
    assert s.View() == TransSpec(v, 0);
    var log := BackCalcPutList(env.rules, s.field, s.bits, s.used);
    if log.None? {
      return None;
    }
    BackCalcFromShape(env.rules, s.field, s.bits, s.used, 0);
    assert AnswerSpec(env.rules, TransSpec(v, 0)) == Some(AnswerList(env.rules, log.value));
    var built := BuildAnswer(env.rules, problem, log.value);
    answer := Some(built);
  }

  /** The board turned to orientation 0 is a valid input of backCalcPutList. */
  lemma DefaultInput(env: Env, v: Board)
    requires WfEnv(env) && Consistent(env, v)
    requires forall i | 0 <= i < 256 && v.used[i] :: i < |env.rules.vectors|
    ensures BackCalcInput(env.rules, TransSpec(v, 0).field, TransSpec(v, 0).bits, TransSpec(v, 0).used)
  {
    TransConsistent(env, v, 0);
  }

  /**
   * A board laid out from placements in orientation 0 keeps toAnswer's
   * found flag true: transDefault leaves it as it is and the recovery
   * succeeds on it.
   */
  lemma ReplayAnswers(env: Env, puts: seq<Put>)
    requires WfEnv(env) && Placements(env, puts)
    ensures var b := Replay(env, puts, |puts|);
      && TransSpec(b, 0) == b
      && BackCalcInput(env.rules, b.field, b.bits, b.used)
      && AnswerSpec(env.rules, TransSpec(b, 0)).Some?
  {
    BackCalcRoundTrip(env, puts);
  }

  /** The builder part of toAnswer: record each recovered placement, then build. */
  method BuildAnswer(rules: Rules, problem: Problem, puts: seq<Put>) returns (answer: SolverAnswer)
    requires WfRules(rules) && |problem.stoneList| == |rules.vectors|
    requires forall j | 0 <= j < |puts| ::
      0 <= puts[j].id < |rules.vectors| && IsOrientation(puts[j].r) && InField(AnchorCell(puts[j]))
    ensures SortedByIndex(answer.putList) && multiset(answer.putList) == multiset(AnswerList(rules, puts))
  {
    var builder := new SolverAnswerBuilder(problem);
    RecordAnswers(rules, builder, puts);
    answer := builder.Build();
  }
}
