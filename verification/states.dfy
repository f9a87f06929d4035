/**
 * The search state of the solver (GameState): which stones are used, the
 * occupancy bit of every cell, the stone id written in every cell, the
 * incremental hash, the score, the number of free cells and the orientation
 * the board is currently seen in.
 *
 * The first half states each operation as a function of a Board value; the
 * class GameState at the end updates its fields in place and is proved to
 * follow those functions.
 */
module States {
  import opened Geometry
  import opened Transform
  import opened Fields
  import opened FieldHash
  import opened Patterns

  /** A placement: stone id, anchor (x, y) in the current orientation, stone orientation r. */
  datatype Put = Put(id: int, x: int, y: int, r: int)

  /** The global tables a state is read against: g's tables and FieldHash's random words. */
  datatype Env = Env(rules: Rules, table: seq<bv32>)

  predicate WfEnv(env: Env) {
    WfRules(env.rules) && IsTable(env.table)
  }

  /** The fields of a GameState, as a value. */
  datatype Board = Board(
    used: seq<bool>,
    bits: seq<bool>,
    field: seq<int>,
    hash: bv32,
    score: int,
    emptyCount: int,
    transState: int)

  predicate Shaped(b: Board) {
    |b.used| == 256 && |b.bits| == CellCount && |b.field| == CellCount && IsOrientation(b.transState)
  }

  /** Initial score of a fresh state. */
  const InitialScore: int := 100000

  /** GameState::init. */
  function Fresh(env: Env): (b: Board)
    ensures Shaped(b)
  {
    Board(seq(256, _ => false), seq(CellCount, _ => false), seq(CellCount, _ => 0),
          0, InitialScore, env.rules.defaultEmptyCount, 0)
  }

  /* ---------------------------------------------------------------------- */
  /* Cells                                                                   */
  /* ---------------------------------------------------------------------- */

  /** stone_pattern_vector[id][r]. */
  function Vec(env: Env, id: int, r: int): seq<Point>
    requires WfEnv(env) && 0 <= id < |env.rules.vectors| && IsOrientation(r)
  {
    env.rules.vectors[id][r]
  }

  /** The cell an offset covers when the anchor is put at (put.x, put.y). */
  function Cell(put: Put, o: Point): Point {
    Point(put.x + o.x, put.y + o.y)
  }

  function AnchorCell(put: Put): Point {
    Point(put.x, put.y)
  }

  /** Every cell the offsets cover lies on the board. */
  predicate CoverInside(put: Put, vec: seq<Point>) {
    forall k | 0 <= k < |vec| :: InField(Cell(put, vec[k]))
  }

  /** Packed cell k is one of the covered cells. */
  predicate Covers(put: Put, vec: seq<Point>, k: int)
    requires CoverInside(put, vec)
  {
    exists m | 0 <= m < |vec| :: To1d(Cell(put, vec[m])) == k
  }

  /** GameState::isStone. */
  predicate StoneAt(b: Board, p: Point)
    requires Shaped(b) && InField(p)
  {
    b.bits[To1d(p)]
  }

  /** GameState::isBlock: an obstacle of the problem, seen in the current orientation. */
  predicate IsBlock(env: Env, b: Board, p: Point)
    requires WfEnv(env) && Shaped(b) && InField(p)
  {
    env.rules.defaultField[b.transState][To1d(p)] != 0
  }

  /** GameState::isEmpty. */
  predicate IsEmpty(env: Env, b: Board, p: Point)
    requires WfEnv(env) && Shaped(b) && InField(p)
  {
    !StoneAt(b, p) && !IsBlock(env, b, p)
  }

  /** GameState::isFirstStone: no stone is used yet. */
  predicate IsFirstStone(b: Board)
    requires Shaped(b)
  {
    forall i | 0 <= i < 256 :: !b.used[i]
  }

  /* ---------------------------------------------------------------------- */
  /* The consistency of a state                                              */
  /* ---------------------------------------------------------------------- */

  /** Occupancy seen in orientation 0: cell k of orientation 0 is where it lies now. */
  function Occ0(b: Board): (occ: seq<bool>)
    requires Shaped(b)
    ensures |occ| == CellCount
  {
    seq(CellCount, k requires 0 <= k < CellCount => b.bits[To1d(Trans(0, b.transState, From1d(k)))])
  }

  function CountTrue(s: seq<bool>): nat {
    if s == [] then 0 else CountTrue(s[..|s| - 1]) + (if s[|s| - 1] then 1 else 0)
  }

  /**
   * What every state reached by init, put, undo and trans satisfies: cells
   * without a stone hold 0, ids fit a byte, the hash is the XOR of the words
   * of the occupied cells seen in orientation 0, and the free-cell count is
   * the obstacle-free count minus the occupied cells.
   */
  predicate Consistent(env: Env, b: Board)
    requires WfEnv(env)
  {
    && Shaped(b)
    && (forall k | 0 <= k < CellCount :: 0 <= b.field[k] < 256)
    && (forall k | 0 <= k < CellCount :: !b.bits[k] ==> b.field[k] == 0)
    && b.hash == Hash(env.table, Occ0(b))
    && b.emptyCount + CountTrue(Occ0(b)) == env.rules.defaultEmptyCount
  }

  lemma {:induction false} CountTrueNone(s: seq<bool>)
    requires forall k | 0 <= k < |s| :: !s[k]
    ensures CountTrue(s) == 0
  {
    if s != [] {
      CountTrueNone(s[..|s| - 1]);
    }
  }

  /** A fresh state is consistent, has no stone and hash 0. */
  lemma FreshConsistent(env: Env)
    requires WfEnv(env)
    ensures Consistent(env, Fresh(env)) && IsFirstStone(Fresh(env)) && Fresh(env).hash == 0
  {
    var b := Fresh(env);
    XorRangeEmpty(env.table, Occ0(b), CellCount);
    CountTrueNone(Occ0(b));
  }

  /* ---------------------------------------------------------------------- */
  /* available and getAvailableList                                          */
  /* ---------------------------------------------------------------------- */

  /** The shape a Put has in solver.cpp: a byte id, an orientation 0-7, signed byte coordinates. */
  predicate PutShape(put: Put) {
    0 <= put.id < 256 && IsOrientation(put.r) && -128 <= put.x < 128 && -128 <= put.y < 128
  }

  /** Neighbour d of the anchor holds a stone whose id is below (above, when reverse) put.id. */
  predicate Touches(b: Board, put: Put, d: int, reverse: bool)
    requires Shaped(b) && 0 <= d < 4
  {
    var n := Neighbour(AnchorCell(put), d);
    && InField(n)
    && StoneAt(b, n)
    && (if reverse then b.field[To1d(n)] > put.id else b.field[To1d(n)] < put.id)
  }

  /**
   * GameState::available: the stone exists, is unused and has this
   * orientation; every covered cell is on the board and empty; and either
   * no stone is placed yet or a 4-neighbour of the ANCHOR cell holds a stone
   * with a smaller id (a larger one when reverse).
   */
  predicate AvailableSpec(env: Env, b: Board, put: Put, reverse: bool)
    requires WfEnv(env) && Shaped(b) && PutShape(put)
  {
    && put.id < |env.rules.vectors|
    && !b.used[put.id]
    && Vec(env, put.id, put.r) != []
    && CoverInside(put, Vec(env, put.id, put.r))
    && (forall k | 0 <= k < |Vec(env, put.id, put.r)| :: IsEmpty(env, b, Cell(put, Vec(env, put.id, put.r)[k])))
    && (IsFirstStone(b) || exists d | 0 <= d < 4 :: Touches(b, put, d, reverse))
  }

  /** The placements getAvailableList(x, y) returns: index i stands for Put(i / 8, x, y, i % 8). */
  function AvailableFrom(env: Env, b: Board, x: int, y: int, i: nat): seq<Put>
    requires WfEnv(env) && Shaped(b) && -128 <= x < 128 && -128 <= y < 128 && i <= 2048
    decreases 2048 - i
  {
    if i == 2048 then []
    else
      var put := Put(i / 8, x, y, i % 8);
      (if AvailableSpec(env, b, put, false) then [put] else []) + AvailableFrom(env, b, x, y, i + 1)
  }

  function AvailableList(env: Env, b: Board, x: int, y: int): seq<Put>
    requires WfEnv(env) && Shaped(b) && -128 <= x < 128 && -128 <= y < 128
  {
    AvailableFrom(env, b, x, y, 0)
  }

  /** Index of a placement in the order getAvailableList tries them. */
  function Rank(put: Put): int {
    8 * put.id + put.r
  }

  /**
   * The list holds exactly the available placements at (x, y), each once,
   * in increasing 8 * id + r.
   */
  lemma {:induction false} AvailableFromMembers(env: Env, b: Board, x: int, y: int, i: nat)
    requires WfEnv(env) && Shaped(b) && -128 <= x < 128 && -128 <= y < 128 && i <= 2048
    ensures forall put :: put in AvailableFrom(env, b, x, y, i) <==>
      PutShape(put) && put.x == x && put.y == y && i <= Rank(put) && AvailableSpec(env, b, put, false)
    ensures forall a, c | 0 <= a < c < |AvailableFrom(env, b, x, y, i)| ::
      Rank(AvailableFrom(env, b, x, y, i)[a]) < Rank(AvailableFrom(env, b, x, y, i)[c])
    decreases 2048 - i
  {
    if i < 2048 {
      AvailableFromMembers(env, b, x, y, i + 1);
      var put := Put(i / 8, x, y, i % 8);
      assert Rank(put) == i;
      forall p | PutShape(p) && p.x == x && p.y == y && Rank(p) == i
        ensures p == put
      {
      }
    }
  }

  /** Window cell (x + v, y + u) of getAvailableList is off the board or not free. */
  predicate WindowBlocked(env: Env, b: Board, x: int, y: int, u: int, v: int)
    requires WfEnv(env) && Shaped(b)
  {
    !InField(Point(x + v, y + u)) || !IsEmpty(env, b, Point(x + v, y + u))
  }

  lemma AvailableFromStep(env: Env, b: Board, x: int, y: int, i: nat, ret: seq<Put>)
    requires WfEnv(env) && Shaped(b) && -128 <= x < 128 && -128 <= y < 128 && i < 2048
    ensures var put := Put(i / 8, x, y, i % 8);
      (if AvailableSpec(env, b, put, false) then ret + [put] else ret) + AvailableFrom(env, b, x, y, i + 1)
      == ret + AvailableFrom(env, b, x, y, i)
  {
  }

  /** The mask filter of getAvailableList: bit idx is set by some window cell that is not free. */
  predicate Filtered(env: Env, b: Board, x: int, y: int, idx: int)
    requires WfEnv(env) && Shaped(b)
  {
    exists u, v | 0 <= u < 8 && -7 <= v < 8 && WindowBlocked(env, b, x, y, u, v) :: (u, v + 8, idx) in env.rules.mask
  }

  /** The mask never rules out an available placement. */
  lemma MaskKeepsAvailable(env: Env, b: Board, put: Put)
    requires WfEnv(env) && Shaped(b) && PutShape(put)
    requires AvailableSpec(env, b, put, false)
    ensures !Filtered(env, b, put.x, put.y, Rank(put))
  {
    forall u, v | 0 <= u < 8 && -7 <= v < 8 && WindowBlocked(env, b, put.x, put.y, u, v)
      ensures (u, v + 8, Rank(put)) !in env.rules.mask
    {
      assert Rank(put) / 8 == put.id && Rank(put) % 8 == put.r;
    }
  }

  /* ---------------------------------------------------------------------- */
  /* Occupancy counting and hashing                                          */
  /* ---------------------------------------------------------------------- */

  /** occ with every packed cell listed in ks set. */
  function SetAll(occ: seq<bool>, ks: seq<int>): (r: seq<bool>)
    requires |occ| == CellCount
    ensures |r| == CellCount
  {
    seq(CellCount, k requires 0 <= k < CellCount => occ[k] || k in ks)
  }

  /** XOR of the words of the listed cells. */
  function XorWords(t: seq<bv32>, ks: seq<int>): bv32
    requires IsTable(t) && forall m | 0 <= m < |ks| :: 0 <= ks[m] < CellCount
  {
    if ks == [] then 0 else XorWords(t, ks[..|ks| - 1]) ^ CellWord(t, ks[|ks| - 1])
  }

  predicate Distinct(ks: seq<int>) {
    forall a, c | 0 <= a < c < |ks| :: ks[a] != ks[c]
  }

  lemma {:induction false} CountTrueSet(s: seq<bool>, k: int)
    requires 0 <= k < |s| && !s[k]
    ensures CountTrue(s[k := true]) == CountTrue(s) + 1
  {
    var s' := s[k := true];
    if k < |s| - 1 {
      assert s'[..|s'| - 1] == s[..|s| - 1][k := true];
      CountTrueSet(s[..|s| - 1], k);
    } else {
      assert s'[..|s'| - 1] == s[..|s| - 1];
    }
  }

  /**
   * Setting a list of distinct free cells XORs their words into the hash
   * and adds their number to the count of occupied cells.
   */
  lemma {:induction false} SetAllEffect(t: seq<bv32>, occ: seq<bool>, ks: seq<int>)
    requires IsTable(t) && |occ| == CellCount
    requires forall m | 0 <= m < |ks| :: 0 <= ks[m] < CellCount && !occ[ks[m]]
    requires Distinct(ks)
    ensures Hash(t, SetAll(occ, ks)) == Hash(t, occ) ^ XorWords(t, ks)
    ensures CountTrue(SetAll(occ, ks)) == CountTrue(occ) + |ks|
  {
    if ks == [] {
      assert SetAll(occ, ks) == occ;
    } else {
      var front, k := ks[..|ks| - 1], ks[|ks| - 1];
      SetAllEffect(t, occ, front);
      var before := SetAll(occ, front);
      assert !before[k];
      assert SetAll(occ, ks) == before[k := !before[k]];
      HashToggle(t, before, k);
      CountTrueSet(before, k);
    }
  }

  /** Clearing the set cells again: the inverse of SetAll. */
  function ClearAll(occ: seq<bool>, ks: seq<int>): (r: seq<bool>)
    requires |occ| == CellCount
    ensures |r| == CellCount
  {
    seq(CellCount, k requires 0 <= k < CellCount => occ[k] && k !in ks)
  }

  lemma ClearAllEffect(t: seq<bv32>, occ: seq<bool>, ks: seq<int>)
    requires IsTable(t) && |occ| == CellCount
    requires forall m | 0 <= m < |ks| :: 0 <= ks[m] < CellCount && occ[ks[m]]
    requires Distinct(ks)
    ensures Hash(t, ClearAll(occ, ks)) == Hash(t, occ) ^ XorWords(t, ks)
    ensures CountTrue(ClearAll(occ, ks)) + |ks| == CountTrue(occ)
  {
    var cleared := ClearAll(occ, ks);
    SetAllEffect(t, cleared, ks);
    assert SetAll(cleared, ks) == occ;
  }

  /* ---------------------------------------------------------------------- */
  /* preHash, put and undo                                                   */
  /* ---------------------------------------------------------------------- */

  /** The covered cells as packed cells of orientation 0, where the hash words are taken. */
  function HashCells(ts: int, put: Put, vec: seq<Point>): (ks: seq<int>)
    requires IsOrientation(ts) && CoverInside(put, vec)
    ensures |ks| == |vec| && forall m | 0 <= m < |ks| :: 0 <= ks[m] < CellCount
  {
    seq(|vec|, m requires 0 <= m < |vec| => To1d(Trans(ts, 0, Cell(put, vec[m]))))
  }

  /** The hash cells of one more offset: one more word XORed in. */
  lemma HashCellsStep(t: seq<bv32>, ts: int, put: Put, vec: seq<Point>, m: int)
    requires IsTable(t) && IsOrientation(ts) && CoverInside(put, vec) && 0 <= m < |vec|
    ensures CoverInside(put, vec[..m]) && CoverInside(put, vec[..m + 1])
    ensures XorWords(t, HashCells(ts, put, vec[..m + 1]))
         == XorWords(t, HashCells(ts, put, vec[..m])) ^ CellWord(t, To1d(Trans(ts, 0, Cell(put, vec[m]))))
  {
    assert CoverInside(put, vec[..m]);
    assert CoverInside(put, vec[..m + 1]);
    var ks := HashCells(ts, put, vec[..m + 1]);
    assert ks[..m] == HashCells(ts, put, vec[..m]);
    assert ks[m] == To1d(Trans(ts, 0, Cell(put, vec[m])));
  }

  /** GameState::preHash: the hash with the words of the covered cells XORed in. */
  function PreHashSpec(env: Env, b: Board, put: Put): bv32
    requires WfEnv(env) && Shaped(b) && 0 <= put.id < |env.rules.vectors| && IsOrientation(put.r)
    requires CoverInside(put, Vec(env, put.id, put.r))
  {
    b.hash ^ XorWords(env.table, HashCells(b.transState, put, Vec(env, put.id, put.r)))
  }

  /** What put asserts before it writes: the stone is unused and its cells are free and on the board. */
  predicate PutReady(env: Env, b: Board, put: Put)
    requires WfEnv(env)
  {
    && Shaped(b)
    && 0 <= put.id < |env.rules.vectors| && IsOrientation(put.r)
    && var vec := Vec(env, put.id, put.r);
    && 1 <= |vec| <= 16
    && CoverInside(put, vec)
    && (forall m | 0 <= m < |vec| ::
          !b.bits[To1d(Cell(put, vec[m]))] && b.field[To1d(Cell(put, vec[m]))] == 0)
    && !b.used[put.id]
  }

  /** GameState::put. */
  function PutSpec(env: Env, b: Board, put: Put): (b': Board)
    requires WfEnv(env) && PutReady(env, b, put)
    ensures Shaped(b')
  {
    var vec := Vec(env, put.id, put.r);
    b.(used := b.used[put.id := true],
       bits := seq(CellCount, k requires 0 <= k < CellCount => b.bits[k] || Covers(put, vec, k)),
       field := seq(CellCount, k requires 0 <= k < CellCount => if Covers(put, vec, k) then put.id else b.field[k]),
       hash := PreHashSpec(env, b, put),
       emptyCount := b.emptyCount - |vec|)
  }

  /** What undo asserts: the stone is used and its cells hold it. */
  predicate UndoReady(env: Env, b: Board, put: Put)
    requires WfEnv(env)
  {
    && Shaped(b)
    && 0 <= put.id < |env.rules.vectors| && IsOrientation(put.r)
    && var vec := Vec(env, put.id, put.r);
    && 1 <= |vec| <= 16
    && CoverInside(put, vec)
    && (forall m | 0 <= m < |vec| ::
          b.bits[To1d(Cell(put, vec[m]))] && b.field[To1d(Cell(put, vec[m]))] == put.id)
    && b.used[put.id]
  }

  /** GameState::undo. */
  function UndoSpec(env: Env, b: Board, put: Put): (b': Board)
    requires WfEnv(env) && UndoReady(env, b, put)
    ensures Shaped(b')
  {
    var vec := Vec(env, put.id, put.r);
    b.(used := b.used[put.id := false],
       bits := seq(CellCount, k requires 0 <= k < CellCount => b.bits[k] && !Covers(put, vec, k)),
       field := seq(CellCount, k requires 0 <= k < CellCount => if Covers(put, vec, k) then 0 else b.field[k]),
       hash := PreHashSpec(env, b, put),
       emptyCount := b.emptyCount + |vec|)
  }

  /** The offsets of an orientation are distinct, so are the cells they cover. */
  lemma CoverDistinct(env: Env, ts: int, put: Put)
    requires WfEnv(env) && IsOrientation(ts) && 0 <= put.id < |env.rules.vectors| && IsOrientation(put.r)
    requires CoverInside(put, Vec(env, put.id, put.r))
    ensures Distinct(HashCells(ts, put, Vec(env, put.id, put.r)))
  {
    var vec := Vec(env, put.id, put.r);
    assert OffsetList(vec);
    var ks := HashCells(ts, put, vec);
    forall a, c | 0 <= a < c < |ks|
      ensures ks[a] != ks[c]
    {
      assert Less(vec[a], vec[c]);
      To1dInjective(Trans(ts, 0, Cell(put, vec[a])), Trans(ts, 0, Cell(put, vec[c])));
      TransCompose(ts, 0, ts, Cell(put, vec[a]));
      TransCompose(ts, 0, ts, Cell(put, vec[c]));
      TransIdentity(ts, Cell(put, vec[a]));
      TransIdentity(ts, Cell(put, vec[c]));
    }
  }

  /** A cell of orientation 0 is one of the hash cells exactly when its current image is covered. */
  lemma HashCellsCover(ts: int, put: Put, vec: seq<Point>, k: int)
    requires IsOrientation(ts) && CoverInside(put, vec) && 0 <= k < CellCount
    ensures k in HashCells(ts, put, vec) <==> Covers(put, vec, To1d(Trans(0, ts, From1d(k))))
  {
    var ks := HashCells(ts, put, vec);
    var c := Trans(0, ts, From1d(k));
    if k in ks {
      var m :| 0 <= m < |vec| && ks[m] == k;
      var p := Cell(put, vec[m]);
      TransCompose(ts, 0, ts, p);
      TransIdentity(ts, p);
      assert From1d(k) == Trans(ts, 0, p);
      assert To1d(p) == To1d(c);
    }
    if Covers(put, vec, To1d(c)) {
      var m :| 0 <= m < |vec| && To1d(Cell(put, vec[m])) == To1d(c);
      To1dInjective(Cell(put, vec[m]), c);
      TransCompose(0, ts, 0, From1d(k));
      TransIdentity(0, From1d(k));
      assert ks[m] == k;
    }
  }

  /** After put, the orientation-0 occupancy is the old one with the hash cells set. */
  lemma PutOcc0(env: Env, b: Board, put: Put)
    requires WfEnv(env) && PutReady(env, b, put)
    ensures Occ0(PutSpec(env, b, put)) == SetAll(Occ0(b), HashCells(b.transState, put, Vec(env, put.id, put.r)))
  {
    var vec := Vec(env, put.id, put.r);
    forall k | 0 <= k < CellCount
      ensures Occ0(PutSpec(env, b, put))[k] == SetAll(Occ0(b), HashCells(b.transState, put, vec))[k]
    {
      HashCellsCover(b.transState, put, vec, k);
    }
  }

  /** After undo, the orientation-0 occupancy is the old one with the hash cells cleared. */
  lemma UndoOcc0(env: Env, b: Board, put: Put)
    requires WfEnv(env) && UndoReady(env, b, put)
    ensures Occ0(UndoSpec(env, b, put)) == ClearAll(Occ0(b), HashCells(b.transState, put, Vec(env, put.id, put.r)))
  {
    var vec := Vec(env, put.id, put.r);
    forall k | 0 <= k < CellCount
      ensures Occ0(UndoSpec(env, b, put))[k] == ClearAll(Occ0(b), HashCells(b.transState, put, vec))[k]
    {
      HashCellsCover(b.transState, put, vec, k);
    }
  }

  /** The hash cells of a put are free in orientation 0 before it (occupied after it). */
  lemma HashCellsState(env: Env, b: Board, put: Put, want: bool)
    requires WfEnv(env) && Shaped(b) && 0 <= put.id < |env.rules.vectors| && IsOrientation(put.r)
    requires CoverInside(put, Vec(env, put.id, put.r))
    requires forall m | 0 <= m < |Vec(env, put.id, put.r)| ::
      b.bits[To1d(Cell(put, Vec(env, put.id, put.r)[m]))] == want
    ensures forall m | 0 <= m < |Vec(env, put.id, put.r)| ::
      Occ0(b)[HashCells(b.transState, put, Vec(env, put.id, put.r))[m]] == want
  {
    var vec := Vec(env, put.id, put.r);
    forall m | 0 <= m < |vec|
      ensures Occ0(b)[HashCells(b.transState, put, vec)[m]] == want
    {
      var p := Cell(put, vec[m]);
      TransCompose(b.transState, 0, b.transState, p);
      TransIdentity(b.transState, p);
      From1dTo1d(Trans(b.transState, 0, p));
    }
  }

  /**
   * put keeps a state consistent, and the hash it leaves is the one
   * preHash announced: the hash of the new occupancy.
   */
  lemma PutConsistent(env: Env, b: Board, put: Put)
    requires WfEnv(env) && Consistent(env, b) && PutReady(env, b, put)
    ensures Consistent(env, PutSpec(env, b, put))
    ensures PutSpec(env, b, put).hash == Hash(env.table, Occ0(PutSpec(env, b, put)))
  {
    var vec := Vec(env, put.id, put.r);
    var ks := HashCells(b.transState, put, vec);
    PutOcc0(env, b, put);
    HashCellsState(env, b, put, false);
    CoverDistinct(env, b.transState, put);
    SetAllEffect(env.table, Occ0(b), ks);
    var b' := PutSpec(env, b, put);
    forall k | 0 <= k < CellCount
      ensures 0 <= b'.field[k] < 256 && (!b'.bits[k] ==> b'.field[k] == 0)
    {
    }
  }

  /** undo keeps a state consistent. */
  lemma UndoConsistent(env: Env, b: Board, put: Put)
    requires WfEnv(env) && Consistent(env, b) && UndoReady(env, b, put)
    ensures Consistent(env, UndoSpec(env, b, put))
  {
    var vec := Vec(env, put.id, put.r);
    var ks := HashCells(b.transState, put, vec);
    UndoOcc0(env, b, put);
    HashCellsState(env, b, put, true);
    CoverDistinct(env, b.transState, put);
    ClearAllEffect(env.table, Occ0(b), ks);
  }

  /** undo after put with the same placement gives back the state exactly. */
  lemma PutThenUndo(env: Env, b: Board, put: Put)
    requires WfEnv(env) && PutReady(env, b, put)
    ensures UndoReady(env, PutSpec(env, b, put), put)
    ensures UndoSpec(env, PutSpec(env, b, put), put) == b
  {
    var vec := Vec(env, put.id, put.r);
    var b' := PutSpec(env, b, put);
    forall m | 0 <= m < |vec|
      ensures b'.bits[To1d(Cell(put, vec[m]))] && b'.field[To1d(Cell(put, vec[m]))] == put.id
    {
      assert Covers(put, vec, To1d(Cell(put, vec[m])));
    }
    var b'' := UndoSpec(env, b', put);
    assert b''.used == b.used;
    forall k | 0 <= k < CellCount
      ensures b''.bits[k] == b.bits[k] && b''.field[k] == b.field[k]
    {
      if Covers(put, vec, k) {
        var m :| 0 <= m < |vec| && To1d(Cell(put, vec[m])) == k;
      }
    }
    assert b''.bits == b.bits;
    assert b''.field == b.field;
  }

  /* ---------------------------------------------------------------------- */
  /* trans                                                                   */
  /* ---------------------------------------------------------------------- */

  /** A layer after Field::transform(from, to): cell k takes the value of its source cell. */
  function Moved<T>(s: seq<T>, from: int, to: int): (r: seq<T>)
    requires |s| == CellCount && IsOrientation(from) && IsOrientation(to)
    ensures |r| == CellCount
  {
    seq(CellCount, k requires 0 <= k < CellCount => s[To1d(Source(from, to, k))])
  }

  /** GameState::trans(to): nothing when already there, else both layers move and the orientation changes. */
  function TransSpec(b: Board, to: int): (b': Board)
    requires Shaped(b) && IsOrientation(to)
    ensures Shaped(b')
  {
    if b.transState == to then b
    else b.(bits := Moved(b.bits, b.transState, to),
            field := Moved(b.field, b.transState, to),
            transState := to)
  }

  /** Moving the board to another orientation does not change what is occupied in orientation 0. */
  lemma TransOcc0(b: Board, to: int)
    requires Shaped(b) && IsOrientation(to)
    ensures Occ0(TransSpec(b, to)) == Occ0(b)
  {
    var ts := b.transState;
    forall k | 0 <= k < CellCount
      ensures Occ0(TransSpec(b, to))[k] == Occ0(b)[k]
    {
      if ts != to {
        var p := Trans(0, to, From1d(k));
        From1dTo1d(p);
        TransCompose(0, to, ts, From1d(k));
      }
    }
  }

  /** trans moves the contents of cell p to its image. */
  lemma TransMovesAt(b: Board, to: int, p: Point)
    requires Shaped(b) && IsOrientation(to) && InField(p) && b.transState != to
    ensures TransSpec(b, to).bits[To1d(Trans(b.transState, to, p))] == b.bits[To1d(p)]
    ensures TransSpec(b, to).field[To1d(Trans(b.transState, to, p))] == b.field[To1d(p)]
  {
    var ts := b.transState;
    var k := To1d(Trans(ts, to, p));
    From1dTo1d(Trans(ts, to, p));
    TransCompose(ts, to, ts, p);
    TransIdentity(ts, p);
    assert Source(ts, to, k) == p;
  }

  /** trans moves the contents of every cell to its image. */
  lemma TransMoves(b: Board, to: int)
    requires Shaped(b) && IsOrientation(to)
    ensures forall p | InField(p) ::
      TransSpec(b, to).bits[To1d(Trans(b.transState, to, p))] == b.bits[To1d(p)]
      && TransSpec(b, to).field[To1d(Trans(b.transState, to, p))] == b.field[To1d(p)]
  {
    forall p | InField(p)
      ensures TransSpec(b, to).bits[To1d(Trans(b.transState, to, p))] == b.bits[To1d(p)]
      ensures TransSpec(b, to).field[To1d(Trans(b.transState, to, p))] == b.field[To1d(p)]
    {
      if b.transState == to {
        TransIdentity(to, p);
      } else {
        TransMovesAt(b, to, p);
      }
    }
  }

  /**
   * trans keeps a state consistent and changes neither the used stones, the
   * hash, the score nor the free-cell count; every cell's contents move to
   * its image.
   */
  lemma TransConsistent(env: Env, b: Board, to: int)
    requires WfEnv(env) && Consistent(env, b) && IsOrientation(to)
    ensures Consistent(env, TransSpec(b, to))
    ensures var b' := TransSpec(b, to);
      b'.used == b.used && b'.hash == b.hash && b'.score == b.score && b'.emptyCount == b.emptyCount
    ensures forall p | InField(p) ::
      TransSpec(b, to).bits[To1d(Trans(b.transState, to, p))] == b.bits[To1d(p)]
      && TransSpec(b, to).field[To1d(Trans(b.transState, to, p))] == b.field[To1d(p)]
  {
    TransOcc0(b, to);
    TransMoves(b, to);
  }

  /** Going to an orientation and back again restores the board. */
  lemma TransRoundTrip(b: Board, to: int)
    requires Shaped(b) && IsOrientation(to)
    ensures TransSpec(TransSpec(b, to), b.transState) == b
  {
    var ts := b.transState;
    if ts != to {
      var b' := TransSpec(TransSpec(b, to), ts);
      forall k | 0 <= k < CellCount
        ensures b'.bits[k] == b.bits[k] && b'.field[k] == b.field[k]
      {
        var p := Source(to, ts, k);
        From1dTo1d(p);
        TransCompose(ts, to, ts, From1d(k));
        TransIdentity(ts, From1d(k));
        From1dTo1d(From1d(k));
      }
      assert b'.bits == b.bits && b'.field == b.field;
    }
  }

  /** The remainder of C++'s `%`, which truncates towards zero. */
  function CRem(a: int, n: int): (r: int)
    requires n > 0
    ensures a >= 0 ==> r == a % n
    ensures a < 0 ==> -n < r <= 0 && (a - r) % n == 0
    ensures -n < r < n
  {
    if a >= 0 then a % n
    else
      ModOfMultiple(a + (-a) % n, n, -((-a) / n));
      -((-a) % n)
  }

  /** A number k * n + m with 0 <= m < n leaves remainder m. */
  lemma ModUnique(a: int, n: int, k: int, m: int)
    requires n > 0 && 0 <= m < n && a == k * n + m
    ensures a % n == m
  {
    var d := k - a / n;
    assert d * n == a % n - m;
    MulBounds(d, n);
  }

  /** A non-zero multiple of n is at least n away from 0. */
  lemma MulBounds(d: int, n: int)
    requires n > 0
    ensures d >= 1 ==> d * n >= n
    ensures d <= -1 ==> d * n <= -n
  {
    if d >= 1 {
      assert d * n == (d - 1) * n + n;
    } else if d <= -1 {
      assert d * n == (d + 1) * n - n;
    }
  }

  /** A multiple of n leaves remainder 0. */
  lemma ModOfMultiple(a: int, n: int, k: int)
    requires n > 0 && a == k * n
    ensures a % n == 0
  {
    ModUnique(a, n, k, 0);
  }

  /** The orientation GameState::transRotate(r) moves to. */
  function RotateTarget(ts: int, r: int): int
    requires IsOrientation(ts)
  {
    (if ts >= 4 then 4 else 0) + CRem(ts + r, 4)
  }

  /** transRotate with a non-negative total stays in the half of the current orientation. */
  lemma RotateTargetHalf(ts: int, r: int)
    requires IsOrientation(ts) && ts + r >= 0
    ensures IsOrientation(RotateTarget(ts, r)) && RotateTarget(ts, r) / 4 == ts / 4
    ensures RotateTarget(ts, r) % 4 == (ts + r) % 4
  {
  }

  /** With a negative total, C++'s remainder lets transRotate leave the half. */
  lemma RotateTargetNegative()
    ensures RotateTarget(5, -7) == 2
  {
  }

  /* ---------------------------------------------------------------------- */
  /* calcSimpleScore                                                         */
  /* ---------------------------------------------------------------------- */

  /** Neighbour d of covered cell m holds a stone with a smaller id than put.id. */
  predicate LowerAround(b: Board, put: Put, vec: seq<Point>, m: int, d: int)
    requires Shaped(b) && 0 <= m < |vec| && 0 <= d < 4
  {
    var n := Neighbour(Cell(put, vec[m]), d);
    InField(n) && StoneAt(b, n) && b.field[To1d(n)] < put.id
  }

  /**
   * min_around_id: the smallest id below put.id found around the covered
   * cells, or 255 when there is none.
   */
  predicate IsMinAround(b: Board, put: Put, vec: seq<Point>, v: int)
    requires Shaped(b)
  {
    if exists m, d | 0 <= m < |vec| && 0 <= d < 4 :: LowerAround(b, put, vec, m, d) then
      && (exists m, d | 0 <= m < |vec| && 0 <= d < 4 && LowerAround(b, put, vec, m, d) ::
            v == b.field[To1d(Neighbour(Cell(put, vec[m]), d))])
      && (forall m, d | 0 <= m < |vec| && 0 <= d < 4 && LowerAround(b, put, vec, m, d) ::
            v <= b.field[To1d(Neighbour(Cell(put, vec[m]), d))])
    else v == 255
  }

  /** At most one value is the minimum around a placement. */
  lemma MinAroundUnique(b: Board, put: Put, vec: seq<Point>, v: int, w: int)
    requires Shaped(b) && IsMinAround(b, put, vec, v) && IsMinAround(b, put, vec, w)
    ensures v == w
  {
  }

  /**
   * GameState::calcSimpleScore: the square of the stone size, minus id^2 for
   * the first stone, else minus weight_diff_id times the distance from
   * put.id to min_around_id.
   */
  ghost predicate IsSimpleScore(env: Env, b: Board, put: Put, score: int)
    requires WfEnv(env) && Shaped(b) && 0 <= put.id < |env.rules.vectors| && IsOrientation(put.r)
  {
    var vec := Vec(env, put.id, put.r);
    if IsFirstStone(b) then score == |vec| * |vec| - put.id * put.id
    else exists v :: IsMinAround(b, put, vec, v) && score == |vec| * |vec| - env.rules.weightDiffId * (put.id - v)
  }

  /* ---------------------------------------------------------------------- */
  /* Loop states of the GameState methods                                    */
  /* ---------------------------------------------------------------------- */

  /** stone_pattern_mask[y][x] as a set of bit indices. */
  function MaskColumn(r: Rules, y: int, x: int): (s: set<int>)
    requires WfRules(r)
    ensures forall idx :: idx in s <==> 0 <= idx < 2048 && (y, x, idx) in r.mask
  {
    set t | t in r.mask && t.0 == y && t.1 == x :: t.2
  }

  /** The mask filter over the first c window cells, taken row by row (15 per row). */
  ghost predicate FilteredUpTo(env: Env, b: Board, x: int, y: int, idx: int, c: int)
    requires WfEnv(env) && Shaped(b)
  {
    exists u, v | 0 <= u < 8 && -7 <= v < 8 && 15 * u + v + 7 < c && WindowBlocked(env, b, x, y, u, v) ::
      (u, v + 8, idx) in env.rules.mask
  }

  /** The ids below put.id seen around the covered cells in the first c (cell, direction) pairs. */
  ghost function LowIds(b: Board, put: Put, vec: seq<Point>, c: int): set<int>
    requires Shaped(b)
  {
    set m, d | 0 <= m < |vec| && 0 <= d < 4 && 4 * m + d < c && LowerAround(b, put, vec, m, d)
      :: b.field[To1d(Neighbour(Cell(put, vec[m]), d))]
  }

  /** v is the least element of s, or 255 when s is empty. */
  ghost predicate IsMinOf(s: set<int>, v: int) {
    if s == {} then v == 255 else v in s && forall x | x in s :: v <= x
  }

  /** min_around_id after the first c (cell, direction) pairs, four directions per cell. */
  ghost predicate MinUpTo(b: Board, put: Put, vec: seq<Point>, c: int, v: int)
    requires Shaped(b)
  {
    IsMinOf(LowIds(b, put, vec, c), v)
  }

  /* ---------------------------------------------------------------------- */
  /* GameState                                                               */
  /* ---------------------------------------------------------------------- */

  /** A search state; its fields are updated in place by put, undo and trans. */
  class GameState {
    var used: seq<bool>
    var bits: seq<bool>
    var field: seq<int>
    var hash: bv32
    var score: int
    var emptyCount: int
    var transState: int

    function View(): Board
      reads this
    {
      Board(used, bits, field, hash, score, emptyCount, transState)
    }

    /** GameState::init. */
    method Init(env: Env)
      modifies this
      ensures View() == Fresh(env)
    {
      used := seq(256, _ => false);
      bits := seq(CellCount, _ => false);
      field := seq(CellCount, _ => 0);
      emptyCount := env.rules.defaultEmptyCount;
      transState := 0;
      hash := 0;
      score := InitialScore;
    }

    /** GameState::clone: a new state with the same fields. */
    method Clone() returns (q: GameState)
      ensures fresh(q) && q.View() == View()
    {
      q := new GameState;
      q.used, q.bits, q.field := used, bits, field;
      q.emptyCount, q.transState, q.hash, q.score := emptyCount, transState, hash, score;
    }

    /** GameState::addScore. */
    method AddScore(s: int)
      modifies this
      ensures View() == old(View()).(score := old(score) + s)
    {
      score := score + s;
    }

    /** GameState::available. */
    method Available(env: Env, put: Put, reverse: bool) returns (ok: bool)
      requires WfEnv(env) && Shaped(View()) && PutShape(put)
      ensures ok == AvailableSpec(env, View(), put, reverse)
    {
      if |env.rules.vectors| <= put.id {
        return false;
      }
      if used[put.id] {
        return false;
      }
      var vec := env.rules.vectors[put.id][put.r];
      if |vec| == 0 {
        return false;
      }
      ghost var b := View();
      ok := forall i | 0 <= i < 256 :: !used[i];
      for m := 0 to |vec|
        invariant forall m' | 0 <= m' < m :: InField(Cell(put, vec[m'])) && IsEmpty(env, b, Cell(put, vec[m']))
        invariant ok == (IsFirstStone(b) || (m > 0 && exists d | 0 <= d < 4 :: Touches(b, put, d, reverse)))
      {
        var p := Cell(put, vec[m]);
        if !(InsideField(p.x, p.y) && !bits[To1d(p)] && env.rules.defaultField[transState][To1d(p)] == 0) {
          assert !(InField(Cell(put, vec[m])) && IsEmpty(env, b, Cell(put, vec[m])));
          return false;
        }
        if !ok {
          for r := 0 to 4
            invariant ok == exists d | 0 <= d < r :: Touches(b, put, d, reverse)
          {
            ghost var before := ok;
            var n := Neighbour(AnchorCell(put), r);
            if InsideField(n.x, n.y) && bits[To1d(n)] {
              if !reverse && field[To1d(n)] < put.id {
                ok := true;
              }
              if reverse && field[To1d(n)] > put.id {
                ok := true;
              }
            }
            assert ok == (before || Touches(b, put, r, reverse));
          }
        }
      }
    }

    /** The bitset of getAvailableList: the mask bits of every window cell that is not free. */
    method WindowFilter(env: Env, x: int, y: int) returns (blocked: set<int>)
      requires WfEnv(env) && Shaped(View())
      ensures forall idx :: idx in blocked <==> 0 <= idx < 2048 && Filtered(env, View(), x, y, idx)
    {
      ghost var b := View();
      blocked := {};
      for u := 0 to 8
        invariant forall idx :: idx in blocked <==> 0 <= idx < 2048 && FilteredUpTo(env, b, x, y, idx, 15 * u)
      {
        for v := -7 to 8
          invariant forall idx :: idx in blocked <==> 0 <= idx < 2048 && FilteredUpTo(env, b, x, y, idx, 15 * u + v + 7)
        {
          if InsideField(x + v, y + u) && !bits[To1d(Point(x + v, y + u))]
            && env.rules.defaultField[transState][To1d(Point(x + v, y + u))] == 0 {
            assert !WindowBlocked(env, b, x, y, u, v);
          } else {
            assert WindowBlocked(env, b, x, y, u, v);
            blocked := blocked + MaskColumn(env.rules, u, v + 8);
          }
        }
      }
    }

    /** GameState::getAvailableList(x, y). */
    method GetAvailableList(env: Env, x: int, y: int) returns (ret: seq<Put>)
      requires WfEnv(env) && Shaped(View())
      requires -128 <= x < 128 && -128 <= y < 128
      ensures ret == AvailableList(env, View(), x, y)
    {
      var blocked := WindowFilter(env, x, y);
      ret := [];
      for i := 0 to 2048
        invariant ret + AvailableFrom(env, View(), x, y, i) == AvailableList(env, View(), x, y)
      {
        var put := Put(i / 8, x, y, i % 8);
        var a := Candidate(env, put, blocked);
        AvailableFromStep(env, View(), x, y, i, ret);
        if a {
          ret := ret + [put];
        }
      }
    }

    /** One index of the second loop of getAvailableList: skipped when used or masked, else tested. */
    method Candidate(env: Env, put: Put, blocked: set<int>) returns (a: bool)
      requires WfEnv(env) && Shaped(View()) && PutShape(put)
      requires forall idx :: idx in blocked <==> 0 <= idx < 2048 && Filtered(env, View(), put.x, put.y, idx)
      ensures a == AvailableSpec(env, View(), put, false)
    {
      var i := 8 * put.id + put.r;
      assert i / 8 == put.id && i % 8 == put.r;
      if used[i / 8] || i in blocked {
        if i in blocked && AvailableSpec(env, View(), put, false) {
          MaskKeepsAvailable(env, View(), put);
        }
        a := false;
      } else {
        a := Available(env, put, false);
      }
    }

    /** GameState::preHash. */
    method PreHash(env: Env, tt: Table, put: Put) returns (h: bv32)
      requires WfEnv(env) && tt.Valid() && tt.built && Shaped(View())
      requires 0 <= put.id < |env.rules.vectors| && IsOrientation(put.r)
      requires |Vec(env, put.id, put.r)| <= 16 && CoverInside(put, Vec(env, put.id, put.r))
      ensures h == PreHashSpec(env, View(), put)
    {
      h := CoverHash(env.table, tt, transState, put, env.rules.vectors[put.id][put.r], hash);
    }

    /** GameState::put. */
    method PutStone(env: Env, tt: Table, put: Put)
      requires WfEnv(env) && tt.Valid() && tt.built && PutReady(env, View(), put)
      modifies this
      ensures View() == PutSpec(env, old(View()), put)
    {
      var vec := env.rules.vectors[put.id][put.r];
      CoverDistinctCells(env, put);
      ghost var b := View();
      bits, field, hash := PlaceCells(env.table, tt, transState, put, vec, bits, field, hash);
      used := used[put.id := true];
      emptyCount := emptyCount - |vec|;
      assert bits == PutSpec(env, b, put).bits;
      assert field == PutSpec(env, b, put).field;
    }

    /** GameState::undo. */
    method Undo(env: Env, tt: Table, put: Put)
      requires WfEnv(env) && tt.Valid() && tt.built && UndoReady(env, View(), put)
      modifies this
      ensures View() == UndoSpec(env, old(View()), put)
    {
      var vec := env.rules.vectors[put.id][put.r];
      CoverDistinctCells(env, put);
      ghost var b := View();
      bits, field, hash := ClearCells(env.table, tt, transState, put, vec, bits, field, hash);
      used := used[put.id := false];
      emptyCount := emptyCount + |vec|;
      assert bits == UndoSpec(env, b, put).bits;
      assert field == UndoSpec(env, b, put).field;
    }

    /** GameState::calcSimpleScore. */
    method CalcSimpleScore(env: Env, put: Put) returns (s: int)
      requires WfEnv(env) && Shaped(View()) && 0 <= put.id < |env.rules.vectors| && IsOrientation(put.r)
      ensures IsSimpleScore(env, View(), put, s)
    {
      s := SimpleScore(env, View(), put);
    }

    /** GameState::trans(to). */
    method Trans(tt: Table, to: int)
      requires tt.Valid() && tt.built && Shaped(View()) && IsOrientation(to)
      modifies this
      ensures View() == TransSpec(old(View()), to)
    {
      if transState == to {
        return;
      }
      field := TransformLayer(tt, field, 0, transState, to);
      bits := TransformLayer(tt, bits, false, transState, to);
      transState := to;
    }

    /** GameState::trans(): the next orientation. */
    method TransNext(tt: Table)
      requires tt.Valid() && tt.built && Shaped(View())
      modifies this
      ensures View() == TransSpec(old(View()), (old(transState) + 1) % 8)
    {
      Trans(tt, (transState + 1) % 8);
    }

    /** GameState::transDefault. */
    method TransDefault(tt: Table)
      requires tt.Valid() && tt.built && Shaped(View())
      modifies this
      ensures View() == TransSpec(old(View()), 0)
    {
      Trans(tt, 0);
    }

    /** GameState::transRotate(r); trans asserts that the target is an orientation. */
    method TransRotate(tt: Table, r: int)
      requires tt.Valid() && tt.built && Shaped(View())
      requires IsOrientation(RotateTarget(transState, r))
      modifies this
      ensures View() == TransSpec(old(View()), RotateTarget(old(transState), r))
    {
      Trans(tt, (if transState >= 4 then 4 else 0) + CRem(transState + r, 4));
    }
  }

  /** The computation of calcSimpleScore on the fields of state b. */
  method SimpleScore(env: Env, b: Board, put: Put) returns (s: int)
    requires WfEnv(env) && Shaped(b) && 0 <= put.id < |env.rules.vectors| && IsOrientation(put.r)
    ensures IsSimpleScore(env, b, put, s)
  {
    var vec := env.rules.vectors[put.id][put.r];
    s := |vec| * |vec|;
    if forall i | 0 <= i < 256 :: !b.used[i] {
      s := s - put.id * put.id;
    } else {
      var minAround := MinAroundId(b, put, vec);
      s := s - env.rules.weightDiffId * (put.id - minAround);
    }
  }

  /** The loops over the covered cells and their four neighbours that compute min_around_id. */
  method MinAroundId(b: Board, put: Put, vec: seq<Point>) returns (v: int)
    requires Shaped(b) && put.id <= 255
    ensures IsMinAround(b, put, vec, v)
  {
    v := 255;
    for m := 0 to |vec|
      invariant MinUpTo(b, put, vec, 4 * m, v)
    {
      for r := 0 to 4
        invariant MinUpTo(b, put, vec, 4 * m + r, v)
      {
        v := MinAt(b, put, vec, m, r, v);
      }
    }
    MinUpToAll(b, put, vec, v);
  }

  /** One neighbour: a stone with a smaller id than put.id lowers the minimum. */
  method MinAt(b: Board, put: Put, vec: seq<Point>, m: int, r: int, v: int) returns (v': int)
    requires Shaped(b) && 0 <= m < |vec| && 0 <= r < 4 && put.id <= 255
    requires MinUpTo(b, put, vec, 4 * m + r, v)
    ensures MinUpTo(b, put, vec, 4 * m + r + 1, v')
  {
    v' := v;
    var n := Neighbour(Cell(put, vec[m]), r);
    if InsideField(n.x, n.y) {
      if b.bits[To1d(n)] && b.field[To1d(n)] < put.id {
        v' := if b.field[To1d(n)] < v then b.field[To1d(n)] else v;
      }
    }
    MinStep(b, put, vec, m, r, v, v');
  }

  /** After every pair, the running minimum is min_around_id. */
  lemma MinUpToAll(b: Board, put: Put, vec: seq<Point>, v: int)
    requires Shaped(b) && MinUpTo(b, put, vec, 4 * |vec|, v)
    ensures IsMinAround(b, put, vec, v)
  {
    var s := LowIds(b, put, vec, 4 * |vec|);
    forall m, d | 0 <= m < |vec| && 0 <= d < 4 && LowerAround(b, put, vec, m, d)
      ensures b.field[To1d(Neighbour(Cell(put, vec[m]), d))] in s
    {
      assert 4 * m + d < 4 * |vec|;
    }
    if s != {} {
      var m, d :| 0 <= m < |vec| && 0 <= d < 4 && 4 * m + d < 4 * |vec| && LowerAround(b, put, vec, m, d)
        && v == b.field[To1d(Neighbour(Cell(put, vec[m]), d))];
    }
  }

  /** The loop of preHash: XOR the word of every covered cell, seen in orientation 0, into h0. */
  method CoverHash(t: seq<bv32>, tt: Table, ts: int, put: Put, vec: seq<Point>, h0: bv32) returns (h: bv32)
    requires IsTable(t) && tt.Valid() && tt.built && IsOrientation(ts)
    requires CoverInside(put, vec) && |vec| <= 16
    ensures h == h0 ^ XorWords(t, HashCells(ts, put, vec))
  {
    h := h0;
    var size := |vec|;
    for m := 0 to size
      invariant CoverInside(put, vec[..m])
      invariant h == h0 ^ XorWords(t, HashCells(ts, put, vec[..m]))
    {
      var q := tt.Lookup(ts, 0, Cell(put, vec[m]));
      HashCellsStep(t, ts, put, vec, m);
      CellWordGet(t, q, size);
      h := h ^ Get(t, q.x, q.y, size);
    }
    assert vec[..size] == vec;
  }

  /** The loop of put: each covered cell gets the id and its occupancy bit, and its word enters the hash. */
  method PlaceCells(t: seq<bv32>, tt: Table, ts: int, put: Put, vec: seq<Point>,
                    bits: seq<bool>, field: seq<int>, hash: bv32)
    returns (bits': seq<bool>, field': seq<int>, hash': bv32)
    requires IsTable(t) && tt.Valid() && tt.built && IsOrientation(ts)
    requires |bits| == CellCount && |field| == CellCount
    requires CoverInside(put, vec) && 1 <= |vec| <= 16
    requires forall a, c | 0 <= a < c < |vec| :: To1d(Cell(put, vec[a])) != To1d(Cell(put, vec[c]))
    requires forall m | 0 <= m < |vec| :: !bits[To1d(Cell(put, vec[m]))] && field[To1d(Cell(put, vec[m]))] == 0
    ensures |bits'| == CellCount && |field'| == CellCount
    ensures forall k | 0 <= k < CellCount :: bits'[k] == (bits[k] || Covers(put, vec, k))
    ensures forall k | 0 <= k < CellCount :: field'[k] == if Covers(put, vec, k) then put.id else field[k]
    ensures hash' == hash ^ XorWords(t, HashCells(ts, put, vec))
  {
    bits', field', hash' := bits, field, hash;
    var size := |vec|;
    for m := 0 to size
      invariant Painted(put, vec, m, bits, field, true, put.id, bits', field')
      invariant hash' == hash ^ XorWords(t, HashCells(ts, put, vec[..m]))
    {
      var p := Cell(put, vec[m]);
      PaintedStep(put, vec, m, bits, field, true, put.id, bits', field');
      field' := field'[To1d(p) := put.id];
      bits' := bits'[To1d(p) := true];
      var q := tt.Lookup(ts, 0, p);
      HashCellsStep(t, ts, put, vec, m);
      CellWordGet(t, q, size);
      hash' := hash' ^ Get(t, q.x, q.y, size);
    }
    assert vec[..size] == vec;
    PaintedAll(put, vec, bits, field, true, put.id, bits', field');
  }

  /** The loop of undo: each covered cell is cleared to 0 and its word leaves the hash. */
  method ClearCells(t: seq<bv32>, tt: Table, ts: int, put: Put, vec: seq<Point>,
                    bits: seq<bool>, field: seq<int>, hash: bv32)
    returns (bits': seq<bool>, field': seq<int>, hash': bv32)
    requires IsTable(t) && tt.Valid() && tt.built && IsOrientation(ts)
    requires |bits| == CellCount && |field| == CellCount
    requires CoverInside(put, vec) && 1 <= |vec| <= 16
    requires forall a, c | 0 <= a < c < |vec| :: To1d(Cell(put, vec[a])) != To1d(Cell(put, vec[c]))
    requires forall m | 0 <= m < |vec| :: bits[To1d(Cell(put, vec[m]))] && field[To1d(Cell(put, vec[m]))] == put.id
    ensures |bits'| == CellCount && |field'| == CellCount
    ensures forall k | 0 <= k < CellCount :: bits'[k] == (bits[k] && !Covers(put, vec, k))
    ensures forall k | 0 <= k < CellCount :: field'[k] == if Covers(put, vec, k) then 0 else field[k]
    ensures hash' == hash ^ XorWords(t, HashCells(ts, put, vec))
  {
    bits', field', hash' := bits, field, hash;
    var size := |vec|;
    for m := 0 to size
      invariant Painted(put, vec, m, bits, field, false, 0, bits', field')
      invariant hash' == hash ^ XorWords(t, HashCells(ts, put, vec[..m]))
    {
      var p := Cell(put, vec[m]);
      PaintedStep(put, vec, m, bits, field, false, 0, bits', field');
      field' := field'[To1d(p) := 0];
      bits' := bits'[To1d(p) := false];
      var q := tt.Lookup(ts, 0, p);
      HashCellsStep(t, ts, put, vec, m);
      CellWordGet(t, q, size);
      hash' := hash' ^ Get(t, q.x, q.y, size);
    }
    assert vec[..size] == vec;
    PaintedAll(put, vec, bits, field, false, 0, bits', field');
  }

  /** The first n covered cells hold bit `on` and value v; every other cell is as before. */
  ghost predicate Painted(put: Put, vec: seq<Point>, n: int, bits: seq<bool>, field: seq<int>, on: bool, v: int,
                          bits': seq<bool>, field': seq<int>)
    requires 0 <= n <= |vec|
  {
    && CoverInside(put, vec[..n])
    && |bits| == CellCount && |field| == CellCount && |bits'| == CellCount && |field'| == CellCount
    && forall k | 0 <= k < CellCount ::
         && bits'[k] == (if Covers(put, vec[..n], k) then on else bits[k])
         && field'[k] == (if Covers(put, vec[..n], k) then v else field[k])
  }

  /** Writing the next covered cell extends what is painted by one cell. */
  lemma PaintedStep(put: Put, vec: seq<Point>, m: int, bits: seq<bool>, field: seq<int>, on: bool, v: int,
                    bits': seq<bool>, field': seq<int>)
    requires CoverInside(put, vec) && 0 <= m < |vec|
    requires Painted(put, vec, m, bits, field, on, v, bits', field')
    ensures var c := To1d(Cell(put, vec[m]));
      Painted(put, vec, m + 1, bits, field, on, v, bits'[c := on], field'[c := v])
  {
    CoversStep(put, vec, m);
  }

  /** Once every covered cell is written, the covered cells are exactly those of the whole offset list. */
  lemma PaintedAll(put: Put, vec: seq<Point>, bits: seq<bool>, field: seq<int>, on: bool, v: int,
                   bits': seq<bool>, field': seq<int>)
    requires CoverInside(put, vec) && Painted(put, vec, |vec|, bits, field, on, v, bits', field')
    ensures |bits'| == CellCount && |field'| == CellCount
    ensures forall k | 0 <= k < CellCount :: bits'[k] == (if Covers(put, vec, k) then on else bits[k])
    ensures forall k | 0 <= k < CellCount :: field'[k] == (if Covers(put, vec, k) then v else field[k])
  {
    assert vec[..|vec|] == vec;
  }

  /** With distinct cells, cell m is not among the first m. */
  lemma CoversFresh(put: Put, vec: seq<Point>, m: int)
    requires CoverInside(put, vec) && 0 <= m < |vec|
    requires forall a, c | 0 <= a < c < |vec| :: To1d(Cell(put, vec[a])) != To1d(Cell(put, vec[c]))
    ensures CoverInside(put, vec[..m]) && !Covers(put, vec[..m], To1d(Cell(put, vec[m])))
  {
    assert CoverInside(put, vec[..m]);
  }

  /** The cells of one put are pairwise different. */
  lemma CoverDistinctCells(env: Env, put: Put)
    requires WfEnv(env) && 0 <= put.id < |env.rules.vectors| && IsOrientation(put.r)
    requires CoverInside(put, Vec(env, put.id, put.r))
    ensures forall a, c | 0 <= a < c < |Vec(env, put.id, put.r)| ::
      To1d(Cell(put, Vec(env, put.id, put.r)[a])) != To1d(Cell(put, Vec(env, put.id, put.r)[c]))
  {
    var vec := Vec(env, put.id, put.r);
    assert OffsetList(vec);
    forall a, c | 0 <= a < c < |vec|
      ensures To1d(Cell(put, vec[a])) != To1d(Cell(put, vec[c]))
    {
      assert Less(vec[a], vec[c]);
      To1dInjective(Cell(put, vec[a]), Cell(put, vec[c]));
    }
  }

  /** Covering one more offset adds exactly its cell. */
  lemma CoversStep(put: Put, vec: seq<Point>, m: int)
    requires CoverInside(put, vec) && 0 <= m < |vec|
    ensures CoverInside(put, vec[..m]) && CoverInside(put, vec[..m + 1])
    ensures forall k :: Covers(put, vec[..m + 1], k) <==> Covers(put, vec[..m], k) || k == To1d(Cell(put, vec[m]))
  {
    forall k
      ensures Covers(put, vec[..m + 1], k) <==> Covers(put, vec[..m], k) || k == To1d(Cell(put, vec[m]))
    {
      if Covers(put, vec[..m + 1], k) {
        var i :| 0 <= i < m + 1 && To1d(Cell(put, vec[..m + 1][i])) == k;
        if i < m {
          assert vec[..m][i] == vec[..m + 1][i];
        }
      }
      if Covers(put, vec[..m], k) {
        var i :| 0 <= i < m && To1d(Cell(put, vec[..m][i])) == k;
        assert vec[..m + 1][i] == vec[..m][i];
      }
      if k == To1d(Cell(put, vec[m])) {
        assert vec[..m + 1][m] == vec[m];
      }
    }
  }

  /** One more (cell, direction) pair in the min_around_id loop. */
  lemma MinStep(b: Board, put: Put, vec: seq<Point>, m: int, d: int, v: int, v': int)
    requires Shaped(b) && 0 <= m < |vec| && 0 <= d < 4 && put.id <= 255
    requires MinUpTo(b, put, vec, 4 * m + d, v)
    requires v' == if LowerAround(b, put, vec, m, d)
      then (if b.field[To1d(Neighbour(Cell(put, vec[m]), d))] < v then b.field[To1d(Neighbour(Cell(put, vec[m]), d))] else v)
      else v
    ensures MinUpTo(b, put, vec, 4 * m + d + 1, v')
  {
    LowIdsStep(b, put, vec, m, d);
    if LowerAround(b, put, vec, m, d) {
      var f := b.field[To1d(Neighbour(Cell(put, vec[m]), d))];
      assert f < 255;
      MinOfAdd(LowIds(b, put, vec, 4 * m + d), v, f);
    }
  }

  /** Pair (m, d) adds its neighbour's id to the ids seen when that neighbour is lower. */
  lemma LowIdsStep(b: Board, put: Put, vec: seq<Point>, m: int, d: int)
    requires Shaped(b) && 0 <= m < |vec| && 0 <= d < 4
    ensures LowIds(b, put, vec, 4 * m + d + 1) == LowIds(b, put, vec, 4 * m + d)
      + (if LowerAround(b, put, vec, m, d) then {b.field[To1d(Neighbour(Cell(put, vec[m]), d))]} else {})
  {
    var c := 4 * m + d;
    forall x | x in LowIds(b, put, vec, c + 1)
      ensures x in LowIds(b, put, vec, c) || (LowerAround(b, put, vec, m, d) && x == b.field[To1d(Neighbour(Cell(put, vec[m]), d))])
    {
      var m', d' :| 0 <= m' < |vec| && 0 <= d' < 4 && 4 * m' + d' < c + 1 && LowerAround(b, put, vec, m', d')
        && x == b.field[To1d(Neighbour(Cell(put, vec[m']), d'))];
      if 4 * m' + d' == c {
        assert m' == m && d' == d;
      }
    }
  }

  /** Adding f below 255 to a set whose least element (or 255) is v gives min(f, v). */
  lemma MinOfAdd(s: set<int>, v: int, f: int)
    requires IsMinOf(s, v) && f < 255
    ensures IsMinOf(s + {f}, if f < v then f else v)
  {
  }
}
