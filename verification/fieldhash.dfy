/**
 * Zobrist-style hashing of the board: a fixed table of 32-bit words, one
 * per cell (the table has room for 16 words per cell, but the size
 * argument is masked out of the index), and the XOR of the words of the
 * occupied cells.
 */
module FieldHash {
  import opened Geometry

  const TableSize: int := 32 * 32 * 16

  /** The random table; its contents are arbitrary. */
  predicate IsTable(t: seq<bv32>) {
    |t| == TableSize
  }

  /** `y << 9 | x << 4`: the slot of cell (x, y); the four low bits, meant for the size, stay 0. */
  function Index(x: int, y: int): (i: int)
    requires 0 <= x < Size && 0 <= y < Size
    ensures 0 <= i < TableSize && i % 16 == 0
  {
    y * 512 + x * 16
  }

  /** Different cells use different slots. */
  lemma IndexInjective(x: int, y: int, x': int, y': int)
    requires 0 <= x < Size && 0 <= y < Size && 0 <= x' < Size && 0 <= y' < Size
    ensures Index(x, y) == Index(x', y') <==> x == x' && y == y'
  {
  }

  /** FieldHash::get. */
  function Get(t: seq<bv32>, x: int, y: int, s: int): bv32
    requires IsTable(t)
    requires 0 <= x < Size && 0 <= y < Size
    requires 1 <= s <= 16
  {
    t[Index(x, y)]
  }

  /** The word of a cell does not depend on the stone size passed with it. */
  lemma GetIgnoresSize(t: seq<bv32>, x: int, y: int, s: int, s': int)
    requires IsTable(t) && 0 <= x < Size && 0 <= y < Size
    requires 1 <= s <= 16 && 1 <= s' <= 16
    ensures Get(t, x, y, s) == Get(t, x, y, s')
  {
  }

  /** The word of the cell with packed index k. */
  function CellWord(t: seq<bv32>, k: int): bv32
    requires IsTable(t) && 0 <= k < CellCount
  {
    t[16 * k]
  }

  /** The word of a cell is the one get returns for it, whatever the size. */
  lemma CellWordGet(t: seq<bv32>, p: Point, s: int)
    requires IsTable(t) && InField(p) && 1 <= s <= 16
    ensures CellWord(t, To1d(p)) == Get(t, p.x, p.y, s)
  {
  }

  /** XOR of the words of the occupied cells among the first n. */
  function XorRange(t: seq<bv32>, occ: seq<bool>, n: nat): bv32
    requires IsTable(t) && n <= |occ| && n <= CellCount
  {
    if n == 0 then 0
    else XorRange(t, occ, n - 1) ^ (if occ[n - 1] then CellWord(t, n - 1) else 0)
  }

  /** The hash of an occupancy of the whole board. */
  function Hash(t: seq<bv32>, occ: seq<bool>): bv32
    requires IsTable(t) && |occ| == CellCount
  {
    XorRange(t, occ, CellCount)
  }

  /** The empty board hashes to 0. */
  lemma {:induction false} XorRangeEmpty(t: seq<bv32>, occ: seq<bool>, n: nat)
    requires IsTable(t) && n <= |occ| && n <= CellCount
    requires forall k | 0 <= k < n :: !occ[k]
    ensures XorRange(t, occ, n) == 0
  {
    if n > 0 {
      XorRangeEmpty(t, occ, n - 1);
    }
  }

  /** Flipping the occupancy of one cell XORs that cell's word into the hash. */
  lemma {:induction false} XorRangeToggle(t: seq<bv32>, occ: seq<bool>, k: int, n: nat)
    requires IsTable(t) && n <= |occ| && n <= CellCount && 0 <= k < |occ| && k < CellCount
    ensures XorRange(t, occ[k := !occ[k]], n)
         == XorRange(t, occ, n) ^ (if k < n then CellWord(t, k) else 0)
  {
    if n > 0 {
      XorRangeToggle(t, occ, k, n - 1);
    }
  }

  lemma HashToggle(t: seq<bv32>, occ: seq<bool>, k: int)
    requires IsTable(t) && |occ| == CellCount && 0 <= k < CellCount
    ensures Hash(t, occ[k := !occ[k]]) == Hash(t, occ) ^ CellWord(t, k)
  {
    XorRangeToggle(t, occ, k, CellCount);
  }
}
