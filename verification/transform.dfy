/**
 * The eight symmetries of the board (four rotations, each with or without a
 * mirror) and the 64 coordinate tables the solver precomputes for them.
 *
 * Orientation i is reached from orientation i - 1 by one step: a quarter turn,
 * preceded by a mirror when the new orientation is 0 or 4. Trans(from, to, p)
 * walks the steps from `from` back to `to`, which is what Transform::build
 * stores in trans_table_[from][to].
 */
module Transform {
  import opened Geometry

  /** The cell that rotate90 moves to p: (x, y) takes the value of (y, 31 - x). */
  function Rot(p: Point): Point
  {
    Point(p.y, Size - 1 - p.x)
  }

  /** The cell that the row-reversing flip moves to p. */
  function Mirror(p: Point): Point
  {
    Point(Size - 1 - p.x, p.y)
  }

  /** The step that arrives at orientation j (any integer standing for j mod 8). */
  function Step(j: int, p: Point): Point
  {
    if j % 4 == 0 then Rot(Mirror(p)) else Rot(p)
  }

  /** n steps backwards starting at orientation j. */
  function Steps(j: int, n: nat, p: Point): Point
    decreases n
  {
    if n == 0 then p else Steps(j - 1, n - 1, Step(j, p))
  }

  predicate IsOrientation(i: int) {
    0 <= i < 8
  }

  /** Number of steps from `from` back to `to`. */
  function Distance(from: int, to: int): (d: nat)
    requires IsOrientation(from) && IsOrientation(to)
    ensures d == (from - to + 8) % 8
  {
    if from >= to then from - to else from - to + 8
  }

  /** Transform::trans: where cell p of orientation `from` lies in orientation `to`. */
  function Trans(from: int, to: int, p: Point): (q: Point)
    requires IsOrientation(from) && IsOrientation(to)
    ensures InField(p) ==> InField(q)
  {
    if InField(p) then StepsInField(from, Distance(from, to), p); Steps(from, Distance(from, to), p)
    else Steps(from, Distance(from, to), p)
  }

  lemma {:induction false} StepsInField(j: int, n: nat, p: Point)
    requires InField(p)
    ensures InField(Steps(j, n, p))
    decreases n
  {
    if n > 0 {
      StepsInField(j - 1, n - 1, Step(j, p));
    }
  }

  /** Steps depends on the starting orientation only modulo 4. */
  lemma {:induction false} StepsCongruent(j: int, k: int, n: nat, p: Point)
    requires (j - k) % 4 == 0
    ensures Steps(j, n, p) == Steps(k, n, p)
    decreases n
  {
    if n > 0 {
      StepCongruent(j, k, p);
      StepsCongruent(j - 1, k - 1, n - 1, Step(j, p));
    }
  }

  /** One step depends on the orientation only modulo 4. */
  lemma StepCongruent(j: int, k: int, p: Point)
    requires (j - k) % 4 == 0
    ensures Step(j, p) == Step(k, p) && (j - 1 - (k - 1)) % 4 == 0
  {
    var d := (j - k) / 4;
    assert j == k + 4 * d;
    assert j % 4 == k % 4;
  }

  lemma {:induction false} StepsSplit(j: int, n: nat, m: nat, p: Point)
    ensures Steps(j, n + m, p) == Steps(j - n, m, Steps(j, n, p))
    decreases n
  {
    if n > 0 {
      StepsSplit(j - 1, n - 1, m, Step(j, p));
    }
  }

  lemma {:induction false} FourSteps(j: int, p: Point)
    ensures Steps(j, 4, p) == Step(j - 3, Step(j - 2, Step(j - 1, Step(j, p))))
  {
    assert Steps(j, 4, p) == Steps(j - 1, 3, Step(j, p));
    assert Steps(j - 1, 3, Step(j, p)) == Steps(j - 2, 2, Step(j - 1, Step(j, p)));
    assert Steps(j - 2, 2, Step(j - 1, Step(j, p)))
        == Steps(j - 3, 1, Step(j - 2, Step(j - 1, Step(j, p))));
  }

  /** Four steps from orientation j are a reflection of the board, so eight steps are the identity. */
  lemma {:induction false} FourStepsReflect(j: int, p: Point)
    ensures Steps(j - 4, 4, Steps(j, 4, p)) == p
  {
    var m := j % 4;
    var q := Steps(j, 4, p);
    StepsCongruent(j, m + 4, 4, p);
    StepsCongruent(j - 4, m, 4, q);
    ReflectFrom(m, p);
  }

  /** FourStepsReflect for orientations 4 .. 7. */
  lemma {:induction false} ReflectFrom(m: int, p: Point)
    requires 0 <= m < 4
    ensures Steps(m, 4, Steps(m + 4, 4, p)) == p
  {
    if m == 0 {
      ReflectAt(0, p, Point(Size - 1 - p.x, p.y));
    } else if m == 1 {
      ReflectAt(1, p, Point(p.x, Size - 1 - p.y));
    } else if m == 2 {
      ReflectAt(2, p, Point(Size - 1 - p.x, p.y));
    } else {
      ReflectAt(3, p, Point(p.x, Size - 1 - p.y));
    }
  }

  /** Four steps from orientation m + 4 take p to its mirror image q, and four more bring it back. */
  lemma {:induction false} ReflectAt(m: int, p: Point, q: Point)
    requires 0 <= m < 4
    requires q == if m % 2 == 0 then Point(Size - 1 - p.x, p.y) else Point(p.x, Size - 1 - p.y)
    ensures Steps(m + 4, 4, p) == q && Steps(m, 4, q) == p
  {
    FourSteps(m + 4, p);
    FourSteps(m, q);
  }

  /** The eight steps of one full turn compose to the identity. */
  lemma {:induction false} FullCycle(j: int, p: Point)
    ensures Steps(j, 8, p) == p
  {
    StepsSplit(j, 4, 4, p);
    FourStepsReflect(j, p);
  }

  lemma TransIdentity(i: int, p: Point)
    requires IsOrientation(i)
    ensures Trans(i, i, p) == p
  {
  }

  /** Going from a to b and then from b to c is going from a to c. */
  lemma TransCompose(a: int, b: int, c: int, p: Point)
    requires IsOrientation(a) && IsOrientation(b) && IsOrientation(c)
    ensures Trans(b, c, Trans(a, b, p)) == Trans(a, c, p)
  {
    var dab, dbc, dac := Distance(a, b), Distance(b, c), Distance(a, c);
    assert a - dab == b || a - dab == b - 8;
    assert dab + dbc == dac || dab + dbc == dac + 8;
    StepsCompose(a, b, dab, dbc, dac, p);
  }

  /**
   * n steps from a land on orientation b (up to a full turn); m more steps
   * from there are the d steps from a, up to one full turn.
   */
  lemma StepsCompose(a: int, b: int, n: nat, m: nat, d: nat, p: Point)
    requires a - n == b || a - n == b - 8
    requires n + m == d || n + m == d + 8
    ensures Steps(b, m, Steps(a, n, p)) == Steps(a, d, p)
  {
    StepsSplit(a, n, m, p);
    assert (a - n - b) % 4 == 0;
    StepsCongruent(a - n, b, m, Steps(a, n, p));
    if n + m != d {
      StepsFullTurn(a, d, p);
    }
  }

  /** A full turn more changes nothing. */
  lemma StepsFullTurn(a: int, d: nat, p: Point)
    ensures Steps(a, d + 8, p) == Steps(a, d, p)
  {
    StepsSplit(a, 8, d, p);
    FullCycle(a, p);
    StepsCongruent(a - 8, a, d, p);
  }

  /** For fixed orientations, Trans is a bijection of the board onto itself. */
  lemma TransBijective(from: int, to: int)
    requires IsOrientation(from) && IsOrientation(to)
    ensures forall p | InField(p) :: InField(Trans(from, to, p))
    ensures forall p | InField(p) :: Trans(to, from, Trans(from, to, p)) == p
    ensures forall p, q | InField(p) && InField(q) ::
      Trans(from, to, p) == Trans(from, to, q) ==> p == q
    ensures forall q | InField(q) :: exists p :: InField(p) && Trans(from, to, p) == q
  {
    forall p | InField(p)
      ensures InField(Trans(from, to, p)) && Trans(to, from, Trans(from, to, p)) == p
    {
      TransCompose(from, to, from, p);
    }
    forall q | InField(q)
      ensures InField(Trans(to, from, q)) && Trans(from, to, Trans(to, from, q)) == q
    {
      TransCompose(to, from, to, q);
    }
  }

  /** A 32x32 grid of packed cells, copied by value like solver.cpp's nested std::array. */
  type Grid = seq<seq<int>>

  predicate IsGrid(s: Grid) {
    |s| == Size && forall y | 0 <= y < Size :: |s[y]| == Size
  }

  /** The static table of Transform, filled once by Build. */
  class Table {
    /** table[from, to][y][x] is the packed cell that (x, y) of `from` becomes in `to`. */
    const table: array2<Grid>
    var built: bool

    ghost predicate Shaped()
      reads this
    {
      table.Length0 == 8 && table.Length1 == 8
    }

    /** The table from `from` to `to` holds Trans. */
    ghost predicate Filled(from: int, to: int)
      reads this, table
      requires Shaped() && IsOrientation(from) && IsOrientation(to)
    {
      && IsGrid(table[from, to])
      && forall y, x | 0 <= y < Size && 0 <= x < Size ::
          table[from, to][y][x] == To1d(Trans(from, to, Point(x, y)))
    }

    ghost predicate Valid()
      reads this, table
    {
      && Shaped()
      && (built ==> forall from, to | IsOrientation(from) && IsOrientation(to) :: Filled(from, to))
    }

    constructor ()
      ensures Valid() && !built && fresh(table)
    {
      table := new Grid[8, 8];
      built := false;
    }

    /** Transform::trans: a lookup in the built table. */
    function Lookup(from: int, to: int, p: Point): (q: Point)
      reads this, table
      requires Valid() && built
      requires IsOrientation(from) && IsOrientation(to) && InField(p)
      ensures InField(q) && q == Trans(from, to, p)
    {
      assert Filled(from, to);
      From1dTo1d(Trans(from, to, p));
      From1d(table[from, to][p.y][p.x])
    }

    /** Transform::build: fills all 64 tables by rotating and flipping a grid. */
    method Build()
      requires Valid()
      modifies this, table
      ensures Valid() && built
    {
      if built {
        return;
      }
      built := true;
      var origin := new int[Size, Size];
      for y := 0 to Size
        modifies origin
        invariant forall y', x | 0 <= y' < y && 0 <= x < Size :: origin[y', x] == To1d(Point(x, y'))
      {
        for x := 0 to Size
          modifies origin
          invariant forall y', x' | 0 <= y' < y && 0 <= x' < Size :: origin[y', x'] == To1d(Point(x', y'))
          invariant forall x' | 0 <= x' < x :: origin[y, x'] == To1d(Point(x', y))
        {
          origin[y, x] := y * Size + x;
        }
      }
      for i := 0 to 8
        modifies table
        invariant Saved(i, 0)
      {
        var g := Copy(origin);
        assert HoldsTrans(g, i, i);
        SaveAllFrom(g, i);
      }
    }

    /** Every table towards an orientation below i, and the first k towards i, is filled. */
    ghost predicate Saved(i: int, k: int)
      reads this, table
      requires Shaped()
    {
      && built
      && forall from, to | IsOrientation(from) && IsOrientation(to)
          && (to < i || (to == i && Distance(from, to) < k)) :: Filled(from, to)
    }

    /** One pass of the outer loop of Transform::build: every table towards orientation i. */
    method SaveAllFrom(g: array2<int>, i: int)
      requires Shaped() && built && IsOrientation(i) && Saved(i, 0)
      requires HoldsTrans(g, i, i)
      modifies g, table
      ensures Saved(i + 1, 0)
    {
      SaveNext(g, i, i, 0);
      var j := i;
      for k := 1 to 8
        invariant IsOrientation(j) && Distance(j, i) == k - 1
        invariant HoldsTrans(g, j, i)
        invariant Saved(i, k)
      {
        NextOrientation(i, k, j);
        j := (j + 1) % 8;
        Advance(g, j, i);
        SaveNext(g, j, i, k);
      }
    }

    /** Saving the table from j to i, k steps away, extends Saved by one table. */
    method SaveNext(g: array2<int>, j: int, i: int, k: int)
      requires Shaped() && IsOrientation(j) && IsOrientation(i) && 0 <= k < 8 && Distance(j, i) == k
      requires Saved(i, k) && HoldsTrans(g, j, i)
      modifies table
      ensures Saved(i, k + 1)
    {
      label before:
      Save(g, j, i);
      forall from, to | IsOrientation(from) && IsOrientation(to)
        && (to < i || (to == i && Distance(from, to) < k + 1))
        ensures Filled(from, to)
      {
        if from != j || to != i {
          assert old@before(Filled(from, to));
          assert table[from, to] == old@before(table[from, to]);
        }
      }
    }

    /** The save lambda of Transform::build: stores a copy of the grid. */
    method Save(g: array2<int>, from: int, to: int)
      requires Shaped() && IsOrientation(from) && IsOrientation(to)
      requires HoldsTrans(g, from, to)
      modifies table
      ensures Filled(from, to)
      ensures forall f, t | IsOrientation(f) && IsOrientation(t) && (f != from || t != to) ::
        table[f, t] == old(table[f, t])
    {
      var s := Snapshot(g);
      table[from, to] := s;
    }
  }

  /** The orientation after prev, which is k - 1 steps from i, is k steps from i. */
  lemma NextOrientation(i: int, k: int, prev: int)
    requires IsOrientation(i) && IsOrientation(prev) && 1 <= k < 8 && Distance(prev, i) == k - 1
    ensures var j := (prev + 1) % 8; IsOrientation(j) && prev == (j + 7) % 8 && Distance(j, i) == k
  {
  }

  /** The value of a 32x32 array. */
  method Snapshot(g: array2<int>) returns (s: Grid)
    requires g.Length0 == Size && g.Length1 == Size
    ensures IsGrid(s)
    ensures forall y, x | 0 <= y < Size && 0 <= x < Size :: s[y][x] == g[y, x]
  {
    s := [];
    for y := 0 to Size
      invariant |s| == y
      invariant forall y' | 0 <= y' < y :: |s[y']| == Size
      invariant forall y', x | 0 <= y' < y && 0 <= x < Size :: s[y'][x] == g[y', x]
    {
      var row := [];
      for x := 0 to Size
        invariant |row| == x
        invariant forall x' | 0 <= x' < x :: row[x'] == g[y, x']
      {
        row := row + [g[y, x]];
      }
      s := s + [row];
    }
  }

  /** The packed cell that p of orientation j becomes in orientation i. */
  ghost function Entry(j: int, i: int, p: Point): int
    requires IsOrientation(j) && IsOrientation(i) && InField(p)
  {
    To1d(Trans(j, i, p))
  }

  /** The grid holds, at each cell, the packed cell it becomes from orientation j to i. */
  ghost predicate HoldsTrans(g: array2<int>, j: int, i: int)
    reads g
    requires IsOrientation(j) && IsOrientation(i)
  {
    && g.Length0 == Size && g.Length1 == Size
    && forall y, x | 0 <= y < Size && 0 <= x < Size :: g[y, x] == Entry(j, i, Point(x, y))
  }

  /** Orientation j is one step away from the orientation before it. */
  lemma TransUnfold(j: int, i: int, p: Point)
    requires IsOrientation(j) && IsOrientation(i) && j != i
    ensures Trans(j, i, p) == Trans((j + 7) % 8, i, Step(j, p))
  {
    assert Distance(j, i) == Distance((j + 7) % 8, i) + 1;
    StepsCongruent(j - 1, (j + 7) % 8, Distance(j, i) - 1, Step(j, p));
  }

  /** The grid holds, at each cell p, the packed cell that `f(p)` becomes from orientation j to i. */
  ghost predicate HoldsStepped(g: array2<int>, j: int, i: int, mirrored: bool)
    reads g
    requires IsOrientation(j) && IsOrientation(i)
  {
    && g.Length0 == Size && g.Length1 == Size
    && forall y, x | 0 <= y < Size && 0 <= x < Size ::
        g[y, x] == Entry(j, i, Turn(mirrored, Point(x, y)))
  }

  /** The cell a rotation (after a flip, when mirrored) moves to p. */
  function Turn(mirrored: bool, p: Point): Point {
    if mirrored then Rot(Mirror(p)) else Rot(p)
  }

  /** One inner step of Transform::build: rotate, and flip when arriving at 0 or 4. */
  method Advance(g: array2<int>, j: int, i: int)
    requires IsOrientation(j) && IsOrientation(i) && j != i
    requires HoldsTrans(g, (j + 7) % 8, i)
    modifies g
    ensures HoldsTrans(g, j, i)
  {
    RotateHolds(g, (j + 7) % 8, i);
    if j % 4 == 0 {
      FlipHolds(g, (j + 7) % 8, i);
    }
    SteppedIsTrans(g, j, i);
  }

  /** A grid rotated (and flipped on arrival at 0 or 4) from the entry before j holds the entry from j. */
  lemma SteppedIsTrans(g: array2<int>, j: int, i: int)
    requires IsOrientation(j) && IsOrientation(i) && j != i
    requires HoldsStepped(g, (j + 7) % 8, i, j % 4 == 0)
    ensures HoldsTrans(g, j, i)
  {
    forall y, x | 0 <= y < Size && 0 <= x < Size
      ensures g[y, x] == Entry(j, i, Point(x, y))
    {
      TransUnfold(j, i, Point(x, y));
    }
  }

  /** The rotation of an Advance step, applied to a grid that holds the table entry from j to i. */
  method RotateHolds(g: array2<int>, j: int, i: int)
    requires IsOrientation(j) && IsOrientation(i) && HoldsTrans(g, j, i)
    modifies g
    ensures HoldsStepped(g, j, i, false)
  {
    Rotate90(g);
    forall y, x | 0 <= y < Size && 0 <= x < Size
      ensures g[y, x] == Entry(j, i, Turn(false, Point(x, y)))
    {
      RotCell(j, i, x, y, old(g[Size - 1 - x, y]));
    }
  }

  /** The entry the rotation brings to (x, y) is the one for the rotated point. */
  lemma RotCell(j: int, i: int, x: int, y: int, a: int)
    requires IsOrientation(j) && IsOrientation(i) && 0 <= y < Size && 0 <= x < Size
    requires a == Entry(j, i, Point(y, Size - 1 - x))
    ensures a == Entry(j, i, Turn(false, Point(x, y)))
  {
  }

  /** The entry the flip brings to (x, y) is the one for the mirrored point, rotated. */
  lemma MirrorCell(j: int, i: int, x: int, y: int, a: int)
    requires IsOrientation(j) && IsOrientation(i) && 0 <= y < Size && 0 <= x < Size
    requires a == Entry(j, i, Turn(false, Point(Size - 1 - x, y)))
    ensures a == Entry(j, i, Turn(true, Point(x, y)))
  {
  }

  /** The flip of an Advance step, applied after its rotation. */
  method FlipHolds(g: array2<int>, j: int, i: int)
    requires IsOrientation(j) && IsOrientation(i) && HoldsStepped(g, j, i, false)
    modifies g
    ensures HoldsStepped(g, j, i, true)
  {
    Flip(g, true);
    forall y, x | 0 <= y < Size && 0 <= x < Size
      ensures g[y, x] == Entry(j, i, Turn(true, Point(x, y)))
    {
      MirrorCell(j, i, x, y, old(g[y, Size - 1 - x]));
    }
  }

  method Copy(a: array2<int>) returns (b: array2<int>)
    requires a.Length0 == Size && a.Length1 == Size
    ensures fresh(b) && b.Length0 == Size && b.Length1 == Size
    ensures forall y, x | 0 <= y < Size && 0 <= x < Size :: b[y, x] == a[y, x]
  {
    b := new int[Size, Size];
    for y := 0 to Size
      invariant forall y', x | 0 <= y' < y && 0 <= x < Size :: b[y', x] == a[y', x]
    {
      for x := 0 to Size
        invariant forall y', x' | 0 <= y' < y && 0 <= x' < Size :: b[y', x'] == a[y', x']
        invariant forall x' | 0 <= x' < x :: b[y, x'] == a[y, x']
      {
        b[y, x] := a[y, x];
      }
    }
  }

  /** The flip lambda: reverses every row, or (when not horizontal) the order of the rows. */
  method Flip(f: array2<int>, horizontal: bool)
    requires f.Length0 == Size && f.Length1 == Size
    modifies f
    ensures horizontal ==> forall y, x | 0 <= y < Size && 0 <= x < Size :: f[y, x] == old(f[y, Size - 1 - x])
    ensures !horizontal ==> forall y, x | 0 <= y < Size && 0 <= x < Size :: f[y, x] == old(f[Size - 1 - y, x])
  {
    if horizontal {
      for i := 0 to Size
        invariant forall y, x | 0 <= y < i && 0 <= x < Size :: f[y, x] == old(f[y, Size - 1 - x])
        invariant forall y, x | i <= y < Size && 0 <= x < Size :: f[y, x] == old(f[y, x])
      {
        ReverseRow(f, i);
      }
    } else {
      for i := 0 to Size / 2
        invariant forall y, x | (0 <= y < i || Size - 1 - i < y < Size) && 0 <= x < Size ::
          f[y, x] == old(f[Size - 1 - y, x])
        invariant forall y, x | i <= y <= Size - 1 - i && 0 <= x < Size :: f[y, x] == old(f[y, x])
      {
        SwapRows(f, i, Size - 1 - i);
      }
    }
  }

  /** std::reverse of row i. */
  method ReverseRow(f: array2<int>, i: int)
    requires f.Length0 == Size && f.Length1 == Size && 0 <= i < Size
    modifies f
    ensures forall x | 0 <= x < Size :: f[i, x] == old(f[i, Size - 1 - x])
    ensures forall y, x | 0 <= y < Size && y != i && 0 <= x < Size :: f[y, x] == old(f[y, x])
  {
    for l := 0 to Size / 2
      invariant forall y, x | 0 <= y < Size && y != i && 0 <= x < Size :: f[y, x] == old(f[y, x])
      invariant forall x | 0 <= x < l || Size - 1 - l < x < Size :: f[i, x] == old(f[i, Size - 1 - x])
      invariant forall x | l <= x <= Size - 1 - l :: f[i, x] == old(f[i, x])
    {
      f[i, l], f[i, Size - 1 - l] := f[i, Size - 1 - l], f[i, l];
    }
  }

  /** std::swap of rows a and c, element by element. */
  method SwapRows(f: array2<int>, a: int, c: int)
    requires f.Length0 == Size && f.Length1 == Size && 0 <= a < c < Size
    modifies f
    ensures forall x | 0 <= x < Size :: f[a, x] == old(f[c, x]) && f[c, x] == old(f[a, x])
    ensures forall y, x | 0 <= y < Size && y != a && y != c && 0 <= x < Size :: f[y, x] == old(f[y, x])
  {
    for x := 0 to Size
      invariant forall y, x' | 0 <= y < Size && y != a && y != c && 0 <= x' < Size :: f[y, x'] == old(f[y, x'])
      invariant forall x' | 0 <= x' < x :: f[a, x'] == old(f[c, x']) && f[c, x'] == old(f[a, x'])
      invariant forall x' | x <= x' < Size :: f[a, x'] == old(f[a, x']) && f[c, x'] == old(f[c, x'])
    {
      f[a, x], f[c, x] := f[c, x], f[a, x];
    }
  }

  /** The in-place transposition inside rotate90. */
  method Transpose(f: array2<int>)
    requires f.Length0 == Size && f.Length1 == Size
    modifies f
    ensures forall y, x | 0 <= y < Size && 0 <= x < Size :: f[y, x] == old(f[x, y])
  {
    for i := 0 to Size
      invariant forall y, x | 0 <= y < Size && 0 <= x < Size ::
        f[y, x] == if y < i || x < i then old(f[x, y]) else old(f[y, x])
    {
      for j := i to Size
        invariant forall y, x | 0 <= y < Size && 0 <= x < Size ::
          f[y, x] == if y < i || x < i || (y == i && x < j) || (x == i && y < j)
                     then old(f[x, y]) else old(f[y, x])
      {
        f[i, j], f[j, i] := f[j, i], f[i, j];
      }
    }
  }

  /** rotate90: transpose, then reverse every row; (x, y) takes the value of (y, 31 - x). */
  method Rotate90(f: array2<int>)
    requires f.Length0 == Size && f.Length1 == Size
    modifies f
    ensures forall y, x | 0 <= y < Size && 0 <= x < Size ::
      f[y, x] == old(f[Size - 1 - x, y])
  {
    Transpose(f);
    Flip(f, true);
  }
}
