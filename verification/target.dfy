/**
 * getNextTargetPos: the free cells of a state are split into 4-connected
 * areas, numbered in the raster order of their first cell; the smallest
 * area (ties broken by number) is chosen, and the target is its first cell
 * in raster order that has a stone beside it.
 */
module Target {
  import opened Geometry
  import opened Transform
  import opened States

  /* ---------------------------------------------------------------------- */
  /* Cells, neighbours and paths                                             */
  /* ---------------------------------------------------------------------- */

  /** GameState::isEmpty of every packed cell, as read by the search below. */
  function FreeCells(env: Env, b: Board): (free: seq<bool>)
    requires WfEnv(env) && Shaped(b)
    ensures |free| == CellCount
    ensures forall c | 0 <= c < CellCount :: free[c] == IsEmpty(env, b, From1d(c))
  {
    seq(CellCount, c requires 0 <= c < CellCount => IsEmpty(env, b, From1d(c)))
  }

  /**
   * When the obstacle board of the current orientation is that of
   * orientation 0 turned (as g.init builds it), the cell where q of
   * orientation 0 now lies is free exactly when q is neither occupied nor
   * an obstacle in orientation 0.
   */
  lemma FreeCellsOcc0(env: Env, b: Board, q: Point)
    requires WfEnv(env) && Shaped(b) && InField(q)
    requires forall p | InField(p) ::
      env.rules.defaultField[b.transState][To1d(p)] == env.rules.defaultField[0][To1d(Trans(b.transState, 0, p))]
    ensures InField(Trans(0, b.transState, q))
    ensures FreeCells(env, b)[To1d(Trans(0, b.transState, q))]
         == (!Occ0(b)[To1d(q)] && env.rules.defaultField[0][To1d(q)] == 0)
  {
    var ts := b.transState;
    var p := Trans(0, ts, q);
    TransCompose(0, ts, 0, q);
    TransIdentity(0, q);
    assert Trans(ts, 0, p) == q;
    From1dTo1d(p);
    From1dTo1d(q);
    assert Occ0(b)[To1d(q)] == b.bits[To1d(p)];
    assert env.rules.defaultField[ts][To1d(p)] == env.rules.defaultField[0][To1d(q)];
  }

  /** The packed cell beside c in direction r, or -1 when that is off the board. */
  function Next(c: int, r: int): (d: int)
    requires 0 <= c < CellCount && 0 <= r < 4
    ensures -1 <= d < CellCount && d != c
  {
    var n := Neighbour(From1d(c), r);
    if InField(n) then To1d(n) else -1
  }

  /** Going back the opposite way returns to c. */
  lemma NextBack(c: int, r: int)
    requires 0 <= c < CellCount && 0 <= r < 4 && Next(c, r) >= 0
    ensures Next(Next(c, r), (r + 2) % 4) == c
  {
    var n := Neighbour(From1d(c), r);
    From1dTo1d(n);
  }

  /** d lies beside c. */
  predicate Beside(c: int, d: int)
    requires 0 <= c < CellCount
  {
    exists r | 0 <= r < 4 :: Next(c, r) == d
  }

  /** Step i of a walk goes to a cell beside the one before. */
  predicate Linked(ps: seq<int>, i: int)
    requires 0 <= i < |ps| - 1 && 0 <= ps[i] < CellCount
  {
    Beside(ps[i], ps[i + 1])
  }

  /** A walk through free cells, each step to a cell beside the last. */
  ghost predicate IsPath(free: seq<bool>, ps: seq<int>)
    requires |free| == CellCount
  {
    && |ps| >= 1
    && (forall i | 0 <= i < |ps| :: 0 <= ps[i] < CellCount && free[ps[i]])
    && (forall i | 0 <= i < |ps| - 1 :: Linked(ps, i))
  }

  /** d can be reached from c through free cells. */
  ghost predicate Reach(free: seq<bool>, c: int, d: int)
    requires |free| == CellCount
  {
    exists ps {:trigger IsPath(free, ps)} :: IsPath(free, ps) && ps[0] == c && ps[|ps| - 1] == d
  }

  lemma ReachSelf(free: seq<bool>, c: int)
    requires |free| == CellCount && 0 <= c < CellCount && free[c]
    ensures Reach(free, c, c)
  {
    assert IsPath(free, [c]);
  }

  lemma ReachStep(free: seq<bool>, s: int, c: int, r: int)
    requires |free| == CellCount && 0 <= c < CellCount && 0 <= r < 4
    requires Reach(free, s, c) && Next(c, r) >= 0 && free[Next(c, r)]
    ensures Reach(free, s, Next(c, r))
  {
    var ps :| IsPath(free, ps) && ps[0] == s && ps[|ps| - 1] == c;
    var qs := ps + [Next(c, r)];
    assert Linked(qs, |ps| - 1);
    forall i | 0 <= i < |qs| - 1
      ensures Linked(qs, i)
    {
      if i < |ps| - 1 {
        assert Linked(ps, i);
      }
    }
    assert IsPath(free, qs);
  }

  /* ---------------------------------------------------------------------- */
  /* The numbering of the free areas                                         */
  /* ---------------------------------------------------------------------- */

  /** The cells carrying number l. */
  function LabelSet(f: seq<int>, l: int): set<int>
    requires |f| == CellCount
  {
    set c | 0 <= c < CellCount && f[c] == l
  }

  /** The free neighbours of c carry c's number. */
  ghost predicate ClosedAt(free: seq<bool>, f: seq<int>, c: int)
    requires |free| == CellCount && |f| == CellCount && 0 <= c < CellCount
  {
    forall r | 0 <= r < 4 :: Next(c, r) >= 0 && free[Next(c, r)] ==> f[Next(c, r)] == f[c]
  }

  /** Numbers run from 0 (not free) to count, and only free cells are numbered. */
  ghost predicate Numbered(free: seq<bool>, f: seq<int>, count: int)
    requires |free| == CellCount
  {
    && |f| == CellCount
    && forall c | 0 <= c < CellCount :: 0 <= f[c] <= count && (f[c] != 0 ==> free[c])
  }

  /** Every numbered cell is reached from the first cell of its area. */
  ghost predicate Rooted(free: seq<bool>, f: seq<int>, seeds: seq<int>)
    requires |free| == CellCount && Numbered(free, f, |seeds|)
  {
    forall c | 0 <= c < CellCount && f[c] != 0 :: Reach(free, seeds[f[c] - 1], c)
  }

  /** seeds[l] is the first cell numbered l + 1, and the seeds ascend. */
  ghost predicate Seeded(f: seq<int>, seeds: seq<int>)
    requires |f| == CellCount
  {
    && (forall l | 0 <= l < |seeds| ::
          && 0 <= seeds[l] < CellCount && f[seeds[l]] == l + 1
          && forall c | 0 <= c < seeds[l] :: f[c] != l + 1)
    && (forall l, l' | 0 <= l < l' < |seeds| :: seeds[l] < seeds[l'])
  }

  /** sizes[l] is the number of cells numbered l + 1. */
  ghost predicate Sized(f: seq<int>, sizes: seq<int>)
    requires |f| == CellCount
  {
    forall l {:trigger sizes[l]} | 0 <= l < |sizes| :: sizes[l] == |LabelSet(f, l + 1)|
  }

  /**
   * f numbers the 4-connected areas of free cells 1, 2, ... in the raster
   * order of their first cells, and sizes holds their cell counts.
   */
  ghost predicate Areas(free: seq<bool>, f: seq<int>, sizes: seq<int>, seeds: seq<int>)
    requires |free| == CellCount
  {
    && Numbered(free, f, |seeds|)
    && (forall c | 0 <= c < CellCount :: free[c] ==> f[c] != 0)
    && (forall c {:trigger ClosedAt(free, f, c)} | 0 <= c < CellCount && f[c] != 0 :: ClosedAt(free, f, c))
    && Rooted(free, f, seeds)
    && Seeded(f, seeds)
    && |sizes| == |seeds|
    && Sized(f, sizes)
  }

  /** A walk from a numbered cell stays inside its area. */
  lemma {:induction false} PathKeepsNumber(free: seq<bool>, f: seq<int>, ps: seq<int>)
    requires |free| == CellCount && |f| == CellCount
    requires forall c {:trigger ClosedAt(free, f, c)} | 0 <= c < CellCount && f[c] != 0 :: ClosedAt(free, f, c)
    requires IsPath(free, ps) && f[ps[0]] != 0
    ensures f[ps[|ps| - 1]] == f[ps[0]]
    decreases |ps|
  {
    if |ps| > 1 {
      var front := ps[..|ps| - 1];
      forall i | 0 <= i < |front| - 1
        ensures Linked(front, i)
      {
        assert Linked(ps, i);
      }
      assert IsPath(free, front);
      PathKeepsNumber(free, f, front);
      var c, d := ps[|ps| - 2], ps[|ps| - 1];
      assert Linked(ps, |ps| - 2);
      var r :| 0 <= r < 4 && Next(c, r) == d;
      assert ClosedAt(free, f, c);
    }
  }

  /** A walk read backwards is a walk. */
  lemma PathReverse(free: seq<bool>, ps: seq<int>) returns (back: seq<int>)
    requires |free| == CellCount && IsPath(free, ps)
    ensures IsPath(free, back) && back[0] == ps[|ps| - 1] && back[|back| - 1] == ps[0]
  {
    back := seq(|ps|, i requires 0 <= i < |ps| => ps[|ps| - 1 - i]);
    forall i | 0 <= i < |back| - 1
      ensures Linked(back, i)
    {
      var j := |ps| - 2 - i;
      assert back[i] == ps[j + 1] && back[i + 1] == ps[j];
      assert Linked(ps, j);
      BesideBack(ps[j], ps[j + 1]);
    }
  }

  /** Being beside is symmetric. */
  lemma BesideBack(c: int, d: int)
    requires 0 <= c < CellCount && 0 <= d < CellCount && Beside(c, d)
    ensures Beside(d, c)
  {
    var r :| 0 <= r < 4 && Next(c, r) == d;
    NextBack(c, r);
  }

  /** Two walks meeting end to start make one walk. */
  lemma PathJoin(free: seq<bool>, ps: seq<int>, qs: seq<int>) returns (walk: seq<int>)
    requires |free| == CellCount && IsPath(free, ps) && IsPath(free, qs) && ps[|ps| - 1] == qs[0]
    ensures IsPath(free, walk) && walk[0] == ps[0] && walk[|walk| - 1] == qs[|qs| - 1]
  {
    walk := ps + qs[1..];
    forall i | 0 <= i < |walk| - 1
      ensures Linked(walk, i)
    {
      if i >= |ps| - 1 {
        assert walk[i] == qs[i - |ps| + 1] && walk[i + 1] == qs[i - |ps| + 2];
        assert Linked(qs, i - |ps| + 1);
      } else {
        assert Linked(ps, i);
      }
    }
  }

  /** Two cells reached from the same cell reach each other. */
  lemma ReachShared(free: seq<bool>, s: int, c: int, d: int)
    requires |free| == CellCount && Reach(free, s, c) && Reach(free, s, d)
    ensures Reach(free, c, d)
  {
    var ps :| IsPath(free, ps) && ps[0] == s && ps[|ps| - 1] == c;
    var qs :| IsPath(free, qs) && qs[0] == s && qs[|qs| - 1] == d;
    var back := PathReverse(free, ps);
    var walk := PathJoin(free, back, qs);
  }

  /** The numbers are exactly the areas: two free cells share a number iff one reaches the other. */
  lemma AreasAreComponents(free: seq<bool>, f: seq<int>, sizes: seq<int>, seeds: seq<int>, c: int, d: int)
    requires |free| == CellCount && Areas(free, f, sizes, seeds)
    requires 0 <= c < CellCount && 0 <= d < CellCount && free[c] && free[d]
    ensures f[c] == f[d] <==> Reach(free, c, d)
  {
    if Reach(free, c, d) {
      var ps :| IsPath(free, ps) && ps[0] == c && ps[|ps| - 1] == d;
      PathKeepsNumber(free, f, ps);
    }
    if f[c] == f[d] {
      assert Reach(free, seeds[f[c] - 1], c) && Reach(free, seeds[f[d] - 1], d);
      ReachShared(free, seeds[f[c] - 1], c, d);
    }
  }

  /* ---------------------------------------------------------------------- */
  /* The flood fill                                                          */
  /* ---------------------------------------------------------------------- */

  function ZeroSet(f: seq<int>): set<int>
    requires |f| == CellCount
  {
    LabelSet(f, 0)
  }

  /** Numbering one more cell adds it to its area's set and takes it out of the unnumbered set. */
  lemma SetNumber(f: seq<int>, c: int, l: int)
    requires |f| == CellCount && 0 <= c < CellCount && f[c] == 0 && l != 0
    ensures |LabelSet(f[c := l], l)| == |LabelSet(f, l)| + 1
    ensures |ZeroSet(f[c := l])| == |ZeroSet(f)| - 1
    ensures forall l' | l' != l && l' != 0 :: LabelSet(f[c := l], l') == LabelSet(f, l')
  {
    assert LabelSet(f[c := l], l) == LabelSet(f, l) + {c};
    assert ZeroSet(f) == ZeroSet(f[c := l]) + {c};
  }

  /** Numbering an unnumbered cell keeps a numbered cell closed. */
  lemma ClosedKeep(free: seq<bool>, f: seq<int>, n: int, l: int, c: int)
    requires |free| == CellCount && |f| == CellCount && 0 <= n < CellCount && 0 <= c < CellCount
    requires f[n] == 0 && f[c] != 0 && ClosedAt(free, f, c)
    ensures ClosedAt(free, f[n := l], c)
  {
  }

  /**
   * The state of the breadth-first search from seed with number l: only
   * cells f0 left unnumbered got l, each of them reached from seed; the
   * queue holds cells numbered l; every numbered cell other than those in
   * the queue and the cell p being visited is closed; size counts the area.
   */
  ghost predicate FloodState(free: seq<bool>, f0: seq<int>, seed: int, l: int,
                             f: seq<int>, queue: seq<int>, size: int, p: int)
    requires |free| == CellCount && |f0| == CellCount && 0 <= seed < CellCount
  {
    && Numbered(free, f, l) && f[seed] == l
    && (forall c | 0 <= c < CellCount :: f0[c] != 0 ==> f[c] == f0[c])
    && (forall c | 0 <= c < CellCount :: f0[c] == 0 ==> f[c] == 0 || f[c] == l)
    && (forall c | 0 <= c < CellCount :: f[c] == l ==> f0[c] == 0 && Reach(free, seed, c))
    && (forall i | 0 <= i < |queue| :: 0 <= queue[i] < CellCount && f[queue[i]] == l)
    && (forall c {:trigger ClosedAt(free, f, c)} | 0 <= c < CellCount && f[c] != 0 && c !in queue && c != p ::
          ClosedAt(free, f, c))
    && size == |LabelSet(f, l)|
    && (forall l' | l' != l && l' != 0 :: LabelSet(f, l') == LabelSet(f0, l'))
  }

  /** The free neighbours of p in the first r directions are numbered l. */
  ghost predicate VisitedUpTo(free: seq<bool>, f: seq<int>, l: int, p: int, r: int)
    requires |free| == CellCount && |f| == CellCount && 0 <= p < CellCount
  {
    forall r' | 0 <= r' < r && r' < 4 :: Next(p, r') >= 0 && free[Next(p, r')] ==> f[Next(p, r')] == l
  }

  /** One direction of the visit of p: an unnumbered free neighbour is numbered and queued. */
  method VisitNeighbour(free: seq<bool>, f0: seq<int>, seed: int, l: int,
                        f: seq<int>, queue: seq<int>, size: int, p: int, r: int)
    returns (f': seq<int>, queue': seq<int>, size': int)
    requires |free| == CellCount && |f0| == CellCount && 0 <= seed < CellCount && l >= 1
    requires 0 <= p < CellCount && 0 <= r < 4 && |f| == CellCount && f[p] == l
    requires FloodState(free, f0, seed, l, f, queue, size, p) && VisitedUpTo(free, f, l, p, r)
    ensures FloodState(free, f0, seed, l, f', queue', size', p) && VisitedUpTo(free, f', l, p, r + 1)
    ensures f'[p] == l
    ensures 2 * |ZeroSet(f')| + |queue'| <= 2 * |ZeroSet(f)| + |queue|
  {
    var n := Next(p, r);
    if n >= 0 && f[n] == 0 && free[n] {
      ReachStep(free, seed, p, r);
      SetNumber(f, n, l);
      f' := f[n := l];
      size' := size + 1;
      queue' := queue + [n];
      forall c | 0 <= c < CellCount && f'[c] != 0 && c !in queue' && c != p
        ensures ClosedAt(free, f', c)
      {
        ClosedKeep(free, f, n, l, c);
      }
    } else {
      f', queue', size' := f, queue, size;
      if n >= 0 && free[n] && n !in queue {
        NextBack(p, r);
        assert ClosedAt(free, f, n);
      }
    }
  }

  /**
   * The breadth-first search from seed: every free cell that seed reaches
   * and that is not numbered yet gets number l.
   */
  method Flood(free: seq<bool>, f0: seq<int>, seed: int, l: int) returns (f: seq<int>, size: int)
    requires |free| == CellCount && Numbered(free, f0, l - 1) && l >= 1
    requires 0 <= seed < CellCount && free[seed] && f0[seed] == 0
    requires forall c {:trigger ClosedAt(free, f0, c)} | 0 <= c < CellCount && f0[c] != 0 :: ClosedAt(free, f0, c)
    ensures Numbered(free, f, l) && f[seed] == l
    ensures forall c | 0 <= c < CellCount :: f0[c] != 0 ==> f[c] == f0[c]
    ensures forall c | 0 <= c < CellCount :: f0[c] == 0 ==> f[c] == 0 || f[c] == l
    ensures forall c | 0 <= c < CellCount :: f[c] == l ==> f0[c] == 0 && Reach(free, seed, c)
    ensures forall c {:trigger ClosedAt(free, f, c)} | 0 <= c < CellCount && f[c] != 0 :: ClosedAt(free, f, c)
    ensures size == |LabelSet(f, l)|
    ensures forall l' | l' != l && l' != 0 :: LabelSet(f, l') == LabelSet(f0, l')
  {
    f := f0[seed := l];
    SetNumber(f0, seed, l);
    assert LabelSet(f0, l) == {};
    size := 1;
    ReachSelf(free, seed);
    var queue := [seed];
    forall c | 0 <= c < CellCount && f[c] != 0 && c !in queue
      ensures ClosedAt(free, f, c)
    {
      ClosedKeep(free, f0, seed, l, c);
    }
    while queue != []
      invariant FloodState(free, f0, seed, l, f, queue, size, -1)
      decreases 2 * |ZeroSet(f)| + |queue|
    {
      ghost var measure := 2 * |ZeroSet(f)| + |queue|;
      var p := queue[0];
      queue := queue[1..];
      for r := 0 to 4
        invariant FloodState(free, f0, seed, l, f, queue, size, p) && f[p] == l
        invariant VisitedUpTo(free, f, l, p, r)
        invariant 2 * |ZeroSet(f)| + |queue| < measure
      {
        f, queue, size := VisitNeighbour(free, f0, seed, l, f, queue, size, p, r);
      }
      assert ClosedAt(free, f, p);
    }
  }

  /* ---------------------------------------------------------------------- */
  /* getNextTargetPos                                                        */
  /* ---------------------------------------------------------------------- */

  /** Areas numbered so far, before raster cursor `pos`. */
  ghost predicate ScanState(free: seq<bool>, f: seq<int>, sizes: seq<int>, seeds: seq<int>, pos: int)
    requires |free| == CellCount
  {
    && Numbered(free, f, |seeds|)
    && |seeds| <= pos <= CellCount
    && (forall c | 0 <= c < pos :: free[c] ==> f[c] != 0)
    && (forall c {:trigger ClosedAt(free, f, c)} | 0 <= c < CellCount && f[c] != 0 :: ClosedAt(free, f, c))
    && Rooted(free, f, seeds)
    && Seeded(f, seeds)
    && (forall l | 0 <= l < |seeds| :: seeds[l] < pos)
    && |sizes| == |seeds|
    && Sized(f, sizes)
  }

  /** The labelling loops of getNextTargetPos: f and count_id. */
  method NumberAreas(free: seq<bool>) returns (f: seq<int>, sizes: seq<int>, ghost seeds: seq<int>)
    requires |free| == CellCount
    ensures Areas(free, f, sizes, seeds) && |seeds| <= CellCount
  {
    f := seq(CellCount, _ => 0);
    sizes := [];
    seeds := [];
    var count := 0;
    for y := 0 to Size
      invariant ScanState(free, f, sizes, seeds, Size * y) && count == |seeds|
    {
      for x := 0 to Size
        invariant ScanState(free, f, sizes, seeds, Size * y + x) && count == |seeds|
      {
        f, sizes, seeds, count := LabelCell(free, f, sizes, seeds, count, To1d(Point(x, y)));
      }
    }
  }

  /** One step of the raster scan: a free cell not numbered yet starts area count + 1. */
  method LabelCell(free: seq<bool>, f: seq<int>, sizes: seq<int>, ghost seeds: seq<int>, count: int, c: int)
    returns (f': seq<int>, sizes': seq<int>, ghost seeds': seq<int>, count': int)
    requires |free| == CellCount && ScanState(free, f, sizes, seeds, c) && count == |seeds|
    requires 0 <= c < CellCount
    ensures ScanState(free, f', sizes', seeds', c + 1) && count' == |seeds'|
  {
    if f[c] == 0 && free[c] {
      var g, size := Flood(free, f, c, count + 1);
      NumberArea(free, f, sizes, seeds, c, g, size);
      f', sizes', seeds' := g, sizes + [size], seeds + [c];
      count' := count + 1;
    } else {
      ScanSkip(free, f, sizes, seeds, c);
      f', sizes', seeds', count' := f, sizes, seeds, count;
    }
  }

  /** A cell that is numbered already or not free is passed over. */
  lemma ScanSkip(free: seq<bool>, f: seq<int>, sizes: seq<int>, seeds: seq<int>, c: int)
    requires |free| == CellCount && ScanState(free, f, sizes, seeds, c)
    requires 0 <= c < CellCount && (f[c] != 0 || !free[c])
    ensures ScanState(free, f, sizes, seeds, c + 1)
  {
    ScanStateIntro(free, f, sizes, seeds, c + 1);
  }

  /** Numbering the area of the free cell at the cursor keeps the scan state. */
  lemma NumberArea(free: seq<bool>, f: seq<int>, sizes: seq<int>, seeds: seq<int>, c: int, f': seq<int>, size: int)
    requires |free| == CellCount && ScanState(free, f, sizes, seeds, c)
    requires 0 <= c < CellCount && f[c] == 0 && free[c]
    requires Numbered(free, f', |seeds| + 1) && f'[c] == |seeds| + 1
    requires forall k | 0 <= k < CellCount :: f[k] != 0 ==> f'[k] == f[k]
    requires forall k | 0 <= k < CellCount :: f[k] == 0 ==> f'[k] == 0 || f'[k] == |seeds| + 1
    requires forall k | 0 <= k < CellCount :: f'[k] == |seeds| + 1 ==> f[k] == 0 && Reach(free, c, k)
    requires forall k {:trigger ClosedAt(free, f', k)} | 0 <= k < CellCount && f'[k] != 0 :: ClosedAt(free, f', k)
    requires size == |LabelSet(f', |seeds| + 1)|
    requires forall l' | l' != |seeds| + 1 && l' != 0 :: LabelSet(f', l') == LabelSet(f, l')
    ensures ScanState(free, f', sizes + [size], seeds + [c], c + 1)
  {
    var l := |seeds| + 1;
    RootedExtend(free, f, seeds, c, f');
    NoNewBefore(free, f, f', c, l);
    SeededExtend(f, seeds, c, f');
    SizedExtend(f, sizes, f', size, l);
    CoveredAfter(free, f, f', c);
    ScanStateIntro(free, f', sizes + [size], seeds + [c], c + 1);
  }

  /** Cells before the cursor were numbered already, so none of them joins the new area. */
  lemma NoNewBefore(free: seq<bool>, f: seq<int>, f': seq<int>, c: int, l: int)
    requires |free| == CellCount && |f| == CellCount && Numbered(free, f', l) && 0 <= c <= CellCount
    requires forall k | 0 <= k < c :: free[k] ==> f[k] != 0
    requires forall k | 0 <= k < CellCount :: f'[k] == l ==> f[k] == 0 && Reach(free, c, k)
    requires l != 0
    ensures forall k | 0 <= k < c :: f'[k] != l
  {
    forall k | 0 <= k < c && f'[k] != 0
      ensures free[k] && f'[k] != l
    {
    }
  }

  /** After numbering the area at the cursor, every free cell up to it is numbered. */
  lemma CoveredAfter(free: seq<bool>, f: seq<int>, f': seq<int>, c: int)
    requires |free| == CellCount && |f| == CellCount && |f'| == CellCount && 0 <= c < CellCount
    requires forall k | 0 <= k < c :: free[k] ==> f[k] != 0
    requires forall k | 0 <= k < CellCount :: f[k] != 0 ==> f'[k] == f[k]
    requires f'[c] != 0
    ensures forall k | 0 <= k < c + 1 :: free[k] ==> f'[k] != 0
  {
    forall k | 0 <= k < c + 1
      ensures free[k] ==> f'[k] != 0
    {
      if k < c && free[k] {
        assert f'[k] == f[k];
      }
    }
  }

  /** ScanState from its parts. */
  lemma ScanStateIntro(free: seq<bool>, f: seq<int>, sizes: seq<int>, seeds: seq<int>, pos: int)
    requires |free| == CellCount && Numbered(free, f, |seeds|) && |seeds| <= pos <= CellCount
    requires forall c | 0 <= c < pos :: free[c] ==> f[c] != 0
    requires forall c {:trigger ClosedAt(free, f, c)} | 0 <= c < CellCount && f[c] != 0 :: ClosedAt(free, f, c)
    requires Rooted(free, f, seeds) && Seeded(f, seeds) && |sizes| == |seeds| && Sized(f, sizes)
    requires forall l | 0 <= l < |seeds| :: seeds[l] < pos
    ensures ScanState(free, f, sizes, seeds, pos)
  {
  }

  /** The cells of the new area are reached from its seed; the others keep their roots. */
  lemma RootedExtend(free: seq<bool>, f: seq<int>, seeds: seq<int>, c: int, f': seq<int>)
    requires |free| == CellCount && Numbered(free, f, |seeds|) && Rooted(free, f, seeds)
    requires Numbered(free, f', |seeds| + 1)
    requires forall k | 0 <= k < CellCount :: f[k] != 0 ==> f'[k] == f[k]
    requires forall k | 0 <= k < CellCount :: f[k] == 0 ==> f'[k] == 0 || f'[k] == |seeds| + 1
    requires forall k | 0 <= k < CellCount :: f'[k] == |seeds| + 1 ==> Reach(free, c, k)
    ensures Rooted(free, f', seeds + [c])
  {
    var l := |seeds| + 1;
    var seeds' := seeds + [c];
    forall k | 0 <= k < CellCount && f'[k] != 0
      ensures Reach(free, seeds'[f'[k] - 1], k)
    {
      if f[k] != 0 {
        assert f'[k] == f[k] && seeds'[f[k] - 1] == seeds[f[k] - 1];
        assert Reach(free, seeds[f[k] - 1], k);
      } else {
        assert f'[k] == l && seeds'[l - 1] == c;
      }
    }
  }

  /** The cursor cell is the first cell of the new area and comes after the earlier seeds. */
  lemma SeededExtend(f: seq<int>, seeds: seq<int>, c: int, f': seq<int>)
    requires |f| == CellCount && |f'| == CellCount && Seeded(f, seeds)
    requires 0 <= c < CellCount && f'[c] == |seeds| + 1
    requires forall j | 0 <= j < |seeds| :: seeds[j] < c
    requires forall k | 0 <= k < CellCount :: f[k] != 0 ==> f'[k] == f[k]
    requires forall k | 0 <= k < CellCount :: f[k] == 0 ==> f'[k] == 0 || f'[k] == |seeds| + 1
    requires forall k | 0 <= k < c :: f'[k] != |seeds| + 1
    ensures Seeded(f', seeds + [c])
  {
    forall j | 0 <= j < |seeds|
      ensures f'[seeds[j]] == j + 1 && forall k | 0 <= k < seeds[j] :: f'[k] != j + 1
    {
      forall k | 0 <= k < seeds[j]
        ensures f'[k] != j + 1
      {
        if f[k] != 0 {
          assert f'[k] == f[k];
        }
      }
    }
  }

  /** The new area's size is appended; the sizes of the others stay. */
  lemma SizedExtend(f: seq<int>, sizes: seq<int>, f': seq<int>, size: int, l: int)
    requires |f| == CellCount && |f'| == CellCount && Sized(f, sizes) && l == |sizes| + 1
    requires size == |LabelSet(f', l)|
    requires forall l' | l' != l && l' != 0 :: LabelSet(f', l') == LabelSet(f, l')
    ensures Sized(f', sizes + [size])
  {
    var sizes' := sizes + [size];
    forall j | 0 <= j < |sizes'|
      ensures sizes'[j] == |LabelSet(f', j + 1)|
    {
      if j < |sizes| {
        assert LabelSet(f', j + 1) == LabelSet(f, j + 1);
      }
    }
  }

  /** The result of getNextTargetPos: a list of at most one cell, or the assert(false) at its end. */
  datatype TargetResult = Targets(ps: seq<Point>) | AssertFails

  /** A 4-neighbour of p on the board holds a stone. */
  predicate TouchesStone(b: Board, p: Point)
    requires Shaped(b) && InField(p)
  {
    exists r | 0 <= r < 4 :: InField(Neighbour(p, r)) && StoneAt(b, Neighbour(p, r))
  }

  /** count_id's minimum: the smallest area, ties going to the smaller number. */
  predicate IsBest(sizes: seq<int>, best: int) {
    && 0 <= best < |sizes|
    && forall l | 0 <= l < |sizes| :: sizes[best] < sizes[l] || (sizes[best] == sizes[l] && best <= l)
  }

  /** A cell of the area counted at count_id[best], with a stone beside it. */
  predicate Candidate(b: Board, f: seq<int>, best: int, c: int)
    requires Shaped(b) && |f| == CellCount && 0 <= c < CellCount
  {
    f[c] == best + 1 && TouchesStone(b, From1d(c))
  }

  /** min_element over the packed pairs (count << 16 | id); ids stay below 1 << 16. */
  method SmallestArea(sizes: seq<int>) returns (best: int)
    requires 1 <= |sizes| < 65536
    ensures IsBest(sizes, best)
  {
    best := 0;
    for l := 1 to |sizes|
      invariant IsBest(sizes[..l], best)
    {
      if sizes[l] * 65536 + (l + 1) < sizes[best] * 65536 + (best + 1) {
        best := l;
      }
    }
    assert sizes[..|sizes|] == sizes;
  }

  /**
   * getNextTargetPos. With no free cell the list is empty; otherwise the
   * first cell, in raster order, of the smallest area that has a stone
   * beside it, and when that area has none the assert at the end fails.
   */
  method GetNextTargetPos(env: Env, b: Board) returns (res: TargetResult, ghost f: seq<int>, ghost sizes: seq<int>, ghost best: int)
    requires WfEnv(env) && Shaped(b)
    ensures exists seeds :: Areas(FreeCells(env, b), f, sizes, seeds)
    ensures (res == Targets([])) <==> sizes == []
    ensures sizes != [] ==> IsBest(sizes, best)
    ensures res.AssertFails? <==> sizes != [] && forall c | 0 <= c < CellCount :: !Candidate(b, f, best, c)
    ensures res.Targets? && res.ps != [] ==>
      && |res.ps| == 1 && InField(res.ps[0])
      && Candidate(b, f, best, To1d(res.ps[0]))
      && forall c | 0 <= c < To1d(res.ps[0]) :: !Candidate(b, f, best, c)
  {
    var labels, counts, seeds := NumberAreas(FreeCells(env, b));
    f, sizes, best := labels, counts, 0;
    if counts == [] {
      return Targets([]), f, sizes, best;
    }
    var area := SmallestArea(counts);
    best := area;
    var found, p := FirstCandidate(b, labels, area);
    if found {
      return Targets([p]), f, sizes, best;
    }
    return AssertFails, f, sizes, best;
  }

  /** The loops over y and x of getNextTargetPos: the first candidate cell in raster order. */
  method FirstCandidate(b: Board, labels: seq<int>, area: int) returns (found: bool, p: Point)
    requires Shaped(b) && |labels| == CellCount
    ensures found ==> InField(p) && Candidate(b, labels, area, To1d(p)) && NoCandidateBefore(b, labels, area, To1d(p))
    ensures !found ==> NoCandidateBefore(b, labels, area, CellCount)
  {
    for y := 0 to Size
      invariant NoCandidateBefore(b, labels, area, Size * y)
    {
      for x := 0 to Size
        invariant NoCandidateBefore(b, labels, area, Size * y + x)
      {
        var hit := IsCandidate(b, labels, area, Point(x, y));
        if hit {
          return true, Point(x, y);
        }
        NoCandidateStep(b, labels, area, Size * y + x);
      }
    }
    return false, Point(0, 0);
  }

  /** No cell before n is a candidate. */
  ghost predicate NoCandidateBefore(b: Board, labels: seq<int>, area: int, n: int)
    requires Shaped(b) && |labels| == CellCount && 0 <= n <= CellCount
  {
    forall c | 0 <= c < n :: !Candidate(b, labels, area, c)
  }

  lemma NoCandidateStep(b: Board, labels: seq<int>, area: int, n: int)
    requires Shaped(b) && |labels| == CellCount && 0 <= n < CellCount
    requires NoCandidateBefore(b, labels, area, n) && !Candidate(b, labels, area, n)
    ensures NoCandidateBefore(b, labels, area, n + 1)
  {
  }

  /** The body of the loops over y and x in getNextTargetPos: a cell of the chosen area with a stone beside it. */
  method IsCandidate(b: Board, labels: seq<int>, area: int, p: Point) returns (hit: bool)
    requires Shaped(b) && |labels| == CellCount && InField(p)
    ensures hit == Candidate(b, labels, area, To1d(p))
  {
    From1dTo1d(p);
    hit := false;
    if labels[To1d(p)] == area + 1 {
      hit := StoneBeside(b, p);
    }
  }

  /** The loop over the four neighbours in getNextTargetPos: does one of them hold a stone? */
  method StoneBeside(b: Board, p: Point) returns (found: bool)
    requires Shaped(b) && InField(p)
    ensures found == TouchesStone(b, p)
  {
    for r := 0 to 4
      invariant forall r' | 0 <= r' < r :: !(InField(Neighbour(p, r')) && StoneAt(b, Neighbour(p, r')))
    {
      var n := Neighbour(p, r);
      if InsideField(n.x, n.y) {
        if b.bits[To1d(n)] {
          assert InField(n) && StoneAt(b, n);
          return true;
        }
      }
    }
    return false;
  }
}
