/**
 * SampleSolver's search: firstPut, which places the first stone in every
 * way at the first cell that admits one, and beamSearch, which expands the
 * states bucket by bucket, from many free cells to few, keeping at most
 * beam_width states per bucket and remembering the best state seen.
 *
 * States live in the GameState pool (Pool.StatePool); the buckets and the
 * best state are slot numbers, as solver.cpp's are pointers.
 */
module Search {
  import opened Geometry
  import opened Transform
  import opened Fields
  import opened Common
  import opened Patterns
  import opened States
  import opened Pool
  import opened Target

  /* ---------------------------------------------------------------------- */
  /* What the search relies on about g's tables                              */
  /* ---------------------------------------------------------------------- */

  /** Every orientation of every stone covers at most 16 cells, the sizes FieldHash has words for. */
  predicate SmallStones(r: Rules)
    requires WfRules(r)
  {
    forall i, j | 0 <= i < |r.vectors| && 0 <= j < 8 :: |r.vectors[i][j]| <= 16
  }

  /** The cells of a layer that hold 0. */
  function ZeroCells(f: seq<int>): (z: seq<bool>)
    requires |f| == CellCount
    ensures |z| == CellCount
  {
    seq(CellCount, k requires 0 <= k < CellCount => f[k] == 0)
  }

  /**
   * default_field[t] is default_field[0] seen in orientation t, and
   * default_empty_count is the number of zero cells of default_field[0].
   */
  ghost predicate FieldCounted(r: Rules)
    requires WfRules(r)
  {
    && (forall t, p | 0 <= t < 8 && InField(p) ::
          r.defaultField[t][To1d(p)] == r.defaultField[0][To1d(Trans(t, 0, p))])
    && r.defaultEmptyCount == CountTrue(ZeroCells(r.defaultField[0]))
  }

  ghost predicate SearchEnv(env: Env) {
    WfEnv(env) && SmallStones(env.rules) && FieldCounted(env.rules)
  }

  /** The zero cells among the first n packed cells are those CountBlocked leaves out. */
  lemma {:induction false} CountZeroPrefix(field: seq<seq<int>>, n: nat)
    requires |field| == Size && forall y | 0 <= y < Size :: |field[y]| == Size
    requires forall y, x | 0 <= y < Size && 0 <= x < Size :: 0 <= field[y][x] < 256
    requires n <= CellCount
    ensures CountTrue(ZeroCells(DefaultField0(field))[..n]) == n - CountBlocked(field, n)
  {
    if n > 0 {
      var z := ZeroCells(DefaultField0(field));
      var k := n - 1;
      var v := field[k / Size][k % Size];
      assert z[k] == (Byte(v) == 0);
      assert Byte(v) == v;
      assert z[..n][..k] == z[..k] && z[..n][k] == z[k];
      assert CountTrue(z[..n]) == CountTrue(z[..k]) + (if v == 0 then 1 else 0);
      CountZeroPrefix(field, k);
    }
  }

  /** g.init's tables have the layout the search relies on when every cell is a byte. */
  lemma RulesOfCounted(problem: Problem)
    requires WellShaped(problem)
    requires forall y, x | 0 <= y < Size && 0 <= x < Size :: 0 <= problem.field[y][x] < 256
    ensures WfRules(RulesOf(problem)) && FieldCounted(RulesOf(problem))
  {
    RulesOfWf(problem);
    var r := RulesOf(problem);
    var f0 := DefaultField0(problem.field);
    forall j | 0 <= j < CellCount
      ensures r.defaultField[0][j] == f0[j]
    {
      TransIdentity(0, From1d(j));
    }
    forall t, p | 0 <= t < 8 && InField(p)
      ensures r.defaultField[t][To1d(p)] == r.defaultField[0][To1d(Trans(t, 0, p))]
    {
      From1dTo1d(p);
    }
    assert ZeroCells(r.defaultField[0]) == ZeroCells(f0);
    CountZeroPrefix(problem.field, CellCount);
    assert ZeroCells(f0)[..CellCount] == ZeroCells(f0);
  }

  /* ---------------------------------------------------------------------- */
  /* The states the search handles                                           */
  /* ---------------------------------------------------------------------- */

  /** Occupied cells, seen in orientation 0, are not obstacles. */
  ghost predicate Settled(env: Env, b: Board)
    requires WfEnv(env) && Shaped(b)
  {
    forall k | 0 <= k < CellCount :: Occ0(b)[k] ==> env.rules.defaultField[0][k] == 0
  }

  /** A state reached from init by put and trans. */
  ghost predicate Sound(env: Env, b: Board)
    requires WfEnv(env)
  {
    Consistent(env, b) && Settled(env, b)
  }

  lemma {:induction false} CountTrueMono(a: seq<bool>, c: seq<bool>)
    requires |a| == |c| && forall k | 0 <= k < |a| :: a[k] ==> c[k]
    ensures CountTrue(a) <= CountTrue(c)
  {
    if a != [] {
      CountTrueMono(a[..|a| - 1], c[..|c| - 1]);
    }
  }

  lemma {:induction false} CountTrueAtMost(s: seq<bool>)
    ensures CountTrue(s) <= |s|
  {
    if s != [] {
      CountTrueAtMost(s[..|s| - 1]);
    }
  }

  /** The free-cell count of a sound state lies between 0 and the count of a fresh board. */
  lemma FreeCountRange(env: Env, b: Board)
    requires SearchEnv(env) && Sound(env, b)
    ensures 0 <= b.emptyCount <= env.rules.defaultEmptyCount <= CellCount
  {
    CountTrueMono(Occ0(b), ZeroCells(env.rules.defaultField[0]));
    CountTrueAtMost(ZeroCells(env.rules.defaultField[0]));
  }

  /** A fresh board is sound. */
  lemma FreshSound(env: Env)
    requires SearchEnv(env)
    ensures Sound(env, Fresh(env)) && Fresh(env).emptyCount == env.rules.defaultEmptyCount
  {
    FreshConsistent(env);
  }

  /** trans keeps a state sound. */
  lemma TransSound(env: Env, b: Board, to: int)
    requires SearchEnv(env) && Sound(env, b) && IsOrientation(to)
    ensures Sound(env, TransSpec(b, to))
  {
    TransConsistent(env, b, to);
    TransOcc0(b, to);
  }

  /**
   * An available placement can be put (put's asserts hold), the state it
   * leaves is sound, uses a stone and has |stone| fewer free cells; the
   * score the state carries plays no part.
   */
  lemma ChildSound(env: Env, b: Board, put: Put, score: int)
    requires SearchEnv(env) && Sound(env, b) && PutShape(put) && AvailableSpec(env, b, put, false)
    ensures PutReady(env, b.(score := score), put)
    ensures Sound(env, PutSpec(env, b.(score := score), put))
    ensures !IsFirstStone(PutSpec(env, b.(score := score), put))
    ensures PutSpec(env, b.(score := score), put).score == score
    ensures 0 <= PutSpec(env, b.(score := score), put).emptyCount == b.emptyCount - |Vec(env, put.id, put.r)| < b.emptyCount
  {
    var a := b.(score := score);
    var vec := Vec(env, put.id, put.r);
    assert PutReady(env, a, put) by {
      forall m | 0 <= m < |vec|
        ensures !a.bits[To1d(Cell(put, vec[m]))] && a.field[To1d(Cell(put, vec[m]))] == 0
      {
        assert IsEmpty(env, b, Cell(put, vec[m]));
      }
    }
    PutConsistent(env, a, put);
    PutOcc0(env, a, put);
    var c := PutSpec(env, a, put);
    var ks := HashCells(a.transState, put, vec);
    forall k | 0 <= k < CellCount && Occ0(c)[k]
      ensures env.rules.defaultField[0][k] == 0
    {
      if !Occ0(a)[k] {
        var m :| 0 <= m < |ks| && ks[m] == k;
        assert IsEmpty(env, b, Cell(put, vec[m]));
      }
    }
    assert c.used[put.id];
    FreeCountRange(env, c);
  }

  /** clone, addScore(sc) and put(put) applied to state b. */
  function Child(env: Env, b: Board, put: Put, sc: int): (c: Board)
    requires SearchEnv(env) && Sound(env, b) && PutShape(put) && AvailableSpec(env, b, put, false)
    ensures Sound(env, c) && !IsFirstStone(c) && c.score == b.score + sc
    ensures 0 <= c.emptyCount == b.emptyCount - |Vec(env, put.id, put.r)| < b.emptyCount
  {
    ChildSound(env, b, put, b.score + sc);
    PutSpec(env, b.(score := b.score + sc), put)
  }

  /* ---------------------------------------------------------------------- */
  /* The bookkeeping of beamSearch                                           */
  /* ---------------------------------------------------------------------- */

  /** used_.count(). */
  function UsedCount(b: Board): nat {
    CountTrue(b.used)
  }

  /** add_next's test: c has fewer free cells than best, or as many and fewer stones. */
  predicate Improves(c: Board, best: Board) {
    best.emptyCount > c.emptyCount || (best.emptyCount == c.emptyCount && UsedCount(best) > UsedCount(c))
  }

  /**
   * hash_map[h] as operator[] reads it: an absent key reads 0 (and is
   * inserted with 0). The map is keyed by the hash's value as an integer.
   */
  function Recorded(hm: map<int, int>, h: int): int {
    if h in hm then hm[h] else 0
  }

  /** Every key keeps its entry and no entry decreases. */
  predicate Grows(hm: map<int, int>, hm': map<int, int>) {
    forall h | h in hm :: h in hm' && hm[h] <= hm'[h]
  }

  /** The slots the buckets hold. */
  ghost function Held(buckets: seq<seq<nat>>): set<nat> {
    set e, i | 0 <= e < |buckets| && 0 <= i < |buckets[e]| :: buckets[e][i]
  }

  /** Slot s holds a sound state with e free cells. */
  ghost predicate InBucket(env: Env, store: map<nat, Board>, s: nat, e: int)
    requires WfEnv(env)
  {
    s in store && store[s].emptyCount == e && Sound(env, store[s])
  }

  /**
   * state_av and *best over the states of the pool: 1024 buckets of
   * distinct slots, bucket e holding sound states with e free cells; best
   * holds a sound state; the live slots are exactly the buckets' slots,
   * best, and the slots others hold.
   */
  ghost predicate Arranged(env: Env, store: map<nat, Board>, live: set<nat>,
                           buckets: seq<seq<nat>>, best: nat, others: set<nat>)
    requires WfEnv(env)
  {
    && |buckets| == 1024
    && (forall e | 0 <= e < 1024 :: DistinctSlots(buckets[e]))
    && (forall e, i | 0 <= e < 1024 && 0 <= i < |buckets[e]| :: InBucket(env, store, buckets[e][i], e))
    && best in store && Sound(env, store[best])
    && live == others + Held(buckets) + {best}
    && best !in Held(buckets) && best !in others && others !! Held(buckets)
  }

  ghost predicate Pooled(env: Env, pool: StatePool, buckets: seq<seq<nat>>, best: nat, others: set<nat>)
    requires WfEnv(env)
    reads pool
  {
    pool.Valid() && Arranged(env, pool.store, pool.Live(), buckets, best, others)
  }

  /** A new slot holding a sound state joins the bucket of its free-cell count. */
  lemma ArrangedPush(env: Env, store: map<nat, Board>, store': map<nat, Board>, live: set<nat>,
                     buckets: seq<seq<nat>>, best: nat, others: set<nat>, s: nat, c: Board)
    requires WfEnv(env) && Arranged(env, store, live, buckets, best, others)
    requires s !in live && Sound(env, c) && 0 <= c.emptyCount < 1024
    requires forall q | q in live :: q in store && q in store' && store'[q] == store[q]
    requires s in store' && store'[s] == c
    ensures Arranged(env, store', live + {s}, buckets[c.emptyCount := buckets[c.emptyCount] + [s]], best, others)
  {
    var e := c.emptyCount;
    var b' := buckets[e := buckets[e] + [s]];
    HeldPush(buckets, e, s);
    forall e', i | 0 <= e' < 1024 && 0 <= i < |b'[e']|
      ensures InBucket(env, store', b'[e'][i], e')
    {
      if e' != e || i < |buckets[e]| {
        assert b'[e'][i] == buckets[e'][i];
        assert InBucket(env, store, buckets[e'][i], e');
      }
    }
  }

  /** best moves to slot b2, which holds a sound state and is not otherwise live. */
  lemma ArrangedRebest(env: Env, store: map<nat, Board>, store': map<nat, Board>, live: set<nat>,
                       buckets: seq<seq<nat>>, best: nat, others: set<nat>, b2: nat, c: Board)
    requires WfEnv(env) && Arranged(env, store, live, buckets, best, others)
    requires b2 !in live - {best} && Sound(env, c)
    requires forall q | q in live && q != best :: q in store && q in store' && store'[q] == store[q]
    requires b2 in store' && store'[b2] == c
    ensures Arranged(env, store', live - {best} + {b2}, buckets, b2, others)
  {
    forall e, i | 0 <= e < 1024 && 0 <= i < |buckets[e]|
      ensures InBucket(env, store', buckets[e][i], e)
    {
      assert InBucket(env, store, buckets[e][i], e);
    }
  }

  /** The last slot of bucket k leaves the buckets and the live set. */
  lemma ArrangedPop(env: Env, store: map<nat, Board>, live: set<nat>, buckets: seq<seq<nat>>, best: nat,
                    others: set<nat>, k: int)
    requires WfEnv(env) && Arranged(env, store, live, buckets, best, others) && 0 <= k < 1024 && buckets[k] != []
    ensures var s := buckets[k][|buckets[k]| - 1];
      && s in live && s != best && s in store && store[s].emptyCount == k
      && Arranged(env, store, live - {s}, buckets[k := buckets[k][..|buckets[k]| - 1]], best, others)
  {
    var s := buckets[k][|buckets[k]| - 1];
    var b' := buckets[k := buckets[k][..|buckets[k]| - 1]];
    assert s in Held(buckets);
    assert InBucket(env, store, s, k);
    HeldOnce(env, store, live, buckets, best, others, k);
    HeldPop(buckets, k);
    forall e, i | 0 <= e < 1024 && 0 <= i < |b'[e]|
      ensures InBucket(env, store, b'[e][i], e)
    {
      assert b'[e][i] == buckets[e][i];
      assert InBucket(env, store, buckets[e][i], e);
    }
  }

  /** Bucket k replaced by a rearrangement of its slots. */
  lemma ArrangedPermute(env: Env, store: map<nat, Board>, live: set<nat>, buckets: seq<seq<nat>>, best: nat,
                        others: set<nat>, k: int, w: seq<nat>)
    requires WfEnv(env) && Arranged(env, store, live, buckets, best, others) && 0 <= k < 1024
    requires multiset(w) == multiset(buckets[k]) && DistinctSlots(w)
    ensures Arranged(env, store, live, buckets[k := w], best, others)
  {
    forall x
      ensures x in w <==> x in buckets[k]
    {
      assert x in w <==> x in multiset(w);
      assert x in buckets[k] <==> x in multiset(buckets[k]);
    }
    HeldSame(buckets, k, w);
    forall i | 0 <= i < |w|
      ensures InBucket(env, store, w[i], k)
    {
      assert w[i] in buckets[k];
      var j :| 0 <= j < |buckets[k]| && buckets[k][j] == w[i];
    }
  }
  /** The slots of bucket k from position n on leave the buckets and the live set. */
  lemma ArrangedDrop(env: Env, store: map<nat, Board>, live: set<nat>, buckets: seq<seq<nat>>, best: nat,
                     others: set<nat>, k: int, n: int)
    requires WfEnv(env) && Arranged(env, store, live, buckets, best, others) && 0 <= k < 1024
    requires 0 <= n <= |buckets[k]|
    ensures var d := SlotSet(buckets[k][n..]);
      && d <= live && best !in d
      && Arranged(env, store, live - d, buckets[k := buckets[k][..n]], best, others)
  {
    var d := SlotSet(buckets[k][n..]);
    var b' := buckets[k := buckets[k][..n]];
    forall x | x in d
      ensures x in Held(buckets)
    {
      var j :| 0 <= j < |buckets[k][n..]| && buckets[k][n..][j] == x;
      assert buckets[k][n + j] == x;
    }
    forall j | n <= j < |buckets[k]|
      ensures buckets[k][j] in d
    {
      assert buckets[k][n..][j - n] == buckets[k][j];
    }
    forall x | x in Held(b')
      ensures x in Held(buckets) && x !in d
    {
      var e, i :| 0 <= e < |b'| && 0 <= i < |b'[e]| && b'[e][i] == x;
      assert buckets[e][i] == x;
      forall j | n <= j < |buckets[k]|
        ensures buckets[k][j] != x
      {
        assert InBucket(env, store, buckets[e][i], e);
        assert InBucket(env, store, buckets[k][j], k);
      }
    }
    forall x | x in Held(buckets) && x !in d
      ensures x in Held(b')
    {
      var e, i :| 0 <= e < |buckets| && 0 <= i < |buckets[e]| && buckets[e][i] == x;
      assert b'[e][i] == x;
    }
    assert Held(b') == Held(buckets) - d;
    forall e, i | 0 <= e < 1024 && 0 <= i < |b'[e]|
      ensures InBucket(env, store, b'[e][i], e)
    {
      assert b'[e][i] == buckets[e][i];
      assert InBucket(env, store, buckets[e][i], e);
    }
  }

  /** Bucket k cut to kept, where kept + dropped rearranges it: the dropped slots leave the live set. */
  lemma ArrangedCut(env: Env, store: map<nat, Board>, live: set<nat>, buckets: seq<seq<nat>>, best: nat,
                    others: set<nat>, k: int, kept: seq<nat>, dropped: seq<nat>)
    requires WfEnv(env) && Arranged(env, store, live, buckets, best, others) && 0 <= k < 1024
    requires multiset(kept + dropped) == multiset(buckets[k]) && DistinctSlots(kept + dropped)
    ensures SlotSet(dropped) <= live && best !in SlotSet(dropped)
    ensures Arranged(env, store, live - SlotSet(dropped), buckets[k := kept], best, others)
  {
    var w := kept + dropped;
    ArrangedPermute(env, store, live, buckets, best, others, k, w);
    ArrangedDrop(env, store, live, buckets[k := w], best, others, k, |kept|);
    assert w[|kept|..] == dropped && w[..|kept|] == kept;
    assert buckets[k := w][k := kept] == buckets[k := kept];
  }


  /** The best state is at least as good as every state in made. */
  ghost predicate Beats(made: set<Board>, best: Board) {
    forall c | c in made :: !Improves(c, best)
  }

  lemma HeldPush(buckets: seq<seq<nat>>, e: int, s: nat)
    requires 0 <= e < |buckets|
    ensures Held(buckets[e := buckets[e] + [s]]) == Held(buckets) + {s}
  {
    var b' := buckets[e := buckets[e] + [s]];
    assert b'[e][|buckets[e]|] == s;
    forall x | x in Held(buckets)
      ensures x in Held(b')
    {
      var e', i :| 0 <= e' < |buckets| && 0 <= i < |buckets[e']| && buckets[e'][i] == x;
      assert b'[e'][i] == x;
    }
  }

  /** Dropping the last slot of bucket k, which no other place holds. */
  lemma HeldPop(buckets: seq<seq<nat>>, k: int)
    requires 0 <= k < |buckets| && buckets[k] != []
    requires forall e, i | 0 <= e < |buckets| && 0 <= i < |buckets[e]| && (e != k || i != |buckets[k]| - 1) ::
      buckets[e][i] != buckets[k][|buckets[k]| - 1]
    ensures Held(buckets[k := buckets[k][..|buckets[k]| - 1]]) == Held(buckets) - {buckets[k][|buckets[k]| - 1]}
  {
    var s := buckets[k][|buckets[k]| - 1];
    var b' := buckets[k := buckets[k][..|buckets[k]| - 1]];
    assert s in Held(buckets);
    forall x | x in Held(buckets) && x != s
      ensures x in Held(b')
    {
      var e', i :| 0 <= e' < |buckets| && 0 <= i < |buckets[e']| && buckets[e'][i] == x;
      assert b'[e'][i] == x;
    }
  }

  /** Replacing bucket k by a sequence of the same slots. */
  lemma HeldSame(buckets: seq<seq<nat>>, k: int, w: seq<nat>)
    requires 0 <= k < |buckets| && forall x :: x in w <==> x in buckets[k]
    ensures Held(buckets[k := w]) == Held(buckets)
  {
    var b' := buckets[k := w];
    forall x | x in Held(buckets)
      ensures x in Held(b')
    {
      var e', i :| 0 <= e' < |buckets| && 0 <= i < |buckets[e']| && buckets[e'][i] == x;
      if e' == k {
        assert x in buckets[k];
        var j :| 0 <= j < |w| && w[j] == x;
        assert b'[k][j] == x;
      } else {
        assert b'[e'][i] == x;
      }
    }
    forall x | x in Held(b')
      ensures x in Held(buckets)
    {
      var e', i :| 0 <= e' < |b'| && 0 <= i < |b'[e']| && b'[e'][i] == x;
      if e' == k {
        assert x in w;
        var j :| 0 <= j < |buckets[k]| && buckets[k][j] == x;
      } else {
        assert buckets[e'][i] == x;
      }
    }
  }

  /** A held slot sits in the bucket of its free-cell count, and only once there. */
  lemma HeldOnce(env: Env, store: map<nat, Board>, live: set<nat>, buckets: seq<seq<nat>>, best: nat,
                 others: set<nat>, k: int)
    requires WfEnv(env) && Arranged(env, store, live, buckets, best, others) && 0 <= k < 1024 && buckets[k] != []
    ensures forall e, i | 0 <= e < |buckets| && 0 <= i < |buckets[e]| && (e != k || i != |buckets[k]| - 1) ::
      buckets[e][i] != buckets[k][|buckets[k]| - 1]
  {
    var s := buckets[k][|buckets[k]| - 1];
    assert InBucket(env, store, s, k);
    forall e, i | 0 <= e < |buckets| && 0 <= i < |buckets[e]| && (e != k || i != |buckets[k]| - 1)
      ensures buckets[e][i] != s
    {
      assert InBucket(env, store, buckets[e][i], e);
    }
  }

  /* ---------------------------------------------------------------------- */
  /* add_next                                                                */
  /* ---------------------------------------------------------------------- */

  /** clone, addScore and put: a new slot holding the child joins the bucket of its free-cell count. */
  method CloneChild(env: Env, pool: StatePool, buckets: seq<seq<nat>>, best: nat, ghost others: set<nat>,
                    ghost k: int, p: nat, put: Put, sc: int)
    returns (buckets': seq<seq<nat>>, s: nat, c: Board)
    requires SearchEnv(env) && Pooled(env, pool, buckets, best, others)
    requires 0 <= k < 1024 && p in buckets[k] && PutShape(put)
    requires AvailableSpec(env, pool.store[p], put, false)
    modifies pool
    ensures c == Child(env, old(pool.store[p]), put, sc)
    ensures Pooled(env, pool, buckets', best, others)
    ensures s !in old(pool.Live()) && s in pool.store && pool.store[s] == c
    ensures buckets' == buckets[c.emptyCount := buckets[c.emptyCount] + [s]]
    ensures forall q | q in old(pool.Live()) :: q in pool.store && pool.store[q] == old(pool.store[q])
    ensures pool.allocCount == old(pool.allocCount) + 1 && pool.freeCount == old(pool.freeCount)
  {
    var parent := pool.store[p];
    ghost var live0, store0 := pool.Live(), pool.store;
    s := pool.Alloc(parent);
    pool.Update(s, parent.(score := parent.score + sc));
    c := Child(env, parent, put, sc);
    pool.Update(s, c);
    ArrangedPush(env, store0, pool.store, live0, buckets, best, others, s, c);
    buckets' := buckets[c.emptyCount := buckets[c.emptyCount] + [s]];
  }

  /** GameState::free(*best) then *best = s->clone(). */
  method ReplaceBest(env: Env, pool: StatePool, buckets: seq<seq<nat>>, best: nat, ghost others: set<nat>, s: nat)
    returns (best': nat)
    requires SearchEnv(env) && Pooled(env, pool, buckets, best, others) && s in Held(buckets)
    modifies pool
    ensures Pooled(env, pool, buckets, best', others)
    ensures best' in pool.store && pool.store[best'] == old(pool.store[s])
    ensures forall q | q in old(pool.Live()) && q != best :: q in pool.store && pool.store[q] == old(pool.store[q])
    ensures pool.allocCount == old(pool.allocCount) + 1 && pool.freeCount == old(pool.freeCount) + 1
  {
    ghost var live0, store0 := pool.Live(), pool.store;
    var c := pool.store[s];
    assert exists e, i | 0 <= e < 1024 && 0 <= i < |buckets[e]| :: buckets[e][i] == s;
    assert Sound(env, c);
    pool.Free(best);
    best' := pool.Alloc(c);
    ArrangedRebest(env, store0, pool.store, live0, buckets, best, others, best', c);
  }

  /**
   * add_next(p, put, sc): the child of the state in slot p (of bucket k)
   * goes to the bucket of its free-cell count, and a copy of it becomes best
   * when it improves on best (the old best is freed first).
   */
  method AddNext(env: Env, pool: StatePool, buckets: seq<seq<nat>>, best: nat, ghost others: set<nat>,
                 ghost k: int, p: nat, put: Put, sc: int)
    returns (buckets': seq<seq<nat>>, best': nat, s: nat)
    requires SearchEnv(env) && Pooled(env, pool, buckets, best, others)
    requires 0 <= k < 1024 && p in buckets[k] && PutShape(put)
    requires AvailableSpec(env, pool.store[p], put, false)
    modifies pool
    ensures var c := Child(env, old(pool.store[p]), put, sc);
      && Pooled(env, pool, buckets', best', others)
      && s in pool.store && pool.store[s] == c
      && buckets' == buckets[c.emptyCount := buckets[c.emptyCount] + [s]]
      && best' in pool.store
      && (if Improves(c, old(pool.store[best])) then pool.store[best'] == c
          else best' == best && pool.store[best] == old(pool.store[best]))
    ensures forall q | q in old(pool.Live()) && q != best :: q in pool.store && pool.store[q] == old(pool.store[q])
  {
    var c;
    buckets', s, c := CloneChild(env, pool, buckets, best, others, k, p, put, sc);
    best' := best;
    if Improves(c, pool.store[best]) {
      HeldPush(buckets, c.emptyCount, s);
      best' := ReplaceBest(env, pool, buckets', best, others, s);
    }
  }

  /* ---------------------------------------------------------------------- */
  /* The expansion of one state                                              */
  /* ---------------------------------------------------------------------- */

  /** c is the state add_next makes from b for a placement available in b. */
  ghost predicate ChildOf(env: Env, b: Board, c: Board)
    requires SearchEnv(env) && Sound(env, b)
  {
    exists put, sc | PutShape(put) && AvailableSpec(env, b, put, false) :: c == Child(env, b, put, sc)
  }

  /**
   * The buckets while bucket k is expanded: those from k up are as in
   * buckets0, the ones below extend it, and every slot pushed holds a state
   * in made.
   */
  ghost predicate Extends(store: map<nat, Board>, buckets0: seq<seq<nat>>, k: int,
                          buckets: seq<seq<nat>>, made: set<Board>)
    requires |buckets0| == 1024 && 0 <= k < 1024
  {
    && |buckets| == 1024
    && (forall e | k <= e < 1024 :: buckets[e] == buckets0[e])
    && (forall e | 0 <= e < k :: |buckets0[e]| <= |buckets[e]| && buckets[e][..|buckets0[e]|] == buckets0[e])
    && (forall e, i | 0 <= e < k && |buckets0[e]| <= i < |buckets[e]| ::
          buckets[e][i] in store && store[buckets[e][i]] in made)
  }

  /**
   * The rest of the expansion of state b in slot p: p still holds b, every
   * state made is a child of b and best is at least as good as it, best only
   * improves on best0, and the hash entries only grow.
   */
  ghost predicate Improving(env: Env, store: map<nat, Board>, best0: Board, hm0: map<int, int>, made0: set<Board>,
                            p: nat, b: Board, best: nat, hm: map<int, int>, made: set<Board>)
    requires SearchEnv(env) && Sound(env, b)
  {
    && made0 <= made
    && (forall c | c in made - made0 :: ChildOf(env, b, c))
    && p in store && store[p] == b
    && best in store && Beats(made, store[best]) && !Improves(best0, store[best])
    && Grows(hm0, hm)
  }

  /** What expanding the state b of slot p in bucket k keeps. */
  ghost predicate Expanded(env: Env, store: map<nat, Board>, buckets0: seq<seq<nat>>, best0: Board,
                           hm0: map<int, int>, made0: set<Board>, k: int, p: nat, b: Board,
                           buckets: seq<seq<nat>>, best: nat, hm: map<int, int>, made: set<Board>)
    requires SearchEnv(env) && Sound(env, b) && |buckets0| == 1024 && 0 <= k < 1024
  {
    Extends(store, buckets0, k, buckets, made) && Improving(env, store, best0, hm0, made0, p, b, best, hm, made)
  }

  /** A push of a slot holding c below bucket k keeps Extends, with c made. */
  lemma ExtendsStep(store: map<nat, Board>, store': map<nat, Board>, buckets0: seq<seq<nat>>,
                    buckets: seq<seq<nat>>, k: int, e0: int, s: nat, c: Board, made: set<Board>)
    requires |buckets0| == 1024 && 0 <= e0 < k < 1024
    requires Extends(store, buckets0, k, buckets, made)
    requires forall e, i | 0 <= e < 1024 && 0 <= i < |buckets[e]| ::
      buckets[e][i] in store && buckets[e][i] in store' && store'[buckets[e][i]] == store[buckets[e][i]]
    requires s in store' && store'[s] == c
    ensures Extends(store', buckets0, k, buckets[e0 := buckets[e0] + [s]], made + {c})
  {
    var buckets' := buckets[e0 := buckets[e0] + [s]];
    assert buckets'[e0][..|buckets0[e0]|] == buckets[e0][..|buckets0[e0]|];
    forall e, i | 0 <= e < k && |buckets0[e]| <= i < |buckets'[e]|
      ensures buckets'[e][i] in store' && store'[buckets'[e][i]] in made + {c}
    {
      if e != e0 || i < |buckets[e0]| {
        assert buckets'[e][i] == buckets[e][i];
      }
    }
  }

  /** add_next of the child c keeps Improving, with c made. */
  lemma ImprovingStep(env: Env, store: map<nat, Board>, store': map<nat, Board>, best0: Board, hm0: map<int, int>,
                      made0: set<Board>, p: nat, b: Board, best: nat, hm: map<int, int>, made: set<Board>,
                      c: Board, best': nat)
    requires SearchEnv(env) && Sound(env, b)
    requires Improving(env, store, best0, hm0, made0, p, b, best, hm, made)
    requires ChildOf(env, b, c) && p in store' && store'[p] == store[p] && best' in store'
    requires if Improves(c, store[best]) then store'[best'] == c else best' == best && store'[best] == store[best]
    ensures Improving(env, store', best0, hm0, made0, p, b, best', hm, made + {c})
  {
  }

  /** One add_next keeps Expanded, with the child added to made. */
  lemma ExpandedStep(env: Env, store: map<nat, Board>, store': map<nat, Board>, live: set<nat>, others: set<nat>,
                     buckets0: seq<seq<nat>>, best0: Board, hm0: map<int, int>, made0: set<Board>,
                     k: int, p: nat, b: Board, put: Put, sc: int,
                     buckets: seq<seq<nat>>, best: nat, made: set<Board>, hm': map<int, int>,
                     buckets': seq<seq<nat>>, best': nat, s: nat)
    requires SearchEnv(env) && Sound(env, b) && |buckets0| == 1024 && 0 <= k < 1024
    requires PutShape(put) && AvailableSpec(env, b, put, false)
    requires Arranged(env, store, live, buckets, best, others) && p in buckets[k]
    requires Expanded(env, store, buckets0, best0, hm0, made0, k, p, b, buckets, best, hm', made)
    requires forall q | q in live && q != best :: q in store && q in store' && store'[q] == store[q]
    requires var c := Child(env, b, put, sc);
      && s in store' && store'[s] == c
      && buckets' == buckets[c.emptyCount := buckets[c.emptyCount] + [s]]
      && best' in store'
      && (if Improves(c, store[best]) then store'[best'] == c else best' == best && store'[best] == store[best])
    ensures Expanded(env, store', buckets0, best0, hm0, made0, k, p, b, buckets', best', hm',
                     made + {Child(env, b, put, sc)})
  {
    var c := Child(env, b, put, sc);
    assert InBucket(env, store, p, k);
    assert p in Held(buckets);
    forall e, i | 0 <= e < 1024 && 0 <= i < |buckets[e]|
      ensures buckets[e][i] in store && buckets[e][i] in store' && store'[buckets[e][i]] == store[buckets[e][i]]
    {
      assert buckets[e][i] in Held(buckets);
    }
    ExtendsStep(store, store', buckets0, buckets, k, c.emptyCount, s, c, made);
    assert ChildOf(env, b, c);
    ImprovingStep(env, store, store', best0, hm0, made0, p, b, best, hm', made, c, best');
  }

  /** add_next of an available placement, kept track of in Expanded. */
  method ExpandAdd(env: Env, pool: StatePool, buckets: seq<seq<nat>>, best: nat, ghost others: set<nat>,
                   ghost hm: map<int, int>, k: int, p: nat, b: Board, put: Put, sc: int, ghost made: set<Board>,
                   ghost buckets0: seq<seq<nat>>, ghost best0: Board, ghost hm0: map<int, int>, ghost made0: set<Board>)
    returns (buckets': seq<seq<nat>>, best': nat)
    requires SearchEnv(env) && Pooled(env, pool, buckets, best, others) && Sound(env, b)
    requires 0 <= k < 1024 && |buckets0| == 1024 && p in buckets0[k]
    requires PutShape(put) && AvailableSpec(env, b, put, false)
    requires Expanded(env, pool.store, buckets0, best0, hm0, made0, k, p, b, buckets, best, hm, made)
    modifies pool
    ensures Pooled(env, pool, buckets', best', others)
    ensures Expanded(env, pool.store, buckets0, best0, hm0, made0, k, p, b, buckets', best', hm,
                     made + {Child(env, b, put, sc)})
  {
    assert p in buckets[k];
    assert exists i | 0 <= i < |buckets[k]| :: buckets[k][i] == p;
    assert InBucket(env, pool.store, p, k);
    ghost var store0, live0 := pool.store, pool.Live();
    var s;
    buckets', best', s := AddNext(env, pool, buckets, best, others, k, p, put, sc);
    ExpandedStep(env, store0, pool.store, live0, others, buckets0, best0, hm0, made0, k, p, b,
                 put, sc, buckets, best, made, hm, buckets', best', s);
  }

  /**
   * One placement at the target cell: hash_map skips it when its hash
   * already records a higher score, else it records this one's score and
   * add_next makes the child. An absent hash is first entered as 0.
   */
  method ExpandPut(env: Env, pool: StatePool, buckets: seq<seq<nat>>, best: nat, ghost others: set<nat>,
                   hm: map<int, int>, k: int, p: nat, b: Board, put: Put, ghost made: set<Board>,
                   ghost buckets0: seq<seq<nat>>, ghost best0: Board, ghost hm0: map<int, int>, ghost made0: set<Board>)
    returns (buckets': seq<seq<nat>>, best': nat, hm': map<int, int>, ghost made': set<Board>, sc: int)
    requires SearchEnv(env) && Pooled(env, pool, buckets, best, others) && Sound(env, b)
    requires 0 <= k < 1024 && |buckets0| == 1024 && p in buckets0[k]
    requires PutShape(put) && AvailableSpec(env, b, put, false)
    requires Expanded(env, pool.store, buckets0, best0, hm0, made0, k, p, b, buckets, best, hm, made)
    modifies pool
    ensures Pooled(env, pool, buckets', best', others)
    ensures Expanded(env, pool.store, buckets0, best0, hm0, made0, k, p, b, buckets', best', hm', made')
    ensures IsSimpleScore(env, b, put, sc)
    ensures var h := PreHashSpec(env, b, put) as int;
      if Recorded(hm, h) > b.score + sc then hm' == hm[h := Recorded(hm, h)] && made' == made
      else hm' == hm[h := b.score + sc] && made' == made + {Child(env, b, put, sc)}
  {
    sc := SimpleScore(env, b, put);
    var h := PreHashSpec(env, b, put) as int;
    hm' := hm[h := Recorded(hm, h)];
    buckets', best', made' := buckets, best, made;
    if hm'[h] > b.score + sc {
      return;
    }
    hm' := hm[h := b.score + sc];
    buckets', best' := ExpandAdd(env, pool, buckets, best, others, hm', k, p, b, put, sc, made,
                                 buckets0, best0, hm0, made0);
    made' := made + {Child(env, b, put, sc)};
  }

  /** The loop over the placements available at the target cell pos. */
  method ExpandAt(env: Env, pool: StatePool, buckets: seq<seq<nat>>, best: nat, ghost others: set<nat>,
                  hm: map<int, int>, k: int, p: nat, pos: Point, ghost made: set<Board>)
    returns (buckets': seq<seq<nat>>, best': nat, hm': map<int, int>, ghost made': set<Board>)
    requires SearchEnv(env) && Pooled(env, pool, buckets, best, others)
    requires 0 <= k < 1024 && p in buckets[k] && InField(pos)
    requires Beats(made, pool.store[best])
    modifies pool
    ensures Pooled(env, pool, buckets', best', others)
    ensures Expanded(env, pool.store, buckets, old(pool.store[best]), hm, made, k, p, old(pool.store[p]),
                     buckets', best', hm', made')
  {
    assert exists i | 0 <= i < |buckets[k]| :: buckets[k][i] == p;
    var b := pool.store[p];
    assert InBucket(env, pool.store, p, k);
    assert Sound(env, b) && |buckets| == 1024;
    ghost var best0 := pool.store[best];
    var puts := AvailableList(env, b, pos.x, pos.y);
    ListAvailable(env, b, pos);
    buckets', best', hm', made' := buckets, best, hm, made;
    for i := 0 to |puts|
      invariant Pooled(env, pool, buckets', best', others)
      invariant Expanded(env, pool.store, buckets, best0, hm, made, k, p, b, buckets', best', hm', made')
    {
      AvailableAt(env, b, puts, i);
      var sc;
      buckets', best', hm', made', sc := ExpandPut(env, pool, buckets', best', others, hm', k, p, b, puts[i], made',
                                               buckets, best0, hm, made);
    }
  }

  /* ---------------------------------------------------------------------- */
  /* One bucket                                                              */
  /* ---------------------------------------------------------------------- */

  /** The slots of v[..i] are in order of score, and each scores at least every slot after it. */
  ghost predicate SelectedUpTo(store: map<nat, Board>, w: seq<nat>, i: int)
    requires forall m | 0 <= m < |w| :: w[m] in store
  {
    forall a, c | 0 <= a < i && a < c < |w| :: store[w[a]].score >= store[w[c]].score
  }

  /** A slot of w[i..] with the highest score. */
  method MaxFrom(store: map<nat, Board>, w: seq<nat>, i: nat) returns (m: nat)
    requires i < |w| && forall q | 0 <= q < |w| :: w[q] in store
    ensures i <= m < |w| && forall c | i <= c < |w| :: store[w[m]].score >= store[w[c]].score
  {
    m := i;
    for j := i + 1 to |w|
      invariant i <= m < |w|
      invariant forall c | i <= c < j :: store[w[m]].score >= store[w[c]].score
    {
      if store[w[j]].score > store[w[m]].score {
        m := j;
      }
    }
  }

  /** Swapping the highest of w[i..] into place i extends the selected prefix by one. */
  lemma SwapSelects(store: map<nat, Board>, w: seq<nat>, i: int, m: int)
    requires 0 <= i <= m < |w| && forall q | 0 <= q < |w| :: w[q] in store
    requires DistinctSlots(w) && SelectedUpTo(store, w, i)
    requires forall c | i <= c < |w| :: store[w[m]].score >= store[w[c]].score
    ensures var w' := w[i := w[m]][m := w[i]];
      && |w'| == |w| && multiset(w') == multiset(w) && DistinctSlots(w')
      && (forall q | 0 <= q < |w'| :: w'[q] in store)
      && SelectedUpTo(store, w', i + 1)
  {
    var w' := w[i := w[m]][m := w[i]];
    forall q | 0 <= q < |w'|
      ensures w'[q] == (if q == i then w[m] else if q == m then w[i] else w[q])
    {
    }
    forall a, c | 0 <= a < c < |w'|
      ensures w'[a] != w'[c]
    {
    }
    forall a, c | 0 <= a < i + 1 && a < c < |w'|
      ensures store[w'[a]].score >= store[w'[c]].score
    {
      if a < i {
        assert w'[a] == w[a];
        if c == i {
          assert w'[c] == w[m];
        } else if c == m {
          assert w'[c] == w[i];
        }
      }
    }
  }

  /**
   * nth_element with the comparator "higher score first" and nth = n: a
   * rearrangement of v whose first n slots hold scores no lower than the
   * rest, and whose slot n (when there is one) holds the highest score of
   * the rest, the one a full sort would put there. Any order with these two
   * properties is one nth_element may produce; this one is a partial
   * selection sort.
   */
  method SelectTop(store: map<nat, Board>, v: seq<nat>, n: nat) returns (w: seq<nat>)
    requires n <= |v| && DistinctSlots(v) && forall i | 0 <= i < |v| :: v[i] in store
    ensures |w| == |v| && multiset(w) == multiset(v) && DistinctSlots(w)
    ensures forall i | 0 <= i < |w| :: w[i] in store
    ensures forall i, j | 0 <= i < n <= j < |w| :: store[w[i]].score >= store[w[j]].score
    ensures forall j | n < j < |w| :: store[w[n]].score >= store[w[j]].score
  {
    w := v;
    var top := if n < |v| then n + 1 else n;
    for i := 0 to top
      invariant |w| == |v| && multiset(w) == multiset(v) && DistinctSlots(w)
      invariant forall m | 0 <= m < |w| :: w[m] in store
      invariant SelectedUpTo(store, w, i)
    {
      var m := MaxFrom(store, w, i);
      SwapSelects(store, w, i, m);
      w := w[i := w[m]][m := w[i]];
    }
  }

  /** Every slot of kept holds a score no lower than every slot of dropped. */
  ghost predicate Outranks(store: map<nat, Board>, kept: seq<nat>, dropped: seq<nat>) {
    forall i, j | 0 <= i < |kept| && 0 <= j < |dropped| ::
      kept[i] in store && dropped[j] in store && store[kept[i]].score >= store[dropped[j]].score
  }

  /** The slots of v split into the n best-scored (by SelectTop) and the rest. */
  method SplitTop(store: map<nat, Board>, v: seq<nat>, n: nat) returns (kept: seq<nat>, dropped: seq<nat>)
    requires n <= |v| && DistinctSlots(v) && forall i | 0 <= i < |v| :: v[i] in store
    ensures |kept| == n && multiset(kept + dropped) == multiset(v)
    ensures DistinctSlots(kept + dropped) && DistinctSlots(dropped)
    ensures Outranks(store, kept, dropped)
  {
    var w := SelectTop(store, v, n);
    kept, dropped := w[..n], w[n..];
    assert kept + dropped == w;
    forall i, j | 0 <= i < |kept| && 0 <= j < |dropped|
      ensures kept[i] in store && dropped[j] in store && store[kept[i]].score >= store[dropped[j]].score
    {
      assert kept[i] == w[i] && dropped[j] == w[n + j];
    }
  }

  /** The slots of bucket k are distinct and each holds a state. */
  lemma BucketStored(env: Env, store: map<nat, Board>, live: set<nat>,
                     buckets: seq<seq<nat>>, best: nat, others: set<nat>, k: int)
    requires WfEnv(env) && Arranged(env, store, live, buckets, best, others) && 0 <= k < 1024
    ensures DistinctSlots(buckets[k]) && forall i | 0 <= i < |buckets[k]| :: buckets[k][i] in store
  {
    forall i | 0 <= i < |buckets[k]|
      ensures buckets[k][i] in store
    {
      assert InBucket(env, store, buckets[k][i], k);
    }
  }

  /** Bucket k keeps the slots of kept and the slots of dropped go back to the pool, last first. */
  method CutBucket(env: Env, pool: StatePool, buckets: seq<seq<nat>>, best: nat, ghost others: set<nat>,
                   k: int, kept: seq<nat>, dropped: seq<nat>)
    requires WfEnv(env) && Pooled(env, pool, buckets, best, others) && 0 <= k < 1024
    requires multiset(kept + dropped) == multiset(buckets[k]) && DistinctSlots(kept + dropped) && DistinctSlots(dropped)
    modifies pool
    ensures Pooled(env, pool, buckets[k := kept], best, others) && pool.store == old(pool.store)
  {
    ArrangedCut(env, pool.store, pool.Live(), buckets, best, others, k, kept, dropped);
    ReversedSlots(dropped);
    pool.FreeAll(Reversed(dropped));
  }

  /**
   * The beam cut of bucket k when it holds more than width slots:
   * nth_element puts the width best-scored first and the rest are freed
   * from the back. dropped is what was freed.
   */
  method Trim(env: Env, pool: StatePool, buckets: seq<seq<nat>>, best: nat, ghost others: set<nat>, k: int, width: nat)
    returns (kept: seq<nat>, dropped: seq<nat>)
    requires WfEnv(env) && Pooled(env, pool, buckets, best, others) && 0 <= k < 1024 && |buckets[k]| > width
    modifies pool
    ensures Pooled(env, pool, buckets[k := kept], best, others) && pool.store == old(pool.store)
    ensures |kept| == width && multiset(kept) + multiset(dropped) == multiset(buckets[k])
    ensures Outranks(pool.store, kept, dropped)
  {
    BucketStored(env, pool.store, pool.Live(), buckets, best, others, k);
    kept, dropped := SplitTop(pool.store, buckets[k], width);
    CutBucket(env, pool, buckets, best, others, k, kept, dropped);
  }

  /* ---------------------------------------------------------------------- */
  /* The expansion of the state at the back of a bucket                      */
  /* ---------------------------------------------------------------------- */

  /**
   * The body of beamSearch's inner loop for the state b in slot p: the
   * target cell of getNextTargetPos and the placements there. aborted is
   * the assert(false) getNextTargetPos reaches when the smallest area has
   * no stone beside it; nothing is made then. With no free cell the
   * target list is empty and nothing is made either.
   */
  method ExpandState(env: Env, pool: StatePool, buckets: seq<seq<nat>>, best: nat, ghost others: set<nat>,
                     hm: map<int, int>, k: int, p: nat)
    returns (buckets': seq<seq<nat>>, best': nat, hm': map<int, int>, aborted: bool,
             ghost made: set<Board>, ghost f: seq<int>, ghost sizes: seq<int>, ghost area: int)
    requires SearchEnv(env) && Pooled(env, pool, buckets, best, others)
    requires 0 <= k < 1024 && p in buckets[k]
    modifies pool
    ensures Pooled(env, pool, buckets', best', others)
    ensures Expanded(env, pool.store, buckets, old(pool.store[best]), hm, {}, k, p, old(pool.store[p]),
                     buckets', best', hm', made)
    ensures exists seeds :: Areas(FreeCells(env, old(pool.store[p])), f, sizes, seeds)
    ensures sizes != [] ==> IsBest(sizes, area)
    ensures aborted <==> sizes != [] && forall c | 0 <= c < CellCount :: !Candidate(old(pool.store[p]), f, area, c)
    ensures aborted || sizes == [] ==> made == {} && buckets' == buckets && best' == best
  {
    var b := pool.store[p];
    assert exists i | 0 <= i < |buckets[k]| :: buckets[k][i] == p;
    assert InBucket(env, pool.store, p, k);
    var res;
    res, f, sizes, area := GetNextTargetPos(env, b);
    buckets', best', hm', aborted, made := buckets, best, hm, false, {};
    if res.AssertFails? {
      aborted := true;
      return;
    }
    if res.ps != [] {
      buckets', best', hm', made := ExpandAt(env, pool, buckets, best, others, hm, k, p, res.ps[0], {});
    }
  }

  /** GameState::free(&state) and v.pop_back() once the state at the back of bucket k is expanded. */
  method FreeBack(env: Env, pool: StatePool, buckets: seq<seq<nat>>, best: nat, ghost others: set<nat>, k: int)
    returns (buckets': seq<seq<nat>>)
    requires WfEnv(env) && Pooled(env, pool, buckets, best, others) && 0 <= k < 1024 && buckets[k] != []
    modifies pool
    ensures Pooled(env, pool, buckets', best, others) && pool.store == old(pool.store)
    ensures buckets' == buckets[k := buckets[k][..|buckets[k]| - 1]]
    ensures pool.Live() == old(pool.Live()) - {buckets[k][|buckets[k]| - 1]}
  {
    var s := buckets[k][|buckets[k]| - 1];
    ArrangedPop(env, pool.store, pool.Live(), buckets, best, others, k);
    pool.Free(s);
    buckets' := buckets[k := buckets[k][..|buckets[k]| - 1]];
  }

  /** The buckets above k are as they were. */
  ghost predicate SameAbove(buckets: seq<seq<nat>>, buckets': seq<seq<nat>>, k: int) {
    |buckets'| == |buckets| == 1024 && forall e | 0 <= e < 1024 && k < e :: buckets'[e] == buckets[e]
  }

  /** Slot best holds a state at least as good as b0. */
  ghost predicate NoWorse(b0: Board, store: map<nat, Board>, best: nat) {
    best in store && !Improves(b0, store[best])
  }

  lemma SameAboveTrans(b0: seq<seq<nat>>, b1: seq<seq<nat>>, b2: seq<seq<nat>>, k: int)
    requires SameAbove(b0, b1, k) && SameAbove(b1, b2, k)
    ensures SameAbove(b0, b2, k)
  {
  }

  /** A change to bucket k leaves the buckets above it alone. */
  lemma SameAboveSet(b0: seq<seq<nat>>, b1: seq<seq<nat>>, k: int, v: seq<nat>)
    requires SameAbove(b0, b1, k) && 0 <= k < 1024
    ensures SameAbove(b0, b1[k := v], k)
  {
    forall e | 0 <= e < 1024 && k < e
      ensures b1[k := v][e] == b0[e]
    {
      assert b1[k := v][e] == b1[e];
    }
  }

  /** add_next's order on (free cells, stones used) is transitive. */
  lemma NoWorseTrans(b0: Board, store: map<nat, Board>, best: nat, store': map<nat, Board>, best': nat)
    requires NoWorse(b0, store, best) && NoWorse(store[best], store', best')
    ensures NoWorse(b0, store', best')
  {
  }

  /** What the caller of ExpandState relies on: bucket k and those above it are untouched, best is no worse. */
  lemma ExpandedKeeps(env: Env, store: map<nat, Board>, buckets0: seq<seq<nat>>, best0: Board,
                      hm0: map<int, int>, k: int, p: nat, b: Board,
                      buckets: seq<seq<nat>>, best: nat, hm: map<int, int>, made: set<Board>)
    requires SearchEnv(env) && Sound(env, b) && |buckets0| == 1024 && 0 <= k < 1024
    requires Expanded(env, store, buckets0, best0, hm0, {}, k, p, b, buckets, best, hm, made)
    ensures SameAbove(buckets0, buckets, k) && buckets[k] == buckets0[k]
    ensures NoWorse(best0, store, best) && Grows(hm0, hm)
  {
  }

  /** ExpandState on the state at the back of bucket k, seen from the loop over the bucket. */
  method ExpandLast(env: Env, pool: StatePool, buckets: seq<seq<nat>>, best: nat, ghost others: set<nat>,
                    hm: map<int, int>, k: int)
    returns (buckets': seq<seq<nat>>, best': nat, hm': map<int, int>, aborted: bool)
    requires SearchEnv(env) && Pooled(env, pool, buckets, best, others) && 0 <= k < 1024 && buckets[k] != []
    modifies pool
    ensures Pooled(env, pool, buckets', best', others) && SameAbove(buckets, buckets', k) && buckets'[k] == buckets[k]
    ensures NoWorse(old(pool.store[best]), pool.store, best') && Grows(hm, hm')
  {
    var p := buckets[k][|buckets[k]| - 1];
    assert InBucket(env, pool.store, p, k);
    ghost var b := pool.store[p];
    ghost var made, f, sizes, area;
    buckets', best', hm', aborted, made, f, sizes, area := ExpandState(env, pool, buckets, best, others, hm, k, p);
    ExpandedKeeps(env, pool.store, buckets, old(pool.store[best]), hm, k, p, b, buckets', best', hm', made);
  }

  /**
   * One turn of beamSearch's inner loop: the state at the back of bucket k
   * is expanded, then freed and popped, unless getNextTargetPos aborts.
   */
  method ExpandBack(env: Env, pool: StatePool, buckets: seq<seq<nat>>, best: nat, ghost others: set<nat>,
                    hm: map<int, int>, k: int)
    returns (buckets': seq<seq<nat>>, best': nat, hm': map<int, int>, aborted: bool)
    requires SearchEnv(env) && Pooled(env, pool, buckets, best, others) && 0 <= k < 1024 && buckets[k] != []
    modifies pool
    ensures Pooled(env, pool, buckets', best', others) && SameAbove(buckets, buckets', k)
    ensures buckets'[k] == if aborted then buckets[k] else buckets[k][..|buckets[k]| - 1]
    ensures NoWorse(old(pool.store[best]), pool.store, best') && Grows(hm, hm')
  {
    buckets', best', hm', aborted := ExpandLast(env, pool, buckets, best, others, hm, k);
    if !aborted {
      SameAboveSet(buckets, buckets', k, buckets'[k][..|buckets'[k]| - 1]);
      buckets' := FreeBack(env, pool, buckets', best', others, k);
    }
  }

  /** The cut of bucket k to at most width states, by Trim when it holds more. */
  method CutToWidth(env: Env, pool: StatePool, buckets: seq<seq<nat>>, best: nat, ghost others: set<nat>,
                    k: int, width: nat)
    returns (buckets': seq<seq<nat>>, kept: seq<nat>, dropped: seq<nat>)
    requires SearchEnv(env) && Pooled(env, pool, buckets, best, others) && 0 <= k < 1024
    modifies pool
    ensures Pooled(env, pool, buckets', best, others) && pool.store == old(pool.store)
    ensures SameAbove(buckets, buckets', k) && buckets'[k] == kept
    ensures |kept| == (if |buckets[k]| < width then |buckets[k]| else width)
    ensures multiset(kept) + multiset(dropped) == multiset(buckets[k]) && Outranks(pool.store, kept, dropped)
  {
    buckets', kept, dropped := buckets, buckets[k], [];
    if |buckets[k]| > width {
      kept, dropped := Trim(env, pool, buckets, best, others, k, width);
      SameAboveSet(buckets, buckets, k, kept);
      buckets' := buckets[k := kept];
    }
  }

  /**
   * The states of bucket k, expanded and freed from the back until none is
   * left or an expansion aborts; done counts those expanded and freed.
   */
  method ExpandBucket(env: Env, pool: StatePool, buckets: seq<seq<nat>>, best: nat, ghost others: set<nat>,
                      hm: map<int, int>, k: int)
    returns (buckets': seq<seq<nat>>, best': nat, hm': map<int, int>, aborted: bool, ghost done: nat)
    requires SearchEnv(env) && Pooled(env, pool, buckets, best, others) && 0 <= k < 1024
    modifies pool
    ensures Pooled(env, pool, buckets', best', others)
    ensures SameAbove(buckets, buckets', k) && (!aborted ==> buckets'[k] == [])
    ensures done <= |buckets[k]| && (!aborted ==> done == |buckets[k]|)
    ensures NoWorse(old(pool.store[best]), pool.store, best') && Grows(hm, hm')
  {
    buckets', best', hm', aborted, done := buckets, best, hm, false, 0;
    ghost var store0 := pool.store;
    while buckets'[k] != []
      invariant Pooled(env, pool, buckets', best', others)
      invariant SameAbove(buckets, buckets', k) && done + |buckets'[k]| == |buckets[k]|
      invariant NoWorse(store0[best], pool.store, best') && Grows(hm, hm')
      decreases |buckets'[k]|
    {
      ghost var before, store1, best1 := buckets', pool.store, best';
      var ab;
      buckets', best', hm', ab := ExpandBack(env, pool, buckets', best', others, hm', k);
      SameAboveTrans(buckets, before, buckets', k);
      NoWorseTrans(store0[best], store1, best1, pool.store, best');
      if ab {
        aborted := true;
        return;
      }
      done := done + 1;
    }
  }

  /**
   * One turn of beamSearch's outer loop, for bucket k: the cut to width
   * states when it holds more, then the expansion and release of its
   * states from the back. The buckets above k are left alone; on
   * completion bucket k is empty. kept are the states expanded and
   * dropped those the cut freed.
   */
  method SweepBucket(env: Env, pool: StatePool, buckets: seq<seq<nat>>, best: nat, ghost others: set<nat>,
                     hm: map<int, int>, k: int, width: nat)
    returns (buckets': seq<seq<nat>>, best': nat, hm': map<int, int>, aborted: bool,
             ghost kept: seq<nat>, ghost dropped: seq<nat>, ghost done: nat)
    requires SearchEnv(env) && Pooled(env, pool, buckets, best, others) && 0 <= k < 1024
    modifies pool
    ensures Pooled(env, pool, buckets', best', others)
    ensures SameAbove(buckets, buckets', k) && (!aborted ==> buckets'[k] == [])
    ensures |kept| == (if |buckets[k]| < width then |buckets[k]| else width)
    ensures multiset(kept) + multiset(dropped) == multiset(buckets[k]) && Outranks(old(pool.store), kept, dropped)
    ensures done <= |kept| && (!aborted ==> done == |kept|)
    ensures NoWorse(old(pool.store[best]), pool.store, best') && Grows(hm, hm')
  {
    buckets', best', hm', aborted, done := buckets, best, hm, false, 0;
    kept, dropped := buckets[k], [];
    if buckets[k] == [] {
      return;
    }
    var cut, kp, dr := CutToWidth(env, pool, buckets, best, others, k, width);
    kept, dropped := kp, dr;
    buckets', best', hm', aborted, done := ExpandBucket(env, pool, cut, best, others, hm, k);
    SameAboveTrans(buckets, cut, buckets', k);
  }

  /* ---------------------------------------------------------------------- */
  /* beamSearch                                                              */
  /* ---------------------------------------------------------------------- */

  /** Buckets lo through hi are empty. */
  ghost predicate EmptyBetween(buckets: seq<seq<nat>>, lo: int, hi: int)
    requires |buckets| == 1024
  {
    forall e | 0 <= e < 1024 && lo <= e <= hi :: buckets[e] == []
  }

  /** Sweeping bucket k, which ends empty, after the buckets above it up to hi were emptied. */
  lemma EmptyStep(b0: seq<seq<nat>>, b1: seq<seq<nat>>, b2: seq<seq<nat>>, k: int, hi: int)
    requires SameAbove(b0, b1, hi) && EmptyBetween(b1, k + 1, hi) && 0 <= k <= hi < 1024
    requires SameAbove(b1, b2, k) && b2[k] == []
    ensures SameAbove(b0, b2, hi) && EmptyBetween(b2, k, hi)
  {
  }

  /**
   * The outer loop of beamSearch, for (k = from; k--;): buckets from - 1
   * down to 0 are swept in turn, each cut to width states and emptied.
   * The buckets from `from` up are not visited.
   */
  method Sweep(env: Env, pool: StatePool, buckets: seq<seq<nat>>, best: nat, ghost others: set<nat>,
               hm: map<int, int>, from: int, width: nat)
    returns (buckets': seq<seq<nat>>, best': nat, hm': map<int, int>, aborted: bool)
    requires SearchEnv(env) && Pooled(env, pool, buckets, best, others) && 0 <= from <= 1024
    modifies pool
    ensures Pooled(env, pool, buckets', best', others)
    ensures SameAbove(buckets, buckets', from - 1) && (!aborted ==> EmptyBetween(buckets', 0, from - 1))
    ensures NoWorse(old(pool.store[best]), pool.store, best') && Grows(hm, hm')
  {
    buckets', best', hm', aborted := buckets, best, hm, false;
    ghost var store0 := pool.store;
    var k := from;
    while k != 0
      invariant 0 <= k <= from
      invariant Pooled(env, pool, buckets', best', others)
      invariant SameAbove(buckets, buckets', from - 1) && EmptyBetween(buckets', k, from - 1)
      invariant NoWorse(store0[best], pool.store, best') && Grows(hm, hm')
    {
      k := k - 1;
      ghost var before, store1, best1 := buckets', pool.store, best';
      var ab;
      ghost var kept, dropped, done;
      buckets', best', hm', ab, kept, dropped, done := SweepBucket(env, pool, buckets', best', others, hm', k, width);
      NoWorseTrans(store0[best], store1, best1, pool.store, best');
      if ab {
        aborted := true;
        return;
      }
      EmptyStep(buckets, before, buckets', k, from - 1);
    }
  }

  /** state_av before the first push: 1024 empty buckets. */
  const NoBuckets: seq<seq<nat>> := seq(1024, _ => [])

  /** Every slot of init holds a sound state beamSearch can file: not the first stone, fewer than 1024 free cells. */
  ghost predicate Fileable(env: Env, store: map<nat, Board>, init: seq<nat>)
    requires WfEnv(env)
  {
    forall i | 0 <= i < |init| ::
      init[i] in store && Sound(env, store[init[i]]) && !IsFirstStone(store[init[i]])
      && 0 <= store[init[i]].emptyCount < 1024
  }

  /** The slots of init whose states have e free cells, in the order of init. */
  function BucketOf(store: map<nat, Board>, init: seq<nat>, e: int): (v: seq<nat>)
    requires forall i | 0 <= i < |init| :: init[i] in store
    ensures forall i | 0 <= i < |v| :: v[i] in init && store[v[i]].emptyCount == e
    ensures forall i | 0 <= i < |init| && store[init[i]].emptyCount == e :: init[i] in v
  {
    if init == [] then []
    else
      var last := init[|init| - 1];
      BucketOf(store, init[..|init| - 1], e) + (if store[last].emptyCount == e then [last] else [])
  }

  lemma HeldNone()
    ensures Held(NoBuckets) == {}
  {
  }

  /** A slot of others, holding a sound state with e free cells, moves to the back of bucket e. */
  lemma ArrangedFile(env: Env, store: map<nat, Board>, live: set<nat>, buckets: seq<seq<nat>>, best: nat,
                     others: set<nat>, s: nat, e: int)
    requires WfEnv(env) && 0 <= e < 1024 && s !in others
    requires Arranged(env, store, live, buckets, best, others + {s}) && InBucket(env, store, s, e)
    ensures Arranged(env, store, live, buckets[e := buckets[e] + [s]], best, others)
  {
    var b' := buckets[e := buckets[e] + [s]];
    HeldPush(buckets, e, s);
    forall f, i | 0 <= f < 1024 && 0 <= i < |b'[f]|
      ensures InBucket(env, store, b'[f][i], f)
    {
      if f != e || i < |buckets[e]| {
        assert b'[f][i] == buckets[f][i];
      }
    }
  }

  /** Filing init[i] extends the buckets of init[..i] to those of init[..i + 1]. */
  lemma BucketOfStep(store: map<nat, Board>, init: seq<nat>, i: int, buckets: seq<seq<nat>>, next: seq<nat>)
    requires 0 <= i < |init| && forall j | 0 <= j < |init| :: init[j] in store
    requires 0 <= store[init[i]].emptyCount < 1024 && next == init[..i + 1]
    requires |buckets| == 1024 && forall e | 0 <= e < 1024 :: buckets[e] == BucketOf(store, init[..i], e)
    ensures var e := store[init[i]].emptyCount;
      forall f | 0 <= f < 1024 :: buckets[e := buckets[e] + [init[i]]][f] == BucketOf(store, next, f)
  {
    assert next[..i] == init[..i];
  }

  /** init[i] leaves the slots still to be filed, and no later slot is it. */
  lemma SlotsFrom(init: seq<nat>, i: int)
    requires 0 <= i < |init| && DistinctSlots(init)
    ensures SlotSet(init[i..]) == SlotSet(init[i + 1..]) + {init[i]} && init[i] !in SlotSet(init[i + 1..])
  {
    assert init[i..] == [init[i]] + init[i + 1..];
    var rest := init[i + 1..];
    forall x | x in rest
      ensures x != init[i]
    {
      var j :| 0 <= j < |rest| && rest[j] == x;
      assert init[i + 1 + j] == x;
    }
  }

  /** Filing init[i]: it passes from the slots still to be filed to the back of its bucket. */
  lemma FileStep(env: Env, store: map<nat, Board>, live: set<nat>, buckets: seq<seq<nat>>, best: nat,
                 others: set<nat>, init: seq<nat>, i: int)
    requires WfEnv(env) && 0 <= i < |init| && DistinctSlots(init) && others !! SlotSet(init)
    requires Fileable(env, store, init)
    requires Arranged(env, store, live, buckets, best, others + SlotSet(init[i..]))
    ensures var e := store[init[i]].emptyCount;
      Arranged(env, store, live, buckets[e := buckets[e] + [init[i]]], best, others + SlotSet(init[i + 1..]))
  {
    var s := init[i];
    SlotsFrom(init, i);
    assert s in init;
    assert s in SlotSet(init);
    assert others + SlotSet(init[i..]) == (others + SlotSet(init[i + 1..])) + {s};
    ArrangedFile(env, store, live, buckets, best, others + SlotSet(init[i + 1..]), s, store[s].emptyCount);
  }

  /**
   * The loop at the start of beamSearch: each state of init is pushed to
   * the bucket of its free-cell count, in the order of init; the slots of
   * init pass from others to the buckets.
   */
  method FileAll(env: Env, store: map<nat, Board>, ghost live: set<nat>, init: seq<nat>, best: nat,
                 ghost others: set<nat>)
    returns (buckets: seq<seq<nat>>)
    requires WfEnv(env) && Arranged(env, store, live, NoBuckets, best, others + SlotSet(init))
    requires DistinctSlots(init) && others !! SlotSet(init) && Fileable(env, store, init)
    ensures Arranged(env, store, live, buckets, best, others)
    ensures |buckets| == 1024 && forall e | 0 <= e < 1024 :: buckets[e] == BucketOf(store, init, e)
  {
    buckets := NoBuckets;
    for i := 0 to |init|
      invariant Arranged(env, store, live, buckets, best, others + SlotSet(init[i..]))
      invariant |buckets| == 1024 && forall e | 0 <= e < 1024 :: buckets[e] == BucketOf(store, init[..i], e)
    {
      var e := store[init[i]].emptyCount;
      FileStep(env, store, live, buckets, best, others, init, i);
      BucketOfStep(store, init, i, buckets, init[..i + 1]);
      buckets := buckets[e := buckets[e] + [init[i]]];
    }
    assert init[..|init|] == init;
    assert SlotSet(init[|init|..]) == {};
  }

  /** FileAll on the states of the pool, which it leaves untouched. */
  method Distribute(env: Env, pool: StatePool, init: seq<nat>, best: nat, ghost others: set<nat>)
    returns (buckets: seq<seq<nat>>)
    requires SearchEnv(env) && Pooled(env, pool, NoBuckets, best, others + SlotSet(init))
    requires DistinctSlots(init) && others !! SlotSet(init) && Fileable(env, pool.store, init)
    ensures Pooled(env, pool, buckets, best, others)
    ensures |buckets| == 1024 && forall e | 0 <= e < 1024 :: buckets[e] == BucketOf(pool.store, init, e)
  {
    buckets := FileAll(env, pool.store, pool.Live(), init, best, others);
  }

  /** When every bucket but the last is empty, the buckets hold exactly the slots of the last. */
  lemma HeldLast(buckets: seq<seq<nat>>)
    requires |buckets| == 1024 && EmptyBetween(buckets, 0, 1022)
    ensures Held(buckets) == SlotSet(buckets[1023])
  {
    forall x | x in Held(buckets)
      ensures x in SlotSet(buckets[1023])
    {
      var e, i :| 0 <= e < |buckets| && 0 <= i < |buckets[e]| && buckets[e][i] == x;
      assert e == 1023;
    }
    forall x | x in SlotSet(buckets[1023])
      ensures x in Held(buckets)
    {
      var i :| 0 <= i < |buckets[1023]| && buckets[1023][i] == x;
    }
  }

  /** The slots of the last bucket are apart from best and others, and are all the buckets hold once the rest are empty. */
  lemma LastBucket(env: Env, store: map<nat, Board>, live: set<nat>, buckets: seq<seq<nat>>, best: nat,
                   others: set<nat>)
    requires WfEnv(env) && Arranged(env, store, live, buckets, best, others)
    ensures SlotSet(buckets[1023]) !! others + {best}
    ensures EmptyBetween(buckets, 0, 1022) ==> live == others + {best} + SlotSet(buckets[1023])
    ensures EmptyBetween(buckets, 0, 1023) ==> live == others + {best}
  {
    forall x | x in SlotSet(buckets[1023])
      ensures x in Held(buckets)
    {
      var i :| 0 <= i < |buckets[1023]| && buckets[1023][i] == x;
      assert buckets[1023][i] == x;
    }
    if EmptyBetween(buckets, 0, 1022) {
      HeldLast(buckets);
      assert buckets[1023] == [] ==> SlotSet(buckets[1023]) == {};
    }
  }

  /**
   * beamSearch as written: its loop, for (int k = 1023; k--;), sweeps
   * buckets 1022 down to 0, so the states of init with 1023 free cells
   * (left) are neither expanded nor freed: on completion the pool still
   * holds them beside best and the slots the caller holds.
   */
  method BeamSearchAsWritten(env: Env, pool: StatePool, init: seq<nat>, best: nat, ghost others: set<nat>,
                             hm: map<int, int>, width: nat)
    returns (best': nat, hm': map<int, int>, aborted: bool, ghost left: seq<nat>)
    requires SearchEnv(env) && Pooled(env, pool, NoBuckets, best, others + SlotSet(init))
    requires DistinctSlots(init) && others !! SlotSet(init) && Fileable(env, pool.store, init)
    modifies pool
    ensures pool.Valid() && NoWorse(old(pool.store[best]), pool.store, best') && Grows(hm, hm')
    ensures left == BucketOf(old(pool.store), init, 1023) && SlotSet(left) !! others + {best'}
    ensures !aborted ==> pool.Live() == others + {best'} + SlotSet(left)
  {
    var buckets := Distribute(env, pool, init, best, others);
    var swept;
    swept, best', hm', aborted := Sweep(env, pool, buckets, best, others, hm, 1023, width);
    left := swept[1023];
    LastBucket(env, pool.store, pool.Live(), swept, best', others);
  }

  /**
   * beamSearch with its loop starting from k = 1024, so that every bucket
   * is swept: on completion, unless an expansion aborts, the pool holds
   * only best and the slots the caller holds.
   */
  method BeamSearch(env: Env, pool: StatePool, init: seq<nat>, best: nat, ghost others: set<nat>,
                    hm: map<int, int>, width: nat)
    returns (best': nat, hm': map<int, int>, aborted: bool)
    requires SearchEnv(env) && Pooled(env, pool, NoBuckets, best, others + SlotSet(init))
    requires DistinctSlots(init) && others !! SlotSet(init) && Fileable(env, pool.store, init)
    modifies pool
    ensures pool.Valid() && NoWorse(old(pool.store[best]), pool.store, best') && Grows(hm, hm')
    ensures !aborted ==> pool.Live() == others + {best'}
  {
    var buckets := Distribute(env, pool, init, best, others);
    var swept;
    swept, best', hm', aborted := Sweep(env, pool, buckets, best, others, hm, 1024, width);
    LastBucket(env, pool.store, pool.Live(), swept, best', others);
  }

  /* ---------------------------------------------------------------------- */
  /* firstPut                                                                */
  /* ---------------------------------------------------------------------- */

  /** No placement is available at the first n cells in raster order. */
  ghost predicate NoneBefore(env: Env, a: Board, n: int)
    requires WfEnv(env) && Shaped(a)
  {
    forall c | 0 <= c < n && c < CellCount :: AvailableList(env, a, From1d(c).x, From1d(c).y) == []
  }

  lemma NoneBeforeStep(env: Env, a: Board, p: Point)
    requires WfEnv(env) && Shaped(a) && InField(p)
    requires NoneBefore(env, a, To1d(p)) && AvailableList(env, a, p.x, p.y) == []
    ensures NoneBefore(env, a, To1d(p) + 1)
  {
    From1dTo1d(p);
  }

  /** The scan of firstPut: the first cell in raster order with an available placement, and its list. */
  method FirstCell(env: Env, a: Board) returns (found: bool, pos: Point, list: seq<Put>)
    requires WfEnv(env) && Shaped(a)
    ensures found ==> InField(pos) && list == AvailableList(env, a, pos.x, pos.y) && list != []
    ensures found ==> NoneBefore(env, a, To1d(pos))
    ensures !found ==> NoneBefore(env, a, CellCount)
  {
    for y := 0 to Size
      invariant NoneBefore(env, a, y * Size)
    {
      for x := 0 to Size
        invariant NoneBefore(env, a, y * Size + x)
      {
        list := AvailableList(env, a, x, y);
        if list != [] {
          return true, Point(x, y), list;
        }
        NoneBeforeStep(env, a, Point(x, y));
      }
    }
    return false, Point(0, 0), [];
  }

  /** Every placement of list is available in a. */
  ghost predicate AllAvailable(env: Env, a: Board, list: seq<Put>)
    requires WfEnv(env) && Shaped(a)
  {
    forall i | 0 <= i < |list| :: PutShape(list[i]) && AvailableSpec(env, a, list[i], false)
  }

  lemma AvailableAt(env: Env, a: Board, list: seq<Put>, i: int)
    requires WfEnv(env) && Shaped(a) && AllAvailable(env, a, list) && 0 <= i < |list|
    ensures PutShape(list[i]) && AvailableSpec(env, a, list[i], false)
  {
  }

  /** The list getAvailableList returns at an in-field cell holds available placements only. */
  lemma ListAvailable(env: Env, a: Board, p: Point)
    requires WfEnv(env) && Shaped(a) && InField(p)
    ensures AllAvailable(env, a, AvailableList(env, a, p.x, p.y))
  {
    var list := AvailableList(env, a, p.x, p.y);
    AvailableFromMembers(env, a, p.x, p.y, 0);
    forall i | 0 <= i < |list|
      ensures PutShape(list[i]) && AvailableSpec(env, a, list[i], false)
    {
      assert list[i] in list;
    }
  }

  /** Slot dst[i] holds made[i], for each slot of dst. */
  ghost predicate Holds(store: map<nat, Board>, dst: seq<nat>, made: seq<Board>) {
    |dst| <= |made| && forall i | 0 <= i < |dst| :: dst[i] in store && store[dst[i]] == made[i]
  }

  /**
   * What firstPut makes: made[i] is the child of a for list[i], scored by
   * calcSimpleScore.
   */
  ghost predicate Kids(env: Env, a: Board, list: seq<Put>, scores: seq<int>, made: seq<Board>)
    requires SearchEnv(env) && Sound(env, a) && AllAvailable(env, a, list)
  {
    && |made| == |scores| <= |list|
    && forall i | 0 <= i < |made| ::
         IsSimpleScore(env, a, list[i], scores[i]) && made[i] == Child(env, a, list[i], scores[i])
  }

  /** A new slot s holding the next state of made, apart from dst, extends what the slots hold. */
  lemma HoldsStep(store: map<nat, Board>, dst: seq<nat>, made: seq<Board>, s: nat)
    requires Holds(store, dst, made) && |dst| < |made| && s !in SlotSet(dst)
    ensures Holds(store[s := made[|dst|]], dst + [s], made)
  {
    forall i | 0 <= i < |dst|
      ensures dst[i] != s
    {
      assert dst[i] in SlotSet(dst);
    }
  }

  /** A slot not among dst keeps the slots of dst + [s] distinct. */
  lemma DistinctAppend(dst: seq<nat>, s: nat)
    requires DistinctSlots(dst) && s !in SlotSet(dst)
    ensures DistinctSlots(dst + [s]) && SlotSet(dst + [s]) == SlotSet(dst) + {s}
  {
    forall a | 0 <= a < |dst|
      ensures dst[a] != s
    {
      assert dst[a] in SlotSet(dst);
    }
  }

  /** One more placement of list, with its score and child, extends what Kids describes. */
  lemma KidsStep(env: Env, a: Board, list: seq<Put>, scores: seq<int>, made: seq<Board>, sc: int)
    requires SearchEnv(env) && Sound(env, a) && AllAvailable(env, a, list) && Kids(env, a, list, scores, made)
    requires |made| < |list| && IsSimpleScore(env, a, list[|made|], sc)
    ensures Kids(env, a, list, scores + [sc], made + [Child(env, a, list[|made|], sc)])
  {
    var scores', made' := scores + [sc], made + [Child(env, a, list[|made|], sc)];
    forall i | 0 <= i < |made'|
      ensures IsSimpleScore(env, a, list[i], scores'[i]) && made'[i] == Child(env, a, list[i], scores'[i])
    {
      if i < |made| {
        assert scores'[i] == scores[i] && made'[i] == made[i];
      }
    }
  }

  /** calcSimpleScore(put) and the state clone, addScore and put leave, for each placement of list. */
  method KidsOf(env: Env, a: Board, list: seq<Put>) returns (scores: seq<int>, made: seq<Board>)
    requires SearchEnv(env) && Sound(env, a) && AllAvailable(env, a, list)
    ensures |made| == |list| && Kids(env, a, list, scores, made)
  {
    scores, made := [], [];
    for i := 0 to |list|
      invariant |made| == i && Kids(env, a, list, scores, made)
    {
      var sc := SimpleScore(env, a, list[i]);
      KidsStep(env, a, list, scores, made, sc);
      scores, made := scores + [sc], made + [Child(env, a, list[i], sc)];
    }
  }

  /** alloc and clone of a, then addScore(sc) and put: the new slot s ends up holding c. */
  method StoreOne(pool: StatePool, a: Board, sc: int, c: Board) returns (s: nat)
    requires pool.Valid()
    modifies pool
    ensures pool.Valid() && s !in old(pool.Live()) && pool.Live() == old(pool.Live()) + {s}
    ensures pool.store == old(pool.store)[s := c]
  {
    s := pool.Alloc(a);
    pool.Update(s, a.(score := a.score + sc));
    pool.Update(s, c);
  }

  /** The live set after one more alloc, seen as the slots before the loop plus those of dst. */
  lemma LiveGrows(live0: set<nat>, live: set<nat>, live': set<nat>, dst: seq<nat>, s: nat)
    requires live == live0 + SlotSet(dst) && SlotSet(dst) !! live0
    requires s !in live && live' == live + {s} && SlotSet(dst + [s]) == SlotSet(dst) + {s}
    ensures live' == live0 + SlotSet(dst + [s]) && SlotSet(dst + [s]) !! live0
  {
  }

  /** One new slot per state of made, holding it: the clone of a, rescored and put on. */
  method StoreAll(pool: StatePool, a: Board, scores: seq<int>, made: seq<Board>) returns (dst: seq<nat>)
    requires pool.Valid() && |scores| == |made|
    modifies pool
    ensures pool.Valid() && DistinctSlots(dst) && |dst| == |made| && Holds(pool.store, dst, made)
    ensures SlotSet(dst) !! old(pool.Live()) && pool.Live() == old(pool.Live()) + SlotSet(dst)
    ensures forall q | q in old(pool.Live()) :: q in pool.store && pool.store[q] == old(pool.store[q])
  {
    dst := [];
    ghost var live0 := pool.Live();
    for i := 0 to |made|
      invariant pool.Valid() && DistinctSlots(dst) && |dst| == i && Holds(pool.store, dst, made)
      invariant SlotSet(dst) !! live0 && pool.Live() == live0 + SlotSet(dst)
      invariant forall q | q in live0 :: q in pool.store && pool.store[q] == old(pool.store[q])
    {
      ghost var store, live := pool.store, pool.Live();
      var s := StoreOne(pool, a, scores[i], made[i]);
      DistinctAppend(dst, s);
      LiveGrows(live0, live, pool.Live(), dst, s);
      HoldsStep(store, dst, made, s);
      dst := dst + [s];
    }
  }

  /** The children of a sound state, held by the slots of dst, are states beamSearch can file. */
  lemma KidsFileable(env: Env, store: map<nat, Board>, a: Board, list: seq<Put>, scores: seq<int>,
                     made: seq<Board>, dst: seq<nat>)
    requires SearchEnv(env) && Sound(env, a) && AllAvailable(env, a, list) && Kids(env, a, list, scores, made)
    requires Holds(store, dst, made) && |dst| == |made|
    ensures Fileable(env, store, dst)
  {
    FreeCountRange(env, a);
  }

  /**
   * What firstPut computes before it allocates: the first cell in raster
   * order of the state a fresh board turned to t has with an available
   * placement, that cell's list, and the child of that state for each
   * placement with its calcSimpleScore; no cell has one when !found.
   */
  ghost predicate FirstOf(env: Env, t: int, found: bool, pos: Point, list: seq<Put>, scores: seq<int>,
                          made: seq<Board>)
    requires SearchEnv(env) && IsOrientation(t)
  {
    var a := TransSpec(Fresh(env), t);
    && Sound(env, a)
    && (found ==> && InField(pos) && list == AvailableList(env, a, pos.x, pos.y) && list != []
                  && NoneBefore(env, a, To1d(pos))
                  && AllAvailable(env, a, list) && |made| == |list| && Kids(env, a, list, scores, made))
    && (!found ==> scores == [] && made == [] && NoneBefore(env, a, CellCount))
  }

  /** The scan and the children of firstPut, on values. */
  method FirstChildren(env: Env, t: int)
    returns (a: Board, found: bool, pos: Point, list: seq<Put>, scores: seq<int>, made: seq<Board>)
    requires SearchEnv(env) && IsOrientation(t)
    ensures a == TransSpec(Fresh(env), t) && FirstOf(env, t, found, pos, list, scores, made)
  {
    a := TransSpec(Fresh(env), t);
    FreshSound(env);
    TransSound(env, Fresh(env), t);
    found, pos, list := FirstCell(env, a);
    scores, made := [], [];
    if found {
      ListAvailable(env, a, pos);
      scores, made := KidsOf(env, a, list);
    }
  }

  /** The children made by firstPut, held by the slots of dst, are states beamSearch can file. */
  lemma FirstFileable(env: Env, store: map<nat, Board>, t: int, found: bool, pos: Point, list: seq<Put>,
                      scores: seq<int>, made: seq<Board>, dst: seq<nat>)
    requires SearchEnv(env) && IsOrientation(t) && FirstOf(env, t, found, pos, list, scores, made)
    requires Holds(store, dst, made) && |dst| == |made|
    ensures Fileable(env, store, dst)
  {
    var a := TransSpec(Fresh(env), t);
    if found {
      KidsFileable(env, store, a, list, scores, made, dst);
    }
  }

  /** The live set after alloc of sa, allocs of dst and free of sa. */
  lemma LiveAround(live0: set<nat>, live1: set<nat>, live2: set<nat>, live3: set<nat>, sa: nat, dst: seq<nat>)
    requires sa !in live0 && live1 == live0 + {sa}
    requires SlotSet(dst) !! live1 && live2 == live1 + SlotSet(dst) && live3 == live2 - {sa}
    ensures SlotSet(dst) !! live0 && live3 == live0 + SlotSet(dst)
  {
  }

  /**
   * firstPut(t, dst): a fresh state turned to orientation t; at the first
   * cell in raster order with an available placement, one new slot per
   * placement of that cell's list, in the list's order, holding its child;
   * the turned state goes back to the pool.
   */
  method FirstPut(env: Env, pool: StatePool, t: int)
    returns (dst: seq<nat>, ghost found: bool, ghost pos: Point, ghost list: seq<Put>,
             ghost scores: seq<int>, ghost made: seq<Board>)
    requires SearchEnv(env) && pool.Valid() && IsOrientation(t)
    modifies pool
    ensures FirstOf(env, t, found, pos, list, scores, made)
    ensures |dst| == |made| && Holds(pool.store, dst, made)
    ensures pool.Valid() && DistinctSlots(dst) && Fileable(env, pool.store, dst)
    ensures SlotSet(dst) !! old(pool.Live()) && pool.Live() == old(pool.Live()) + SlotSet(dst)
    ensures forall q | q in old(pool.Live()) :: q in pool.store && pool.store[q] == old(pool.store[q])
  {
    ghost var live0 := pool.Live();
    var sa := pool.Alloc(Fresh(env));
    ghost var live1 := pool.Live();
    var a, hit, at, puts, sc, kids := FirstChildren(env, t);
    found, pos, list, scores, made := hit, at, puts, sc, kids;
    pool.Update(sa, a);
    dst := StoreAll(pool, a, sc, kids);
    ghost var live2 := pool.Live();
    pool.Free(sa);
    LiveAround(live0, live1, live2, pool.Live(), sa, dst);
    FirstFileable(env, pool.store, t, found, pos, list, scores, made, dst);
  }

  /* ---------------------------------------------------------------------- */
  /* The bucket beamSearch as written never sweeps                           */
  /* ---------------------------------------------------------------------- */

  /** A fresh state turned to t is sound and has as many free cells as the board. */
  lemma TurnedFresh(env: Env, t: int)
    requires SearchEnv(env) && IsOrientation(t)
    ensures var a := TransSpec(Fresh(env), t); Sound(env, a) && a.emptyCount == env.rules.defaultEmptyCount
  {
    FreshSound(env);
    TransSound(env, Fresh(env), t);
    TransConsistent(env, Fresh(env), t);
  }

  /**
   * On a board without obstacles, a stone of one cell put by firstPut
   * leaves 1023 free cells: its state goes to bucket 1023.
   */
  lemma OneCellKid(env: Env, t: int, found: bool, pos: Point, list: seq<Put>, scores: seq<int>,
                   made: seq<Board>, i: int)
    requires SearchEnv(env) && IsOrientation(t) && FirstOf(env, t, found, pos, list, scores, made)
    requires found && 0 <= i < |list| && env.rules.defaultEmptyCount == CellCount
    requires |Vec(env, list[i].id, list[i].r)| == 1
    ensures made[i].emptyCount == 1023
  {
    var a := TransSpec(Fresh(env), t);
    TurnedFresh(env, t);
    assert Kids(env, a, list, scores, made);
    assert made[i] == Child(env, a, list[i], scores[i]);
  }

  /**
   * A slot of init whose state has 1023 free cells is still live when
   * beamSearch as written completes, beside best and the caller's slots.
   */
  lemma StrandedSlot(store: map<nat, Board>, init: seq<nat>, i: int, others: set<nat>, best: nat,
                     left: seq<nat>, live: set<nat>)
    requires (forall j | 0 <= j < |init| :: init[j] in store) && 0 <= i < |init|
    requires store[init[i]].emptyCount == 1023
    requires left == BucketOf(store, init, 1023) && SlotSet(left) !! others + {best}
    requires live == others + {best} + SlotSet(left)
    ensures init[i] in live && live != others + {best}
  {
    assert init[i] in init;
    var k :| 0 <= k < |left| && left[k] == init[i];
    assert init[i] in SlotSet(left);
  }
}
