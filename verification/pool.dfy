/**
 * GameState's allocator: a free list of slots, refilled 32768 slots at a
 * time, with the counters the memory check compares at the end of a run.
 * A slot holds the state written into it when it is handed out (alloc is
 * always followed by init or by clone's copy).
 */
module Pool {
  import opened States

  /** The number of slots one refill obtains. */
  const Chunk: nat := 32768

  predicate DistinctSlots(s: seq<nat>) {
    forall a, c | 0 <= a < c < |s| :: s[a] != s[c]
  }

  /** The slots a sequence holds. */
  ghost function SlotSet(s: seq<nat>): set<nat> {
    set x | x in s
  }

  /** s from back to front: the order in which pops from the back of a vector see its slots. */
  function Reversed(s: seq<nat>): (r: seq<nat>)
    ensures |r| == |s| && forall i | 0 <= i < |s| :: r[i] == s[|s| - 1 - i]
  {
    seq(|s|, i requires 0 <= i < |s| => s[|s| - 1 - i])
  }

  /** Pushing x on the back of s puts it first in the order of pops. */
  lemma ReversedAppend(s: seq<nat>, x: nat)
    ensures Reversed(s + [x]) == [x] + Reversed(s)
  {
    assert forall i | 0 <= i < |s| + 1 :: Reversed(s + [x])[i] == ([x] + Reversed(s))[i];
  }

  /** Reading a list from the back twice gives it back. */
  lemma ReversedTwice(s: seq<nat>)
    ensures Reversed(Reversed(s)) == s
  {
  }

  lemma ReversedSlots(s: seq<nat>)
    requires DistinctSlots(s)
    ensures DistinctSlots(Reversed(s)) && SlotSet(Reversed(s)) == SlotSet(s)
  {
    var r := Reversed(s);
    forall x | x in SlotSet(s)
      ensures x in SlotSet(r)
    {
      var i :| 0 <= i < |s| && s[i] == x;
      assert r[|s| - 1 - i] == x;
    }
  }

  class StatePool {
    /** GameState::pool_: the free slots, taken from and given back at the back. */
    var free: seq<nat>
    /** The slots obtained so far; they are numbered 0 .. slots - 1. */
    var slots: nat
    /** The state each slot handed out holds. */
    var store: map<nat, Board>
    /** g.total_alloc_count and g.total_free_count. */
    var allocCount: nat
    var freeCount: nat

    /** The slots handed out and not given back. */
    ghost function Live(): set<nat>
      reads this
    {
      LiveOf(free, slots)
    }

    /**
     * The free list holds distinct slots, every live slot holds a state,
     * and the counters differ by the number of live slots.
     */
    ghost predicate Valid()
      reads this
    {
      && (forall m | 0 <= m < |free| :: free[m] < slots)
      && DistinctSlots(free)
      && (forall i | i in Live() :: i in store)
      && allocCount == freeCount + |Live()|
    }

    /** The pool before the first alloc. */
    constructor()
      ensures Valid() && Live() == {}
      ensures free == [] && slots == 0 && allocCount == 0 && freeCount == 0
    {
      free := [];
      slots := 0;
      store := map[];
      allocCount := 0;
      freeCount := 0;
    }

    /**
     * GameState::alloc followed by the write of b: the slot at the back of
     * the free list, after a refill of Chunk new slots when the list is empty.
     */
    method Alloc(b: Board) returns (s: nat)
      requires Valid()
      modifies this
      ensures Valid()
      ensures old(free) != [] ==>
        s == old(free)[|old(free)| - 1] && free == old(free)[..|old(free)| - 1] && slots == old(slots)
      ensures old(free) == [] ==>
        && s == old(slots) + Chunk - 1 && slots == old(slots) + Chunk
        && free == seq(Chunk - 1, m requires 0 <= m => old(slots) + m)
      ensures s !in old(Live()) && Live() == old(Live()) + {s}
      ensures store == old(store)[s := b]
      ensures allocCount == old(allocCount) + 1 && freeCount == old(freeCount)
    {
      if free == [] {
        Refill();
        assert free[..|free| - 1] == seq(Chunk - 1, m requires 0 <= m => old(slots) + m);
      }
      s := Pop(b);
    }

    /** The pop of GameState::alloc from a non-empty free list, and the write of b. */
    method Pop(b: Board) returns (s: nat)
      requires Valid() && free != []
      modifies this
      ensures Valid()
      ensures s == old(free)[|old(free)| - 1] && free == old(free)[..|old(free)| - 1] && slots == old(slots)
      ensures s !in old(Live()) && Live() == old(Live()) + {s}
      ensures store == old(store)[s := b]
      ensures allocCount == old(allocCount) + 1 && freeCount == old(freeCount)
    {
      s := free[|free| - 1];
      LivePop(free, slots);
      free := free[..|free| - 1];
      store := store[s := b];
      allocCount := allocCount + 1;
    }

    /** The refill of GameState::alloc: Chunk new slots, none of them live. */
    method Refill()
      requires Valid() && free == []
      modifies this
      ensures Valid() && Live() == old(Live())
      ensures slots == old(slots) + Chunk && free == seq(Chunk, m requires 0 <= m => old(slots) + m)
      ensures store == old(store) && allocCount == old(allocCount) && freeCount == old(freeCount)
    {
      var base := slots;
      free := seq(Chunk, m requires 0 <= m => base + m);
      slots := base + Chunk;
      LiveRefill(base);
    }

    /** A method of GameState called through the pointer of live slot s leaves b in it. */
    method Update(s: nat, b: Board)
      requires Valid() && s in Live()
      modifies this
      ensures Valid()
      ensures free == old(free) && slots == old(slots) && store == old(store)[s := b]
      ensures Live() == old(Live()) && allocCount == old(allocCount) && freeCount == old(freeCount)
    {
      store := store[s := b];
    }

    /** GameState::free: the slot goes back on the free list. */
    method Free(s: nat)
      requires Valid() && s in Live()
      modifies this
      ensures Valid()
      ensures free == old(free) + [s] && slots == old(slots) && store == old(store)
      ensures Live() == old(Live()) - {s}
      ensures freeCount == old(freeCount) + 1 && allocCount == old(allocCount)
    {
      ghost var before := Live();
      free := free + [s];
      assert Live() == before - {s};
      freeCount := freeCount + 1;
    }

    /** GameState::free on each slot of ss in turn. */
    method FreeAll(ss: seq<nat>)
      requires Valid() && DistinctSlots(ss) && SlotSet(ss) <= Live()
      modifies this
      ensures Valid()
      ensures free == old(free) + ss && slots == old(slots) && store == old(store)
      ensures Live() == old(Live()) - SlotSet(ss)
      ensures freeCount == old(freeCount) + |ss| && allocCount == old(allocCount)
    {
      for i := 0 to |ss|
        invariant Valid()
        invariant free == old(free) + ss[..i] && slots == old(slots) && store == old(store)
        invariant freeCount == old(freeCount) + i && allocCount == old(allocCount)
      {
        assert ss[i] in SlotSet(ss);
        assert ss[i] !in ss[..i];
        assert ss[..i + 1] == ss[..i] + [ss[i]];
        Free(ss[i]);
      }
      assert ss[..|ss|] == ss;
      LiveAppend(old(free), slots, ss);
    }
  }

  /** The slots below `slots` that are not on the free list. */
  ghost function LiveOf(free: seq<nat>, slots: nat): set<nat> {
    set i: nat | i < slots && i !in free
  }

  /** Taking the last slot off a free list of distinct slots makes exactly that slot live. */
  lemma LivePop(free: seq<nat>, slots: nat)
    requires free != [] && DistinctSlots(free) && forall m | 0 <= m < |free| :: free[m] < slots
    ensures var s := free[|free| - 1];
      && s !in LiveOf(free, slots)
      && LiveOf(free[..|free| - 1], slots) == LiveOf(free, slots) + {s}
  {
    var s := free[|free| - 1];
    var rest := free[..|free| - 1];
    assert free == rest + [s];
    assert s !in rest;
  }

  /** A refill with the slots base .. base + Chunk - 1 adds no live slot. */
  lemma LiveRefill(base: nat)
    ensures LiveOf(seq(Chunk, m requires 0 <= m => base + m), base + Chunk) == LiveOf([], base)
  {
    var f := seq(Chunk, m requires 0 <= m => base + m);
    forall i: nat | base <= i < base + Chunk
      ensures i in f
    {
      assert f[i - base] == i;
    }
  }

  /** Appending ss to the free list takes exactly the slots of ss out of the live set. */
  lemma LiveAppend(free: seq<nat>, slots: nat, ss: seq<nat>)
    ensures LiveOf(free + ss, slots) == LiveOf(free, slots) - SlotSet(ss)
  {
    forall i: nat
      ensures i in free + ss <==> i in free || i in SlotSet(ss)
    {
    }
  }

  /** When the counters agree, no slot is live: every slot obtained is back on the free list. */
  lemma CountersAgree(free: seq<nat>, slots: nat, live: set<nat>, allocCount: nat, freeCount: nat)
    requires live == LiveOf(free, slots)
    requires allocCount == freeCount + |live|
    ensures allocCount == freeCount <==> forall i: nat | i < slots :: i in free
  {
    if allocCount == freeCount {
      assert live == {};
      forall i: nat | i < slots
        ensures i in free
      {
        assert i !in live;
      }
    }
  }
}
