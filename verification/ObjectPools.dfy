/** The fixed arena of order cells and its stack of free indices. */
module ObjectPools {
  import opened Orders
  import opened LinkedLevels

  /** Slot `s` is on the free stack exactly when it exists and is not in use. */
  ghost predicate FreeOrUsed(free: seq<nat>, inUse: set<nat>, capacity: nat, s: nat) {
    (s in free <==> s < capacity && s !in inUse) && (s in inUse ==> s < capacity)
  }

  /** The stack holds, without repetition, exactly the slots below `capacity` that are not in use. */
  ghost predicate Partition(free: seq<nat>, inUse: set<nat>, capacity: nat) {
    && (forall s: nat {:trigger FreeOrUsed(free, inUse, capacity, s)} :: FreeOrUsed(free, inUse, capacity, s))
    && Distinct(free)
  }

  ghost predicate Distinct(free: seq<nat>) {
    forall i, j :: 0 <= i < j < |free| ==> free[i] != free[j]
  }

  lemma PartitionPop(free: seq<nat>, inUse: set<nat>, capacity: nat)
    requires Partition(free, inUse, capacity) && free != []
    ensures var top := free[|free| - 1];
            top !in inUse && top < capacity && Partition(free[..|free| - 1], inUse + {top}, capacity)
  {
    var top, rest := free[|free| - 1], free[..|free| - 1];
    assert FreeOrUsed(free, inUse, capacity, top);
    forall s: nat
      ensures FreeOrUsed(rest, inUse + {top}, capacity, s)
    {
      assert FreeOrUsed(free, inUse, capacity, s);
      if s in free && s != top {
        var i :| 0 <= i < |free| && free[i] == s;
        assert rest[i] == s;
      }
    }
  }

  lemma PartitionPush(free: seq<nat>, inUse: set<nat>, capacity: nat, slot: nat)
    requires Partition(free, inUse, capacity) && slot in inUse
    ensures slot < capacity
    ensures Partition(free + [slot], inUse - {slot}, capacity)
  {
    assert FreeOrUsed(free, inUse, capacity, slot);
    forall s: nat
      ensures FreeOrUsed(free + [slot], inUse - {slot}, capacity, s)
    {
      assert FreeOrUsed(free, inUse, capacity, s);
    }
  }

  class ObjectPool {
    const arena: array<Cell>
    const free: array<nat>
    var top: int
    var used: int
    var failures: nat
    var peak: int

    ghost predicate Valid()
      reads this, free
    {
      && arena.Length == free.Length
      && -1 <= top < free.Length
      && used == free.Length - (top + 1)
      && forall i :: 0 <= i <= top ==> free[i] < arena.Length
    }

    /** The stack of free slots, bottom first. */
    ghost function FreeSlots(): seq<nat>
      requires Valid()
      reads this, free
    {
      free[..top + 1]
    }

    constructor (capacity: nat)
      ensures Valid() && fresh(arena) && fresh(free) && arena.Length == capacity
      ensures Partition(FreeSlots(), {}, capacity)
      ensures failures == 0 && peak == 0 && used == 0
    {
      arena := new Cell[capacity](_ => ZERO_CELL);
      var stack := new nat[capacity];
      for i := 0 to capacity
        invariant forall k :: 0 <= k < i ==> stack[k] == k
      {
        stack[i] := i;
      }
      free := stack;
      top := capacity - 1;
      used, failures, peak := 0, 0, 0;
      new;
      assert forall i :: 0 <= i < capacity ==> FreeSlots()[i] == i;
      forall s: nat
        ensures FreeOrUsed(FreeSlots(), {}, capacity, s)
      {
        if s < capacity { assert FreeSlots()[s] == s; }
      }
    }

    /** Pop a free slot and value-initialise its cell; NULL and one more failure if there is none. */
    method Acquire() returns (order: int)
      requires Valid()
      modifies this, arena
      ensures Valid()
      ensures old(top) < 0 ==>
                && order == NULL && failures == old(failures) + 1 && FreeSlots() == old(FreeSlots())
                && used == old(used) && peak == old(peak) && arena[..] == old(arena[..])
      ensures old(top) >= 0 ==>
                && order == old(free[top]) && failures == old(failures)
                && FreeSlots() == old(free[..top]) && used == old(used) + 1 && peak == Max(old(peak), used)
                && arena[..] == old(arena[..])[order := ZERO_CELL]
    {
      if top < 0 {
        failures := failures + 1;
        return NULL;
      }
      used := used + 1;
      if used > peak {
        peak := used;
      }
      order := free[top];
      top := top - 1;
      arena[order] := ZERO_CELL;
      assert arena[..] == old(arena[..])[order := ZERO_CELL];
    }

    /** Push a slot back. The source does not check for room; a slot in use guarantees it. */
    method Release(order: int)
      requires Valid() && NULL <= order < arena.Length && (order != NULL ==> used > 0)
      modifies this, free
      ensures Valid() && failures == old(failures) && peak == old(peak)
      ensures order == NULL ==> FreeSlots() == old(FreeSlots())
      ensures order != NULL ==> FreeSlots() == old(FreeSlots()) + [order] && used == old(used) - 1
    {
      if order != NULL {
        used := used - 1;
        top := top + 1;
        free[top] := order;
      }
    }
  }
}
