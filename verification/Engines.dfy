/** The matching engine: pool, book, queues and counters, proved against module EngineModel. */
module Engines {
  import opened Orders
  import opened LinkedLevels
  import opened FixedQueues
  import opened ObjectPools
  import opened OrderBooks
  import LB = LevelBook
  import BI = BookInvariants
  import EM = EngineModel

  class MatchingEngine {
    const pool: ObjectPool
    const book: OrderBook
    const execQ: FixedQueue<Trade>
    const trashQ: FixedQueue<nat>
    var nextOrderId: nat
    var totalOrders: nat

    /** The objects the engine owns. */
    ghost function Repr(): set<object>
      reads this
    {
      {this, pool, pool.arena, pool.free, book, book.book, execQ, execQ.data, trashQ, trashQ.data}
    }

    ghost predicate Wired()
      reads this
    {
      && book.arena == pool.arena
      && pool.free != trashQ.data
      && execQ.data.Length == trashQ.data.Length == QUEUE_CAPACITY
    }

    /**
     Between calls: the free stack and the linked orders partition the pool, the pool's count
     is the number of resting orders, and the trash queue is empty.
     */
    ghost predicate Valid()
      reads this, pool, pool.arena, pool.free, book, book.book, execQ, trashQ, trashQ.data
    {
      && Wired() && pool.Valid() && book.Valid() && execQ.Valid() && trashQ.Valid()
      && trashQ.count == 0
      && Partition(pool.FreeSlots(), book.links.linked, pool.arena.Length)
      && pool.used == RestingCount(book.links.levels)
    }

    ghost function Model(): EM.Engine
      reads this, pool, book
    {
      EM.Engine(book.Model(), nextOrderId, totalOrders, pool.arena.Length, pool.used, pool.failures, pool.peak)
    }

    constructor (poolCapacity: nat)
      ensures Valid() && fresh(pool) && fresh(pool.arena) && fresh(pool.free) && fresh(book) && fresh(book.book)
      ensures fresh(execQ) && fresh(execQ.data) && fresh(trashQ) && fresh(trashQ.data)
      ensures Model() == EM.Initial(poolCapacity) && execQ.Contents() == []
    {
      var p := new ObjectPool(poolCapacity);
      pool := p;
      book := new OrderBook(p.arena);
      execQ := new FixedQueue<Trade>(QUEUE_CAPACITY);
      trashQ := new FixedQueue<nat>(QUEUE_CAPACITY);
      ghost var free := p.FreeSlots();
      nextOrderId := 1;
      totalOrders := 0;
      new;
      assert pool.FreeSlots() == free;
      assert book.Model() == LB.Empty();
      assert RestingCount(book.Model().levels) == 0 by { EM.EmptyCounts(); }
    }

    /** Return the exhausted makers to the pool. */
    method ReleaseTrash(ghost inUse: set<nat>, ghost dead: seq<nat>) returns (ghost rest: set<nat>)
      requires Wired() && pool.Valid() && trashQ.Valid() && trashQ.Contents() == dead
      requires Partition(pool.FreeSlots(), inUse, pool.arena.Length)
      requires Buried(inUse, dead, inUse - (set s | s in dead)) && |dead| <= pool.used
      modifies pool, pool.free
      ensures pool.Valid() && rest == inUse - (set s | s in dead)
      ensures Partition(pool.FreeSlots(), rest, pool.arena.Length)
      ensures pool.used == old(pool.used) - |dead| && pool.failures == old(pool.failures) && pool.peak == old(pool.peak)
    {
      rest := inUse;
      for i := 0 to trashQ.count
        invariant pool.Valid() && trashQ.Contents() == dead
        invariant rest == inUse - (set s | s in dead[..i])
        invariant Partition(pool.FreeSlots(), rest, pool.arena.Length)
        invariant pool.used == old(pool.used) - i && pool.failures == old(pool.failures) && pool.peak == old(pool.peak)
      {
        var slot := trashQ.At(i);
        assert slot in rest by {
          assert dead[i] in inUse;
          assert dead[i] !in dead[..i];
        }
        PartitionPush(pool.FreeSlots(), rest, pool.arena.Length, slot);
        pool.Release(slot);
        rest := rest - {slot};
        assert dead[..i + 1] == dead[..i] + [dead[i]];
      }
      assert dead[..|dead|] == dead;
    }

    /** Acquire a slot: the partition moves it from the free stack to the slots in use. */
    method Grab() returns (order: int)
      requires Valid()
      modifies pool, pool.arena
      ensures pool.Valid() && book.Valid()
      ensures order == NULL <==> old(pool.used) == pool.arena.Length
      ensures order == NULL ==>
                && Partition(pool.FreeSlots(), book.links.linked, pool.arena.Length)
                && pool.failures == old(pool.failures) + 1 && pool.used == old(pool.used) && pool.peak == old(pool.peak)
      ensures order != NULL ==>
                && 0 <= order < pool.arena.Length && order !in book.links.linked
                && Partition(pool.FreeSlots(), book.links.linked + {order}, pool.arena.Length)
                && pool.failures == old(pool.failures) && pool.used == old(pool.used) + 1
                && pool.peak == Max(old(pool.peak), pool.used)
    {
      if pool.top >= 0 {
        ghost var free := pool.FreeSlots();
        PartitionPop(free, book.links.linked, pool.arena.Length);
        FreeCellAgrees(pool.arena[..], book.book[..], book.links, pool.free[pool.top], ZERO_CELL);
        assert free[..|free| - 1] == pool.free[..pool.top];
      }
      order := pool.Acquire();
    }

    /** Acquire a slot and write the order into it. */
    method Admit(s: EM.Submission) returns (order: int)
      requires Valid()
      modifies this, pool, pool.arena
      ensures pool.Valid() && book.Valid()
      ensures order == NULL <==> old(pool.used) == pool.arena.Length
      ensures order == NULL ==>
                && Partition(pool.FreeSlots(), book.links.linked, pool.arena.Length)
                && Model() == old(Model().(failures := Model().failures + 1))
      ensures order != NULL ==>
                && 0 <= order < pool.arena.Length && order !in book.links.linked
                && Says(pool.arena[order]) == EM.AsQuote(old(Model()), s)
                && Partition(pool.FreeSlots(), book.links.linked + {order}, pool.arena.Length)
                && Model() == old(Model().(totalOrders := Model().totalOrders + 1, nextId := Model().nextId + 1,
                                           used := Model().used + 1, peak := Max(Model().peak, Model().used + 1)))
    {
      order := Grab();
      if order == NULL {
        return;
      }
      totalOrders := totalOrders + 1;
      var cell := pool.arena[order].(side := s.side, price := s.price, quantity := s.quantity,
                                     trader := s.trader, id := nextOrderId);
      FreeCellAgrees(pool.arena[..], book.book[..], book.links, order, cell);
      ghost var mem := pool.arena[..];
      pool.arena[order] := cell;
      nextOrderId := nextOrderId + 1;
      assert pool.arena[..] == mem[order := cell];
    }

    /**
     The room SubmitOrder needs, in terms a caller can check before the call: it is there if and
     only if the submission does not overrun the free places. The book of every run is shaped.
     */
    lemma RoomExactly(s: EM.Submission)
      requires Valid() && LB.Shaped(book.Model(), nextOrderId)
      ensures (EM.Submit(Model(), s).outcome.Taken? ==>
                 execQ.count + |EM.Submit(Model(), s).outcome.trades| <= QUEUE_CAPACITY)
              <==> !EM.Overruns(Model(), s, QUEUE_CAPACITY - execQ.count)
    {
      EM.SubmitOverrunsExactly(Model(), s, QUEUE_CAPACITY - execQ.count);
    }

    /** One submission. The execution queue must have room for its trades; it is not cleared here. */
    method SubmitOrder(s: EM.Submission) returns (ok: bool)
      requires Valid()
      requires EM.Submit(Model(), s).outcome.Taken? ==>
                 execQ.count + |EM.Submit(Model(), s).outcome.trades| <= QUEUE_CAPACITY
      modifies Repr()
      ensures Valid() && execQ.Valid()
      ensures Model() == EM.Submit(old(Model()), s).engine
      ensures var outcome := EM.Submit(old(Model()), s).outcome;
              && ok == outcome.Taken?
              && execQ.Contents() == old(execQ.Contents()) + (if ok then outcome.trades else [])
    {
      ghost var was := execQ.Contents();
      var order := Admit(s);
      if order == NULL {
        assert was + [] == was;
        return false;
      }
      MatchAdmitted(order);
      ok := true;
    }

    /** Match an admitted order and recycle what that exhausts. */
    method MatchAdmitted(order: nat)
      requires Wired() && pool.Valid() && book.Valid() && execQ.Valid() && trashQ.Valid() && trashQ.count == 0
      requires order < pool.arena.Length && order !in book.links.linked && pool.arena[order].price <= MAX_PRICE_TICKS
      requires Partition(pool.FreeSlots(), book.links.linked + {order}, pool.arena.Length)
      requires pool.used == RestingCount(book.links.levels) + 1
      requires execQ.count + |LB.Match(book.Model(), Says(pool.arena[order])).trades| <= QUEUE_CAPACITY
      modifies pool, pool.arena, pool.free, book, book.book, execQ, execQ.data, trashQ, trashQ.data
      ensures Valid() && execQ.Valid()
      ensures var r := old(LB.Match(book.Model(), Says(pool.arena[order])));
              && book.Model() == r.book && execQ.Contents() == old(execQ.Contents()) + r.trades
              && pool.used == old(pool.used) - |r.dead| - (if r.left == 0 then 1 else 0)
      ensures pool.failures == old(pool.failures) && pool.peak == old(pool.peak)
    {
      ghost var o, before := Says(pool.arena[order]), book.links.linked;
      BI.MatchConserves(book.Model(), o);
      ghost var dead := book.MatchOrder(order, execQ, trashQ);
      ghost var trades := execQ.Contents();
      Recycle(order, before, dead);
      assert execQ.Contents() == trades;
    }

    /** Return to the pool what the submission exhausted. */
    method Recycle(order: nat, ghost before: set<nat>, ghost dead: seq<nat>)
      requires Wired() && pool.Valid() && book.Valid() && trashQ.Valid() && trashQ.Contents() == dead
      requires order < pool.arena.Length && order !in before
      requires Partition(pool.FreeSlots(), before + {order}, pool.arena.Length)
      requires Buried(before, dead, book.links.linked - {order}) && |dead| < pool.used
      requires order in book.links.linked <==> pool.arena[order].quantity > 0
      modifies pool, pool.free, trashQ
      ensures pool.Valid() && trashQ.Valid() && trashQ.count == 0
      ensures Partition(pool.FreeSlots(), book.links.linked, pool.arena.Length)
      ensures pool.used == old(pool.used) - |dead| - (if pool.arena[order].quantity == 0 then 1 else 0)
      ensures pool.failures == old(pool.failures) && pool.peak == old(pool.peak)
    {
      ghost var inUse := before + {order};
      assert Buried(inUse, dead, inUse - (set s | s in dead));
      ghost var rest := ReleaseTrash(inUse, dead);
      trashQ.Clear();
      assert rest == book.links.linked + {order};
      if pool.arena[order].quantity == 0 {
        PartitionPush(pool.FreeSlots(), rest, pool.arena.Length, order);
        pool.Release(order);
        assert rest - {order} == book.links.linked;
      } else {
        assert rest == book.links.linked;
      }
    }

    /** Forget the trades of the last submissions, as the core loop does after reporting them. */
    method ClearExecutionQueue()
      requires Valid()
      modifies execQ
      ensures Valid() && Model() == old(Model()) && execQ.Contents() == []
    {
      execQ.Clear();
    }
  }
}
