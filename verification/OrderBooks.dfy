/**
 The order book: one array of list heads shared by bids and asks, over a memory of order
 cells that is updated in place. Every method is proved against module LevelBook.
 */
module OrderBooks {
  import opened Basics
  import opened Orders
  import opened LinkedLevels
  import opened FixedQueues
  import opened SimpleMatcher
  import LB = LevelBook

  /** The pointer and volume writes of an insertion. */
  method LinkLast(arena: array<Cell>, book: array<PriceLevel>, price: nat, order: nat)
    requires price < book.Length && order < arena.Length
    requires book[price].head != NULL ==> 0 <= book[price].tail < arena.Length && book[price].tail != order
    modifies arena, book
    ensures arena[..] == LinkCell(old(arena[..]), old(book[price]), order)
    ensures book[..] == old(book[..])[price := LinkHead(old(book[price]), order, old(arena[order].quantity))]
  {
    var pl := book[price];
    if pl.head == NULL {
      book[price] := pl.(head := order, tail := order);
      arena[order] := arena[order].(prev := NULL, next := NULL);
    } else {
      arena[pl.tail] := arena[pl.tail].(next := order);
      arena[order] := arena[order].(prev := pl.tail);
      book[price] := pl.(tail := order);
      arena[order] := arena[order].(next := NULL);
    }
    book[price] := book[price].(volume := (pl.volume + arena[order].quantity) % UINT32_MODULUS);
  }

  /** The pointer and volume writes of a removal. */
  method Unlink(arena: array<Cell>, book: array<PriceLevel>, price: nat, order: nat)
    requires price < book.Length && order < arena.Length
    requires NULL <= arena[order].prev < arena.Length && NULL <= arena[order].next < arena.Length
    requires arena[order].prev != order && arena[order].next != order
    modifies arena, book
    ensures arena[..] == UnlinkCell(old(arena[..]), order)
    ensures book[..] == old(book[..])[price := UnlinkHead(old(arena[..]), old(book[price]), order)]
  {
    var prev, next := arena[order].prev, arena[order].next;
    if prev == NULL {
      book[price] := book[price].(head := next);
    } else {
      arena[prev] := arena[prev].(next := next);
    }
    if next == NULL {
      book[price] := book[price].(tail := prev);
    } else {
      arena[next] := arena[next].(prev := prev);
    }
    book[price] := book[price].(volume := (book[price].volume - arena[order].quantity) % UINT32_MODULUS);
  }

  /** The linked orders `before`, less the distinct orders `dead`, are the linked orders `after`. */
  ghost predicate Buried(before: set<nat>, dead: seq<nat>, after: set<nat>) {
    && (forall i :: 0 <= i < |dead| ==> dead[i] in before)
    && (forall i, j :: 0 <= i < j < |dead| ==> dead[i] != dead[j])
    && (forall s :: s in after <==> s in before && s !in dead)
  }

  lemma BuriedMore(before: set<nat>, dead: seq<nat>, mid: set<nat>, gone: seq<nat>, after: set<nat>)
    requires Buried(before, dead, mid) && Buried(mid, gone, after)
    ensures Buried(before, dead + gone, after)
  {
    forall i, j | 0 <= i < j < |dead + gone|
      ensures (dead + gone)[i] != (dead + gone)[j]
    {
      if i < |dead| <= j {
        assert gone[j - |dead|] in mid;
      }
    }
  }

  /** The ids of the cells `dead`, in order. */
  ghost function Names(ids: seq<nat>, dead: seq<nat>): (r: seq<nat>)
    ensures |r| == |dead|
  {
    seq(|dead|, i requires 0 <= i < |dead| => if dead[i] < |ids| then ids[dead[i]] else 0)
  }

  lemma NamesAppend(ids: seq<nat>, dead: seq<nat>, gone: seq<nat>)
    ensures Names(ids, dead + gone) == Names(ids, dead) + Names(ids, gone)
  {
  }

  /**
   Where the sweep of order `o` stands when the book is `b`: the trades made and the makers
   exhausted so far, put before what the rest of the sweep will add, are the whole.
   */
  ghost predicate Midway(b: LB.Book, asks: bool, o: Quote, whole: LB.Swept, trades: seq<Trade>, dead: seq<nat>)
    requires LB.Bounded(b)
  {
    var rest := LB.Sweep(b, asks, o.price, o.trader, o.quantity);
    && rest.book == whole.book && rest.left == whole.left
    && trades + rest.trades == whole.trades
    && dead + rest.dead == whole.dead
  }

  lemma MidwayFill(b: LB.Book, asks: bool, o: Quote, whole: LB.Swept, trades: seq<Trade>, dead: seq<nat>)
    requires LB.Bounded(b) && Midway(b, asks, o, whole, trades, dead)
    requires o.quantity > 0 && Accepts(asks, o.price, LB.Best(b, asks)) && b.levels[LB.Best(b, asks)] != []
    ensures var c := LB.FillHead(b, LB.Best(b, asks), o.quantity);
            var t, n := LB.HeadTrade(b, asks, o.trader, o.quantity), LB.HeadDead(b, asks, o.quantity);
            && Midway(c, asks, o.(quantity := o.quantity - t.quantity), whole, trades + [t], dead + n)
            && |trades| < |whole.trades| && |dead + n| <= |whole.dead|
            && RestingCount(c.levels) + |n| == RestingCount(b.levels)
  {
    var c := LB.FillHead(b, LB.Best(b, asks), o.quantity);
    var t, n := LB.HeadTrade(b, asks, o.trader, o.quantity), LB.HeadDead(b, asks, o.quantity);
    var rest := LB.Sweep(c, asks, o.price, o.trader, o.quantity - t.quantity);
    LB.SweepFills(b, asks, o.price, o.trader, o.quantity);
    Associates(trades, [t], rest.trades);
    Associates(dead, n, rest.dead);
    LB.FillCounts(b, LB.Best(b, asks), o.quantity);
  }

  lemma MidwaySkip(b: LB.Book, asks: bool, o: Quote, whole: LB.Swept, trades: seq<Trade>, dead: seq<nat>)
    requires LB.Bounded(b) && Midway(b, asks, o, whole, trades, dead)
    requires o.quantity > 0 && Accepts(asks, o.price, LB.Best(b, asks))
    requires b.levels[LB.Best(b, asks)] == [] && !LB.AtEnd(asks, LB.Best(b, asks))
    ensures Midway(LB.WithBest(b, asks, LB.Outward(asks, LB.Best(b, asks))), asks, o, whole, trades, dead)
  {
  }

  lemma MidwayStart(b: LB.Book, asks: bool, o: Quote, whole: LB.Swept)
    requires LB.Bounded(b) && whole == LB.Sweep(b, asks, o.price, o.trader, o.quantity)
    ensures Midway(b, asks, o, whole, [], [])
  {
    assert [] + whole.trades == whole.trades && [] + whole.dead == whole.dead;
  }

  lemma MidwayEnd(b: LB.Book, asks: bool, o: Quote, whole: LB.Swept, trades: seq<Trade>, dead: seq<nat>)
    requires LB.Bounded(b) && Midway(b, asks, o, whole, trades, dead)
    requires o.quantity == 0 || !Accepts(asks, o.price, LB.Best(b, asks)) ||
             (b.levels[LB.Best(b, asks)] == [] && LB.AtEnd(asks, LB.Best(b, asks)))
    ensures b == whole.book && o.quantity == whole.left && trades == whole.trades && dead == whole.dead
  {
    assert trades + [] == trades && dead + [] == dead;
  }

  /** The two ways a fill changes its level: the head is reduced, or dropped. */
  lemma FillLevels(b: LB.Book, l: Links, p: nat, quantity: nat, t: nat)
    requires b.levels == l.levels && p < |l.levels| && l.levels[p] != []
    requires t == Min(quantity, l.levels[p][0].quantity)
    ensures var r := ReduceLink(l, p, t).levels;
            LB.FillHead(b, p, quantity) ==
            b.(levels := if t == l.levels[p][0].quantity then r[p := r[p][1..]] else r,
               totalTrades := b.totalTrades + 1, totalVolume := b.totalVolume + t)
  {
    var level := l.levels[p];
    var r := ReduceLink(l, p, t).levels;
    assert r[p] == [level[0].(quantity := level[0].quantity - t)] + level[1..];
    assert r[p][1..] == level[1..];
  }

  /** How things stood when a sweep began, and what the whole sweep will be. */
  datatype Start = Start(taker: Cell, ids: seq<nat>, linked: set<nat>, trades: seq<Trade>, trash: seq<nat>, whole: LB.Swept)

  class OrderBook {
    /** The memory the orders live in; it belongs to the pool. */
    const arena: array<Cell>
    const book: array<PriceLevel>
    var bestBid: nat
    var bestAsk: nat
    var totalTrades: nat
    var totalVolume: nat
    ghost var links: Links

    ghost predicate Valid()
      reads this, arena, book
    {
      bestBid <= MAX_PRICE_TICKS && bestAsk <= MAX_PRICE_TICKS && Agrees(arena[..], book[..], links)
    }

    ghost function Model(): LB.Book
      reads this
    {
      LB.Book(links.levels, bestBid, bestAsk, totalTrades, totalVolume)
    }

    constructor (arena: array<Cell>)
      ensures this.arena == arena && fresh(book)
      ensures Valid() && links.linked == {} && Model() == LB.Empty()
    {
      this.arena := arena;
      book := new PriceLevel[MAX_PRICE_TICKS + 1](_ => PriceLevel(NULL, NULL, 0));
      bestBid, bestAsk := 0, MAX_PRICE_TICKS;
      totalTrades, totalVolume := 0, 0;
      links := Links(seq(MAX_PRICE_TICKS + 1, _ => []), LB.Empty().levels, {});
    }

    /** Link an order at the back of its price level. */
    method Attach(order: nat)
      requires Agrees(arena[..], book[..], links)
      requires order < arena.Length && order !in links.linked && arena[order].price <= MAX_PRICE_TICKS
      modifies this`links, arena, book
      ensures Agrees(arena[..], book[..], links)
      ensures Says(arena[order]) == old(Says(arena[order]))
      ensures links == AddLink(old(links), order, Says(arena[order]))
      ensures Ids(arena[..]) == old(Ids(arena[..]))
    {
      ghost var mem, quote := arena[..], Says(arena[order]);
      InsertAgrees(mem, book[..], links, order);
      LinkKeepsIds(mem, book[arena[order].price], order);
      LinkLast(arena, book, arena[order].price, order);
      assert arena[order] == arena[..][order];
      links := AddLink(links, order, quote);
    }

    /** Link an order at the back of its price level and move the bound of its side. */
    method InsertOrder(order: nat)
      requires Valid() && order < arena.Length && order !in links.linked && arena[order].price <= MAX_PRICE_TICKS
      modifies this, arena, book
      ensures Valid()
      ensures links.linked == old(links.linked) + {order}
      ensures Says(arena[order]) == old(Says(arena[order]))
      ensures Model() == LB.Insert(old(Model()), Says(arena[order]))
      ensures Ids(arena[..]) == old(Ids(arena[..]))
    {
      var price, side := arena[order].price, arena[order].side;
      Attach(order);
      if side == BUY {
        bestBid := Max(price, bestBid);
      } else if side == SELL {
        bestAsk := Min(price, bestAsk);
      }
    }

    /** Unlink the order at place `k` of its level; the others keep their places. */
    method RemoveOrder(order: nat, ghost k: nat)
      requires Valid() && order < arena.Length && arena[order].price < |links.queues|
      requires k < |links.queues[arena[order].price]| && links.queues[arena[order].price][k] == order
      requires k < |links.levels[arena[order].price]|
      modifies this`links, arena, book
      ensures Valid()
      ensures links == old(DropLink(links, arena[order].price, k))
      ensures forall s :: 0 <= s < arena.Length && s !in old(links.linked) ==> arena[s] == old(arena[s])
      ensures Ids(arena[..]) == old(Ids(arena[..]))
    {
      ghost var l, p := links, arena[order].price;
      LinkedCell(arena[..], book[..], l, p, k);
      UnlinkKeepsIds(arena[..], order);
      RemoveAgrees(arena[..], book[..], l, p, k);
      Unlink(arena, book, arena[order].price, order);
      links := DropLink(l, p, k);
    }

    /** Take `t` units from an order that is not linked. */
    method ReduceIncoming(incoming: nat, t: nat)
      requires Valid() && incoming < arena.Length && incoming !in links.linked && t <= arena[incoming].quantity
      modifies arena
      ensures Valid()
      ensures arena[..] == old(arena[..])[incoming := ReduceCell(old(arena[incoming]), t)]
    {
      FreeCellAgrees(arena[..], book[..], links, incoming, ReduceCell(arena[incoming], t));
      arena[incoming] := arena[incoming].(quantity := arena[incoming].quantity - t);
      assert arena[..] == old(arena[..])[incoming := ReduceCell(old(arena[incoming]), t)];
    }

    /** Take `t` units from the first order of level `p` and from the level's volume. */
    method ReduceResting(p: nat, resting: nat, t: nat)
      requires Valid() && p < book.Length && links.queues[p] != [] && links.levels[p] != []
      requires resting == links.queues[p][0] < arena.Length
      requires t <= arena[resting].quantity == links.levels[p][0].quantity
      modifies this`links, arena, book
      ensures Valid()
      ensures arena[..] == old(arena[..])[resting := ReduceCell(old(arena[resting]), t)]
      ensures links == ReduceLink(old(links), p, t)
    {
      ghost var l := links;
      ReduceAgrees(arena[..], book[..], l, p, t);
      arena[resting] := arena[resting].(quantity := arena[resting].quantity - t);
      book[p] := book[p].(volume := (book[p].volume - t) % UINT32_MODULUS);
      links := ReduceLink(l, p, t);
      assert arena[..] == old(arena[..])[resting := ReduceCell(old(arena[resting]), t)];
      assert book[..] == old(book[..])[p := ReduceHead(old(book[p]), t)];
    }

    /** Record a trade of `t` units between the incoming order and the first order of level `p`. */
    method Execute(p: nat, incoming: nat, resting: nat, t: nat, execQ: FixedQueue<Trade>)
      requires Valid() && p < book.Length && links.queues[p] != [] && links.levels[p] != []
      requires incoming < arena.Length && incoming !in links.linked && t <= arena[incoming].quantity
      requires resting == links.queues[p][0] < arena.Length && resting != incoming
      requires t <= arena[resting].quantity && Says(arena[resting]) == links.levels[p][0]
      requires execQ.Valid() && execQ.count < execQ.data.Length
      modifies this, arena, book, execQ, execQ.data
      ensures Valid() && execQ.Valid()
      ensures bestBid == old(bestBid) && bestAsk == old(bestAsk)
      ensures totalTrades == old(totalTrades) + 1 && totalVolume == old(totalVolume) + t
      ensures links == ReduceLink(old(links), p, t)
      ensures arena[incoming] == ReduceCell(old(arena[incoming]), t)
      ensures arena[resting] == ReduceCell(old(arena[resting]), t)
      ensures Ids(arena[..]) == old(Ids(arena[..]))
      ensures execQ.Contents() == old(execQ.Contents()) +
                [Trade(arena[resting].trader, arena[incoming].trader, arena[resting].price, t)]
    {
      totalTrades := totalTrades + 1;
      totalVolume := totalVolume + t;
      execQ.Push(Trade(arena[resting].trader, arena[incoming].trader, arena[resting].price, t));
      ReduceKeepsIds(arena[..], incoming, t);
      ReduceIncoming(incoming, t);
      assert arena[resting] == arena[..][resting];
      ReduceKeepsIds(arena[..], resting, t);
      ReduceResting(p, resting, t);
      assert arena[incoming] == arena[..][incoming] && arena[resting] == arena[..][resting];
    }

    /** Move the first order of its level to the trash queue if it is exhausted. */
    method BuryIfDead(p: nat, resting: nat, trashQ: FixedQueue<nat>) returns (ghost dead: seq<nat>)
      requires Valid() && p < book.Length && links.queues[p] != [] && links.levels[p] != []
      requires resting == links.queues[p][0] < arena.Length && arena[resting].price == p && resting in links.linked
      requires trashQ.Valid() && (arena[resting].quantity == 0 ==> trashQ.count < trashQ.data.Length)
      modifies this`links, arena, book, trashQ, trashQ.data
      ensures Valid() && trashQ.Valid()
      ensures dead == if old(arena[resting].quantity) == 0 then [resting] else []
      ensures links.levels == old(if arena[resting].quantity == 0 then links.levels[p := links.levels[p][1..]] else links.levels)
      ensures Buried(old(links.linked), dead, links.linked)
      ensures forall s :: 0 <= s < arena.Length && s !in old(links.linked) ==> arena[s] == old(arena[s])
      ensures Ids(arena[..]) == old(Ids(arena[..]))
      ensures trashQ.Contents() == old(trashQ.Contents()) + dead
    {
      dead := [];
      if arena[resting].quantity == 0 {
        trashQ.Push(resting);
        assert Without(links.levels[p], 0) == links.levels[p][1..];
        RemoveOrder(resting, 0);
        dead := [resting];
      }
    }

    /** One trade of the incoming order with the first order of level `p`. */
    method TradeWithHead(p: nat, incoming: nat, execQ: FixedQueue<Trade>, trashQ: FixedQueue<nat>)
      returns (ghost dead: seq<nat>)
      requires Valid() && p < book.Length && links.levels[p] != []
      requires incoming < arena.Length && incoming !in links.linked
      requires execQ.Valid() && execQ.count < execQ.data.Length
      requires trashQ.Valid() && (links.levels[p][0].quantity <= arena[incoming].quantity ==> trashQ.count < trashQ.data.Length)
      modifies this, arena, book, execQ, execQ.data, trashQ, trashQ.data
      ensures Valid() && execQ.Valid() && trashQ.Valid()
      ensures Model() == LB.FillHead(old(Model()), p, old(arena[incoming].quantity))
      ensures var m := old(links.levels[p][0]);
              var t := Min(old(arena[incoming].quantity), m.quantity);
              && arena[incoming] == ReduceCell(old(arena[incoming]), t)
              && execQ.Contents() == old(execQ.Contents()) + [Trade(m.trader, arena[incoming].trader, m.price, t)]
              && Names(Ids(arena[..]), dead) == (if t == m.quantity then [m.id] else [])
      ensures Ids(arena[..]) == old(Ids(arena[..]))
      ensures trashQ.Contents() == old(trashQ.Contents()) + dead
      ensures Buried(old(links.linked), dead, links.linked)
    {
      FirstCell(p);
      var resting := book[p].head;
      var t := Min(arena[incoming].quantity, arena[resting].quantity);
      FillLevels(Model(), links, p, arena[incoming].quantity, t);
      ghost var target, r := LB.FillHead(Model(), p, arena[incoming].quantity), ReduceLink(links, p, t).levels;
      Execute(p, incoming, resting, t, execQ);
      dead := BuryIfDead(p, resting, trashQ);
      assert links.levels == if t == old(links.levels[p][0].quantity) then r[p := r[p][1..]] else r;
      assert Model() == target;
    }

    /** The list head of a level that is not empty. */
    lemma FirstCell(p: nat)
      requires Valid() && p < book.Length && links.levels[p] != []
      ensures links.queues[p] != [] && 0 <= book[p].head == links.queues[p][0] < arena.Length
      ensures book[p].head in links.linked
      ensures Says(arena[book[p].head]) == links.levels[p][0] && arena[book[p].head].price == p
    {
      assert LevelAgrees(arena[..], book[..], links, p);
      LinkedCell(arena[..], book[..], links, p, 0);
    }

    /**
     What a sweep keeps, `trades` and `dead` being what it has done so far: the book is valid,
     the queues hold their old contents and that, the dead are no longer linked, of the taker
     only the quantity has changed, and the rest of the sweep will complete `whole`.
     */
    ghost predicate Sweeping(asks: bool, incoming: nat, execQ: FixedQueue<Trade>, trashQ: FixedQueue<nat>,
                             start: Start, trades: seq<Trade>, dead: seq<nat>)
      reads this, arena, book, execQ, execQ.data, trashQ, trashQ.data
    {
      && Valid() && execQ.Valid() && trashQ.Valid()
      && execQ.Contents() == start.trades + trades && trashQ.Contents() == start.trash + dead
      && |start.trades| + |start.whole.trades| <= execQ.data.Length
      && |start.trash| + |start.whole.dead| <= trashQ.data.Length
      && Buried(start.linked, dead, links.linked)
      && incoming < arena.Length && incoming !in start.linked
      && arena[incoming] == start.taker.(quantity := arena[incoming].quantity)
      && Ids(arena[..]) == start.ids
      && Midway(Model(), asks, Says(arena[incoming]), start.whole, trades, Names(start.ids, dead))
    }

    lemma EmptyHead(p: nat)
      requires Valid() && p < book.Length
      ensures book[p].head == NULL <==> links.levels[p] == []
    {
      assert LevelAgrees(arena[..], book[..], links, p);
    }

    /** One trade at the bound of the swept side. */
    method FillBest(ghost asks: bool, p: nat, incoming: nat, execQ: FixedQueue<Trade>, trashQ: FixedQueue<nat>,
                    ghost start: Start, ghost trades: seq<Trade>, ghost dead: seq<nat>)
      returns (ghost trades': seq<Trade>, ghost dead': seq<nat>)
      requires Sweeping(asks, incoming, execQ, trashQ, start, trades, dead)
      requires p == LB.Best(Model(), asks) && links.levels[p] != []
      requires arena[incoming].quantity > 0 && Accepts(asks, arena[incoming].price, p)
      modifies this, arena, book, execQ, execQ.data, trashQ, trashQ.data
      ensures Sweeping(asks, incoming, execQ, trashQ, start, trades', dead')
      ensures p == LB.Best(Model(), asks)
      ensures RestingCount(links.levels) + Min(arena[incoming].quantity, 1) <
              old(RestingCount(links.levels) + Min(arena[incoming].quantity, 1))
    {
      MidwayFill(Model(), asks, Says(arena[incoming]), start.whole, trades, Names(start.ids, dead));
      ghost var c, o := LB.FillHead(Model(), p, arena[incoming].quantity), Says(arena[incoming]);
      ghost var trade, mid := LB.HeadTrade(Model(), asks, arena[incoming].trader, arena[incoming].quantity), links.linked;
      ghost var gone := TradeWithHead(p, incoming, execQ, trashQ);
      assert Model() == c && Says(arena[incoming]) == o.(quantity := o.quantity - trade.quantity);
      BuriedMore(start.linked, dead, mid, gone, links.linked);
      NamesAppend(start.ids, dead, gone);
      Associates(start.trades, trades, [trade]);
      Associates(start.trash, dead, gone);
      trades', dead' := trades + [trade], dead + gone;
    }

    /** Trade with the best asks, from the lazy bound upward, while the limit allows. */
    method SweepAsks(incoming: nat, execQ: FixedQueue<Trade>, trashQ: FixedQueue<nat>, ghost start: Start)
      returns (ghost dead: seq<nat>)
      requires Sweeping(true, incoming, execQ, trashQ, start, [], [])
      modifies this, arena, book, execQ, execQ.data, trashQ, trashQ.data
      ensures Sweeping(true, incoming, execQ, trashQ, start, start.whole.trades, dead)
      ensures Model() == start.whole.book && arena[incoming].quantity == start.whole.left
      ensures Names(start.ids, dead) == start.whole.dead
    {
      ghost var trades := [];
      dead := [];
      while arena[incoming].quantity > 0 && bestAsk <= arena[incoming].price
        invariant Sweeping(true, incoming, execQ, trashQ, start, trades, dead)
        decreases RestingCount(links.levels) + LB.Room(|links.levels|, true, bestAsk) + Min(arena[incoming].quantity, 1)
      {
        EmptyHead(bestAsk);
        if book[bestAsk].head == NULL {
          if bestAsk == MAX_PRICE_TICKS {
            break;
          }
          MidwaySkip(Model(), true, Says(arena[incoming]), start.whole, trades, Names(start.ids, dead));
          ghost var c := LB.WithBest(Model(), true, bestAsk + 1);
          bestAsk := bestAsk + 1;
          assert Model() == c;
        } else {
          trades, dead := FillBest(true, bestAsk, incoming, execQ, trashQ, start, trades, dead);
        }
      }
      MidwayEnd(Model(), true, Says(arena[incoming]), start.whole, trades, Names(start.ids, dead));
    }

    /** Trade with the best bids, from the lazy bound downward, while the limit allows. */
    method SweepBids(incoming: nat, execQ: FixedQueue<Trade>, trashQ: FixedQueue<nat>, ghost start: Start)
      returns (ghost dead: seq<nat>)
      requires Sweeping(false, incoming, execQ, trashQ, start, [], [])
      modifies this, arena, book, execQ, execQ.data, trashQ, trashQ.data
      ensures Sweeping(false, incoming, execQ, trashQ, start, start.whole.trades, dead)
      ensures Model() == start.whole.book && arena[incoming].quantity == start.whole.left
      ensures Names(start.ids, dead) == start.whole.dead
    {
      ghost var trades := [];
      dead := [];
      while arena[incoming].quantity > 0 && bestBid >= arena[incoming].price
        invariant Sweeping(false, incoming, execQ, trashQ, start, trades, dead)
        decreases RestingCount(links.levels) + LB.Room(|links.levels|, false, bestBid) + Min(arena[incoming].quantity, 1)
      {
        EmptyHead(bestBid);
        if book[bestBid].head == NULL {
          if bestBid == 0 {
            break;
          }
          MidwaySkip(Model(), false, Says(arena[incoming]), start.whole, trades, Names(start.ids, dead));
          ghost var c := LB.WithBest(Model(), false, bestBid - 1);
          bestBid := bestBid - 1;
          assert Model() == c;
        } else {
          trades, dead := FillBest(false, bestBid, incoming, execQ, trashQ, start, trades, dead);
        }
      }
      MidwayEnd(Model(), false, Says(arena[incoming]), start.whole, trades, Names(start.ids, dead));
    }

    /** The sweep an incoming order starts, if it crosses the opposite bound. */
    method Take(incoming: nat, execQ: FixedQueue<Trade>, trashQ: FixedQueue<nat>) returns (ghost dead: seq<nat>)
      requires Valid() && execQ.Valid() && trashQ.Valid()
      requires incoming < arena.Length && incoming !in links.linked
      requires var r := LB.Take(Model(), Says(arena[incoming]));
               execQ.count + |r.trades| <= execQ.data.Length && trashQ.count + |r.dead| <= trashQ.data.Length
      modifies this, arena, book, execQ, execQ.data, trashQ, trashQ.data
      ensures Valid() && execQ.Valid() && trashQ.Valid()
      ensures var r := old(LB.Take(Model(), Says(arena[incoming])));
              && Model() == r.book && arena[incoming].quantity == r.left
              && arena[incoming] == old(arena[incoming]).(quantity := arena[incoming].quantity)
              && execQ.Contents() == old(execQ.Contents()) + r.trades
              && trashQ.Contents() == old(trashQ.Contents()) + dead && Names(Ids(arena[..]), dead) == r.dead
      ensures Buried(old(links.linked), dead, links.linked)
    {
      ghost var o := Says(arena[incoming]);
      ghost var start := Start(arena[incoming], Ids(arena[..]), links.linked, execQ.Contents(), trashQ.Contents(),
                               LB.Take(Model(), o));
      dead := [];
      if arena[incoming].side == BUY && arena[incoming].price >= bestAsk {
        MidwayStart(Model(), true, o, start.whole);
        dead := SweepAsks(incoming, execQ, trashQ, start);
      } else if arena[incoming].side == SELL && arena[incoming].price <= bestBid {
        MidwayStart(Model(), false, o, start.whole);
        dead := SweepBids(incoming, execQ, trashQ, start);
      }
    }

    /**
     Match an incoming order and link what is left of it. The caller must leave room for the
     trades and for the exhausted makers, since the queues are written without a check.
     */
    method MatchOrder(incoming: nat, execQ: FixedQueue<Trade>, trashQ: FixedQueue<nat>) returns (ghost dead: seq<nat>)
      requires Valid() && execQ.Valid() && trashQ.Valid()
      requires incoming < arena.Length && incoming !in links.linked && arena[incoming].price <= MAX_PRICE_TICKS
      requires var r := LB.Match(Model(), Says(arena[incoming]));
               execQ.count + |r.trades| <= execQ.data.Length && trashQ.count + |r.dead| <= trashQ.data.Length
      modifies this, arena, book, execQ, execQ.data, trashQ, trashQ.data
      ensures Valid() && execQ.Valid() && trashQ.Valid()
      ensures var r := old(LB.Match(Model(), Says(arena[incoming])));
              && Model() == r.book && arena[incoming].quantity == r.left
              && execQ.Contents() == old(execQ.Contents()) + r.trades
              && trashQ.Contents() == old(trashQ.Contents()) + dead && Names(Ids(arena[..]), dead) == r.dead
      ensures Buried(old(links.linked), dead, links.linked - {incoming})
      ensures incoming in links.linked <==> arena[incoming].quantity > 0
    {
      dead := Take(incoming, execQ, trashQ);
      assert links.linked - {incoming} == links.linked;
      if arena[incoming].quantity > 0 {
        InsertOrder(incoming);
      }
    }
  }
}
