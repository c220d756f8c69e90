/**
 What the matcher does, told with the side codes of the wire, 0 for a buy and 1 for a sell,
 and without the reference matcher: which resting orders an order trades with, in which
 order and at which prices, and which bound its remainder moves.
 */
module MatchingRules {
  import opened Basics
  import opened Orders
  import opened SimpleMatcher
  import LB = LevelBook
  import MR = MatcherRefinement
  import EM = EngineModel

  predicate Resting(b: LB.Book, q: Quote) {
    q.price < |b.levels| && q in b.levels[q.price]
  }

  /** Lower price, or the same price and earlier. */
  predicate Cheaper(a: Quote, b: Quote) {
    a.price < b.price || (a.price == b.price && a.id < b.id)
  }

  /** Higher price, or the same price and earlier. */
  predicate Dearer(a: Quote, b: Quote) {
    a.price > b.price || (a.price == b.price && a.id < b.id)
  }

  /** The taker trades with `makers` one by one at their prices, with all but the last of them in full. */
  ghost predicate Serves(makers: seq<Quote>, trades: seq<Trade>, taker: nat, left: nat) {
    && |makers| == |trades|
    && (forall i :: 0 <= i < |trades| ==>
          && trades[i] == Trade(makers[i].trader, taker, makers[i].price, trades[i].quantity)
          && 0 < trades[i].quantity <= makers[i].quantity
          && (i < |trades| - 1 || left > 0 ==> trades[i].quantity == makers[i].quantity))
  }

  /** A walk serves the first makers of its list, within the limit; with a remainder, all within the limit. */
  lemma WalkServes(side: seq<Quote>, asks: bool, limit: nat, taker: nat, quantity: nat)
    requires forall i :: 0 <= i < |side| ==> side[i].quantity > 0
    ensures var f := Consume(side, asks, limit, taker, quantity);
            var n := |f.trades|;
            && n <= Crossable(side, asks, limit) <= |side| && Serves(side[..n], f.trades, taker, f.left)
            && (f.left > 0 ==> n == Crossable(side, asks, limit))
            && f.left + TradedQuantity(f.trades) == quantity
  {
    ConsumeIsPriceTime(side, asks, limit, taker, quantity);
    ConsumeCounts(side, asks, limit, taker, quantity);
    var f := Consume(side, asks, limit, taker, quantity);
    forall i | 0 <= i < |f.trades|
      ensures f.trades[i] == Trade(side[i].trader, taker, side[i].price, f.trades[i].quantity)
      ensures 0 < f.trades[i].quantity <= side[i].quantity
      ensures i < |f.dead| ==> f.trades[i].quantity == side[i].quantity
    {
      if i < |f.dead| { assert Meets(f.trades[i], side[i], taker, side[i].quantity); }
    }
  }

  /** The makers an order trades with: the first of the opposite side's sorted list. */
  lemma FirstMakers(b: LB.Book, o: Quote) returns (makers: seq<Quote>)
    requires LB.Shaped(b, o.id) && LB.Uncrossed(b) && o.side <= 1 && o.price <= MAX_PRICE_TICKS
    ensures var r := LB.Match(b, o);
            var side := MR.Side(b, o.side == BUY);
            && |makers| <= Crossable(side, o.side == BUY, o.price) <= |side| && makers == side[..|makers|]
            && Serves(makers, r.trades, o.trader, r.left)
            && (r.left > 0 ==> |makers| == Crossable(side, o.side == BUY, o.price))
            && r.left + TradedQuantity(r.trades) == o.quantity
  {
    var asks := o.side == BUY;
    var side := MR.Side(b, asks);
    MR.TakeRefines(b, o);
    MR.SideBeyond(b.levels, asks, MR.Start(asks), o.id);
    WalkServes(side, asks, o.price, o.trader, o.quantity);
    makers := side[..|LB.Match(b, o).trades|];
  }

  /** The opposite side's list: sorted, and exactly the resting orders of that side. */
  lemma OppositeList(b: LB.Book, asks: bool, nextId: nat)
    requires LB.Shaped(b, nextId)
    ensures var side := MR.Side(b, asks);
            && Sorted(asks, side)
            && forall q :: q in side <==> Resting(b, q) && q.side == LB.SideOf(asks)
  {
    MR.SideSorted(b.levels, asks, MR.Start(asks), nextId);
    forall q
      ensures q in MR.Side(b, asks) <==> Resting(b, q) && q.side == LB.SideOf(asks)
    {
      MR.SideMembers(b.levels, asks, MR.Start(asks), nextId, q);
    }
  }

  /** What stands in the sorted list outside its first `n` entries stands behind them. */
  lemma BehindTheFirst(asks: bool, side: seq<Quote>, n: nat, q: Quote)
    requires Sorted(asks, side) && n <= |side| && q in side
    ensures q in side[..n] || forall i :: 0 <= i < n ==> Precedes(asks, side[i], q)
  {
    var k :| 0 <= k < |side| && side[k] == q;
    if k < n { assert side[..n][k] == q; }
  }

  lemma WithinLimit(asks: bool, side: seq<Quote>, limit: nat, q: Quote)
    requires Sorted(asks, side) && q in side && Accepts(asks, limit, q.price)
    ensures q in side[..Crossable(side, asks, limit)]
  {
    var n := Crossable(side, asks, limit);
    var k :| 0 <= k < |side| && side[k] == q;
    assert n < k ==> Precedes(asks, side[n], side[k]);
    assert k < n && side[..n][k] == q;
  }

  /** The orders `makers` come first among the resting orders of side `opposite` in the given order. */
  ghost predicate TheBest(b: LB.Book, makers: seq<Quote>, opposite: nat, before: (Quote, Quote) -> bool) {
    && (forall i :: 0 <= i < |makers| ==> Resting(b, makers[i]) && makers[i].side == opposite)
    && (forall i, j :: 0 <= i < j < |makers| ==> before(makers[i], makers[j]))
    && (forall q, i :: Resting(b, q) && q.side == opposite && q !in makers && 0 <= i < |makers| ==> before(makers[i], q))
  }

  lemma FirstAreBest(b: LB.Book, asks: bool, nextId: nat, makers: seq<Quote>)
    requires LB.Shaped(b, nextId) && |makers| <= |MR.Side(b, asks)| && makers == MR.Side(b, asks)[..|makers|]
    ensures TheBest(b, makers, LB.SideOf(asks), (x, y) => Precedes(asks, x, y))
  {
    var side := MR.Side(b, asks);
    OppositeList(b, asks, nextId);
    forall i | 0 <= i < |makers|
      ensures Resting(b, makers[i]) && makers[i].side == LB.SideOf(asks)
    {
      assert makers[i] == side[i] && side[i] in side;
    }
    forall q, i | Resting(b, q) && q.side == LB.SideOf(asks) && q !in makers && 0 <= i < |makers|
      ensures Precedes(asks, makers[i], q)
    {
      BehindTheFirst(asks, side, |makers|, q);
    }
  }

  /** The bounds after an order: only a remainder moves its own one, and the opposite one only away from the spread. */
  lemma BoundsAfter(b: LB.Book, o: Quote)
    requires LB.Shaped(b, o.id) && o.side <= 1 && o.price <= MAX_PRICE_TICKS
    ensures var c := LB.Match(b, o);
            var asks := o.side == BUY;
            && !BetterPrice(asks, LB.Best(c.book, asks), LB.Best(b, asks))
            && LB.Best(c.book, !asks) ==
               if c.left > 0 && BetterPrice(!asks, o.price, LB.Best(b, !asks)) then o.price else LB.Best(b, !asks)
  {
    var asks := o.side == BUY;
    if Accepts(asks, o.price, LB.Best(b, asks)) {
      MR.SweepKeeps(b, asks, o.price, o.trader, o.quantity, o.id);
    }
  }

  /**
   An order of side 0 buys. It trades with resting orders of side 1 priced at or below its own
   price, lowest price first and earliest first, at their prices. What is left of it has met
   all of those, and raises the bid.
   */
  lemma SideZeroBuys(b: LB.Book, o: Quote) returns (makers: seq<Quote>)
    requires LB.Shaped(b, o.id) && LB.Uncrossed(b) && o.side == 0 && o.price <= MAX_PRICE_TICKS
    ensures var r := LB.Match(b, o);
            && Serves(makers, r.trades, o.trader, r.left) && TheBest(b, makers, 1, Cheaper)
            && (forall i :: 0 <= i < |makers| ==> makers[i].price <= o.price)
            && (r.left > 0 ==> forall q :: Resting(b, q) && q.side == 1 && q.price <= o.price ==> q in makers)
            && r.left + TradedQuantity(r.trades) == o.quantity
            && r.book.bestBid == (if r.left > 0 then Max(o.price, b.bestBid) else b.bestBid)
            && r.book.bestAsk >= b.bestAsk
  {
    var side := MR.Side(b, true);
    makers := FirstMakers(b, o);
    FirstAreBest(b, true, o.id, makers);
    OppositeList(b, true, o.id);
    assert TheBest(b, makers, 1, Cheaper) by { assert forall x, y :: Precedes(true, x, y) <==> Cheaper(x, y); }
    forall q | LB.Match(b, o).left > 0 && Resting(b, q) && q.side == 1 && q.price <= o.price
      ensures q in makers
    {
      WithinLimit(true, side, o.price, q);
    }
    BoundsAfter(b, o);
  }

  /** An order of side 1 sells, to resting orders of side 0 priced at or above its own price, highest price first. */
  lemma SideOneSells(b: LB.Book, o: Quote) returns (makers: seq<Quote>)
    requires LB.Shaped(b, o.id) && LB.Uncrossed(b) && o.side == 1 && o.price <= MAX_PRICE_TICKS
    ensures var r := LB.Match(b, o);
            && Serves(makers, r.trades, o.trader, r.left) && TheBest(b, makers, 0, Dearer)
            && (forall i :: 0 <= i < |makers| ==> makers[i].price >= o.price)
            && (r.left > 0 ==> forall q :: Resting(b, q) && q.side == 0 && q.price >= o.price ==> q in makers)
            && r.left + TradedQuantity(r.trades) == o.quantity
            && r.book.bestAsk == (if r.left > 0 then Min(o.price, b.bestAsk) else b.bestAsk)
            && r.book.bestBid <= b.bestBid
  {
    var side := MR.Side(b, false);
    makers := FirstMakers(b, o);
    FirstAreBest(b, false, o.id, makers);
    OppositeList(b, false, o.id);
    assert TheBest(b, makers, 0, Dearer) by { assert forall x, y :: Precedes(false, x, y) <==> Dearer(x, y); }
    forall q | LB.Match(b, o).left > 0 && Resting(b, q) && q.side == 0 && q.price >= o.price
      ensures q in makers
    {
      WithinLimit(false, side, o.price, q);
    }
    BoundsAfter(b, o);
  }

  // ---------- two orders on a fresh engine ----------

  lemma {:induction false} NoneFrom(levels: seq<seq<Quote>>, asks: bool, p: int)
    requires forall i :: 0 <= i < |levels| && !BetterPrice(asks, i, p) ==> levels[i] == []
    ensures LB.AllFrom(levels, asks, p) == []
    decreases LB.Room(|levels|, asks, p)
  {
    if 0 <= p < |levels| { NoneFrom(levels, asks, LB.Outward(asks, p)); }
  }

  /** The first order of an engine trades with nobody and rests as it came. */
  lemma FirstRests(o: Quote)
    requires o.side <= 1 && o.price <= MAX_PRICE_TICKS
    ensures LB.Match(LB.Empty(), o).trades == []
    ensures o.quantity > 0 ==> LB.Match(LB.Empty(), o).book == LB.Insert(LB.Empty(), o)
  {
    var e, asks := LB.Empty(), o.side == BUY;
    if Accepts(asks, o.price, LB.Best(e, asks)) {
      assert LB.Sweep(e, asks, o.price, o.trader, o.quantity) == LB.Swept(e, [], [], o.quantity);
    }
    assert LB.Take(e, o) == LB.Swept(e, [], [], o.quantity);
  }

  lemma InsertedAlone(q: Quote)
    requires q.side <= 1 && q.price <= MAX_PRICE_TICKS
    ensures var b := LB.Insert(LB.Empty(), q);
            LB.AllFrom(b.levels, q.side == SELL, LB.Best(b, q.side == SELL)) == [q]
  {
    var b, asks := LB.Insert(LB.Empty(), q), q.side == SELL;
    assert b.levels[q.price] == [] + [q] == [q];
    NoneFrom(b.levels, asks, LB.Outward(asks, q.price));
    assert LB.AllFrom(b.levels, asks, q.price) == [q] + [];
  }

  /** Orders `a` and `b` are a buy and a sell whose prices meet. */
  predicate PricesMeet(a: EM.Order, b: EM.Order) {
    || (a.side == 0 && b.side == 1 && b.price <= a.price)
    || (a.side == 1 && b.side == 0 && a.price <= b.price)
  }

  /** The engine after its first order. */
  lemma AfterOne(capacity: nat, a: EM.Submission)
    requires capacity >= 2 && a.side <= 1 && a.quantity > 0
    ensures var e := EM.Run(capacity, [a]);
            && EM.Outcomes(capacity, [a]) == [EM.Taken([])]
            && e.book == LB.Insert(LB.Empty(), Quote(1, a.trader, a.side, a.price, a.quantity))
            && e.used == 1 && e.capacity == capacity && LB.Shaped(e.book, e.nextId)
  {
    var i, q := EM.Initial(capacity), Quote(1, a.trader, a.side, a.price, a.quantity);
    FirstRests(q);
    assert Front([a]) == [] && Last([a]) == a;
    assert EM.AsQuote(i, a) == q;
    EM.RunKeepsLedger(capacity, [a]);
  }

  /** The second order walks over the first. */
  lemma SecondMeetsFirst(b: LB.Book, q: Quote, o: Quote)
    requires q.price <= MAX_PRICE_TICKS && o.price <= MAX_PRICE_TICKS && q.side + o.side == 1
    requires b == LB.Insert(LB.Empty(), q) && LB.Shaped(b, o.id) && q.quantity > 0 && o.quantity > 0
    ensures LB.Match(b, o).trades ==
            if Accepts(o.side == BUY, o.price, q.price) then [Trade(q.trader, o.trader, q.price, Min(o.quantity, q.quantity))]
            else []
  {
    InsertedAlone(q);
    MR.TakeConsumes(b, o);
    var asks := o.side == BUY;
    assert asks <==> q.side == SELL;
    assert [q][1..] == [];
    assert Consume([], asks, o.price, o.trader, if o.quantity >= q.quantity then o.quantity - q.quantity else 0).trades == [];
  }

  /**
   A buy and a sell on a fresh engine: the second trades with the first if and only if their
   prices meet, at the first one's price and for the smaller quantity.
   */
  lemma TwoOrders(capacity: nat, a: EM.Submission, b: EM.Submission)
    requires capacity >= 2 && a.side + b.side == 1 && a.quantity > 0 && b.quantity > 0
    ensures EM.Outcomes(capacity, [a, b]) ==
            [EM.Taken([]),
             EM.Taken(if PricesMeet(a, b) then [Trade(a.trader, b.trader, a.price, Min(a.quantity, b.quantity))] else [])]
  {
    AfterOne(capacity, a);
    assert Front([a, b]) == [a] && Last([a, b]) == b;
    var e := EM.Run(capacity, [a]);
    SecondMeetsFirst(e.book, Quote(1, a.trader, a.side, a.price, a.quantity), EM.AsQuote(e, b));
  }

  /** For one: a buy of 10 at 1001 by trader 101, then a sell of 10 at 1000 by trader 102. */
  lemma BuyThenSell(capacity: nat)
    requires capacity >= 2
    ensures EM.Outcomes(capacity, [EM.Order(0, 1001, 10, 101), EM.Order(1, 1000, 10, 102)]) ==
            [EM.Taken([]), EM.Taken([Trade(101, 102, 1001, 10)])]
  {
    TwoOrders(capacity, EM.Order(0, 1001, 10, 101), EM.Order(1, 1000, 10, 102));
  }

  // ---------- whole runs ----------

  /** What an order keeps from its submission until it is exhausted. */
  datatype Origin = Origin(trader: nat, side: nat, price: nat)

  function OriginOf(q: Quote): Origin { Origin(q.trader, q.side, q.price) }

  ghost function Origins(subs: seq<EM.Submission>): set<Origin> {
    set j | 0 <= j < |subs| :: Origin(subs[j].trader, subs[j].side, subs[j].price)
  }

  ghost predicate LevelFrom(level: seq<Quote>, origins: set<Origin>) {
    forall i :: 0 <= i < |level| ==> OriginOf(level[i]) in origins
  }

  ghost predicate BookFrom(b: LB.Book, origins: set<Origin>) {
    forall p {:trigger b.levels[p]} :: 0 <= p < |b.levels| ==> LevelFrom(b.levels[p], origins)
  }

  /** Trade `t` of `taker` is with an order of one of these origins, at its price. */
  ghost predicate TradeFrom(t: Trade, taker: nat, origins: set<Origin>) {
    t.taker == taker && exists side :: Origin(t.maker, side, t.price) in origins
  }

  ghost predicate TradesFrom(trades: seq<Trade>, taker: nat, origins: set<Origin>) {
    forall i :: 0 <= i < |trades| ==> TradeFrom(trades[i], taker, origins)
  }

  lemma FillFrom(b: LB.Book, p: nat, quantity: nat, origins: set<Origin>)
    requires p < |b.levels| && b.levels[p] != [] && BookFrom(b, origins)
    ensures BookFrom(LB.FillHead(b, p, quantity), origins) && OriginOf(b.levels[p][0]) in origins
  {
    var level := LB.FillHead(b, p, quantity).levels[p];
    assert LevelFrom(b.levels[p], origins);
    assert LevelFrom(level, origins);
  }

  lemma {:induction false} SweepFrom(b: LB.Book, asks: bool, limit: nat, taker: nat, quantity: nat, origins: set<Origin>)
    requires LB.Bounded(b) && BookFrom(b, origins)
    ensures var r := LB.Sweep(b, asks, limit, taker, quantity);
            BookFrom(r.book, origins) && TradesFrom(r.trades, taker, origins)
    decreases RestingCount(b.levels) + LB.Room(|b.levels|, asks, LB.Best(b, asks)) + Min(quantity, 1)
  {
    var best := LB.Best(b, asks);
    if quantity == 0 || !Accepts(asks, limit, best) {
    } else if b.levels[best] == [] {
      if !LB.AtEnd(asks, best) {
        SweepFrom(LB.WithBest(b, asks, LB.Outward(asks, best)), asks, limit, taker, quantity, origins);
      }
    } else {
      var t := LB.HeadTrade(b, asks, taker, quantity);
      LB.FillCounts(b, best, quantity);
      FillFrom(b, best, quantity, origins);
      SweepFrom(LB.FillHead(b, best, quantity), asks, limit, taker, quantity - t.quantity, origins);
      LB.SweepFills(b, asks, limit, taker, quantity);
      assert TradeFrom(t, taker, origins);
    }
  }

  lemma InsertFrom(b: LB.Book, q: Quote, origins: set<Origin>)
    requires LB.Bounded(b) && q.price <= MAX_PRICE_TICKS && BookFrom(b, origins) && OriginOf(q) in origins
    ensures BookFrom(LB.Insert(b, q), origins)
  {
    assert LevelFrom(b.levels[q.price], origins);
    assert LevelFrom(b.levels[q.price] + [q], origins);
  }

  lemma MatchFrom(b: LB.Book, o: Quote, origins: set<Origin>)
    requires LB.Bounded(b) && o.price <= MAX_PRICE_TICKS && BookFrom(b, origins)
    ensures BookFrom(LB.Match(b, o).book, origins + {OriginOf(o)})
    ensures TradesFrom(LB.Match(b, o).trades, o.trader, origins)
  {
    var s, more := LB.Take(b, o), origins + {OriginOf(o)};
    if o.side == BUY && o.price >= b.bestAsk {
      SweepFrom(b, true, o.price, o.trader, o.quantity, origins);
    } else if o.side == SELL && o.price <= b.bestBid {
      SweepFrom(b, false, o.price, o.trader, o.quantity, origins);
    }
    forall p | 0 <= p < |s.book.levels|
      ensures LevelFrom(s.book.levels[p], more)
    {
      assert LevelFrom(s.book.levels[p], origins);
    }
    if s.left > 0 { InsertFrom(s.book, o.(quantity := s.left), more); }
  }

  lemma OriginsGrow(subs: seq<EM.Submission>)
    requires subs != []
    ensures Origins(subs) == Origins(Front(subs)) + {Origin(Last(subs).trader, Last(subs).side, Last(subs).price)}
  {
    var front, last := Front(subs), Last(subs);
    forall x
      ensures x in Origins(subs) <==> x in Origins(front) || x == Origin(last.trader, last.side, last.price)
    {
      if x in Origins(front) {
        var j :| 0 <= j < |front| && x == Origin(front[j].trader, front[j].side, front[j].price);
        assert subs[j] == front[j];
      }
      if x in Origins(subs) {
        var j :| 0 <= j < |subs| && x == Origin(subs[j].trader, subs[j].side, subs[j].price);
        assert j < |front| ==> subs[j] == front[j];
      }
      assert subs[|subs| - 1] == last;
    }
  }

  /** Over every run each resting order is one that was submitted, with its trader, side and price. */
  lemma {:induction false} RunFrom(capacity: nat, subs: seq<EM.Submission>)
    ensures BookFrom(EM.Run(capacity, subs).book, Origins(subs))
  {
    if subs != [] {
      var e, s := EM.Run(capacity, Front(subs)), Last(subs);
      RunFrom(capacity, Front(subs));
      OriginsGrow(subs);
      if e.used != e.capacity {
        MatchFrom(e.book, EM.AsQuote(e, s), Origins(Front(subs)));
      } else {
        Widen(e.book, Origins(Front(subs)), Origins(subs));
      }
    }
  }

  lemma Widen(b: LB.Book, origins: set<Origin>, more: set<Origin>)
    requires BookFrom(b, origins) && origins <= more
    ensures BookFrom(b, more)
  {
    forall p | 0 <= p < |b.levels|
      ensures LevelFrom(b.levels[p], more)
    {
      assert LevelFrom(b.levels[p], origins);
    }
  }

  /**
   After every run, each trade of the next submission names its trader as the taker, and as the
   maker the trader of an earlier submission, at that submission's price. If the run never
   strands, the two are of opposite sides.
   */
  lemma TradeNamesItsOrders(capacity: nat, subs: seq<EM.Submission>, s: EM.Submission, i: nat) returns (j: nat)
    requires var o := EM.Submit(EM.Run(capacity, subs), s).outcome;
             o.Taken? && i < |o.trades|
    ensures j < |subs|
    ensures var t := EM.Submit(EM.Run(capacity, subs), s).outcome.trades[i];
            && t.taker == s.trader && t.maker == subs[j].trader && t.price == subs[j].price
            && (EM.NeverStrands(capacity, subs) ==> s.side + subs[j].side == 1)
  {
    var e := EM.Run(capacity, subs);
    var o := EM.AsQuote(e, s);
    var t := LB.Match(e.book, o).trades[i];
    RunFrom(capacity, subs);
    MatchFrom(e.book, o, Origins(subs));
    assert TradeFrom(t, s.trader, Origins(subs));
    var side :| Origin(t.maker, side, t.price) in Origins(subs);
    if EM.NeverStrands(capacity, subs) {
      side := OppositeMaker(capacity, subs, s, i);
    }
    j :| 0 <= j < |subs| && Origin(t.maker, side, t.price) == Origin(subs[j].trader, subs[j].side, subs[j].price);
  }

  lemma OppositeMaker(capacity: nat, subs: seq<EM.Submission>, s: EM.Submission, i: nat) returns (side: nat)
    requires EM.NeverStrands(capacity, subs) && EM.Run(capacity, subs).used != EM.Run(capacity, subs).capacity
    requires i < |LB.Match(EM.Run(capacity, subs).book, EM.AsQuote(EM.Run(capacity, subs), s)).trades|
    ensures s.side + side == 1
    ensures var t := LB.Match(EM.Run(capacity, subs).book, EM.AsQuote(EM.Run(capacity, subs), s)).trades[i];
            Origin(t.maker, side, t.price) in Origins(subs)
  {
    var e := EM.Run(capacity, subs);
    var o := EM.AsQuote(e, s);
    EM.RunKeepsLedger(capacity, subs);
    EM.RunUncrossedExactly(capacity, subs);
    RunFrom(capacity, subs);
    var makers: seq<Quote>;
    if s.side == 0 {
      makers := SideZeroBuys(e.book, o);
      side := 1;
    } else {
      EM.MatchTradesExactly(e.book, o, 0);
      makers := SideOneSells(e.book, o);
      side := 0;
    }
    var m := makers[i];
    assert Resting(e.book, m);
    var k :| 0 <= k < |e.book.levels[m.price]| && e.book.levels[m.price][k] == m;
    assert LevelFrom(e.book.levels[m.price], Origins(subs));
    assert OriginOf(e.book.levels[m.price][k]) in Origins(subs);
  }
}
