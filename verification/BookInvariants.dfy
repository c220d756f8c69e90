/** What one incoming order does to the book: accounting, shape, and when the bounds stay uncrossed. */
module BookInvariants {
  import opened Orders
  import opened SimpleMatcher
  import opened MatcherRefinement
  import LB = LevelBook

  /** The quantities and counts that a sweep moves. Holds of every book, crossed or not. */
  ghost predicate Accounted(b: LB.Book, s: LB.Swept, quantity: nat) {
    && s.left + TradedQuantity(s.trades) == quantity
    && OpenQuantity(s.book.levels) + TradedQuantity(s.trades) == OpenQuantity(b.levels)
    && s.book.totalTrades == b.totalTrades + |s.trades|
    && s.book.totalVolume == b.totalVolume + TradedQuantity(s.trades)
    && RestingCount(s.book.levels) + |s.dead| == RestingCount(b.levels)
    && |s.dead| <= |s.trades| <= |s.dead| + 1
    && (|s.trades| == |s.dead| + 1 ==> s.left == 0)
  }

  lemma FillMovesQuantity(b: LB.Book, p: nat, quantity: nat)
    requires p < |b.levels| && b.levels[p] != []
    ensures OpenQuantity(LB.FillHead(b, p, quantity).levels) + Min(quantity, b.levels[p][0].quantity) == OpenQuantity(b.levels)
  {
    var level := LB.FillHead(b, p, quantity).levels[p];
    WeighUpdate(OPEN_QUANTITY, b.levels, p, level);
  }

  lemma {:induction false} SweepAccounts(b: LB.Book, asks: bool, limit: nat, taker: nat, quantity: nat)
    requires LB.Bounded(b)
    ensures Accounted(b, LB.Sweep(b, asks, limit, taker, quantity), quantity)
    decreases RestingCount(b.levels) + LB.Room(|b.levels|, asks, LB.Best(b, asks)) + Min(quantity, 1)
  {
    var best := LB.Best(b, asks);
    if quantity == 0 || !Accepts(asks, limit, best) {
    } else if b.levels[best] == [] {
      if !LB.AtEnd(asks, best) {
        SweepAccounts(LB.WithBest(b, asks, LB.Outward(asks, best)), asks, limit, taker, quantity);
      }
    } else {
      var c := LB.FillHead(b, best, quantity);
      var q := quantity - Min(quantity, b.levels[best][0].quantity);
      LB.FillCounts(b, best, quantity);
      SweepAccounts(c, asks, limit, taker, q);
      FillAccounts(b, c, asks, limit, taker, quantity, q);
    }
  }

  lemma FillAccounts(b: LB.Book, c: LB.Book, asks: bool, limit: nat, taker: nat, quantity: nat, q: nat)
    requires LB.Bounded(b) && quantity > 0 && Accepts(asks, limit, LB.Best(b, asks)) && b.levels[LB.Best(b, asks)] != []
    requires c == LB.FillHead(b, LB.Best(b, asks), quantity)
    requires q == quantity - Min(quantity, b.levels[LB.Best(b, asks)][0].quantity)
    requires Accounted(c, LB.Sweep(c, asks, limit, taker, q), q)
    ensures Accounted(b, LB.Sweep(b, asks, limit, taker, quantity), quantity)
  {
    var best := LB.Best(b, asks);
    LB.FillCounts(b, best, quantity);
    FillMovesQuantity(b, best, quantity);
    var s, rest := LB.Sweep(b, asks, limit, taker, quantity), LB.Sweep(c, asks, limit, taker, q);
    assert s.trades[1..] == rest.trades;
    assert q > 0 ==> Min(quantity, b.levels[best][0].quantity) == b.levels[best][0].quantity;
    assert q == 0 ==> rest.trades == [] && rest.dead == [];
  }

  /** 1 if a remainder rests, else 0. */
  function Rests(left: nat): nat {
    if left > 0 then 1 else 0
  }

  /**
   Conservation for one incoming order, on every book: what came in is what traded twice
   over plus what rests more; and trades never outnumber the places they free by more than one.
   */
  lemma MatchConserves(b: LB.Book, o: Quote)
    requires LB.Bounded(b) && o.price <= MAX_PRICE_TICKS
    ensures var r := LB.Match(b, o);
            && r.left + TradedQuantity(r.trades) == o.quantity
            && OpenQuantity(r.book.levels) + 2 * TradedQuantity(r.trades) == OpenQuantity(b.levels) + o.quantity
            && r.book.totalTrades == b.totalTrades + |r.trades|
            && r.book.totalVolume == b.totalVolume + TradedQuantity(r.trades)
            && RestingCount(r.book.levels) + |r.dead| == RestingCount(b.levels) + Rests(r.left)
            && |r.dead| <= |r.trades| && |r.dead| <= RestingCount(b.levels)
            && |r.trades| + Rests(r.left) <= |r.dead| + 1
  {
    var s := LB.Take(b, o);
    if o.side == BUY && o.price >= b.bestAsk {
      SweepAccounts(b, true, o.price, o.trader, o.quantity);
    } else if o.side == SELL && o.price <= b.bestBid {
      SweepAccounts(b, false, o.price, o.trader, o.quantity);
    }
    if s.left > 0 {
      InsertAccounts(s.book, o.(quantity := s.left));
    }
  }

  lemma InsertAccounts(b: LB.Book, q: Quote)
    requires LB.Bounded(b) && q.price <= MAX_PRICE_TICKS
    ensures OpenQuantity(LB.Insert(b, q).levels) == OpenQuantity(b.levels) + q.quantity
    ensures RestingCount(LB.Insert(b, q).levels) == RestingCount(b.levels) + 1
  {
    var level := b.levels[q.price];
    WeighUpdate(OPEN_QUANTITY, b.levels, q.price, level + [q]);
    WeighUpdate(ONE, b.levels, q.price, level + [q]);
    WeighAppend(OPEN_QUANTITY, level, [q]);
    WeighAppend(ONE, level, [q]);
  }

  // ---------- shape ----------

  lemma {:induction false} SweepShaped(b: LB.Book, asks: bool, limit: nat, taker: nat, quantity: nat, nextId: nat)
    requires LB.Shaped(b, nextId)
    ensures LB.Shaped(LB.Sweep(b, asks, limit, taker, quantity).book, nextId)
    decreases RestingCount(b.levels) + LB.Room(|b.levels|, asks, LB.Best(b, asks)) + Min(quantity, 1)
  {
    var best := LB.Best(b, asks);
    if quantity == 0 || !Accepts(asks, limit, best) {
    } else if b.levels[best] == [] {
      if !LB.AtEnd(asks, best) {
        SweepShaped(LB.WithBest(b, asks, LB.Outward(asks, best)), asks, limit, taker, quantity, nextId);
      }
    } else {
      LB.FillCounts(b, best, quantity);
      FillShaped(b, best, quantity, nextId);
      SweepShaped(LB.FillHead(b, best, quantity), asks, limit, taker, quantity - Min(quantity, b.levels[best][0].quantity), nextId);
    }
  }

  /** Orders keep resting at their own price, alive, in arrival order, whatever the side and price. */
  lemma MatchShaped(b: LB.Book, o: Quote)
    requires LB.Shaped(b, o.id) && o.price <= MAX_PRICE_TICKS
    ensures LB.Shaped(LB.Match(b, o).book, o.id + 1)
  {
    var s := LB.Take(b, o);
    if o.side == BUY && o.price >= b.bestAsk {
      SweepShaped(b, true, o.price, o.trader, o.quantity, o.id);
    } else if o.side == SELL && o.price <= b.bestBid {
      SweepShaped(b, false, o.price, o.trader, o.quantity, o.id);
    }
    forall p | 0 <= p < |s.book.levels|
      ensures LB.LevelShaped(s.book.levels[p], p, o.id + 1)
      ensures p == o.price && s.left > 0 ==> LB.LevelShaped(s.book.levels[p] + [o.(quantity := s.left)], p, o.id + 1)
    {
      assert LB.LevelShaped(s.book.levels[p], p, o.id);
    }
  }

  // ---------- crossing ----------

  /**
   The incoming orders after which the book is no longer uncrossed: a remainder of a buy at
   the last level, of a sell at level 0, or of anything that is neither buy nor sell.
   */
  predicate Strands(b: LB.Book, o: Quote) {
    || (o.side > 1 && o.quantity > 0)
    || (o.side == BUY && o.price == MAX_PRICE_TICKS && o.quantity > Weigh(OPEN_QUANTITY, LB.View(b).asks))
    || (o.side == SELL && o.price == 0 && o.quantity > Weigh(OPEN_QUANTITY, LB.View(b).bids))
  }

  /** At the end of the array the limit accepts every maker, so a remainder means the side was too thin. */
  lemma RemainderAtEnd(b: LB.Book, o: Quote)
    requires LB.Shaped(b, o.id) && LB.Uncrossed(b) && o.side <= 1
    requires o.price == if o.side == BUY then MAX_PRICE_TICKS else 0
    ensures LB.Take(b, o).left > 0 <==> o.quantity > Weigh(OPEN_QUANTITY, Side(b, o.side == BUY))
  {
    var asks := o.side == BUY;
    var makers := Side(b, asks);
    TakeRefines(b, o);
    SideBeyond(b.levels, asks, Start(asks), o.id);
    SideWithinArray(b.levels, asks, Start(asks));
    ConsumeCounts(makers, asks, o.price, o.trader, o.quantity);
    ConsumeIsPriceTime(makers, asks, o.price, o.trader, o.quantity);
    ConsumeConserves(makers, asks, o.price, o.trader, o.quantity);
    assert Crossable(makers, asks, o.price) == |makers|;
  }

  lemma {:induction false} SideWithinArray(levels: seq<seq<Quote>>, asks: bool, p: int)
    requires forall i :: 0 <= i < |levels| ==> forall k :: 0 <= k < |levels[i]| ==> levels[i][k].price == i
    ensures forall k :: 0 <= k < |LB.SideFrom(levels, asks, p)| ==> LB.SideFrom(levels, asks, p)[k].price < |levels|
    decreases LB.Room(|levels|, asks, p)
  {
    if 0 <= p < |levels| {
      SideWithinArray(levels, asks, LB.Outward(asks, p));
      OnlyMembers(levels[p], asks);
    }
  }

  lemma InsertUncrossed(b: LB.Book, q: Quote)
    requires LB.Bounded(b) && LB.Uncrossed(b) && q.price <= MAX_PRICE_TICKS && q.quantity > 0 && q.side <= 1
    ensures LB.Uncrossed(LB.Insert(b, q)) <==> !Accepts(q.side == BUY, q.price, LB.Best(b, q.side == BUY))
  {
    var c := LB.Insert(b, q);
    if !Accepts(q.side == BUY, q.price, LB.Best(b, q.side == BUY)) {
      forall p | 0 <= p < |c.levels|
        ensures LB.LevelSided(c.levels[p], p, c.bestBid, c.bestAsk)
      {
        assert LB.LevelSided(b.levels[p], p, b.bestBid, b.bestAsk);
        SidedWiden(b.levels[p], p, b, c);
      }
    }
  }

  lemma SidedWiden(level: seq<Quote>, p: nat, b: LB.Book, c: LB.Book)
    requires LB.LevelSided(level, p, b.bestBid, b.bestAsk)
    requires b.bestBid <= c.bestBid && c.bestAsk <= b.bestAsk
    ensures LB.LevelSided(level, p, c.bestBid, c.bestAsk)
  {
  }

  /**
   The exact condition under which the bounds stay uncrossed and enclose their sides. In
   particular every order of side 0 or 1 priced strictly inside the array keeps them so.
   */
  lemma UncrossedExactly(b: LB.Book, o: Quote)
    requires LB.Shaped(b, o.id) && LB.Uncrossed(b) && o.price <= MAX_PRICE_TICKS
    ensures LB.Uncrossed(LB.Match(b, o).book) <==> !Strands(b, o)
  {
    if o.side > 1 {
      OtherSideStrands(b, o);
    } else {
      var asks := o.side == BUY;
      var s := LB.Take(b, o);
      TakeRefines(b, o);
      if o.price == (if asks then MAX_PRICE_TICKS else 0) {
        RemainderAtEnd(b, o);
      }
      if s.left > 0 {
        TakeStops(b, o);
        InsertUncrossed(s.book, o.(quantity := s.left));
      }
    }
  }

  /** After matching, a remainder no longer meets the opposite bound, unless both stand at the end of the array. */
  lemma TakeStops(b: LB.Book, o: Quote)
    requires LB.Bounded(b) && o.price <= MAX_PRICE_TICKS && o.side <= 1
    requires LB.Take(b, o).left > 0
    ensures var asks := o.side == BUY;
            Accepts(asks, o.price, LB.Best(LB.Take(b, o).book, asks)) <==> o.price == if asks then MAX_PRICE_TICKS else 0
  {
    var asks := o.side == BUY;
    if Accepts(asks, o.price, LB.Best(b, asks)) {
      SweepStops(b, asks, o.price, o.trader, o.quantity);
    }
  }

  lemma OtherSideStrands(b: LB.Book, o: Quote)
    requires LB.Bounded(b) && LB.Uncrossed(b) && o.price <= MAX_PRICE_TICKS && o.side > 1
    ensures LB.Uncrossed(LB.Match(b, o).book) <==> o.quantity == 0
  {
    if o.quantity > 0 {
      var c := LB.Match(b, o).book;
      var level := c.levels[o.price];
      assert level[|level| - 1].side > 1;
      assert !LB.LevelSided(level, o.price, c.bestBid, c.bestAsk);
    }
  }

  /**
   What the last level costs: on an empty book a buy there leaves the bounds crossed, and the
   next buy there trades with the first one although both are on the same side.
   */
  lemma BuyMeetsBuyAtLastLevel()
    ensures var first := Quote(1, 7, BUY, MAX_PRICE_TICKS, 5);
            var second := Quote(2, 8, BUY, MAX_PRICE_TICKS, 3);
            var b := LB.Match(LB.Empty(), first).book;
            && !LB.Uncrossed(b)
            && LB.Match(b, second).trades == [Trade(7, 8, MAX_PRICE_TICKS, 3)]
  {
    var first := Quote(1, 7, BUY, MAX_PRICE_TICKS, 5);
    var second := Quote(2, 8, BUY, MAX_PRICE_TICKS, 3);
    var e := LB.Empty();
    assert LB.Sweep(e, true, MAX_PRICE_TICKS, 7, 5) == LB.Swept(e, [], [], 5);
    var b := LB.Match(e, first).book;
    assert b.bestAsk == MAX_PRICE_TICKS && b.levels[MAX_PRICE_TICKS] == [first];
    var c := LB.FillHead(b, MAX_PRICE_TICKS, 3);
    assert LB.Sweep(c, true, MAX_PRICE_TICKS, 8, 0) == LB.Swept(c, [], [], 0);
    assert LB.Sweep(b, true, MAX_PRICE_TICKS, 8, 3).trades == [Trade(7, 8, MAX_PRICE_TICKS, 3)] + [];
  }
}
