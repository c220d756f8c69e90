/** The level-array matcher computes what the reference matcher computes. */
module MatcherRefinement {
  import opened Basics
  import opened Orders
  import opened SimpleMatcher
  import LB = LevelBook

  type Levels = seq<seq<Quote>>

  ghost predicate LevelsShaped(levels: Levels, nextId: nat) {
    forall p :: 0 <= p < |levels| ==> LB.LevelShaped(levels[p], p, nextId)
  }

  ghost predicate AllOn(level: seq<Quote>, asks: bool) {
    forall i :: 0 <= i < |level| ==> level[i].side == LB.SideOf(asks)
  }

  /** From level `p` away from the spread there are orders of one side only. */
  ghost predicate PureFrom(levels: Levels, asks: bool, p: int) {
    forall i :: 0 <= i < |levels| && !BetterPrice(asks, i, p) ==> AllOn(levels[i], asks)
  }

  /** Level `i` is at `p` or beyond it, but nearer the spread than `q`. */
  ghost predicate Between(asks: bool, p: int, i: int, q: int) {
    !BetterPrice(asks, i, p) && BetterPrice(asks, i, q)
  }

  lemma {:induction false} OnlyAll(level: seq<Quote>, asks: bool)
    requires AllOn(level, asks)
    ensures LB.Only(level, asks) == level
    ensures LB.Only(level, !asks) == []
  {
    if level != [] { OnlyAll(level[..|level| - 1], asks); }
  }

  lemma OnlyAppend(level: seq<Quote>, q: Quote, asks: bool)
    ensures LB.Only(level + [q], asks) == LB.Only(level, asks) + if q.side == LB.SideOf(asks) then [q] else []
  {
    assert (level + [q])[..|level|] == level;
  }

  /** Only the levels from `p` outward matter to SideFrom. */
  lemma {:induction false} SideFrame(a: Levels, b: Levels, asks: bool, p: int)
    requires |a| == |b|
    requires forall i :: 0 <= i < |a| && !BetterPrice(asks, i, p) ==> LB.Only(a[i], asks) == LB.Only(b[i], asks)
    ensures LB.SideFrom(a, asks, p) == LB.SideFrom(b, asks, p)
    decreases LB.Room(|a|, asks, p)
  {
    if 0 <= p < |a| { SideFrame(a, b, asks, LB.Outward(asks, p)); }
  }

  /** Only the levels from `p` outward matter to AllFrom. */
  lemma {:induction false} AllFrame(a: Levels, b: Levels, asks: bool, p: int)
    requires |a| == |b|
    requires forall i :: 0 <= i < |a| && !BetterPrice(asks, i, p) ==> a[i] == b[i]
    ensures LB.AllFrom(a, asks, p) == LB.AllFrom(b, asks, p)
    decreases LB.Room(|a|, asks, p)
  {
    if 0 <= p < |a| { AllFrame(a, b, asks, LB.Outward(asks, p)); }
  }

  /** Everything met from level `p` outward is live and priced at `p` or worse. */
  lemma {:induction false} AllBeyond(levels: Levels, asks: bool, p: int, nextId: nat)
    requires LevelsShaped(levels, nextId)
    ensures forall i :: 0 <= i < |LB.AllFrom(levels, asks, p)| ==>
              var q := LB.AllFrom(levels, asks, p)[i];
              !BetterPrice(asks, q.price, p) && q.quantity > 0
    decreases LB.Room(|levels|, asks, p)
  {
    if 0 <= p < |levels| {
      AllBeyond(levels, asks, LB.Outward(asks, p), nextId);
      assert LB.LevelShaped(levels[p], p, nextId);
    }
  }

  /** Where there are orders of one side only, the orders met are the orders of that side. */
  lemma {:induction false} PureAll(levels: Levels, asks: bool, p: int)
    requires PureFrom(levels, asks, p)
    ensures LB.AllFrom(levels, asks, p) == LB.SideFrom(levels, asks, p)
    decreases LB.Room(|levels|, asks, p)
  {
    if 0 <= p < |levels| {
      PureAll(levels, asks, LB.Outward(asks, p));
      OnlyAll(levels[p], asks);
    }
  }

  /** Levels without orders of the side may be skipped. */
  lemma {:induction false} SideSkip(levels: Levels, asks: bool, p: int, q: int)
    requires !BetterPrice(asks, q, p)
    requires 0 <= p < |levels|
    requires forall i :: 0 <= i < |levels| && Between(asks, p, i, q) ==> LB.Only(levels[i], asks) == []
    ensures LB.SideFrom(levels, asks, p) == LB.SideFrom(levels, asks, q)
    decreases LB.Room(|levels|, asks, p)
  {
    if p != q {
      var next := LB.Outward(asks, p);
      if 0 <= next < |levels| {
        SideSkip(levels, asks, next, q);
      }
    }
  }

  /** Everything from level `p` outward is priced at `p` or worse. */
  lemma {:induction false} SideBeyond(levels: Levels, asks: bool, p: int, nextId: nat)
    requires LevelsShaped(levels, nextId)
    ensures forall i :: 0 <= i < |LB.SideFrom(levels, asks, p)| ==>
              var q := LB.SideFrom(levels, asks, p)[i];
              !BetterPrice(asks, q.price, p) && q.quantity > 0 && q.side == LB.SideOf(asks) && q.id < nextId
    decreases LB.Room(|levels|, asks, p)
  {
    if 0 <= p < |levels| {
      SideBeyond(levels, asks, LB.Outward(asks, p), nextId);
      OnlyMembers(levels[p], asks);
    }
  }

  lemma {:induction false} OnlyMembers(level: seq<Quote>, asks: bool)
    ensures forall i :: 0 <= i < |LB.Only(level, asks)| ==>
              LB.Only(level, asks)[i] in level && LB.Only(level, asks)[i].side == LB.SideOf(asks)
  {
    if level != [] { OnlyMembers(level[..|level| - 1], asks); }
  }

  /** A fill keeps every level shaped and touches no other level. */
  lemma FillShaped(b: LB.Book, p: nat, quantity: nat, nextId: nat)
    requires LB.Shaped(b, nextId)
    requires p < |b.levels| && b.levels[p] != [] && quantity > 0
    ensures LB.Shaped(LB.FillHead(b, p, quantity), nextId)
    ensures forall asks :: AllOn(b.levels[p], asks) ==> AllOn(LB.FillHead(b, p, quantity).levels[p], asks)
  {
    var level := LB.FillHead(b, p, quantity).levels[p];
    assert LB.LevelShaped(b.levels[p], p, nextId);
    assert LB.LevelShaped(level, p, nextId);
  }

  /**
   What a sweep of one side may do to a book: levels stay shaped, and one-sided from the old
   bound outward if they were; levels nearer the spread are untouched; the bound moves outward
   only past levels that end up empty; the other bound stands.
   */
  ghost predicate SweptInto(b: LB.Book, c: LB.Book, asks: bool, nextId: nat)
    requires LB.Bounded(b)
  {
    var p, q := LB.Best(b, asks), LB.Best(c, asks);
    && LB.Shaped(c, nextId)
    && (PureFrom(b.levels, asks, p) ==> PureFrom(c.levels, asks, p))
    && !BetterPrice(asks, q, p)
    && LB.Best(c, !asks) == LB.Best(b, !asks)
    && (forall i :: 0 <= i < |b.levels| && BetterPrice(asks, i, p) ==> c.levels[i] == b.levels[i])
    && (forall i :: 0 <= i < |b.levels| && Between(asks, p, i, q) ==> c.levels[i] == [])
  }

  lemma SkipThenSwept(b: LB.Book, c: LB.Book, asks: bool, nextId: nat)
    requires LB.Bounded(b) && b.levels[LB.Best(b, asks)] == [] && !LB.AtEnd(asks, LB.Best(b, asks))
    requires SweptInto(LB.WithBest(b, asks, LB.Outward(asks, LB.Best(b, asks))), c, asks, nextId)
    ensures SweptInto(b, c, asks, nextId)
  {
  }

  lemma FillThenSwept(b: LB.Book, c: LB.Book, asks: bool, quantity: nat, nextId: nat)
    requires LB.Shaped(b, nextId) && b.levels[LB.Best(b, asks)] != [] && quantity > 0
    requires SweptInto(LB.FillHead(b, LB.Best(b, asks), quantity), c, asks, nextId)
    ensures SweptInto(b, c, asks, nextId)
  {
    FillShaped(b, LB.Best(b, asks), quantity, nextId);
  }

  lemma {:induction false} SweepKeeps(b: LB.Book, asks: bool, limit: nat, taker: nat, quantity: nat, nextId: nat)
    requires LB.Shaped(b, nextId)
    ensures SweptInto(b, LB.Sweep(b, asks, limit, taker, quantity).book, asks, nextId)
    decreases RestingCount(b.levels) + LB.Room(|b.levels|, asks, LB.Best(b, asks)) + Min(quantity, 1)
  {
    var best := LB.Best(b, asks);
    if quantity == 0 || !Accepts(asks, limit, best) {
    } else if b.levels[best] == [] {
      if !LB.AtEnd(asks, best) {
        var c := LB.WithBest(b, asks, LB.Outward(asks, best));
        SweepKeeps(c, asks, limit, taker, quantity, nextId);
        SkipThenSwept(b, LB.Sweep(c, asks, limit, taker, quantity).book, asks, nextId);
      }
    } else {
      LB.FillCounts(b, best, quantity);
      FillShaped(b, best, quantity, nextId);
      var c, t := LB.FillHead(b, best, quantity), Min(quantity, b.levels[best][0].quantity);
      SweepKeeps(c, asks, limit, taker, quantity - t, nextId);
      FillThenSwept(b, LB.Sweep(c, asks, limit, taker, quantity - t).book, asks, quantity, nextId);
    }
  }

  /** A sweep that leaves some of the taker has passed the limit or emptied the last level. */
  lemma {:induction false} SweepStops(b: LB.Book, asks: bool, limit: nat, taker: nat, quantity: nat)
    requires LB.Bounded(b)
    ensures var r := LB.Sweep(b, asks, limit, taker, quantity);
            r.left > 0 ==> !Accepts(asks, limit, LB.Best(r.book, asks)) || LB.AtEnd(asks, LB.Best(r.book, asks))
    decreases RestingCount(b.levels) + LB.Room(|b.levels|, asks, LB.Best(b, asks)) + Min(quantity, 1)
  {
    var best := LB.Best(b, asks);
    if quantity == 0 || !Accepts(asks, limit, best) {
    } else if b.levels[best] == [] {
      if !LB.AtEnd(asks, best) {
        SweepStops(LB.WithBest(b, asks, LB.Outward(asks, best)), asks, limit, taker, quantity);
      }
    } else {
      LB.FillCounts(b, best, quantity);
      SweepStops(LB.FillHead(b, best, quantity), asks, limit, taker, quantity - Min(quantity, b.levels[best][0].quantity));
    }
  }

  /** The orders met, before and after a fill at the first level. */
  lemma FillFront(b: LB.Book, asks: bool, p: nat, quantity: nat) returns (others: seq<Quote>)
    requires p < |b.levels| && b.levels[p] != []
    ensures LB.AllFrom(b.levels, asks, p) == [b.levels[p][0]] + others
    ensures var m := b.levels[p][0];
            LB.AllFrom(LB.FillHead(b, p, quantity).levels, asks, p)
            == if quantity >= m.quantity then others else [m.(quantity := m.quantity - quantity)] + others
  {
    var m, rest := b.levels[p][0], b.levels[p][1..];
    var beyond := LB.AllFrom(b.levels, asks, LB.Outward(asks, p));
    AllFrame(b.levels, LB.FillHead(b, p, quantity).levels, asks, LB.Outward(asks, p));
    others := rest + beyond;
    assert b.levels[p] == [m] + rest;
    Associates([m], rest, beyond);
    Associates([m.(quantity := if quantity < m.quantity then m.quantity - quantity else 0)], rest, beyond);
  }

  /** A sweep and a walk with the same outcome. */
  ghost predicate Agree(r: LB.Swept, f: Fill, asks: bool, p: int) {
    && r.trades == f.trades && r.dead == f.dead && r.left == f.left
    && LB.AllFrom(r.book.levels, asks, p) == f.makers
  }

  /** A walk over `makers` trades with the first of them and goes on over `rest`. */
  lemma ConsumeStep(makers: seq<Quote>, rest: seq<Quote>, m: Quote, others: seq<Quote>,
                    asks: bool, limit: nat, taker: nat, quantity: nat) returns (f: Fill)
    requires 0 < quantity && Accepts(asks, limit, m.price) && makers == [m] + others
    requires rest == if quantity >= m.quantity then others else [m.(quantity := m.quantity - quantity)] + others
    ensures var t := Min(quantity, m.quantity);
            && f == Consume(rest, asks, limit, taker, quantity - t)
            && Consume(makers, asks, limit, taker, quantity) ==
               Fill([Trade(m.trader, taker, m.price, t)] + f.trades,
                    (if t == m.quantity then [m.id] else []) + f.dead, f.makers, f.left)
  {
    assert makers[0] == m && makers[1..] == others;
    f := Consume(rest, asks, limit, taker, quantity - Min(quantity, m.quantity));
  }

  /** One more trade before a sweep and a walk that agree. */
  lemma AgreeStep(r: LB.Swept, f: Fill, t: Trade, n: seq<nat>, asks: bool, p: int)
    requires Agree(r, f, asks, p)
    ensures Agree(LB.Swept(r.book, [t] + r.trades, n + r.dead, r.left),
                  Fill([t] + f.trades, n + f.dead, f.makers, f.left), asks, p)
  {
  }

  /** The walk over the orders met begins with the order at the bound. */
  lemma WalkFills(b: LB.Book, asks: bool, limit: nat, taker: nat, quantity: nat) returns (f: Fill)
    requires LB.Bounded(b) && quantity > 0 && b.levels[LB.Best(b, asks)] != []
    requires Accepts(asks, limit, b.levels[LB.Best(b, asks)][0].price)
    ensures var best := LB.Best(b, asks);
            var t := LB.HeadTrade(b, asks, taker, quantity);
            && f == Consume(LB.AllFrom(LB.FillHead(b, best, quantity).levels, asks, best), asks, limit, taker,
                            quantity - t.quantity)
            && Consume(LB.AllFrom(b.levels, asks, best), asks, limit, taker, quantity) ==
               Fill([t] + f.trades, LB.HeadDead(b, asks, quantity) + f.dead, f.makers, f.left)
  {
    var best := LB.Best(b, asks);
    var others := FillFront(b, asks, best, quantity);
    var makers, rest := LB.AllFrom(b.levels, asks, best), LB.AllFrom(LB.FillHead(b, best, quantity).levels, asks, best);
    f := ConsumeStep(makers, rest, b.levels[best][0], others, asks, limit, taker, quantity);
  }

  /** Induction step of SweepConsumes at a level that has an order. */
  lemma SweepFillStep(b: LB.Book, asks: bool, limit: nat, taker: nat, quantity: nat, nextId: nat)
    requires LB.Shaped(b, nextId)
    requires quantity > 0 && Accepts(asks, limit, LB.Best(b, asks)) && b.levels[LB.Best(b, asks)] != []
    requires var best := LB.Best(b, asks);
             var c := LB.FillHead(b, best, quantity);
             var q := quantity - LB.HeadTrade(b, asks, taker, quantity).quantity;
             Agree(LB.Sweep(c, asks, limit, taker, q),
                   Consume(LB.AllFrom(c.levels, asks, best), asks, limit, taker, q), asks, best)
    ensures Agree(LB.Sweep(b, asks, limit, taker, quantity),
                  Consume(LB.AllFrom(b.levels, asks, LB.Best(b, asks)), asks, limit, taker, quantity),
                  asks, LB.Best(b, asks))
  {
    var best, t := LB.Best(b, asks), LB.HeadTrade(b, asks, taker, quantity);
    var c, q := LB.FillHead(b, best, quantity), quantity - t.quantity;
    assert LB.LevelShaped(b.levels[best], best, nextId);
    LB.SweepFills(b, asks, limit, taker, quantity);
    var f := WalkFills(b, asks, limit, taker, quantity);
    AgreeStep(LB.Sweep(c, asks, limit, taker, q), f, t, LB.HeadDead(b, asks, quantity), asks, best);
  }

  /** The sweep stops here. */
  ghost predicate Ends(b: LB.Book, asks: bool, limit: nat, quantity: nat)
    requires LB.Bounded(b)
  {
    var best := LB.Best(b, asks);
    quantity == 0 || !Accepts(asks, limit, best) || (b.levels[best] == [] && LB.AtEnd(asks, best))
  }

  /** Base case of SweepConsumes. */
  lemma SweepDone(b: LB.Book, asks: bool, limit: nat, taker: nat, quantity: nat, nextId: nat)
    requires LB.Shaped(b, nextId) && Ends(b, asks, limit, quantity)
    ensures Agree(LB.Sweep(b, asks, limit, taker, quantity),
                  Consume(LB.AllFrom(b.levels, asks, LB.Best(b, asks)), asks, limit, taker, quantity),
                  asks, LB.Best(b, asks))
  {
    var best := LB.Best(b, asks);
    var makers := LB.AllFrom(b.levels, asks, best);
    assert LB.Sweep(b, asks, limit, taker, quantity) == LB.Swept(b, [], [], quantity);
    if quantity > 0 && Accepts(asks, limit, best) {
      SkipEmpty(b.levels, asks, best);
    } else {
      AllBeyond(b.levels, asks, best, nextId);
    }
    assert Consume(makers, asks, limit, taker, quantity) == Fill([], [], makers, quantity);
  }

  /** Induction step of SweepConsumes at an empty level. */
  lemma SweepSkipStep(b: LB.Book, asks: bool, limit: nat, taker: nat, quantity: nat, nextId: nat)
    requires LB.Shaped(b, nextId)
    requires quantity > 0 && Accepts(asks, limit, LB.Best(b, asks))
    requires b.levels[LB.Best(b, asks)] == [] && !LB.AtEnd(asks, LB.Best(b, asks))
    requires var next := LB.Outward(asks, LB.Best(b, asks));
             Agree(LB.Sweep(LB.WithBest(b, asks, next), asks, limit, taker, quantity),
                   Consume(LB.AllFrom(b.levels, asks, next), asks, limit, taker, quantity), asks, next)
    ensures Agree(LB.Sweep(b, asks, limit, taker, quantity),
                  Consume(LB.AllFrom(b.levels, asks, LB.Best(b, asks)), asks, limit, taker, quantity),
                  asks, LB.Best(b, asks))
  {
    var best := LB.Best(b, asks);
    var next := LB.Outward(asks, best);
    var c := LB.WithBest(b, asks, next);
    var r := LB.Sweep(c, asks, limit, taker, quantity);
    assert r == LB.Sweep(b, asks, limit, taker, quantity);
    assert r.book.levels[best] == [] by {
      SweepKeeps(c, asks, limit, taker, quantity, nextId);
    }
    SkipEmpty(b.levels, asks, best);
    SkipEmpty(r.book.levels, asks, best);
  }

  lemma SkipEmpty(levels: Levels, asks: bool, p: nat)
    requires p < |levels| && levels[p] == []
    ensures LB.AllFrom(levels, asks, p) == LB.AllFrom(levels, asks, LB.Outward(asks, p))
  {
  }

  /** On every shaped book a sweep from the lazy bound is the reference walk over the orders from there outward. */
  lemma {:induction false} SweepConsumes(b: LB.Book, asks: bool, limit: nat, taker: nat, quantity: nat, nextId: nat)
    requires LB.Shaped(b, nextId)
    ensures Agree(LB.Sweep(b, asks, limit, taker, quantity),
                  Consume(LB.AllFrom(b.levels, asks, LB.Best(b, asks)), asks, limit, taker, quantity),
                  asks, LB.Best(b, asks))
    decreases RestingCount(b.levels) + LB.Room(|b.levels|, asks, LB.Best(b, asks)) + Min(quantity, 1)
  {
    var best := LB.Best(b, asks);
    if Ends(b, asks, limit, quantity) {
      SweepDone(b, asks, limit, taker, quantity, nextId);
    } else if b.levels[best] == [] {
      SweepConsumes(LB.WithBest(b, asks, LB.Outward(asks, best)), asks, limit, taker, quantity, nextId);
      SweepSkipStep(b, asks, limit, taker, quantity, nextId);
    } else {
      LB.FillCounts(b, best, quantity);
      FillShaped(b, best, quantity, nextId);
      var q := quantity - LB.HeadTrade(b, asks, taker, quantity).quantity;
      SweepConsumes(LB.FillHead(b, best, quantity), asks, limit, taker, q, nextId);
      SweepFillStep(b, asks, limit, taker, quantity, nextId);
    }
  }

  /** The level where the list of a side starts. */
  function Start(asks: bool): nat {
    if asks then 0 else MAX_PRICE_TICKS
  }

  function Side(b: LB.Book, asks: bool): seq<Quote> {
    LB.SideFrom(b.levels, asks, Start(asks))
  }

  /** In an uncrossed book the side starts, as a list, at its lazy bound, and beyond it the other side is absent. */
  lemma UncrossedSides(b: LB.Book, asks: bool, nextId: nat)
    requires LB.Shaped(b, nextId) && LB.Uncrossed(b)
    ensures PureFrom(b.levels, asks, LB.Best(b, asks))
    ensures forall i :: 0 <= i < |b.levels| && BetterPrice(asks, i, LB.Best(b, asks)) ==> AllOn(b.levels[i], !asks)
    ensures Side(b, asks) == LB.SideFrom(b.levels, asks, LB.Best(b, asks))
  {
    forall i | 0 <= i < |b.levels|
      ensures BetterPrice(asks, i, LB.Best(b, asks)) ==> AllOn(b.levels[i], !asks) && LB.Only(b.levels[i], asks) == []
      ensures !BetterPrice(asks, i, LB.Best(b, asks)) ==> AllOn(b.levels[i], asks)
    {
      assert LB.LevelSided(b.levels[i], i, b.bestBid, b.bestAsk);
      if BetterPrice(asks, i, LB.Best(b, asks)) { OnlyAll(b.levels[i], !asks); }
    }
    SideSkip(b.levels, asks, Start(asks), LB.Best(b, asks));
  }

  /** A book whose swept side starts at a bound that passed only empty levels is still uncrossed. */
  lemma SweptUncrossed(b: LB.Book, asks: bool, limit: nat, taker: nat, quantity: nat, nextId: nat)
    requires LB.Shaped(b, nextId) && LB.Uncrossed(b)
    ensures LB.Uncrossed(LB.Sweep(b, asks, limit, taker, quantity).book)
  {
    UncrossedSides(b, asks, nextId);
    SweepKeeps(b, asks, limit, taker, quantity, nextId);
    var c := LB.Sweep(b, asks, limit, taker, quantity).book;
    forall p | 0 <= p < |c.levels|
      ensures LB.LevelSided(c.levels[p], p, c.bestBid, c.bestAsk)
    {
      if BetterPrice(asks, p, LB.Best(b, asks)) {
        SidedNearer(b.levels[p], p, asks, b, c);
      } else {
        SidedBeyond(c.levels[p], p, asks, b, c);
      }
    }
  }

  lemma SidedNearer(level: seq<Quote>, p: nat, asks: bool, b: LB.Book, c: LB.Book)
    requires AllOn(level, !asks) && LB.LevelSided(level, p, b.bestBid, b.bestAsk)
    requires LB.Best(c, !asks) == LB.Best(b, !asks)
    ensures LB.LevelSided(level, p, c.bestBid, c.bestAsk)
  {
    forall i | 0 <= i < |level|
      ensures (level[i].side == BUY && p <= c.bestBid) || (level[i].side == SELL && c.bestAsk <= p)
    {
      assert level[i].side == LB.SideOf(!asks);
    }
  }

  lemma SidedBeyond(level: seq<Quote>, p: nat, asks: bool, b: LB.Book, c: LB.Book)
    requires AllOn(level, asks) && (Between(asks, LB.Best(b, asks), p, LB.Best(c, asks)) ==> level == [])
    requires !BetterPrice(asks, p, LB.Best(b, asks))
    ensures LB.LevelSided(level, p, c.bestBid, c.bestAsk)
  {
    forall i | 0 <= i < |level|
      ensures (level[i].side == BUY && p <= c.bestBid) || (level[i].side == SELL && c.bestAsk <= p)
    {
      assert level[i].side == LB.SideOf(asks) && !BetterPrice(asks, p, LB.Best(c, asks));
    }
  }

  /** A sweep does not change the list of the other side. */
  lemma SweepSparesOwnSide(b: LB.Book, asks: bool, limit: nat, taker: nat, quantity: nat, nextId: nat)
    requires LB.Shaped(b, nextId) && LB.Uncrossed(b)
    ensures Side(LB.Sweep(b, asks, limit, taker, quantity).book, !asks) == Side(b, !asks)
  {
    UncrossedSides(b, asks, nextId);
    SweepKeeps(b, asks, limit, taker, quantity, nextId);
    var c := LB.Sweep(b, asks, limit, taker, quantity).book;
    forall i | 0 <= i < |b.levels|
      ensures LB.Only(c.levels[i], !asks) == LB.Only(b.levels[i], !asks)
    {
      if !BetterPrice(asks, i, LB.Best(b, asks)) {
        OnlyAll(b.levels[i], asks);
        OnlyAll(c.levels[i], asks);
      }
    }
    SideFrame(c.levels, b.levels, !asks, Start(!asks));
  }

  /** The swept side, as a list, is still found from its old bound. */
  lemma SweptSide(b: LB.Book, c: LB.Book, asks: bool, nextId: nat)
    requires LB.Shaped(b, nextId) && LB.Uncrossed(b) && SweptInto(b, c, asks, nextId)
    ensures Side(c, asks) == LB.SideFrom(c.levels, asks, LB.Best(b, asks))
  {
    UncrossedSides(b, asks, nextId);
    forall i | 0 <= i < |c.levels| && BetterPrice(asks, i, LB.Best(b, asks))
      ensures LB.Only(c.levels[i], asks) == []
    {
      OnlyAll(b.levels[i], !asks);
    }
    SideSkip(c.levels, asks, Start(asks), LB.Best(b, asks));
  }

  /** In an uncrossed book the orders a sweep meets are the opposite side, best first. */
  lemma MetIsSide(b: LB.Book, asks: bool, nextId: nat)
    requires LB.Shaped(b, nextId) && LB.Uncrossed(b)
    ensures LB.AllFrom(b.levels, asks, LB.Best(b, asks)) == Side(b, asks)
  {
    UncrossedSides(b, asks, nextId);
    PureAll(b.levels, asks, LB.Best(b, asks));
  }

  /** A sweep and a walk over the side with the same outcome. */
  ghost predicate SidesAgree(r: LB.Swept, f: Fill, asks: bool) {
    r.trades == f.trades && r.dead == f.dead && r.left == f.left && Side(r.book, asks) == f.makers
  }

  /** A crossing sweep, on the two lists. */
  lemma SweepRefines(b: LB.Book, asks: bool, limit: nat, taker: nat, quantity: nat, nextId: nat)
    requires LB.Shaped(b, nextId) && LB.Uncrossed(b)
    ensures var s := LB.Sweep(b, asks, limit, taker, quantity);
            && LB.Shaped(s.book, nextId) && LB.Uncrossed(s.book)
            && SidesAgree(s, Consume(Side(b, asks), asks, limit, taker, quantity), asks)
            && Side(s.book, !asks) == Side(b, !asks)
  {
    var c := LB.Sweep(b, asks, limit, taker, quantity).book;
    UncrossedSides(b, asks, nextId);
    SweepKeeps(b, asks, limit, taker, quantity, nextId);
    SweepConsumes(b, asks, limit, taker, quantity, nextId);
    MetIsSide(b, asks, nextId);
    SweptSide(b, c, asks, nextId);
    PureAll(c.levels, asks, LB.Best(b, asks));
    SweptUncrossed(b, asks, limit, taker, quantity, nextId);
    SweepSparesOwnSide(b, asks, limit, taker, quantity, nextId);
  }

  /** The matching phase of one incoming order on any shaped book, before its remainder is inserted. */
  lemma TakeConsumes(b: LB.Book, o: Quote)
    requires LB.Shaped(b, o.id) && o.side <= 1
    ensures var asks := o.side == BUY;
            var p := LB.Best(b, asks);
            Agree(LB.Take(b, o), Consume(LB.AllFrom(b.levels, asks, p), asks, o.price, o.trader, o.quantity), asks, p)
  {
    var asks := o.side == BUY;
    if Accepts(asks, o.price, LB.Best(b, asks)) {
      SweepConsumes(b, asks, o.price, o.trader, o.quantity, o.id);
    } else {
      AllBeyond(b.levels, asks, LB.Best(b, asks), o.id);
    }
  }

  /** The same on an uncrossed book, on the two lists. */
  lemma TakeRefines(b: LB.Book, o: Quote)
    requires LB.Shaped(b, o.id) && LB.Uncrossed(b) && o.side <= 1
    ensures var asks := o.side == BUY;
            var s := LB.Take(b, o);
            && LB.Shaped(s.book, o.id) && LB.Uncrossed(s.book)
            && SidesAgree(s, Consume(Side(b, asks), asks, o.price, o.trader, o.quantity), asks)
            && Side(s.book, !asks) == Side(b, !asks)
  {
    var asks := o.side == BUY;
    if Accepts(asks, o.price, LB.Best(b, asks)) {
      SweepRefines(b, asks, o.price, o.trader, o.quantity, o.id);
    } else {
      TakeConsumes(b, o);
      MetIsSide(b, asks, o.id);
    }
  }

  lemma {:induction false} EnqueuePrefix(front: seq<Quote>, back: seq<Quote>, asks: bool, q: Quote)
    requires forall i :: 0 <= i < |front| ==> !BetterPrice(asks, q.price, front[i].price)
    ensures Enqueue(front + back, asks, q) == front + Enqueue(back, asks, q)
  {
    if front == [] {
      assert front + back == back;
    } else {
      EnqueuePrefix(front[1..], back, asks, q);
      assert (front + back)[1..] == front[1..] + back;
    }
  }

  lemma InsertAtLevel(b: LB.Book, asks: bool, q: Quote)
    requires LB.Shaped(b, q.id) && q.price <= MAX_PRICE_TICKS && q.side == LB.SideOf(asks)
    ensures LB.SideFrom(LB.Insert(b, q).levels, asks, q.price)
            == LB.Only(b.levels[q.price], asks) + Enqueue(LB.SideFrom(b.levels, asks, LB.Outward(asks, q.price)), asks, q)
  {
    var p := q.price;
    var levels := LB.Insert(b, q).levels;
    var next := LB.Outward(asks, p);
    var front, back := LB.Only(b.levels[p], asks), LB.SideFrom(b.levels, asks, next);
    assert LB.SideFrom(levels, asks, next) == back by {
      SideFrame(b.levels, levels, asks, next);
    }
    assert Enqueue(back, asks, q) == [q] + back by {
      SideBeyond(b.levels, asks, next, q.id);
    }
    assert LB.Only(levels[p], asks) == front + [q] by {
      OnlyAppend(b.levels[p], q, asks);
    }
    Associates(front, [q], back);
  }

  /** Appending to a level is queueing in the sorted list. */
  lemma {:induction false} InsertEnqueues(b: LB.Book, asks: bool, q: Quote, p: nat)
    requires LB.Shaped(b, q.id) && q.price <= MAX_PRICE_TICKS && q.side == LB.SideOf(asks)
    requires p <= MAX_PRICE_TICKS && !BetterPrice(asks, q.price, p)
    ensures LB.SideFrom(LB.Insert(b, q).levels, asks, p) == Enqueue(LB.SideFrom(b.levels, asks, p), asks, q)
    decreases LB.Room(|b.levels|, asks, p)
  {
    assert forall i :: 0 <= i < |LB.Only(b.levels[p], asks)| ==>
             !BetterPrice(asks, q.price, LB.Only(b.levels[p], asks)[i].price) by {
      OnlyMembers(b.levels[p], asks);
      assert LB.LevelShaped(b.levels[p], p, q.id);
    }
    EnqueuePrefix(LB.Only(b.levels[p], asks), LB.SideFrom(b.levels, asks, LB.Outward(asks, p)), asks, q);
    if p == q.price {
      InsertAtLevel(b, asks, q);
    } else {
      InsertEnqueues(b, asks, q, LB.Outward(asks, p));
      assert LB.Insert(b, q).levels[p] == b.levels[p];
    }
  }

  lemma InsertSparesOtherSide(b: LB.Book, asks: bool, q: Quote)
    requires LB.Bounded(b) && q.price <= MAX_PRICE_TICKS && q.side == LB.SideOf(asks)
    ensures Side(LB.Insert(b, q), !asks) == Side(b, !asks)
  {
    OnlyAppend(b.levels[q.price], q, !asks);
    SideFrame(LB.Insert(b, q).levels, b.levels, !asks, Start(!asks));
  }

  /**
   Refinement: on every shaped and uncrossed book, matching on the level array gives the
   trades, the exhausted makers, the remainder and the resting orders of the reference matcher.
   */
  lemma MatchRefines(b: LB.Book, o: Quote)
    requires LB.Shaped(b, o.id) && LB.Uncrossed(b) && o.side <= 1 && o.price <= MAX_PRICE_TICKS
    ensures var r := LB.Match(b, o);
            Answer(LB.View(r.book), r.trades, r.dead, r.left) == Match(LB.View(b), o)
  {
    var asks := o.side == BUY;
    TakeRefines(b, o);
    var s := LB.Take(b, o);
    if s.left > 0 {
      var q := o.(quantity := s.left);
      InsertEnqueues(s.book, !asks, q, Start(!asks));
      InsertSparesOtherSide(s.book, !asks, q);
    }
  }

  /** The lists of the view are sorted by priority. */
  lemma {:induction false} SideSorted(levels: Levels, asks: bool, p: int, nextId: nat)
    requires LevelsShaped(levels, nextId)
    ensures Sorted(asks, LB.SideFrom(levels, asks, p))
    decreases LB.Room(|levels|, asks, p)
  {
    if 0 <= p < |levels| {
      var next := LB.Outward(asks, p);
      SideSorted(levels, asks, next, nextId);
      SideBeyond(levels, asks, next, nextId);
      OnlySorted(levels[p], asks, p, nextId);
      OnlyMembers(levels[p], asks);
      var front, back := LB.Only(levels[p], asks), LB.SideFrom(levels, asks, next);
      forall i, j | 0 <= i < j < |front + back|
        ensures Precedes(asks, (front + back)[i], (front + back)[j])
      {
        if i < |front| <= j {
          assert front[i].price == p;
        }
      }
    }
  }

  lemma {:induction false} OnlySorted(level: seq<Quote>, asks: bool, p: nat, nextId: nat)
    requires LB.LevelShaped(level, p, nextId)
    ensures Sorted(asks, LB.Only(level, asks))
  {
    if level != [] {
      var front := level[..|level| - 1];
      assert LB.LevelShaped(front, p, nextId);
      OnlySorted(front, asks, p, nextId);
      OnlyMembers(front, asks);
    }
  }

  /** A quote is in the list of a side exactly when it rests at its price and is of that side. */
  lemma {:induction false} SideMembers(levels: Levels, asks: bool, p: int, nextId: nat, q: Quote)
    requires LevelsShaped(levels, nextId)
    ensures q in LB.SideFrom(levels, asks, p) <==>
            q.price < |levels| && !BetterPrice(asks, q.price, p) && 0 <= p < |levels| &&
            q in levels[q.price] && q.side == LB.SideOf(asks)
    decreases LB.Room(|levels|, asks, p)
  {
    if 0 <= p < |levels| {
      SideMembers(levels, asks, LB.Outward(asks, p), nextId, q);
      OnlyContains(levels[p], asks, q);
      assert LB.LevelShaped(levels[p], p, nextId);
      InEither(LB.Only(levels[p], asks), LB.SideFrom(levels, asks, LB.Outward(asks, p)), q);
    }
  }

  lemma InEither(a: seq<Quote>, b: seq<Quote>, q: Quote)
    ensures q in a + b <==> q in a || q in b
  {
  }

  lemma {:induction false} OnlyContains(level: seq<Quote>, asks: bool, q: Quote)
    ensures q in LB.Only(level, asks) <==> q in level && q.side == LB.SideOf(asks)
  {
    if level != [] { OnlyContains(level[..|level| - 1], asks, q); }
  }

  /**
   The view is forced: any list sorted by priority that holds exactly the resting orders of
   a side is the list the reference matcher works on.
   */
  lemma ViewIsTheSortedSide(b: LB.Book, asks: bool, nextId: nat, list: seq<Quote>)
    requires LB.Shaped(b, nextId) && Sorted(asks, list)
    requires forall q :: q in list <==> q.price <= MAX_PRICE_TICKS && q in b.levels[q.price] && q.side == LB.SideOf(asks)
    ensures list == if asks then LB.View(b).asks else LB.View(b).bids
  {
    SideSorted(b.levels, asks, Start(asks), nextId);
    forall q
      ensures q in list <==> q in Side(b, asks)
    {
      SideMembers(b.levels, asks, Start(asks), nextId, q);
    }
    SortedIsUnique(asks, list, Side(b, asks));
  }
}
