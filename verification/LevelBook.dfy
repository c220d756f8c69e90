/**
 The order book as values: one array of price levels shared by bids and asks, with two
 lazy bounds that may point at empty levels. `Match` takes the branches of the matching
 loop one by one; the pointer-level book in module OrderBooks is proved to compute it.
 */
module LevelBook {
  import opened Orders
  import opened SimpleMatcher

  datatype Book = Book(levels: seq<seq<Quote>>, bestBid: nat, bestAsk: nat, totalTrades: nat, totalVolume: nat)

  function Empty(): Book {
    Book(seq(MAX_PRICE_TICKS + 1, _ => []), 0, MAX_PRICE_TICKS, 0, 0)
  }

  /** The level array has its fixed size and both bounds index into it. */
  predicate Bounded(b: Book) {
    |b.levels| == MAX_PRICE_TICKS + 1 && b.bestBid <= MAX_PRICE_TICKS && b.bestAsk <= MAX_PRICE_TICKS
  }

  function Best(b: Book, asks: bool): nat {
    if asks then b.bestAsk else b.bestBid
  }

  function WithBest(b: Book, asks: bool, p: nat): Book {
    if asks then b.(bestAsk := p) else b.(bestBid := p)
  }

  /** The level after `p`, moving away from the spread. */
  function Outward(asks: bool, p: int): int {
    if asks then p + 1 else p - 1
  }

  /** Number of levels from `p` to the end of the array, moving away from the spread. */
  function Room(n: nat, asks: bool, p: int): nat {
    if p < 0 || p >= n then 0 else if asks then n - p else p + 1
  }

  predicate AtEnd(asks: bool, p: nat) {
    if asks then p == MAX_PRICE_TICKS else p == 0
  }

  /** One trade with the first order of level `p`. */
  function FillHead(b: Book, p: nat, quantity: nat): Book
    requires p < |b.levels| && b.levels[p] != []
  {
    var m := b.levels[p][0];
    var t := Min(quantity, m.quantity);
    var rest := b.levels[p][1..];
    var level := if t == m.quantity then rest else [m.(quantity := m.quantity - t)] + rest;
    b.(levels := b.levels[p := level], totalTrades := b.totalTrades + 1, totalVolume := b.totalVolume + t)
  }

  /** A fill removes exactly the exhausted maker, or exhausts the taker. */
  lemma FillCounts(b: Book, p: nat, quantity: nat)
    requires p < |b.levels| && b.levels[p] != []
    ensures RestingCount(FillHead(b, p, quantity).levels) + (if quantity >= b.levels[p][0].quantity then 1 else 0)
            == RestingCount(b.levels)
  {
    var level := FillHead(b, p, quantity).levels[p];
    WeighUpdate(ONE, b.levels, p, level);
    CountIsLength(level);
    CountIsLength(b.levels[p]);
  }

  datatype Swept = Swept(book: Book, trades: seq<Trade>, dead: seq<nat>, left: nat)

  /** The sweep of an incoming order over the opposite side, from the lazy bound outward. */
  function Sweep(b: Book, asks: bool, limit: nat, taker: nat, quantity: nat): (r: Swept)
    requires Bounded(b)
    ensures Bounded(r.book)
    decreases RestingCount(b.levels) + Room(|b.levels|, asks, Best(b, asks)) + Min(quantity, 1)
  {
    var best := Best(b, asks);
    if quantity == 0 || !Accepts(asks, limit, best) then
      Swept(b, [], [], quantity)
    else if b.levels[best] == [] then
      if AtEnd(asks, best) then Swept(b, [], [], quantity)
      else Sweep(WithBest(b, asks, Outward(asks, best)), asks, limit, taker, quantity)
    else
      var m := b.levels[best][0];
      var t := Min(quantity, m.quantity);
      FillCounts(b, best, quantity);
      var rest := Sweep(FillHead(b, best, quantity), asks, limit, taker, quantity - t);
      Swept(rest.book, [Trade(m.trader, taker, m.price, t)] + rest.trades,
            (if t == m.quantity then [m.id] else []) + rest.dead, rest.left)
  }

  /** The trade of a sweep with the first order at its bound, and the ids that trade exhausts. */
  function HeadTrade(b: Book, asks: bool, taker: nat, quantity: nat): Trade
    requires Bounded(b) && b.levels[Best(b, asks)] != []
  {
    var m := b.levels[Best(b, asks)][0];
    Trade(m.trader, taker, m.price, Min(quantity, m.quantity))
  }

  function HeadDead(b: Book, asks: bool, quantity: nat): seq<nat>
    requires Bounded(b) && b.levels[Best(b, asks)] != []
  {
    var m := b.levels[Best(b, asks)][0];
    if Min(quantity, m.quantity) == m.quantity then [m.id] else []
  }

  /** A sweep that finds an order trades with it and then sweeps on. */
  lemma SweepFills(b: Book, asks: bool, limit: nat, taker: nat, quantity: nat)
    requires Bounded(b) && quantity > 0 && Accepts(asks, limit, Best(b, asks)) && b.levels[Best(b, asks)] != []
    ensures var t := HeadTrade(b, asks, taker, quantity);
            var rest := Sweep(FillHead(b, Best(b, asks), quantity), asks, limit, taker, quantity - t.quantity);
            Sweep(b, asks, limit, taker, quantity) ==
            Swept(rest.book, [t] + rest.trades, HeadDead(b, asks, quantity) + rest.dead, rest.left)
  {
  }

  /** Append a quote to the level of its price and move the bound of its side. */
  function Insert(b: Book, q: Quote): (r: Book)
    requires Bounded(b) && q.price <= MAX_PRICE_TICKS
    ensures Bounded(r)
  {
    var c := b.(levels := b.levels[q.price := b.levels[q.price] + [q]]);
    if q.side == BUY then c.(bestBid := Max(q.price, b.bestBid))
    else if q.side == SELL then c.(bestAsk := Min(q.price, b.bestAsk))
    else c
  }

  /** The sweep an incoming order starts, if it crosses the opposite bound. */
  function Take(b: Book, o: Quote): (r: Swept)
    requires Bounded(b)
    ensures Bounded(r.book)
  {
    if o.side == BUY && o.price >= b.bestAsk then Sweep(b, true, o.price, o.trader, o.quantity)
    else if o.side == SELL && o.price <= b.bestBid then Sweep(b, false, o.price, o.trader, o.quantity)
    else Swept(b, [], [], o.quantity)
  }

  function Match(b: Book, o: Quote): (r: Swept)
    requires Bounded(b) && o.price <= MAX_PRICE_TICKS
    ensures Bounded(r.book)
  {
    var s := Take(b, o);
    if s.left > 0 then s.(book := Insert(s.book, o.(quantity := s.left))) else s
  }

  // ---------- invariants ----------

  predicate LevelShaped(level: seq<Quote>, p: nat, nextId: nat) {
    && (forall i :: 0 <= i < |level| ==> level[i].price == p && level[i].quantity > 0 && level[i].id < nextId)
    && (forall i, j :: 0 <= i < j < |level| ==> level[i].id < level[j].id)
  }

  /** Every resting order sits at its own price, is live, and queues in arrival order. */
  predicate Shaped(b: Book, nextId: nat) {
    && Bounded(b)
    && forall p :: 0 <= p < |b.levels| ==> LevelShaped(b.levels[p], p, nextId)
  }

  predicate LevelSided(level: seq<Quote>, p: nat, bestBid: nat, bestAsk: nat) {
    forall i :: 0 <= i < |level| ==>
      (level[i].side == BUY && p <= bestBid) || (level[i].side == SELL && bestAsk <= p)
  }

  /** The bounds do not cross, and they enclose the resting orders of their side. */
  predicate Uncrossed(b: Book) {
    && b.bestBid < b.bestAsk
    && forall p :: 0 <= p < |b.levels| ==> LevelSided(b.levels[p], p, b.bestBid, b.bestAsk)
  }

  // ---------- the two sides as lists ----------

  function SideOf(asks: bool): nat {
    if asks then SELL else BUY
  }

  function Only(level: seq<Quote>, asks: bool): seq<Quote> {
    if level == [] then []
    else
      var last := level[|level| - 1];
      Only(level[..|level| - 1], asks) + if last.side == SideOf(asks) then [last] else []
  }

  /** The orders of one side, from level `p` away from the spread. */
  function SideFrom(levels: seq<seq<Quote>>, asks: bool, p: int): seq<Quote>
    decreases Room(|levels|, asks, p)
  {
    if p < 0 || p >= |levels| then []
    else Only(levels[p], asks) + SideFrom(levels, asks, Outward(asks, p))
  }

  /** The orders a sweep of one side meets: all orders, whatever their side, from level `p` away from the spread. */
  function AllFrom(levels: seq<seq<Quote>>, asks: bool, p: int): seq<Quote>
    decreases Room(|levels|, asks, p)
  {
    if p < 0 || p >= |levels| then [] else levels[p] + AllFrom(levels, asks, Outward(asks, p))
  }

  /** The resting orders of the whole array as the reference matcher sees them; the bounds play no part. */
  function View(b: Book): Market {
    Market(SideFrom(b.levels, false, |b.levels| - 1), SideFrom(b.levels, true, 0))
  }
}
