/**
 The reference matcher: each side of the market is one list, best price first and
 earliest arrival first within a price. An incoming order walks the opposite list.
 */
module SimpleMatcher {
  import opened Orders

  /** Makers of the side `asks` that a taker limited to `limit` may trade with. */
  predicate Accepts(asks: bool, limit: nat, price: nat) {
    if asks then price <= limit else limit <= price
  }

  /** `p` is a strictly better maker price than `q` on the side `asks`. */
  predicate BetterPrice(asks: bool, p: int, q: int) {
    if asks then p < q else q < p
  }

  predicate Precedes(asks: bool, a: Quote, b: Quote) {
    BetterPrice(asks, a.price, b.price) || (a.price == b.price && a.id < b.id)
  }

  predicate Sorted(asks: bool, makers: seq<Quote>) {
    forall i, j :: 0 <= i < j < |makers| ==> Precedes(asks, makers[i], makers[j])
  }

  /** Outcome of walking a list of makers; `dead` are the ids of the exhausted ones. */
  datatype Fill = Fill(trades: seq<Trade>, dead: seq<nat>, makers: seq<Quote>, left: nat)

  function Consume(makers: seq<Quote>, asks: bool, limit: nat, taker: nat, quantity: nat): Fill {
    if makers == [] || quantity == 0 || !Accepts(asks, limit, makers[0].price) then
      Fill([], [], makers, quantity)
    else
      var m := makers[0];
      if quantity < m.quantity then
        Fill([Trade(m.trader, taker, m.price, quantity)], [],
             [m.(quantity := m.quantity - quantity)] + makers[1..], 0)
      else
        var rest := Consume(makers[1..], asks, limit, taker, quantity - m.quantity);
        Fill([Trade(m.trader, taker, m.price, m.quantity)] + rest.trades, [m.id] + rest.dead, rest.makers, rest.left)
  }

  /** Queue a new quote behind everything at its price or better. */
  function Enqueue(makers: seq<Quote>, asks: bool, q: Quote): seq<Quote> {
    if makers == [] || BetterPrice(asks, q.price, makers[0].price) then [q] + makers
    else [makers[0]] + Enqueue(makers[1..], asks, q)
  }

  datatype Market = Market(bids: seq<Quote>, asks: seq<Quote>)

  datatype Answer = Answer(market: Market, trades: seq<Trade>, dead: seq<nat>, left: nat)

  /** Match an incoming order; whatever it cannot trade rests on its own side. */
  function Match(m: Market, o: Quote): Answer
    requires o.side <= 1
  {
    if o.side == BUY then
      var f := Consume(m.asks, true, o.price, o.trader, o.quantity);
      var bids := if f.left > 0 then Enqueue(m.bids, false, o.(quantity := f.left)) else m.bids;
      Answer(Market(bids, f.makers), f.trades, f.dead, f.left)
    else
      var f := Consume(m.bids, false, o.price, o.trader, o.quantity);
      var asks := if f.left > 0 then Enqueue(m.asks, true, o.(quantity := f.left)) else m.asks;
      Answer(Market(f.makers, asks), f.trades, f.dead, f.left)
  }

  /** Number of makers at the front of the list that the limit accepts. */
  function Crossable(makers: seq<Quote>, asks: bool, limit: nat): (n: nat)
    ensures n <= |makers|
    ensures forall i :: 0 <= i < n ==> Accepts(asks, limit, makers[i].price)
    ensures n < |makers| ==> !Accepts(asks, limit, makers[n].price)
  {
    if makers == [] || !Accepts(asks, limit, makers[0].price) then 0
    else 1 + Crossable(makers[1..], asks, limit)
  }

  /** How many makers trade and die, and how much is traded. */
  lemma {:induction false} ConsumeCounts(makers: seq<Quote>, asks: bool, limit: nat, taker: nat, quantity: nat)
    ensures var f := Consume(makers, asks, limit, taker, quantity);
            && |f.dead| <= |f.trades| <= |f.dead| + 1
            && |f.trades| <= Crossable(makers, asks, limit)
            && (|f.trades| == |f.dead| + 1 ==> f.left == 0)
            && f.left + TradedQuantity(f.trades) == quantity
            && (f.left > 0 ==> |f.dead| == Crossable(makers, asks, limit))
  {
    if makers == [] || quantity == 0 || !Accepts(asks, limit, makers[0].price) {
    } else if quantity < makers[0].quantity {
    } else {
      ConsumeCounts(makers[1..], asks, limit, taker, quantity - makers[0].quantity);
      var rest := Consume(makers[1..], asks, limit, taker, quantity - makers[0].quantity);
      assert Consume(makers, asks, limit, taker, quantity).trades[1..] == rest.trades;
    }
  }

  /** Trade `t` is the taker meeting maker `m` at the maker's price, for `q` units. */
  predicate Meets(t: Trade, m: Quote, taker: nat, q: nat) {
    t == Trade(m.trader, taker, m.price, q)
  }

  /** The first makers, in order and each in full, are the ones that die. */
  predicate FrontDies(makers: seq<Quote>, taker: nat, f: Fill) {
    && |f.dead| <= |makers| && |f.dead| <= |f.trades|
    && forall i :: 0 <= i < |f.dead| ==>
         Meets(f.trades[i], makers[i], taker, makers[i].quantity) && f.dead[i] == makers[i].id
  }

  /** Behind the dead there is either no further trade, or one partial trade with the next maker. */
  predicate RestWaits(makers: seq<Quote>, taker: nat, f: Fill)
    requires FrontDies(makers, taker, f)
  {
    var d := |f.dead|;
    if |f.trades| == d then
      f.makers == makers[d..]
    else
      && |f.trades| == d + 1 <= |makers|
      && 0 < f.trades[d].quantity < makers[d].quantity
      && Meets(f.trades[d], makers[d], taker, f.trades[d].quantity)
      && f.makers == [makers[d].(quantity := makers[d].quantity - f.trades[d].quantity)] + makers[d + 1..]
  }

  lemma PriceTimeStep(m: Quote, tail: seq<Quote>, taker: nat, rest: Fill, f: Fill)
    requires FrontDies(tail, taker, rest) && RestWaits(tail, taker, rest)
    requires f == Fill([Trade(m.trader, taker, m.price, m.quantity)] + rest.trades, [m.id] + rest.dead, rest.makers, rest.left)
    ensures FrontDies([m] + tail, taker, f) && RestWaits([m] + tail, taker, f)
  {
    var makers := [m] + tail;
    forall i | 0 <= i < |f.dead|
      ensures Meets(f.trades[i], makers[i], taker, makers[i].quantity) && f.dead[i] == makers[i].id
    {
      if i > 0 {
        assert f.trades[i] == rest.trades[i - 1] && makers[i] == tail[i - 1] && f.dead[i] == rest.dead[i - 1];
      }
    }
    var d := |rest.dead|;
    assert makers[d + 1..] == tail[d..];
    if |rest.trades| > d {
      assert f.trades[d + 1] == rest.trades[d] && makers[d + 1] == tail[d] && makers[d + 2..] == tail[d + 1..];
    }
  }

  /**
   Price-time priority, stated without recursion: the first makers of the list trade in
   order at their own prices and in full; at most one more trades in part, and then the
   taker is done; makers behind them are untouched.
   */
  lemma {:induction false} ConsumeIsPriceTime(makers: seq<Quote>, asks: bool, limit: nat, taker: nat, quantity: nat)
    ensures var f := Consume(makers, asks, limit, taker, quantity);
            FrontDies(makers, taker, f) && RestWaits(makers, taker, f)
  {
    if makers == [] || quantity == 0 || !Accepts(asks, limit, makers[0].price) {
    } else if quantity < makers[0].quantity {
    } else {
      ConsumeIsPriceTime(makers[1..], asks, limit, taker, quantity - makers[0].quantity);
      var rest := Consume(makers[1..], asks, limit, taker, quantity - makers[0].quantity);
      assert makers == [makers[0]] + makers[1..];
      PriceTimeStep(makers[0], makers[1..], taker, rest, Consume(makers, asks, limit, taker, quantity));
    }
  }

  lemma {:induction false} EnqueueMembers(makers: seq<Quote>, asks: bool, q: Quote)
    ensures |Enqueue(makers, asks, q)| == |makers| + 1
    ensures forall x :: x in Enqueue(makers, asks, q) <==> x in makers || x == q
  {
    if makers == [] || BetterPrice(asks, q.price, makers[0].price) {
    } else {
      EnqueueMembers(makers[1..], asks, q);
    }
  }

  /** Enqueue keeps the list sorted. */
  lemma {:induction false} EnqueueSorted(makers: seq<Quote>, asks: bool, q: Quote)
    requires Sorted(asks, makers)
    requires forall i :: 0 <= i < |makers| ==> makers[i].id < q.id
    ensures Sorted(asks, Enqueue(makers, asks, q))
  {
    if makers == [] || BetterPrice(asks, q.price, makers[0].price) {
    } else {
      EnqueueSorted(makers[1..], asks, q);
      EnqueueMembers(makers[1..], asks, q);
      var tail := Enqueue(makers[1..], asks, q);
      forall j | 0 <= j < |tail|
        ensures Precedes(asks, makers[0], tail[j])
      {
        assert tail[j] in tail;
      }
    }
  }

  lemma SortedHead(asks: bool, a: seq<Quote>, q: Quote)
    requires Sorted(asks, a) && q in a
    ensures a[0] == q || Precedes(asks, a[0], q)
  {
    var i :| 0 <= i < |a| && a[i] == q;
  }

  /** A list sorted by priority is determined by the quotes in it. */
  lemma {:induction false} SortedIsUnique(asks: bool, a: seq<Quote>, b: seq<Quote>)
    requires Sorted(asks, a) && Sorted(asks, b)
    requires forall q :: q in a <==> q in b
    ensures a == b
  {
    if a == [] {
      NoMembers(b);
    } else {
      assert a[0] in b;
      assert b[0] in a;
      SortedHead(asks, a, b[0]);
      SortedHead(asks, b, a[0]);
      forall q
        ensures q in a[1..] <==> q in b[1..]
      {
        TailMember(asks, a, q);
        TailMember(asks, b, q);
      }
      SortedIsUnique(asks, a[1..], b[1..]);
      assert a == [a[0]] + a[1..] && b == [b[0]] + b[1..];
    }
  }

  lemma NoMembers(b: seq<Quote>)
    requires forall q :: q !in b
    ensures b == []
  {
    if b != [] {
      FirstIsMember(b);
      assert false;
    }
  }

  lemma FirstIsMember(b: seq<Quote>)
    ensures b != [] ==> b[0] in b
  {
  }

  lemma TailMember(asks: bool, a: seq<Quote>, q: Quote)
    requires a != [] && Sorted(asks, a)
    ensures q in a[1..] <==> q in a && q != a[0]
  {
    if q in a[1..] {
      var i :| 0 <= i < |a[1..]| && a[1..][i] == q;
      assert Precedes(asks, a[0], a[i + 1]);
    }
  }

  /** What the makers lose is what is traded. */
  lemma {:induction false} ConsumeConserves(makers: seq<Quote>, asks: bool, limit: nat, taker: nat, quantity: nat)
    ensures var f := Consume(makers, asks, limit, taker, quantity);
            Weigh(OPEN_QUANTITY, f.makers) + TradedQuantity(f.trades) == Weigh(OPEN_QUANTITY, makers)
  {
    if makers == [] || quantity == 0 || !Accepts(asks, limit, makers[0].price) {
    } else if quantity < makers[0].quantity {
    } else {
      ConsumeConserves(makers[1..], asks, limit, taker, quantity - makers[0].quantity);
      var rest := Consume(makers[1..], asks, limit, taker, quantity - makers[0].quantity);
      assert Consume(makers, asks, limit, taker, quantity).trades[1..] == rest.trades;
    }
  }

  /** A taker large enough for every acceptable maker trades with every one of them. */
  lemma {:induction false} ConsumeTakesAll(makers: seq<Quote>, asks: bool, limit: nat, taker: nat, quantity: nat)
    requires quantity >= Weigh(OPEN_QUANTITY, makers[..Crossable(makers, asks, limit)])
    requires forall i :: 0 <= i < |makers| ==> makers[i].quantity > 0
    ensures |Consume(makers, asks, limit, taker, quantity).trades| == Crossable(makers, asks, limit)
  {
    var n := Crossable(makers, asks, limit);
    if n > 0 {
      assert makers[..n][1..] == makers[1..][..n - 1];
      ConsumeTakesAll(makers[1..], asks, limit, taker, quantity - makers[0].quantity);
    }
  }

  /**
   How many trades a walk makes, by a condition on the makers alone: more than `n` if and only
   if more than `n` makers are within the limit and the taker outlasts the first `n`.
   */
  lemma {:induction false} ConsumeTradesExactly(makers: seq<Quote>, asks: bool, limit: nat, taker: nat, quantity: nat, n: nat)
    requires forall i :: 0 <= i < |makers| ==> makers[i].quantity > 0
    ensures |Consume(makers, asks, limit, taker, quantity).trades| > n <==> Outlasts(makers, asks, limit, quantity, n)
  {
    if makers == [] || !Accepts(asks, limit, makers[0].price) {
    } else if n > 0 {
      if n < Crossable(makers, asks, limit) {
        assert makers[..n][1..] == makers[1..][..n - 1];
      }
      if quantity >= makers[0].quantity {
        ConsumeTradesExactly(makers[1..], asks, limit, taker, quantity - makers[0].quantity, n - 1);
      }
    }
  }

  /** More than `n` makers are within the limit, and `quantity` is more than the first `n` of them offer. */
  predicate Outlasts(makers: seq<Quote>, asks: bool, limit: nat, quantity: nat, n: nat) {
    n < Crossable(makers, asks, limit) && quantity > Weigh(OPEN_QUANTITY, makers[..n])
  }
}
