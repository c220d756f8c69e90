/**
 The matching engine as a value: the book, the pool's counters and the order counter.
 `Submit` is one call of submit_order; the class in module Engines computes it.
 Theorems here are about every run, that is every sequence of submissions.
 */
module EngineModel {
  import opened Basics
  import opened Orders
  import opened SimpleMatcher
  import LB = LevelBook
  import MR = MatcherRefinement
  import BI = BookInvariants

  datatype Order = Order(side: UInt8, price: nat, quantity: UInt32, trader: UInt32)

  /** The book is indexed by price without a check, so a price beyond the array is undefined behaviour. */
  type Submission = s: Order | s.price <= MAX_PRICE_TICKS witness Order(0, 1, 1, 0)

  datatype Engine = Engine(
    book: LB.Book, nextId: nat, totalOrders: nat,
    capacity: nat, used: int, failures: nat, peak: int)

  datatype Outcome = Refused | Taken(trades: seq<Trade>)

  datatype Step = Step(engine: Engine, outcome: Outcome)

  function Initial(capacity: nat): Engine {
    Engine(LB.Empty(), 1, 0, capacity, 0, 0, 0)
  }

  function AsQuote(e: Engine, s: Order): Quote {
    Quote(e.nextId, s.trader, s.side, s.price, s.quantity)
  }

  function Submit(e: Engine, s: Submission): (r: Step)
    requires LB.Bounded(e.book)
    ensures LB.Bounded(r.engine.book)
  {
    if e.used == e.capacity then
      Step(e.(failures := e.failures + 1), Refused)
    else
      var m := LB.Match(e.book, AsQuote(e, s));
      var released := |m.dead| + (if m.left == 0 then 1 else 0);
      Step(e.(book := m.book, nextId := e.nextId + 1, totalOrders := e.totalOrders + 1,
              used := e.used + 1 - released, peak := Max(e.peak, e.used + 1)),
           Taken(m.trades))
  }

  /** The engine after a whole run. */
  function Run(capacity: nat, subs: seq<Submission>): (e: Engine)
    ensures LB.Bounded(e.book)
  {
    if subs == [] then Initial(capacity) else Submit(Run(capacity, Front(subs)), Last(subs)).engine
  }

  /** The answers given during a run, in order. */
  function Outcomes(capacity: nat, subs: seq<Submission>): seq<Outcome> {
    if subs == [] then []
    else Outcomes(capacity, Front(subs)) + [Submit(Run(capacity, Front(subs)), Last(subs)).outcome]
  }

  /** Quantity of the submissions that got a slot. */
  function QuantityTaken(capacity: nat, subs: seq<Submission>): nat {
    if subs == [] then 0
    else QuantityTaken(capacity, Front(subs)) +
         if Run(capacity, Front(subs)).used == capacity then 0 else Last(subs).quantity
  }

  // ---------- invariants of every run ----------

  /** What every run keeps, whatever the sides and prices of the orders. */
  ghost predicate Ledger(e: Engine, capacity: nat, submissions: nat, quantityTaken: nat) {
    && LB.Shaped(e.book, e.nextId)
    && e.nextId == e.totalOrders + 1
    && e.capacity == capacity
    && submissions == e.totalOrders + e.failures
    && e.used == RestingCount(e.book.levels) <= capacity
    && e.used <= e.peak <= capacity
    && e.book.totalTrades + e.used <= e.totalOrders
    && quantityTaken == 2 * e.book.totalVolume + OpenQuantity(e.book.levels)
  }

  lemma SubmitKeepsLedger(e: Engine, s: Submission, submissions: nat, quantityTaken: nat)
    requires Ledger(e, e.capacity, submissions, quantityTaken)
    ensures Ledger(Submit(e, s).engine, e.capacity, submissions + 1,
                   quantityTaken + if e.used == e.capacity then 0 else s.quantity)
  {
    if e.used < e.capacity {
      BI.MatchConserves(e.book, AsQuote(e, s));
      BI.MatchShaped(e.book, AsQuote(e, s));
    }
  }

  lemma EmptyCounts()
    ensures OpenQuantity(LB.Empty().levels) == 0 && RestingCount(LB.Empty().levels) == 0
  {
    var levels := LB.Empty().levels;
    assert levels == seq(MAX_PRICE_TICKS + 1, _ => []);
    WeighEmpty(OPEN_QUANTITY, MAX_PRICE_TICKS + 1);
    WeighEmpty(ONE, MAX_PRICE_TICKS + 1);
  }

  lemma EmptyBook()
    ensures LB.Shaped(LB.Empty(), 1) && LB.Uncrossed(LB.Empty())
  {
    assert forall p :: 0 <= p < |LB.Empty().levels| ==> LB.Empty().levels[p] == [];
  }

  /**
   Over every run: submissions are the taken orders plus the allocation failures; the pool
   holds exactly the resting orders; trades plus resting orders never exceed taken orders;
   and every unit taken was traded (counted on both sides) or still rests.
   */
  lemma {:induction false} RunKeepsLedger(capacity: nat, subs: seq<Submission>)
    ensures Ledger(Run(capacity, subs), capacity, |subs|, QuantityTaken(capacity, subs))
  {
    if subs == [] {
      EmptyBook();
      EmptyCounts();
    } else {
      RunKeepsLedger(capacity, Front(subs));
      SubmitKeepsLedger(Run(capacity, Front(subs)), Last(subs), |subs| - 1, QuantityTaken(capacity, Front(subs)));
    }
  }

  function TradeCount(outcomes: seq<Outcome>): nat {
    if outcomes == [] then 0
    else TradeCount(Front(outcomes)) + if Last(outcomes).Taken? then |Last(outcomes).trades| else 0
  }

  function TradeVolume(outcomes: seq<Outcome>): nat {
    if outcomes == [] then 0
    else TradeVolume(Front(outcomes)) + if Last(outcomes).Taken? then TradedQuantity(Last(outcomes).trades) else 0
  }

  function RefusalCount(outcomes: seq<Outcome>): nat {
    if outcomes == [] then 0 else RefusalCount(Front(outcomes)) + if Last(outcomes) == Refused then 1 else 0
  }

  /** What one answer adds to the counters. */
  lemma SubmitCounts(e: Engine, s: Submission)
    requires LB.Bounded(e.book)
    ensures var r := Submit(e, s);
            if r.outcome == Refused then r.engine == e.(failures := e.failures + 1)
            else
              && r.engine.failures == e.failures && r.engine.totalOrders == e.totalOrders + 1
              && r.engine.book.totalTrades == e.book.totalTrades + |r.outcome.trades|
              && r.engine.book.totalVolume == e.book.totalVolume + TradedQuantity(r.outcome.trades)
  {
    if e.used != e.capacity { BI.MatchConserves(e.book, AsQuote(e, s)); }
  }

  lemma CountsGrow(answers: seq<Outcome>, answer: Outcome)
    ensures var all := answers + [answer];
            && TradeCount(all) == TradeCount(answers) + (if answer.Taken? then |answer.trades| else 0)
            && TradeVolume(all) == TradeVolume(answers) + (if answer.Taken? then TradedQuantity(answer.trades) else 0)
            && RefusalCount(all) == RefusalCount(answers) + (if answer == Refused then 1 else 0)
  {
    assert Front(answers + [answer]) == answers && Last(answers + [answer]) == answer;
  }

  /** The engine's counters are what `submissions` answers add up to. */
  ghost predicate Counts(e: Engine, submissions: nat, answers: seq<Outcome>) {
    && |answers| == submissions && e.failures == RefusalCount(answers) && e.totalOrders == submissions - e.failures
    && e.book.totalTrades == TradeCount(answers) && e.book.totalVolume == TradeVolume(answers)
  }

  lemma CountsStep(e: Engine, s: Submission, submissions: nat, answers: seq<Outcome>)
    requires LB.Bounded(e.book) && Counts(e, submissions, answers)
    ensures Counts(Submit(e, s).engine, submissions + 1, answers + [Submit(e, s).outcome])
  {
    SubmitCounts(e, s);
    CountsGrow(answers, Submit(e, s).outcome);
  }

  /** Over every run the counters are what the answers add up to. */
  lemma {:induction false} RunCountsAnswers(capacity: nat, subs: seq<Submission>)
    ensures Counts(Run(capacity, subs), |subs|, Outcomes(capacity, subs))
  {
    if subs != [] {
      RunCountsAnswers(capacity, Front(subs));
      CountsStep(Run(capacity, Front(subs)), Last(subs), |subs| - 1, Outcomes(capacity, Front(subs)));
    }
  }

  // ---------- runs refine the reference engine ----------

  predicate AllSided(subs: seq<Submission>) {
    forall i :: 0 <= i < |subs| ==> subs[i].side <= 1
  }

  /** Submission `s` gets a slot and leaves the bounds of an uncrossed book crossed. */
  predicate StrandsNow(e: Engine, s: Submission) {
    e.used != e.capacity && BI.Strands(e.book, AsQuote(e, s))
  }

  /** No submission of the run is a stranding one when its turn comes. */
  predicate NeverStrands(capacity: nat, subs: seq<Submission>) {
    subs == [] || (NeverStrands(capacity, Front(subs)) && !StrandsNow(Run(capacity, Front(subs)), Last(subs)))
  }

  /** A buy or a sell priced strictly inside the level array. */
  predicate Regular(s: Order) {
    s.side <= 1 && 1 <= s.price < MAX_PRICE_TICKS
  }

  /** Runs of regular orders never strand, whatever the book. */
  lemma {:induction false} RegularNeverStrands(capacity: nat, subs: seq<Submission>)
    requires forall i :: 0 <= i < |subs| ==> Regular(subs[i])
    ensures AllSided(subs) && NeverStrands(capacity, subs)
  {
    assert forall i :: 0 <= i < |subs| ==> Regular(subs[i]) && subs[i].side <= 1;
    if subs != [] {
      RegularNeverStrands(capacity, Front(subs));
      assert Regular(subs[|subs| - 1]);
    }
  }

  /** A run that has not stranded before ends uncrossed if and only if its last submission does not strand. */
  lemma {:induction false} RunUncrossedExactly(capacity: nat, subs: seq<Submission>)
    requires subs == [] || NeverStrands(capacity, Front(subs))
    ensures LB.Uncrossed(Run(capacity, subs).book) <==> NeverStrands(capacity, subs)
  {
    if subs == [] {
      EmptyBook();
    } else {
      RunUncrossedExactly(capacity, Front(subs));
      RunKeepsLedger(capacity, Front(subs));
      var e := Run(capacity, Front(subs));
      if e.used != e.capacity {
        BI.UncrossedExactly(e.book, AsQuote(e, Last(subs)));
      }
    }
  }

  /** The reference engine: two sorted lists, full when they hold `capacity` orders. */
  datatype Reference = Reference(market: Market, nextId: nat)

  function MarketSize(m: Market): nat { |m.bids| + |m.asks| }

  function ReferenceRun(capacity: nat, subs: seq<Submission>): Reference
    requires AllSided(subs)
  {
    if subs == [] then Reference(Market([], []), 1)
    else ReferenceSubmit(capacity, ReferenceRun(capacity, Front(subs)), Last(subs)).0
  }

  function ReferenceSubmit(capacity: nat, r: Reference, s: Submission): (Reference, Outcome)
    requires s.side <= 1
  {
    if MarketSize(r.market) == capacity then (r, Refused)
    else
      var a := Match(r.market, Quote(r.nextId, s.trader, s.side, s.price, s.quantity));
      (Reference(a.market, r.nextId + 1), Taken(a.trades))
  }

  function ReferenceOutcomes(capacity: nat, subs: seq<Submission>): seq<Outcome>
    requires AllSided(subs)
  {
    if subs == [] then []
    else ReferenceOutcomes(capacity, Front(subs)) +
         [ReferenceSubmit(capacity, ReferenceRun(capacity, Front(subs)), Last(subs)).1]
  }

  lemma {:induction false} ConsumeLength(makers: seq<Quote>, asks: bool, limit: nat, taker: nat, quantity: nat)
    ensures var f := Consume(makers, asks, limit, taker, quantity);
            |f.makers| + |f.dead| == |makers|
  {
    ConsumeIsPriceTime(makers, asks, limit, taker, quantity);
  }

  lemma MatchSize(m: Market, o: Quote)
    requires o.side <= 1
    ensures var a := Match(m, o);
            MarketSize(a.market) + |a.dead| == MarketSize(m) + BI.Rests(a.left)
  {
    if o.side == BUY {
      ConsumeLength(m.asks, true, o.price, o.trader, o.quantity);
      EnqueueMembers(m.bids, false, o.(quantity := Match(m, o).left));
    } else {
      ConsumeLength(m.bids, false, o.price, o.trader, o.quantity);
      EnqueueMembers(m.asks, true, o.(quantity := Match(m, o).left));
    }
  }

  /** The engine and the reference hold the same orders, and the bounds are uncrossed. */
  ghost predicate InStep(e: Engine, r: Reference) {
    LB.Uncrossed(e.book) && LB.View(e.book) == r.market && MarketSize(r.market) == e.used && r.nextId == e.nextId
  }

  lemma SubmitInStep(e: Engine, r: Reference, s: Submission, submissions: nat, quantityTaken: nat)
    requires Ledger(e, e.capacity, submissions, quantityTaken) && InStep(e, r) && s.side <= 1 && !StrandsNow(e, s)
    ensures InStep(Submit(e, s).engine, ReferenceSubmit(e.capacity, r, s).0)
    ensures Submit(e, s).outcome == ReferenceSubmit(e.capacity, r, s).1
  {
    if e.used < e.capacity {
      var o := AsQuote(e, s);
      MR.MatchRefines(e.book, o);
      BI.UncrossedExactly(e.book, o);
      MatchSize(r.market, o);
    }
  }

  lemma {:induction false} EmptySide(levels: seq<seq<Quote>>, asks: bool, p: int)
    requires forall i :: 0 <= i < |levels| ==> levels[i] == []
    ensures LB.SideFrom(levels, asks, p) == []
    decreases LB.Room(|levels|, asks, p)
  {
    if 0 <= p < |levels| { EmptySide(levels, asks, LB.Outward(asks, p)); }
  }

  /**
   The main theorem of the matching core. Over every run of buys and sells that never strands
   (by RegularNeverStrands, any run of prices inside the array) the engine gives the outcomes of
   the reference engine, order by order: the same refusals, the same trades in the same order;
   it ends with the same resting orders; and its bounds never cross.
   */
  lemma {:induction false} RunRefinesReference(capacity: nat, subs: seq<Submission>)
    requires AllSided(subs) && NeverStrands(capacity, subs)
    ensures InStep(Run(capacity, subs), ReferenceRun(capacity, subs))
    ensures Outcomes(capacity, subs) == ReferenceOutcomes(capacity, subs)
  {
    if subs == [] {
      EmptyBook();
      EmptySide(LB.Empty().levels, true, 0);
      EmptySide(LB.Empty().levels, false, MAX_PRICE_TICKS);
    } else {
      RunRefinesReference(capacity, Front(subs));
      RunKeepsLedger(capacity, Front(subs));
      SubmitInStep(Run(capacity, Front(subs)), ReferenceRun(capacity, Front(subs)), Last(subs),
                   |subs| - 1, QuantityTaken(capacity, Front(subs)));
    }
  }

  // ---------- peak usage ----------

  /** Submission `k` of the run got a slot, and `u` slots were then in use. */
  ghost predicate Used(capacity: nat, subs: seq<Submission>, k: int, u: int) {
    0 <= k < |subs| && Run(capacity, subs[..k]).used < capacity && u == Run(capacity, subs[..k]).used + 1
  }

  lemma UsedInPrefix(capacity: nat, subs: seq<Submission>, k: int, u: int)
    requires subs != []
    ensures Used(capacity, subs, k, u) <==>
            Used(capacity, Front(subs), k, u) ||
            (k == |subs| - 1 && Run(capacity, Front(subs)).used < capacity && u == Run(capacity, Front(subs)).used + 1)
  {
    if 0 <= k < |subs| - 1 {
      assert Front(subs)[..k] == subs[..k];
    }
  }

  /**
   `peak` is the historical maximum: no moment of the run used more, counting the slot an
   order holds while it is matched, and some moment used exactly that much.
   */
  lemma {:induction false} PeakIsMaximum(capacity: nat, subs: seq<Submission>)
    ensures forall k, u :: Used(capacity, subs, k, u) ==> u <= Run(capacity, subs).peak
    ensures Run(capacity, subs).peak == 0 || exists k :: Used(capacity, subs, k, Run(capacity, subs).peak)
  {
    if subs != [] {
      PeakIsMaximum(capacity, Front(subs));
      RunKeepsLedger(capacity, Front(subs));
      forall k, u
        ensures Used(capacity, subs, k, u) ==> u <= Run(capacity, subs).peak
      {
        UsedInPrefix(capacity, subs, k, u);
      }
      var before, peak := Run(capacity, Front(subs)).peak, Run(capacity, subs).peak;
      if peak != before {
        UsedInPrefix(capacity, subs, |subs| - 1, peak);
      } else if peak != 0 {
        var k :| Used(capacity, Front(subs), k, before);
        UsedInPrefix(capacity, subs, k, peak);
      }
    }
  }

  // ---------- the fixed queues ----------

  /**
   The orders a submission meets, best price first: those from the opposite bound outward. With
   uncrossed bounds they are the opposite side (MatcherRefinement.MetIsSide).
   */
  function Opposite(b: LB.Book, side: nat): seq<Quote> {
    LB.AllFrom(b.levels, side == BUY, LB.Best(b, side == BUY))
  }

  /** No more trades, hence no more garbage, than there are makers within the limit. */
  lemma TradesWithinCrossable(b: LB.Book, o: Quote)
    requires LB.Shaped(b, o.id) && o.side <= 1 && o.price <= MAX_PRICE_TICKS
    ensures var r := LB.Match(b, o);
            |r.dead| <= |r.trades| <= Crossable(Opposite(b, o.side), o.side == BUY, o.price)
  {
    MR.TakeConsumes(b, o);
    ConsumeCounts(Opposite(b, o.side), o.side == BUY, o.price, o.trader, o.quantity);
  }

  /**
   What a caller can see before the call: the submission gets a slot, and it meets more than
   `room` makers within its limit, the first `room` of which it outlasts.
   */
  predicate Overruns(e: Engine, s: Order, room: nat) {
    e.used != e.capacity && s.side <= 1 && Outlasts(Opposite(e.book, s.side), s.side == BUY, s.price, s.quantity, room)
  }

  lemma MatchTradesExactly(b: LB.Book, o: Quote, n: nat)
    requires LB.Shaped(b, o.id) && o.price <= MAX_PRICE_TICKS
    ensures |LB.Match(b, o).trades| > n <==>
            o.side <= 1 && Outlasts(Opposite(b, o.side), o.side == BUY, o.price, o.quantity, n)
  {
    if o.side <= 1 {
      var asks := o.side == BUY;
      MR.TakeConsumes(b, o);
      MR.AllBeyond(b.levels, asks, LB.Best(b, asks), o.id);
      ConsumeTradesExactly(Opposite(b, o.side), asks, o.price, o.trader, o.quantity, n);
    }
  }

  /** A submission makes more than `room` trades if and only if it overruns. */
  lemma SubmitOverrunsExactly(e: Engine, s: Submission, room: nat)
    requires LB.Shaped(e.book, e.nextId)
    ensures var o := Submit(e, s).outcome;
            (o.Taken? && |o.trades| > room) <==> Overruns(e, s, room)
  {
    if e.used != e.capacity {
      MatchTradesExactly(e.book, AsQuote(e, s), room);
    }
  }

  /**
   The execution queue, empty before each submission, overflows in the next submission after any
   run if and only if that submission overruns its 10 000 places.
   */
  lemma QueueOverflowsExactly(capacity: nat, subs: seq<Submission>, s: Submission)
    ensures var e := Run(capacity, subs);
            var o := Submit(e, s).outcome;
            (o.Taken? && |o.trades| > QUEUE_CAPACITY) <==> Overruns(e, s, QUEUE_CAPACITY)
  {
    RunKeepsLedger(capacity, subs);
    SubmitOverrunsExactly(Run(capacity, subs), s, QUEUE_CAPACITY);
  }

  const UNIT_SELL: Submission := Order(SELL, 5, 1, 9)

  function UnitSells(n: nat): (s: seq<Submission>)
    ensures |s| == n && forall i :: 0 <= i < n ==> s[i] == UNIT_SELL
  {
    seq(n, _ => UNIT_SELL)
  }

  lemma {:induction false} UnitSellsRest(capacity: nat, n: nat)
    requires n <= capacity
    ensures var r := ReferenceRun(capacity, UnitSells(n));
            && r.market.bids == [] && |r.market.asks| == n
            && (forall i :: 0 <= i < n ==> r.market.asks[i].price == 5 && r.market.asks[i].quantity == 1)
  {
    if n > 0 {
      assert Front(UnitSells(n)) == UnitSells(n - 1);
      UnitSellsRest(capacity, n - 1);
      var r := ReferenceRun(capacity, UnitSells(n - 1));
      var q := Quote(r.nextId, 9, SELL, 5, 1);
      assert Consume(r.market.bids, false, 5, 9, 1) == Fill([], [], [], 1);
      EnqueueMembers(r.market.asks, true, q);
      MR.EnqueuePrefix(r.market.asks, [], true, q);
      assert r.market.asks + [] == r.market.asks;
    }
  }

  lemma {:induction false} UnitWeight(level: seq<Quote>)
    requires forall i :: 0 <= i < |level| ==> level[i].quantity == 1
    ensures Weigh(OPEN_QUANTITY, level) == |level|
  {
    if level != [] { UnitWeight(level[1..]); }
  }

  /**
   The capacity of the execution queue is not a consequence of the engine's own rules: for any
   `n` that fits the pool there is a run after which one order makes `n` trades. With the
   production pool of 1 000 000 slots that includes every `n` above the queue's 10 000 places.
   */
  lemma TradesBeyondQueue(capacity: nat, n: nat)
    requires n < capacity && n < UINT32_MODULUS
    ensures var e := Run(capacity, UnitSells(n));
            var step := Submit(e, Order(BUY, 5, n, 8));
            step.outcome.Taken? && |step.outcome.trades| == n
  {
    var s := Order(BUY, 5, n, 8);
    RegularNeverStrands(capacity, UnitSells(n));
    RunRefinesReference(capacity, UnitSells(n));
    RunKeepsLedger(capacity, UnitSells(n));
    UnitSellsRest(capacity, n);
    var e, r := Run(capacity, UnitSells(n)), ReferenceRun(capacity, UnitSells(n));
    SubmitInStep(e, r, s, n, QuantityTaken(capacity, UnitSells(n)));
    var asks := r.market.asks;
    assert forall i :: 0 <= i < n ==> Accepts(true, 5, asks[i].price);
    assert Crossable(asks, true, 5) == n;
    assert asks[..n] == asks;
    UnitWeight(asks);
    ConsumeTakesAll(asks, true, 5, 8, n);
  }

  // ---------- equal quantities ----------

  ghost predicate AllQuantity(levels: seq<seq<Quote>>, q: nat) {
    forall p :: 0 <= p < |levels| ==> forall i :: 0 <= i < |levels[p]| ==> levels[p][i].quantity == q
  }

  lemma {:induction false} SweepEqual(b: LB.Book, asks: bool, limit: nat, taker: nat, quantity: nat)
    requires LB.Bounded(b) && quantity > 0 && AllQuantity(b.levels, quantity)
    ensures var r := LB.Sweep(b, asks, limit, taker, quantity);
            && AllQuantity(r.book.levels, quantity)
            && ((r.trades == [] && r.left == quantity) || (|r.trades| == 1 && r.left == 0))
    decreases RestingCount(b.levels) + LB.Room(|b.levels|, asks, LB.Best(b, asks)) + Min(quantity, 1)
  {
    var best := LB.Best(b, asks);
    if !Accepts(asks, limit, best) {
    } else if b.levels[best] == [] {
      if !LB.AtEnd(asks, best) {
        SweepEqual(LB.WithBest(b, asks, LB.Outward(asks, best)), asks, limit, taker, quantity);
      }
    } else {
      var c := LB.FillHead(b, best, quantity);
      assert LB.Sweep(c, asks, limit, taker, 0) == LB.Swept(c, [], [], 0);
    }
  }

  lemma MatchEqual(b: LB.Book, o: Quote)
    requires LB.Bounded(b) && o.price <= MAX_PRICE_TICKS && o.quantity > 0 && AllQuantity(b.levels, o.quantity)
    ensures AllQuantity(LB.Match(b, o).book.levels, o.quantity)
    ensures |LB.Match(b, o).trades| <= 1
  {
    if o.side == BUY && o.price >= b.bestAsk {
      SweepEqual(b, true, o.price, o.trader, o.quantity);
    } else if o.side == SELL && o.price <= b.bestBid {
      SweepEqual(b, false, o.price, o.trader, o.quantity);
    }
  }

  /** With equal quantities every order either rests whole or annihilates exactly one maker. */
  lemma {:induction false} RunEqual(capacity: nat, subs: seq<Submission>, q: nat)
    requires q > 0 && forall i :: 0 <= i < |subs| ==> subs[i].quantity == q
    ensures AllQuantity(Run(capacity, subs).book.levels, q)
    ensures forall o :: o in Outcomes(capacity, subs) && o.Taken? ==> |o.trades| <= 1
  {
    if subs != [] {
      RunEqual(capacity, Front(subs), q);
      var e := Run(capacity, Front(subs));
      if e.used != e.capacity {
        MatchEqual(e.book, AsQuote(e, Last(subs)));
      }
    }
  }
}
