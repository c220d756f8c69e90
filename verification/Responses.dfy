/** What the core answers to an ingress packet, and the counts the client balances. */
module Responses {
  import opened Basics
  import opened Orders
  import opened SimpleMatcher
  import EM = EngineModel
  import LB = LevelBook

  const NEW_ORDER: UInt8 := 1

  datatype Packet = Packet(kind: UInt8, side: UInt8, instrument: UInt32, trader: UInt32,
                           quantity: UInt32, price: UInt64, clientOrderId: UInt64)

  datatype Kind = ACCEPTED | REJECTED | FILLED

  datatype Report = Report(kind: Kind, side: UInt8, instrument: UInt32, clientOrderId: UInt64,
                           maker: nat, taker: nat, price: nat, quantity: nat)

  /** What the core keeps of a packet once its slot is released. */
  datatype Kept = Kept(side: UInt8, instrument: UInt32, trader: UInt32, clientOrderId: UInt64)

  function Keep(p: Packet): Kept {
    Kept(p.side, p.instrument, p.trader, p.clientOrderId)
  }

  /** The submission of a packet, or nothing if the packet is not a new order. */
  function OutcomeOf(e: EM.Engine, p: Packet): EM.Outcome
    requires LB.Bounded(e.book)
  {
    if p.kind == NEW_ORDER && p.price <= MAX_PRICE_TICKS then EM.Submit(e, AsOrder(p)).outcome else EM.Refused
  }

  function EngineAfterPacket(e: EM.Engine, p: Packet): (r: EM.Engine)
    requires LB.Bounded(e.book)
    ensures LB.Bounded(r.book)
  {
    if p.kind == NEW_ORDER && p.price <= MAX_PRICE_TICKS then EM.Submit(e, AsOrder(p)).engine else e
  }

  function AsOrder(p: Packet): EM.Order {
    EM.Order(p.side, p.price, p.quantity, p.trader)
  }

  /** The code indexes the book by the price and the queues by the trades without a check. */
  predicate Defined(e: EM.Engine, p: Packet)
    requires LB.Bounded(e.book)
  {
    p.kind == NEW_ORDER ==>
      && p.price <= MAX_PRICE_TICKS
      && (OutcomeOf(e, p).Taken? ==> |OutcomeOf(e, p).trades| <= QUEUE_CAPACITY)
  }

  function FillReport(k: Kept, t: Trade): Report {
    Report(FILLED, k.side, k.instrument, k.clientOrderId, t.maker, t.taker, t.price, t.quantity)
  }

  /**
   The reports of one outcome. An accepted or rejected order is reported with the price and
   the quantity read from its ring slot, one after the other, after the slot is released.
   */
  function Reports(k: Kept, o: EM.Outcome, price: nat, quantity: nat): seq<Report> {
    match o
    case Refused => [Report(REJECTED, k.side, k.instrument, k.clientOrderId, 0, 0, price, quantity)]
    case Taken(trades) =>
      if trades == [] then
        [Report(ACCEPTED, k.side, k.instrument, k.clientOrderId, k.trader, 0, price, quantity)]
      else seq(|trades|, i requires 0 <= i < |trades| => FillReport(k, trades[i]))
  }

  // ---------- the sequential meaning of a stream of packets ----------

  function EngineAfter(capacity: nat, packets: seq<Packet>): (e: EM.Engine)
    ensures LB.Bounded(e.book)
  {
    if packets == [] then EM.Initial(capacity) else EngineAfterPacket(EngineAfter(capacity, Front(packets)), Last(packets))
  }

  /** What the engine alone, fed the packets one after another, answers. */
  function Answers(capacity: nat, packets: seq<Packet>): seq<Report> {
    if packets == [] then []
    else Answers(capacity, Front(packets)) + Answer(capacity, Front(packets), Last(packets))
  }

  function Answer(capacity: nat, before: seq<Packet>, p: Packet): seq<Report> {
    Reports(Keep(p), OutcomeOf(EngineAfter(capacity, before), p), p.price, p.quantity)
  }

  /** A report of trade `t`. */
  predicate Tells(r: Report, t: Trade) {
    r.kind == FILLED && r.maker == t.maker && r.taker == t.taker && r.price == t.price && r.quantity == t.quantity
  }

  /**
   Each packet yields exactly one rejection, exactly one acceptance that names its trader, or
   one fill per trade in trade order; all of them carry the packet's own identity fields.
   */
  lemma AnswerShape(k: Kept, o: EM.Outcome, price: nat, quantity: nat)
    ensures var r := Reports(k, o, price, quantity);
            && |r| >= 1
            && (forall i :: 0 <= i < |r| ==>
                  r[i].side == k.side && r[i].instrument == k.instrument && r[i].clientOrderId == k.clientOrderId)
            && (match o
                case Refused => |r| == 1 && r[0].kind == REJECTED
                case Taken(trades) =>
                  if trades == [] then |r| == 1 && r[0].kind == ACCEPTED && r[0].maker == k.trader
                  else |r| == |trades| && forall i :: 0 <= i < |r| ==> Tells(r[i], trades[i]))
  {
  }

  function Count(kind: Kind, reports: seq<Report>): nat {
    if reports == [] then 0 else Count(kind, Front(reports)) + if Last(reports).kind == kind then 1 else 0
  }

  lemma {:induction false} CountsCover(reports: seq<Report>)
    ensures Count(ACCEPTED, reports) + Count(FILLED, reports) + Count(REJECTED, reports) == |reports|
  {
    if reports != [] { CountsCover(Front(reports)); }
  }

  /** Packet `p`, coming after `before`, trades at most once. */
  ghost predicate TradesOnce(capacity: nat, before: seq<Packet>, p: Packet) {
    var o := OutcomeOf(EngineAfter(capacity, before), p);
    o.Taken? ==> |o.trades| <= 1
  }

  /** No packet traded more than once. */
  ghost predicate SingleTrades(capacity: nat, packets: seq<Packet>) {
    forall i {:trigger TradesOnce(capacity, packets[..i], packets[i])} :: 0 <= i < |packets| ==>
      TradesOnce(capacity, packets[..i], packets[i])
  }

  lemma SingleTradesFront(capacity: nat, packets: seq<Packet>)
    requires packets != []
    ensures SingleTrades(capacity, packets) <==>
            SingleTrades(capacity, Front(packets)) && TradesOnce(capacity, Front(packets), Last(packets))
  {
    var front, n := Front(packets), |packets| - 1;
    assert packets[..n] == front;
    if SingleTrades(capacity, packets) {
      assert TradesOnce(capacity, packets[..n], packets[n]);
      forall i | 0 <= i < n
        ensures TradesOnce(capacity, front[..i], front[i])
      {
        assert packets[..i] == front[..i];
        assert TradesOnce(capacity, packets[..i], packets[i]);
      }
    }
    if SingleTrades(capacity, front) && TradesOnce(capacity, front, packets[n]) {
      forall i | 0 <= i < |packets|
        ensures TradesOnce(capacity, packets[..i], packets[i])
      {
        if i < n {
          assert packets[..i] == front[..i];
          assert TradesOnce(capacity, front[..i], front[i]);
        }
      }
    }
  }

  /**
   Acceptances, fills (each counted once) and rejections always cover the packets, and they
   equal them exactly when no packet traded more than once.
   */
  lemma {:induction false} BalanceExactly(capacity: nat, packets: seq<Packet>)
    ensures var r := Answers(capacity, packets);
            var sum := Count(ACCEPTED, r) + Count(FILLED, r) + Count(REJECTED, r);
            sum >= |packets| && (sum == |packets| <==> SingleTrades(capacity, packets))
  {
    CountsCover(Answers(capacity, packets));
    if packets != [] {
      BalanceExactly(capacity, Front(packets));
      CountsCover(Answers(capacity, Front(packets)));
      SingleTradesFront(capacity, packets);
      var p := Last(packets);
      AnswerShape(Keep(p), OutcomeOf(EngineAfter(capacity, Front(packets)), p), p.price, p.quantity);
    }
  }

  /**
   What can be seen before packet `p` is processed: it is a new order that gets a slot, at
   least two makers are within its limit, and it asks for more than the first of them offers.
   */
  predicate MeetsTwo(e: EM.Engine, p: Packet) {
    && p.kind == NEW_ORDER && p.price <= MAX_PRICE_TICKS && p.side <= 1 && e.used != e.capacity
    && var makers := EM.Opposite(e.book, p.side);
       Crossable(makers, p.side == BUY, p.price) >= 2 && p.quantity > makers[0].quantity
  }

  lemma MeetsTwoExactly(capacity: nat, before: seq<Packet>, p: Packet)
    ensures TradesOnce(capacity, before, p) <==> !MeetsTwo(EngineAfter(capacity, before), p)
  {
    var e, subs := EngineAfter(capacity, before), Submissions(before);
    EngineIsARun(capacity, before);
    EM.RunKeepsLedger(capacity, subs);
    if p.kind == NEW_ORDER && p.price <= MAX_PRICE_TICKS {
      EM.SubmitOverrunsExactly(e, AsOrder(p), 1);
      var makers := EM.Opposite(e.book, p.side);
      if Crossable(makers, p.side == BUY, p.price) >= 2 {
        assert makers[..1] == [makers[0]];
        assert Weigh(OPEN_QUANTITY, [makers[0]]) == makers[0].quantity;
      }
    }
  }

  /**
   The client's balance by a condition on each packet and the book it meets: over every stream
   it is exact if and only if no packet meets two makers and wants more than the first.
   */
  lemma BalanceByBook(capacity: nat, packets: seq<Packet>)
    ensures var r := Answers(capacity, packets);
            Count(ACCEPTED, r) + Count(FILLED, r) + Count(REJECTED, r) == |packets| <==>
            forall i :: 0 <= i < |packets| ==> !MeetsTwo(EngineAfter(capacity, packets[..i]), packets[i])
  {
    BalanceExactly(capacity, packets);
    forall i | 0 <= i < |packets|
      ensures TradesOnce(capacity, packets[..i], packets[i]) <==> !MeetsTwo(EngineAfter(capacity, packets[..i]), packets[i])
    {
      MeetsTwoExactly(capacity, packets[..i], packets[i]);
    }
  }

  /** The new orders among the packets, as the engine's run: side, price, quantity and trader of each. */
  function Submissions(packets: seq<Packet>): seq<EM.Submission> {
    if packets == [] then []
    else
      var p := Last(packets);
      Submissions(Front(packets)) +
      if p.kind == 1 && p.price <= MAX_PRICE_TICKS then [EM.Order(p.side, p.price, p.quantity, p.trader)] else []
  }

  /** The engine of the pipeline is the engine after a run of submissions, so every theorem about runs applies to it. */
  lemma {:induction false} EngineIsARun(capacity: nat, packets: seq<Packet>)
    ensures EngineAfter(capacity, packets) == EM.Run(capacity, Submissions(packets))
  {
    if packets != [] {
      EngineIsARun(capacity, Front(packets));
      var subs, p := Submissions(Front(packets)), Last(packets);
      if p.kind == NEW_ORDER && p.price <= MAX_PRICE_TICKS {
        var s: EM.Submission := AsOrder(p);
        assert Submissions(packets) == subs + [s];
        assert Front(subs + [s]) == subs && Last(subs + [s]) == s;
      } else {
        assert Submissions(packets) == subs;
      }
    }
  }

  ghost predicate AllEqual(packets: seq<Packet>, q: nat) {
    forall i :: 0 <= i < |packets| ==> packets[i].quantity == q
  }

  lemma {:induction false} SubmissionsEqual(packets: seq<Packet>, q: nat)
    requires AllEqual(packets, q)
    ensures forall i :: 0 <= i < |Submissions(packets)| ==> Submissions(packets)[i].quantity == q
  {
    if packets != [] { SubmissionsEqual(Front(packets), q); }
  }

  /** When every packet carries the same positive quantity the balance is exact, as the client assumes. */
  lemma EqualQuantitiesBalance(capacity: nat, packets: seq<Packet>, q: nat)
    requires q > 0 && AllEqual(packets, q)
    ensures var r := Answers(capacity, packets);
            Count(ACCEPTED, r) + Count(FILLED, r) + Count(REJECTED, r) == |packets|
  {
    BalanceExactly(capacity, packets);
    forall i | 0 <= i < |packets|
      ensures TradesOnce(capacity, packets[..i], packets[i])
    {
      var e, p := EngineAfter(capacity, packets[..i]), packets[i];
      SubmissionsEqual(packets[..i], q);
      EngineIsARun(capacity, packets[..i]);
      EM.RunEqual(capacity, Submissions(packets[..i]), q);
      if OutcomeOf(e, p).Taken? {
        EM.MatchEqual(e.book, EM.AsQuote(e, AsOrder(p)));
      }
    }
  }

  /** Without equal quantities it fails: two resting units and a buy of two are three packets and four reports. */
  lemma BalanceFails() returns (packets: seq<Packet>)
    ensures var r := Answers(10, packets);
            |packets| == 3 && Count(ACCEPTED, r) + Count(FILLED, r) + Count(REJECTED, r) == 4
  {
    var sell := Packet(NEW_ORDER, SELL, 1, 9, 1, 5, 0);
    var buy := Packet(NEW_ORDER, BUY, 1, 8, 2, 5, 0);
    packets := [sell, sell, buy];
    var before := [sell, sell];
    assert Front(packets) == before && Front(before) == [sell] && Front([sell]) == [];
    assert Submissions([sell]) == [EM.UNIT_SELL];
    assert Submissions(before) == EM.UnitSells(2);
    EngineIsARun(10, before);
    EM.TradesBeyondQueue(10, 2);
    assert |Answer(10, before, buy)| == 2;
    UnitSellsBalance(sell);
    CountsCover(Answers(10, packets));
  }

  lemma UnitSellsBalance(sell: Packet)
    requires sell.quantity == 1
    ensures |Answers(10, [sell, sell])| == 2
  {
    EqualQuantitiesBalance(10, [sell, sell], 1);
    CountsCover(Answers(10, [sell, sell]));
  }
}
