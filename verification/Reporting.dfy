/**
 What the reports say, told in the fields of the packets: which report a packet gets, and
 whose orders a fill names.
 */
module Reporting {
  import opened Basics
  import opened Orders
  import opened Responses
  import EM = EngineModel
  import MatchingRules

  // ---------- one packet ----------

  /** A report that repeats its packet's own identity, price and quantity. */
  function Own(kind: Kind, p: Packet, maker: nat): Report {
    Report(kind, p.side, p.instrument, p.clientOrderId, maker, 0, p.price, p.quantity)
  }

  /** The order a packet places. */
  function Placed(p: Packet): EM.Order {
    EM.Order(p.side, p.price, p.quantity, p.trader)
  }

  /**
   Which answer packet `p` gets after the packets `before`, by the packet, the pool and the
   book it meets: one rejection if it is no new order or the pool is full; otherwise one
   acceptance if it meets no maker within its limit or wants nothing; otherwise fills, more
   than `n` of them if and only if it outlasts the first `n` makers within its limit.
   */
  lemma AnswerExactly(capacity: nat, before: seq<Packet>, p: Packet, n: nat)
    requires p.kind == 1 ==> p.price <= 1_000_000
    ensures var e, r := EngineAfter(capacity, before), Answer(capacity, before, p);
            if p.kind != 1 || e.used == e.capacity then r == [Own(REJECTED, p, 0)]
            else if !EM.Overruns(e, Placed(p), 0) then r == [Own(ACCEPTED, p, p.trader)]
            else (|r| > n <==> EM.Overruns(e, Placed(p), n)) && forall i :: 0 <= i < |r| ==> r[i].kind == FILLED
  {
    OutcomeExactly(capacity, before, p, n);
    OutcomeExactly(capacity, before, p, 0);
    ReportsOf(p, OutcomeOf(EngineAfter(capacity, before), p));
  }

  lemma OutcomeExactly(capacity: nat, before: seq<Packet>, p: Packet, n: nat)
    requires p.kind == 1 ==> p.price <= 1_000_000
    ensures var e, o := EngineAfter(capacity, before), OutcomeOf(EngineAfter(capacity, before), p);
            && (o == EM.Refused <==> p.kind != 1 || e.used == e.capacity)
            && (o.Taken? ==> (|o.trades| > n <==> EM.Overruns(e, Placed(p), n)))
  {
    EngineIsARun(capacity, before);
    EM.RunKeepsLedger(capacity, Submissions(before));
    if p.kind == 1 {
      EM.SubmitOverrunsExactly(EngineAfter(capacity, before), Placed(p), n);
    }
  }

  lemma ReportsOf(p: Packet, o: EM.Outcome)
    ensures var r := Reports(Keep(p), o, p.price, p.quantity);
            match o
            case Refused => r == [Own(REJECTED, p, 0)]
            case Taken(trades) =>
              if trades == [] then r == [Own(ACCEPTED, p, p.trader)]
              else |r| == |trades| && forall i :: 0 <= i < |r| ==> r[i].kind == FILLED
  {
  }

  /** Every submission is one of the packets, with its side, price, quantity and trader. */
  lemma {:induction false} SubmissionIsAPacket(packets: seq<Packet>, j: nat) returns (k: nat)
    requires j < |Submissions(packets)|
    ensures k < |packets| && packets[k].kind == 1 && Submissions(packets)[j] == Placed(packets[k])
  {
    var front := Submissions(Front(packets));
    if j < |front| {
      k := SubmissionIsAPacket(Front(packets), j);
    } else {
      k := |packets| - 1;
    }
  }

  /**
   A fill that answers packet `p` names the packet's own trader as the taker, and as the maker
   the trader of an earlier new order, at that order's price. If no order before has stranded,
   the two orders are of opposite sides.
   */
  lemma FillNamesItsPackets(capacity: nat, before: seq<Packet>, p: Packet, i: nat) returns (j: nat)
    requires i < |Answer(capacity, before, p)| && Answer(capacity, before, p)[i].kind == FILLED
    ensures j < |before| && before[j].kind == 1 && p.kind == 1
    ensures var r := Answer(capacity, before, p)[i];
            && r.side == p.side && r.instrument == p.instrument && r.clientOrderId == p.clientOrderId
            && r.taker == p.trader && r.maker == before[j].trader && r.price == before[j].price
            && (EM.NeverStrands(capacity, Submissions(before)) ==> p.side + before[j].side == 1)
  {
    var subs := Submissions(before);
    EngineIsARun(capacity, before);
    assert OutcomeOf(EngineAfter(capacity, before), p).Taken?;
    var s := MatchingRules.TradeNamesItsOrders(capacity, subs, Placed(p), i);
    j := SubmissionIsAPacket(before, s);
  }

  // ---------- a stream of packets ----------

  lemma AnswersGrow(capacity: nat, packets: seq<Packet>)
    requires packets != []
    ensures var k := |packets| - 1;
            && packets[..k] == Front(packets)
            && Answers(capacity, packets) == Answers(capacity, Front(packets)) + Answer(capacity, packets[..k], packets[k])
  {
  }

  /** Report `x` is report `n` of the answer to packet `k` of the stream. */
  ghost predicate Answering(capacity: nat, packets: seq<Packet>, x: Report, k: nat, n: nat) {
    && k < |packets| && n < |Answer(capacity, packets[..k], packets[k])|
    && x == Answer(capacity, packets[..k], packets[k])[n]
  }

  lemma AnsweringLonger(capacity: nat, packets: seq<Packet>, x: Report, k: nat, n: nat)
    requires packets != [] && Answering(capacity, Front(packets), x, k, n)
    ensures Answering(capacity, packets, x, k, n)
  {
    assert Front(packets)[..k] == packets[..k];
  }

  /** Every report of a stream answers one of its packets. */
  lemma {:induction false} AnswerOf(capacity: nat, packets: seq<Packet>, i: nat) returns (k: nat, n: nat)
    requires i < |Answers(capacity, packets)|
    ensures Answering(capacity, packets, Answers(capacity, packets)[i], k, n)
  {
    var front := Front(packets);
    AnswersGrow(capacity, packets);
    if i < |Answers(capacity, front)| {
      k, n := AnswerOf(capacity, front, i);
      AnsweringLonger(capacity, packets, Answers(capacity, front)[i], k, n);
    } else {
      k, n := |packets| - 1, i - |Answers(capacity, front)|;
    }
  }

  /**
   Over every stream: each fill answers some packet `k` with its trader as the taker, and names
   as the maker the trader of a packet `j` before it, at the price of that packet.
   */
  lemma StreamFills(capacity: nat, packets: seq<Packet>, i: nat) returns (k: nat, j: nat)
    requires i < |Answers(capacity, packets)| && Answers(capacity, packets)[i].kind == FILLED
    ensures j < k < |packets| && packets[j].kind == 1 && packets[k].kind == 1
    ensures var r := Answers(capacity, packets)[i];
            && r.side == packets[k].side && r.instrument == packets[k].instrument
            && r.clientOrderId == packets[k].clientOrderId && r.taker == packets[k].trader
            && r.maker == packets[j].trader && r.price == packets[j].price
            && (EM.NeverStrands(capacity, Submissions(packets[..k])) ==> packets[k].side + packets[j].side == 1)
  {
    var n: nat;
    k, n := AnswerOf(capacity, packets, i);
    j := FillNamesItsPackets(capacity, packets[..k], packets[k], n);
  }

  lemma AnswersTwo(capacity: nat, a: Packet, b: Packet)
    ensures Answers(capacity, [a, b]) == Answer(capacity, [], a) + Answer(capacity, [a], b)
  {
    assert Front([a, b]) == [a] && Front([a]) == [] && Last([a, b]) == b && Last([a]) == a;
    assert Answers(capacity, []) + Answer(capacity, [], a) == Answer(capacity, [], a);
  }

  lemma OutcomesTwo(capacity: nat, a: Packet, b: Packet)
    requires a.kind == b.kind == 1 && a.price <= MAX_PRICE_TICKS && b.price <= MAX_PRICE_TICKS
    ensures EM.Outcomes(capacity, [Placed(a), Placed(b)]) ==
            [OutcomeOf(EngineAfter(capacity, []), a), OutcomeOf(EngineAfter(capacity, [a]), b)]
  {
    var x: EM.Submission, y: EM.Submission := Placed(a), Placed(b);
    assert Front([x, y]) == [x] && Front([x]) == [] && Last([x, y]) == y && Last([x]) == x;
    assert Front([a]) == [] && Last([a]) == a;
    assert EngineAfter(capacity, [a]) == EM.Run(capacity, [x]);
    assert EM.Outcomes(capacity, [x]) == [EM.Submit(EM.Initial(capacity), x).outcome];
  }

  /**
   A buy and a sell whose prices meet, on a fresh engine: the first is accepted, the second is
   filled at the first one's price, and the fill names the first one's trader and its own.
   */
  lemma PairAnswers(capacity: nat, a: Packet, b: Packet)
    requires capacity >= 2 && a.kind == b.kind == 1 && a.quantity > 0 && b.quantity > 0
    requires a.price <= 1_000_000 && b.price <= 1_000_000 && MatchingRules.PricesMeet(Placed(a), Placed(b))
    ensures Answers(capacity, [a, b]) ==
            [Own(ACCEPTED, a, a.trader),
             Report(FILLED, b.side, b.instrument, b.clientOrderId, a.trader, b.trader, a.price, Min(a.quantity, b.quantity))]
  {
    MatchingRules.TwoOrders(capacity, Placed(a), Placed(b));
    OutcomesTwo(capacity, a, b);
    AnswersTwo(capacity, a, b);
    assert Answer(capacity, [], a) == [Own(ACCEPTED, a, a.trader)];
  }

  /** For one, the client's pair: a buy by trader 101 and a sell by trader 102, both of 10 at 1000. */
  lemma ClientPair(capacity: nat, id: nat)
    requires capacity >= 2 && id < 0xFFFF_FFFF_FFFF_FFFF
    ensures Answers(capacity, [Packet(1, 0, 1, 101, 10, 1000, id), Packet(1, 1, 1, 102, 10, 1000, id + 1)]) ==
            [Report(ACCEPTED, 0, 1, id, 101, 0, 1000, 10), Report(FILLED, 1, 1, id + 1, 101, 102, 1000, 10)]
  {
    PairAnswers(capacity, Packet(1, 0, 1, 101, 10, 1000, id), Packet(1, 1, 1, 102, 10, 1000, id + 1));
  }
}
