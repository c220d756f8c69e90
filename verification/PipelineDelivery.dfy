/**
 What the pipeline does deliver: exactly which packets the core has no defined answer to, and
 that the answers to any stream of other packets can all reach the gateway, whole and in order.
 */
module PipelineDelivery {
  import opened Basics
  import opened Orders
  import opened Responses
  import opened Reporting
  import opened Pipeline
  import opened PipelineRuns
  import Q = SpscQueue
  import EM = EngineModel
  import LB = LevelBook
  import MatchingRules

  /** A new order priced beyond the level array, or with more trades to make than the execution queue has places. */
  predicate Stops(e: EM.Engine, p: Packet) {
    p.kind == 1 && (p.price > 1_000_000 || EM.Overruns(e, Placed(p), 10_000))
  }

  lemma DefinedExactly(capacity: nat, before: seq<Packet>, p: Packet)
    ensures Defined(EngineAfter(capacity, before), p) <==> !Stops(EngineAfter(capacity, before), p)
  {
    if p.kind == 1 && p.price <= 1_000_000 {
      OutcomeExactly(capacity, before, p, 10_000);
    }
  }

  /** What the core is about to process, and the engine it meets. */
  lemma LoadedFacts(c: Config, schedule: seq<Action>)
    requires ValidConfig(c)
    requires Run(c, schedule).core.pc.Loaded? && Run(c, schedule).inn.read != Run(c, schedule).core.pc.w
    ensures var s := Run(c, schedule);
            && s.inn.read < |s.inn.enqueued| && s.inn.slots[s.inn.read % |s.inn.slots|] == s.inn.enqueued[s.inn.read]
            && s.core.processed == s.inn.read
            && s.core.engine == EngineAfter(c.pool, s.inn.enqueued[..s.inn.read])
  {
    RunInv(c, schedule);
    NextPacket(Run(c, schedule).inn);
  }

  /**
   After every schedule: the core that has found a packet leaves defined behaviour if and only
   if the packet is a new order priced beyond the level array, or one that meets more than
   10 000 makers within its limit and outlasts that many. Any other packet it processes.
   */
  lemma CoreStopsExactly(c: Config, schedule: seq<Action>)
    requires ValidConfig(c)
    requires Run(c, schedule).core.pc.Loaded? && Run(c, schedule).inn.read != Run(c, schedule).core.pc.w
    ensures var s, r := Run(c, schedule), StepCore(Run(c, schedule)).core;
            && s.inn.read < |s.inn.enqueued|
            && var p := s.inn.enqueued[s.inn.read];
               && (r.pc == Undefined <==> Stops(s.core.engine, p))
               && (!Stops(s.core.engine, p) ==>
                     && r.pc.Processed? && r.pc.kept == Kept(p.side, p.instrument, p.trader, p.clientOrderId)
                     && r.pc.outcome == OutcomeOf(s.core.engine, p) && r.processed == s.core.processed + 1)
  {
    LoadedFacts(c, schedule);
    var s := Run(c, schedule);
    DefinedExactly(c.pool, s.inn.enqueued[..s.inn.read], s.inn.enqueued[s.inn.read]);
  }

  // ---------- the gateway's ends of the rings ----------

  ghost predicate NoEnqueue(schedule: seq<Action>) {
    forall i :: 0 <= i < |schedule| ==> !schedule[i].Gateway?
  }

  lemma NotEnqueue(s: State, a: Action)
    requires Sized(s) && !a.Gateway?
    ensures var i, j := s.inn, Apply(s, a).inn;
            j == i.(read := j.read)
  {
  }

  lemma {:induction false} WriterWaits(c: Config, before: seq<Action>, middle: seq<Action>)
    requires ValidConfig(c) && NoEnqueue(middle)
    ensures var i, j := Run(c, before).inn, Run(c, before + middle).inn;
            j == i.(read := j.read)
  {
    if middle == [] {
      assert before + middle == before;
    } else {
      var front, a := Front(middle), Last(middle);
      WriterWaits(c, before, front);
      assert Front(before + middle) == before + front;
      NotEnqueue(Run(c, before + front), a);
    }
  }

  lemma WriterStep(c: Config, before: seq<Action>, p: Packet)
    requires ValidConfig(c)
    ensures Run(c, before + [Gateway(p)]).inn == StepWriter(Run(c, before).inn, p)
  {
    assert Front(before + [Gateway(p)]) == before;
  }

  /**
   Enqueue's answer, whatever the other threads do between its steps: it is refused if and only
   if the ring was full when it loaded the read index; otherwise the packet is in its slot, and
   the next step of Enqueue makes it the next packet.
   */
  lemma EnqueueAnswersExactly(c: Config, before: seq<Action>, m1: seq<Action>, m2: seq<Action>, m3: seq<Action>, p: Packet)
    requires ValidConfig(c) && Run(c, before).inn.writer == WIdle && NoEnqueue(m1) && NoEnqueue(m2) && NoEnqueue(m3)
    ensures var g, i := [Gateway(p)], Run(c, before).inn;
            var stored := before + g + m1 + g + m2 + g;
            if i.write == i.read + |i.slots| then Run(c, stored).inn == i.(read := Run(c, stored).inn.read)
            else
              var done := Run(c, stored + m3 + g).inn;
              && done.writer == WIdle && done.enqueued == i.enqueued + [p] && done.write == i.write + 1
              && done.slots == i.slots[i.write % |i.slots| := p]
  {
    var g := [Gateway(p)];
    WriterStep(c, before, p);
    WriterWaits(c, before + g, m1);
    WriterStep(c, before + g + m1, p);
    WriterWaits(c, before + g + m1 + g, m2);
    WriterStep(c, before + g + m1 + g + m2, p);
    WriterWaits(c, before + g + m1 + g + m2 + g, m3);
    WriterStep(c, before + g + m1 + g + m2 + g + m3, p);
  }

  /** Dequeue reports an empty ring if and only if everything published has been dequeued when it loads the write index. */
  lemma DequeueEmptyExactly(c: Config, schedule: seq<Action>)
    requires ValidConfig(c) && Run(c, schedule).out.reader.RHaveRead?
    ensures var e := Run(c, schedule).out;
            && StepReader(e).delivered == e.delivered
            && (StepReader(e).reader == RIdle <==> |e.delivered| == |e.published|)
            && (StepReader(e).reader != RIdle ==> StepReader(e).reader == RNonEmpty(|e.delivered|))
  {
    RunInv(c, schedule);
  }

  // ---------- the end of the publisher ----------

  lemma MoveOne(delivered: seq<Report>, reports: seq<Report>, i: nat)
    requires i < |reports|
    ensures delivered + [reports[i]] + reports[i + 1..] == delivered + reports[i..]
  {
    assert reports[i..] == [reports[i]] + reports[i + 1..];
    Associates(delivered, [reports[i]], reports[i + 1..]);
  }

  /** The publisher goes on while the engine is active; after that it ends if and only if it then finds the queue empty. */
  lemma PublisherEndsExactly(c: Config, schedule: seq<Action>)
    requires ValidConfig(c)
    ensures var s := Run(c, schedule);
            var r := StepPublisher(s);
            && (s.out.publisher == PTop ==> r.out.publisher == if s.active then Popping else Draining)
            && (s.out.publisher == Draining ==>
                  r.out.publisher == if |s.queue.popped| == |s.queue.pushed| then PExited else Popping)
            && (r.out.publisher == PExited && s.out.publisher != PExited ==> s.out.publisher == Draining)
  {
    RunInv(c, schedule);
    if Run(c, schedule).out.publisher.Popping? { PoppingKeeps(Run(c, schedule)); }
  }

  /** The publisher, the engine being inactive, takes the next report out of the queue and publishes it. */
  lemma PublishInactive(c: Config, s: State) returns (t: State)
    requires Reachable(c, s) && !s.active && s.out.publisher == PTop && s.queue.consumer == Q.Resting
    requires s.queue.head < s.queue.tail == |s.queue.pushed| && s.out.write < s.out.read + |s.out.slots|
    ensures Reachable(c, t) && t == s.(queue := t.queue, out := t.out)
    ensures t.queue == s.queue.(head := s.queue.head + 1, popped := t.queue.popped)
    ensures t.out.publisher == PTop && t.out.read == s.out.read && |t.out.slots| == |s.out.slots|
    ensures t.out.write == s.out.write + 1 && t.out.published == s.out.published + [s.queue.pushed[s.queue.head]]
  {
    ReachableQueue(c, s);
    var x := s.queue.pushed[s.queue.head];
    Go(c, s, EgressPublisher);
    var s1 := s.(out := s.out.(publisher := Draining));
    Go(c, s1, EgressPublisher);
    var s2 := s.(out := s.out.(publisher := Popping));
    assert Apply(s1, EgressPublisher) == s2;
    var s3 := HoldPopped(c, s2, x);
    BeginStore(c, s3);
    var s4 := s3.(out := s3.out.(publisher := Storing(x)));
    FinishStore(c, s4, x);
    t := s4.(out := Published(s4.out, x));
  }

  lemma {:induction false} PublishAllInactive(c: Config, s: State) returns (t: State)
    requires Reachable(c, s) && !s.active && s.out.publisher == PTop && s.queue.consumer == Q.Resting
    requires s.queue.head <= s.queue.tail == |s.queue.pushed|
    requires s.out.write + (s.queue.tail - s.queue.head) <= s.out.read + |s.out.slots|
    ensures Reachable(c, t) && t.out.publisher == PTop && t.queue.head == t.queue.tail && !t.active
    ensures t.out.published == s.out.published + s.queue.pushed[s.queue.head..] && t.core == s.core
    decreases s.queue.tail - s.queue.head
  {
    t := s;
    var pushed, h := s.queue.pushed, s.queue.head;
    if h < s.queue.tail {
      var u := PublishInactive(c, s);
      t := PublishAllInactive(c, u);
      MoveOne(s.out.published, pushed, h);
    } else {
      assert s.out.published + pushed[h..] == s.out.published;
    }
  }

  /** After shutdown the publisher, left to run with room in the ring, publishes everything in the queue and ends. */
  lemma PublisherDrains(c: Config, s: State) returns (t: State)
    requires Reachable(c, s) && !s.active && s.out.publisher == PTop && |s.queue.popped| <= |s.queue.pushed|
    requires s.out.write + |Q.Contents(s.queue)| <= s.out.read + |s.out.slots|
    ensures Reachable(c, t) && t.out.publisher == PExited && t.core == s.core
    ensures t.out.published == s.out.published + Q.Contents(s.queue)
  {
    ReachableInv(c, s);
    var u := PublishAllInactive(c, s);
    Go(c, u, EgressPublisher);
    var v := u.(out := u.out.(publisher := Draining));
    Go(c, v, EgressPublisher);
    t := Apply(v, EgressPublisher);
  }

  // ---------- a run that delivers everything ----------

  /** The publisher takes the one report in the queue and the gateway dequeues it. */
  lemma PublishNext(c: Config, s: State, x: Report) returns (t: State)
    requires Reachable(c, s) && s.active && s.out.publisher == PTop && s.queue.consumer == Q.Resting
    requires s.out.reader == RIdle && s.out.read == s.out.write
    requires s.queue.head + 1 == s.queue.tail == |s.queue.pushed| && s.queue.pushed[s.queue.head] == x
    ensures Reachable(c, t) && t == s.(queue := t.queue, out := t.out)
    ensures t.queue == s.queue.(head := s.queue.tail, popped := s.queue.popped + [x])
    ensures t.out.publisher == PTop && t.out.reader == RIdle && t.out.read == t.out.write
    ensures t.out.delivered == s.out.delivered + [x]
  {
    ReachableInv(c, s);
    var s1 := HoldNext(c, s);
    BeginStore(c, s1);
    var s2 := s1.(out := s1.out.(publisher := Storing(x)));
    FinishStore(c, s2, x);
    var s3 := s2.(out := Published(s2.out, x));
    Dequeue(c, s3, x);
    t := s3.(out := Dequeued(s3.out, x));
  }

  /** No thread but the core is inside an operation, and everything published has been dequeued. */
  ghost predicate Clear(s: State) {
    && s.active && !s.queue.stopped && s.inn.writer == WIdle && s.inn.read == s.inn.write
    && s.queue.producer == Q.Idle && s.queue.consumer == Q.Resting && s.queue.head == s.queue.tail
    && s.out.publisher == PTop && s.out.reader == RIdle && s.out.read == s.out.write
  }

  /** One report goes all the way. */
  lemma DeliverOne(c: Config, s: State) returns (t: State)
    requires Reachable(c, s) && Clear(s) && s.core.pc.Emitting? && s.core.pc.next < |s.core.pc.reports|
    ensures Reachable(c, t) && Clear(t) && t.inn == s.inn
    ensures t.core == s.core.(pc := Emitting(s.core.pc.reports, s.core.pc.next + 1))
    ensures t.out.delivered == s.out.delivered + [s.core.pc.reports[s.core.pc.next]]
  {
    var x := s.core.pc.reports[s.core.pc.next];
    ReachableQueue(c, s);
    var s1 := EmitNext(c, s, x);
    t := PublishNext(c, s1, x);
  }

  lemma {:induction false} DeliverRest(c: Config, s: State) returns (t: State)
    requires Reachable(c, s) && Clear(s) && s.core.pc.Emitting? && s.core.pc.next <= |s.core.pc.reports|
    ensures Reachable(c, t) && Clear(t) && t.inn == s.inn && t.core == s.core.(pc := Top)
    ensures t.out.delivered == s.out.delivered + s.core.pc.reports[s.core.pc.next..]
    decreases |s.core.pc.reports| - s.core.pc.next
  {
    var reports, i := s.core.pc.reports, s.core.pc.next;
    if i == |reports| {
      EmitDone(c, s);
      t := s.(core := s.core.(pc := Top));
    } else {
      var u := DeliverOne(c, s);
      t := DeliverRest(c, u);
      MoveOne(s.out.delivered, reports, i);
    }
  }

  /** The whole answer to packet `p` goes all the way. */
  lemma DeliverAnswer(c: Config, s: State, p: Packet) returns (t: State)
    requires Reachable(c, s) && LB.Bounded(s.core.engine.book)
    requires Clear(s) && s.core.pc == Top && Defined(s.core.engine, p)
    ensures Reachable(c, t) && Clear(t) && t.core.pc == Top
    ensures t.inn.enqueued == s.inn.enqueued + [p] && t.core.engine == EngineAfterPacket(s.core.engine, p)
    ensures t.out.delivered == s.out.delivered + Reports(Keep(p), OutcomeOf(s.core.engine, p), p.price, p.quantity)
  {
    ReachableInv(c, s);
    var u := AnswerPacket(c, s, p);
    t := DeliverRest(c, u);
    var reports := Reports(Keep(p), OutcomeOf(s.core.engine, p), p.price, p.quantity);
    assert reports[0..] == reports;
  }

  /** No packet of the stream takes the core out of defined behaviour. */
  ghost predicate Orderly(pool: nat, packets: seq<Packet>) {
    forall i :: 0 <= i < |packets| ==> !Stops(EngineAfter(pool, packets[..i]), packets[i])
  }

  lemma OrderlyFront(pool: nat, packets: seq<Packet>)
    requires packets != [] && Orderly(pool, packets)
    ensures Orderly(pool, Front(packets)) && !Stops(EngineAfter(pool, Front(packets)), Last(packets))
  {
    var front := Front(packets);
    assert packets[..|packets| - 1] == front;
    forall i | 0 <= i < |front|
      ensures !Stops(EngineAfter(pool, front[..i]), front[i])
    {
      assert front[..i] == packets[..i];
    }
  }

  /** All of `packets` are enqueued and processed, and exactly their answers are delivered. */
  ghost predicate AllDone(c: Config, s: State, packets: seq<Packet>) {
    && Clear(s) && s.core.pc == Top && s.inn.enqueued == packets
    && s.core.engine == EngineAfter(c.pool, packets) && s.out.delivered == Answers(c.pool, packets)
  }

  lemma NothingYet(c: Config)
    requires ValidConfig(c)
    ensures Reachable(c, Initial(c)) && AllDone(c, Initial(c), [])
  {
    Start(c);
  }

  /** Some run has delivered exactly the answers to `packets`. */
  ghost predicate Deliverable(c: Config, packets: seq<Packet>) {
    exists s :: Reachable(c, s) && AllDone(c, s, packets)
  }

  lemma OneMoreDone(c: Config, front: seq<Packet>, p: Packet)
    requires Deliverable(c, front) && !Stops(EngineAfter(c.pool, front), p)
    ensures Deliverable(c, front + [p])
  {
    var s :| Reachable(c, s) && AllDone(c, s, front);
    var t := OneMoreAnswer(c, s, front, p);
  }

  lemma OneMoreAnswer(c: Config, s: State, front: seq<Packet>, p: Packet) returns (t: State)
    requires Reachable(c, s) && AllDone(c, s, front) && !Stops(EngineAfter(c.pool, front), p)
    ensures Reachable(c, t) && AllDone(c, t, front + [p])
  {
    DefinedExactly(c.pool, front, p);
    t := DeliverAnswer(c, s, p);
    StreamGrows(c.pool, front, p);
  }

  lemma StreamGrows(pool: nat, front: seq<Packet>, p: Packet)
    ensures var e := EngineAfter(pool, front);
            && EngineAfter(pool, front + [p]) == EngineAfterPacket(e, p)
            && Answers(pool, front + [p]) == Answers(pool, front) + Reports(Keep(p), OutcomeOf(e, p), p.price, p.quantity)
  {
    assert Front(front + [p]) == front && Last(front + [p]) == p;
  }

  /**
   For rings of every size and every stream of packets that keeps the core within defined
   behaviour there is a run that delivers exactly the sequential engine's answers, in order and
   in every field, late ones included.
   */
  lemma AllAnswersDelivered(c: Config, packets: seq<Packet>) returns (t: State)
    requires ValidConfig(c) && Orderly(c.pool, packets)
    ensures Reachable(c, t) && t.inn.enqueued == packets && t.core.engine == EngineAfter(c.pool, packets)
    ensures t.out.delivered == Answers(c.pool, packets)
  {
    OrderlyIsDeliverable(c, packets);
    t :| Reachable(c, t) && AllDone(c, t, packets);
  }

  lemma {:induction false} OrderlyIsDeliverable(c: Config, packets: seq<Packet>)
    requires ValidConfig(c) && Orderly(c.pool, packets)
    ensures Deliverable(c, packets)
  {
    if packets == [] {
      NothingYet(c);
    } else {
      OrderlyFront(c.pool, packets);
      OrderlyIsDeliverable(c, Front(packets));
      OneMoreDone(c, Front(packets), Last(packets));
      assert Front(packets) + [Last(packets)] == packets;
    }
  }

  /**
   For one: a buy and a sell whose prices meet are answered by an acceptance and a fill, which
   the gateway dequeues with the packets' own identities, prices, quantities and traders.
   */
  lemma PairDelivered(c: Config, a: Packet, b: Packet) returns (t: State)
    requires ValidConfig(c) && c.pool >= 2 && a.kind == b.kind == 1 && a.quantity > 0 && b.quantity > 0
    requires a.price <= 1_000_000 && b.price <= 1_000_000 && MatchingRules.PricesMeet(Placed(a), Placed(b))
    ensures Reachable(c, t) && t.inn.enqueued == [a, b]
    ensures t.out.delivered ==
            [Report(ACCEPTED, a.side, a.instrument, a.clientOrderId, a.trader, 0, a.price, a.quantity),
             Report(FILLED, b.side, b.instrument, b.clientOrderId, a.trader, b.trader, a.price, Min(a.quantity, b.quantity))]
  {
    PairOrderly(c.pool, a, b);
    t := AllAnswersDelivered(c, [a, b]);
    PairAnswers(c.pool, a, b);
  }

  lemma PairOrderly(pool: nat, a: Packet, b: Packet)
    requires pool >= 2 && a.kind == b.kind == 1 && a.quantity > 0 && b.quantity > 0
    requires a.price <= 1_000_000 && b.price <= 1_000_000 && MatchingRules.PricesMeet(Placed(a), Placed(b))
    ensures Orderly(pool, [a, b])
  {
    MatchingRules.TwoOrders(pool, Placed(a), Placed(b));
    OutcomesTwo(pool, a, b);
    OutcomeExactly(pool, [], a, 10_000);
    OutcomeExactly(pool, [a], b, 10_000);
    assert [a, b][..0] == [] && [a, b][..1] == [a];
  }

  /** Every fill dequeued, in every run, names the traders of two of the packets enqueued. */
  lemma DeliveredFills(c: Config, schedule: seq<Action>, i: nat) returns (k: nat, j: nat)
    requires ValidConfig(c) && i < |Run(c, schedule).out.delivered| && Run(c, schedule).out.delivered[i].kind == FILLED
    ensures var s := Run(c, schedule);
            && j < k < |s.inn.enqueued|
            && var r, taker, maker := s.out.delivered[i], s.inn.enqueued[k], s.inn.enqueued[j];
               && taker.kind == 1 && maker.kind == 1
               && r.side == taker.side && r.instrument == taker.instrument && r.clientOrderId == taker.clientOrderId
               && r.taker == taker.trader && r.maker == maker.trader && r.price == maker.price
  {
    var s := Run(c, schedule);
    DeliveredIsThePrefixOfAnswers(c, schedule, i);
    k, j := StreamFills(c.pool, s.inn.enqueued, s.out.copies[i]);
  }
}
