/**
 Runs of the pipeline in which its weak points show, for rings of every size: reports built
 from a slot the gateway has reused or is reusing, a report overwritten after shutdown, and a
 report left behind by a publisher that ended too early.
 */
module PipelineRuns {
  import opened Basics
  import opened Rings
  import opened Responses
  import opened Pipeline
  import Q = SpscQueue
  import EM = EngineModel

  /** Some schedule leads to state `s`. */
  ghost predicate Reachable(c: Config, s: State) {
    ValidConfig(c) && exists schedule :: s == Run(c, schedule)
  }

  lemma Start(c: Config)
    requires ValidConfig(c)
    ensures Reachable(c, Initial(c))
  {
    assert Run(c, []) == Initial(c);
  }

  /** One more step. */
  lemma Go(c: Config, s: State, a: Action)
    requires Reachable(c, s)
    ensures Sized(s) && Reachable(c, Apply(s, a))
  {
    var schedule :| s == Run(c, schedule);
    assert (schedule + [a])[..|schedule|] == schedule;
    assert Run(c, schedule + [a]) == Apply(s, a);
  }

  lemma ReachableInv(c: Config, s: State)
    requires Reachable(c, s)
    ensures Inv(s, c.pool)
  {
    var schedule :| s == Run(c, schedule);
    RunInv(c, schedule);
  }

  lemma ReachableSized(c: Config, s: State)
    requires Reachable(c, s)
    ensures |s.inn.slots| > 0 && |s.queue.slots| > 0 && |s.out.slots| > 0
    ensures s.core.pc.Freed? || s.core.pc.Priced? ==> s.inn.read > 0
  {
    ReachableInv(c, s);
  }

  lemma ReachableQueue(c: Config, s: State)
    requires Reachable(c, s)
    ensures Q.Inv(s.queue)
  {
    ReachableInv(c, s);
  }

  // ---------- enqueueing ----------

  /** The ring with packet `p` in the next slot and the write index not yet stored. */
  function HalfEnqueued(i: Ingress, p: Packet): Ingress
    requires |i.slots| > 0
  {
    i.(slots := i.slots[i.write % |i.slots| := p], writer := WStored(p, i.write))
  }

  function Enqueued(i: Ingress, p: Packet): Ingress
    requires |i.slots| > 0
  {
    i.(slots := i.slots[i.write % |i.slots| := p], write := i.write + 1, enqueued := i.enqueued + [p])
  }

  lemma Enqueue(c: Config, s: State, p: Packet)
    requires Reachable(c, s) && s.inn.writer == WIdle && |s.inn.slots| > 0 && s.inn.write < s.inn.read + |s.inn.slots|
    ensures Reachable(c, s.(inn := HalfEnqueued(s.inn, p))) && Reachable(c, s.(inn := Enqueued(s.inn, p)))
  {
    var g, i := Gateway(p), s.inn;
    Go(c, s, g);
    var s1 := s.(inn := i.(writer := WHaveRead(p, i.read)));
    Go(c, s1, g);
    var s2 := s.(inn := i.(writer := WHaveWrite(p, i.read, i.write)));
    Go(c, s2, g);
    var s3 := s.(inn := HalfEnqueued(i, p));
    assert Apply(s2, g) == s3;
    Go(c, s3, g);
  }

  /** Whole enqueues, one after another, as far as there is room. */
  lemma {:induction false} EnqueueAll(c: Config, s: State, packets: seq<Packet>) returns (t: State)
    requires Reachable(c, s) && s.inn.writer == WIdle && |s.inn.slots| > 0
    requires s.inn.write + |packets| <= s.inn.read + |s.inn.slots|
    ensures Reachable(c, t) && t == s.(inn := t.inn)
    ensures t.inn.writer == WIdle && t.inn.read == s.inn.read && t.inn.write == s.inn.write + |packets|
    ensures |t.inn.slots| == |s.inn.slots|
    decreases |packets|
  {
    t := s;
    if packets != [] {
      Enqueue(c, s, packets[0]);
      t := EnqueueAll(c, s.(inn := Enqueued(s.inn, packets[0])), packets[1..]);
    }
  }

  /** As many enqueues as there are other slots, and one unfinished, reuse the slot just released. */
  lemma ReuseSlot(c: Config, s: State, fillers: seq<Packet>, b: Packet) returns (t: State)
    requires Reachable(c, s) && s.inn.writer == WIdle && 0 < s.inn.read == s.inn.write
    requires |fillers| == |s.inn.slots| - 1
    ensures Reachable(c, t) && t == s.(inn := t.inn) && t.inn.read == s.inn.read
    ensures |t.inn.slots| == |s.inn.slots| && t.inn.slots[(s.inn.read - 1) % |s.inn.slots|] == b
  {
    var n, k := |s.inn.slots|, s.inn.read - 1;
    var u := EnqueueAll(c, s, fillers);
    Enqueue(c, u, b);
    t := u.(inn := HalfEnqueued(u.inn, b));
    ModAdd(k, n, 1);
  }

  /** The core reads the price. */
  lemma ReadPrice(c: Config, s: State, p: Packet) returns (t: State)
    requires Reachable(c, s) && s.core.pc.Freed? && |s.inn.slots| > 0
    requires s.inn.slots[(s.inn.read - 1) % |s.inn.slots|] == p
    ensures Reachable(c, t) && t == s.(core := s.core.(pc := Priced(s.core.pc.kept, s.core.pc.outcome, p.price)))
  {
    Go(c, s, MatchingCore);
    t := Apply(s, MatchingCore);
  }

  /** The core reads the quantity. */
  lemma ReadQuantity(c: Config, s: State, p: Packet) returns (t: State)
    requires Reachable(c, s) && s.core.pc.Priced? && |s.inn.slots| > 0
    requires s.inn.slots[(s.inn.read - 1) % |s.inn.slots|] == p
    ensures Reachable(c, t)
    ensures var pc := s.core.pc;
            t == s.(core := s.core.(pc := Emitting(Reports(pc.kept, pc.outcome, pc.price, p.quantity), 0)))
  {
    Go(c, s, MatchingCore);
    t := Apply(s, MatchingCore);
  }

  /**
   The race on a released slot, for every ring size: from any reachable state whose core has
   released its packet, the ring being empty and the writer idle, a lap of enqueues before both
   reads makes the core report with the price and quantity of the last packet.
   */
  lemma ReleasedSlotRace(c: Config, s: State, fillers: seq<Packet>, b: Packet) returns (t: State)
    requires Reachable(c, s) && s.core.pc.Freed? && s.inn.writer == WIdle && s.inn.read == s.inn.write
    requires |fillers| == |s.inn.slots| - 1
    ensures Reachable(c, t) && t.queue == s.queue && t.out == s.out
    ensures t.core == s.core.(pc := Emitting(Reports(s.core.pc.kept, s.core.pc.outcome, b.price, b.quantity), 0))
  {
    ReachableSized(c, s);
    var u := ReuseSlot(c, s, fillers, b);
    var v := ReadPrice(c, u, b);
    t := ReadQuantity(c, v, b);
  }

  /** The same lap between the two reads: the price is the packet's own, the quantity another's. */
  lemma MixedFieldsRace(c: Config, s: State, fillers: seq<Packet>, b: Packet) returns (t: State)
    requires Reachable(c, s) && s.core.pc.Freed? && s.inn.writer == WIdle && s.inn.read == s.inn.write
    requires |fillers| == |s.inn.slots| - 1
    ensures Reachable(c, t) && t.queue == s.queue && t.out == s.out && 0 < s.inn.read <= |s.inn.enqueued|
    ensures var own := s.inn.enqueued[s.inn.read - 1];
            t.core == s.core.(pc := Emitting(Reports(s.core.pc.kept, s.core.pc.outcome, own.price, b.quantity), 0))
  {
    ReachableSized(c, s);
    var own := LastSlot(c, s);
    var u := ReadPrice(c, s, own);
    var v := ReuseSlot(c, u, fillers, b);
    t := ReadQuantity(c, v, b);
  }

  /** The slot of the packet last processed, nothing having been enqueued since. */
  lemma LastSlot(c: Config, s: State) returns (own: Packet)
    requires Reachable(c, s) && s.inn.writer == WIdle && 0 < s.inn.read == s.inn.write
    ensures s.inn.read <= |s.inn.enqueued| && own == s.inn.enqueued[s.inn.read - 1]
    ensures |s.inn.slots| > 0 && s.inn.slots[(s.inn.read - 1) % |s.inn.slots|] == own
  {
    ReachableInv(c, s);
    own := s.inn.enqueued[s.inn.read - 1];
    assert Intact(s.inn, s.inn.read - 1);
  }

  // ---------- processing a packet ----------

  /** The core takes the next packet and releases its slot. */
  lemma TakePacket(c: Config, s: State, p: Packet) returns (t: State)
    requires Reachable(c, s) && Sized(s) && s.core.pc == Top && s.active && Defined(s.core.engine, p)
    requires s.inn.read < s.inn.write && s.inn.slots[s.inn.read % |s.inn.slots|] == p
    ensures Reachable(c, t) && t == s.(inn := s.inn.(read := s.inn.read + 1), core := t.core)
    ensures t.core.pc == Freed(Keep(p), OutcomeOf(s.core.engine, p))
    ensures t.core.engine == EngineAfterPacket(s.core.engine, p)
  {
    var m := MatchingCore;
    Go(c, s, m);
    var s1 := s.(core := s.core.(pc := Running));
    Go(c, s1, m);
    var s2 := s.(core := s.core.(pc := Loaded(s.inn.write)));
    assert Apply(s1, m) == s2;
    Go(c, s2, m);
    var s3 := s.(core := Process(s2.core, p));
    assert Apply(s2, m) == s3;
    Go(c, s3, m);
    t := Apply(s3, m);
  }

  // ---------- a packet that is not a new order ----------

  function Rejection(p: Packet): Report {
    Report(REJECTED, p.side, p.instrument, p.clientOrderId, 0, 0, p.price, p.quantity)
  }

  /** The first packet, no new order, processed and its slot released. */
  lemma FirstRefused(c: Config, a: Packet) returns (t: State)
    requires ValidConfig(c) && a.kind != NEW_ORDER
    ensures Reachable(c, t) && t == Initial(c).(inn := t.inn, core := t.core)
    ensures t.core.pc == Freed(Keep(a), EM.Refused) && |t.inn.slots| == |c.ingress|
    ensures t.inn.writer == WIdle && t.inn.read == t.inn.write == 1 && t.inn.enqueued == [a]
  {
    Start(c);
    var s := Initial(c);
    Enqueue(c, s, a);
    t := TakePacket(c, s.(inn := Enqueued(s.inn, a)), a);
  }

  /**
   So for rings of every size there are runs in which the rejection of `a` carries the price
   and quantity of `b`, and runs in which it carries its own price and the quantity of `b`.
   */
  lemma RejectionWithAnotherPrice(c: Config, a: Packet, b: Packet, fillers: seq<Packet>) returns (t: State, u: State)
    requires ValidConfig(c) && a.kind != NEW_ORDER && |fillers| == |c.ingress| - 1
    ensures Reachable(c, t)
    ensures t.core.pc == Emitting([Rejection(a).(price := b.price, quantity := b.quantity)], 0)
    ensures Reachable(c, u)
    ensures u.core.pc == Emitting([Rejection(a).(quantity := b.quantity)], 0)
  {
    var s := FirstRefused(c, a);
    t := ReleasedSlotRace(c, s, fillers, b);
    u := MixedFieldsRace(c, s, fillers, b);
  }

  // ---------- a full egress ring ----------

  /** No thread is inside an operation, and everything enqueued has been published. */
  ghost predicate Quiet(s: State) {
    && s.active && !s.queue.stopped
    && s.inn.writer == WIdle && s.inn.read == s.inn.write
    && s.core.pc == Top && s.queue.producer == Q.Idle
    && s.queue.consumer == Q.Resting && s.queue.head == s.queue.tail
    && s.out.publisher == PTop && s.out.reader == RIdle
  }

  lemma PushStep(c: Config, s: State, x: Report)
    requires Reachable(c, s) && s.core.pc.Emitting? && s.core.pc.next < |s.core.pc.reports|
    requires s.core.pc.reports[s.core.pc.next] == x && !s.queue.producer.Returned? && |s.queue.slots| > 0
    ensures Reachable(c, s.(queue := Q.Push(s.queue, x)))
  {
    Go(c, s, MatchingCore);
  }

  /** The core is about to push report `x`. */
  ghost predicate AboutToPush(s: State, x: Report) {
    && s.core.pc.Emitting? && s.core.pc.next < |s.core.pc.reports| && s.core.pc.reports[s.core.pc.next] == x
    && |s.queue.slots| > 0
  }

  /** A push into an empty queue finds room. */
  lemma PushFindsRoom(c: Config, s: State, x: Report) returns (cached: nat)
    requires Reachable(c, s) && AboutToPush(s, x)
    requires s.queue.producer == Q.Idle && !s.queue.stopped && s.queue.head == s.queue.tail
    ensures Reachable(c, s.(queue := s.queue.(producer := Q.Ready(x, s.queue.tail), cachedHead := cached)))
  {
    var q := s.queue;
    cached := if q.tail - q.cachedHead >= |q.slots| then q.head else q.cachedHead;
    PushStep(c, s, x);
    PushStep(c, s.(queue := q.(producer := Q.Started(x))), x);
    PushStep(c, s.(queue := q.(producer := Q.HaveTail(x, q.tail))), x);
  }

  lemma PushStores(c: Config, s: State, x: Report)
    requires Reachable(c, s) && AboutToPush(s, x) && s.queue.producer == Q.Ready(x, s.queue.tail)
    ensures Reachable(c, s.(queue := s.queue.(slots := s.queue.slots[s.queue.tail % |s.queue.slots| := x],
                                              tail := s.queue.tail + 1, producer := Q.Returned(true),
                                              pushed := s.queue.pushed + [x])))
  {
    PushStep(c, s, x);
    PushStep(c, s.(queue := Q.Push(s.queue, x)), x);
  }

  /** The core takes the push's result and goes on to the next report. */
  lemma Settle(c: Config, s: State)
    requires Reachable(c, s) && s.core.pc.Emitting? && s.core.pc.next < |s.core.pc.reports|
    requires s.queue.producer == Q.Returned(true)
    ensures Reachable(c, s.(core := s.core.(pc := Emitting(s.core.pc.reports, s.core.pc.next + 1)),
                            queue := s.queue.(producer := Q.Idle)))
  {
    Go(c, s, MatchingCore);
  }

  /** The core pushes the report at hand into an empty queue. */
  lemma EmitNext(c: Config, s: State, x: Report) returns (t: State)
    requires Reachable(c, s) && AboutToPush(s, x)
    requires s.queue.producer == Q.Idle && !s.queue.stopped && s.queue.head == s.queue.tail
    ensures Reachable(c, t)
    ensures t == s.(core := s.core.(pc := Emitting(s.core.pc.reports, s.core.pc.next + 1)), queue := t.queue)
    ensures t.queue == s.queue.(slots := t.queue.slots, tail := s.queue.tail + 1, cachedHead := t.queue.cachedHead,
                                pushed := s.queue.pushed + [x])
  {
    var q := s.queue;
    var cached := PushFindsRoom(c, s, x);
    var s1 := s.(queue := q.(producer := Q.Ready(x, q.tail), cachedHead := cached));
    PushStores(c, s1, x);
    var s2 := s1.(queue := s1.queue.(slots := q.slots[q.tail % |q.slots| := x], tail := q.tail + 1,
                                     producer := Q.Returned(true), pushed := q.pushed + [x]));
    Settle(c, s2);
    t := s2.(core := s2.core.(pc := Emitting(s2.core.pc.reports, s2.core.pc.next + 1)),
             queue := s2.queue.(producer := Q.Idle));
  }

  /** After its last report the core returns to the top of its loop. */
  lemma EmitDone(c: Config, s: State)
    requires Reachable(c, s) && s.core.pc.Emitting? && s.core.pc.next == |s.core.pc.reports|
    ensures Reachable(c, s.(core := s.core.(pc := Top)))
  {
    Go(c, s, MatchingCore);
  }

  /** The core pushes its one report into an empty queue. */
  lemma EmitOne(c: Config, s: State, x: Report) returns (t: State)
    requires Reachable(c, s) && s.core.pc == Emitting([x], 0)
    requires s.queue.producer == Q.Idle && !s.queue.stopped && s.queue.head == s.queue.tail
    ensures Reachable(c, t) && t == s.(core := s.core.(pc := Top), queue := t.queue)
    ensures t.queue == s.queue.(slots := t.queue.slots, tail := s.queue.tail + 1, cachedHead := t.queue.cachedHead,
                                pushed := s.queue.pushed + [x])
  {
    ReachableSized(c, s);
    var s1 := EmitNext(c, s, x);
    EmitDone(c, s1);
    t := s1.(core := s1.core.(pc := Top));
  }

  lemma PopStep(c: Config, s: State)
    requires Reachable(c, s) && s.out.publisher == Popping && !s.queue.consumer.Popped? && |s.queue.slots| > 0
    ensures Reachable(c, s.(queue := Q.Pop(s.queue)))
  {
    Go(c, s, EgressPublisher);
  }

  lemma PopOne(c: Config, s: State, x: Report)
    requires Reachable(c, s) && s.out.publisher == Popping && s.queue.consumer == Q.Resting
    requires |s.queue.slots| > 0 && s.queue.head < s.queue.tail && s.queue.slots[s.queue.head % |s.queue.slots|] == x
    ensures Reachable(c, s.(queue := s.queue.(head := s.queue.head + 1, popped := s.queue.popped + [x],
                                              consumer := Q.Popped(Some(x)))))
  {
    var q := s.queue;
    PopStep(c, s);
    var q1 := q.(consumer := Q.HaveHead(q.head));
    PopStep(c, s.(queue := q1));
    var q2 := q.(consumer := Q.NonEmpty(q.head));
    assert Q.Pop(q1) == q2;
    PopStep(c, s.(queue := q2));
    var q3 := q.(consumer := Q.Read(q.head, x));
    PopStep(c, s.(queue := q3));
  }

  /** The publisher takes the next report out of the queue. */
  lemma HoldNext(c: Config, s: State) returns (t: State)
    requires Reachable(c, s) && s.active && s.out.publisher == PTop && s.queue.consumer == Q.Resting
    requires s.queue.head < s.queue.tail == |s.queue.pushed|
    ensures Reachable(c, t)
    ensures var x := s.queue.pushed[s.queue.head];
            && t.queue == s.queue.(head := s.queue.head + 1, popped := s.queue.popped + [x])
            && t == s.(queue := t.queue, out := s.out.(publisher := Holding(x)))
  {
    ReachableQueue(c, s);
    Go(c, s, EgressPublisher);
    t := HoldPopped(c, s.(out := s.out.(publisher := Popping)), s.queue.pushed[s.queue.head]);
  }

  /** A pop under way comes to hold the next report. */
  lemma HoldPopped(c: Config, s: State, x: Report) returns (t: State)
    requires Reachable(c, s) && s.out.publisher == Popping && s.queue.consumer == Q.Resting
    requires s.queue.head < s.queue.tail == |s.queue.pushed| && s.queue.pushed[s.queue.head] == x
    ensures Reachable(c, t)
    ensures t == s.(queue := s.queue.(head := s.queue.head + 1, popped := s.queue.popped + [x]),
                    out := s.out.(publisher := Holding(x)))
  {
    ReachableQueue(c, s);
    var q := s.queue;
    PopOne(c, s, x);
    var s1 := s.(queue := q.(head := q.head + 1, popped := q.popped + [x], consumer := Q.Popped(Some(x))));
    Go(c, s1, EgressPublisher);
    t := Apply(s1, EgressPublisher);
  }

  lemma PublishStep(c: Config, s: State)
    requires Reachable(c, s) && |s.out.slots| > 0
    requires s.out.publisher.Holding? || s.out.publisher.Waiting? || s.out.publisher.Storing? || s.out.publisher.Stored?
    ensures Reachable(c, s.(out := StepPublish(s.out, s.active)))
  {
    Go(c, s, EgressPublisher);
  }

  /** The publisher holding a report goes on to store it if the ring has room. */
  lemma BeginStore(c: Config, s: State)
    requires Reachable(c, s) && s.out.publisher.Holding? && s.out.write < s.out.read + |s.out.slots|
    ensures Reachable(c, s.(out := s.out.(publisher := Storing(s.out.publisher.x))))
  {
    ReachableSized(c, s);
    PublishStep(c, s);
    PublishStep(c, s.(out := s.out.(publisher := Waiting(s.out.publisher.x, s.out.read))));
  }

  /** If the ring is full, it goes on once the shutdown signal has come. */
  lemma BeginOverwrite(c: Config, s: State)
    requires Reachable(c, s) && s.out.publisher.Holding? && s.out.write == s.out.read + |s.out.slots|
    ensures Reachable(c, s.(active := false, out := s.out.(publisher := Storing(s.out.publisher.x))))
  {
    ReachableSized(c, s);
    PublishStep(c, s);
    var s1 := s.(out := s.out.(publisher := Waiting(s.out.publisher.x, s.out.read)));
    Go(c, s1, Signal);
    PublishStep(c, s1.(active := false));
  }

  function Published(e: Egress, x: Report): Egress
    requires |e.slots| > 0
  {
    e.(publisher := PTop, slots := e.slots[e.write % |e.slots| := x], write := e.write + 1,
       published := e.published + [x])
  }

  lemma FinishStore(c: Config, s: State, x: Report)
    requires Reachable(c, s) && s.out.publisher == Storing(x) && |s.out.slots| > 0
    ensures Reachable(c, s.(out := Published(s.out, x)))
  {
    PublishStep(c, s);
    PublishStep(c, s.(out := StepPublish(s.out, s.active)));
  }

  /** The core reads both fields from a slot not reused. */
  lemma ReadBoth(c: Config, s: State, p: Packet) returns (t: State)
    requires Reachable(c, s) && s.core.pc.Freed? && |s.inn.slots| > 0
    requires s.inn.slots[(s.inn.read - 1) % |s.inn.slots|] == p
    ensures Reachable(c, t)
    ensures t == s.(core := s.core.(pc := Emitting(Reports(s.core.pc.kept, s.core.pc.outcome, p.price, p.quantity), 0)))
  {
    var u := ReadPrice(c, s, p);
    t := ReadQuantity(c, u, p);
  }

  /** From a quiet state, the core comes to emit the answer to packet `p`. */
  lemma AnswerPacket(c: Config, s: State, p: Packet) returns (t: State)
    requires Reachable(c, s) && Sized(s) && Quiet(s) && Defined(s.core.engine, p)
    ensures Reachable(c, t) && t == s.(inn := t.inn, core := t.core)
    ensures t.inn.writer == WIdle && t.inn.read == t.inn.write && t.inn.enqueued == s.inn.enqueued + [p]
    ensures t.core.engine == EngineAfterPacket(s.core.engine, p)
    ensures t.core.pc == Emitting(Reports(Keep(p), OutcomeOf(s.core.engine, p), p.price, p.quantity), 0)
  {
    Enqueue(c, s, p);
    var s1 := s.(inn := Enqueued(s.inn, p));
    var s2 := TakePacket(c, s1, p);
    t := ReadBoth(c, s2, p);
  }

  /** And the publisher comes to hold it. */
  lemma RejectAndHold(c: Config, s: State, a: Packet) returns (t: State)
    requires Reachable(c, s) && Quiet(s) && a.kind != NEW_ORDER
    ensures Reachable(c, t) && t.out == s.out.(publisher := Holding(Rejection(a))) && Quiet(t.(out := s.out))
  {
    ReachableInv(c, s);
    var s1 := AnswerPacket(c, s, a);
    var s2 := EmitOne(c, s1, Rejection(a));
    ReachableQueue(c, s2);
    t := HoldNext(c, s2);
  }

  /** The egress ring filled up to `k` reports, none of them read. */
  lemma {:induction false} Fill(c: Config, a: Packet, k: nat) returns (t: State)
    requires ValidConfig(c) && a.kind != NEW_ORDER && k <= |c.egress|
    ensures Reachable(c, t) && Quiet(t) && |t.out.slots| == |c.egress| && t.out.write == k && t.out.read == 0
    ensures t.out.delivered == [] && t.out.copies == []
    ensures |t.out.published| == k && (k > 0 ==> t.out.published[0] == Rejection(a))
  {
    if k == 0 {
      Start(c);
      t := Initial(c);
    } else {
      var s := Fill(c, a, k - 1);
      var s1 := RejectAndHold(c, s, a);
      var s2 := s1.(out := s1.out.(publisher := Storing(Rejection(a))));
      BeginStore(c, s1);
      FinishStore(c, s2, Rejection(a));
      t := s2.(out := Published(s2.out, Rejection(a)));
    }
  }

  lemma ReadStep(c: Config, s: State)
    requires Reachable(c, s) && |s.out.slots| > 0
    ensures Reachable(c, s.(out := StepReader(s.out)))
  {
    Go(c, s, GatewayReader);
  }

  /** The ring after a dequeue that finds `x`. */
  function Dequeued(e: Egress, x: Report): Egress
    requires |e.slots| > 0
  {
    e.(read := e.read + 1, delivered := e.delivered + [x],
       copies := e.copies + [Newest(e.write, e.read, |e.slots|)])
  }

  lemma Dequeue(c: Config, s: State, x: Report)
    requires Reachable(c, s) && s.out.reader == RIdle && s.out.read < s.out.write == |Laid(s.out)|
    requires |s.out.slots| > 0 && s.out.slots[s.out.read % |s.out.slots|] == x
    ensures Reachable(c, s.(out := Dequeued(s.out, x)))
  {
    var e := s.out;
    ReadStep(c, s);
    ReadStep(c, s.(out := e.(reader := RHaveRead(e.read))));
    var e2 := e.(reader := RNonEmpty(e.read));
    ReadStep(c, s.(out := e2));
    assert Laid(e2) == Laid(e);
    ReadStep(c, s.(out := e2.(reader := RTaken(e.read, x), copies := e.copies + [Newest(e.write, e.read, |e.slots|)])));
  }

  /** A full ring overwritten once after shutdown: the rejection of `b` lies where that of `a` lay. */
  lemma Overwritten(c: Config, a: Packet, b: Packet) returns (t: State)
    requires ValidConfig(c) && a.kind != NEW_ORDER && b.kind != NEW_ORDER
    ensures Reachable(c, t) && t.out.publisher == PTop && t.out.reader == RIdle
    ensures |t.out.slots| == |c.egress| && t.out.slots[0] == Rejection(b)
    ensures t.out.read == 0 && t.out.write == |t.out.published| == |c.egress| + 1
    ensures t.out.published[0] == Rejection(a) && t.out.delivered == [] && t.out.copies == []
  {
    var x, m := Rejection(b), |c.egress|;
    var s := Fill(c, a, m);
    var s1 := RejectAndHold(c, s, b);
    BeginOverwrite(c, s1);
    var s2 := s1.(active := false, out := s.out.(publisher := Storing(x)));
    FinishStore(c, s2, x);
    t := s2.(out := Published(s2.out, x));
    ModAdd(0, m, 1);
  }

  /** An idle reader of a ring with unread reports, the publisher being idle too. */
  ghost predicate Readable(e: Egress) {
    && e.publisher == PTop && e.reader == RIdle && |e.slots| > 0
    && e.read == |e.delivered| == |e.copies| <= e.write == |e.published|
  }

  /** The reader dequeues `k` reports. */
  lemma {:induction false} DequeueMany(c: Config, s: State, k: nat) returns (t: State)
    requires Reachable(c, s) && Readable(s.out) && s.out.read + k <= s.out.write
    ensures Reachable(c, t) && Readable(t.out) && t.out.read == s.out.read + k
    ensures t.out.slots == s.out.slots && t.out.published == s.out.published
    ensures s.out.delivered <= t.out.delivered && s.out.copies <= t.out.copies
    decreases k
  {
    t := s;
    if k > 0 {
      var x := s.out.slots[s.out.read % |s.out.slots|];
      Dequeue(c, s, x);
      t := DequeueMany(c, s.(out := Dequeued(s.out, x)), k - 1);
    }
  }

  lemma OverwrittenTickets(m: nat)
    requires m > 0
    ensures m % m == 0 && Newest(m + 1, 0, m) == m && Newest(m + 1, m, m) == m
  {
    ModAdd(0, m, 1);
    NewestTicket(m + 1, 0, m);
    NewestTicket(m + 1, m, m);
  }

  /**
   For rings of every size there is a run in which the shutdown signal makes the publisher
   store into a full ring. The first report published is the rejection of `a`; the gateway
   dequeues the rejection of `b` in its place, and once more at its own turn.
   */
  lemma RejectionOverwritten(c: Config, a: Packet, b: Packet) returns (t: State)
    requires ValidConfig(c) && a.kind != NEW_ORDER && b.kind != NEW_ORDER
    ensures var m := |c.egress|;
            && Reachable(c, t) && |t.out.published| == |t.out.delivered| == |t.out.copies| == m + 1
            && t.out.published[0] == Rejection(a)
            && t.out.delivered[0] == t.out.delivered[m] == Rejection(b)
            && t.out.copies[0] == t.out.copies[m] == m
  {
    var x, m := Rejection(b), |c.egress|;
    OverwrittenTickets(m);
    var s := Overwritten(c, a, b);
    Dequeue(c, s, x);
    var u := DequeueMany(c, s.(out := Dequeued(s.out, x)), m - 1);
    Dequeue(c, u, x);
    t := u.(out := Dequeued(u.out, x));
  }

  // ---------- a publisher that ends first ----------

  /**
   For rings of every size there is a run in which the publisher sees the flag down and the
   queue empty while the core still has a report to push: both threads end, the packet was
   processed, and its report stays in the queue.
   */
  lemma RejectionLeftBehind(c: Config, a: Packet) returns (t: State)
    requires ValidConfig(c) && a.kind != NEW_ORDER
    ensures Reachable(c, t) && t.core.pc == CoreExited && t.out.publisher == PExited && t.out.published == []
    ensures t.inn.enqueued == [a] && t.core.processed == 1
    ensures t.queue.popped == [] && t.queue.pushed == [Rejection(a)]
  {
    var s := FirstRefused(c, a);
    ReachableSized(c, s);
    var s1 := LastReads(c, s, a);
    Go(c, s1, Signal);
    var s2 := s1.(active := false);
    Go(c, s2, EgressPublisher);
    var s3 := s2.(out := s2.out.(publisher := Draining));
    Go(c, s3, EgressPublisher);
    var s4 := s2.(out := s2.out.(publisher := PExited));
    assert Apply(s3, EgressPublisher) == s4;
    var s5 := EmitOne(c, s4, Rejection(a));
    Go(c, s5, MatchingCore);
    t := s5.(core := s5.core.(pc := CoreExited));
    ReachableInv(c, t);
  }

  lemma LastReads(c: Config, s: State, a: Packet) returns (t: State)
    requires Reachable(c, s) && s.core.pc == Freed(Keep(a), EM.Refused)
    requires s.inn.writer == WIdle && s.inn.read == s.inn.write == 1 && s.inn.enqueued == [a]
    ensures Reachable(c, t) && t == s.(core := s.core.(pc := Emitting([Rejection(a)], 0)))
  {
    var own := LastSlot(c, s);
    t := ReadBoth(c, s, own);
  }
}
