/**
 The pipeline from the gateway's ingress ring through the core loop, the SPSC queue and the
 publisher to the egress ring and the gateway's reader. Four threads and the shutdown signal
 are interleaved by a schedule; every access to a shared index, flag or released field, and
 every copy of a slot, is one step.
 */
module Pipeline {
  import opened Basics
  import opened Rings
  import opened Responses
  import Q = SpscQueue
  import EM = EngineModel
  import LB = LevelBook

  /** The gateway's Enqueue. */
  datatype Writer =
    | WIdle
    | WHaveRead(p: Packet, r: nat)
    | WHaveWrite(p: Packet, r: nat, w: nat)
    | WStored(p: Packet, w: nat)

  /** The matching core's loop. `Undefined` is reached where the code has no defined behaviour. */
  datatype Core =
    | Top
    | Running
    | Loaded(w: nat)
    | Processed(kept: Kept, outcome: EM.Outcome)
    | Freed(kept: Kept, outcome: EM.Outcome)
    | Priced(kept: Kept, outcome: EM.Outcome, price: nat)
    | Emitting(reports: seq<Report>, next: nat)
    | Undefined
    | CoreExited

  /** The egress publisher's loop. */
  datatype Publisher =
    | PTop
    | Draining
    | Popping
    | Holding(x: Report)
    | Waiting(x: Report, r: nat)
    | Storing(x: Report)
    | Stored(x: Report)
    | PExited

  /** The gateway's Dequeue. */
  datatype Reader =
    | RIdle
    | RHaveRead(r: nat)
    | RNonEmpty(r: nat)
    | RTaken(r: nat, x: Report)

  /** The ingress ring with its writer; `enqueued` is the history of packets whose write index was stored. */
  datatype Ingress = Ingress(slots: seq<Packet>, read: nat, write: nat, writer: Writer, enqueued: seq<Packet>)

  /**
   The core thread. Histories: the number of packets processed, and the reports due for them
   if each carried its own packet's price and quantity.
   */
  datatype Matching = Matching(pc: Core, engine: EM.Engine, processed: nat, due: seq<Report>)

  /**
   The egress ring with its publisher and its reader. Histories: the reports published, those
   delivered, and for every slot the reader has copied the ticket of the report last stored in it.
   */
  datatype Egress = Egress(
    publisher: Publisher, slots: seq<Report>, write: nat, published: seq<Report>,
    reader: Reader, read: nat, delivered: seq<Report>, copies: seq<int>)

  datatype State = State(active: bool, inn: Ingress, core: Matching, queue: Q.State<Report>, out: Egress)

  predicate Sized(s: State) {
    |s.inn.slots| > 0 && |s.out.slots| > 0 && |s.queue.slots| > 0 && LB.Bounded(s.core.engine.book)
  }

  /** One step of Enqueue(p). */
  function StepWriter(i: Ingress, p: Packet): (r: Ingress)
    requires |i.slots| > 0
    ensures |r.slots| == |i.slots|
  {
    var n := |i.slots|;
    match i.writer
    case WIdle => i.(writer := WHaveRead(p, i.read))
    case WHaveRead(x, r) => i.(writer := WHaveWrite(x, r, i.write))
    case WHaveWrite(x, r, w) =>
      if w - r == n then i.(writer := WIdle) else i.(slots := i.slots[w % n := x], writer := WStored(x, w))
    case WStored(x, w) => i.(write := w + 1, writer := WIdle, enqueued := i.enqueued + [x])
  }

  /** Processing the packet in the slot at the read index. */
  function Process(c: Matching, p: Packet): (r: Matching)
    requires LB.Bounded(c.engine.book)
    ensures LB.Bounded(r.engine.book)
  {
    if !Defined(c.engine, p) then c.(pc := Undefined)
    else
      var o := OutcomeOf(c.engine, p);
      Matching(Processed(Keep(p), o), EngineAfterPacket(c.engine, p), c.processed + 1,
               c.due + Reports(Keep(p), o, p.price, p.quantity))
  }

  /** One step of the core loop. The price and the quantity are read from the slot in two steps, after its release. */
  function StepCore(s: State): (r: State)
    requires Sized(s)
    ensures Sized(r)
  {
    var n := |s.inn.slots|;
    match s.core.pc
    case Top => s.(core := s.core.(pc := if s.active then Running else CoreExited))
    case Running => s.(core := s.core.(pc := Loaded(s.inn.write)))
    case Loaded(w) =>
      if s.inn.read == w then s.(core := s.core.(pc := Top))
      else s.(core := Process(s.core, s.inn.slots[s.inn.read % n]))
    case Processed(k, o) => s.(inn := s.inn.(read := s.inn.read + 1), core := s.core.(pc := Freed(k, o)))
    case Freed(k, o) => s.(core := s.core.(pc := Priced(k, o, s.inn.slots[(s.inn.read - 1) % n].price)))
    case Priced(k, o, price) =>
      s.(core := s.core.(pc := Emitting(Reports(k, o, price, s.inn.slots[(s.inn.read - 1) % n].quantity), 0)))
    case Emitting(reports, i) =>
      if i >= |reports| then s.(core := s.core.(pc := Top))
      else if s.queue.producer.Returned? then
        s.(queue := Q.TakePush(s.queue),
           core := s.core.(pc := Emitting(reports, if s.queue.producer.ok then i + 1 else i)))
      else s.(queue := Q.Push(s.queue, reports[i]))
    case Undefined => s
    case CoreExited => s
  }

  /** The publisher's steps on the egress ring. */
  function StepPublish(e: Egress, active: bool): (r: Egress)
    requires |e.slots| > 0
    ensures |r.slots| == |e.slots|
  {
    var m := |e.slots|;
    match e.publisher
    case Holding(x) => e.(publisher := Waiting(x, e.read))
    case Waiting(x, r) =>
      if e.write - r >= m then
        if active then e.(publisher := Holding(x)) else e.(publisher := Storing(x))
      else e.(publisher := Storing(x))
    case Storing(x) =>
      e.(slots := e.slots[e.write % m := x], publisher := Stored(x))
    case Stored(x) => e.(write := e.write + 1, publisher := PTop, published := e.published + [x])
    case _ => e
  }

  /** One step of the publisher loop. */
  function StepPublisher(s: State): (r: State)
    requires Sized(s)
    ensures Sized(r)
  {
    match s.out.publisher
    case PTop => s.(out := s.out.(publisher := if s.active then Popping else Draining))
    case Draining =>
      s.(out := s.out.(publisher := if s.queue.head == s.queue.tail then PExited else Popping))
    case Popping =>
      if s.queue.consumer.Popped? then
        s.(queue := Q.TakePop(s.queue),
           out := s.out.(publisher := if s.queue.consumer.result.None? then PTop else Holding(s.queue.consumer.result.value)))
      else s.(queue := Q.Pop(s.queue))
    case _ => s.(out := StepPublish(s.out, s.active))
  }

  /** The reports stored into the ring so far, the last of them perhaps before its index is. */
  function Laid(e: Egress): seq<Report> {
    e.published + if e.publisher.Stored? then [e.publisher.x] else []
  }

  /** One step of Dequeue. */
  function StepReader(e: Egress): (r: Egress)
    requires |e.slots| > 0
    ensures |r.slots| == |e.slots|
  {
    match e.reader
    case RIdle => e.(reader := RHaveRead(e.read))
    case RHaveRead(r) => e.(reader := if r == e.write then RIdle else RNonEmpty(r))
    case RNonEmpty(r) =>
      e.(reader := RTaken(r, e.slots[r % |e.slots|]), copies := e.copies + [Newest(|Laid(e)|, r, |e.slots|)])
    case RTaken(r, x) => e.(read := r + 1, reader := RIdle, delivered := e.delivered + [x])
  }

  datatype Action = Gateway(p: Packet) | MatchingCore | EgressPublisher | GatewayReader | Signal

  function Apply(s: State, a: Action): (r: State)
    requires Sized(s)
    ensures Sized(r)
  {
    match a
    case Gateway(p) => s.(inn := StepWriter(s.inn, p))
    case MatchingCore => StepCore(s)
    case EgressPublisher => StepPublisher(s)
    case GatewayReader => s.(out := StepReader(s.out))
    case Signal => s.(active := false)
  }

  /** What the threads share before anything has happened: a pool, and slots of any content. */
  datatype Config = Config(pool: nat, ingress: seq<Packet>, queue: seq<Report>, egress: seq<Report>)

  predicate ValidConfig(c: Config) {
    |c.ingress| > 0 && |c.queue| > 0 && |c.egress| > 0
  }

  function Initial(c: Config): State {
    State(true, Ingress(c.ingress, 0, 0, WIdle, []), Matching(Top, EM.Initial(c.pool), 0, []),
          Q.State(c.queue, 0, 0, 0, false, Q.Idle, Q.Resting, [], []),
          Egress(PTop, c.egress, 0, [], RIdle, 0, [], []))
  }

  function Run(c: Config, schedule: seq<Action>): (s: State)
    requires ValidConfig(c)
    ensures Sized(s)
  {
    if schedule == [] then Initial(c)
    else Apply(Run(c, schedule[..|schedule| - 1]), schedule[|schedule| - 1])
  }

  // ---------- the ingress ring ----------

  ghost predicate WriterOk(i: Ingress)
    requires |i.slots| > 0
  {
    var n := |i.slots|;
    match i.writer
    case WIdle => true
    case WHaveRead(p, r) => r <= i.read && i.write <= r + n
    case WHaveWrite(p, r, w) => w == i.write && r <= i.read && i.write <= r + n
    case WStored(p, w) => w == i.write < i.read + n && i.slots[w % n] == p
  }

  /** Slot of ticket `k` still holds packet `k`: the writer is less than a lap ahead and not inside that slot. */
  ghost predicate Intact(i: Ingress, k: int) {
    0 <= k < i.write <= k + |i.slots| && !(i.writer.WStored? && i.write == k + |i.slots|)
  }

  /** The ring never holds more than its size, so that testing only for equality with it detects a full ring. */
  ghost predicate IngressOk(i: Ingress) {
    && |i.slots| > 0
    && i.read <= i.write <= i.read + |i.slots| && i.write == |i.enqueued|
    && (forall k {:trigger Intact(i, k)} :: Intact(i, k) ==> i.slots[k % |i.slots|] == i.enqueued[k])
    && WriterOk(i)
  }

  lemma WriterKeeps(i: Ingress, p: Packet)
    requires IngressOk(i)
    ensures IngressOk(StepWriter(i, p))
  {
    var j, n := StepWriter(i, p), |i.slots|;
    forall k | Intact(j, k)
      ensures j.slots[k % n] == j.enqueued[k]
    {
      if i.writer.WStored? && k == i.write {
      } else {
        assert Intact(i, k);
        if j.writer.WStored? && k % n == i.write % n { SameSlot(n, k, k, i.write); }
      }
    }
  }

  /** The packet the core is about to process is the next one enqueued. */
  lemma NextPacket(i: Ingress)
    requires IngressOk(i) && i.read < i.write
    ensures i.slots[i.read % |i.slots|] == i.enqueued[i.read]
  {
    assert Intact(i, i.read);
  }

  lemma ReadKeeps(i: Ingress)
    requires IngressOk(i) && i.read < i.write
    ensures IngressOk(i.(read := i.read + 1))
  {
    var j := i.(read := i.read + 1);
    forall k | Intact(j, k)
      ensures j.slots[k % |i.slots|] == j.enqueued[k]
    {
      assert Intact(i, k);
    }
  }

  // ---------- the core loop ----------

  /** A report without the fields that are read from a slot already released. */
  function Mask(r: Report): Report {
    if r.kind == FILLED then r else r.(price := 0, quantity := 0)
  }

  function MaskAll(reports: seq<Report>): (m: seq<Report>)
    ensures |m| == |reports|
    ensures forall i :: 0 <= i < |m| ==> m[i] == Mask(reports[i])
  {
    seq(|reports|, i requires 0 <= i < |reports| => Mask(reports[i]))
  }

  lemma MaskReports(k: Kept, o: EM.Outcome, price: nat, quantity: nat)
    ensures MaskAll(Reports(k, o, price, quantity)) == MaskAll(Reports(k, o, 0, 0))
  {
  }

  lemma MaskAppend(a: seq<Report>, b: seq<Report>)
    ensures MaskAll(a + b) == MaskAll(a) + MaskAll(b)
  {
  }

  /** Reports owed for the packets processed but not yet through the queue's tail. */
  function Pending(core: Core, producer: Q.Producer<Report>): seq<Report> {
    match core
    case Processed(k, o) => Reports(k, o, 0, 0)
    case Freed(k, o) => Reports(k, o, 0, 0)
    case Priced(k, o, price) => Reports(k, o, 0, 0)
    case Emitting(reports, i) =>
      var j := if producer == Q.Returned(true) then i + 1 else i;
      if j <= |reports| then reports[j..] else []
    case _ => []
  }

  /** The push in progress is of the report at hand. */
  ghost predicate PushingOk(core: Core, producer: Q.Producer<Report>) {
    if !core.Emitting? then producer == Q.Idle
    else
      && core.next <= |core.reports|
      && (producer != Q.Idle ==> core.next < |core.reports|)
      && (Q.InFlight(producer).Some? ==> Q.InFlight(producer).value == core.reports[core.next])
  }

  /** Where the core stands in the ingress ring. */
  ghost predicate PlaceOk(c: Matching, i: Ingress) {
    && c.processed == (if c.pc.Processed? then i.read + 1 else i.read) <= |i.enqueued|
    && (c.pc.Loaded? ==> i.read <= c.pc.w <= i.write)
  }

  /** The packet found in the slot of ticket `k` by a core that has already released it. */
  function Found(i: Ingress, k: int): Packet
    requires 0 <= k < |i.enqueued| && |i.enqueued| <= k + |i.slots| + 1
  {
    if i.writer.WStored? && i.write == k + |i.slots| then i.writer.p
    else if k + |i.slots| < |i.enqueued| then i.enqueued[k + |i.slots|]
    else i.enqueued[k]
  }

  /** A price read from the slot of ticket `k` since its release: that of packet `k`, or of the one a lap later. */
  ghost predicate PriceSeen(i: Ingress, k: int, price: nat) {
    && 0 <= k < |i.enqueued| && |i.enqueued| <= k + |i.slots| + 1
    && (price == i.enqueued[k].price || (!Intact(i, k) && price == Found(i, k).price))
  }

  ghost predicate PriceOk(c: Matching, i: Ingress) {
    (c.pc.Freed? || c.pc.Priced? ==> i.read > 0) && (c.pc.Priced? ==> PriceSeen(i, i.read - 1, c.pc.price))
  }

  lemma FoundInSlot(i: Ingress)
    requires IngressOk(i) && 0 < i.read
    ensures i.slots[(i.read - 1) % |i.slots|] == Found(i, i.read - 1)
    ensures PriceSeen(i, i.read - 1, Found(i, i.read - 1).price)
  {
    var k, n := i.read - 1, |i.slots|;
    ModAdd(k, n, 1);
    if i.writer.WStored? && i.write == k + n {
    } else if k + n < i.write {
      assert Intact(i, k + n);
    } else {
      assert Intact(i, k);
    }
  }

  lemma WriterKeepsPrice(i: Ingress, p: Packet, price: nat)
    requires IngressOk(i) && 0 < i.read && PriceSeen(i, i.read - 1, price)
    ensures PriceSeen(StepWriter(i, p), i.read - 1, price)
  {
  }

  /** Every report due is pushed or still owed, in order. */
  ghost predicate OwesOk(c: Matching, producer: Q.Producer<Report>, pushed: seq<Report>) {
    PushingOk(c.pc, producer) && MaskAll(pushed) + MaskAll(Pending(c.pc, producer)) == MaskAll(c.due)
  }

  /** The engine and the reports due are those of the packets `done`, taken one after another. */
  ghost predicate AnswersOk(c: Matching, done: seq<Packet>, pool: nat) {
    c.engine == EngineAfter(pool, done) && c.due == Answers(pool, done)
  }

  ghost predicate CoreOk(s: State, pool: nat) {
    && PlaceOk(s.core, s.inn) && PriceOk(s.core, s.inn)
    && OwesOk(s.core, s.queue.producer, s.queue.pushed)
    && AnswersOk(s.core, s.inn.enqueued[..s.core.processed], pool)
  }

  lemma ProcessAnswers(c: Matching, done: seq<Packet>, p: Packet, pool: nat)
    requires LB.Bounded(c.engine.book) && AnswersOk(c, done, pool)
    ensures var r := Process(c, p);
            AnswersOk(r, if r.pc.Processed? then done + [p] else done, pool)
    ensures Process(c, p).pc.Processed? || Process(c, p).pc == Undefined
  {
    assert Front(done + [p]) == done && Last(done + [p]) == p;
  }

  /** Processing one packet owes its reports. */
  lemma ProcessOwes(c: Matching, producer: Q.Producer<Report>, pushed: seq<Report>, p: Packet)
    requires LB.Bounded(c.engine.book) && OwesOk(c, producer, pushed) && c.pc.Loaded?
    ensures OwesOk(Process(c, p), producer, pushed)
  {
    var o := OutcomeOf(c.engine, p);
    MaskAppend(c.due, Reports(Keep(p), o, p.price, p.quantity));
    MaskReports(Keep(p), o, p.price, p.quantity);
    assert MaskAll(pushed) + MaskAll([]) == MaskAll(pushed);
  }

  lemma MaskMove(pushed: seq<Report>, owed: seq<Report>)
    requires owed != []
    ensures MaskAll(pushed + [owed[0]]) + MaskAll(owed[1..]) == MaskAll(pushed) + MaskAll(owed)
  {
    assert pushed + [owed[0]] + owed[1..] == pushed + owed;
    MaskAppend(pushed, owed);
    MaskAppend(pushed + [owed[0]], owed[1..]);
  }

  /** Appending the report at hand moves it from what is owed to what is pushed. */
  lemma AppendOwes(c: Matching, producer: Q.Producer<Report>, pushed: seq<Report>)
    requires OwesOk(c, producer, pushed)
    requires c.pc.Emitting? && c.pc.next < |c.pc.reports| && producer != Q.Returned(true)
    ensures OwesOk(c, Q.Returned(true), pushed + [c.pc.reports[c.pc.next]])
  {
    var owed := c.pc.reports[c.pc.next..];
    assert owed[1..] == c.pc.reports[c.pc.next + 1..];
    MaskMove(pushed, owed);
  }

  lemma LoadedKeeps(s: State, pool: nat)
    requires Sized(s) && IngressOk(s.inn) && CoreOk(s, pool) && s.core.pc.Loaded?
    ensures CoreOk(StepCore(s), pool)
  {
    if s.inn.read != s.core.pc.w {
      NextPacket(s.inn);
      var done, p := s.inn.enqueued[..s.inn.read], s.inn.enqueued[s.inn.read];
      assert s.inn.enqueued[..s.inn.read + 1] == done + [p];
      ProcessAnswers(s.core, done, p, pool);
      ProcessOwes(s.core, s.queue.producer, s.queue.pushed, p);
    }
  }

  /** A step of a push of the report at hand. */
  lemma PushOwes(c: Matching, q: Q.State<Report>)
    requires Q.Inv(q) && OwesOk(c, q.producer, q.pushed)
    requires c.pc.Emitting? && c.pc.next < |c.pc.reports| && !q.producer.Returned?
    ensures var q' := Q.Push(q, c.pc.reports[c.pc.next]);
            Q.Inv(q') && OwesOk(c, q'.producer, q'.pushed) && q'.popped == q.popped && q'.consumer == q.consumer
  {
    var x := c.pc.reports[c.pc.next];
    Q.PushKeeps(q, x);
    Q.PushProgress(q, x);
    AppendOwes(c, q.producer, q.pushed);
  }

  /** The caller takes a push's result and goes on to the next report, or tries again. */
  lemma TakeOwes(c: Matching, producer: Q.Producer<Report>, pushed: seq<Report>)
    requires OwesOk(c, producer, pushed) && c.pc.Emitting? && producer.Returned?
    ensures OwesOk(c.(pc := Emitting(c.pc.reports, if producer.ok then c.pc.next + 1 else c.pc.next)), Q.Idle, pushed)
  {
  }

  lemma EmittingKeeps(s: State, pool: nat)
    requires Sized(s) && Q.Inv(s.queue) && CoreOk(s, pool) && s.core.pc.Emitting?
    ensures CoreOk(StepCore(s), pool) && Q.Inv(StepCore(s).queue)
    ensures StepCore(s).queue.popped == s.queue.popped && StepCore(s).queue.consumer == s.queue.consumer
  {
    if s.core.pc.next >= |s.core.pc.reports| {
      AllEmitted(s, pool);
    } else if s.queue.producer.Returned? {
      TakeKeeps(s, pool);
    } else {
      PushKeeps(s, pool);
    }
  }

  lemma AllEmitted(s: State, pool: nat)
    requires Sized(s) && CoreOk(s, pool) && s.core.pc.Emitting? && s.core.pc.next >= |s.core.pc.reports|
    ensures CoreOk(s.(core := s.core.(pc := Top)), pool)
  {
    assert Pending(s.core.pc, s.queue.producer) == Pending(Top, s.queue.producer);
  }

  lemma TakeKeeps(s: State, pool: nat)
    requires Sized(s) && Q.Inv(s.queue) && CoreOk(s, pool) && s.core.pc.Emitting?
    requires s.core.pc.next < |s.core.pc.reports| && s.queue.producer.Returned?
    ensures CoreOk(StepCore(s), pool) && Q.Inv(StepCore(s).queue)
  {
    TakeOwes(s.core, s.queue.producer, s.queue.pushed);
  }

  lemma PushKeeps(s: State, pool: nat)
    requires Sized(s) && Q.Inv(s.queue) && CoreOk(s, pool) && s.core.pc.Emitting?
    requires s.core.pc.next < |s.core.pc.reports| && !s.queue.producer.Returned?
    ensures CoreOk(StepCore(s), pool) && Q.Inv(StepCore(s).queue)
    ensures StepCore(s).queue.popped == s.queue.popped && StepCore(s).queue.consumer == s.queue.consumer
  {
    PushOwes(s.core, s.queue);
  }

  // ---------- the publisher and the egress ring ----------

  /** The report between the SPSC queue and the egress ring. */
  function Held(publisher: Publisher, consumer: Q.Consumer<Report>): seq<Report> {
    match publisher
    case Popping => if consumer.Popped? && consumer.result.Some? then [consumer.result.value] else []
    case Holding(x) => [x]
    case Waiting(x, r) => [x]
    case Storing(x) => [x]
    case Stored(x) => [x]
    case _ => []
  }

  /** What has left the queue is published or held. */
  ghost predicate PublisherOk(e: Egress, consumer: Q.Consumer<Report>, popped: seq<Report>) {
    && (!e.publisher.Popping? ==> consumer == Q.Resting)
    && e.write == |e.published|
    && popped == e.published + Held(e.publisher, consumer)
  }

  /** Slot of ticket `k` has been stored and not yet stored again. */
  ghost predicate InRing(e: Egress, k: int) {
    0 <= k < |Laid(e)| <= k + |e.slots|
  }

  /** What the reader has copied, the last of it perhaps not yet delivered. */
  function Taken(e: Egress): seq<Report> {
    e.delivered + if e.reader.RTaken? then [e.reader.x] else []
  }

  /** Copy `i` is of a report stored in the slot of ticket `i`, which is report `i` or a later one. */
  ghost predicate CopyOk(e: Egress, i: int)
    requires |e.slots| > 0 && 0 <= i < |e.copies| == |Taken(e)|
  {
    && i <= e.copies[i] < |Laid(e)| && e.copies[i] % |e.slots| == i % |e.slots|
    && Taken(e)[i] == Laid(e)[e.copies[i]]
  }

  /** Every copy so far found the report of its own ticket. */
  predicate OwnCopies(e: Egress) {
    forall i :: 0 <= i < |e.copies| ==> e.copies[i] == i
  }

  /** The indices of the egress ring, and where its two threads stand. */
  ghost predicate EgressPlaces(e: Egress) {
    && |e.slots| > 0 && e.read == |e.delivered| <= e.write == |e.published| && |e.copies| == |Taken(e)|
    && (e.publisher.Waiting? ==> e.publisher.r <= e.read)
    && match e.reader
       case RIdle => true
       case RHaveRead(r) => r == e.read
       case RNonEmpty(r) => r == e.read < e.write
       case RTaken(r, x) => r == e.read < e.write
  }

  ghost predicate EgressSlots(e: Egress)
    requires EgressPlaces(e)
  {
    && (forall k {:trigger InRing(e, k)} :: InRing(e, k) ==> e.slots[k % |e.slots|] == Laid(e)[k])
    && (forall i {:trigger CopyOk(e, i)} :: 0 <= i < |e.copies| ==> CopyOk(e, i))
  }

  /** While the engine is active the publisher stores only where there is room, so that nothing is overwritten. */
  ghost predicate EgressTimely(e: Egress) {
    && |Laid(e)| <= e.read + |e.slots| && OwnCopies(e)
    && (e.publisher.Storing? ==> e.write < e.read + |e.slots|)
  }

  ghost predicate EgressOk(e: Egress, active: bool) {
    EgressPlaces(e) && EgressSlots(e) && (active ==> EgressTimely(e))
  }

  lemma PublishKeepsHeld(e: Egress, consumer: Q.Consumer<Report>, popped: seq<Report>, active: bool)
    requires |e.slots| > 0 && PublisherOk(e, consumer, popped) && !e.publisher.Popping?
    ensures PublisherOk(StepPublish(e, active), consumer, popped)
  {
  }

  lemma PoppingKeeps(s: State)
    requires Sized(s) && Q.Inv(s.queue) && PublisherOk(s.out, s.queue.consumer, s.queue.popped)
    requires s.out.publisher.Popping?
    ensures var r := StepPublisher(s);
            && Q.Inv(r.queue) && PublisherOk(r.out, r.queue.consumer, r.queue.popped)
            && r.queue.pushed == s.queue.pushed && r.queue.producer == s.queue.producer
            && r.out == s.out.(publisher := r.out.publisher)
            && (r.out.publisher.PTop? || r.out.publisher.Popping? || r.out.publisher.Holding?)
  {
    if !s.queue.consumer.Popped? {
      Q.PopKeeps(s.queue);
    }
  }

  /** A copy stands as more reports are stored. */
  lemma CopyStands(e: Egress, e': Egress, i: int)
    requires |e.slots| > 0 && 0 <= i < |e.copies| == |Taken(e)| && CopyOk(e, i)
    requires |e'.slots| == |e.slots| && Laid(e) <= Laid(e') && e.copies <= e'.copies && Taken(e) <= Taken(e')
    requires |e'.copies| == |Taken(e')|
    ensures CopyOk(e', i)
  {
  }

  /** Storing a report, into whichever slot, leaves in every slot the report last stored in it. */
  lemma StoreKeeps(e: Egress, active: bool)
    requires EgressPlaces(e) && EgressSlots(e) && e.publisher.Storing?
    ensures EgressPlaces(StepPublish(e, active)) && EgressSlots(StepPublish(e, active))
  {
    var e', m := StepPublish(e, active), |e.slots|;
    assert Laid(e') == Laid(e) + [e.publisher.x];
    forall k | InRing(e', k)
      ensures e'.slots[k % m] == Laid(e')[k]
    {
      if k < e.write {
        assert InRing(e, k);
        if k % m == e.write % m { SameSlot(m, k, k, e.write); }
      }
    }
    forall i | 0 <= i < |e'.copies|
      ensures CopyOk(e', i)
    {
      CopyStands(e, e', i);
    }
  }

  /** The other steps of a publisher store nothing. */
  lemma SameLaid(e: Egress, e': Egress)
    requires EgressPlaces(e) && EgressSlots(e) && EgressPlaces(e')
    requires e'.slots == e.slots && Laid(e') == Laid(e) && e'.copies == e.copies && Taken(e') == Taken(e)
    ensures EgressSlots(e')
  {
    forall k | InRing(e', k)
      ensures e'.slots[k % |e.slots|] == Laid(e')[k]
    {
      assert InRing(e, k);
    }
    forall i | 0 <= i < |e'.copies|
      ensures CopyOk(e', i)
    {
      CopyStands(e, e', i);
    }
  }

  lemma PublishKeeps(e: Egress, active: bool)
    requires EgressOk(e, active)
    ensures EgressOk(StepPublish(e, active), active)
  {
    if e.publisher.Storing? {
      StoreKeeps(e, active);
    } else {
      SameLaid(e, StepPublish(e, active));
    }
  }

  /** The copy finds the newest report stored in the slot. */
  lemma CopyKeeps(e: Egress)
    requires EgressPlaces(e) && EgressSlots(e) && e.reader.RNonEmpty?
    ensures var j := Newest(|Laid(e)|, e.read, |e.slots|);
            InRing(e, j) && e.slots[e.read % |e.slots|] == Laid(e)[j]
    ensures EgressSlots(StepReader(e))
  {
    var e', j := StepReader(e), Newest(|Laid(e)|, e.read, |e.slots|);
    NewestTicket(|Laid(e)|, e.read, |e.slots|);
    assert InRing(e, j);
    forall k | InRing(e', k)
      ensures e'.slots[k % |e.slots|] == Laid(e')[k]
    {
      assert InRing(e, k);
    }
    forall i | 0 <= i < |e'.copies|
      ensures CopyOk(e', i)
    {
      if i < |e.copies| { CopyStands(e, e', i); }
    }
  }

  lemma ReaderKeeps(e: Egress, active: bool)
    requires EgressOk(e, active)
    ensures EgressOk(StepReader(e), active)
  {
    if e.reader.RNonEmpty? {
      CopyKeeps(e);
      NewestTicket(|Laid(e)|, e.read, |e.slots|);
    } else {
      SameLaid(e, StepReader(e));
    }
  }

  // ---------- whole runs ----------

  ghost predicate Inv(s: State, pool: nat) {
    && Sized(s) && Q.Inv(s.queue) && IngressOk(s.inn) && CoreOk(s, pool)
    && PublisherOk(s.out, s.queue.consumer, s.queue.popped)
    && EgressOk(s.out, s.active)
  }

  /** Building the reports owes what was owed, whatever the fields read. */
  lemma BuildOwes(c: Matching, producer: Q.Producer<Report>, pushed: seq<Report>, quantity: nat)
    requires OwesOk(c, producer, pushed) && c.pc.Priced?
    ensures OwesOk(c.(pc := Emitting(Reports(c.pc.kept, c.pc.outcome, c.pc.price, quantity), 0)), producer, pushed)
  {
    var reports := Reports(c.pc.kept, c.pc.outcome, c.pc.price, quantity);
    MaskReports(c.pc.kept, c.pc.outcome, c.pc.price, quantity);
    assert reports[0..] == reports;
  }

  /** A step that leaves both rings and the queue alone. */
  lemma CoreOnly(s: State, c: Matching, pool: nat)
    requires Inv(s, pool) && CoreOk(s.(core := c), pool) && LB.Bounded(c.engine.book)
    ensures Inv(s.(core := c), pool)
  {
  }

  lemma CoreStep(s: State, pool: nat)
    requires Inv(s, pool)
    ensures Inv(StepCore(s), pool)
  {
    match s.core.pc {
      case Loaded(w) => LoadedStep(s, pool);
      case Processed(k, o) => ProcessedStep(s, pool);
      case Freed(k, o) => FreedStep(s, pool);
      case Priced(k, o, price) => PricedStep(s, pool);
      case Emitting(reports, i) => EmittingStep(s, pool);
      case _ => CoreOnly(s, StepCore(s).core, pool);
    }
  }

  lemma LoadedStep(s: State, pool: nat)
    requires Inv(s, pool) && s.core.pc.Loaded?
    ensures Inv(StepCore(s), pool)
  {
    LoadedKeeps(s, pool);
    CoreOnly(s, StepCore(s).core, pool);
  }

  lemma FreedStep(s: State, pool: nat)
    requires Inv(s, pool) && s.core.pc.Freed?
    ensures Inv(StepCore(s), pool)
  {
    FoundInSlot(s.inn);
    CoreOnly(s, StepCore(s).core, pool);
  }

  lemma PricedStep(s: State, pool: nat)
    requires Inv(s, pool) && s.core.pc.Priced?
    ensures Inv(StepCore(s), pool)
  {
    BuildOwes(s.core, s.queue.producer, s.queue.pushed, s.inn.slots[(s.inn.read - 1) % |s.inn.slots|].quantity);
    CoreOnly(s, StepCore(s).core, pool);
  }

  /** Releasing the slot of the packet just processed. */
  lemma ProcessedStep(s: State, pool: nat)
    requires Inv(s, pool) && s.core.pc.Processed?
    ensures Inv(StepCore(s), pool)
  {
    ReadKeeps(s.inn);
  }

  lemma EmittingStep(s: State, pool: nat)
    requires Inv(s, pool) && s.core.pc.Emitting?
    ensures Inv(StepCore(s), pool)
  {
    EmittingKeeps(s, pool);
  }

  lemma HeldReportStep(s: State, pool: nat)
    requires Inv(s, pool) && !s.out.publisher.Popping? && !s.out.publisher.PTop? && !s.out.publisher.Draining?
    ensures Inv(StepPublisher(s), pool)
  {
    PublishKeepsHeld(s.out, s.queue.consumer, s.queue.popped, s.active);
    PublishKeeps(s.out, s.active);
  }

  /** The publisher moves on without touching the ring. */
  lemma PublisherMoves(e: Egress, p: Publisher, active: bool)
    requires EgressOk(e, active) && !e.publisher.Stored?
    requires !p.Waiting? && !p.Storing? && !p.Stored?
    ensures EgressOk(e.(publisher := p), active)
  {
    SameLaid(e, e.(publisher := p));
  }

  lemma PoppingStep(s: State, pool: nat)
    requires Inv(s, pool) && s.out.publisher.Popping?
    ensures Inv(StepPublisher(s), pool)
  {
    PoppingKeeps(s);
    PublisherMoves(s.out, StepPublisher(s).out.publisher, s.active);
  }

  lemma PublisherStep(s: State, pool: nat)
    requires Inv(s, pool)
    ensures Inv(StepPublisher(s), pool)
  {
    if s.out.publisher.Popping? {
      PoppingStep(s, pool);
    } else if s.out.publisher.PTop? || s.out.publisher.Draining? {
      PublisherMoves(s.out, StepPublisher(s).out.publisher, s.active);
    } else {
      HeldReportStep(s, pool);
    }
  }

  lemma WriterKeepsCore(s: State, p: Packet, pool: nat)
    requires Sized(s) && IngressOk(s.inn) && CoreOk(s, pool)
    ensures CoreOk(s.(inn := StepWriter(s.inn, p)), pool)
  {
    if s.core.pc.Priced? { WriterKeepsPrice(s.inn, p, s.core.pc.price); }
    assert StepWriter(s.inn, p).enqueued[..s.core.processed] == s.inn.enqueued[..s.core.processed];
  }

  lemma GatewayStep(s: State, p: Packet, pool: nat)
    requires Inv(s, pool)
    ensures Inv(s.(inn := StepWriter(s.inn, p)), pool)
  {
    WriterKeeps(s.inn, p);
    WriterKeepsCore(s, p, pool);
  }

  lemma ApplyKeeps(s: State, a: Action, pool: nat)
    requires Inv(s, pool)
    ensures Inv(Apply(s, a), pool)
  {
    match a {
      case Gateway(p) => GatewayStep(s, p, pool);
      case MatchingCore => CoreStep(s, pool);
      case EgressPublisher => PublisherStep(s, pool);
      case GatewayReader => ReaderKeeps(s.out, s.active);
      case Signal =>
    }
  }

  lemma InitialInv(c: Config)
    requires ValidConfig(c)
    ensures Inv(Initial(c), c.pool)
  {
  }

  /** The invariant of every thread holds after every schedule. */
  lemma {:induction false} RunInv(c: Config, schedule: seq<Action>)
    requires ValidConfig(c)
    ensures Inv(Run(c, schedule), c.pool)
  {
    if schedule == [] {
      InitialInv(c);
    } else {
      RunInv(c, schedule[..|schedule| - 1]);
      ApplyKeeps(Run(c, schedule[..|schedule| - 1]), schedule[|schedule| - 1], c.pool);
    }
  }

  // ---------- what the invariant means ----------

  /** Unread reports of the egress ring, oldest first, as its slots show them. */
  function RingContents(e: Egress): seq<Report>
    requires |e.slots| > 0 && e.read <= e.write
  {
    seq(e.write - e.read, i requires 0 <= i < e.write - e.read => e.slots[(e.read + i) % |e.slots|])
  }

  lemma RingIsPublished(e: Egress)
    requires EgressPlaces(e) && EgressSlots(e) && |Laid(e)| <= e.read + |e.slots|
    ensures RingContents(e) == e.published[e.read..]
  {
    forall i | 0 <= i < e.write - e.read
      ensures RingContents(e)[i] == e.published[e.read..][i]
    {
      assert InRing(e, e.read + i);
    }
  }

  lemma DeliveredIsPublished(e: Egress)
    requires EgressPlaces(e) && EgressSlots(e) && OwnCopies(e)
    ensures e.delivered == e.published[..e.read]
  {
    forall i | 0 <= i < e.read
      ensures e.delivered[i] == e.published[i]
    {
      assert CopyOk(e, i);
    }
  }

  /** What has been stored into the ring has come out of the queue, in order. */
  lemma LaidIsPopped(e: Egress, consumer: Q.Consumer<Report>, popped: seq<Report>)
    requires PublisherOk(e, consumer, popped)
    ensures Laid(e) <= popped
  {
  }

  lemma FlowInOrder(e: Egress, q: Q.State<Report>)
    requires Q.Inv(q) && PublisherOk(e, q.consumer, q.popped)
    requires EgressPlaces(e) && EgressSlots(e) && OwnCopies(e) && |Laid(e)| <= e.read + |e.slots|
    ensures q.pushed == e.delivered + RingContents(e) + Held(e.publisher, q.consumer) + Q.Contents(q)
  {
    DeliveredIsPublished(e);
    RingIsPublished(e);
    assert e.published == e.delivered + e.published[e.read..];
    assert q.pushed == q.popped + Q.Contents(q);
  }

  /**
   No report is lost, duplicated or reordered as long as every copy has found its own report
   and no unread slot has been stored again, which is always so while the engine is active:
   what the core has pushed is what the gateway has dequeued, then the egress ring, then the
   publisher's report, then the SPSC queue.
   */
  lemma ReportsFlowInOrder(c: Config, schedule: seq<Action>)
    requires ValidConfig(c)
    ensures var s := Run(c, schedule);
            && s.queue.popped <= s.queue.pushed && s.out.read <= s.out.write
            && (s.active ==> OwnCopies(s.out) && |Laid(s.out)| <= s.out.read + |s.out.slots|)
            && (OwnCopies(s.out) && |Laid(s.out)| <= s.out.read + |s.out.slots| ==>
                  s.queue.pushed == s.out.delivered + RingContents(s.out) + Held(s.out.publisher, s.queue.consumer)
                                    + Q.Contents(s.queue))
  {
    RunInv(c, schedule);
    var s := Run(c, schedule);
    if OwnCopies(s.out) && |Laid(s.out)| <= s.out.read + |s.out.slots| {
      FlowInOrder(s.out, s.queue);
    }
  }

  /**
   In every run, shut down or not: the gateway's i-th report is one the core has pushed, the
   i-th or a later one of the same slot.
   */
  lemma DeliveredWasPushed(c: Config, schedule: seq<Action>, i: nat)
    requires ValidConfig(c) && i < |Run(c, schedule).out.delivered|
    ensures var s := Run(c, schedule);
            && i < |s.out.copies|
            && i <= s.out.copies[i] < |s.queue.pushed| && s.out.copies[i] % |s.out.slots| == i % |s.out.slots|
            && s.out.delivered[i] == s.queue.pushed[s.out.copies[i]]
  {
    RunInv(c, schedule);
    var s := Run(c, schedule);
    assert CopyOk(s.out, i);
    LaidIsPopped(s.out, s.queue.consumer, s.queue.popped);
  }

  lemma {:induction false} AnswersPrefix(pool: nat, packets: seq<Packet>, k: nat)
    requires k <= |packets|
    ensures Answers(pool, packets[..k]) <= Answers(pool, packets)
  {
    if k < |packets| {
      AnswersPrefix(pool, Front(packets), k);
      assert Front(packets)[..k] == packets[..k];
    } else {
      assert packets[..k] == packets;
    }
  }

  /** What is pushed is what the engine alone would answer to the packets enqueued, up to fields read late. */
  lemma PushedIsThePrefixOfAnswers(c: Config, schedule: seq<Action>)
    requires ValidConfig(c)
    ensures var s := Run(c, schedule);
            MaskAll(s.queue.pushed) <= MaskAll(Answers(c.pool, s.inn.enqueued))
  {
    var s := Run(c, schedule);
    assert MaskAll(s.queue.pushed) <= MaskAll(s.core.due) && s.core.due <= Answers(c.pool, s.inn.enqueued) by {
      RunInv(c, schedule);
      AnswersPrefix(c.pool, s.inn.enqueued, s.core.processed);
    }
    var all := Answers(c.pool, s.inn.enqueued);
    MaskAppend(s.core.due, all[|s.core.due|..]);
    assert all == s.core.due + all[|s.core.due|..];
  }

  /**
   End to end, in every run: each report the gateway has dequeued is one the engine alone, fed
   the packets enqueued one after another, would answer; fills agree in every field, acceptances
   and rejections in all but price and quantity. It is the answer of its own turn, so that the
   whole is a prefix of the answers, if every copy has found its own report.
   */
  lemma DeliveredIsThePrefixOfAnswers(c: Config, schedule: seq<Action>, i: nat)
    requires ValidConfig(c) && i < |Run(c, schedule).out.delivered|
    ensures var s := Run(c, schedule);
            var all := Answers(c.pool, s.inn.enqueued);
            && i < |s.out.copies| && i <= s.out.copies[i] < |all|
            && Mask(s.out.delivered[i]) == Mask(all[s.out.copies[i]])
            && (s.out.delivered[i].kind == FILLED ==> s.out.delivered[i] == all[s.out.copies[i]])
            && (s.active || OwnCopies(s.out) ==> s.out.copies[i] == i)
  {
    var s := Run(c, schedule);
    DeliveredWasPushed(c, schedule, i);
    PushedIsThePrefixOfAnswers(c, schedule);
    ReportsFlowInOrder(c, schedule);
    var j := s.out.copies[i];
    assert |MaskAll(s.queue.pushed)| <= |MaskAll(Answers(c.pool, s.inn.enqueued))|;
    assert MaskAll(s.queue.pushed)[j] == MaskAll(Answers(c.pool, s.inn.enqueued))[j];
  }

  /**
   The ingress ring: the indices stay within one lap, and the packets processed are exactly
   the first packets enqueued, each once and in order.
   */
  lemma PacketsFlowInOrder(c: Config, schedule: seq<Action>)
    requires ValidConfig(c)
    ensures var s := Run(c, schedule);
            && s.inn.read <= s.inn.write == |s.inn.enqueued| <= s.inn.read + |s.inn.slots|
            && s.inn.read <= s.core.processed <= s.inn.write
            && s.core.engine == EngineAfter(c.pool, s.inn.enqueued[..s.core.processed])
            && s.core.due == Answers(c.pool, s.inn.enqueued[..s.core.processed])
  {
    RunInv(c, schedule);
  }
}
