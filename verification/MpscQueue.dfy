/**
 The bounded multi-producer single-consumer queue, one atomic access per step. Any number of
 producers and the consumer are interleaved by a schedule; packets are copied word by word,
 so that a torn packet would show. Tickets are unbounded and steps sequentially consistent.
 */
module MpscQueue {
  import opened Rings

  /** A packet as the words it is copied in. */
  type Packet = seq<int>

  datatype Cell = Cell(sequence: nat, data: seq<int>)

  datatype Producer =
    | Idle
    | Started(packet: Packet)
    | HaveTail(packet: Packet, t: nat)
    | HaveSequence(packet: Packet, t: nat, seen: nat)
    | Writing(packet: Packet, t: nat, done: nat)

  datatype Consumer =
    | Resting
    | HaveHead(h: nat)
    | SawSequence(h: nat, seen: nat)
    | Copying(h: nat, copied: seq<int>)

  /** Histories: the packet and the producer of every ticket, and the packets popped, in order. */
  datatype State = State(
    cells: seq<Cell>, tail: nat, head: nat, stopped: bool,
    producers: map<nat, Producer>, consumer: Consumer,
    claimed: seq<Packet>, claimers: seq<nat>, popped: seq<Packet>)

  function Initial(capacity: nat, width: nat): State {
    State(seq(capacity, (i: nat) => Cell(i, seq(width, _ => 0))), 0, 0, false, map[], Resting, [], [], [])
  }

  function Pc(s: State, pid: nat): Producer {
    if pid in s.producers then s.producers[pid] else Idle
  }

  function WithPc(s: State, pid: nat, pc: Producer): State {
    s.(producers := s.producers[pid := pc])
  }

  /** One step of push by producer `pid`; a weak compare-exchange may fail spuriously. */
  function Produce(s: State, pid: nat, packet: Packet, spurious: bool): State
    requires |s.cells| > 0
  {
    var n := |s.cells|;
    match Pc(s, pid)
    case Idle => if s.stopped || |packet| != |s.cells[0].data| then s else WithPc(s, pid, Started(packet))
    case Started(p) => WithPc(s, pid, HaveTail(p, s.tail))
    case HaveTail(p, t) => WithPc(s, pid, HaveSequence(p, t, s.cells[t % n].sequence))
    case HaveSequence(p, t, seen) =>
      if seen == t then
        if s.tail == t && !spurious then
          WithPc(s, pid, Writing(p, t, 0)).(tail := t + 1, claimed := s.claimed + [p], claimers := s.claimers + [pid])
        else WithPc(s, pid, HaveTail(p, s.tail))
      else if seen < t then WithPc(s, pid, Idle)
      else WithPc(s, pid, HaveTail(p, s.tail))
    case Writing(p, t, done) =>
      var c := s.cells[t % n];
      if done < |p| && done < |c.data| then
        WithPc(s, pid, Writing(p, t, done + 1)).(cells := s.cells[t % n := c.(data := c.data[done := p[done]])])
      else WithPc(s, pid, Idle).(cells := s.cells[t % n := c.(sequence := t + 1)])
  }

  /** One step of pop. */
  function Consume(s: State): State
    requires |s.cells| > 0
  {
    var n := |s.cells|;
    match s.consumer
    case Resting => s.(consumer := HaveHead(s.head))
    case HaveHead(h) => s.(consumer := SawSequence(h, s.cells[h % n].sequence))
    case SawSequence(h, seen) =>
      if seen == h + 1 then s.(head := h + 1, consumer := Copying(h, [])) else s.(consumer := Resting)
    case Copying(h, copied) =>
      var c := s.cells[h % n];
      if |copied| < |c.data| then s.(consumer := Copying(h, copied + [c.data[|copied|]]))
      else s.(cells := s.cells[h % n := c.(sequence := h + n)], consumer := Resting, popped := s.popped + [copied])
  }

  datatype Action = Push(pid: nat, packet: Packet, spurious: bool) | Pop | Stop

  function Apply(s: State, a: Action): (r: State)
    requires |s.cells| > 0
    ensures |r.cells| == |s.cells|
  {
    match a
    case Push(pid, packet, spurious) => Produce(s, pid, packet, spurious)
    case Pop => Consume(s)
    case Stop => s.(stopped := true)
  }

  /** The state after a schedule. */
  function Run(capacity: nat, width: nat, schedule: seq<Action>): (s: State)
    requires capacity > 0
    ensures |s.cells| == capacity
  {
    if schedule == [] then Initial(capacity, width)
    else Apply(Run(capacity, width, schedule[..|schedule| - 1]), schedule[|schedule| - 1])
  }

  // ---------- invariant ----------

  /** Tickets whose cell has been handed back to the producers. */
  function Released(s: State): nat { |s.popped| }

  ghost predicate Owns(s: State, pid: nat, k: nat) {
    Pc(s, pid).Writing? && Pc(s, pid).t == k
  }

  /** The cell of a ticket of the current window: free, being written by its claimer, or holding its packet. */
  ghost predicate TicketOk(s: State, k: nat)
    requires |s.cells| > 0 && |s.claimers| == |s.claimed|
  {
    var c := s.cells[k % |s.cells|];
    if k >= |s.claimed| then c.sequence == k
    else (c.sequence == k && Owns(s, s.claimers[k], k)) || (c.sequence == k + 1 && c.data == s.claimed[k])
  }

  ghost predicate ProducerOk(s: State, pid: nat)
    requires |s.cells| > 0 && |s.claimers| == |s.claimed|
  {
    var n := |s.cells|;
    match Pc(s, pid)
    case Idle => true
    case Started(p) => |p| == |s.cells[0].data|
    case HaveTail(p, t) => |p| == |s.cells[0].data| && t <= s.tail
    case HaveSequence(p, t, seen) => |p| == |s.cells[0].data| && t <= s.tail && seen <= s.cells[t % n].sequence
    case Writing(p, t, done) =>
      && Released(s) <= t < |s.claimed| && s.claimed[t] == p && s.claimers[t] == pid && |p| == |s.cells[0].data|
      && s.cells[t % n].sequence == t && done <= |p| && done <= |s.cells[t % n].data| && s.cells[t % n].data[..done] == p[..done]
  }

  ghost predicate ConsumerOk(s: State)
    requires |s.cells| > 0
  {
    var n, r := |s.cells|, Released(s);
    match s.consumer
    case Resting => s.head == r
    case HaveHead(h) => s.head == h == r
    case SawSequence(h, seen) => s.head == h == r && seen <= s.cells[h % n].sequence
    case Copying(h, copied) =>
      && h == r && s.head == r + 1 && r < |s.claimed| && s.cells[r % n].sequence == r + 1
      && |copied| <= |s.claimed[r]| && copied == s.claimed[r][..|copied|]
  }

  ghost predicate Sized(s: State, width: nat) {
    && |s.cells| >= 2
    && (forall i :: 0 <= i < |s.cells| ==> |s.cells[i].data| == width)
    && s.tail == |s.claimed| == |s.claimers| && Released(s) <= s.tail <= Released(s) + |s.cells|
    && s.popped == s.claimed[..Released(s)]
    && (forall i :: 0 <= i < |s.claimed| ==> |s.claimed[i]| == width)
  }

  ghost predicate Inv(s: State, width: nat) {
    && Sized(s, width)
    && (forall k: nat {:trigger TicketOk(s, k)} :: Released(s) <= k < Released(s) + |s.cells| ==> TicketOk(s, k))
    && (forall pid: nat {:trigger ProducerOk(s, pid)} :: ProducerOk(s, pid))
    && ConsumerOk(s)
  }

  /** The cell of any ticket up to the tail: its sequence is at least that of the window's ticket there. */
  lemma WindowTicket(s: State, width: nat, t: nat) returns (k: nat)
    requires Inv(s, width)
    ensures Released(s) <= k < Released(s) + |s.cells| && k % |s.cells| == t % |s.cells|
    ensures TicketOk(s, k)
    ensures t <= s.tail ==> k >= t || (t == Released(s) + |s.cells| && k == Released(s))
  {
    k := SlotTicket(|s.cells|, Released(s), t);
    if t <= s.tail && k < t {
      OneLapBehind(|s.cells|, Released(s), k, t);
    }
  }

  // ---------- every step keeps the invariant ----------

  /** A step that changes only the program counter of a producer outside its data window. */
  lemma LocalStep(s: State, width: nat, pid: nat, pc: Producer)
    requires Inv(s, width) && !Pc(s, pid).Writing? && !pc.Writing?
    requires ProducerOk(WithPc(s, pid, pc), pid)
    ensures Inv(WithPc(s, pid, pc), width)
  {
    var s' := WithPc(s, pid, pc);
    forall k: nat | Released(s) <= k < Released(s) + |s.cells|
      ensures TicketOk(s', k)
    {
      assert TicketOk(s, k);
    }
    forall p: nat
      ensures ProducerOk(s', p)
    {
      assert ProducerOk(s, p);
    }
  }

  /** A producer that saw its ticket in the cell and finds the tail unmoved really has a free cell. */
  lemma ClaimIsFree(s: State, width: nat, pid: nat)
    requires Inv(s, width) && Pc(s, pid).HaveSequence? && Pc(s, pid).seen == Pc(s, pid).t == s.tail
    ensures s.tail < Released(s) + |s.cells| && s.cells[s.tail % |s.cells|].sequence == s.tail
  {
    assert ProducerOk(s, pid);
    var t := s.tail;
    var k := WindowTicket(s, width, t);
    SameSlot(|s.cells|, Released(s), k, if t < Released(s) + |s.cells| then t else k);
  }

  lemma ClaimStep(s: State, width: nat, pid: nat)
    requires Inv(s, width) && Pc(s, pid).HaveSequence? && Pc(s, pid).seen == Pc(s, pid).t == s.tail
    ensures Inv(Produce(s, pid, [], false), width)
  {
    ClaimIsFree(s, width, pid);
    assert ProducerOk(s, pid);
    var s', t := Produce(s, pid, [], false), s.tail;
    assert Owns(s', pid, t);
    forall k: nat | Released(s) <= k < Released(s) + |s.cells|
      ensures TicketOk(s', k)
    {
      assert TicketOk(s, k);
    }
    forall p: nat
      ensures ProducerOk(s', p)
    {
      assert ProducerOk(s, p);
    }
    assert s'.claimed[..Released(s')] == s.claimed[..Released(s)];
  }

  /** The cell of a ticket being written belongs to no other ticket of the window. */
  lemma OtherCell(s: State, width: nat, pid: nat, k: nat)
    requires Inv(s, width) && Pc(s, pid).Writing? && Released(s) <= k < Released(s) + |s.cells| && k != Pc(s, pid).t
    ensures k % |s.cells| != Pc(s, pid).t % |s.cells|
  {
    assert ProducerOk(s, pid);
    if k % |s.cells| == Pc(s, pid).t % |s.cells| {
      SameSlot(|s.cells|, Released(s), k, Pc(s, pid).t);
    }
  }

  /** Copying one word into the claimed cell. */
  lemma WriteStep(s: State, width: nat, pid: nat)
    requires Inv(s, width) && Pc(s, pid).Writing? && Pc(s, pid).done < width
    ensures Inv(Produce(s, pid, [], false), width)
  {
    assert ProducerOk(s, pid);
    var s', n, t := Produce(s, pid, [], false), |s.cells|, Pc(s, pid).t;
    var done, d, d' := Pc(s, pid).done, s.cells[t % n].data, s'.cells[t % n].data;
    assert d'[..done + 1] == d[..done] + [s.claimed[t][done]];
    forall k: nat | Released(s) <= k < Released(s) + n
      ensures TicketOk(s', k)
    {
      assert TicketOk(s, k);
      if k != t { OtherCell(s, width, pid, k); }
    }
    OthersWrite(s, s', width, pid);
    if s.consumer.Copying? { OtherCell(s, width, pid, Released(s)); }
  }

  /** Passing the written cell to the consumer. */
  lemma PublishStep(s: State, width: nat, pid: nat)
    requires Inv(s, width) && Pc(s, pid).Writing? && Pc(s, pid).done == width
    ensures Inv(Produce(s, pid, [], false), width)
  {
    assert ProducerOk(s, pid);
    var s', n, t := Produce(s, pid, [], false), |s.cells|, Pc(s, pid).t;
    assert s.cells[t % n].data[..width] == s.cells[t % n].data && s.claimed[t][..width] == s.claimed[t];
    forall k: nat | Released(s) <= k < Released(s) + n
      ensures TicketOk(s', k)
    {
      assert TicketOk(s, k);
      if k != t { OtherCell(s, width, pid, k); }
    }
    OthersWrite(s, s', width, pid);
    if s.consumer.Copying? { OtherCell(s, width, pid, Released(s)); }
  }

  /** What a producer does to its own cell, raising at most its sequence, disturbs no other producer. */
  lemma OthersWrite(s: State, s': State, width: nat, pid: nat)
    requires Inv(s, width) && Pc(s, pid).Writing? && |s'.cells| == |s.cells|
    requires s' == s.(cells := s'.cells, producers := s.producers[pid := Pc(s', pid)])
    requires forall i :: 0 <= i < |s.cells| ==> |s'.cells[i].data| == width && s.cells[i].sequence <= s'.cells[i].sequence
    requires forall i :: 0 <= i < |s.cells| && i != Pc(s, pid).t % |s.cells| ==> s'.cells[i] == s.cells[i]
    requires ProducerOk(s', pid)
    ensures forall p: nat {:trigger ProducerOk(s', p)} :: ProducerOk(s', p)
  {
    forall p: nat
      ensures ProducerOk(s', p)
    {
      assert ProducerOk(s, p);
      assert ProducerOk(s, pid);
      if p != pid && Pc(s, p).Writing? { OtherCell(s, width, pid, Pc(s, p).t); }
    }
  }

  lemma ReleaseStep(s: State, width: nat)
    requires Inv(s, width) && s.consumer.Copying? && |s.consumer.copied| == width
    ensures Inv(Consume(s), width)
  {
    var s', n, r := Consume(s), |s.cells|, Released(s);
    assert TicketOk(s, r);
    assert s.claimed[r][..width] == s.claimed[r];
    assert s'.popped == s.claimed[..r + 1];
    forall k: nat | r + 1 <= k < r + 1 + n
      ensures TicketOk(s', k)
    {
      if k == r + n {
        ModAdd(r, n, 1);
      } else {
        assert TicketOk(s, k);
        if k % n == r % n { SameSlot(n, r, k, r); }
      }
    }
    forall p: nat
      ensures ProducerOk(s', p)
    {
      assert ProducerOk(s, p);
      if Pc(s, p).Writing? { OtherCell(s, width, p, r); }
    }
  }

  /** A step that changes only the consumer's own state, the head or the stop flag. */
  lemma ConsumerLocal(s: State, s': State, width: nat)
    requires Inv(s, width) && s' == s.(head := s'.head, consumer := s'.consumer, stopped := s'.stopped)
    requires ConsumerOk(s')
    ensures Inv(s', width)
  {
    forall k: nat | Released(s) <= k < Released(s) + |s.cells|
      ensures TicketOk(s', k)
    {
      assert TicketOk(s, k);
    }
    forall p: nat
      ensures ProducerOk(s', p)
    {
      assert ProducerOk(s, p);
    }
  }

  /** The other steps of pop: loads, the store of the head, and copying one word out. */
  lemma ConsumeStep(s: State, width: nat)
    requires Inv(s, width) && (s.consumer.Copying? ==> |s.consumer.copied| < width)
    ensures Inv(Consume(s), width)
  {
    var s', r := Consume(s), Released(s);
    assert TicketOk(s, r);
    if s.consumer.Copying? {
      assert s'.consumer.copied == s.claimed[r][..|s.consumer.copied| + 1];
    }
    ConsumerLocal(s, s', width);
  }

  /** Steps of push before the claim or after a lost one. */
  lemma SearchStep(s: State, width: nat, pid: nat, packet: Packet, spurious: bool)
    requires Inv(s, width) && !Pc(s, pid).Writing?
    requires !(Pc(s, pid).HaveSequence? && Pc(s, pid).seen == Pc(s, pid).t == s.tail && !spurious)
    ensures Inv(Produce(s, pid, packet, spurious), width)
  {
    assert ProducerOk(s, pid);
    var s' := Produce(s, pid, packet, spurious);
    if s' != s {
      LocalStep(s, width, pid, Pc(s', pid));
    }
  }

  lemma ProduceStep(s: State, width: nat, pid: nat, packet: Packet, spurious: bool)
    requires Inv(s, width)
    ensures Inv(Produce(s, pid, packet, spurious), width)
  {
    var pc := Pc(s, pid);
    if pc.Writing? {
      assert ProducerOk(s, pid);
      if pc.done < width { WriteStep(s, width, pid); } else { PublishStep(s, width, pid); }
      assert Produce(s, pid, packet, spurious) == Produce(s, pid, [], false);
    } else if pc.HaveSequence? && pc.seen == pc.t == s.tail && !spurious {
      ClaimStep(s, width, pid);
      assert Produce(s, pid, packet, spurious) == Produce(s, pid, [], false);
    } else {
      SearchStep(s, width, pid, packet, spurious);
    }
  }

  /** The invariant holds after every schedule, for every capacity of at least two. */
  lemma {:induction false} RunInv(capacity: nat, width: nat, schedule: seq<Action>)
    requires capacity >= 2
    ensures Inv(Run(capacity, width, schedule), width)
  {
    if schedule == [] {
      var s := Initial(capacity, width);
      forall k: nat | k < capacity
        ensures TicketOk(s, k)
      {
        Remainder(k, capacity, 0, k);
      }
    } else {
      var front, a := schedule[..|schedule| - 1], schedule[|schedule| - 1];
      RunInv(capacity, width, front);
      var s := Run(capacity, width, front);
      match a {
        case Push(pid, packet, spurious) => ProduceStep(s, width, pid, packet, spurious);
        case Pop =>
          if s.consumer.Copying? && |s.consumer.copied| >= width { ReleaseStep(s, width); } else { ConsumeStep(s, width); }
        case Stop => ConsumerLocal(s, s.(stopped := true), width);
      }
    }
  }

  // ---------- what the invariant means ----------

  /**
   In every interleaving the popped packets are the first claimed packets in ticket order,
   whole: none is lost, duplicated, torn or reordered; and at most `capacity` tickets are
   claimed and not yet released.
   */
  lemma PopsAreThePrefixOfClaims(capacity: nat, width: nat, schedule: seq<Action>)
    requires capacity >= 2
    ensures var s := Run(capacity, width, schedule);
            && |s.popped| <= s.head <= |s.popped| + 1 && s.head <= s.tail == |s.claimed| <= |s.popped| + capacity
            && s.popped == s.claimed[..|s.popped|]
  {
    RunInv(capacity, width, schedule);
  }

  /** A thread between claiming or taking a cell and passing it on, and the ticket of that cell. */
  ghost predicate InWindow(s: State, consumer: bool, pid: nat, ticket: nat) {
    if consumer then s.consumer.Copying? && s.consumer.h == ticket else Owns(s, pid, ticket)
  }

  /** A thread in a data window holds a ticket of the current window, and the cell's sequence tells which kind of thread it is. */
  lemma WindowHolder(s: State, width: nat, consumer: bool, pid: nat, ticket: nat)
    requires Inv(s, width) && InWindow(s, consumer, pid, ticket)
    ensures Released(s) <= ticket < Released(s) + |s.cells| && ticket < |s.claimers| == |s.claimed|
    ensures s.cells[ticket % |s.cells|].sequence == if consumer then ticket + 1 else ticket
    ensures !consumer ==> s.claimers[ticket] == pid
  {
    assert ProducerOk(s, pid);
  }

  /** No two threads are ever in the data window of one cell. */
  lemma WindowsAreExclusive(capacity: nat, width: nat, schedule: seq<Action>, c1: bool, p1: nat, t1: nat, c2: bool, p2: nat, t2: nat)
    requires capacity >= 2
    requires var s := Run(capacity, width, schedule);
             InWindow(s, c1, p1, t1) && InWindow(s, c2, p2, t2) && t1 % capacity == t2 % capacity
    ensures c1 == c2 && t1 == t2 && (!c1 ==> p1 == p2)
  {
    var s := Run(capacity, width, schedule);
    assert Released(s) <= t1 < Released(s) + capacity && Released(s) <= t2 < Released(s) + capacity by {
      RunInv(capacity, width, schedule);
      WindowHolder(s, width, c1, p1, t1);
      WindowHolder(s, width, c2, p2, t2);
    }
    SameSlot(capacity, Released(s), t1, t2);
    RunInv(capacity, width, schedule);
    WindowHolder(s, width, c1, p1, t1);
    WindowHolder(s, width, c2, p2, t1);
  }

  /**
   A push is refused only if, when it read the cell, all `capacity` tickets before its own
   were claimed and the oldest of them was not yet released.
   */
  lemma RefusedOnlyWhenFull(capacity: nat, width: nat, schedule: seq<Action>, pid: nat)
    requires capacity >= 2
    requires var s := Run(capacity, width, schedule);
             Pc(s, pid).HaveTail? && s.cells[Pc(s, pid).t % capacity].sequence < Pc(s, pid).t
    ensures var s := Run(capacity, width, schedule);
            Pc(s, pid).t == s.tail == |s.popped| + capacity
  {
    RunInv(capacity, width, schedule);
    var s := Run(capacity, width, schedule);
    assert ProducerOk(s, pid);
    var k := WindowTicket(s, width, Pc(s, pid).t);
  }

  /**
   Pop finds nothing, when it reads the sequence, if and only if the ticket at the head is
   unclaimed or its producer has not passed the cell on.
   */
  lemma EmptyExactlyWhenUnpublished(capacity: nat, width: nat, schedule: seq<Action>)
    requires capacity >= 2 && Run(capacity, width, schedule).consumer.HaveHead?
    ensures var s := Run(capacity, width, schedule);
            var h := s.consumer.h;
            && h == s.head == |s.popped|
            && (s.cells[h % capacity].sequence != h + 1 <==>
                  h == s.tail || (h < |s.claimers| && Owns(s, s.claimers[h], h)))
  {
    RunInv(capacity, width, schedule);
    var s := Run(capacity, width, schedule);
    assert TicketOk(s, s.consumer.h);
    if s.consumer.h < |s.claimers| {
      assert ProducerOk(s, s.claimers[s.consumer.h]);
    }
  }

  /** When no thread is inside an operation, the cells hold the claimed but unpopped packets in order. */
  lemma QuiescentContents(capacity: nat, width: nat, schedule: seq<Action>, k: nat)
    requires capacity >= 2
    requires var s := Run(capacity, width, schedule);
             (forall pid: nat :: Pc(s, pid) == Idle) && s.consumer == Resting && |s.popped| <= k < |s.claimed|
    ensures var s := Run(capacity, width, schedule);
            s.cells[k % capacity] == Cell(k + 1, s.claimed[k])
  {
    RunInv(capacity, width, schedule);
    var s := Run(capacity, width, schedule);
    assert TicketOk(s, k);
    assert Pc(s, s.claimers[k]) == Idle;
  }

  /** One push as its six steps, in a queue with a single one-word cell. */
  lemma PushAlone(s: State, pid: nat, x: int)
    requires |s.cells| == 1 && |s.cells[0].data| == 1 && s.cells[0].sequence == s.tail && !s.stopped && Pc(s, pid) == Idle
    ensures var p := Push(pid, [x], false);
            Apply(Apply(Apply(Apply(Apply(Apply(s, p), p), p), p), p), p) ==
            WithPc(s, pid, Idle).(cells := [Cell(s.tail + 1, [x])], tail := s.tail + 1,
                                  claimed := s.claimed + [[x]], claimers := s.claimers + [pid])
  {
    var p, t := Push(pid, [x], false), s.tail;
    assert t % 1 == 0;
    var s1 := WithPc(s, pid, Started([x]));
    assert Apply(s, p) == s1;
    var s2 := WithPc(s1, pid, HaveTail([x], t));
    assert Apply(s1, p) == s2;
    var s3 := WithPc(s2, pid, HaveSequence([x], t, t));
    assert Apply(s2, p) == s3;
    var s4 := WithPc(s3, pid, Writing([x], t, 0)).(tail := t + 1, claimed := s.claimed + [[x]], claimers := s.claimers + [pid]);
    assert Apply(s3, p) == s4;
    var s5 := WithPc(s4, pid, Writing([x], t, 1)).(cells := [Cell(t, [x])]);
    assert s4.cells[0].data[0 := x] == [x];
    assert Apply(s4, p) == s5;
    var s6 := WithPc(s5, pid, Idle).(cells := [Cell(t + 1, [x])]);
    assert Apply(s5, p) == s6;
    assert s6.producers == s.producers[pid := Idle];
  }

  /**
   The bound of two is sharp. With one cell, a published packet leaves in the cell the very
   sequence the next ticket looks for: a second push overwrites the first packet unread.
   */
  lemma CapacityOneOverwrites(x: int, y: int) returns (s: State)
    ensures var p, q := Push(0, [x], false), Push(1, [y], false);
            s == Run(1, 1, [p, p, p, p, p, p] + [q, q, q, q, q, q])
    ensures s.claimed == [[x], [y]] && s.popped == [] && s.cells == [Cell(2, [y])] && s.tail - s.head == 2
  {
    var p, q := Push(0, [x], false), Push(1, [y], false);
    var e := Initial(1, 1);
    PushAlone(e, 0, x);
    var m := WithPc(e, 0, Idle).(cells := [Cell(1, [x])], tail := 1, claimed := [[x]], claimers := [0]);
    RunSix([], p);
    assert [] + [p, p, p, p, p, p] == [p, p, p, p, p, p];
    assert m == Run(1, 1, [p, p, p, p, p, p]);
    PushAlone(m, 1, y);
    RunSix([p, p, p, p, p, p], q);
    s := Run(1, 1, [p, p, p, p, p, p] + [q, q, q, q, q, q]);
  }

  lemma RunSix(front: seq<Action>, a: Action)
    ensures Run(1, 1, front + [a, a, a, a, a, a]) ==
            Apply(Apply(Apply(Apply(Apply(Apply(Run(1, 1, front), a), a), a), a), a), a)
  {
    RunThree(front, a);
    RunThree(front + [a, a, a], a);
    assert front + [a, a, a] + [a, a, a] == front + [a, a, a, a, a, a];
  }

  lemma RunThree(front: seq<Action>, a: Action)
    ensures Run(1, 1, front + [a, a, a]) == Apply(Apply(Apply(Run(1, 1, front), a), a), a)
  {
    RunOn(front, a);
    RunOn(front + [a], a);
    RunOn(front + [a] + [a], a);
    assert front + [a] + [a] + [a] == front + [a, a, a];
  }

  lemma RunOn(front: seq<Action>, a: Action)
    ensures Run(1, 1, front + [a]) == Apply(Run(1, 1, front), a)
  {
    assert (front + [a])[..|front|] == front;
  }
}
