/**
 What a push and a pop of the multi-producer queue answer: what decides the answer while
 other threads interleave, and what an operation does that is left to run on its own.
 */
module MpscOperations {
  import opened Rings
  import opened MpscQueue

  lemma Extend(capacity: nat, width: nat, front: seq<Action>, a: Action)
    requires capacity > 0
    ensures Run(capacity, width, front + [a]) == Apply(Run(capacity, width, front), a)
  {
    assert (front + [a])[..|front|] == front;
  }

  // ---------- pop ----------

  /** Ticket `k` is claimed and its producer has passed the cell on. */
  ghost predicate Published(s: State, k: nat) {
    k < |s.claimed| && k < |s.claimers| && !Owns(s, s.claimers[k], k)
  }

  ghost predicate NoPop(schedule: seq<Action>) {
    forall i :: 0 <= i < |schedule| ==> schedule[i] != Pop
  }

  lemma NotPop(s: State, a: Action)
    requires |s.cells| > 0 && a != Pop
    ensures Apply(s, a).consumer == s.consumer && Apply(s, a).head == s.head && Apply(s, a).popped == s.popped
  {
  }

  /** The producers change neither the consumer, nor the head, nor what was popped. */
  lemma {:induction false} ConsumerWaits(capacity: nat, width: nat, before: seq<Action>, middle: seq<Action>)
    requires capacity > 0 && NoPop(middle)
    ensures var s, t := Run(capacity, width, before), Run(capacity, width, before + middle);
            t.consumer == s.consumer && t.head == s.head && t.popped == s.popped
  {
    if middle == [] {
      assert before + middle == before;
    } else {
      var front, a := middle[..|middle| - 1], middle[|middle| - 1];
      ConsumerWaits(capacity, width, before, front);
      assert before + middle == before + front + [a];
      Extend(capacity, width, before + front, a);
      NotPop(Run(capacity, width, before + front), a);
    }
  }

  /**
   Pop's answer, whatever the producers do between its two steps: it reports an empty queue
   if and only if the ticket at the head was unclaimed or unpublished when it read the cell's
   sequence; otherwise it takes that ticket.
   */
  lemma PopAnswersExactly(capacity: nat, width: nat, before: seq<Action>, middle: seq<Action>)
    requires capacity >= 2 && Run(capacity, width, before).consumer.HaveHead? && NoPop(middle)
    ensures var s := Run(capacity, width, before);
            var t := Run(capacity, width, before + [Pop] + middle);
            var r := Run(capacity, width, before + [Pop] + middle + [Pop]);
            var h := |s.popped|;
            && s.consumer == HaveHead(h) && t.consumer.SawSequence? && r.popped == s.popped
            && (r.consumer == Resting <==> !Published(s, h))
            && (r.consumer == Resting ==> r.head == h)
            && (r.consumer != Resting ==> r.consumer == Copying(h, []) && r.head == h + 1)
  {
    EmptyExactlyWhenUnpublished(capacity, width, before);
    RunInv(capacity, width, before);
    Extend(capacity, width, before, Pop);
    ConsumerWaits(capacity, width, before + [Pop], middle);
    Extend(capacity, width, before + [Pop] + middle, Pop);
  }

  function Pops(n: nat): (r: seq<Action>)
    ensures |r| == n
  {
    seq(n, _ => Pop)
  }

  lemma OneMorePop(capacity: nat, width: nat, before: seq<Action>, n: nat)
    requires capacity > 0
    ensures Run(capacity, width, before + Pops(n + 1)) == Apply(Run(capacity, width, before + Pops(n)), Pop)
  {
    assert before + Pops(n + 1) == before + Pops(n) + [Pop];
    Extend(capacity, width, before + Pops(n), Pop);
  }

  lemma ExtendTwo(capacity: nat, width: nat, before: seq<Action>)
    requires capacity > 0
    ensures Run(capacity, width, before + Pops(2)) == Apply(Apply(Run(capacity, width, before), Pop), Pop)
  {
    Extend(capacity, width, before, Pop);
    Extend(capacity, width, before + [Pop], Pop);
    assert before + Pops(2) == before + [Pop] + [Pop];
  }

  /** State `s` with the first `n` words of the packet at the head copied out. */
  function WithCopied(s: State, h: nat, n: nat): State
    requires h < |s.claimed| && n <= |s.claimed[h]|
  {
    s.(head := h + 1, consumer := Copying(h, s.claimed[h][..n]))
  }

  lemma CopyWord(s: State, h: nat, n: nat)
    requires |s.cells| > 0 && h < |s.claimed| && n < |s.claimed[h]| && s.cells[h % |s.cells|].data == s.claimed[h]
    ensures Apply(WithCopied(s, h, n), Pop) == WithCopied(s, h, n + 1)
  {
    assert s.claimed[h][..n + 1] == s.claimed[h][..n] + [s.claimed[h][n]];
  }

  /** The consumer has loaded the head `h`, whose ticket is published. */
  ghost predicate Takeable(s: State, h: nat) {
    |s.cells| > 0 && s.consumer == HaveHead(h) && h < |s.claimed| && s.cells[h % |s.cells|] == Cell(h + 1, s.claimed[h])
  }

  lemma TakeHead(s: State, h: nat)
    requires Takeable(s, h)
    ensures Apply(Apply(s, Pop), Pop) == WithCopied(s, h, 0)
  {
    assert s.claimed[h][..0] == [];
  }

  /** From the read of a published sequence: the head moves, and `n` words are copied out. */
  lemma {:induction false} CopiesOut(capacity: nat, width: nat, before: seq<Action>, h: nat, n: nat)
    requires capacity > 0 && Takeable(Run(capacity, width, before), h) && n <= |Run(capacity, width, before).claimed[h]|
    ensures Run(capacity, width, before + Pops(2 + n)) == WithCopied(Run(capacity, width, before), h, n)
  {
    if n == 0 {
      ExtendTwo(capacity, width, before);
      TakeHead(Run(capacity, width, before), h);
    } else {
      CopiesOut(capacity, width, before, h, n - 1);
      CopyOutOne(capacity, width, before, h, n - 1);
    }
  }

  lemma CopyOutOne(capacity: nat, width: nat, before: seq<Action>, h: nat, n: nat)
    requires capacity > 0 && Takeable(Run(capacity, width, before), h) && n < |Run(capacity, width, before).claimed[h]|
    requires Run(capacity, width, before + Pops(2 + n)) == WithCopied(Run(capacity, width, before), h, n)
    ensures Run(capacity, width, before + Pops(2 + n + 1)) == WithCopied(Run(capacity, width, before), h, n + 1)
  {
    OneMorePop(capacity, width, before, 2 + n);
    CopyWord(Run(capacity, width, before), h, n);
  }

  /** State `s` with the packet of ticket `h` popped and its cell free for the ticket a lap later. */
  function Taken(s: State, h: nat): State
    requires |s.cells| > 0 && h < |s.claimed|
  {
    s.(head := h + 1, consumer := Resting, popped := s.popped + [s.claimed[h]],
       cells := s.cells[h % |s.cells| := Cell(h + |s.cells|, s.claimed[h])])
  }

  /** The packet's cell given back to the producers. */
  lemma ReleaseCell(s: State, h: nat)
    requires |s.cells| > 0 && h < |s.claimed| && s.cells[h % |s.cells|].data == s.claimed[h]
    ensures Apply(WithCopied(s, h, |s.claimed[h]|), Pop) == Taken(s, h)
  {
    assert s.claimed[h][..|s.claimed[h]|] == s.claimed[h];
  }

  lemma PublishedCell(capacity: nat, width: nat, schedule: seq<Action>)
    requires capacity >= 2 && Run(capacity, width, schedule).consumer.HaveHead?
    requires Published(Run(capacity, width, schedule), Run(capacity, width, schedule).head)
    ensures var s := Run(capacity, width, schedule);
            && s.consumer == HaveHead(s.head) && |s.claimed[s.head]| == width
            && s.cells[s.head % capacity] == Cell(s.head + 1, s.claimed[s.head])
  {
    RunInv(capacity, width, schedule);
    assert TicketOk(Run(capacity, width, schedule), Run(capacity, width, schedule).head);
  }

  /**
   A pop left to run on its own, from the read of a sequence that was published: two steps,
   one per word and one more append exactly the packet at the head to what is popped, free its
   cell for the ticket a lap later, and change nothing else.
   */
  lemma PopTakesTheHead(capacity: nat, width: nat, before: seq<Action>)
    requires capacity >= 2 && Run(capacity, width, before).consumer.HaveHead?
    requires Published(Run(capacity, width, before), Run(capacity, width, before).head)
    ensures var s := Run(capacity, width, before);
            |s.claimed[s.head]| == width && Run(capacity, width, before + Pops(2 + width + 1)) == Taken(s, s.head)
  {
    var s := Run(capacity, width, before);
    PublishedCell(capacity, width, before);
    CopiesOut(capacity, width, before, s.head, width);
    OneMorePop(capacity, width, before, 2 + width);
    ReleaseCell(s, s.head);
  }

  // ---------- push ----------

  /** As many tickets are claimed and not released as there are cells. */
  predicate Full(s: State) {
    s.tail == |s.popped| + |s.cells|
  }

  ghost predicate NoPushBy(schedule: seq<Action>, pid: nat) {
    forall i :: 0 <= i < |schedule| ==> !(schedule[i].Push? && schedule[i].pid == pid)
  }

  lemma NotPushBy(s: State, a: Action, pid: nat)
    requires |s.cells| > 0 && !(a.Push? && a.pid == pid)
    ensures Pc(Apply(s, a), pid) == Pc(s, pid) && s.tail <= Apply(s, a).tail
  {
  }

  /** From `s` to `r` producer `pid` has not moved, and the tail has only grown. */
  ghost predicate Waits(s: State, r: State, pid: nat) {
    Pc(r, pid) == Pc(s, pid) && s.tail <= r.tail
  }

  lemma WaitsOn(capacity: nat, width: nat, s: State, front: seq<Action>, a: Action, pid: nat)
    requires capacity > 0 && !(a.Push? && a.pid == pid) && Waits(s, Run(capacity, width, front), pid)
    ensures Waits(s, Run(capacity, width, front + [a]), pid)
  {
    Extend(capacity, width, front, a);
    NotPushBy(Run(capacity, width, front), a, pid);
  }

  /** The other threads do not change a producer's program counter, and the tail only grows. */
  lemma {:induction false} ProducerWaits(capacity: nat, width: nat, before: seq<Action>, middle: seq<Action>, pid: nat)
    requires capacity > 0 && NoPushBy(middle, pid)
    ensures Waits(Run(capacity, width, before), Run(capacity, width, before + middle), pid)
  {
    if middle == [] {
      assert before + middle == before;
    } else {
      var front, a := middle[..|middle| - 1], middle[|middle| - 1];
      ProducerWaits(capacity, width, before, front, pid);
      assert before + middle == before + front + [a];
      WaitsOn(capacity, width, Run(capacity, width, before), before + front, a, pid);
    }
  }

  /** What a producer reads in the cell of its ticket: less than it exactly if the queue is full, and it while unclaimed. */
  lemma SequenceRead(s: State, width: nat, pid: nat)
    requires Inv(s, width) && Pc(s, pid).HaveTail?
    ensures var t := Pc(s, pid).t;
            var seen := s.cells[t % |s.cells|].sequence;
            && t <= s.tail
            && (seen < t <==> t == s.tail && Full(s))
            && (t == s.tail && !Full(s) ==> seen == t)
  {
    assert ProducerOk(s, pid);
    var t := Pc(s, pid).t;
    var k := WindowTicket(s, width, t);
    if t == s.tail && !Full(s) {
      assert TicketOk(s, t);
    }
  }

  /**
   A push's answer, whatever the other threads do between its two steps. It is refused if and
   only if the queue was full, with its ticket next, when it read the cell's sequence. It
   claims its ticket if and only if that was not so, no other push has claimed one since it
   loaded the tail, and the weak compare-exchange does not fail spuriously. Otherwise it goes
   on with the tail as it is now.
   */
  lemma PushAnswersExactly(capacity: nat, width: nat, before: seq<Action>, middle: seq<Action>, pid: nat, spurious: bool)
    requires capacity >= 2 && Pc(Run(capacity, width, before), pid).HaveTail? && NoPushBy(middle, pid)
    ensures var read := Push(pid, [], false);
            var s := Run(capacity, width, before);
            var u := Run(capacity, width, before + [read] + middle);
            var r := Run(capacity, width, before + [read] + middle + [Push(pid, [], spurious)]);
            var p, t := Pc(s, pid).packet, Pc(s, pid).t;
            var full := t == s.tail && Full(s);
            && (full ==> Pc(r, pid) == Idle && r.claimed == u.claimed && r.tail == u.tail)
            && (!full && t == u.tail && !spurious ==>
                  Pc(r, pid) == Writing(p, t, 0) && r.claimed == u.claimed + [p] && r.claimers == u.claimers + [pid] &&
                  r.tail == t + 1)
            && (!full && (t != u.tail || spurious) ==>
                  Pc(r, pid) == HaveTail(p, u.tail) && r.claimed == u.claimed && r.tail == u.tail)
  {
    var read := Push(pid, [], false);
    var s := Run(capacity, width, before);
    RunInv(capacity, width, before);
    SequenceRead(s, width, pid);
    Extend(capacity, width, before, read);
    ProducerWaits(capacity, width, before + [read], middle, pid);
    Extend(capacity, width, before + [read] + middle, Push(pid, [], spurious));
  }

  function Pushes(pid: nat, packet: Packet, n: nat): (r: seq<Action>)
    ensures |r| == n
  {
    seq(n, _ => Push(pid, packet, false))
  }

  lemma OneMorePush(capacity: nat, width: nat, before: seq<Action>, pid: nat, p: Packet, n: nat)
    requires capacity > 0
    ensures Run(capacity, width, before + Pushes(pid, p, n + 1)) ==
            Apply(Run(capacity, width, before + Pushes(pid, p, n)), Push(pid, p, false))
  {
    assert before + Pushes(pid, p, n + 1) == before + Pushes(pid, p, n) + [Push(pid, p, false)];
    Extend(capacity, width, before + Pushes(pid, p, n), Push(pid, p, false));
  }

  /** Data `d` with its first `n` words replaced by those of packet `p`. */
  function Overlay(d: seq<int>, p: Packet, n: nat): seq<int>
    requires n <= |p| == |d|
  {
    p[..n] + d[n..]
  }

  /** State `s` with packet `p` claimed as the next ticket by `pid`, and its first `n` words copied in. */
  function WithWritten(s: State, pid: nat, p: Packet, n: nat): State
    requires |s.cells| > 0 && n <= |p| == |s.cells[s.tail % |s.cells|].data|
  {
    var c := s.tail % |s.cells|;
    s.(producers := s.producers[pid := Writing(p, s.tail, n)], tail := s.tail + 1, claimed := s.claimed + [p],
       claimers := s.claimers + [pid], cells := s.cells[c := s.cells[c].(data := Overlay(s.cells[c].data, p, n))])
  }

  lemma WriteWord(s: State, pid: nat, p: Packet, n: nat)
    requires |s.cells| > 0 && n < |p| == |s.cells[s.tail % |s.cells|].data|
    ensures Apply(WithWritten(s, pid, p, n), Push(pid, p, false)) == WithWritten(s, pid, p, n + 1)
  {
    var d := s.cells[s.tail % |s.cells|].data;
    assert Overlay(d, p, n)[n := p[n]] == Overlay(d, p, n + 1);
    assert s.producers[pid := Writing(p, s.tail, n)][pid := Writing(p, s.tail, n + 1)] ==
           s.producers[pid := Writing(p, s.tail, n + 1)];
  }

  /** The next ticket's cell is free, and producer `pid` may start to push packet `p`. */
  ghost predicate Claimable(s: State, pid: nat, p: Packet) {
    && |s.cells| > 0 && |p| == |s.cells[0].data| == |s.cells[s.tail % |s.cells|].data|
    && Pc(s, pid) == Idle && !s.stopped && s.cells[s.tail % |s.cells|].sequence == s.tail
  }

  /** Four steps of a push on its own, up to its claim. */
  lemma ClaimSteps(s: State, pid: nat, p: Packet)
    requires Claimable(s, pid, p)
    ensures var a := Push(pid, p, false);
            Apply(Apply(Apply(Apply(s, a), a), a), a) == WithWritten(s, pid, p, 0)
  {
    var t := s.tail;
    var c := s.cells[t % |s.cells|];
    assert Overlay(c.data, p, 0) == c.data;
    assert s.cells[t % |s.cells| := c] == s.cells;
    var s1 := WithPc(s, pid, Started(p));
    var s2 := WithPc(s1, pid, HaveTail(p, t));
    var s3 := WithPc(s2, pid, HaveSequence(p, t, t));
    assert s3.producers[pid := Writing(p, t, 0)] == s.producers[pid := Writing(p, t, 0)];
  }

  lemma ExtendFour(capacity: nat, width: nat, before: seq<Action>, pid: nat, p: Packet)
    requires capacity > 0
    ensures var s, a := Run(capacity, width, before), Push(pid, p, false);
            Run(capacity, width, before + Pushes(pid, p, 4)) == Apply(Apply(Apply(Apply(s, a), a), a), a)
  {
    var a := Push(pid, p, false);
    Extend(capacity, width, before, a);
    Extend(capacity, width, before + [a], a);
    Extend(capacity, width, before + [a] + [a], a);
    Extend(capacity, width, before + [a] + [a] + [a], a);
    assert before + Pushes(pid, p, 4) == before + [a] + [a] + [a] + [a];
  }

  lemma {:induction false} CopiesIn(capacity: nat, width: nat, before: seq<Action>, pid: nat, p: Packet, n: nat)
    requires capacity > 0 && n <= |p| && Claimable(Run(capacity, width, before), pid, p)
    ensures Run(capacity, width, before + Pushes(pid, p, 4 + n)) == WithWritten(Run(capacity, width, before), pid, p, n)
  {
    if n == 0 {
      ClaimSteps(Run(capacity, width, before), pid, p);
      ExtendFour(capacity, width, before, pid, p);
    } else {
      CopiesIn(capacity, width, before, pid, p, n - 1);
      CopyInOne(capacity, width, before, pid, p, n - 1);
    }
  }

  lemma CopyInOne(capacity: nat, width: nat, before: seq<Action>, pid: nat, p: Packet, n: nat)
    requires capacity > 0 && n < |p| && Claimable(Run(capacity, width, before), pid, p)
    requires Run(capacity, width, before + Pushes(pid, p, 4 + n)) == WithWritten(Run(capacity, width, before), pid, p, n)
    ensures Run(capacity, width, before + Pushes(pid, p, 4 + n + 1)) ==
            WithWritten(Run(capacity, width, before), pid, p, n + 1)
  {
    OneMorePush(capacity, width, before, pid, p, 4 + n);
    WriteWord(Run(capacity, width, before), pid, p, n);
  }

  /** State `s` with packet `p` appended by `pid` and published. */
  function Appended(s: State, pid: nat, p: Packet): State
    requires |s.cells| > 0
  {
    s.(producers := s.producers[pid := Idle], tail := s.tail + 1, claimed := s.claimed + [p],
       claimers := s.claimers + [pid], cells := s.cells[s.tail % |s.cells| := Cell(s.tail + 1, p)])
  }

  /** The written cell passed to the consumer. */
  lemma PassOn(s: State, pid: nat, p: Packet)
    requires |s.cells| > 0 && |p| == |s.cells[s.tail % |s.cells|].data|
    ensures Apply(WithWritten(s, pid, p, |p|), Push(pid, p, false)) == Appended(s, pid, p)
  {
    assert Overlay(s.cells[s.tail % |s.cells|].data, p, |p|) == p;
    assert s.producers[pid := Writing(p, s.tail, |p|)][pid := Idle] == s.producers[pid := Idle];
  }

  lemma FreeCell(capacity: nat, width: nat, schedule: seq<Action>)
    requires capacity >= 2 && !Full(Run(capacity, width, schedule))
    ensures var s := Run(capacity, width, schedule);
            && s.tail == |s.claimed| == |s.claimers|
            && width == |s.cells[0].data| == |s.cells[s.tail % capacity].data|
            && s.cells[s.tail % capacity].sequence == s.tail
  {
    RunInv(capacity, width, schedule);
    assert TicketOk(Run(capacity, width, schedule), Run(capacity, width, schedule).tail);
  }

  /**
   A push left to run on its own, into a queue that is neither stopped nor full: four steps,
   one per word and one more append its packet as the next ticket and publish it whole.
   */
  lemma PushAppends(capacity: nat, width: nat, before: seq<Action>, pid: nat, packet: Packet)
    requires capacity >= 2 && |packet| == width
    requires var s := Run(capacity, width, before);
             Pc(s, pid) == Idle && !s.stopped && !Full(s)
    ensures var s, r := Run(capacity, width, before), Run(capacity, width, before + Pushes(pid, packet, 4 + width + 1));
            r == Appended(s, pid, packet) && Published(r, s.tail)
  {
    var s := Run(capacity, width, before);
    FreeCell(capacity, width, before);
    CopiesIn(capacity, width, before, pid, packet, width);
    OneMorePush(capacity, width, before, pid, packet, 4 + width);
    PassOn(s, pid, packet);
  }

  /** Round trip: what is pushed into an empty idle queue is what the next pop takes out. */
  lemma PushThenPop(capacity: nat, width: nat, before: seq<Action>, pid: nat, packet: Packet) returns (after: seq<Action>)
    requires capacity >= 2 && |packet| == width
    requires var s := Run(capacity, width, before);
             Pc(s, pid) == Idle && !s.stopped && s.consumer == Resting && s.tail == |s.popped|
    ensures var s, r := Run(capacity, width, before), Run(capacity, width, after);
            r.popped == s.popped + [packet] && r.head == r.tail == s.tail + 1 && r.consumer == Resting
  {
    RunInv(capacity, width, before);
    var pushed := before + Pushes(pid, packet, 4 + width + 1);
    PushAppends(capacity, width, before, pid, packet);
    Extend(capacity, width, pushed, Pop);
    PopTakesTheHead(capacity, width, pushed + [Pop]);
    after := pushed + [Pop] + Pops(2 + width + 1);
  }

  // ---------- after the stop ----------

  ghost predicate Drained(s: State) {
    s.stopped && forall pid: nat :: Pc(s, pid) == Idle
  }

  lemma DrainedStep(s: State, a: Action)
    requires |s.cells| > 0 && Drained(s)
    ensures Drained(Apply(s, a)) && Apply(s, a).claimed == s.claimed
  {
    assert a.Push? ==> Pc(s, a.pid) == Idle;
    forall pid: nat
      ensures Pc(Apply(s, a), pid) == Idle
    {
      assert Pc(s, pid) == Idle;
    }
  }

  lemma {:induction false} DrainedRun(capacity: nat, width: nat, before: seq<Action>, after: seq<Action>)
    requires capacity > 0 && Drained(Run(capacity, width, before))
    ensures Drained(Run(capacity, width, before + after))
    ensures Run(capacity, width, before + after).claimed == Run(capacity, width, before).claimed
  {
    if after == [] {
      assert before + after == before;
    } else {
      var front, a := after[..|after| - 1], after[|after| - 1];
      DrainedRun(capacity, width, before, front);
      assert before + after == before + front + [a];
      Extend(capacity, width, before + front, a);
      DrainedStep(Run(capacity, width, before + front), a);
    }
  }

  /** A stop that comes while no push is under way lets nothing be claimed ever again. */
  lemma StoppedTakesNothing(capacity: nat, width: nat, before: seq<Action>, after: seq<Action>)
    requires capacity > 0 && forall pid: nat :: Pc(Run(capacity, width, before), pid) == Idle
    ensures Run(capacity, width, before + [Stop] + after).claimed == Run(capacity, width, before).claimed
  {
    Extend(capacity, width, before, Stop);
    StopDrains(Run(capacity, width, before));
    DrainedRun(capacity, width, before + [Stop], after);
  }

  lemma StopDrains(s: State)
    requires |s.cells| > 0 && forall pid: nat :: Pc(s, pid) == Idle
    ensures Drained(Apply(s, Stop)) && Apply(s, Stop).claimed == s.claimed
  {
    forall pid: nat
      ensures Pc(Apply(s, Stop), pid) == Idle
    {
      assert Pc(s, pid) == Idle;
    }
  }
}
