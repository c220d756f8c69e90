/**
 The bounded single-producer single-consumer queue with a stale shadow of the head, one
 shared access per step. `push` and `pop` are run by two threads in any interleaving.
 */
module SpscQueue {
  import opened Basics
  import opened Rings

  datatype Producer<T> =
    | Idle
    | Started(item: T)
    | HaveTail(item: T, t: nat)
    | Ready(item: T, t: nat)
    | Written(item: T, t: nat)
    | Returned(ok: bool)

  datatype Consumer<T> =
    | Resting
    | HaveHead(h: nat)
    | NonEmpty(h: nat)
    | Read(h: nat, item: T)
    | Popped(result: Option<T>)

  /** `pushed` and `popped` are histories of what passed each end. */
  datatype State<T> = State(
    slots: seq<T>, tail: nat, head: nat, cachedHead: nat, stopped: bool,
    producer: Producer<T>, consumer: Consumer<T>, pushed: seq<T>, popped: seq<T>)

  /** The item of a push that has not returned. */
  function InFlight<T>(p: Producer<T>): Option<T> {
    match p
    case Started(x) => Some(x)
    case HaveTail(x, t) => Some(x)
    case Ready(x, t) => Some(x)
    case Written(x, t) => Some(x)
    case _ => None
  }

  /** One step of `push(item)`; a returned push stays until the caller takes its result. */
  function Push<T>(s: State<T>, item: T): State<T>
    requires |s.slots| > 0
  {
    var n := |s.slots|;
    match s.producer
    case Idle => s.(producer := if s.stopped then Returned(false) else Started(item))
    case Started(x) => s.(producer := HaveTail(x, s.tail))
    case HaveTail(x, t) =>
      if t - s.cachedHead >= n then
        s.(cachedHead := s.head, producer := if t - s.head >= n then Returned(false) else Ready(x, t))
      else s.(producer := Ready(x, t))
    case Ready(x, t) => s.(slots := s.slots[t % n := x], producer := Written(x, t))
    case Written(x, t) => s.(tail := t + 1, producer := Returned(true), pushed := s.pushed + [x])
    case Returned(ok) => s
  }

  /** One step of `pop`. */
  function Pop<T>(s: State<T>): State<T>
    requires |s.slots| > 0
  {
    var n := |s.slots|;
    match s.consumer
    case Resting => s.(consumer := HaveHead(s.head))
    case HaveHead(h) => s.(consumer := if h == s.tail then Popped(None) else NonEmpty(h))
    case NonEmpty(h) => s.(consumer := Read(h, s.slots[h % n]))
    case Read(h, x) => s.(head := h + 1, consumer := Popped(Some(x)), popped := s.popped + [x])
    case Popped(r) => s
  }

  /** The caller of push, or of pop, takes the result. */
  function TakePush<T>(s: State<T>): State<T> { if s.producer.Returned? then s.(producer := Idle) else s }
  function TakePop<T>(s: State<T>): State<T> { if s.consumer.Popped? then s.(consumer := Resting) else s }

  /** The items in the queue, oldest first. */
  function Contents<T>(s: State<T>): seq<T>
    requires |s.popped| <= |s.pushed|
  {
    s.pushed[|s.popped|..]
  }

  // ---------- invariant ----------

  ghost predicate ProducerOk<T>(s: State<T>)
    requires |s.slots| > 0
  {
    match s.producer
    case HaveTail(x, t) => t == s.tail
    case Ready(x, t) => t == s.tail < s.cachedHead + |s.slots|
    case Written(x, t) => t == s.tail < s.cachedHead + |s.slots| && s.slots[t % |s.slots|] == x
    case _ => true
  }

  ghost predicate ConsumerOk<T>(s: State<T>) {
    match s.consumer
    case HaveHead(h) => h == s.head
    case NonEmpty(h) => h == s.head < s.tail
    case Read(h, x) => h == s.head < |s.pushed| && x == s.pushed[h]
    case _ => true
  }

  ghost predicate Inv<T>(s: State<T>) {
    && |s.slots| > 0
    && s.cachedHead <= s.head <= s.tail <= s.cachedHead + |s.slots|
    && s.tail == |s.pushed| && s.head == |s.popped| && s.popped == s.pushed[..s.head]
    && (forall i :: s.head <= i < s.tail ==> s.slots[i % |s.slots|] == s.pushed[i])
    && ProducerOk(s) && ConsumerOk(s)
  }

  /** Writing the slot of the tail leaves every unread slot alone. */
  lemma WriteSpares<T>(s: State<T>, x: T)
    requires Inv(s) && s.tail < s.cachedHead + |s.slots|
    ensures forall i :: s.head <= i < s.tail ==> s.slots[s.tail % |s.slots| := x][i % |s.slots|] == s.pushed[i]
  {
    var n := |s.slots|;
    forall i | s.head <= i < s.tail
      ensures s.slots[s.tail % n := x][i % n] == s.pushed[i]
    {
      if i % n == s.tail % n { SameSlot(n, s.head, i, s.tail); }
    }
  }

  /** Every step of push keeps the invariant, and changes the contents only by appending the item. */
  lemma PushKeeps<T>(s: State<T>, item: T)
    requires Inv(s)
    ensures Inv(Push(s, item))
    ensures Push(s, item).popped == s.popped && Push(s, item).consumer == s.consumer
    ensures Push(s, item).pushed == (if s.producer.Written? then s.pushed + [s.producer.item] else s.pushed)
  {
    if s.producer.Ready? {
      WriteSpares(s, s.producer.item);
    }
  }

  /** A push carries its item until it returns, and returns true exactly when the item has been appended. */
  lemma PushProgress<T>(s: State<T>, item: T)
    requires |s.slots| > 0 && !s.producer.Returned?
    ensures var p := Push(s, item).producer;
            && p != Idle && (p == Returned(true) <==> s.producer.Written?)
            && (p.Returned? || InFlight(p) == if s.producer == Idle then Some(item) else InFlight(s.producer))
  {
  }

  /** Every step of pop keeps the invariant, and changes the contents only by removing the oldest item. */
  lemma PopKeeps<T>(s: State<T>)
    requires Inv(s)
    ensures Inv(Pop(s))
    ensures Pop(s).pushed == s.pushed && Pop(s).producer == s.producer
    ensures Pop(s).popped == (if s.consumer.Read? then s.popped + [s.consumer.item] else s.popped)
    ensures Pop(s).consumer == Popped(None) && !s.consumer.Popped? ==> Contents(s) == []
  {
    if s.consumer.Read? {
      assert s.pushed[..s.head + 1] == s.pushed[..s.head] + [s.pushed[s.head]];
    } else if s.consumer.NonEmpty? {
      assert s.slots[s.head % |s.slots|] == s.pushed[s.head];
    }
  }

  /**
   A push is refused, other than by shutdown, only at the reload of the head and only if the
   queue then holds exactly as many items as it has slots.
   */
  lemma RefusedOnlyWhenFull<T>(s: State<T>, item: T)
    requires Inv(s) && !s.producer.Returned? && Push(s, item).producer == Returned(false)
    ensures s.stopped || |Contents(s)| == |s.slots|
  {
  }

  // ---------- whole runs ----------

  datatype Action<T> = PushStep(item: T) | PopStep | TakePushed | TakePopped | Stop

  function Apply<T>(s: State<T>, a: Action<T>): (r: State<T>)
    requires |s.slots| > 0
    ensures |r.slots| == |s.slots|
  {
    match a
    case PushStep(x) => Push(s, x)
    case PopStep => Pop(s)
    case TakePushed => TakePush(s)
    case TakePopped => TakePop(s)
    case Stop => s.(stopped := true)
  }

  function Run<T>(slots: seq<T>, schedule: seq<Action<T>>): (s: State<T>)
    requires |slots| > 0
    ensures |s.slots| == |slots|
  {
    if schedule == [] then State(slots, 0, 0, 0, false, Idle, Resting, [], [])
    else Apply(Run(slots, schedule[..|schedule| - 1]), schedule[|schedule| - 1])
  }

  /**
   In every interleaving the stale shadow stays behind the head and within one lap of the
   tail, and what is popped is what was pushed, in order.
   */
  lemma {:induction false} RunInv<T>(slots: seq<T>, schedule: seq<Action<T>>)
    requires |slots| > 0
    ensures Inv(Run(slots, schedule))
  {
    if schedule != [] {
      var front, a := schedule[..|schedule| - 1], schedule[|schedule| - 1];
      RunInv(slots, front);
      match a {
        case PushStep(x) => PushKeeps(Run(slots, front), x);
        case PopStep => PopKeeps(Run(slots, front));
        case _ =>
      }
    }
  }

  lemma {:induction false} StoppedRun<T>(slots: seq<T>, before: seq<Action<T>>, after: seq<Action<T>>)
    requires |slots| > 0
    requires var s := Run(slots, before);
             s.stopped && InFlight(s.producer) == None
    ensures var s, r := Run(slots, before), Run(slots, before + after);
            r.stopped && InFlight(r.producer) == None && r.pushed == s.pushed
  {
    if after == [] {
      assert before + after == before;
    } else {
      var front := after[..|after| - 1];
      StoppedRun(slots, before, front);
      assert (before + after)[..|before + after| - 1] == before + front;
    }
  }

  /** A stop that comes while no push is under way lets nothing be pushed ever again. */
  lemma StoppedTakesNothing<T>(slots: seq<T>, before: seq<Action<T>>, after: seq<Action<T>>)
    requires |slots| > 0 && InFlight(Run(slots, before).producer) == None
    ensures Run(slots, before + [Stop] + after).pushed == Run(slots, before).pushed
  {
    assert (before + [Stop])[..|before|] == before;
    StoppedRun(slots, before + [Stop], after);
  }
}
