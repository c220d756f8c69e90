/**
 Where the pipeline does not deliver every report whole and in its turn, and exactly when:
 fields read after their slot is released, reports overwritten after shutdown, and reports
 left behind by a publisher that ends before the core.
 */
module PipelineLosses {
  import opened Basics
  import opened Rings
  import opened Responses
  import opened Pipeline
  import Q = SpscQueue
  import EM = EngineModel

  // ---------- fields read after release ----------

  /** The price of an acceptance or rejection is that of the packet found in the slot when it is read. */
  lemma PriceIsFound(c: Config, schedule: seq<Action>)
    requires ValidConfig(c) && Run(c, schedule).core.pc.Freed?
    ensures var s := Run(c, schedule);
            var k := s.core.processed - 1;
            && 0 <= k < |s.inn.enqueued| <= k + |s.inn.slots| + 1
            && StepCore(s).core.pc == Priced(s.core.pc.kept, s.core.pc.outcome, Found(s.inn, k).price)
  {
    RunInv(c, schedule);
    FoundInSlot(Run(c, schedule).inn);
  }

  /** An outcome reported with fields read from the slot. */
  predicate Late(o: EM.Outcome) {
    o.Refused? || o.trades == []
  }

  /** What the second read makes of a released slot. */
  lemma SecondRead(i: Ingress, k: int, price: nat, kept: Kept, o: EM.Outcome)
    requires IngressOk(i) && k == i.read - 1 && PriceSeen(i, k, price)
    ensures var own, found := i.enqueued[k], Found(i, k);
            && i.slots[k % |i.slots|] == found
            && (price == own.price || (price == found.price && !Intact(i, k)))
            && (Intact(i, k) ==> found == own)
            && (!Intact(i, k) ==>
                  if k + |i.slots| < |i.enqueued| then found == i.enqueued[k + |i.slots|]
                  else i.writer == WStored(found, k + |i.slots|))
            && (Late(o) ==>
                  (Reports(kept, o, price, found.quantity) == Reports(kept, o, own.price, own.quantity) <==>
                   Intact(i, k) || (price == own.price && found.quantity == own.quantity)))
  {
    FoundInSlot(i);
    if Late(o) {
      assert Reports(kept, o, price, Found(i, k).quantity)[0].price == price;
      assert Reports(kept, o, price, Found(i, k).quantity)[0].quantity == Found(i, k).quantity;
      assert Reports(kept, o, i.enqueued[k].price, i.enqueued[k].quantity)[0].price == i.enqueued[k].price;
    }
  }

  lemma PricedFacts(c: Config, schedule: seq<Action>)
    requires ValidConfig(c) && Run(c, schedule).core.pc.Priced?
    ensures var s := Run(c, schedule);
            IngressOk(s.inn) && s.core.processed == s.inn.read && PriceSeen(s.inn, s.inn.read - 1, s.core.pc.price)
  {
    RunInv(c, schedule);
  }

  /**
   The quantity is that of the packet found when it is read in turn. The packet found is the
   one answered as long as the gateway has not reused the slot, and the packet one lap later
   once it has. So the report has both fields of its own packet, its own price with the later
   packet's quantity, or both fields of the later packet. It is wholly its own packet's if and
   only if the slot is intact at this second read, or the fields happen to be equal.
   */
  lemma ReportsTheFoundPacket(c: Config, schedule: seq<Action>)
    requires ValidConfig(c) && Run(c, schedule).core.pc.Priced?
    ensures var s := Run(c, schedule);
            var k := s.core.processed - 1;
            && 0 <= k < |s.inn.enqueued| <= k + |s.inn.slots| + 1
            && var own, found, pc := s.inn.enqueued[k], Found(s.inn, k), s.core.pc;
               var next := StepCore(s).core.pc;
               && next == Emitting(Reports(pc.kept, pc.outcome, pc.price, found.quantity), 0)
               && (pc.price == own.price || (pc.price == found.price && !Intact(s.inn, k)))
               && (Intact(s.inn, k) ==> found == own)
               && (!Intact(s.inn, k) ==>
                     if k + |s.inn.slots| < |s.inn.enqueued| then found == s.inn.enqueued[k + |s.inn.slots|]
                     else s.inn.writer == WStored(found, k + |s.inn.slots|))
               && (Late(pc.outcome) ==>
                     (next == Emitting(Reports(pc.kept, pc.outcome, own.price, own.quantity), 0) <==>
                      Intact(s.inn, k) || (pc.price == own.price && found.quantity == own.quantity)))
  {
    PricedFacts(c, schedule);
    var s := Run(c, schedule);
    SecondRead(s.inn, s.core.processed - 1, s.core.pc.price, s.core.pc.kept, s.core.pc.outcome);
  }

  // ---------- reports overwritten ----------

  /**
   In every run the reader's copy for ticket `r` finds the newest report stored in that slot,
   which is its own if and only if no more than a lap of reports has been stored since.
   */
  lemma CopyFindsTheNewest(c: Config, schedule: seq<Action>)
    requires ValidConfig(c) && Run(c, schedule).out.reader.RNonEmpty?
    ensures var s := Run(c, schedule);
            var r, m := s.out.reader.r, |s.out.slots|;
            var j := Newest(|Laid(s.out)|, r, m);
            && r == s.out.read == |s.out.copies| < s.out.write
            && r <= j < |Laid(s.out)| <= j + m && j % m == r % m && Laid(s.out) <= s.queue.pushed
            && StepReader(s.out).reader == RTaken(r, Laid(s.out)[j])
            && StepReader(s.out).copies == s.out.copies + [j]
            && (j == r <==> |Laid(s.out)| <= r + m)
  {
    RunInv(c, schedule);
    var s := Run(c, schedule);
    CopyKeeps(s.out);
    NewestTicket(|Laid(s.out)|, s.out.read, |s.out.slots|);
    LaidIsPopped(s.out, s.queue.consumer, s.queue.popped);
  }

  /** Report `k` is stored and not yet copied. */
  ghost predicate Uncopied(e: Egress, k: int) {
    |e.copies| <= k < |Laid(e)|
  }

  /**
   The step that overwrites a report still to be copied: exactly the publisher's store a full
   lap later, which happens only after shutdown, and only to the oldest report that is neither
   copied nor overwritten.
   */
  lemma OverwriteLosesTheOldest(s: State, a: Action, k: int, pool: nat)
    requires Inv(s, pool) && Uncopied(s.out, k) && InRing(s.out, k)
    ensures !InRing(Apply(s, a).out, k) <==>
            a == EgressPublisher && s.out.publisher.Storing? && s.out.write == k + |s.out.slots|
    ensures !InRing(Apply(s, a).out, k) ==> !s.active && forall i :: Uncopied(s.out, i) && InRing(s.out, i) ==> k <= i
  {
  }

  lemma StepGrows(s: State, a: Action, pool: nat)
    requires Inv(s, pool)
    ensures Laid(s.out) <= Laid(Apply(s, a).out) && s.out.copies <= Apply(s, a).out.copies
    ensures |Apply(s, a).out.slots| == |s.out.slots|
    ensures |Apply(s, a).out.copies| > |s.out.copies| ==>
              a == GatewayReader && s.out.reader.RNonEmpty? &&
              Apply(s, a).out.copies == s.out.copies + [Newest(|Laid(s.out)|, |s.out.copies|, |s.out.slots|)]
  {
  }

  lemma LastGrows(c: Config, front: seq<Action>, a: Action)
    requires ValidConfig(c)
    ensures var e, e' := Run(c, front).out, Run(c, front + [a]).out;
            && Laid(e) <= Laid(e') && |e'.slots| == |e.slots| && e.copies <= e'.copies
            && (e'.copies == e.copies || e'.copies == e.copies + [Newest(|Laid(e)|, |e.copies|, |e.slots|)])
            && (e'.copies != e.copies ==> |e.copies| < |Laid(e)|)
  {
    assert Front(front + [a]) == front;
    RunInv(c, front);
    StepGrows(Run(c, front), a, c.pool);
  }

  lemma {:induction false} RunGrows(c: Config, schedule: seq<Action>, n: nat)
    requires ValidConfig(c) && n <= |schedule|
    ensures |Run(c, schedule).out.slots| == |c.egress|
    ensures Laid(Run(c, schedule[..n]).out) <= Laid(Run(c, schedule).out)
  {
    if schedule == [] {
      assert schedule[..n] == schedule;
    } else {
      var front := Front(schedule);
      assert schedule == front + [Last(schedule)];
      LastGrows(c, front, Last(schedule));
      RunGrows(c, front, if n < |schedule| then n else 0);
      if n < |schedule| {
        assert front[..n] == schedule[..n];
      } else {
        assert schedule[..n] == schedule;
      }
    }
  }

  /** After the first `n` steps report `i` has been copied, or its slot has not been stored again. */
  ghost predicate Safe(c: Config, schedule: seq<Action>, i: nat, n: nat)
    requires ValidConfig(c) && n <= |schedule|
  {
    var e := Run(c, schedule[..n]).out;
    |e.copies| > i || |Laid(e)| <= i + |c.egress|
  }

  ghost predicate AlwaysSafe(c: Config, schedule: seq<Action>, i: nat)
    requires ValidConfig(c)
  {
    forall n :: 0 <= n <= |schedule| ==> Safe(c, schedule, i, n)
  }

  /** What is stored only grows, so until report `i` is copied the last moment decides. */
  lemma SafeSoFar(c: Config, schedule: seq<Action>, i: nat)
    requires ValidConfig(c) && i >= |Run(c, schedule).out.copies|
    ensures AlwaysSafe(c, schedule, i) <==> |Laid(Run(c, schedule).out)| <= i + |c.egress|
  {
    assert schedule[..|schedule|] == schedule;
    if |Laid(Run(c, schedule).out)| <= i + |c.egress| {
      forall n | 0 <= n <= |schedule|
        ensures Safe(c, schedule, i, n)
      {
        RunGrows(c, schedule, n);
      }
    } else {
      assert !Safe(c, schedule, i, |schedule|);
    }
  }

  /** Once it is copied nothing more can happen to it. */
  lemma SafeFront(c: Config, schedule: seq<Action>, i: nat)
    requires ValidConfig(c) && schedule != [] && i < |Run(c, schedule).out.copies|
    ensures AlwaysSafe(c, schedule, i) <==> AlwaysSafe(c, Front(schedule), i)
  {
    var front := Front(schedule);
    assert schedule[..|schedule|] == schedule;
    forall n | 0 <= n <= |front|
      ensures Safe(c, schedule, i, n) <==> Safe(c, front, i, n)
    {
      assert front[..n] == schedule[..n];
    }
  }

  /** The step that copies report `i`. */
  lemma CopyDecides(c: Config, front: seq<Action>, a: Action, i: nat)
    requires ValidConfig(c) && |Run(c, front).out.copies| <= i < |Run(c, front + [a]).out.copies|
    ensures Run(c, front + [a]).out.copies[i] == i <==> AlwaysSafe(c, front, i)
  {
    LastGrows(c, front, a);
    RunGrows(c, front, 0);
    NewestTicket(|Laid(Run(c, front).out)|, i, |c.egress|);
    SafeSoFar(c, front, i);
  }

  /**
   Over every run: the gateway's i-th copy is of the i-th report if and only if at no moment
   before that copy a report a full lap later was stored.
   */
  lemma {:induction false} LostExactlyWhenLapped(c: Config, schedule: seq<Action>, i: nat)
    requires ValidConfig(c) && i < |Run(c, schedule).out.copies|
    ensures Run(c, schedule).out.copies[i] == i <==> AlwaysSafe(c, schedule, i)
  {
    if schedule != [] {
      var front := Front(schedule);
      assert schedule == front + [Last(schedule)];
      SafeFront(c, schedule, i);
      if i < |Run(c, front).out.copies| {
        LostExactlyWhenLapped(c, front, i);
        LastGrows(c, front, Last(schedule));
      } else {
        CopyDecides(c, front, Last(schedule), i);
      }
    }
  }

  // ---------- reports left behind ----------

  /** The core has nothing left to push before it sees the inactive flag. */
  ghost predicate Finished(s: State) {
    match s.core.pc
    case Top => true
    case CoreExited => true
    case Loaded(w) => w == s.inn.read
    case Emitting(reports, i) => Pending(s.core.pc, s.queue.producer) == []
    case _ => false
  }

  /** The publisher has ended, the flag is down, and the core is past its load of the write index. */
  ghost predicate Deserted(s: State) {
    !s.active && s.out.publisher == PExited && s.core.pc != Running
  }

  /** What happens to a deserted core: it goes on, and is finished only after its reports are pushed. */
  ghost predicate GoesOn(s: State, r: State) {
    && Deserted(r) && r.queue.popped == s.queue.popped && |s.queue.pushed| <= |r.queue.pushed|
    && (Finished(s) ==> Finished(r) && |r.queue.pushed| == |s.queue.pushed|)
    && (!Finished(s) && Finished(r) ==> |r.queue.pushed| > |s.queue.pushed|)
  }

  lemma GoesOnAndOn(s: State, u: State, t: State)
    requires GoesOn(s, u) && GoesOn(u, t)
    ensures GoesOn(s, t)
  {
  }

  lemma DesertedEmitting(s: State, pool: nat)
    requires Inv(s, pool) && Deserted(s) && s.core.pc.Emitting?
    ensures GoesOn(s, StepCore(s))
  {
    if s.core.pc.next < |s.core.pc.reports| && !s.queue.producer.Returned? {
      Q.PushKeeps(s.queue, s.core.pc.reports[s.core.pc.next]);
    }
  }

  lemma DesertedCore(s: State)
    requires Sized(s) && Deserted(s) && !s.core.pc.Emitting? && s.queue.producer == Q.Idle
    ensures GoesOn(s, StepCore(s))
  {
  }

  /** The other threads change neither the core nor the queue. */
  lemma DesertedOther(s: State, a: Action)
    requires Sized(s) && Deserted(s) && a != MatchingCore
    ensures var r := Apply(s, a);
            r.core == s.core && r.queue == s.queue && r.inn.read == s.inn.read && Deserted(r)
  {
  }

  lemma DesertedStep(s: State, a: Action, pool: nat)
    requires Inv(s, pool) && Deserted(s)
    ensures GoesOn(s, Apply(s, a))
  {
    if a != MatchingCore {
      DesertedOther(s, a);
    } else if s.core.pc.Emitting? {
      DesertedEmitting(s, pool);
    } else {
      DesertedCore(s);
    }
  }

  lemma DesertedLast(c: Config, front: seq<Action>, a: Action)
    requires ValidConfig(c) && Deserted(Run(c, front))
    ensures GoesOn(Run(c, front), Run(c, front + [a]))
  {
    assert Front(front + [a]) == front;
    RunInv(c, front);
    DesertedStep(Run(c, front), a, c.pool);
  }

  lemma DesertedMore(c: Config, before: seq<Action>, mid: seq<Action>, a: Action)
    requires ValidConfig(c) && Deserted(Run(c, before)) && GoesOn(Run(c, before), Run(c, mid))
    ensures GoesOn(Run(c, before), Run(c, mid + [a]))
  {
    DesertedLast(c, mid, a);
    GoesOnAndOn(Run(c, before), Run(c, mid), Run(c, mid + [a]));
  }

  lemma {:induction false} DesertedRun(c: Config, before: seq<Action>, after: seq<Action>)
    requires ValidConfig(c) && Deserted(Run(c, before))
    ensures GoesOn(Run(c, before), Run(c, before + after))
  {
    if after == [] {
      assert before + after == before;
    } else {
      var mid := before + Front(after);
      assert before + after == mid + [Last(after)];
      DesertedRun(c, before, Front(after));
      DesertedMore(c, before, mid, Last(after));
    }
  }

  lemma QueueSizes(c: Config, schedule: seq<Action>)
    requires ValidConfig(c)
    ensures var q := Run(c, schedule).queue;
            |q.popped| <= |q.pushed|
  {
    RunInv(c, schedule);
  }

  /** A core that has ended has pushed everything it owes. */
  lemma EndedOwesNothing(c: Config, schedule: seq<Action>)
    requires ValidConfig(c) && Run(c, schedule).core.pc == CoreExited
    ensures var t := Run(c, schedule);
            && t.core.processed <= |t.inn.enqueued|
            && MaskAll(t.queue.pushed) == MaskAll(Answers(c.pool, t.inn.enqueued[..t.core.processed]))
  {
    RunInv(c, schedule);
    var t := Run(c, schedule);
    assert MaskAll(t.queue.pushed) + MaskAll([]) == MaskAll(t.queue.pushed);
  }

  /**
   A publisher that has ended leaves behind what the core pushes afterwards. When the core has
   ended too, nothing is left in the queue if and only if the core was finished, and the queue
   empty, at the time the publisher ended (or at the core's next load of the write index, if it
   was about to load it).
   */
  lemma LeftBehindExactly(c: Config, before: seq<Action>, after: seq<Action>)
    requires ValidConfig(c) && Deserted(Run(c, before)) && Run(c, before + after).core.pc == CoreExited
    ensures var s, t := Run(c, before), Run(c, before + after);
            && t.queue.popped == s.queue.popped && |s.queue.popped| <= |s.queue.pushed| <= |t.queue.pushed|
            && (Q.Contents(t.queue) == [] <==> Finished(s) && Q.Contents(s.queue) == [])
            && t.core.processed <= |t.inn.enqueued|
            && MaskAll(t.queue.pushed) == MaskAll(Answers(c.pool, t.inn.enqueued[..t.core.processed]))
  {
    QueueSizes(c, before);
    DesertedRun(c, before, after);
    EndedOwesNothing(c, before + after);
    assert Finished(Run(c, before + after));
  }
}
