/**
 What the gateway's handlers and distributor achieve: which traders a session records, what
 closing it removes, and to which sessions a report is sent.
 */
module SessionOperations {
  import opened Basics
  import opened SessionRegistry

  // ---------- recording ----------

  /** Step `k` of the schedule is a message of trader `t` that the handler of `sid` was ready to read. */
  ghost predicate ReadAt(schedule: seq<Action>, k: int, sid: nat, t: nat) {
    && 0 <= k < |schedule| && schedule[k] == Message(sid, t)
    && sid in Run(schedule[..k]).sessions && Run(schedule[..k]).sessions[sid].handler == Reading
  }

  /** In every run the sessions are those that have connected; a new one has recorded nothing and is ready to read. */
  lemma {:induction false} ConnectedExactly(schedule: seq<Action>, sid: nat)
    ensures sid in Run(schedule).sessions <==> Connect(sid) in schedule
    ensures sid !in Run(schedule).sessions ==>
              Run(schedule + [Connect(sid)]) ==
              Run(schedule).(sessions := Run(schedule).sessions[sid := Session({}, true, Reading)])
  {
    RunOn(schedule, Connect(sid));
    if schedule != [] {
      var front, a := schedule[..|schedule| - 1], schedule[|schedule| - 1];
      ConnectedExactly(front, sid);
      ConnectStep(Run(front), a, sid);
      assert schedule == front + [a];
    }
  }

  lemma ConnectStep(s: State, a: Action, sid: nat)
    ensures sid in Apply(s, a).sessions <==> sid in s.sessions || a == Connect(sid)
  {
    if a.Proceed? && a.sid in s.sessions { HandleRecords(s, a.sid, a.pick, sid); }
  }

  /** A handler's own steps record nothing. */
  lemma HandleRecords(s: State, sid: nat, pick: nat, x: nat)
    requires sid in s.sessions
    ensures x in Handle(s, sid, pick).sessions <==> x in s.sessions
    ensures x in s.sessions ==> Handle(s, sid, pick).sessions[x].traders == s.sessions[x].traders
  {
    var r := Handle(s, sid, pick);
    assert r.sessions == s.sessions || r.sessions == s.sessions[sid := r.sessions[sid]];
    assert r.sessions[sid].traders == s.sessions[sid].traders;
  }

  /** Which step records a trader; none forgets a session. */
  lemma RecordStep(s: State, a: Action, sid: nat, t: nat)
    ensures sid in s.sessions ==> sid in Apply(s, a).sessions
    ensures sid in Apply(s, a).sessions ==>
              (t in Apply(s, a).sessions[sid].traders <==>
                 (sid in s.sessions && t in s.sessions[sid].traders) ||
                 (a == Message(sid, t) && sid in s.sessions && s.sessions[sid].handler == Reading))
  {
    if a.Proceed? && a.sid in s.sessions { HandleRecords(s, a.sid, a.pick, sid); }
  }

  lemma {:induction false} SessionsStay(schedule: seq<Action>, k: nat, sid: nat)
    requires k <= |schedule| && sid in Run(schedule[..k]).sessions
    ensures sid in Run(schedule).sessions
  {
    if k == |schedule| {
      assert schedule[..k] == schedule;
    } else {
      var front := schedule[..|schedule| - 1];
      assert front[..k] == schedule[..k];
      SessionsStay(front, k, sid);
      RecordStep(Run(front), schedule[|schedule| - 1], sid, 0);
    }
  }

  lemma ReadAtFront(schedule: seq<Action>, k: int, sid: nat, t: nat)
    requires schedule != []
    ensures var front, n := schedule[..|schedule| - 1], |schedule| - 1;
            ReadAt(schedule, k, sid, t) <==>
            ReadAt(front, k, sid, t) ||
            (k == n && schedule[n] == Message(sid, t) && sid in Run(front).sessions &&
             Run(front).sessions[sid].handler == Reading)
  {
    var front, n := schedule[..|schedule| - 1], |schedule| - 1;
    if 0 <= k < n { assert front[..k] == schedule[..k]; }
  }

  /** In every run a session has recorded exactly the traders whose messages its handler read. */
  lemma {:induction false} RecordedExactly(schedule: seq<Action>, sid: nat, t: nat)
    requires sid in Run(schedule).sessions
    ensures t in Run(schedule).sessions[sid].traders <==> exists k :: ReadAt(schedule, k, sid, t)
  {
    if schedule != [] {
      var front, n := schedule[..|schedule| - 1], |schedule| - 1;
      RecordStep(Run(front), schedule[n], sid, t);
      if sid in Run(front).sessions {
        RecordedExactly(front, sid, t);
      } else {
        forall k | ReadAt(front, k, sid, t)
          ensures false
        {
          SessionsStay(front, k, sid);
        }
      }
      RecordedLast(schedule, sid, t);
    }
  }

  lemma RecordedLast(schedule: seq<Action>, sid: nat, t: nat)
    requires schedule != []
    ensures var front, n := schedule[..|schedule| - 1], |schedule| - 1;
            (exists k :: ReadAt(schedule, k, sid, t)) <==>
            (exists k :: ReadAt(front, k, sid, t)) ||
            (schedule[n] == Message(sid, t) && sid in Run(front).sessions && Run(front).sessions[sid].handler == Reading)
  {
    var front, n := schedule[..|schedule| - 1], |schedule| - 1;
    if exists k :: ReadAt(schedule, k, sid, t) {
      var k :| ReadAt(schedule, k, sid, t);
      ReadAtFront(schedule, k, sid, t);
    }
    if exists k :: ReadAt(front, k, sid, t) {
      var k :| ReadAt(front, k, sid, t);
      ReadAtFront(schedule, k, sid, t);
    }
    ReadAtFront(schedule, n, sid, t);
  }

  // ---------- closing ----------

  /** The handler deletes what is left, in whatever order. */
  lemma {:induction false} DeletesAll(front: seq<Action>, sid: nat, left: set<nat>) returns (schedule: seq<Action>)
    requires sid in Run(front).sessions && Run(front).sessions[sid].handler == Deleting(left)
    ensures var s, r := Run(front), Run(schedule);
            && r.registry == s.registry - left && r.lock == s.lock
            && r.sessions == s.sessions[sid := s.sessions[sid].(handler := Deleting({}))]
    decreases left
  {
    var s := Run(front);
    schedule := front;
    if left == {} {
      assert s.sessions[sid := s.sessions[sid].(handler := Deleting({}))] == s.sessions;
    } else {
      var t :| t in left;
      var a := Proceed(sid, t);
      RunOn(front, a);
      schedule := DeletesAll(front + [a], sid, left - {t});
      assert (s.registry - {t}) - (left - {t}) == s.registry - left;
      assert Run(front + [a]).sessions[sid := s.sessions[sid].(handler := Deleting({}))] ==
             s.sessions[sid := s.sessions[sid].(handler := Deleting({}))];
    }
  }

  lemma BeginClose(front: seq<Action>, sid: nat) returns (schedule: seq<Action>)
    requires var s := Run(front);
             sid in s.sessions && s.sessions[sid].handler == Reading && s.lock == Free
    ensures var s, r := Run(front), Run(schedule);
            && r.registry == s.registry && r.lock == WriteHeld(sid)
            && r.sessions == s.sessions[sid := s.sessions[sid].(handler := Deleting(s.sessions[sid].traders))]
  {
    RunOn(front, Disconnect(sid));
    schedule := front + [Disconnect(sid)] + [Proceed(sid, 0)];
    RunOn(front + [Disconnect(sid)], Proceed(sid, 0));
  }

  lemma FinishClose(front: seq<Action>, sid: nat) returns (schedule: seq<Action>)
    requires var s := Run(front);
             sid in s.sessions && s.sessions[sid].handler == Deleting({})
    ensures var s, r := Run(front), Run(schedule);
            && r.registry == s.registry && r.lock == Free
            && r.sessions == s.sessions[sid := Session(s.sessions[sid].traders, false, Gone)]
  {
    RunOn(front, Proceed(sid, 0));
    schedule := front + [Proceed(sid, 0)] + [Proceed(sid, 0)];
    RunOn(front + [Proceed(sid, 0)], Proceed(sid, 0));
  }

  /**
   A disconnect, with the lock free, lets the handler remove every trader its session has
   recorded, close the channel and release the lock; other sessions stay as they are.
   */
  lemma CloseRemovesItsTraders(front: seq<Action>, sid: nat) returns (schedule: seq<Action>)
    requires var s := Run(front);
             sid in s.sessions && s.sessions[sid].handler == Reading && s.lock == Free
    ensures var s, r := Run(front), Run(schedule);
            && r.registry == s.registry - s.sessions[sid].traders && r.lock == Free
            && r.sessions == s.sessions[sid := Session(s.sessions[sid].traders, false, Gone)]
  {
    var f := BeginClose(front, sid);
    f := DeletesAll(f, sid, Run(front).sessions[sid].traders);
    schedule := FinishClose(f, sid);
    assert Run(schedule).sessions == Run(front).sessions[sid := Run(schedule).sessions[sid]];
  }

  // ---------- sending ----------

  lemma SendStep(s: State, a: Action)
    requires Inv(s) && Apply(s, a).sent != s.sent
    ensures a == Distribute && (s.distributor.SendingToTaker? || s.distributor.SendingToMaker?)
    ensures var t := if s.distributor.SendingToTaker? then s.distributor.taker else s.distributor.maker;
            && t in s.registry && Apply(s, a).sent == s.sent + [Sending(t, s.registry[t])]
            && s.registry[t] in s.sessions && s.sessions[s.registry[t]].open && t in s.sessions[s.registry[t]].traders
  {
    if a.Proceed? || a.Connect? || a.Message? || a.Disconnect? {
      NotDistribute(s, a);
      assert false;
    }
    assert EntryOk(s, if s.distributor.SendingToTaker? then s.distributor.taker else s.distributor.maker);
  }

  /** In every run a send goes to the open session for which its trader is registered at that moment. */
  lemma SendsFollowTheRegistry(schedule: seq<Action>, a: Action)
    requires Run(schedule + [a]).sent != Run(schedule).sent
    ensures var s, r := Run(schedule), Run(schedule + [a]);
            && |r.sent| == |s.sent| + 1 && r.sent[..|s.sent|] == s.sent
            && var x := r.sent[|s.sent|];
               && x.trader in s.registry && s.registry[x.trader] == x.sid
               && x.sid in s.sessions && s.sessions[x.sid].open && x.trader in s.sessions[x.sid].traders
  {
    RunInv(schedule);
    RunOn(schedule, a);
    SendStep(Run(schedule), a);
  }

  ghost predicate Undistributed(schedule: seq<Action>) {
    forall i :: 0 <= i < |schedule| ==> !schedule[i].Report? && !schedule[i].Distribute?
  }

  /** The handlers leave the distributor alone, and under its read lock the registry too. */
  lemma NotDistribute(s: State, a: Action)
    requires Inv(s) && !a.Report? && !a.Distribute?
    ensures Apply(s, a).distributor == s.distributor && Apply(s, a).sent == s.sent
    ensures s.lock == ReadHeld ==> Apply(s, a).lock == ReadHeld && Apply(s, a).registry == s.registry
  {
    if a.Proceed? { assert SessionOk(s, a.sid); }
  }

  lemma {:induction false} DistributorWaits(before: seq<Action>, middle: seq<Action>)
    requires Undistributed(middle)
    ensures var s, r := Run(before), Run(before + middle);
            && r.distributor == s.distributor && r.sent == s.sent
            && (s.lock == ReadHeld ==> r.lock == ReadHeld && r.registry == s.registry)
  {
    if middle == [] {
      assert before + middle == before;
    } else {
      var front, a := middle[..|middle| - 1], middle[|middle| - 1];
      DistributorWaits(before, front);
      RunInv(before + front);
      NotDistribute(Run(before + front), a);
      RunOn(before + front, a);
      assert before + middle == before + front + [a];
    }
  }

  function SentFor(registry: map<nat, nat>, t: nat): seq<Sending> {
    if t in registry then [Sending(t, registry[t])] else []
  }

  /** What is still to be sent of the report at hand, by the registry as it is. */
  function Owed(s: State): seq<Sending> {
    match s.distributor
    case LookingUpTaker(t, m) => SentFor(s.registry, t) + SentFor(s.registry, m)
    case SendingToTaker(t, target, m) => [Sending(t, target)] + SentFor(s.registry, m)
    case LookingUpMaker(m) => SentFor(s.registry, m)
    case SendingToMaker(m, target) => [Sending(m, target)]
    case _ => []
  }

  /** How many steps of the distributor the report at hand takes at most. */
  function Rank(d: Distributor): nat {
    match d
    case LookingUpTaker(t, m) => 4
    case SendingToTaker(t, target, m) => 3
    case LookingUpMaker(m) => 2
    case SendingToMaker(m, target) => 1
    case _ => 0
  }

  lemma StepSends(s: State)
    requires !s.distributor.Dequeued?
    ensures var r := StepDistributor(s);
            && r.sent + Owed(r) == s.sent + Owed(s) && !r.distributor.Dequeued? && r.registry == s.registry
            && Rank(r.distributor) <= (if Rank(s.distributor) == 0 then 0 else Rank(s.distributor) - 1)
  {
    match s.distributor {
      case LookingUpTaker(t, m) =>
        if t !in s.registry { assert [] + SentFor(s.registry, m) == SentFor(s.registry, m); }
      case SendingToTaker(t, target, m) => Associates(s.sent, [Sending(t, target)], SentFor(s.registry, m));
      case SendingToMaker(m, target) => Associates(s.sent, [Sending(m, target)], []);
      case _ =>
    }
  }

  /** From `s` to `r` the distributor has sent part of what it owed. */
  ghost predicate Pays(s: State, r: State) {
    r.sent + Owed(r) == s.sent + Owed(s) && !r.distributor.Dequeued?
  }

  lemma NothingOwed(s: State)
    requires Rank(s.distributor) == 0
    ensures s.sent + Owed(s) == s.sent
  {
  }

  /** One step of the distributor after any steps of the handlers. */
  lemma NextDistribute(before: seq<Action>, middle: seq<Action>)
    requires Undistributed(middle) && !Run(before).distributor.Dequeued?
    ensures var s, r := Run(before), Run(before + middle + [Distribute]);
            && Pays(s, r)
            && Rank(r.distributor) <= (if Rank(s.distributor) == 0 then 0 else Rank(s.distributor) - 1)
  {
    RunInv(before);
    DistributorWaits(before, middle);
    RunOn(before + middle, Distribute);
    StepSends(Run(before + middle));
  }

  /** The distributor's steps, each after any steps of the handlers. */
  function Interleaved(middles: seq<seq<Action>>): seq<Action> {
    if middles == [] then [] else middles[0] + [Distribute] + Interleaved(middles[1..])
  }

  ghost predicate AllUndistributed(middles: seq<seq<Action>>) {
    forall i :: 0 <= i < |middles| ==> Undistributed(middles[i])
  }

  lemma {:induction false} OwedIsPaid(before: seq<Action>, middles: seq<seq<Action>>)
    requires AllUndistributed(middles) && !Run(before).distributor.Dequeued? && Rank(Run(before).distributor) <= |middles|
    ensures var s, r := Run(before), Run(before + Interleaved(middles));
            Pays(s, r) && Rank(r.distributor) == 0
    decreases |middles|
  {
    if middles == [] {
      assert before + Interleaved(middles) == before;
    } else {
      var next := before + middles[0] + [Distribute];
      assert before + Interleaved(middles) == next + Interleaved(middles[1..]);
      NextDistribute(before, middles[0]);
      OwedIsPaid(next, middles[1..]);
    }
  }

  /** An idle distributor takes a report and the lock. */
  lemma TakesReport(before: seq<Action>, t: nat, m: nat)
    requires Run(before).distributor == Waiting && Run(before).lock == Free
    ensures var s, r := Run(before), Run(before + [Report(t, m)] + [Distribute]);
            r == s.(distributor := LookingUpTaker(t, m), lock := ReadHeld)
  {
    RunOn(before, Report(t, m));
    RunOn(before + [Report(t, m)], Distribute);
  }

  lemma EndsReport(before: seq<Action>, last: seq<Action>)
    requires Rank(Run(before).distributor) == 0 && !Run(before).distributor.Dequeued? && Undistributed(last)
    ensures Run(before + last + [Distribute]).distributor == Waiting
  {
    DistributorWaits(before, last);
    RunOn(before + last, Distribute);
  }

  /**
   A report for taker `t` and maker `m`, taken by an idle distributor that finds the lock free,
   whatever the handlers do between its further steps: within four of them it is sent to the
   session registered for its taker and then to the one registered for its maker, as the
   registry said when it took the lock, and to no other; and the fifth ends it.
   */
  lemma ReportIsRouted(before: seq<Action>, t: nat, m: nat, middles: seq<seq<Action>>, last: seq<Action>)
    requires Run(before).distributor == Waiting && Run(before).lock == Free
    requires |middles| == 4 && AllUndistributed(middles) && Undistributed(last)
    ensures var s := Run(before);
            var r := Run(before + [Report(t, m)] + [Distribute] + Interleaved(middles));
            r.sent == s.sent + (SentFor(s.registry, t) + SentFor(s.registry, m))
    ensures Run(before + [Report(t, m)] + [Distribute] + Interleaved(middles) + last + [Distribute]).distributor == Waiting
  {
    var locked := before + [Report(t, m)] + [Distribute];
    TakesReport(before, t, m);
    OwedIsPaid(locked, middles);
    NothingOwed(Run(locked + Interleaved(middles)));
    EndsReport(locked + Interleaved(middles), last);
  }
}
