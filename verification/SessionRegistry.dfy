/**
 The gateway's registry of trader sessions: client handlers that register, rebind and close
 under a write lock, and the egress distributor that looks traders up and sends under a read
 lock. Any number of sessions are interleaved by a schedule.
 */
module SessionRegistry {
  /** Where a client handler stands. A handler holds the write lock in the last four. */
  datatype Handler =
    | Reading
    | WantsToRegister(trader: nat)
    | WantsToClose
    | Gone
    | Registering(trader: nat)
    | Registered
    | Deleting(left: set<nat>)
    | ChannelClosed

  /** `open` is the send channel; `traders` the handler's own set of traders seen. */
  datatype Session = Session(traders: set<nat>, open: bool, handler: Handler)

  datatype Lock = Free | WriteHeld(sid: nat) | ReadHeld

  /** Where the distributor stands with a report for a taker and a maker. */
  datatype Distributor =
    | Waiting
    | Dequeued(taker: nat, maker: nat)
    | LookingUpTaker(taker: nat, maker: nat)
    | SendingToTaker(taker: nat, target: nat, maker: nat)
    | LookingUpMaker(maker: nat)
    | SendingToMaker(maker: nat, target: nat)
    | Unlocking

  /** A report sent to session `sid` for trader `trader`. */
  datatype Sending = Sending(trader: nat, sid: nat)

  /**
   Histories: what was sent, whether a send hit a closed channel, and by whose closing a trader
   was last removed, if not registered since.
   */
  datatype State = State(
    registry: map<nat, nat>, sessions: map<nat, Session>, lock: Lock, distributor: Distributor,
    sent: seq<Sending>, panicked: bool, removedBy: map<nat, nat>)

  datatype Action =
    | Connect(sid: nat)
    | Message(sid: nat, trader: nat)
    | Disconnect(sid: nat)
    | Proceed(sid: nat, pick: nat)
    | Report(taker: nat, maker: nat)
    | Distribute

  function WithHandler(s: State, sid: nat, h: Handler): State
    requires sid in s.sessions
  {
    s.(sessions := s.sessions[sid := s.sessions[sid].(handler := h)])
  }

  /** The next step of a handler that is not waiting for input; `pick` is the map-iteration order. */
  function Handle(s: State, sid: nat, pick: nat): State
    requires sid in s.sessions
  {
    var me := s.sessions[sid];
    match me.handler
    case Reading => s
    case WantsToRegister(t) => if s.lock == Free then WithHandler(s, sid, Registering(t)).(lock := WriteHeld(sid)) else s
    case Registering(t) =>
      WithHandler(s, sid, Registered).(registry := s.registry[t := sid], removedBy := s.removedBy - {t})
    case Registered => WithHandler(s, sid, Reading).(lock := Free)
    case WantsToClose => if s.lock == Free then WithHandler(s, sid, Deleting(me.traders)).(lock := WriteHeld(sid)) else s
    case Deleting(left) =>
      if left == {} then
        s.(sessions := s.sessions[sid := me.(open := false, handler := ChannelClosed)])
      else if pick in left then
        WithHandler(s, sid, Deleting(left - {pick})).(
          registry := s.registry - {pick}, removedBy := s.removedBy[pick := sid])
      else s
    case ChannelClosed => WithHandler(s, sid, Gone).(lock := Free)
    case Gone => s
  }

  /** A send to a session's channel; on a closed channel it panics. */
  function Send(s: State, trader: nat, target: nat): State {
    s.(sent := s.sent + [Sending(trader, target)],
       panicked := s.panicked || (target in s.sessions && !s.sessions[target].open))
  }

  function StepDistributor(s: State): State {
    match s.distributor
    case Waiting => s
    case Dequeued(t, m) => if s.lock == Free then s.(lock := ReadHeld, distributor := LookingUpTaker(t, m)) else s
    case LookingUpTaker(t, m) =>
      s.(distributor := if t in s.registry then SendingToTaker(t, s.registry[t], m) else LookingUpMaker(m))
    case SendingToTaker(t, target, m) => Send(s, t, target).(distributor := LookingUpMaker(m))
    case LookingUpMaker(m) =>
      s.(distributor := if m in s.registry then SendingToMaker(m, s.registry[m]) else Unlocking)
    case SendingToMaker(m, target) => Send(s, m, target).(distributor := Unlocking)
    case Unlocking => s.(lock := Free, distributor := Waiting)
  }

  function Apply(s: State, a: Action): State {
    match a
    case Connect(sid) => if sid in s.sessions then s else s.(sessions := s.sessions[sid := Session({}, true, Reading)])
    case Message(sid, t) =>
      if sid in s.sessions && s.sessions[sid].handler == Reading && t !in s.sessions[sid].traders then
        s.(sessions := s.sessions[sid := Session(s.sessions[sid].traders + {t}, s.sessions[sid].open, WantsToRegister(t))])
      else s
    case Disconnect(sid) =>
      if sid in s.sessions && s.sessions[sid].handler == Reading then WithHandler(s, sid, WantsToClose) else s
    case Proceed(sid, pick) => if sid in s.sessions then Handle(s, sid, pick) else s
    case Report(t, m) => if s.distributor == Waiting then s.(distributor := Dequeued(t, m)) else s
    case Distribute => StepDistributor(s)
  }

  function Run(schedule: seq<Action>): State {
    if schedule == [] then State(map[], map[], Free, Waiting, [], false, map[])
    else Apply(Run(schedule[..|schedule| - 1]), schedule[|schedule| - 1])
  }

  // ---------- invariant ----------

  predicate HoldsLock(h: Handler) {
    h.Registering? || h.Registered? || h.Deleting? || h.ChannelClosed?
  }

  /** An entry points to an open session that recorded the trader and has not begun to remove it. */
  ghost predicate EntryOk(s: State, t: nat) {
    t in s.registry ==>
      && t !in s.removedBy && s.registry[t] in s.sessions
      && var it := s.sessions[s.registry[t]];
         t in it.traders && it.open && !it.handler.ChannelClosed? && !it.handler.Gone? && (it.handler.Deleting? ==> t in it.handler.left)
  }

  ghost predicate SessionOk(s: State, sid: nat) {
    sid in s.sessions ==>
      var me := s.sessions[sid];
      && (HoldsLock(me.handler) <==> s.lock == WriteHeld(sid))
      && (me.open <==> !me.handler.ChannelClosed? && !me.handler.Gone?)
      && (me.handler.WantsToRegister? ==> me.handler.trader in me.traders)
      && (me.handler.Registering? ==> me.handler.trader in me.traders)
      && (me.handler.Deleting? ==> me.handler.left <= me.traders)
  }

  ghost predicate DistributorOk(s: State) {
    match s.distributor
    case Waiting => s.lock != ReadHeld
    case Dequeued(t, m) => s.lock != ReadHeld
    case SendingToTaker(t, target, m) => s.lock == ReadHeld && t in s.registry && s.registry[t] == target
    case SendingToMaker(m, target) => s.lock == ReadHeld && m in s.registry && s.registry[m] == target
    case _ => s.lock == ReadHeld
  }

  /** The handler of `sid` has finished registering trader `t` and has not begun to close. */
  ghost predicate Bound(s: State, sid: nat, t: nat) {
    && sid in s.sessions && t in s.sessions[sid].traders && !s.sessions[sid].handler.Gone?
    && !s.sessions[sid].handler.ChannelClosed? && !s.sessions[sid].handler.Deleting?
    && s.sessions[sid].handler != WantsToRegister(t) && s.sessions[sid].handler != Registering(t)
  }

  /** A trader bound to some session is in the registry, or was removed by the closing of another session that recorded it. */
  ghost predicate BindingOk(s: State, sid: nat, t: nat) {
    Bound(s, sid, t) ==>
      t in s.registry ||
      (t in s.removedBy && s.removedBy[t] != sid && s.removedBy[t] in s.sessions &&
       t in s.sessions[s.removedBy[t]].traders && (s.sessions[s.removedBy[t]].handler.Deleting? || !s.sessions[s.removedBy[t]].open))
  }

  ghost predicate Inv(s: State) {
    && (forall t: nat {:trigger EntryOk(s, t)} :: EntryOk(s, t))
    && (forall sid: nat {:trigger SessionOk(s, sid)} :: SessionOk(s, sid))
    && (forall sid: nat, t: nat {:trigger BindingOk(s, sid, t)} :: BindingOk(s, sid, t))
    && (s.lock.WriteHeld? ==> s.lock.sid in s.sessions)
    && DistributorOk(s) && !s.panicked
  }

  lemma HandleKeepsEntries(s: State, sid: nat, pick: nat, t: nat)
    requires Inv(s) && sid in s.sessions
    ensures EntryOk(Handle(s, sid, pick), t)
  {
    assert SessionOk(s, sid) && EntryOk(s, t);
  }

  lemma HandleKeepsSessions(s: State, sid: nat, pick: nat, x: nat)
    requires Inv(s) && sid in s.sessions
    ensures SessionOk(Handle(s, sid, pick), x)
  {
    assert SessionOk(s, sid) && SessionOk(s, x);
  }

  lemma HandleKeepsBindings(s: State, sid: nat, pick: nat, x: nat, t: nat)
    requires Inv(s) && sid in s.sessions
    ensures BindingOk(Handle(s, sid, pick), x, t)
  {
    assert BindingOk(s, x, t) && EntryOk(s, t) && SessionOk(s, x) && SessionOk(s, sid);
  }

  lemma HandleKeeps(s: State, sid: nat, pick: nat)
    requires Inv(s) && sid in s.sessions
    ensures Inv(Handle(s, sid, pick))
  {
    var r := Handle(s, sid, pick);
    forall t: nat
      ensures EntryOk(r, t)
    {
      HandleKeepsEntries(s, sid, pick, t);
    }
    forall x: nat
      ensures SessionOk(r, x)
    {
      HandleKeepsSessions(s, sid, pick, x);
    }
    forall x: nat, t: nat
      ensures BindingOk(r, x, t)
    {
      HandleKeepsBindings(s, sid, pick, x, t);
    }
    assert SessionOk(s, sid);
  }

  lemma InputKeepsBindings(s: State, a: Action, x: nat, t: nat)
    requires Inv(s) && (a.Connect? || a.Message? || a.Disconnect?)
    ensures BindingOk(Apply(s, a), x, t)
  {
    assert BindingOk(s, x, t) && SessionOk(s, x);
    if Bound(s, x, t) && t !in s.registry {
      assert SessionOk(s, s.removedBy[t]);
    }
  }

  lemma InputKeepsSessions(s: State, a: Action, x: nat)
    requires Inv(s) && (a.Connect? || a.Message? || a.Disconnect?)
    ensures EntryOk(Apply(s, a), x) && SessionOk(Apply(s, a), x)
  {
    assert EntryOk(s, x) && SessionOk(s, x);
  }

  /** Connections, messages and disconnections leave the registry alone. */
  lemma InputKeeps(s: State, a: Action)
    requires Inv(s) && (a.Connect? || a.Message? || a.Disconnect?)
    ensures Inv(Apply(s, a))
  {
    var r := Apply(s, a);
    forall x: nat
      ensures EntryOk(r, x) && SessionOk(r, x)
    {
      InputKeepsSessions(s, a, x);
    }
    forall x: nat, t: nat
      ensures BindingOk(r, x, t)
    {
      InputKeepsBindings(s, a, x, t);
    }
  }

  /** What no step of the distributor changes. */
  lemma SameRegistry(s: State, r: State)
    requires Inv(s) && r == s.(lock := r.lock, distributor := r.distributor, sent := r.sent)
    requires s.lock.WriteHeld? || r.lock.WriteHeld? ==> r.lock == s.lock
    requires DistributorOk(r)
    ensures Inv(r)
  {
    forall x: nat
      ensures EntryOk(r, x) && SessionOk(r, x)
    {
      assert EntryOk(s, x) && SessionOk(s, x);
    }
    forall x: nat, t: nat
      ensures BindingOk(r, x, t)
    {
      assert BindingOk(s, x, t);
    }
  }

  /** The distributor changes nothing but the lock and itself, and sends only to open channels. */
  lemma DistributeKeeps(s: State, a: Action)
    requires Inv(s) && (a.Report? || a.Distribute?)
    ensures Inv(Apply(s, a))
  {
    if a.Distribute? && s.distributor.SendingToTaker? {
      assert EntryOk(s, s.distributor.taker);
    } else if a.Distribute? && s.distributor.SendingToMaker? {
      assert EntryOk(s, s.distributor.maker);
    }
    SameRegistry(s, Apply(s, a));
  }

  lemma {:induction false} RunInv(schedule: seq<Action>)
    ensures Inv(Run(schedule))
  {
    if schedule != [] {
      var front, a := schedule[..|schedule| - 1], schedule[|schedule| - 1];
      RunInv(front);
      if a.Report? || a.Distribute? {
        DistributeKeeps(Run(front), a);
      } else if !a.Proceed? {
        InputKeeps(Run(front), a);
      } else if a.sid in Run(front).sessions {
        HandleKeeps(Run(front), a.sid, a.pick);
      }
    }
  }

  // ---------- what the invariant means ----------

  /**
   Under every interleaving each registry entry points to an open session that recorded that
   trader, and the distributor never sends on a closed channel.
   */
  lemma RegistryIsLive(schedule: seq<Action>)
    ensures var s := Run(schedule);
            && !s.panicked
            && forall t :: t in s.registry ==>
                 s.registry[t] in s.sessions && s.sessions[s.registry[t]].open && t in s.sessions[s.registry[t]].traders
  {
    RunInv(schedule);
    forall t | t in Run(schedule).registry
      ensures var s := Run(schedule);
              s.registry[t] in s.sessions && s.sessions[s.registry[t]].open && t in s.sessions[s.registry[t]].traders
    {
      assert EntryOk(Run(schedule), t);
    }
  }

  /** Session `x` has begun to remove its traders, or has finished. */
  ghost predicate Closes(s: State, x: nat) {
    x in s.sessions && (s.sessions[x].handler.Deleting? || !s.sessions[x].open)
  }

  /** What last happened to a trader in the registry, and by which session's handler. */
  datatype Touch = Untouched | Put(sid: nat) | Removed(sid: nat)

  /** Step `a` registers trader `t`, or deletes it, or does neither. */
  function TouchOf(s: State, a: Action, t: nat): Touch {
    if !a.Proceed? || a.sid !in s.sessions then Untouched
    else
      var h := s.sessions[a.sid].handler;
      if h == Registering(t) then Put(a.sid)
      else if h.Deleting? && a.pick == t && t in h.left then Removed(a.sid)
      else Untouched
  }

  /** The last registration or deletion of trader `t` in a run. */
  function LastTouch(schedule: seq<Action>, t: nat): Touch {
    if schedule == [] then Untouched
    else
      var front, a := schedule[..|schedule| - 1], schedule[|schedule| - 1];
      var now := TouchOf(Run(front), a, t);
      if now == Untouched then LastTouch(front, t) else now
  }

  /** The registry and the record of removals, trader by trader, are what the last touch says. */
  ghost predicate Tells(s: State, touch: Touch, t: nat) {
    match touch
    case Untouched => t !in s.registry && t !in s.removedBy
    case Put(x) => t in s.registry && s.registry[t] == x && t !in s.removedBy
    case Removed(x) => t !in s.registry && t in s.removedBy && s.removedBy[t] == x
  }

  lemma TouchStep(s: State, a: Action, touch: Touch, t: nat)
    requires Tells(s, touch, t)
    ensures var now := TouchOf(s, a, t);
            Tells(Apply(s, a), if now == Untouched then touch else now, t)
  {
  }

  /** In every run a trader is in the registry if and only if its last touch is a registration, and for that session. */
  lemma {:induction false} RegistryIsTheLastTouch(schedule: seq<Action>, t: nat)
    ensures Tells(Run(schedule), LastTouch(schedule, t), t)
  {
    if schedule != [] {
      var front := schedule[..|schedule| - 1];
      RegistryIsTheLastTouch(front, t);
      TouchStep(Run(front), schedule[|schedule| - 1], LastTouch(front, t), t);
    }
  }

  /**
   A trader bound to an open session is missing from the registry if and only if the last
   registration or deletion of it in the run is a deletion; and then by another session, which
   recorded it too and closes or has closed.
   */
  lemma MissingExactlyWhenRemoved(schedule: seq<Action>, sid: nat, t: nat)
    requires Bound(Run(schedule), sid, t)
    ensures var s, last := Run(schedule), LastTouch(schedule, t);
            && (t !in s.registry <==> last.Removed?)
            && (t !in s.registry ==> last.sid != sid && Closes(s, last.sid) && t in s.sessions[last.sid].traders)
            && (t in s.registry ==> last == Put(s.registry[t]))
  {
    RunInv(schedule);
    RegistryIsTheLastTouch(schedule, t);
    assert BindingOk(Run(schedule), sid, t) && EntryOk(Run(schedule), t);
  }

  /** So it is there as long as no other session that recorded it closes or has closed. */
  lemma PresentWhileNoOtherCloses(schedule: seq<Action>, sid: nat, t: nat)
    requires Bound(Run(schedule), sid, t)
    requires forall x :: x in Run(schedule).sessions && x != sid && t in Run(schedule).sessions[x].traders ==>
               !Closes(Run(schedule), x)
    ensures t in Run(schedule).registry
  {
    if t !in Run(schedule).registry {
      MissingExactlyWhenRemoved(schedule, sid, t);
      assert false;
    }
  }

  /** The step that takes a bound trader out: exactly the deletion of that trader by a closing handler. */
  lemma LostExactlyByDeletion(s: State, a: Action, sid: nat, t: nat)
    requires Bound(s, sid, t) && t in s.registry
    ensures t !in Apply(s, a).registry <==>
            a.Proceed? && a.sid in s.sessions && s.sessions[a.sid].handler.Deleting? && a.pick == t &&
            t in s.sessions[a.sid].handler.left
  {
  }

  lemma RunOn(front: seq<Action>, a: Action)
    ensures Run(front + [a]) == Apply(Run(front), a)
  {
    assert (front + [a])[..|front|] == front;
  }

  /**
   A message of a trader the session has not recorded, whatever it has recorded before, records
   it; with the lock free, three steps of the handler then register it for the session.
   */
  lemma MessageRegisters(front: seq<Action>, sid: nat, t: nat)
    requires var s := Run(front);
             sid in s.sessions && s.sessions[sid].handler == Reading && t !in s.sessions[sid].traders && s.lock == Free
    ensures var s, me, p := Run(front), Run(front).sessions[sid], Proceed(sid, t);
            var told, r := Run(front + [Message(sid, t)]), Run(front + [Message(sid, t)] + [p] + [p] + [p]);
            && told == s.(sessions := s.sessions[sid := Session(me.traders + {t}, me.open, WantsToRegister(t))])
            && r.lock == Free && r.registry == s.registry[t := sid]
            && r.sessions == s.sessions[sid := Session(me.traders + {t}, me.open, Reading)]
  {
    var s := Run(front);
    var me, m, p := s.sessions[sid], Message(sid, t), Proceed(sid, t);
    RunOn(front, m);
    var s1 := s.(sessions := s.sessions[sid := Session(me.traders + {t}, me.open, WantsToRegister(t))]);
    RunOn(front + [m], p);
    HandlerSteps(s1, sid, t);
    RunOn(front + [m] + [p], p);
    RunOn(front + [m] + [p] + [p], p);
    assert s1.sessions[sid := Session(me.traders + {t}, me.open, Reading)] ==
           s.sessions[sid := Session(me.traders + {t}, me.open, Reading)];
  }

  /** The three steps of a handler that registers. */
  lemma HandlerSteps(s: State, sid: nat, t: nat)
    requires sid in s.sessions && s.sessions[sid].handler == WantsToRegister(t) && s.lock == Free
    ensures var p := Proceed(sid, t);
            Apply(Apply(Apply(s, p), p), p) ==
            WithHandler(s, sid, Reading).(registry := s.registry[t := sid], removedBy := s.removedBy - {t})
  {
    var me := s.sessions[sid];
    assert s.sessions[sid := me.(handler := Registering(t))][sid := me.(handler := Registered)][sid := me.(handler := Reading)]
           == s.sessions[sid := me.(handler := Reading)];
  }

  /** Closing a session whose only trader has been rebound to another one removes the other's entry. */
  lemma CloseUnbinds(front: seq<Action>, a: nat, b: nat, t: nat) returns (schedule: seq<Action>)
    requires a != b
    requires var s := Run(front);
             && a in s.sessions && b in s.sessions && s.lock == Free && t in s.registry
             && s.sessions[a] == Session({t}, true, Reading) && s.sessions[b] == Session({t}, true, Reading)
    ensures Bound(Run(schedule), b, t) && t !in Run(schedule).registry
  {
    var d, p := Disconnect(a), Proceed(a, t);
    RunOn(front, d);
    RunOn(front + [d], p);
    RunOn(front + [d] + [p], p);
    schedule := front + [d] + [p] + [p];
    var s1 := Run(front + [d]);
    assert s1.sessions[a] == Session({t}, true, WantsToClose) && s1.lock == Free;
    var s2 := Run(front + [d] + [p]);
    assert s2.sessions[a] == Session({t}, true, Deleting({t})) && t in s2.registry;
  }

  /** So an open session may find its trader unreachable: two sessions name one trader, and the first closes. */
  lemma RebindingLosesTheTrader(a: nat, b: nat, t: nat) returns (schedule: seq<Action>)
    requires a != b
    ensures Bound(Run(schedule), b, t) && t !in Run(schedule).registry
  {
    RunOn([], Connect(a));
    RunOn([] + [Connect(a)], Connect(b));
    var f := [] + [Connect(a)] + [Connect(b)];
    var s := Run(f);
    assert s.sessions[a] == s.sessions[b] == Session({}, true, Reading) && s.lock == Free;
    MessageRegisters(f, a, t);
    f := f + [Message(a, t)] + [Proceed(a, t)] + [Proceed(a, t)] + [Proceed(a, t)];
    MessageRegisters(f, b, t);
    f := f + [Message(b, t)] + [Proceed(b, t)] + [Proceed(b, t)] + [Proceed(b, t)];
    assert {} + {t} == {t};
    schedule := CloseUnbinds(f, a, b, t);
  }
}
