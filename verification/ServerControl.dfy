/**
 * What each message does to the control task's two maps, in every reachable state, and over whole runs: who is
 * removed stays removed, and no session that has ended is left behind.
 */
module ServerControl {
  import opened Bytes
  import opened RoutingTables
  import opened Server
  import opened ServerLifecycle
  import ServerShutdown

  // ----- One message -----

  /** Apart from one session the waiting sessions are the same. */
  ghost predicate SameWaitingBut(m: map<SessionId, Unauth>, n: map<SessionId, Unauth>, id: SessionId) {
    forall other: SessionId :: other != id ==> ServerLifecycle.Lookup(n, other) == ServerLifecycle.Lookup(m, other)
  }

  /** The control task has taken its first message and touched neither its maps nor the routing queue. */
  ghost predicate NothingElse(s: State, s': State) {
    s'.unauth == s.unauth && s'.table == s.table && s'.routing == s.routing
  }

  /** A single new message on the routing queue: the control task's table as it is now. */
  ghost predicate Published(s: State, s': State) {
    s'.routing == Queue(s.routing.msgs + [Update(s'.table)], false)
  }

  lemma RoutingIsOpen(s: State)
    requires ServerShutdown.Inv(s) && s.controlUp
    ensures !s.routing.closed && Consistent(s.table)
  {
    hide ServerShutdown.Pending, ServerShutdown.Stops, ServerShutdown.RoutingStops;
  }

  /** Removing a session: it is gone from both maps and every room, and an enrolled one is struck from the routing table. */
  lemma RemovalHandled(steps: seq<Step>, id: SessionId)
    requires Possible(steps) && |After(steps).tasks| <= TWO_32 && Enabled(After(steps), ControlNext)
    requires After(steps).control.msgs[0] == RemoveSession(id)
    ensures var s := After(steps);
            var s' := Next(s, ControlNext);
            && id !in s'.unauth && id !in s'.table.sessions && (forall room :: room in s'.table.rooms ==> id !in s'.table.rooms[room])
            && SameWaitingBut(s.unauth, s'.unauth, id) && SameBut(s.table, s'.table, id) && s'.table.rooms.Keys == s.table.rooms.Keys
            && (if id in s.table.sessions then Published(s, s') else s'.routing == s.routing)
            && s'.fault.NoFault? && s'.control == Queue(s.control.msgs[1..], s.control.closed)
  {
    hide Possible, After, Mine, Packets;
    var s := After(steps);
    LifecycleHolds(steps, id);
    ServerShutdown.ReachableInv(steps);
    RoutingIsOpen(s);
    hide ServerShutdown.Inv;
    RemovalStep(s, id);
  }

  lemma RemovalStep(s: State, id: SessionId)
    requires Enabled(s, ControlNext) && s.control.msgs[0] == RemoveSession(id)
    requires Consistent(s.table) && !s.routing.closed && !(id in s.unauth && id in s.table.sessions)
    ensures var s' := ControlStep(s);
            && id !in s'.unauth && id !in s'.table.sessions && (forall room :: room in s'.table.rooms ==> id !in s'.table.rooms[room])
            && SameWaitingBut(s.unauth, s'.unauth, id) && SameBut(s.table, s'.table, id) && s'.table.rooms.Keys == s.table.rooms.Keys
            && (if id in s.table.sessions then Published(s, s') else s'.routing == s.routing)
            && s'.fault.NoFault? && s'.control == Queue(s.control.msgs[1..], s.control.closed)
  {
    if id in s.table.sessions {
      ExpelExactly(s.table, id);
      assert s.table.sessions[id].room in s.table.rooms;
      hide Expel;
    }
    assert id !in s.table.sessions ==> forall room :: room in s.table.rooms ==> id !in s.table.rooms[room];
    hide Consistent;
  }

  /** A packet: a waiting session is enrolled by an Authenticate and dropped by anything else; from others it changes nothing. */
  lemma PacketHandled(steps: seq<Step>, id: SessionId, packet: ControlPacket)
    requires Possible(steps) && Enabled(After(steps), ControlNext) && After(steps).control.msgs[0] == Packet(id, packet)
    ensures var s := After(steps);
            var s' := Next(s, ControlNext);
            && s'.fault.NoFault? && s'.control == Queue(s.control.msgs[1..], s.control.closed)
            && (id in s.table.sessions || id !in s.unauth ==> NothingElse(s, s'))
            && (id !in s.table.sessions && id in s.unauth ==>
                  && id !in s'.unauth && SameWaitingBut(s.unauth, s'.unauth, id)
                  && (!packet.Authenticate? ==> s'.table == s.table && s'.routing == s.routing)
                  && (packet.Authenticate? ==>
                        && id in s'.table.sessions && OnlyIn(s'.table, id, 0) && s'.table.sessions[id].room == 0
                        && s'.table.sessions[id].version == s.unauth[id].version
                        && s'.table.sessions[id].sender == s.unauth[id].sender
                        && SameBut(s.table, s'.table, id) && Published(s, s')))
  {
    hide Possible, After;
    var s := After(steps);
    ServerShutdown.ReachableInv(steps);
    RoutingIsOpen(s);
    hide ServerShutdown.Inv;
    PacketStep(s, id, packet);
  }

  lemma PacketStep(s: State, id: SessionId, packet: ControlPacket)
    requires Enabled(s, ControlNext) && s.control.msgs[0] == Packet(id, packet) && Consistent(s.table) && !s.routing.closed
    ensures var s' := ControlStep(s);
            && s'.fault.NoFault? && s'.control == Queue(s.control.msgs[1..], s.control.closed)
            && (id in s.table.sessions || id !in s.unauth ==> NothingElse(s, s'))
            && (id !in s.table.sessions && id in s.unauth ==>
                  && id !in s'.unauth && SameWaitingBut(s.unauth, s'.unauth, id)
                  && (!packet.Authenticate? ==> s'.table == s.table && s'.routing == s.routing)
                  && (packet.Authenticate? ==>
                        && id in s'.table.sessions && OnlyIn(s'.table, id, 0) && s'.table.sessions[id].room == 0
                        && s'.table.sessions[id].version == s.unauth[id].version
                        && s'.table.sessions[id].sender == s.unauth[id].sender
                        && SameBut(s.table, s'.table, id) && Published(s, s')))
  {
    if id !in s.table.sessions && id in s.unauth {
      EnrollExactly(s.table, id, s.unauth[id].version, s.unauth[id].sender);
    }
    hide Consistent, Enroll, OnlyIn, SameBut;
  }

  /** A declaration puts the session among the waiting ones as it came; the stop message closes the queue and nothing else. */
  lemma OthersHandled(steps: seq<Step>)
    requires Possible(steps) && Enabled(After(steps), ControlNext)
    ensures var s := After(steps);
            var s', m := Next(s, ControlNext), s.control.msgs[0];
            && (m.AddSession? ==>
                  && m.id in s'.unauth && s'.unauth[m.id] == m.unauth && SameWaitingBut(s.unauth, s'.unauth, m.id)
                  && s'.table == s.table && s'.routing == s.routing && s'.control == Queue(s.control.msgs[1..], s.control.closed))
            && (m.StopControl? ==> NothingElse(s, s') && s'.control == Queue(s.control.msgs[1..], true))
  {
    hide Possible, After, HandlePacket, Expel;
  }

  /** What a session task sends about itself: its version and channel when it declares itself, its end when it leaves. */
  lemma SessionSends(s: State, i: SessionId, version: u32)
    requires i < |s.tasks| && s.fault.NoFault?
    ensures s.tasks[i].phase.Handshaking? ==>
              var s' := Next(s, Declare(i, version));
              && s'.routing == s.routing
              && (if s.control.closed then s'.control == s.control && s'.tasks[i].phase.Stopped?
                  else s'.control.msgs == s.control.msgs + [AddSession(i, Unauth(version, i))] && s'.tasks[i].phase.Active?)
    ensures s.tasks[i].phase.Active? ==>
              var s' := Next(s, Leave(i));
              && s'.routing == s.routing && s'.tasks[i].phase.Stopped?
              && s'.control.msgs == s.control.msgs + if s.control.closed then [] else [RemoveSession(i)]
  {
    SameId(i);
    assert s.control.msgs + [] == s.control.msgs;
  }

  // ----- No session that has ended is left behind -----

  predicate Adds(m: ControlMsg, id: SessionId) {
    m.AddSession? && m.id == id
  }

  ghost predicate NoneAdds(msgs: seq<ControlMsg>, id: SessionId) {
    forall k :: 0 <= k < |msgs| ==> !Adds(msgs[k], id)
  }

  ghost predicate RemovalQueued(msgs: seq<ControlMsg>, id: SessionId) {
    exists k :: 0 <= k < |msgs| && msgs[k] == RemoveSession(id)
  }

  /** A removal comes after everything the session declared. */
  ghost predicate RemovalLast(msgs: seq<ControlMsg>, id: SessionId) {
    forall j, k :: 0 <= j < k < |msgs| && msgs[j] == RemoveSession(id) ==> !Adds(msgs[k], id)
  }

  ghost predicate HasStopped(s: State, id: SessionId) {
    id < |s.tasks| && s.tasks[id].phase.Stopped?
  }

  ghost predicate HasDeclared(s: State, id: SessionId) {
    id < |s.tasks| && !s.tasks[id].phase.Handshaking?
  }

  /** Declarations come from the session itself. */
  ghost predicate OwnAdds(msgs: seq<ControlMsg>, id: SessionId) {
    forall k :: 0 <= k < |msgs| && Adds(msgs[k], id) ==> msgs[k].unauth.sender == id
  }

  ghost predicate Leaving(s: State, id: SessionId) {
    && (RemovalQueued(s.control.msgs, id) ==> HasStopped(s, id))
    && RemovalLast(s.control.msgs, id)
    && (!NoneAdds(s.control.msgs, id) ==> HasDeclared(s, id))
    && OwnAdds(s.control.msgs, id)
    && (HasStopped(s, id) && !s.control.closed ==>
          RemovalQueued(s.control.msgs, id) || (!Known(s, id) && NoneAdds(s.control.msgs, id)))
  }

  lemma QueuePush(msgs: seq<ControlMsg>, m: ControlMsg, id: SessionId)
    ensures NoneAdds(msgs + [m], id) <==> NoneAdds(msgs, id) && !Adds(m, id)
    ensures RemovalQueued(msgs + [m], id) <==> RemovalQueued(msgs, id) || m == RemoveSession(id)
    ensures RemovalLast(msgs, id) && (RemovalQueued(msgs, id) ==> !Adds(m, id)) ==> RemovalLast(msgs + [m], id)
    ensures OwnAdds(msgs, id) && (Adds(m, id) ==> m.unauth.sender == id) ==> OwnAdds(msgs + [m], id)
  {
    var all := msgs + [m];
    assert all[|msgs|] == m;
    assert forall k :: 0 <= k < |msgs| ==> all[k] == msgs[k];
  }

  lemma QueuePop(msgs: seq<ControlMsg>, id: SessionId)
    requires msgs != []
    ensures NoneAdds(msgs, id) <==> NoneAdds(msgs[1..], id) && !Adds(msgs[0], id)
    ensures RemovalQueued(msgs, id) <==> RemovalQueued(msgs[1..], id) || msgs[0] == RemoveSession(id)
    ensures RemovalLast(msgs, id) ==> RemovalLast(msgs[1..], id) && (msgs[0] == RemoveSession(id) ==> NoneAdds(msgs[1..], id))
    ensures OwnAdds(msgs, id) ==> OwnAdds(msgs[1..], id)
  {
    var rest := msgs[1..];
    assert forall k :: 0 <= k < |rest| ==> rest[k] == msgs[k + 1];
    assert forall k :: 0 < k < |msgs| ==> msgs[k] == rest[k - 1];
  }

  /** What can happen to the phase of one session in a step. */
  lemma PhaseMoves(s: State, step: Step, id: SessionId)
    requires Enabled(s, step)
    ensures HasStopped(s, id) ==> HasStopped(Next(s, step), id)
    ensures HasDeclared(s, id) ==> HasDeclared(Next(s, step), id)
    ensures HasStopped(Next(s, step), id) && !HasStopped(s, id) ==>
              id < |s.tasks| &&
              (step == FailHandshake(id) || step == Leave(id) || step == RunDry(id) || (step.Declare? && step.i == id && s.control.closed))
    ensures step.Declare? && step.i == id ==> HasDeclared(Next(s, step), id)
    ensures step == Leave(id) ==> HasStopped(Next(s, step), id)
  {
    hide Next, SenderAlive, AllStopped, Logged;
    if step.RoutingNext? {
      RoutingQuiet(s);
    } else {
      TasksAfterNext(s, step);
      if step.FromClient? {
        LoggedPhase(s, s.tasks[step.i], step.packet);
      }
    }
  }

  lemma LoggedPhase(s: State, task: Task, packet: Inbound)
    ensures Logged(s, task, packet).phase == task.phase
  {}

  /** A session whose senders are all gone is known nowhere. */
  lemma DryIsUnknown(s: State, id: SessionId)
    requires s.controlUp && !SenderAlive(s, id) && OwnAdds(s.control.msgs, id)
    requires id in s.unauth ==> s.unauth[id].sender == id
    requires id in s.table.sessions ==> s.table.sessions[id].sender == id
    ensures !Known(s, id) && NoneAdds(s.control.msgs, id)
  {
    assert !InControlQueue(s, id);
  }

  /** The lifecycle facts about one session that the steps below need. */
  ghost predicate Facts(s: State, id: SessionId) {
    && (Known(s, id) ==> HasDeclared(s, id))
    && (id in s.unauth ==> s.unauth[id].sender == id)
    && (id in s.table.sessions ==> s.table.sessions[id].sender == id)
    && !(id in s.unauth && id in s.table.sessions)
    && (!s.control.closed ==> s.controlUp) && Consistent(s.table)
  }

  lemma OutsideLeaving(s: State, step: Step, id: SessionId)
    requires |s.tasks| <= TWO_32 && Enabled(s, step) && !step.ControlNext? && !step.ControlDone?
    requires Leaving(s, id) && Facts(s, id)
    ensures Leaving(Next(s, step), id)
  {
    PhaseMoves(s, step, id);
    ControlFrame(s, step);
    Relevant(s, step, id);
    hide Next, Enabled, NoneAdds, RemovalQueued, RemovalLast, OwnAdds, SenderAlive;
    if step == RunDry(id) && !s.control.closed {
      DryIsUnknown(s, id);
    }
    if Sends(step).Some? {
      QueuePush(s.control.msgs, Sends(step).value, id);
    }
  }

  /** Which steps send something that declares or removes one session. */
  lemma Relevant(s: State, step: Step, id: SessionId)
    requires |s.tasks| <= TWO_32 && Enabled(s, step)
    ensures Sends(step).Some? && Adds(Sends(step).value, id) ==>
              step.Declare? && step.i == id && !HasDeclared(s, id) && !HasStopped(s, id) && Sends(step).value.unauth.sender == id
    ensures Sends(step) == Some(RemoveSession(id)) <==> step == Leave(id)
    ensures step == RunDry(id) ==> !SenderAlive(s, id)
    ensures step == FailHandshake(id) ==> !HasDeclared(s, id)
  {
    hide SenderAlive, AllStopped;
    if step.Declare? || step.Leave? {
      SameId(step.i);
    }
  }

  lemma ControlLeaving(s: State, id: SessionId)
    requires Enabled(s, ControlNext) && Leaving(s, id) && Facts(s, id)
    ensures Leaving(ControlStep(s), id)
  {
    var m := s.control.msgs[0];
    ServerShutdown.EffectConsistent(s.unauth, s.table, m);
    hide Consistent;
    QueuePop(s.control.msgs, id);
    ControlOnly(s);
    ControlStepFields(s);
    KnownAfter(s.unauth, s.table, m, id);
    ClosedAfter(s);
    hide ControlStep, HandleControl, NoneAdds, RemovalQueued, RemovalLast, OwnAdds, Enabled;
  }

  lemma ClosedAfter(s: State)
    requires s.control.msgs != []
    ensures s.control.closed ==> ControlStep(s).control.closed
  {
    hide HandleControl;
  }

  /** Only a declaration makes an unknown session known, and a removal makes any session unknown unless it was in both maps. */
  lemma KnownAfter(unauth: map<SessionId, Unauth>, table: Table, m: ControlMsg, id: SessionId)
    ensures var e := HandleControl(unauth, table, m);
            && (id in e.unauth || id in e.table.sessions ==> id in unauth || id in table.sessions || Adds(m, id))
            && (m == RemoveSession(id) && !(id in unauth && id in table.sessions) && !e.broken ==>
                  id !in e.unauth && id !in e.table.sessions)
  {}

  lemma DoneLeaving(s: State, id: SessionId)
    requires Enabled(s, ControlDone) && Leaving(s, id)
    ensures Leaving(Next(s, ControlDone), id)
  {
    hide NoControlSenders;
  }

  lemma ReachableFacts(steps: seq<Step>, id: SessionId)
    requires Possible(steps) && |After(steps).tasks| <= TWO_32
    ensures Facts(After(steps), id)
  {
    hide Possible, After, Consistent;
    LifecycleHolds(steps, id);
    ServerShutdown.ReachableInv(steps);
  }

  lemma {:induction false} ReachableLeaving(steps: seq<Step>, id: SessionId)
    requires Possible(steps) && |After(steps).tasks| <= TWO_32
    ensures Leaving(After(steps), id)
    decreases |steps|
  {
    if steps != [] {
      var front, step := steps[..|steps| - 1], steps[|steps| - 1];
      var s := After(front);
      TasksForward(s, step);
      hide Enabled, Leaving, Facts;
      ReachableLeaving(front, id);
      ReachableFacts(front, id);
      if step.ControlNext? {
        ControlLeaving(s, id);
      } else if step.ControlDone? {
        DoneLeaving(s, id);
      } else {
        OutsideLeaving(s, step, id);
      }
    }
  }

  /**
   * While the server runs, the control task knows of a session that has ended only as long as the message that removes
   * the session is still in its queue; so whenever the queue is empty, it knows of none.
   */
  lemma NoneLeftBehind(steps: seq<Step>, id: SessionId)
    requires Possible(steps) && |After(steps).tasks| <= TWO_32
    requires !After(steps).control.closed && Known(After(steps), id)
    ensures var s := After(steps);
            && id < |s.tasks|
            && (s.tasks[id].phase.Active? || (s.tasks[id].phase.Stopped? && RemoveSession(id) in s.control.msgs))
            && (s.control.msgs == [] ==> s.tasks[id].phase.Active?)
  {
    hide Possible, After, NoneAdds, RemovalLast, OwnAdds, Consistent, Known;
    ReachableLeaving(steps, id);
    ReachableFacts(steps, id);
  }

  /** Once the message that removes a session has been handled, the session is never known again. */
  lemma RemovedForGood(steps: seq<Step>, k: nat, id: SessionId)
    requires Possible(steps) && |After(steps).tasks| <= TWO_32 && k < |steps|
    requires Possible(steps[..k]) && Possible(steps[..k + 1])
    requires steps[k] == ControlNext && After(steps[..k]).control.msgs != [] && After(steps[..k]).control.msgs[0] == RemoveSession(id)
    ensures !Known(After(steps), id)
  {
    Prefixes(steps, k);
    Prefixes(steps, k + 1);
    assert steps[..k + 1][..k] == steps[..k];
    assert Enabled(After(steps[..k]), ControlNext) && After(steps[..k + 1]) == Next(After(steps[..k]), ControlNext);
    hide Possible, After, Next, Enabled;
    RemovalHandled(steps[..k], id);
    ReachableLeaving(steps[..k], id);
    RemovedIsPast(steps, k, id);
    PastFrom(steps, k + 1, id);
  }

  lemma RemovedIsPast(steps: seq<Step>, k: nat, id: SessionId)
    requires Possible(steps) && k < |steps| && Possible(steps[..k]) && Possible(steps[..k + 1])
    requires |After(steps[..k + 1]).tasks| <= TWO_32
    requires Enabled(After(steps[..k]), ControlNext) && After(steps[..k + 1]) == Next(After(steps[..k]), ControlNext)
    requires After(steps[..k]).control.msgs[0] == RemoveSession(id) && Leaving(After(steps[..k]), id)
    ensures Past(After(steps[..k + 1]), id)
  {
    var s, s' := After(steps[..k]), After(steps[..k + 1]);
    ReachableLifecycle(steps[..k + 1]);
    hide Possible, After;
    QueuePop(s.control.msgs, id);
    ControlOnly(s);
    PhaseMoves(s, ControlNext, id);
    assert Status(s', id);
    NotDeclared(s'.control.msgs, id);
    hide Next, Enabled, Mine, Packets;
  }

  lemma {:induction false} NotDeclared(msgs: seq<ControlMsg>, id: SessionId)
    requires NoneAdds(msgs, id)
    ensures NoAdds(Mine(msgs, id))
  {
    if msgs != [] {
      var k := |msgs| - 1;
      assert forall i :: 0 <= i < k ==> msgs[..k][i] == msgs[i];
      NotDeclared(msgs[..k], id);
      assert !Adds(msgs[k], id);
    }
  }
}
