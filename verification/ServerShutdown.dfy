/** The shutdown protocol, the publication of table snapshots, and why no expectation of the source ever fails. */
module ServerShutdown {
  import opened RoutingTables
  import opened Server

  // ----- Who may close what, and when -----

  function Stops(msgs: seq<ControlMsg>): nat {
    if msgs == [] then 0 else Stops(msgs[..|msgs| - 1]) + (if msgs[|msgs| - 1].StopControl? then 1 else 0)
  }

  function RoutingStops(msgs: seq<RoutingMsg>): nat {
    if msgs == [] then 0 else RoutingStops(msgs[..|msgs| - 1]) + (if msgs[|msgs| - 1].StopRouting? then 1 else 0)
  }

  lemma StopsPush(msgs: seq<ControlMsg>, m: ControlMsg)
    ensures Stops(msgs + [m]) == Stops(msgs) + (if m.StopControl? then 1 else 0)
  {
    assert (msgs + [m])[..|msgs|] == msgs;
  }

  lemma {:induction false} StopsPop(msgs: seq<ControlMsg>)
    requires msgs != []
    ensures Stops(msgs) == (if msgs[0].StopControl? then 1 else 0) + Stops(msgs[1..])
  {
    if |msgs| == 1 {
      assert msgs[..0] == [] && msgs[1..] == [];
    } else {
      var k := |msgs| - 1;
      StopsPop(msgs[..k]);
      assert msgs[1..][..k - 1] == msgs[..k][1..];
    }
  }

  lemma RoutingStopsPush(msgs: seq<RoutingMsg>, m: RoutingMsg)
    ensures RoutingStops(msgs + [m]) == RoutingStops(msgs) + (if m.StopRouting? then 1 else 0)
  {
    assert (msgs + [m])[..|msgs|] == msgs;
  }

  lemma {:induction false} RoutingStopsPop(msgs: seq<RoutingMsg>)
    requires msgs != []
    ensures RoutingStops(msgs) == (if msgs[0].StopRouting? then 1 else 0) + RoutingStops(msgs[1..])
  {
    if |msgs| == 1 {
      assert msgs[..0] == [] && msgs[1..] == [];
    } else {
      var k := |msgs| - 1;
      RoutingStopsPop(msgs[..k]);
      assert msgs[1..][..k - 1] == msgs[..k][1..];
    }
  }

  /**
   * The control queue is closed only by the single stop message of the accept task, the routing queue only by
   * the single stop message the control task sends when it has drained.
   */
  ghost predicate ShutdownInv(s: State) {
    && Stops(s.control.msgs) == (if s.accept.Listening? || s.control.closed then 0 else 1)
    && (s.control.closed ==> !s.accept.Listening?)
    && (!s.controlUp ==> s.control.closed && s.control.msgs == [])
    && RoutingStops(s.routing.msgs) == (if s.controlUp || s.routing.closed then 0 else 1)
    && (s.routing.closed ==> !s.controlUp)
    && (!s.routingUp ==> s.routing.closed && s.routing.msgs == [])
  }

  // ----- Snapshots -----

  /** The table the routing task will have once it has taken in all pending updates. */
  function Pending(msgs: seq<RoutingMsg>, current: Table): Table {
    if msgs == [] then current
    else if msgs[|msgs| - 1].Update? then msgs[|msgs| - 1].table
    else Pending(msgs[..|msgs| - 1], current)
  }

  lemma PendingPush(msgs: seq<RoutingMsg>, current: Table, m: RoutingMsg)
    ensures Pending(msgs + [m], current) == if m.Update? then m.table else Pending(msgs, current)
  {
    assert (msgs + [m])[..|msgs|] == msgs;
  }

  lemma {:induction false} PendingPop(msgs: seq<RoutingMsg>, current: Table)
    requires msgs != []
    ensures Pending(msgs, current) == Pending(msgs[1..], if msgs[0].Update? then msgs[0].table else current)
  {
    if |msgs| > 1 {
      var k := |msgs| - 1;
      PendingPop(msgs[..k], current);
      assert msgs[1..][..k - 1] == msgs[..k][1..];
    } else {
      assert msgs[..0] == [] && msgs[1..] == [];
    }
  }

  ghost predicate UpdatesConsistent(msgs: seq<RoutingMsg>) {
    forall k :: 0 <= k < |msgs| && msgs[k].Update? ==> Consistent(msgs[k].table)
  }

  /** The routing task lags the control task by exactly the updates in its queue, and every snapshot is consistent. */
  ghost predicate SnapshotInv(s: State) {
    && Pending(s.routing.msgs, s.snapshot) == s.table
    && Consistent(s.table)
    && Consistent(s.snapshot)
    && UpdatesConsistent(s.routing.msgs)
  }

  ghost predicate Inv(s: State) {
    ShutdownInv(s) && SnapshotInv(s) && s.fault != ExpectFailed
  }

  // ----- Preservation -----

  lemma PushRouting(s: State, m: RoutingMsg)
    requires Inv(s) && !m.Update? && !m.StopRouting?
    ensures Inv(s.(routing := s.routing.Push(m)))
  {
    hide Consistent;
    RoutingStopsPush(s.routing.msgs, m);
    PendingPush(s.routing.msgs, s.snapshot, m);
  }

  lemma PushControl(s: State, m: ControlMsg)
    requires Inv(s) && !m.StopControl?
    ensures Inv(s.(control := s.control.Push(m)))
  {
    hide Consistent, Pending, RoutingStops;
    StopsPush(s.control.msgs, m);
  }

  /** Invariants speak of queues and tables, never of the session tasks. */
  lemma TasksDoNotMatter(s: State, tasks: seq<Task>)
    requires Inv(s)
    ensures Inv(s.(tasks := tasks))
  {
    hide Consistent, Pending, Stops, RoutingStops;
  }

  lemma EffectConsistent(unauth: map<SessionId, Unauth>, table: Table, msg: ControlMsg)
    requires Consistent(table)
    ensures var e := HandleControl(unauth, table, msg);
            Consistent(e.table) && !e.broken && (!e.publish ==> e.table == table) && (e.close <==> msg.StopControl?)
  {
    match msg
    case Packet(id, p) =>
      if id !in table.sessions && id in unauth {
        EnrollConsistent(table, id, unauth[id].version, unauth[id].sender);
      }
    case RemoveSession(id) =>
      if id !in unauth && id in table.sessions {
        ExpelConsistent(table, id);
      }
    case _ =>
  }

  lemma ControlStepInv(s: State)
    requires Inv(s) && Enabled(s, ControlNext)
    ensures Inv(ControlStep(s))
  {
    hide Consistent, HandleControl;
    EffectConsistent(s.unauth, s.table, s.control.msgs[0]);
    StopsPop(s.control.msgs);
    var e := HandleControl(s.unauth, s.table, s.control.msgs[0]);
    RoutingStopsPush(s.routing.msgs, Update(e.table));
    PendingPush(s.routing.msgs, s.snapshot, Update(e.table));
  }

  lemma ControlDoneInv(s: State)
    requires Inv(s) && Enabled(s, ControlDone)
    ensures Inv(Next(s, ControlDone))
  {
    hide Consistent;
    RoutingStopsPush(s.routing.msgs, StopRouting);
    PendingPush(s.routing.msgs, s.snapshot, StopRouting);
  }

  lemma RoutingStepInv(s: State)
    requires Inv(s) && Enabled(s, RoutingNext)
    ensures Inv(Next(s, RoutingNext))
  {
    var m := s.routing.msgs[0];
    RoutingStopsPop(s.routing.msgs);
    PendingPop(s.routing.msgs, s.snapshot);
    assert m.Update? ==> Consistent(m.table);
    var popped := s.(routing := s.routing.(msgs := s.routing.msgs[1..]));
    if m.VoiceMsg? || m.TextMsg? {
      hide OfferVoice, OfferText;
      assert Inv(popped) by { hide Consistent; }
      assert m.VoiceMsg? && m.id in s.snapshot.sessions ==> s.snapshot.sessions[m.id].room in s.snapshot.rooms;
      hide Consistent;
      TasksDoNotMatter(popped, Next(s, RoutingNext).tasks);
    } else {
      hide Consistent;
    }
  }

  lemma StopAcceptingInv(s: State)
    requires Inv(s) && Enabled(s, StopAccepting)
    ensures Inv(Next(s, StopAccepting))
  {
    hide Consistent, Pending, RoutingStops;
    StopsPush(s.control.msgs, StopControl);
  }

  lemma ForwardInv(s: State, i: nat, packet: Inbound)
    requires Inv(s) && i < |s.tasks|
    ensures Inv(Forward(s, i, packet))
  {
    hide Inv;
    TasksDoNotMatter(s, Forward(s, i, packet).tasks);
    var s' := s.(tasks := Forward(s, i, packet).tasks);
    match packet
    case Tunnelled(v) => PushRouting(s', VoiceMsg(IdOf(i), v));
    case Texted(text) => PushRouting(s', TextMsg(IdOf(i), text));
    case Controlled(p) => PushControl(s', Packet(IdOf(i), p));
  }

  lemma StepInv(s: State, step: Step)
    requires Inv(s) && Enabled(s, step)
    ensures Inv(Next(s, step))
  {
    match step
    case StopAccepting => StopAcceptingInv(s);
    case FromClient(i, packet) => ForwardInv(s, i, packet);
    case ControlNext => ControlStepInv(s);
    case ControlDone => ControlDoneInv(s);
    case RoutingNext => RoutingStepInv(s);
    case Declare(i, version) =>
      hide Inv;
      TasksDoNotMatter(s, Next(s, step).tasks);
      PushControl(s.(tasks := Next(s, step).tasks), AddSession(IdOf(i), Unauth(version, i)));
    case Leave(i) =>
      hide Inv;
      TasksDoNotMatter(s, Next(s, step).tasks);
      PushControl(s.(tasks := Next(s, step).tasks), RemoveSession(IdOf(i)));
    case JoinSessions => hide Consistent, Pending, Stops, RoutingStops;
    case RoutingDone => hide Consistent;
    case _ =>
      hide Inv;
      TasksDoNotMatter(s, Next(s, step).tasks);
  }

  /** Every reachable state satisfies the protocol. */
  lemma {:induction false} ReachableInv(steps: seq<Step>)
    requires Possible(steps)
    ensures Inv(After(steps))
    decreases |steps|
  {
    if steps != [] {
      hide Inv, Next, Enabled;
      ReachableInv(steps[..|steps| - 1]);
      StepInv(After(steps[..|steps| - 1]), steps[|steps| - 1]);
    }
  }
}
