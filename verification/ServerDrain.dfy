/** What the protocol gives: no failed expectation, no stale snapshot, no surviving sender, and a shutdown that ends. */
module ServerDrain {
  import opened RoutingTables
  import opened Server
  import opened ServerShutdown
  import opened ServerLifecycle

  /** In every reachable state the source's expectations about open queues and memberships have held. */
  lemma ExpectationsHold(steps: seq<Step>)
    requires Possible(steps)
    ensures After(steps).fault != ExpectFailed
  {
    hide Possible, After, Inv;
    ReachableInv(steps);
    InvParts(After(steps));
  }

  lemma InvParts(s: State)
    requires Inv(s)
    ensures ShutdownInv(s) && SnapshotInv(s) && s.fault != ExpectFailed
  {}

  /** Messages for which the routing task has no implementation. */
  predicate Unroutable(m: RoutingMsg, snapshot: Table) {
    match m
    case VoiceMsg(_, p) => p.Ping? || p.target != 0
    case TextMsg(_, text) => exists r :: r in text.rooms && r !in snapshot.rooms
    case _ => false
  }

  /** From a reachable state a step panics exactly when the routing task takes an unroutable message. */
  lemma PanicsExactly(steps: seq<Step>, step: Step)
    requires Possible(steps) && Enabled(After(steps), step)
    ensures var s := After(steps);
            Next(s, step).fault != NoFault <==> step.RoutingNext? && Unroutable(s.routing.msgs[0], s.snapshot)
  {
    hide Possible, After;
    ReachableInv(steps);
    var s := After(steps);
    StepInv(s, step);
    hide Inv, OfferVoice, OfferText, HandleControl;
    InvParts(Next(s, step));
  }

  /** The routing task's table, once the updates in its queue are applied, is the control task's table. */
  lemma SnapshotsInSync(steps: seq<Step>)
    requires Possible(steps)
    ensures var s := After(steps);
            && Pending(s.routing.msgs, s.snapshot) == s.table
            && Consistent(s.table) && Consistent(s.snapshot) && UpdatesConsistent(s.routing.msgs)
  {
    hide Possible, After;
    ReachableInv(steps);
  }

  /** How often a run takes a step. */
  function Times(steps: seq<Step>, step: Step): nat {
    if steps == [] then 0
    else Times(steps[..|steps| - 1], step) + (if steps[|steps| - 1] == step then 1 else 0)
  }

  lemma AcceptFrame(s: State, step: Step)
    requires Enabled(s, step)
    ensures Next(s, step).accept == if step.JoinSessions? then Finished
                                    else if step.StopAccepting? && !s.control.closed then Joining
                                    else s.accept
  {
    hide SenderAlive, AllStopped, HandleRouting, ControlStep;
    if step.RoutingNext? {
      RoutingOnly(s);
    } else if step.ControlNext? {
      ControlOnly(s);
    }
  }

  lemma ControlUpFrame(s: State, step: Step)
    requires Enabled(s, step)
    ensures Next(s, step).controlUp == (s.controlUp && !step.ControlDone?)
  {
    hide SenderAlive, AllStopped, HandleRouting, ControlStep;
    if step.RoutingNext? {
      RoutingOnly(s);
    } else if step.ControlNext? {
      ControlOnly(s);
    }
  }

  lemma StopNotClosed(s: State)
    requires Inv(s)
    ensures s.accept.Listening? ==> !s.control.closed
  {}

  /** A run sends each stop message once, when the accept and the control task stop, and never again. */
  lemma {:induction false} StopsSent(steps: seq<Step>)
    requires Possible(steps)
    ensures Times(steps, StopAccepting) == if After(steps).accept.Listening? then 0 else 1
    ensures Times(steps, ControlDone) == if After(steps).controlUp then 0 else 1
    decreases |steps|
  {
    if steps != [] {
      var front, step := steps[..|steps| - 1], steps[|steps| - 1];
      var s := After(front);
      assert step.StopAccepting? ==> s.accept.Listening?;
      assert step.ControlDone? ==> s.controlUp;
      assert step.JoinSessions? ==> !s.accept.Listening?;
      hide Next, Enabled, Inv;
      StopsSent(front);
      ReachableInv(front);
      StopNotClosed(s);
      AcceptFrame(s, step);
      ControlUpFrame(s, step);
    }
  }

  /**
   * The control queue closes only after the accept task stopped, the routing queue only after the control task
   * ended, and over the whole run each of the two sends a single stop message.
   */
  lemma ClosingOrder(steps: seq<Step>)
    requires Possible(steps)
    ensures var s := After(steps);
            && (s.control.closed ==> Times(steps, StopAccepting) == 1)
            && (!s.controlUp ==> s.control.closed && s.control.msgs == [])
            && (s.routing.closed ==> Times(steps, ControlDone) == 1)
            && (!s.routingUp ==> s.routing.closed && s.routing.msgs == [] && !s.controlUp)
    ensures Times(steps, StopAccepting) <= 1 && Times(steps, ControlDone) <= 1
    ensures Stops(After(steps).control.msgs) <= Times(steps, StopAccepting)
    ensures RoutingStops(After(steps).routing.msgs) <= Times(steps, ControlDone)
  {
    hide Possible, After, Times;
    ReachableInv(steps);
    StopsSent(steps);
  }

  // ----- Senders -----

  lemma NoSenderSurvivesIn(s: State, c: Sender)
    requires ShutdownInv(s) && !s.controlUp && !s.routingUp
    ensures !SenderAlive(s, c)
  {}

  /** Once the control and the routing task have returned, nothing can send to any session any more. */
  lemma NoSenderSurvives(steps: seq<Step>, c: Sender)
    requires Possible(steps) && !After(steps).controlUp && !After(steps).routingUp
    ensures !SenderAlive(After(steps), c)
  {
    hide Possible, After, SenderAlive;
    ReachableInv(steps);
    NoSenderSurvivesIn(After(steps), c);
  }

  // ----- The shutdown ends -----

  /**
   * Steps the server takes without new input: no connection, handshake or packet is needed. `ToClient` waits for the
   * client to read; where its connection fails instead, the session takes the step `Leave`.
   */
  predicate Internal(step: Step) {
    step.JoinSessions? || step.ToClient? || step.RunDry? || step.ControlNext? || step.ControlDone? || step.RoutingNext? ||
    step.RoutingDone?
  }

  function TaskWork(tasks: seq<Task>): nat {
    if tasks == [] then 0
    else TaskWork(tasks[..|tasks| - 1]) + |tasks[|tasks| - 1].inbox| + (if tasks[|tasks| - 1].phase.Stopped? then 0 else 1)
  }

  lemma {:induction false} TaskWorkUpdate(tasks: seq<Task>, i: nat, task: Task)
    requires i < |tasks|
    ensures TaskWork(tasks[i := task]) + |tasks[i].inbox| + (if tasks[i].phase.Stopped? then 0 else 1)
         == TaskWork(tasks) + |task.inbox| + (if task.phase.Stopped? then 0 else 1)
  {
    var k := |tasks| - 1;
    if i < k {
      TaskWorkUpdate(tasks[..k], i, task);
      assert tasks[i := task][..k] == tasks[..k][i := task];
    } else {
      assert tasks[i := task][..k] == tasks[..k];
    }
  }

  function ControlWork(s: State): nat {
    |s.control.msgs| + (if s.controlUp then 1 else 0)
  }

  function RoutingWork(s: State): nat {
    |s.routing.msgs| + (if s.routingUp then 1 else 0)
  }

  function SessionWork(s: State): nat {
    TaskWork(s.tasks) + (if s.accept.Finished? then 0 else 1)
  }

  /** `s` has less left to do than `t`: first for the control task, then for the routing task, then for the sessions. */
  predicate LessWork(s: State, t: State) {
    || ControlWork(s) < ControlWork(t)
    || (ControlWork(s) == ControlWork(t) && RoutingWork(s) < RoutingWork(t))
    || (ControlWork(s) == ControlWork(t) && RoutingWork(s) == RoutingWork(t) && SessionWork(s) < SessionWork(t))
  }

  /** A session's own step, or the accept task's last one, touches neither of the two queues. */
  lemma SessionStepsDrain(s: State, step: Step)
    requires Enabled(s, step) && (step.ToClient? || step.RunDry? || step.JoinSessions?)
    ensures ControlWork(Next(s, step)) == ControlWork(s) && RoutingWork(Next(s, step)) == RoutingWork(s)
    ensures SessionWork(Next(s, step)) < SessionWork(s)
  {
    hide SenderAlive, TaskWork;
    match step
    case ToClient(i) => TaskWorkUpdate(s.tasks, i, s.tasks[i].(inbox := s.tasks[i].inbox[1..]));
    case RunDry(i) => TaskWorkUpdate(s.tasks, i, s.tasks[i].(phase := Stopped));
    case JoinSessions =>
  }

  /** Every internal step leaves strictly less work, so no run of internal steps goes on forever. */
  lemma InternalStepsDrain(s: State, step: Step)
    requires Enabled(s, step) && Internal(step)
    ensures LessWork(Next(s, step), s)
  {
    if step.ToClient? || step.RunDry? || step.JoinSessions? {
      hide Next, Enabled, ControlWork, RoutingWork, SessionWork;
      SessionStepsDrain(s, step);
    } else {
      hide HandleRouting, ControlStep, SessionWork, SenderAlive, AllStopped;
      if step.RoutingNext? {
        RoutingOnly(s);
      } else if step.ControlNext? {
        ControlOnly(s);
      }
    }
  }

  /** Tasks still in their version exchange, which has no timeout. */
  predicate NoneHandshaking(s: State) {
    forall i :: 0 <= i < |s.tasks| ==> !s.tasks[i].phase.Handshaking?
  }

  /** All four kinds of task have returned. */
  predicate FullyStopped(s: State) {
    s.accept.Finished? && AllStopped(s) && !s.controlUp && !s.routingUp
  }

  /**
   * As far as a stopped server gets by itself: control and routing have returned, every session has stopped or is
   * still in its version exchange, and the accept task is through exactly when there is none of the latter.
   */
  predicate Rested(s: State) {
    && !s.controlUp && !s.routingUp
    && (forall i :: 0 <= i < |s.tasks| ==> !s.tasks[i].phase.Active?)
    && (s.accept.Finished? <==> NoneHandshaking(s))
  }

  // ----- The accept task waits for its sessions -----

  lemma PhaseForward(s: State, step: Step)
    requires Enabled(s, step) && AllStopped(s) && !s.accept.Listening?
    ensures AllStopped(Next(s, step))
  {
    hide Next, SenderAlive;
    if step.RoutingNext? {
      RoutingQuiet(s);
    } else {
      TasksAfterNext(s, step);
    }
  }

  lemma {:induction false} FinishedMeansStopped(steps: seq<Step>)
    requires Possible(steps)
    ensures After(steps).accept.Finished? ==> AllStopped(After(steps))
    decreases |steps|
  {
    if steps != [] {
      var s, step := After(steps[..|steps| - 1]), steps[|steps| - 1];
      FinishedMeansStopped(steps[..|steps| - 1]);
      assert step.JoinSessions? ==> AllStopped(s) && !s.accept.Listening?;
      hide Next, Enabled, AllStopped;
      AcceptFrame(s, step);
      if After(steps).accept.Finished? {
        PhaseForward(s, step);
      }
    }
  }

  // ----- Rest -----

  /** A stopped server that is not at rest can go on by itself. */
  lemma NeverStuck(s: State) returns (step: Step)
    requires Inv(s) && s.fault.NoFault? && !s.accept.Listening? && (s.accept.Finished? ==> AllStopped(s)) && !Rested(s)
    ensures Internal(step) && Enabled(s, step)
  {
    hide Consistent, Pending, SenderAlive;
    if s.controlUp {
      step := if s.control.msgs != [] then ControlNext else ControlDone;
    } else if s.routingUp {
      step := if s.routing.msgs != [] then RoutingNext else RoutingDone;
    } else if i: nat :| i < |s.tasks| && s.tasks[i].phase.Active? {
      NoSenderSurvivesIn(s, i);
      step := if s.tasks[i].inbox != [] then ToClient(i) else RunDry(i);
    } else {
      step := JoinSessions;
    }
  }

  lemma RestedIsIdle(s: State, step: Step)
    requires Rested(s) && Internal(step)
    ensures !Enabled(s, step)
  {
    hide SenderAlive;
  }

  ghost predicate Idle(s: State) {
    forall step :: Internal(step) ==> !Enabled(s, step)
  }

  /** A stopped server has no step of its own left exactly when it has panicked or is at rest. */
  lemma IdleExactly(steps: seq<Step>)
    requires Possible(steps) && !After(steps).accept.Listening?
    ensures Idle(After(steps)) <==> After(steps).fault == Unimplemented || Rested(After(steps))
  {
    hide Possible, After, Internal, Rested, Inv, AllStopped;
    var s := After(steps);
    ReachableInv(steps);
    InvParts(s);
    FinishedMeansStopped(steps);
    if s.fault.NoFault? {
      if Rested(s) {
        forall step | Internal(step) ensures !Enabled(s, step) { RestedIsIdle(s, step); }
      } else {
        var step := NeverStuck(s);
      }
    }
  }

  /** A run of internal steps. */
  predicate AllInternal(steps: seq<Step>) {
    forall k :: 0 <= k < |steps| ==> Internal(steps[k])
  }

  lemma InternalKeeps(s: State, step: Step)
    requires Enabled(s, step) && Internal(step)
    ensures |Next(s, step).tasks| == |s.tasks|
    ensures forall i :: 0 <= i < |s.tasks| ==>
              (Next(s, step).tasks[i].phase.Handshaking? <==> s.tasks[i].phase.Handshaking?)
  {
    hide Next, SenderAlive, AllStopped;
    if step.RoutingNext? {
      RoutingQuiet(s);
    } else {
      TasksAfterNext(s, step);
    }
  }

  /** Internal steps leave every version exchange as it was. */
  ghost predicate SameHandshakes(s: State, t: State) {
    && |s.tasks| == |t.tasks|
    && forall i :: 0 <= i < |s.tasks| ==> (t.tasks[i].phase.Handshaking? <==> s.tasks[i].phase.Handshaking?)
  }

  lemma {:induction false} HandshakesStay(steps: seq<Step>, more: seq<Step>)
    requires Possible(steps + more) && AllInternal(more) && Possible(steps)
    ensures SameHandshakes(After(steps), After(steps + more))
    ensures !After(steps).accept.Listening? ==> !After(steps + more).accept.Listening?
    decreases |more|
  {
    if more == [] {
      assert steps + more == steps;
    } else {
      var k := |more| - 1;
      hide Next, Enabled, Internal, Possible, After;
      LastOfMore(steps, more);
      HandshakesStay(steps, more[..k]);
      InternalKeeps(After(steps + more[..k]), more[k]);
      AcceptFrame(After(steps + more[..k]), more[k]);
    }
  }

  /**
   * However a stopped server schedules its own steps, when none is left it has panicked on an unimplemented path, or
   * control and routing have returned, exactly the sessions that had completed their version exchange have stopped,
   * and the accept task has returned exactly when no session was still in that exchange.
   */
  lemma RestIsStopped(steps: seq<Step>, more: seq<Step>)
    requires Possible(steps) && !After(steps).accept.Listening?
    requires Possible(steps + more) && AllInternal(more) && Idle(After(steps + more))
    ensures var s, t := After(steps), After(steps + more);
            || t.fault == Unimplemented
            || (&& !t.controlUp && !t.routingUp && |t.tasks| == |s.tasks|
                && (forall i :: 0 <= i < |t.tasks| ==>
                      t.tasks[i].phase == if s.tasks[i].phase.Handshaking? then Handshaking else Stopped)
                && (FullyStopped(t) <==> NoneHandshaking(s))
                && (t.accept.Finished? <==> NoneHandshaking(s)))
  {
    hide Possible, After, Idle, AllInternal;
    HandshakesStay(steps, more);
    IdleExactly(steps + more);
  }

  /** From every state of a stopped server there is a run of its own steps to such an end. */
  lemma ShutdownCompletes(steps: seq<Step>) returns (more: seq<Step>)
    requires Possible(steps) && !After(steps).accept.Listening?
    ensures Possible(steps + more) && AllInternal(more) && Idle(After(steps + more))
    decreases ControlWork(After(steps)), RoutingWork(After(steps)), SessionWork(After(steps))
  {
    hide Next, Enabled, Internal, ControlWork, RoutingWork, SessionWork, Rested;
    var s := After(steps);
    IdleExactly(steps);
    if Idle(s) {
      more := [];
      assert steps + more == steps;
    } else {
      var step :| Internal(step) && Enabled(s, step);
      var longer := steps + [step];
      assert longer[..|longer| - 1] == steps;
      InternalStepsDrain(s, step);
      AcceptStays(s, step);
      var rest := ShutdownCompletes(longer);
      more := [step] + rest;
      assert steps + more == longer + rest;
    }
  }

  lemma AcceptStays(s: State, step: Step)
    requires Enabled(s, step) && !s.accept.Listening?
    ensures !Next(s, step).accept.Listening?
  {
    hide Next, Enabled;
    AcceptFrame(s, step);
  }

  // ----- A client that never speaks -----

  /** A client that connects and sends nothing, a stop signal, and everything the server then does by itself. */
  const SILENT_CLIENT: seq<Step> := [Connect, StopAccepting, ControlNext, ControlDone, RoutingNext, RoutingDone]

  /** The states of that run. */
  function SilentState(k: nat): State {
    var s := Init().(tasks := [Task(Handshaking, [], [], [], [])]);
    if k == 0 then Init()
    else if k == 1 then s
    else if k == 2 then s.(accept := Joining, control := Queue([StopControl], false))
    else if k == 3 then s.(accept := Joining, control := Queue([], true))
    else if k == 4 then s.(accept := Joining, control := Queue([], true), controlUp := false, routing := Queue([StopRouting], false))
    else s.(accept := Joining, control := Queue([], true), controlUp := false, routing := Queue([], true), routingUp := k == 5)
  }

  lemma SilentStep(k: nat)
    requires k < 6
    ensures Enabled(SilentState(k), SILENT_CLIENT[k]) && Next(SilentState(k), SILENT_CLIENT[k]) == SilentState(k + 1)
  {
    hide SenderAlive, AllStopped, HandlePacket, HandleVoice, HandleText, Empty;
    assert [StopControl][1..] == [] && [StopRouting][1..] == [];
    assert [] + [StopControl] == [StopControl] && [] + [StopRouting] == [StopRouting];
  }

  lemma {:induction false} SilentRun(k: nat)
    requires k <= 6
    ensures Possible(SILENT_CLIENT[..k]) && After(SILENT_CLIENT[..k]) == SilentState(k)
  {
    hide Next, Enabled;
    if k > 0 {
      hide SilentState;
      SilentRun(k - 1);
      SilentStep(k - 1);
      assert SILENT_CLIENT[..k][..k - 1] == SILENT_CLIENT[..k - 1];
    }
  }

  /** One silent client keeps the server from ever stopping: its version exchange has no timeout and accept awaits it. */
  lemma SilentClientBlocks()
    ensures Possible(SILENT_CLIENT)
    ensures var s := After(SILENT_CLIENT);
            s.fault.NoFault? && Idle(s) && !s.controlUp && !s.routingUp && s.accept.Joining? && !FullyStopped(s)
  {
    SilentRun(6);
    assert SILENT_CLIENT[..6] == SILENT_CLIENT;
    hide Possible, After;
    var s := After(SILENT_CLIENT);
    assert s.tasks[0].phase.Handshaking? && Rested(s);
    hide SilentState, Rested;
    IdleExactly(SILENT_CLIENT);
  }
}
