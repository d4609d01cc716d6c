/**
 * Clients cannot put a stop off. How far the control and the routing task are from closing their queues, and then
 * from being through with them, depends on how many messages they have handled and on nothing anyone sends.
 */
module ServerStop {
  import opened RoutingTables
  import opened Server
  import opened ServerShutdown
  import opened ServerDrain
  import ServerLifecycle
  import ServerVoice

  // ----- The control task gets to its stop message -----

  function AheadOfStop(msgs: seq<ControlMsg>): nat {
    if msgs == [] || msgs[0].StopControl? then 0 else 1 + AheadOfStop(msgs[1..])
  }

  lemma {:induction false} AheadStays(msgs: seq<ControlMsg>, m: ControlMsg)
    requires Stops(msgs) > 0
    ensures AheadOfStop(msgs + [m]) == AheadOfStop(msgs)
    decreases |msgs|
  {
    StopsPop(msgs);
    if !msgs[0].StopControl? {
      AheadStays(msgs[1..], m);
      assert (msgs + [m])[1..] == msgs[1..] + [m];
    }
  }

  /** The accept task has sent its stop message and the control task has not taken it yet. */
  ghost predicate ControlStopping(s: State) {
    Inv(s) && !s.accept.Listening? && !s.control.closed
  }

  lemma StopIsQueued(s: State)
    requires ControlStopping(s)
    ensures Stops(s.control.msgs) == 1 && s.control.msgs != [] && s.controlUp
  {
    hide Consistent, Pending, RoutingStops;
  }

  lemma StopCloses(s: State)
    requires s.control.msgs != []
    ensures ControlStep(s).control == Queue(s.control.msgs[1..], s.control.closed || s.control.msgs[0].StopControl?)
  {
    hide Enroll, Expel;
  }

  /** One step of anyone: only the control task itself comes nearer to its stop message, by one. */
  lemma StopNears(s: State, step: Step)
    requires ControlStopping(s) && Enabled(s, step)
    ensures var ahead, s' := AheadOfStop(s.control.msgs), Next(s, step);
            if !step.ControlNext? then !s'.control.closed && AheadOfStop(s'.control.msgs) == ahead
            else if ahead == 0 then s'.control.closed
            else !s'.control.closed && AheadOfStop(s'.control.msgs) == ahead - 1
  {
    StopIsQueued(s);
    if step.ControlNext? {
      StopCloses(s);
      hide ControlStep;
    } else {
      assert !step.ControlDone? by { hide NoControlSenders; }
      ServerLifecycle.ControlFrame(s, step);
      hide Next, Enabled, AheadOfStop, ControlStopping;
      if ServerLifecycle.Sends(step).Some? {
        AheadStays(s.control.msgs, ServerLifecycle.Sends(step).value);
      }
    }
  }

  lemma TimesPush(more: seq<Step>, step: Step)
    requires more != []
    ensures Times(more, step) == Times(more[..|more| - 1], step) + (if more[|more| - 1] == step then 1 else 0)
  {}

  /** Stopped stays stopped, and closed stays closed. */
  lemma ClosedStays(s: State, step: Step)
    requires Enabled(s, step)
    ensures s.control.closed ==> Next(s, step).control.closed
    ensures !s.accept.Listening? ==> !Next(s, step).accept.Listening?
  {
    AcceptFrame(s, step);
    if step.ControlNext? {
      StopCloses(s);
      hide ControlStep;
    } else if step.ControlDone? {
      hide NoControlSenders;
    } else {
      ServerLifecycle.ControlFrame(s, step);
      hide Next, Enabled;
    }
  }

  /**
   * From any state of a stopped server whose control queue is open, and whatever clients and other tasks do, the queue
   * is closed exactly when the control task has taken all messages that were ahead of the stop message, and that one.
   */
  lemma {:induction false} StopCannotBePutOff(steps: seq<Step>, more: seq<Step>)
    requires Possible(steps) && ControlStopping(After(steps)) && Possible(steps + more)
    ensures var ahead, s' := AheadOfStop(After(steps).control.msgs), After(steps + more);
            && !s'.accept.Listening?
            && (s'.control.closed <==> Times(more, ControlNext) > ahead)
            && (!s'.control.closed ==> Times(more, ControlNext) + AheadOfStop(s'.control.msgs) == ahead)
    decreases |more|
  {
    if more == [] {
      assert steps + more == steps;
    } else {
      hide Possible, After, Next, Enabled, Inv, AheadOfStop, Times;
      var front, step := more[..|more| - 1], more[|more| - 1];
      LastOfMore(steps, more);
      StopCannotBePutOff(steps, front);
      TimesPush(more, ControlNext);
      var s := After(steps + front);
      ReachableInv(steps + front);
      ClosedStays(s, step);
      if !s.control.closed {
        StopNears(s, step);
      }
    }
  }

  /** Once it is closed, the control queue is emptied by the control task and filled by nobody. */
  lemma ClosedQueueShrinks(s: State, step: Step)
    requires Enabled(s, step) && s.control.closed
    ensures |Next(s, step).control.msgs| == |s.control.msgs| - if step.ControlNext? then 1 else 0
  {
    if step.ControlNext? {
      StopCloses(s);
      hide ControlStep;
    } else if step.ControlDone? {
      hide NoControlSenders;
    } else {
      ServerLifecycle.ControlFrame(s, step);
      hide Next, Enabled;
    }
  }

  lemma {:induction false} ClosedQueueDrains(steps: seq<Step>, more: seq<Step>)
    requires Possible(steps) && After(steps).control.closed && Possible(steps + more)
    ensures After(steps + more).control.closed
    ensures Times(more, ControlNext) + |After(steps + more).control.msgs| == |After(steps).control.msgs|
    decreases |more|
  {
    if more == [] {
      assert steps + more == steps;
    } else {
      hide Possible, After, Next, Enabled, Times;
      var front, step := more[..|more| - 1], more[|more| - 1];
      LastOfMore(steps, more);
      ClosedQueueDrains(steps, front);
      TimesPush(more, ControlNext);
      ClosedStays(After(steps + front), step);
      ClosedQueueShrinks(After(steps + front), step);
    }
  }

  // ----- The routing task gets to its stop message -----

  function AheadOfRoutingStop(msgs: seq<RoutingMsg>): nat {
    if msgs == [] || msgs[0].StopRouting? then 0 else 1 + AheadOfRoutingStop(msgs[1..])
  }

  lemma {:induction false} RoutingAheadStays(msgs: seq<RoutingMsg>, more: seq<RoutingMsg>)
    requires RoutingStops(msgs) > 0
    ensures AheadOfRoutingStop(msgs + more) == AheadOfRoutingStop(msgs)
    decreases |msgs|
  {
    RoutingStopsPop(msgs);
    if !msgs[0].StopRouting? {
      RoutingAheadStays(msgs[1..], more);
      assert (msgs + more)[1..] == msgs[1..] + more;
    }
  }

  /** The control task has ended, with its stop message, and the routing task has not taken that yet. */
  ghost predicate RoutingStopping(s: State) {
    Inv(s) && !s.controlUp && !s.routing.closed
  }

  lemma RoutingStopIsQueued(s: State)
    requires RoutingStopping(s)
    ensures RoutingStops(s.routing.msgs) == 1 && s.routing.msgs != []
  {
    hide Consistent, Pending, Stops;
  }

  lemma RoutingClosedFrame(s: State, step: Step)
    requires Enabled(s, step)
    ensures Next(s, step).routing.closed
       <==> s.routing.closed || step.RoutingDone? || (step.RoutingNext? && s.routing.msgs[0].StopRouting?)
  {
    if step.RoutingNext? {
      hide OfferVoice, OfferText, AllRoomsExist;
    } else {
      hide SenderAlive, AllStopped, HandleControl, HandleRouting, Forward;
      if step.FromClient? {
        ForwardQueues(s, step.i, step.packet);
      }
    }
  }

  lemma RoutingStopNears(s: State, step: Step)
    requires RoutingStopping(s) && Enabled(s, step)
    ensures var ahead, s' := AheadOfRoutingStop(s.routing.msgs), Next(s, step);
            if !step.RoutingNext? then !s'.routing.closed && AheadOfRoutingStop(s'.routing.msgs) == ahead
            else if ahead == 0 then s'.routing.closed
            else !s'.routing.closed && AheadOfRoutingStop(s'.routing.msgs) == ahead - 1
  {
    RoutingStopIsQueued(s);
    RoutingClosedFrame(s, step);
    assert !step.RoutingDone? by { hide NoRoutingSenders; }
    if step.RoutingNext? {
      RoutingOnly(s);
      hide Next, RoutingStops;
    } else {
      ServerVoice.RoutingFrame(s, step);
      hide Next, Enabled, AheadOfRoutingStop, RoutingStopping, ServerVoice.Pushed;
      RoutingAheadStays(s.routing.msgs, ServerVoice.Pushed(s, step));
    }
  }

  lemma {:induction false} RoutingStopCannotBePutOff(steps: seq<Step>, more: seq<Step>)
    requires Possible(steps) && RoutingStopping(After(steps)) && Possible(steps + more)
    ensures var ahead, s' := AheadOfRoutingStop(After(steps).routing.msgs), After(steps + more);
            && !s'.controlUp
            && (s'.routing.closed <==> Times(more, RoutingNext) > ahead)
            && (!s'.routing.closed ==> Times(more, RoutingNext) + AheadOfRoutingStop(s'.routing.msgs) == ahead)
    decreases |more|
  {
    if more == [] {
      assert steps + more == steps;
    } else {
      hide Possible, After, Next, Enabled, Inv, AheadOfRoutingStop, Times;
      var front, step := more[..|more| - 1], more[|more| - 1];
      LastOfMore(steps, more);
      RoutingStopCannotBePutOff(steps, front);
      TimesPush(more, RoutingNext);
      var s := After(steps + front);
      ReachableInv(steps + front);
      ControlUpFrame(s, step);
      RoutingClosedFrame(s, step);
      if !s.routing.closed {
        RoutingStopNears(s, step);
      }
    }
  }

  lemma ClosedRoutingShrinks(s: State, step: Step)
    requires Enabled(s, step) && s.routing.closed
    ensures |Next(s, step).routing.msgs| == |s.routing.msgs| - if step.RoutingNext? then 1 else 0
  {
    if step.RoutingNext? {
      RoutingOnly(s);
      hide Next;
    } else {
      ServerVoice.RoutingFrame(s, step);
      hide Next, Enabled, HandleControl;
    }
  }

  lemma {:induction false} ClosedRoutingDrains(steps: seq<Step>, more: seq<Step>)
    requires Possible(steps) && After(steps).routing.closed && Possible(steps + more)
    ensures After(steps + more).routing.closed
    ensures Times(more, RoutingNext) + |After(steps + more).routing.msgs| == |After(steps).routing.msgs|
    decreases |more|
  {
    if more == [] {
      assert steps + more == steps;
    } else {
      hide Possible, After, Next, Enabled, Times;
      var front, step := more[..|more| - 1], more[|more| - 1];
      LastOfMore(steps, more);
      ClosedRoutingDrains(steps, front);
      TimesPush(more, RoutingNext);
      RoutingClosedFrame(After(steps + front), step);
      ClosedRoutingShrinks(After(steps + front), step);
    }
  }

  // ----- The sessions run down -----

  /** Both queues are done with; what is left are the sessions and the accept task that waits for them. */
  ghost predicate BothReturned(s: State) {
    !s.accept.Listening? && s.control.closed && !s.controlUp && !s.routingUp
  }

  lemma LoggedKeepsWork(s: State, task: Task, packet: Inbound)
    ensures var t := Logged(s, task, packet);
            t.phase == task.phase && t.inbox == task.inbox
  {}

  lemma TasksRunDown(s: State, step: Step)
    requires Enabled(s, step) && BothReturned(s)
    ensures if step.FromClient? || step.JoinSessions? then TaskWork(Next(s, step).tasks) == TaskWork(s.tasks)
            else TaskWork(Next(s, step).tasks) < TaskWork(s.tasks)
  {
    TasksAfterNext(s, step);
    hide Next, SenderAlive, AllStopped, TaskWork, Logged;
    var tasks := TasksAfter(s, step);
    if !step.JoinSessions? {
      TaskWorkUpdate(s.tasks, step.i, tasks[step.i]);
      assert tasks == s.tasks[step.i := tasks[step.i]];
      if step.FromClient? {
        LoggedKeepsWork(s, s.tasks[step.i], step.packet);
      }
    }
  }

  /** What clients send changes nothing any more, and every other step, theirs or the server's, leaves less to do. */
  lemma SessionsRunDown(s: State, step: Step)
    requires Enabled(s, step) && BothReturned(s)
    ensures if step.FromClient? then SessionWork(Next(s, step)) == SessionWork(s) else SessionWork(Next(s, step)) < SessionWork(s)
  {
    AcceptFrame(s, step);
    TasksRunDown(s, step);
    assert step.JoinSessions? ==> s.accept.Joining?;
    hide Next, Enabled, TaskWork;
  }

  /** Steps other than packets from clients. */
  function OtherSteps(steps: seq<Step>): nat {
    if steps == [] then 0
    else OtherSteps(steps[..|steps| - 1]) + if steps[|steps| - 1].FromClient? then 0 else 1
  }

  lemma ReturnedStays(s: State, step: Step)
    requires Enabled(s, step) && BothReturned(s)
    ensures BothReturned(Next(s, step))
  {
    ClosedStays(s, step);
    ControlUpFrame(s, step);
    hide SenderAlive, AllStopped, Forward;
    if step.FromClient? {
      ForwardKeepsRouting(s, step.i, step.packet);
    }
  }

  lemma ForwardKeepsRouting(s: State, i: nat, packet: Inbound)
    requires i < |s.tasks|
    ensures Forward(s, i, packet).routingUp == s.routingUp
  {}

  /** After control and routing have returned, no run has more steps other than packets from clients than work was left. */
  lemma {:induction false} LastStepsAreBounded(steps: seq<Step>, more: seq<Step>)
    requires Possible(steps) && BothReturned(After(steps)) && Possible(steps + more)
    ensures BothReturned(After(steps + more))
    ensures OtherSteps(more) + SessionWork(After(steps + more)) <= SessionWork(After(steps))
    decreases |more|
  {
    if more == [] {
      assert steps + more == steps;
    } else {
      hide Possible, After, Next, Enabled, SessionWork, BothReturned;
      LastOfMore(steps, more);
      LastStepsAreBounded(steps, more[..|more| - 1]);
      ReturnedStays(After(steps + more[..|more| - 1]), more[|more| - 1]);
      SessionsRunDown(After(steps + more[..|more| - 1]), more[|more| - 1]);
    }
  }
}
