/** The life of a session: connecting, declaring itself, authenticating, leaving, and never coming back. */
module ServerLifecycle {
  import opened Bytes
  import opened RoutingTables
  import opened Server

  // ----- A session's own messages to the control task -----

  predicate About(m: ControlMsg, id: SessionId) {
    (m.Packet? || m.AddSession?) && m.id == id
  }

  /** The declaration and the packets of one session that the control task has not handled yet, in order. */
  function Mine(msgs: seq<ControlMsg>, id: SessionId): seq<ControlMsg> {
    if msgs == [] then []
    else Mine(msgs[..|msgs| - 1], id) + (if About(msgs[|msgs| - 1], id) then [msgs[|msgs| - 1]] else [])
  }

  lemma MinePush(msgs: seq<ControlMsg>, m: ControlMsg, id: SessionId)
    ensures Mine(msgs + [m], id) == Mine(msgs, id) + (if About(m, id) then [m] else [])
  {
    assert (msgs + [m])[..|msgs|] == msgs;
  }

  lemma {:induction false} MinePop(msgs: seq<ControlMsg>, id: SessionId)
    requires msgs != []
    ensures Mine(msgs, id) == (if About(msgs[0], id) then [msgs[0]] else []) + Mine(msgs[1..], id)
  {
    if |msgs| == 1 {
      assert msgs[..0] == [] && msgs[1..] == [];
    } else {
      var k := |msgs| - 1;
      MinePop(msgs[..k], id);
      assert msgs[1..][..k - 1] == msgs[..k][1..];
    }
  }

  function Packets(log: seq<ControlPacket>, id: SessionId): (r: seq<ControlMsg>)
    ensures |r| == |log|
  {
    seq(|log|, k requires 0 <= k < |log| => Packet(id, log[k]))
  }

  lemma PacketsPush(log: seq<ControlPacket>, p: ControlPacket, id: SessionId)
    ensures Packets(log + [p], id) == Packets(log, id) + [Packet(id, p)]
  {}

  ghost predicate NoAdds(msgs: seq<ControlMsg>) {
    forall k :: 0 <= k < |msgs| ==> !msgs[k].AddSession?
  }

  // ----- The stages of a session -----

  /** Everything the control side holds about one session: its queued messages and its two map entries. */
  datatype Life = Life(mine: seq<ControlMsg>, waiting: Option<Unauth>, enrolled: Option<Session>) {
    predicate Known() {
      waiting.Some? || enrolled.Some?
    }
  }

  function Lookup<K, V>(m: map<K, V>, k: K): Option<V> {
    if k in m then Some(m[k]) else None
  }

  function LifeOf(s: State, id: SessionId): Life {
    Life(Mine(s.control.msgs, id), Lookup(s.unauth, id), Lookup(s.table.sessions, id))
  }

  /** Nothing of the session has reached the control side. */
  ghost predicate Unseen(l: Life) {
    l.mine == [] && !l.Known()
  }

  /** The session has declared itself and the control task has not got to it yet. */
  ghost predicate Declared(l: Life, id: SessionId, log: seq<ControlPacket>) {
    && l.mine != [] && l.mine[0].AddSession? && l.mine[0].unauth.sender == id
    && l.mine[1..] == Packets(log, id)
    && !l.Known()
  }

  /** The control task has taken the session in: it waits with all its packets still queued, is enrolled, or is gone. */
  ghost predicate TakenIn(l: Life, id: SessionId, log: seq<ControlPacket>) {
    && NoAdds(l.mine)
    && (l.waiting.Some? ==> l.enrolled.None? && l.waiting.value.sender == id && l.mine == Packets(log, id))
    && (l.enrolled.Some? ==> l.enrolled.value.sender == id && log != [] && log[0].Authenticate?)
  }

  ghost predicate Status(s: State, id: SessionId) {
    if id >= |s.tasks| then Unseen(LifeOf(s, id))
    else if s.tasks[id].phase.Handshaking? then Unseen(LifeOf(s, id)) && s.tasks[id].controlLog == []
    else Declared(LifeOf(s, id), id, s.tasks[id].controlLog) || TakenIn(LifeOf(s, id), id, s.tasks[id].controlLog)
  }

  ghost predicate LifecycleInv(s: State) {
    forall id: SessionId :: Status(s, id)
  }

  // ----- Preservation outside the control task -----

  lemma SameId(i: nat)
    requires i < TWO_32
    ensures IdOf(i) == i
  {}

  /** The message a step puts on the control queue. */
  function Sends(step: Step): Option<ControlMsg> {
    match step
    case StopAccepting => Some(StopControl)
    case Declare(i, version) => Some(AddSession(IdOf(i), Unauth(version, i)))
    case Leave(i) => Some(RemoveSession(IdOf(i)))
    case FromClient(i, packet) => if packet.Controlled? then Some(Packet(IdOf(i), packet.packet)) else None
    case _ => None
  }

  /** What a step adds to the queued messages of one session. */
  function Sent(s: State, step: Step, id: SessionId): seq<ControlMsg> {
    if Sends(step).Some? && About(Sends(step).value, id) && !s.control.closed then [Sends(step).value] else []
  }

  /** Only its own two steps change what the control task holds; the others at most send to it. */
  lemma ControlFrame(s: State, step: Step)
    requires Enabled(s, step) && !step.ControlNext? && !step.ControlDone?
    ensures Next(s, step).unauth == s.unauth && Next(s, step).table == s.table
    ensures Next(s, step).control == if Sends(step).Some? then s.control.Push(Sends(step).value) else s.control
  {
    hide HandleRouting, SenderAlive, AllStopped, Forward;
    if step.RoutingNext? {
      RoutingOnly(s);
    } else if step.FromClient? {
      ForwardQueues(s, step.i, step.packet);
    }
  }

  lemma SendLife(s: State, step: Step, id: SessionId)
    requires Enabled(s, step) && !step.ControlNext? && !step.ControlDone?
    ensures LifeOf(Next(s, step), id) == LifeOf(s, id).(mine := LifeOf(s, id).mine + Sent(s, step, id))
  {
    ControlFrame(s, step);
    hide Next, Enabled, Mine, Lookup;
    if Sends(step).Some? {
      MinePush(s.control.msgs, Sends(step).value, id);
    }
    assert Mine(s.control.msgs, id) + [] == Mine(s.control.msgs, id);
  }

  /** The log of forwarded packets grows exactly with the queue. */
  lemma LogFrame(s: State, step: Step, id: SessionId)
    requires |s.tasks| <= TWO_32 && Enabled(s, step) && id < |s.tasks|
    ensures id < |Next(s, step).tasks|
    ensures var log, log' := s.tasks[id].controlLog, Next(s, step).tasks[id].controlLog;
            if step.FromClient? && step.packet.Controlled? && step.i == id && !s.control.closed
            then log' == log + [step.packet.packet] else log' == log
  {
    hide Next, SenderAlive, AllStopped;
    if step.RoutingNext? {
      RoutingQuiet(s);
    } else {
      TasksAfterNext(s, step);
    }
  }

  lemma PacketLife(l: Life, p: ControlPacket, id: SessionId, log: seq<ControlPacket>)
    requires Declared(l, id, log) || TakenIn(l, id, log)
    ensures var l' := l.(mine := l.mine + [Packet(id, p)]);
            Declared(l', id, log + [p]) || TakenIn(l', id, log + [p])
  {
    PacketsPush(log, p, id);
    hide Packets;
    var m := Packet(id, p);
    assert l.mine != [] ==> (l.mine + [m])[1..] == l.mine[1..] + [m];
  }

  lemma DeclaredLife(l: Life, m: ControlMsg, id: SessionId)
    requires Unseen(l) && m.AddSession? && m.unauth.sender == id
    ensures Declared(l.(mine := l.mine + [m]), id, [])
  {
    assert l.mine + [m] == [m] && [m][1..] == Packets([], id);
  }

  lemma ConnectStatus(s: State, id: SessionId)
    requires Status(s, id) && Enabled(s, Connect)
    ensures Status(Next(s, Connect), id)
  {
    hide Mine, Packets;
  }

  /** A task that declares itself, or finds the control task closed. */
  lemma DeclareStatus(s: State, step: Step, id: SessionId)
    requires |s.tasks| <= TWO_32 && Status(s, id) && Enabled(s, step) && step.Declare? && step.i == id
    ensures Status(Next(s, step), id)
  {
    var s' := Next(s, step);
    assert id < |s'.tasks| && !s'.tasks[id].phase.Handshaking? && s'.tasks[id].controlLog == s.tasks[id].controlLog;
    assert s.tasks[id].phase.Handshaking?;
    hide Next, Enabled, LifeOf, Packets;
    SendLife(s, step, id);
    SameId(step.i);
    if s.control.closed {
      assert LifeOf(s, id).mine + [] == [];
    } else {
      DeclaredLife(LifeOf(s, id), AddSession(id, Unauth(step.version, id)), id);
    }
  }

  lemma SentBy(s: State, step: Step, id: SessionId)
    requires |s.tasks| <= TWO_32 && Enabled(s, step) && Sent(s, step, id) != [] && !(step.Declare? && step.i == id)
    ensures step.FromClient? && step.packet.Controlled? && step.i == id && !s.control.closed && InPhase(s, id, Active)
    ensures Sent(s, step, id) == [Packet(id, step.packet.packet)]
  {
    hide Next, SenderAlive;
    if step.Declare? || step.FromClient? {
      SameId(step.i);
    }
  }

  lemma SendStatus(s: State, step: Step, id: SessionId)
    requires |s.tasks| <= TWO_32 && Status(s, id) && Enabled(s, step)
    requires !step.ControlNext? && !step.ControlDone? && !step.Connect? && !(step.Declare? && step.i == id)
    ensures Status(Next(s, step), id)
  {
    hide Next, Enabled, LifeOf, Packets, Sent;
    SendLife(s, step, id);
    PhaseFrame(s, step, id);
    var l := LifeOf(s, id);
    assert l.mine + [] == l.mine;
    if id < |s.tasks| {
      LogFrame(s, step, id);
    }
    if Sent(s, step, id) != [] {
      SentBy(s, step, id);
      PacketLife(l, step.packet.packet, id, s.tasks[id].controlLog);
    } else {
      NotSentBy(s, step, id);
    }
  }

  lemma NotSentBy(s: State, step: Step, id: SessionId)
    requires Sent(s, step, id) == [] && |s.tasks| <= TWO_32 && Enabled(s, step)
    ensures !(step.FromClient? && step.packet.Controlled? && step.i == id && !s.control.closed)
  {
    hide Next, SenderAlive;
    if step.FromClient? {
      SameId(step.i);
    }
  }

  lemma PhaseFrame(s: State, step: Step, id: SessionId)
    requires Enabled(s, step) && !step.Connect? && !(step.Declare? && step.i == id)
    ensures |Next(s, step).tasks| == |s.tasks|
    ensures id < |s.tasks| ==> (Next(s, step).tasks[id].phase.Handshaking? ==> s.tasks[id].phase.Handshaking?)
  {
    hide Next, SenderAlive, AllStopped;
    if step.RoutingNext? {
      RoutingQuiet(s);
    } else {
      TasksAfterNext(s, step);
    }
  }

  // ----- Preservation by the control task -----

  /** What handling a message does to what the control side holds about one session. */
  function HandleLife(l: Life, msg: ControlMsg, id: SessionId): Life
    requires About(msg, id) ==> l.mine != []
  {
    if !About(msg, id) then l
    else if msg.AddSession? then Life(l.mine[1..], Some(msg.unauth), l.enrolled)
    else if l.enrolled.Some? then l.(mine := l.mine[1..])
    else if l.waiting.Some? && msg.packet.Authenticate? then
      Life(l.mine[1..], None, Some(Session(DEFAULT_ROOM, l.waiting.value.version, l.waiting.value.sender)))
    else Life(l.mine[1..], None, None)
  }

  lemma PopLife(s: State, id: SessionId)
    requires s.control.msgs != []
    ensures var mine, rest := Mine(s.control.msgs, id), Mine(s.control.msgs[1..], id);
            if About(s.control.msgs[0], id) then mine != [] && mine[0] == s.control.msgs[0] && mine[1..] == rest else mine == rest
  {
    hide Mine;
    MinePop(s.control.msgs, id);
    var m := s.control.msgs[0];
    var rest := Mine(s.control.msgs[1..], id);
    assert ([m] + rest)[1..] == rest && [] + rest == rest;
  }

  /** What a message other than a removal does to the two map entries of one session. */
  lemma EffectOnEntries(unauth: map<SessionId, Unauth>, table: Table, msg: ControlMsg, mine: seq<ControlMsg>, id: SessionId)
    requires !msg.RemoveSession? && (About(msg, id) ==> mine != [])
    ensures var e := HandleControl(unauth, table, msg);
            var l := HandleLife(Life(mine, Lookup(unauth, id), Lookup(table.sessions, id)), msg, id);
            Lookup(e.unauth, id) == l.waiting && Lookup(e.table.sessions, id) == l.enrolled
  {}

  lemma RemovalOnEntries(unauth: map<SessionId, Unauth>, table: Table, gone: SessionId, id: SessionId)
    ensures var e := HandleControl(unauth, table, RemoveSession(gone));
            && (Lookup(e.unauth, id) == Lookup(unauth, id) || Lookup(e.unauth, id).None?)
            && (Lookup(e.table.sessions, id) == Lookup(table.sessions, id) || Lookup(e.table.sessions, id).None?)
  {}

  lemma ControlStepFields(s: State)
    requires s.control.msgs != []
    ensures var e := HandleControl(s.unauth, s.table, s.control.msgs[0]);
            var s' := ControlStep(s);
            s'.unauth == e.unauth && s'.table == e.table && s'.control.msgs == s.control.msgs[1..] && s'.tasks == s.tasks
  {
    hide HandleControl;
  }

  lemma ControlLife(s: State, id: SessionId)
    requires Enabled(s, ControlNext) && !s.control.msgs[0].RemoveSession?
    ensures About(s.control.msgs[0], id) ==> LifeOf(s, id).mine != []
    ensures LifeOf(ControlStep(s), id) == HandleLife(LifeOf(s, id), s.control.msgs[0], id)
  {
    hide Mine, ControlStep, HandleControl, Lookup;
    PopLife(s, id);
    ControlStepFields(s);
    EffectOnEntries(s.unauth, s.table, s.control.msgs[0], Mine(s.control.msgs, id), id);
  }

  /** A removal can only take a session out. */
  lemma RemovalLife(s: State, id: SessionId)
    requires Enabled(s, ControlNext) && s.control.msgs[0].RemoveSession?
    ensures var l, l' := LifeOf(s, id), LifeOf(ControlStep(s), id);
            l'.mine == l.mine && (l'.waiting == l.waiting || l'.waiting.None?) && (l'.enrolled == l.enrolled || l'.enrolled.None?)
  {
    hide Mine, ControlStep, HandleControl, Lookup;
    PopLife(s, id);
    ControlStepFields(s);
    RemovalOnEntries(s.unauth, s.table, s.control.msgs[0].id, id);
  }

  /** The first packet handled for a waiting session is the first it ever forwarded. */
  lemma HandledLife(l: Life, msg: ControlMsg, id: SessionId, log: seq<ControlPacket>)
    requires Declared(l, id, log) || TakenIn(l, id, log)
    requires About(msg, id) ==> l.mine != [] && l.mine[0] == msg
    ensures Declared(HandleLife(l, msg, id), id, log) || TakenIn(HandleLife(l, msg, id), id, log)
  {
    assert l.waiting.Some? && l.mine != [] ==> l.mine[0] == Packets(log, id)[0] || Declared(l, id, log);
  }

  lemma ControlStatus(s: State, id: SessionId)
    requires Status(s, id) && Enabled(s, ControlNext)
    ensures Status(ControlStep(s), id)
  {
    var msg := s.control.msgs[0];
    var l := LifeOf(s, id);
    PopLife(s, id);
    ControlStepFields(s);
    hide ControlStep, HandleControl;
    if msg.RemoveSession? {
      RemovalLife(s, id);
      hide LifeOf, Packets;
      assert Status(ControlStep(s), id);
    } else {
      ControlLife(s, id);
      assert About(msg, id) ==> l.mine[0] == msg;
      hide LifeOf;
      if id < |s.tasks| && !s.tasks[id].phase.Handshaking? {
        HandledLife(l, msg, id, s.tasks[id].controlLog);
      }
    }
  }

  lemma ControlDoneStatus(s: State, id: SessionId)
    requires Status(s, id) && Enabled(s, ControlDone)
    ensures Status(Next(s, ControlDone), id)
  {
    hide Packets;
  }

  lemma StepStatus(s: State, step: Step, id: SessionId)
    requires |s.tasks| <= TWO_32 && Status(s, id) && Enabled(s, step)
    ensures Status(Next(s, step), id)
  {
    hide Status, Enabled;
    if step.ControlNext? {
      ControlStatus(s, id);
    } else if step.ControlDone? {
      ControlDoneStatus(s, id);
    } else if step.Connect? {
      ConnectStatus(s, id);
    } else if step.Declare? && step.i == id {
      DeclareStatus(s, step, id);
    } else {
      SendStatus(s, step, id);
    }
  }

  lemma RoutingQuiet(s: State)
    requires Enabled(s, RoutingNext)
    ensures var s' := Next(s, RoutingNext);
            && |s'.tasks| == |s.tasks|
            && forall j :: 0 <= j < |s.tasks| ==> s'.tasks[j].controlLog == s.tasks[j].controlLog && s'.tasks[j].phase == s.tasks[j].phase
  {
    hide VoiceCopies, TextCopies;
  }

  /** Tasks are only ever added, and none goes back to its handshake. */
  lemma TasksForward(s: State, step: Step)
    requires Enabled(s, step)
    ensures |s.tasks| <= |Next(s, step).tasks|
    ensures forall j :: 0 <= j < |s.tasks| && !s.tasks[j].phase.Handshaking? ==> !Next(s, step).tasks[j].phase.Handshaking?
  {
    hide Next, SenderAlive, AllStopped;
    if step.RoutingNext? {
      RoutingQuiet(s);
    } else {
      TasksAfterNext(s, step);
    }
  }

  lemma {:induction false} ReachableLifecycle(steps: seq<Step>)
    requires Possible(steps) && |After(steps).tasks| <= TWO_32
    ensures LifecycleInv(After(steps))
    decreases |steps|
  {
    if steps != [] {
      var front := steps[..|steps| - 1];
      hide Next, Enabled, Status;
      TasksForward(After(front), steps[|steps| - 1]);
      ReachableLifecycle(front);
      forall id: SessionId
        ensures Status(After(steps), id)
      {
        StepStatus(After(front), steps[|steps| - 1], id);
      }
    }
  }

  // ----- What it means -----

  /** Ids are unique while there are at most 2^32 connections. */
  lemma IdsAreUnique(i: nat, j: nat)
    requires i < TWO_32 && j < TWO_32
    ensures IdOf(i) == IdOf(j) <==> i == j
  {
    SameId(i);
    SameId(j);
  }

  predicate Known(s: State, id: SessionId) {
    id in s.unauth || id in s.table.sessions
  }

  /** No session is both waiting and enrolled, each is reached through its own channel, and enrolment took an Authenticate first. */
  lemma LifecycleHolds(steps: seq<Step>, id: SessionId)
    requires Possible(steps) && |After(steps).tasks| <= TWO_32
    ensures var s := After(steps);
            && !(id in s.unauth && id in s.table.sessions)
            && (Known(s, id) ==> id < |s.tasks| && !s.tasks[id].phase.Handshaking?)
            && (id in s.unauth ==> s.unauth[id].sender == id)
            && (id in s.table.sessions ==>
                  && s.table.sessions[id].sender == id
                  && s.tasks[id].controlLog != [] && s.tasks[id].controlLog[0].Authenticate?)
  {
    hide Possible, After, Mine, Packets;
    ReachableLifecycle(steps);
    assert Status(After(steps), id);
  }

  /** The session is past its declaration: the control task has taken in everything it will ever learn of it. */
  ghost predicate Past(s: State, id: SessionId) {
    && id < |s.tasks| && !s.tasks[id].phase.Handshaking?
    && TakenIn(LifeOf(s, id), id, s.tasks[id].controlLog)
  }

  lemma KnownIsPast(s: State, id: SessionId)
    requires Status(s, id) && Known(s, id)
    ensures Past(s, id)
  {
    hide Mine, Packets;
  }

  /** The control task never takes a session in twice. */
  lemma StaysGone(s: State, step: Step, id: SessionId)
    requires |s.tasks| <= TWO_32 && LifecycleInv(s) && Enabled(s, step) && Past(s, id)
    ensures Past(Next(s, step), id)
    ensures !Known(s, id) ==> !Known(Next(s, step), id)
  {
    StepStatus(s, step, id);
    TasksForward(s, step);
    var l, l' := LifeOf(s, id), LifeOf(Next(s, step), id);
    LifeStep(s, step, id);
    hide Enabled, Next, Mine, Packets;
    assert NoAdds(l'.mine);
  }

  lemma NoAddsJoin(a: seq<ControlMsg>, b: seq<ControlMsg>)
    requires NoAdds(a) && NoAdds(b)
    ensures NoAdds(a + b)
  {}

  /** Only a session in its handshake declares itself. */
  lemma NoAddSent(s: State, step: Step, id: SessionId)
    requires |s.tasks| <= TWO_32 && Enabled(s, step) && id < |s.tasks| && !s.tasks[id].phase.Handshaking?
    ensures NoAdds(Sent(s, step, id))
  {
    hide SenderAlive, AllStopped;
    if step.Declare? {
      SameId(step.i);
    }
  }

  lemma LifeSend(s: State, step: Step, id: SessionId)
    requires |s.tasks| <= TWO_32 && Enabled(s, step) && Past(s, id) && !step.ControlNext? && !step.ControlDone?
    ensures NoAdds(LifeOf(Next(s, step), id).mine)
    ensures LifeOf(Next(s, step), id).Known() == LifeOf(s, id).Known()
  {
    hide Next, Enabled, LifeOf, Packets, Sent, NoAdds;
    SendLife(s, step, id);
    NoAddSent(s, step, id);
    NoAddsJoin(LifeOf(s, id).mine, Sent(s, step, id));
  }

  /** When the control task returns, its queue and the waiting sessions go with it. */
  lemma LifeDone(s: State, id: SessionId)
    requires Enabled(s, ControlDone)
    ensures var l, l' := LifeOf(s, id), LifeOf(Next(s, ControlDone), id);
            l'.mine == [] && l'.waiting.None? && l'.enrolled == l.enrolled
  {
    hide NoControlSenders;
  }

  /** For a session past its declaration no step queues another declaration, and none brings it back. */
  lemma LifeStep(s: State, step: Step, id: SessionId)
    requires |s.tasks| <= TWO_32 && Enabled(s, step) && Past(s, id)
    ensures NoAdds(LifeOf(Next(s, step), id).mine)
    ensures !LifeOf(s, id).Known() ==> !LifeOf(Next(s, step), id).Known()
  {
    if step.ControlNext? {
      LifeControlStep(s, id);
    } else {
      hide Next, Enabled, LifeOf, Past;
      if step.ControlDone? {
        LifeDone(s, id);
      } else {
        LifeSend(s, step, id);
      }
    }
  }

  /** No message about a session that has been taken in declares it again, and none but a declaration brings it back. */
  lemma HandledPast(l: Life, msg: ControlMsg, id: SessionId)
    requires NoAdds(l.mine) && (About(msg, id) ==> l.mine != [] && l.mine[0] == msg)
    ensures NoAdds(HandleLife(l, msg, id).mine)
    ensures !l.Known() ==> !HandleLife(l, msg, id).Known()
  {}

  lemma LifeControlStep(s: State, id: SessionId)
    requires Enabled(s, ControlNext) && Past(s, id)
    ensures NoAdds(LifeOf(ControlStep(s), id).mine)
    ensures !LifeOf(s, id).Known() ==> !LifeOf(ControlStep(s), id).Known()
  {
    PopLife(s, id);
    var l, msg := LifeOf(s, id), s.control.msgs[0];
    assert About(msg, id) ==> l.mine != [] && l.mine[0] == msg;
    hide Mine, Packets, ControlStep, HandleControl, LifeOf, HandleLife, NoAdds;
    if msg.RemoveSession? {
      RemovalLife(s, id);
    } else {
      ControlLife(s, id);
      HandledPast(l, msg, id);
    }
  }

  lemma {:induction false} Prefixes(steps: seq<Step>, k: nat)
    requires Possible(steps) && k <= |steps|
    ensures Possible(steps[..k]) && |After(steps[..k]).tasks| <= |After(steps).tasks|
    decreases |steps|
  {
    if k < |steps| {
      var front := steps[..|steps| - 1];
      hide Next, Enabled;
      Prefixes(front, k);
      TasksForward(After(front), steps[|steps| - 1]);
      assert front[..k] == steps[..k];
    } else {
      assert steps[..k] == steps;
    }
  }

  /** A session past its declaration stays so, and once it is gone it stays gone, from any point of a run on. */
  lemma {:induction false} PastFrom(steps: seq<Step>, k: nat, id: SessionId)
    requires Possible(steps) && |After(steps).tasks| <= TWO_32 && k <= |steps|
    requires Possible(steps[..k]) && Past(After(steps[..k]), id)
    ensures Past(After(steps), id)
    ensures !Known(After(steps[..k]), id) ==> !Known(After(steps), id)
    decreases |steps|
  {
    if k < |steps| {
      var front := steps[..|steps| - 1];
      hide Next, Enabled, Past, Known, LifecycleInv;
      TasksForward(After(front), steps[|steps| - 1]);
      assert front[..k] == steps[..k];
      PastFrom(front, k, id);
      ReachableLifecycle(front);
      StaysGone(After(front), steps[|steps| - 1], id);
    } else {
      assert steps[..k] == steps;
    }
  }

  /** An id that was known and has left both maps never appears in either again. */
  lemma NeverReturns(steps: seq<Step>, j: nat, k: nat, id: SessionId)
    requires Possible(steps) && |After(steps).tasks| <= TWO_32 && j <= k <= |steps|
    requires Possible(steps[..j]) && Known(After(steps[..j]), id)
    requires Possible(steps[..k]) && !Known(After(steps[..k]), id)
    ensures !Known(After(steps), id)
  {
    hide Next, Enabled, Past, Known, LifecycleInv, After, Possible;
    Prefixes(steps, k);
    Prefixes(steps, j);
    KnownAtPrefix(steps[..j], id);
    assert steps[..k][..j] == steps[..j];
    PastFrom(steps[..k], j, id);
    PastFrom(steps, k, id);
  }

  lemma KnownAtPrefix(steps: seq<Step>, id: SessionId)
    requires Possible(steps) && |After(steps).tasks| <= TWO_32 && Known(After(steps), id)
    ensures Past(After(steps), id)
  {
    hide After, Possible, Past, Known, Status;
    ReachableLifecycle(steps);
    KnownIsPast(After(steps), id);
  }
}
