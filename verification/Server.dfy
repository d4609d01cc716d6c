/**
 * The server as a transition system: an accept task, one task per connection, the control task and the
 * routing task, joined by FIFO queues and interleaved arbitrarily.
 */
module Server {
  import opened Bytes
  import opened RoutingTables
  import Voice
  import Tunnel

  // ----- Messages -----

  datatype TextMessage = TextMessage(actor: Option<SessionId>, sessions: seq<SessionId>, rooms: seq<RoomId>, body: seq<byte>)

  /** Control packets other than tunnelled voice, text and pings; bodies are not interpreted. */
  datatype ControlPacket = Authenticate(body: seq<byte>) | OtherPacket(body: seq<byte>)

  /** What a session task takes from its client. */
  datatype Inbound = Tunnelled(voice: Voice.VoicePacket) | Texted(text: TextMessage) | Controlled(packet: ControlPacket)

  /** What a session task sends to its client. */
  datatype Outbound = VoiceOut(voice: Voice.VoicePacket) | TextOut(text: TextMessage)

  datatype Unauth = Unauth(version: u32, sender: Sender)

  datatype ControlMsg =
    | Packet(id: SessionId, packet: ControlPacket)
    | AddSession(id: SessionId, unauth: Unauth)
    | RemoveSession(id: SessionId)
    | StopControl

  datatype RoutingMsg =
    | VoiceMsg(id: SessionId, voice: Voice.VoicePacket)
    | TextMsg(id: SessionId, text: TextMessage)
    | Update(table: Table)
    | StopRouting

  /** An unbounded channel: what was sent and not yet received, and whether sending has been closed. */
  datatype Queue<T> = Queue(msgs: seq<T>, closed: bool) {
    function Push(m: T): Queue<T> {
      if closed then this else Queue(msgs + [m], closed)
    }
  }

  // ----- State -----

  datatype AcceptPhase = Listening | Joining | Finished

  datatype Phase = Handshaking | Active | Stopped

  /**
   * One session task. `inbox` is its channel; the three logs record what it forwarded to the control task,
   * what it forwarded to the routing task as voice, and everything ever put into its inbox.
   */
  datatype Task = Task(phase: Phase, inbox: seq<Outbound>,
                       controlLog: seq<ControlPacket>, voiceLog: seq<Voice.VoicePacket>, offered: seq<Outbound>)

  /** Why the server has panicked: an expectation of its own, or a path the source leaves unimplemented. */
  datatype Fault = NoFault | ExpectFailed | Unimplemented

  datatype State = State(
    accept: AcceptPhase,
    tasks: seq<Task>,
    control: Queue<ControlMsg>, unauth: map<SessionId, Unauth>, table: Table, controlUp: bool,
    routing: Queue<RoutingMsg>, snapshot: Table, routingUp: bool,
    fault: Fault)

  function Init(): State {
    State(Listening, [], Queue([], false), map[], Empty(), true, Queue([], false), Empty(), true, NoFault)
  }

  /** The id of the `i`-th connection: a 32-bit count. */
  function IdOf(i: nat): SessionId {
    i % TWO_32
  }

  // ----- The control task -----

  /** What one message does to the control task: its new maps, and whether it publishes the table, closes its queue or panics. */
  datatype ControlEffect = ControlEffect(unauth: map<SessionId, Unauth>, table: Table, publish: bool, close: bool, broken: bool)

  function HandlePacket(unauth: map<SessionId, Unauth>, table: Table, id: SessionId, packet: ControlPacket): ControlEffect {
    if id in table.sessions then ControlEffect(unauth, table, false, false, false)
    else if id in unauth then
      if packet.Authenticate?
      then ControlEffect(unauth - {id}, Enroll(table, id, unauth[id].version, unauth[id].sender), true, false, false)
      else ControlEffect(unauth - {id}, table, false, false, false)
    else ControlEffect(unauth, table, false, false, false)
  }

  function HandleControl(unauth: map<SessionId, Unauth>, table: Table, msg: ControlMsg): ControlEffect {
    match msg
    case Packet(id, packet) => HandlePacket(unauth, table, id, packet)
    case AddSession(id, session) => ControlEffect(unauth[id := session], table, false, false, false)
    case RemoveSession(id) =>
      if id in unauth then ControlEffect(unauth - {id}, table, false, false, false)
      else if id !in table.sessions then ControlEffect(unauth, table, false, false, false)
      else if table.sessions[id].room !in table.rooms then ControlEffect(unauth, table, false, false, true)
      else ControlEffect(unauth, Expel(table, id), true, false, false)
    case StopControl => ControlEffect(unauth, table, false, true, false)
  }

  // ----- The routing task -----

  function Repeat<T>(x: T, n: nat): (s: seq<T>)
    ensures |s| == n
  {
    seq(n, i => x)
  }

  /** `n` copies of a packet sent to a session; a stopped session's channel refuses them. */
  function Offer(task: Task, out: Outbound, n: nat): Task {
    if task.phase.Active?
    then task.(inbox := task.inbox + Repeat(out, n), offered := task.offered + Repeat(out, n))
    else task
  }

  /** How many copies of a speaker's packet go to the sender `c`. */
  function VoiceCopies(t: Table, speaker: SessionId, c: Sender): nat {
    if speaker in t.sessions then |Via(t, t.sessions[speaker].room, Some(speaker), c)| else 0
  }

  function NamedCopies(t: Table, ids: seq<SessionId>, c: Sender): nat {
    if ids == [] then 0
    else (if ids[0] in t.sessions && t.sessions[ids[0]].sender == c then 1 else 0) + NamedCopies(t, ids[1..], c)
  }

  function RoomCopies(t: Table, rooms: seq<RoomId>, c: Sender): nat {
    if rooms == [] then 0 else |Via(t, rooms[0], None, c)| + RoomCopies(t, rooms[1..], c)
  }

  /** The named rooms a text gets to: those before the first one that does not exist. */
  function Reached(t: Table, rooms: seq<RoomId>): seq<RoomId> {
    if rooms == [] || rooms[0] !in t.rooms then [] else [rooms[0]] + Reached(t, rooms[1..])
  }

  /** How many copies of a text go to the sender `c`: for the sessions it names and for the rooms it gets to. */
  function TextCopies(t: Table, text: TextMessage, c: Sender): nat {
    NamedCopies(t, text.sessions, c) + RoomCopies(t, Reached(t, text.rooms), c)
  }

  predicate AllRoomsExist(t: Table, rooms: seq<RoomId>) {
    forall r :: r in rooms ==> r in t.rooms
  }

  function OfferVoice(tasks: seq<Task>, t: Table, speaker: SessionId, p: Voice.VoicePacket): (r: seq<Task>)
    requires p.Audio?
    ensures |r| == |tasks|
  {
    seq(|tasks|, j requires 0 <= j < |tasks| =>
      Offer(tasks[j], VoiceOut(Tunnel.Restamp(p, speaker)), VoiceCopies(t, speaker, j)))
  }

  function OfferText(tasks: seq<Task>, t: Table, actor: SessionId, text: TextMessage): (r: seq<Task>)
    ensures |r| == |tasks|
  {
    seq(|tasks|, j requires 0 <= j < |tasks| =>
      Offer(tasks[j], TextOut(text.(actor := Some(actor))), TextCopies(t, text, j)))
  }

  function HandleVoice(s: State, id: SessionId, p: Voice.VoicePacket): State {
    if p.Ping? || p.target != 0 then s.(fault := Unimplemented)
    else if id in s.snapshot.sessions && s.snapshot.sessions[id].room !in s.snapshot.rooms then s.(fault := ExpectFailed)
    else s.(tasks := OfferVoice(s.tasks, s.snapshot, id, p))
  }

  /** Copies go out one by one; a room that does not exist panics with those before it already sent. */
  function HandleText(s: State, id: SessionId, text: TextMessage): State {
    s.(tasks := OfferText(s.tasks, s.snapshot, id, text),
       fault := if AllRoomsExist(s.snapshot, text.rooms) then s.fault else Unimplemented)
  }

  function HandleRouting(s: State, msg: RoutingMsg): State {
    match msg
    case VoiceMsg(id, p) => HandleVoice(s, id, p)
    case TextMsg(id, text) => HandleText(s, id, text)
    case Update(t) => s.(snapshot := t)
    case StopRouting => s.(routing := s.routing.(closed := true))
  }

  // ----- Who still holds a sender -----

  predicate InTable(t: Table, c: Sender) {
    exists id :: id in t.sessions && t.sessions[id].sender == c
  }

  predicate InControlQueue(s: State, c: Sender) {
    exists k :: 0 <= k < |s.control.msgs| && s.control.msgs[k].AddSession? && s.control.msgs[k].unauth.sender == c
  }

  predicate InRoutingQueue(s: State, c: Sender) {
    exists k :: 0 <= k < |s.routing.msgs| && s.routing.msgs[k].Update? && InTable(s.routing.msgs[k].table, c)
  }

  /** Some message, map or table can still send to the session task `c`. */
  predicate SenderAlive(s: State, c: Sender) {
    || InControlQueue(s, c)
    || InRoutingQueue(s, c)
    || (s.controlUp && exists id :: id in s.unauth && s.unauth[id].sender == c)
    || (s.controlUp && InTable(s.table, c))
    || (s.routingUp && InTable(s.snapshot, c))
  }

  predicate AllStopped(s: State) {
    forall i :: 0 <= i < |s.tasks| ==> s.tasks[i].phase.Stopped?
  }

  /** Everything that could still send to the control task is gone. */
  predicate NoControlSenders(s: State) {
    s.accept.Finished? && AllStopped(s)
  }

  predicate NoRoutingSenders(s: State) {
    NoControlSenders(s) && !s.controlUp
  }

  // ----- Steps -----

  datatype Step =
    | Connect
    | StopAccepting
    | JoinSessions
    | FailHandshake(i: nat)
    | Declare(i: nat, version: u32)
    | FromClient(i: nat, packet: Inbound)
    | Leave(i: nat)
    | ToClient(i: nat)
    | RunDry(i: nat)
    | ControlNext
    | ControlDone
    | RoutingNext
    | RoutingDone

  predicate InPhase(s: State, i: nat, phase: Phase) {
    i < |s.tasks| && s.tasks[i].phase == phase
  }

  predicate Enabled(s: State, step: Step) {
    s.fault.NoFault? &&
    match step
    case Connect => s.accept.Listening?
    case StopAccepting => s.accept.Listening?
    case JoinSessions => s.accept.Joining? && AllStopped(s)
    case FailHandshake(i) => InPhase(s, i, Handshaking)
    case Declare(i, _) => InPhase(s, i, Handshaking)
    case FromClient(i, _) => InPhase(s, i, Active)
    case Leave(i) => InPhase(s, i, Active)
    case ToClient(i) => InPhase(s, i, Active) && s.tasks[i].inbox != []
    case RunDry(i) => InPhase(s, i, Active) && s.tasks[i].inbox == [] && !SenderAlive(s, i)
    case ControlNext => s.controlUp && s.control.msgs != []
    case ControlDone => s.controlUp && s.control.msgs == [] && (s.control.closed || NoControlSenders(s))
    case RoutingNext => s.routingUp && s.routing.msgs != []
    case RoutingDone => s.routingUp && s.routing.msgs == [] && (s.routing.closed || NoRoutingSenders(s))
  }

  /** A send that the source expects to succeed. */
  function ExpectRouting(s: State, m: RoutingMsg): State {
    if s.routing.closed then s.(fault := ExpectFailed) else s.(routing := s.routing.Push(m))
  }

  function SetTask(s: State, i: nat, task: Task): State
    requires i < |s.tasks|
  {
    s.(tasks := s.tasks[i := task])
  }

  function Forward(s: State, i: nat, packet: Inbound): State
    requires i < |s.tasks|
  {
    var task := s.tasks[i];
    match packet
    case Tunnelled(v) =>
      if s.routing.closed then s
      else SetTask(s, i, task.(voiceLog := task.voiceLog + [v])).(routing := s.routing.Push(VoiceMsg(IdOf(i), v)))
    case Texted(text) => s.(routing := s.routing.Push(TextMsg(IdOf(i), text)))
    case Controlled(p) =>
      if s.control.closed then s
      else SetTask(s, i, task.(controlLog := task.controlLog + [p])).(control := s.control.Push(Packet(IdOf(i), p)))
  }

  function ControlStep(s: State): State
    requires s.control.msgs != []
  {
    var e := HandleControl(s.unauth, s.table, s.control.msgs[0]);
    var s' := s.(control := Queue(s.control.msgs[1..], s.control.closed || e.close), unauth := e.unauth, table := e.table);
    if e.broken then s'.(fault := ExpectFailed)
    else if e.publish then ExpectRouting(s', Update(e.table))
    else s'
  }

  function Next(s: State, step: Step): State
    requires Enabled(s, step)
  {
    match step
    case Connect => s.(tasks := s.tasks + [Task(Handshaking, [], [], [], [])])
    case StopAccepting =>
      if s.control.closed then s.(fault := ExpectFailed)
      else s.(accept := Joining, control := s.control.Push(StopControl))
    case JoinSessions => s.(accept := Finished)
    case FailHandshake(i) => SetTask(s, i, s.tasks[i].(phase := Stopped))
    case Declare(i, version) =>
      if s.control.closed then SetTask(s, i, s.tasks[i].(phase := Stopped))
      else SetTask(s, i, s.tasks[i].(phase := Active)).(control := s.control.Push(AddSession(IdOf(i), Unauth(version, i))))
    case FromClient(i, packet) => Forward(s, i, packet)
    case Leave(i) => SetTask(s, i, s.tasks[i].(phase := Stopped, inbox := [])).(control := s.control.Push(RemoveSession(IdOf(i))))
    case ToClient(i) => SetTask(s, i, s.tasks[i].(inbox := s.tasks[i].inbox[1..]))
    case RunDry(i) => SetTask(s, i, s.tasks[i].(phase := Stopped))
    case ControlNext => ControlStep(s)
    case ControlDone => ExpectRouting(s.(controlUp := false, control := Queue([], true), unauth := map[]), StopRouting)
    case RoutingNext => HandleRouting(s.(routing := s.routing.(msgs := s.routing.msgs[1..])), s.routing.msgs[0])
    case RoutingDone => s.(routingUp := false, routing := Queue([], true))
  }

  /** What a step other than the routing task's makes of the session tasks. */
  function TasksAfter(s: State, step: Step): seq<Task>
    requires Enabled(s, step) && !step.RoutingNext?
  {
    match step
    case Connect => s.tasks + [Task(Handshaking, [], [], [], [])]
    case FailHandshake(i) => s.tasks[i := s.tasks[i].(phase := Stopped)]
    case Declare(i, _) => s.tasks[i := s.tasks[i].(phase := if s.control.closed then Stopped else Active)]
    case FromClient(i, packet) => s.tasks[i := Logged(s, s.tasks[i], packet)]
    case Leave(i) => s.tasks[i := s.tasks[i].(phase := Stopped, inbox := [])]
    case ToClient(i) => s.tasks[i := s.tasks[i].(inbox := s.tasks[i].inbox[1..])]
    case RunDry(i) => s.tasks[i := s.tasks[i].(phase := Stopped)]
    case _ => s.tasks
  }

  /** A session's logs after it has forwarded a packet. */
  function Logged(s: State, task: Task, packet: Inbound): Task {
    match packet
    case Tunnelled(v) => if s.routing.closed then task else task.(voiceLog := task.voiceLog + [v])
    case Texted(_) => task
    case Controlled(p) => if s.control.closed then task else task.(controlLog := task.controlLog + [p])
  }

  lemma ForwardTasks(s: State, i: nat, packet: Inbound)
    requires i < |s.tasks|
    ensures Forward(s, i, packet).tasks == s.tasks[i := Logged(s, s.tasks[i], packet)]
  {
    assert s.tasks[i := s.tasks[i]] == s.tasks;
  }

  /** A forwarded packet goes to one of the two queues. */
  lemma ForwardQueues(s: State, i: nat, packet: Inbound)
    requires i < |s.tasks|
    ensures var s' := Forward(s, i, packet);
            && s'.unauth == s.unauth && s'.table == s.table && s'.snapshot == s.snapshot
            && s'.control == (if packet.Controlled? then s.control.Push(Packet(IdOf(i), packet.packet)) else s.control)
            && s'.routing == (match packet
                              case Tunnelled(v) => s.routing.Push(VoiceMsg(IdOf(i), v))
                              case Texted(text) => s.routing.Push(TextMsg(IdOf(i), text))
                              case Controlled(_) => s.routing)
  {}

  /** Every step changes the task of its own session and no other. */
  lemma TasksAfterNext(s: State, step: Step)
    requires Enabled(s, step) && !step.RoutingNext?
    ensures Next(s, step).tasks == TasksAfter(s, step)
  {
    hide SenderAlive, AllStopped, HandleControl, HandleRouting, Forward, Logged;
    if step.FromClient? {
      ForwardTasks(s, step.i, step.packet);
    }
  }

  /** The routing task touches its own table and queue, the sessions' channels, and nothing else. */
  lemma RoutingOnly(s: State)
    requires Enabled(s, RoutingNext)
    ensures var s' := Next(s, RoutingNext);
            && s'.accept == s.accept && s'.control == s.control && s'.unauth == s.unauth && s'.table == s.table
            && s'.controlUp == s.controlUp && s'.routingUp == s.routingUp && s'.routing.msgs == s.routing.msgs[1..]
  {
    hide OfferVoice, OfferText, AllRoomsExist;
  }

  /** The control task touches its own maps and queue and the routing queue. */
  lemma ControlOnly(s: State)
    requires s.control.msgs != []
    ensures var s' := ControlStep(s);
            && s'.accept == s.accept && s'.tasks == s.tasks && s'.controlUp == s.controlUp && s'.routingUp == s.routingUp
            && s'.snapshot == s.snapshot && s'.control.msgs == s.control.msgs[1..]
  {
    hide HandleControl;
  }

  // ----- Runs -----

  function After(steps: seq<Step>): State
    requires Possible(steps)
    decreases |steps|, 1
  {
    if steps == [] then Init() else Next(After(steps[..|steps| - 1]), steps[|steps| - 1])
  }

  /** Every step of the run is enabled when it is taken. */
  predicate Possible(steps: seq<Step>)
    decreases |steps|, 0
  {
    steps == [] || (Possible(steps[..|steps| - 1]) && Enabled(After(steps[..|steps| - 1]), steps[|steps| - 1]))
  }

  /** The last step of a run that goes on with `more`. */
  lemma LastOfMore(steps: seq<Step>, more: seq<Step>)
    requires more != [] && Possible(steps + more)
    ensures var k := |more| - 1;
            && Possible(steps + more[..k]) && Enabled(After(steps + more[..k]), more[k])
            && After(steps + more) == Next(After(steps + more[..k]), more[k])
  {
    hide Next, Enabled;
    var k, all := |more| - 1, steps + more;
    assert all[..|all| - 1] == steps + more[..k] && all[|all| - 1] == more[k];
  }
}
