/** A run in which one client speaks and another hears it, and a packet that ends the listener's connection instead. */
module ServerWitness {
  import opened Bytes
  import opened RoutingTables
  import opened Server
  import opened ServerEndToEnd
  import ServerVoice
  import Framing
  import Tunnel
  import Varint
  import Voice

  // ----- Two clients in one room -----

  const HELLO: ControlPacket := Authenticate([])

  /** Two sessions connect, declare themselves and authenticate; then the first says `p` and the second is sent it. */
  function Conversation(p: Voice.VoicePacket): (steps: seq<Step>)
    ensures |steps| == 15
  {
    [Connect, Connect,
     Declare(0, 0), ControlNext, Declare(1, 0), ControlNext,
     FromClient(0, Controlled(HELLO)), ControlNext, RoutingNext,
     FromClient(1, Controlled(HELLO)), ControlNext, RoutingNext,
     FromClient(0, Tunnelled(p)), RoutingNext, ToClient(1)]
  }

  lemma Script(p: Voice.VoicePacket)
    ensures var all := Conversation(p);
            && all[..0] == [] && all[..15] == all
            && all[0] == all[1] == Connect
            && all[2] == Declare(0, 0) && all[3] == ControlNext && all[4] == Declare(1, 0) && all[5] == ControlNext
            && all[6] == FromClient(0, Controlled(HELLO)) && all[7] == ControlNext && all[8] == RoutingNext
            && all[9] == FromClient(1, Controlled(HELLO)) && all[10] == ControlNext && all[11] == RoutingNext
            && all[12] == FromClient(0, Tunnelled(p)) && all[13] == RoutingNext && all[14] == ToClient(1)
  {}

  /** A running server with the given tasks, control queue and maps, routing queue and snapshot. */
  function Running(tasks: seq<Task>, control: seq<ControlMsg>, unauth: map<SessionId, Unauth>, table: Table,
                   routing: seq<RoutingMsg>, snapshot: Table): State {
    State(Listening, tasks, Queue(control, false), unauth, table, true, Queue(routing, false), snapshot, true, NoFault)
  }

  ghost predicate Reaches(steps: seq<Step>, s: State) {
    Possible(steps) && After(steps) == s
  }

  ghost predicate Takes(s: State, step: Step, t: State) {
    Enabled(s, step) && Next(s, step) == t
  }

  lemma OneMore(all: seq<Step>, k: nat, s: State, t: State)
    requires k < |all| && Reaches(all[..k], s) && Takes(s, all[k], t)
    ensures Reaches(all[..k + 1], t)
  {
    hide Next, Enabled;
    assert all[..k + 1][..k] == all[..k];
  }

  const NEW: Task := Task(Handshaking, [], [], [], [])

  lemma Connected(all: seq<Step>, k: nat, tasks: seq<Task>)
    requires k < |all| && all[k] == Connect && Reaches(all[..k], Running(tasks, [], map[], Empty(), [], Empty()))
    ensures Reaches(all[..k + 1], Running(tasks + [NEW], [], map[], Empty(), [], Empty()))
  {
    hide Reaches, Empty;
    OneMore(all, k, Running(tasks, [], map[], Empty(), [], Empty()), Running(tasks + [NEW], [], map[], Empty(), [], Empty()));
  }

  lemma Declares(tasks: seq<Task>, i: nat, unauth: map<SessionId, Unauth>, t: Table)
    requires i < |tasks| && i < TWO_32 && tasks[i].phase.Handshaking?
    ensures Takes(Running(tasks, [], unauth, t, [], t), Declare(i, 0),
                  Running(tasks[i := tasks[i].(phase := Active)], [AddSession(i, Unauth(0, i))], unauth, t, [], t))
  {
    var m := AddSession(i, Unauth(0, i));
    assert [] + [m] == [m];
  }

  lemma TakesIn(tasks: seq<Task>, i: SessionId, unauth: map<SessionId, Unauth>, t: Table)
    ensures Takes(Running(tasks, [AddSession(i, Unauth(0, i))], unauth, t, [], t), ControlNext,
                  Running(tasks, [], unauth[i := Unauth(0, i)], t, [], t))
  {
    var m := AddSession(i, Unauth(0, i));
    assert [m][1..] == [];
  }

  /** A session declares itself and the control task takes it in. */
  lemma Declared(all: seq<Step>, k: nat, tasks: seq<Task>, i: SessionId, unauth: map<SessionId, Unauth>, t: Table)
    requires k + 1 < |all| && all[k] == Declare(i, 0) && all[k + 1] == ControlNext
    requires i < |tasks| && tasks[i].phase.Handshaking? && Reaches(all[..k], Running(tasks, [], unauth, t, [], t))
    ensures Reaches(all[..k + 2], Running(tasks[i := tasks[i].(phase := Active)], [], unauth[i := Unauth(0, i)], t, [], t))
  {
    hide Reaches, Takes, Running;
    var active := tasks[i := tasks[i].(phase := Active)];
    var added := Running(active, [AddSession(i, Unauth(0, i))], unauth, t, [], t);
    Declares(tasks, i, unauth, t);
    OneMore(all, k, Running(tasks, [], unauth, t, [], t), added);
    TakesIn(active, i, unauth, t);
    OneMore(all, k + 1, added, Running(active, [], unauth[i := Unauth(0, i)], t, [], t));
  }

  lemma Asks(tasks: seq<Task>, i: SessionId, unauth: map<SessionId, Unauth>, t: Table)
    requires i < |tasks| && tasks[i].phase.Active?
    ensures Takes(Running(tasks, [], unauth, t, [], t), FromClient(i, Controlled(HELLO)),
                  Running(tasks[i := tasks[i].(controlLog := tasks[i].controlLog + [HELLO])], [Packet(i, HELLO)], unauth, t, [], t))
  {
    var m := Packet(i, HELLO);
    assert [] + [m] == [m];
  }

  lemma Enrols(tasks: seq<Task>, i: SessionId, unauth: map<SessionId, Unauth>, t: Table)
    requires i in unauth && i !in t.sessions
    ensures var u := Enroll(t, i, unauth[i].version, unauth[i].sender);
            Takes(Running(tasks, [Packet(i, HELLO)], unauth, t, [], t), ControlNext,
                  Running(tasks, [], unauth - {i}, u, [Update(u)], t))
  {
    hide Enroll;
    var m, u := Packet(i, HELLO), Update(Enroll(t, i, unauth[i].version, unauth[i].sender));
    assert [m][1..] == [] && [] + [u] == [u];
  }

  lemma Updates(tasks: seq<Task>, unauth: map<SessionId, Unauth>, t: Table, u: Table)
    ensures Takes(Running(tasks, [], unauth, u, [Update(u)], t), RoutingNext, Running(tasks, [], unauth, u, [], u))
  {
    assert [Update(u)][1..] == [];
  }

  /** A waiting session authenticates: the control task enrols it and the routing task takes the new table. */
  lemma Authenticated(all: seq<Step>, k: nat, tasks: seq<Task>, i: SessionId, unauth: map<SessionId, Unauth>, t: Table)
    requires k + 2 < |all| && all[k] == FromClient(i, Controlled(HELLO)) && all[k + 1] == ControlNext && all[k + 2] == RoutingNext
    requires i < |tasks| && tasks[i].phase.Active? && i in unauth && i !in t.sessions
    requires Reaches(all[..k], Running(tasks, [], unauth, t, [], t))
    ensures var u := Enroll(t, i, unauth[i].version, unauth[i].sender);
            var logged := tasks[i := tasks[i].(controlLog := tasks[i].controlLog + [HELLO])];
            Reaches(all[..k + 3], Running(logged, [], unauth - {i}, u, [], u))
  {
    hide Reaches, Takes, Running, Enroll;
    var u := Enroll(t, i, unauth[i].version, unauth[i].sender);
    var logged := tasks[i := tasks[i].(controlLog := tasks[i].controlLog + [HELLO])];
    var asked, published := Running(logged, [Packet(i, HELLO)], unauth, t, [], t), Running(logged, [], unauth - {i}, u, [Update(u)], t);
    Asks(tasks, i, unauth, t);
    OneMore(all, k, Running(tasks, [], unauth, t, [], t), asked);
    Enrols(logged, i, unauth, t);
    OneMore(all, k + 1, asked, published);
    Updates(logged, unauth - {i}, t, u);
    OneMore(all, k + 2, published, Running(logged, [], unauth - {i}, u, [], u));
  }

  function BothEnrolled(): Table {
    Enroll(Enroll(Empty(), 0, 0, 0), 1, 0, 1)
  }

  /** Both sessions after they have authenticated. */
  const READY: Task := Task(Active, [], [HELLO], [], [])

  const WAITING: Task := Task(Active, [], [], [], [])

  lemma BothConnected(p: Voice.VoicePacket)
    ensures Reaches(Conversation(p)[..2], Running([NEW, NEW], [], map[], Empty(), [], Empty()))
  {
    hide Conversation;
    Script(p);
    var all := Conversation(p);
    assert Reaches([], Running([], [], map[], Empty(), [], Empty()));
    hide Reaches, Running, Empty;
    Connected(all, 0, []);
    Connected(all, 1, [NEW]);
    assert [] + [NEW] == [NEW] && [NEW] + [NEW] == [NEW, NEW];
  }

  lemma BothWaiting(p: Voice.VoicePacket)
    ensures Reaches(Conversation(p)[..6],
                    Running([WAITING, WAITING], [], map[0 := Unauth(0, 0), 1 := Unauth(0, 1)], Empty(), [], Empty()))
  {
    BothConnected(p);
    Script(p);
    hide Reaches, Running, Empty, Conversation;
    var all := Conversation(p);
    Declared(all, 2, [NEW, NEW], 0, map[], Empty());
    assert [NEW, NEW][0 := WAITING] == [WAITING, NEW];
    Declared(all, 4, [WAITING, NEW], 1, map[0 := Unauth(0, 0)], Empty());
    assert [WAITING, NEW][1 := WAITING] == [WAITING, WAITING];
    assert map[][0 := Unauth(0, 0)][1 := Unauth(0, 1)] == map[0 := Unauth(0, 0), 1 := Unauth(0, 1)];
  }

  lemma OneReady(p: Voice.VoicePacket)
    ensures var t := Enroll(Empty(), 0, 0, 0);
            Reaches(Conversation(p)[..9], Running([READY, WAITING], [], map[1 := Unauth(0, 1)], t, [], t))
  {
    BothWaiting(p);
    NotEnrolled();
    Script(p);
    hide Reaches, Running, Enroll, Empty, Conversation;
    var all := Conversation(p);
    var unauth := map[0 := Unauth(0, 0), 1 := Unauth(0, 1)];
    Authenticated(all, 6, [WAITING, WAITING], 0, unauth, Empty());
    assert [] + [HELLO] == [HELLO];
    assert [WAITING, WAITING][0 := READY] == [READY, WAITING];
    assert unauth - {0} == map[1 := Unauth(0, 1)];
  }

  lemma Met(p: Voice.VoicePacket)
    ensures Reaches(Conversation(p)[..12], Running([READY, READY], [], map[], BothEnrolled(), [], BothEnrolled()))
  {
    OneReady(p);
    NotEnrolled();
    Script(p);
    hide Reaches, Running, Enroll, Empty, Conversation;
    var all := Conversation(p);
    var unauth := map[1 := Unauth(0, 1)];
    Authenticated(all, 9, [READY, WAITING], 1, unauth, Enroll(Empty(), 0, 0, 0));
    assert [] + [HELLO] == [HELLO];
    assert [READY, WAITING][1 := READY] == [READY, READY];
    assert unauth - {1} == map[];
  }

  lemma NotEnrolled()
    ensures 0 !in Empty().sessions && 1 !in Enroll(Empty(), 0, 0, 0).sessions
  {}

  // ----- One packet -----

  lemma EnrolledTogether()
    ensures Consistent(BothEnrolled()) && OwnSenders(BothEnrolled())
    ensures 0 in BothEnrolled().sessions && BothEnrolled().sessions[0].room == DEFAULT_ROOM
    ensures Members(BothEnrolled(), DEFAULT_ROOM) == {0, 1} && DEFAULT_ROOM in BothEnrolled().rooms
  {}

  lemma Copies()
    ensures VoiceCopies(BothEnrolled(), 0, 0) == 0 && VoiceCopies(BothEnrolled(), 0, 1) == 1
  {
    EnrolledTogether();
    hide BothEnrolled, Consistent, OwnSenders, Members;
    ServerVoice.VoiceCopiesExactly(BothEnrolled(), 0, 0);
    ServerVoice.VoiceCopiesExactly(BothEnrolled(), 0, 1);
  }

  function Outgoing(p: Voice.VoicePacket): Outbound
    requires p.Audio?
  {
    VoiceOut(Tunnel.Restamp(p, 0))
  }

  /** The two sessions, the second with the given inbox and offers, and a routing queue. */
  function Talking(voice: seq<Voice.VoicePacket>, inbox: seq<Outbound>, offered: seq<Outbound>, routing: seq<RoutingMsg>): State {
    Running([READY.(voiceLog := voice), READY.(inbox := inbox, offered := offered)],
            [], map[], BothEnrolled(), routing, BothEnrolled())
  }

  lemma Says(p: Voice.VoicePacket)
    ensures Takes(Talking([], [], [], []), FromClient(0, Tunnelled(p)), Talking([p], [], [], [VoiceMsg(0, p)]))
  {
    hide BothEnrolled;
    var m, spoken := VoiceMsg(0, p), READY.(voiceLog := [p]);
    assert [] + [m] == [m] && [] + [p] == [p];
    assert [READY, READY][0 := spoken] == [spoken, READY];
  }

  lemma Routes(p: Voice.VoicePacket)
    requires p.Audio? && p.target == 0
    ensures Takes(Talking([p], [], [], [VoiceMsg(0, p)]), RoutingNext, Talking([p], [Outgoing(p)], [Outgoing(p)], []))
  {
    EnrolledTogether();
    Copies();
    hide BothEnrolled, VoiceCopies, Consistent, OwnSenders, Members;
    var spoken, out := READY.(voiceLog := [p]), Outgoing(p);
    assert [VoiceMsg(0, p)][1..] == [];
    assert Repeat(out, 0) == [] && Repeat(out, 1) == [out];
    assert [] + Repeat(out, 0) == [] && [] + Repeat(out, 1) == [out];
    assert OfferVoice([spoken, READY], BothEnrolled(), 0, p) == [spoken, READY.(inbox := [out], offered := [out])];
  }

  lemma Delivers(p: Voice.VoicePacket)
    requires p.Audio?
    ensures Takes(Talking([p], [Outgoing(p)], [Outgoing(p)], []), ToClient(1), Talking([p], [], [Outgoing(p)], []))
  {
    hide BothEnrolled;
    var spoken, out := READY.(voiceLog := [p]), [Outgoing(p)];
    assert out[1..] == [];
    assert [spoken, READY.(inbox := out, offered := out)][1 := READY.(offered := out)] == [spoken, READY.(offered := out)];
  }

  lemma Tells(p: Voice.VoicePacket)
    requires p.Audio? && p.target == 0
    ensures Reaches(Conversation(p), Talking([p], [], [Outgoing(p)], []))
  {
    Met(p);
    Script(p);
    assert Talking([], [], [], []) == Running([READY, READY], [], map[], BothEnrolled(), [], BothEnrolled());
    hide Takes, Reaches, Conversation, Talking, Running, BothEnrolled, Outgoing;
    var all := Conversation(p);
    Says(p);
    OneMore(all, 12, Talking([], [], [], []), Talking([p], [], [], [VoiceMsg(0, p)]));
    Routes(p);
    OneMore(all, 13, Talking([p], [], [], [VoiceMsg(0, p)]), Talking([p], [Outgoing(p)], [Outgoing(p)], []));
    Delivers(p);
    OneMore(all, 14, Talking([p], [Outgoing(p)], [Outgoing(p)], []), Talking([p], [], [Outgoing(p)], []));
  }

  /** Every packet for the room can be heard: a run in which the second client is sent what the first one said. */
  lemma SomeoneHears(p: Voice.VoicePacket)
    requires p.Audio? && p.target == 0
    ensures Possible(Conversation(p)) && |After(Conversation(p)).tasks| == 2 && After(Conversation(p)).fault.NoFault?
    ensures Delivered(Conversation(p), 1) == [VoiceOut(Voice.Audio(p.target, Some(0), p.seqNum, p.payload, p.position))]
  {
    hide BothEnrolled, Conversation, Possible, After, Delivered;
    var all := Conversation(p);
    Tells(p);
    DeliveredInTransit(all, 1);
    assert Delivered(all, 1) + [] == Delivered(all, 1);
  }

  // ----- A packet that is too long once it is stamped -----

  /** Silence with as much position information as the server takes in one frame. */
  function LongPacket(): Voice.VoicePacket {
    Voice.Audio(0, None, 0, Voice.Opus([], false), Some(seq(Framing.MAX_LENGTH - 3, i => 0)))
  }

  lemma LongPacketLength()
    ensures Voice.WellFormed(Voice.Serverbound, LongPacket()) && |Voice.Encode(LongPacket())| == Framing.MAX_LENGTH
  {
    assert Varint.Write(0) == [0];
    hide Varint.Write;
  }

  /** The server takes the packet from its speaker, and whoever the speaker is, no listener takes the stamped one. */
  lemma LongPacketOnlyFitsUplink(speaker: u32)
    ensures Tunnel.Fits(Voice.Serverbound, LongPacket()) && !Tunnel.Fits(Voice.Clientbound, Tunnel.Restamp(LongPacket(), speaker))
    ensures Voice.WellFormed(Voice.Clientbound, Tunnel.Restamp(LongPacket(), speaker))
    ensures Framing.MAX_LENGTH < |Voice.Encode(Tunnel.Restamp(LongPacket(), speaker))| < TWO_32
  {
    LongPacketLength();
    hide Voice.Encode, Varint.Write;
    Tunnel.RestampGrows(LongPacket(), speaker);
    Varint.WriteLength(speaker);
  }

  lemma OneVoiceOut(q: Voice.VoicePacket)
    ensures VoicesOut([VoiceOut(q)]) == [q]
  {
    assert [VoiceOut(q)][..0] == [];
  }

  lemma OneFrame(q: Voice.VoicePacket)
    requires |Voice.Encode(q)| < TWO_32
    ensures Tunnel.Tunnelled(Tunnel.Raws([q])) == Tunnel.Raws([q])
    ensures Tunnel.Sendable(Tunnel.Raws([q])) && Tunnel.OthersShort(Tunnel.Raws([q]))
  {
    hide Voice.Encode;
    assert Tunnel.Raws([q]) == [Tunnel.ToRaw(q)];
    assert [Tunnel.ToRaw(q)][1..] == [];
  }

  /** A stream with a single packet: it is heard, or the connection fails. */
  lemma OnePacketStream(q: Voice.VoicePacket, downlink: seq<seq<byte>>)
    requires Voice.WellFormed(Voice.Clientbound, q) && |Voice.Encode(q)| < TWO_32
    requires Framing.Flatten(downlink) == Framing.FrameAll(Tunnel.Raws([q]))
    ensures var heard := Tunnel.VoicesIn(Tunnel.Heard(Voice.Clientbound, downlink));
            if |Voice.Encode(q)| <= Framing.MAX_LENGTH then heard == [q] && !Tunnel.Failed(downlink)
            else heard == [] && Tunnel.Failed(downlink)
  {
    OneFrame(q);
    hide Voice.Encode, Voice.WellFormed;
    hide Tunnel.Raws, Tunnel.Tunnelled, Tunnel.Heard, Tunnel.VoicesIn, Tunnel.Failed, Tunnel.Sendable, Tunnel.OthersShort;
    hide Framing.Flatten, Framing.FrameAll;
    Tunnel.MixedHopExactly(Voice.Clientbound, Tunnel.Raws([q]), [q], downlink);
  }

  /** The listener's stream at the end of the conversation. */
  ghost predicate HearsOf(p: Voice.VoicePacket, downlink: seq<seq<byte>>) {
    && Possible(Conversation(p))
    && Framing.Flatten(downlink) == Framing.FrameAll(Tunnel.Raws(VoicesOut(Delivered(Conversation(p), 1))))
  }

  /**
   * The conversation for every packet the server can take: whatever the chunks in which the stream arrives, the second
   * client hears the stamped packet if there is room for the id, and else its connection fails.
   */
  lemma ConversationExactly(p: Voice.VoicePacket, downlink: seq<seq<byte>>)
    requires p.Audio? && p.target == 0 && Tunnel.Fits(Voice.Serverbound, p) && HearsOf(p, downlink)
    ensures var heard := Tunnel.VoicesIn(Tunnel.Heard(Voice.Clientbound, downlink));
            if |Voice.Encode(p)| < Framing.MAX_LENGTH then heard == [Voice.Audio(p.target, Some(0), p.seqNum, p.payload, p.position)] && !Tunnel.Failed(downlink)
            else heard == [] && Tunnel.Failed(downlink)
  {
    assert Varint.Write(0) == [0];
    hide Voice.Encode, Voice.PayloadFits, Varint.Write, Conversation, Delivered, VoicesOut, Possible, After;
    hide Tunnel.Raws, Tunnel.Heard, Tunnel.VoicesIn, Tunnel.Failed, Framing.Flatten, Framing.FrameAll;
    SomeoneHears(p);
    OneVoiceOut(Tunnel.Restamp(p, 0));
    Tunnel.RestampGrows(p, 0);
    OnePacketStream(Tunnel.Restamp(p, 0), downlink);
  }

  /** One client's packet ends the connection of another, which hears nothing of what was delivered to it. */
  lemma LongPacketCutsOff(downlink: seq<seq<byte>>)
    requires HearsOf(LongPacket(), downlink)
    ensures Delivered(Conversation(LongPacket()), 1) == [VoiceOut(Tunnel.Restamp(LongPacket(), 0))]
    ensures Tunnel.VoicesIn(Tunnel.Heard(Voice.Clientbound, downlink)) == [] && Tunnel.Failed(downlink)
  {
    LongPacketOnlyFitsUplink(0);
    LongPacketLength();
    hide Voice.Encode, Voice.WellFormed, HearsOf, Conversation, Delivered, Possible, After, Tunnel.Heard, Tunnel.VoicesIn, Tunnel.Failed;
    SomeoneHears(LongPacket());
    ConversationExactly(LongPacket(), downlink);
  }
}
