/** Where voice and text go: the fan-out of one message, and the order of a speaker's packets over a whole run. */
module ServerVoice {
  import opened Bytes
  import opened RoutingTables
  import opened Server
  import Voice
  import Tunnel
  import ServerShutdown
  import ServerLifecycle

  // ----- Every snapshot reaches every session through its own channel -----

  ghost predicate OwnUpdates(msgs: seq<RoutingMsg>) {
    forall k :: 0 <= k < |msgs| && msgs[k].Update? ==> OwnSenders(msgs[k].table)
  }

  ghost predicate OwnInv(s: State) {
    OwnSenders(s.snapshot) && OwnUpdates(s.routing.msgs)
  }

  lemma TableOwnsSenders(s: State)
    requires ServerLifecycle.LifecycleInv(s)
    ensures OwnSenders(s.table)
  {
    hide ServerLifecycle.Mine, ServerLifecycle.Packets;
    forall id | id in s.table.sessions
      ensures s.table.sessions[id].sender == id
    {
      assert ServerLifecycle.Status(s, id);
    }
  }

  /** The message a step puts on the routing queue. */
  function Pushed(s: State, step: Step): seq<RoutingMsg>
    requires Enabled(s, step)
  {
    if s.routing.closed then []
    else match step
      case FromClient(i, packet) =>
        if packet.Tunnelled? then [VoiceMsg(IdOf(i), packet.voice)]
        else if packet.Texted? then [TextMsg(IdOf(i), packet.text)]
        else []
      case ControlNext =>
        var e := HandleControl(s.unauth, s.table, s.control.msgs[0]);
        if e.publish && !e.broken then [Update(e.table)] else []
      case ControlDone => [StopRouting]
      case _ => []
  }

  /** Every step but the routing task's own leaves its snapshot alone and at most adds to its queue. */
  lemma RoutingFrame(s: State, step: Step)
    requires Enabled(s, step) && !step.RoutingNext?
    ensures Next(s, step).snapshot == s.snapshot
    ensures Next(s, step).routing.msgs == s.routing.msgs + Pushed(s, step)
  {
    hide SenderAlive, AllStopped, HandleControl, HandleRouting, Forward;
    assert s.routing.msgs + [] == s.routing.msgs;
    if step.FromClient? {
      ForwardQueues(s, step.i, step.packet);
    }
  }

  lemma RoutingPop(s: State)
    requires Enabled(s, RoutingNext)
    ensures Next(s, RoutingNext).routing.msgs == s.routing.msgs[1..]
    ensures Next(s, RoutingNext).snapshot == if s.routing.msgs[0].Update? then s.routing.msgs[0].table else s.snapshot
  {
    hide OfferVoice, OfferText;
  }

  lemma PublishedTable(s: State, step: Step)
    requires Enabled(s, step)
    ensures forall k :: 0 <= k < |Pushed(s, step)| && Pushed(s, step)[k].Update? ==> Pushed(s, step)[k].table == Next(s, step).table
  {
    if step.ControlNext? {
      ServerLifecycle.ControlStepFields(s);
      hide ControlStep, HandleControl;
    } else {
      hide Next;
    }
  }

  lemma OwnStep(s: State, step: Step)
    requires OwnInv(s) && Enabled(s, step) && OwnSenders(Next(s, step).table)
    ensures OwnInv(Next(s, step))
  {
    hide OwnSenders, Next, Pushed;
    if step.RoutingNext? {
      RoutingPop(s);
    } else {
      RoutingFrame(s, step);
      PublishedTable(s, step);
    }
  }

  lemma {:induction false} ReachableOwn(steps: seq<Step>)
    requires Possible(steps) && |After(steps).tasks| <= TWO_32
    ensures OwnInv(After(steps))
    decreases |steps|
  {
    if steps != [] {
      var front := steps[..|steps| - 1];
      hide Next, Enabled, OwnInv, OwnSenders, ServerLifecycle.LifecycleInv;
      ServerLifecycle.TasksForward(After(front), steps[|steps| - 1]);
      ReachableOwn(front);
      ServerLifecycle.ReachableLifecycle(steps);
      TableOwnsSenders(After(steps));
      OwnStep(After(front), steps[|steps| - 1]);
    }
  }

  // ----- Fan-out of one voice packet -----

  lemma VoiceCopiesExactly(t: Table, speaker: SessionId, j: nat)
    requires Consistent(t) && OwnSenders(t)
    ensures var peer := speaker in t.sessions && j < TWO_32 && j != speaker && j in Members(t, t.sessions[speaker].room);
            VoiceCopies(t, speaker, j) == if peer then 1 else 0
  {
    if speaker in t.sessions {
      ViaOwnSender(t, t.sessions[speaker].room, Some(speaker), j);
    }
  }

  /** What the routing task does with a target-0 audio packet: one stamped copy for each other member of the speaker's room. */
  lemma VoiceFanOut(steps: seq<Step>, j: SessionId)
    requires Possible(steps) && |After(steps).tasks| <= TWO_32 && j < |After(steps).tasks|
    requires var s := After(steps);
             && Enabled(s, RoutingNext) && s.routing.msgs[0].VoiceMsg?
             && s.routing.msgs[0].voice.Audio? && s.routing.msgs[0].voice.target == 0
    ensures var s := After(steps);
            var s' := Next(s, RoutingNext);
            var speaker, p := s.routing.msgs[0].id, s.routing.msgs[0].voice;
            var peer := speaker in s.snapshot.sessions && j != speaker && j in Members(s.snapshot, s.snapshot.sessions[speaker].room);
            && s'.fault.NoFault? && |s'.tasks| == |s.tasks|
            && s'.tasks[j].offered == s.tasks[j].offered +
                 if s.tasks[j].phase.Active? && peer
                 then [VoiceOut(Voice.Audio(p.target, Some(speaker), p.seqNum, p.payload, p.position))] else []
  {
    hide Possible, After, Via;
    ServerShutdown.ReachableInv(steps);
    ReachableOwn(steps);
    var s := After(steps);
    VoiceCopiesExactly(s.snapshot, s.routing.msgs[0].id, j);
    assert s.tasks[j].offered + [] == s.tasks[j].offered;
  }

  // ----- Fan-out of one text -----

  function Count<T(==)>(s: seq<T>, x: T): nat {
    if s == [] then 0 else (if s[0] == x then 1 else 0) + Count(s[1..], x)
  }

  lemma {:induction false} NamedExactly(t: Table, ids: seq<SessionId>, j: SessionId)
    requires OwnSenders(t)
    ensures NamedCopies(t, ids, j) == if j in t.sessions then Count(ids, j) else 0
  {
    if ids != [] {
      NamedExactly(t, ids[1..], j);
    }
  }

  lemma {:induction false} RoomsExactly(t: Table, rooms: seq<RoomId>, j: SessionId)
    requires Consistent(t) && OwnSenders(t) && AllRoomsExist(t, rooms)
    ensures RoomCopies(t, rooms, j) == if j in t.sessions then Count(rooms, t.sessions[j].room) else 0
  {
    hide Via;
    if rooms != [] {
      ViaOwnSender(t, rooms[0], None, j);
      RoomsExactly(t, rooms[1..], j);
    }
  }

  lemma TextStep(s: State, j: nat)
    requires Enabled(s, RoutingNext) && s.routing.msgs[0].TextMsg? && j < |s.tasks|
    ensures var s' := Next(s, RoutingNext);
            var actor, text := s.routing.msgs[0].id, s.routing.msgs[0].text;
            && s'.fault == (if AllRoomsExist(s.snapshot, text.rooms) then NoFault else Unimplemented)
            && |s'.tasks| == |s.tasks|
            && s'.tasks[j] == Offer(s.tasks[j], TextOut(text.(actor := Some(actor))), TextCopies(s.snapshot, text, j))
  {
    hide TextCopies, Offer, AllRoomsExist;
  }

  lemma {:induction false} ReachedExist(t: Table, rooms: seq<RoomId>)
    ensures AllRoomsExist(t, Reached(t, rooms)) && Reached(t, rooms) <= rooms
    ensures AllRoomsExist(t, rooms) <==> Reached(t, rooms) == rooms
  {
    if rooms != [] && rooms[0] in t.rooms {
      ReachedExist(t, rooms[1..]);
      assert rooms == [rooms[0]] + rooms[1..];
    }
  }

  /**
   * Copies of a text: an enrolled session gets one for each time it is named and one for each time its room is
   * named, a session that is not enrolled gets none, and every copy carries the true sender as actor. With a room
   * that does not exist, that holds of the rooms named before it, and then the routing task panics.
   */
  lemma TextFanOut(steps: seq<Step>, j: SessionId)
    requires Possible(steps) && |After(steps).tasks| <= TWO_32 && j < |After(steps).tasks|
    requires Enabled(After(steps), RoutingNext) && After(steps).routing.msgs[0].TextMsg?
    ensures var s := After(steps);
            var s' := Next(s, RoutingNext);
            var actor, text := s.routing.msgs[0].id, s.routing.msgs[0].text;
            var known := AllRoomsExist(s.snapshot, text.rooms);
            var rooms := if known then text.rooms else Reached(s.snapshot, text.rooms);
            var copies := if j in s.snapshot.sessions
                          then Count(text.sessions, j) + Count(rooms, s.snapshot.sessions[j].room) else 0;
            && s'.fault == (if known then NoFault else Unimplemented) && |s'.tasks| == |s.tasks|
            && s'.tasks[j].offered == s.tasks[j].offered +
                 if s.tasks[j].phase.Active? then Repeat(TextOut(text.(actor := Some(actor))), copies) else []
  {
    hide Possible, After, Via, Next, Repeat, Reached, AllRoomsExist;
    ServerShutdown.ReachableInv(steps);
    ReachableOwn(steps);
    var s := After(steps);
    var text := s.routing.msgs[0].text;
    ReachedExist(s.snapshot, text.rooms);
    NamedExactly(s.snapshot, text.sessions, j);
    RoomsExactly(s.snapshot, Reached(s.snapshot, text.rooms), j);
    TextStep(s, j);
  }

  // ----- Order over whole runs -----

  /** `a` can be got from `b` by leaving elements out. */
  ghost predicate Subsequence<T(!new)>(a: seq<T>, b: seq<T>) {
    if b == [] then a == []
    else Subsequence(a, b[..|b| - 1]) || (a != [] && a[|a| - 1] == b[|b| - 1] && Subsequence(a[..|a| - 1], b[..|b| - 1]))
  }

  lemma SubsequencePush<T(!new)>(a: seq<T>, b: seq<T>, x: T)
    requires Subsequence(a, b)
    ensures Subsequence(a, b + [x]) && Subsequence(a + [x], b + [x])
  {
    assert (b + [x])[..|b|] == b && (a + [x])[..|a|] == a;
  }

  function Stamp(p: Voice.VoicePacket, speaker: SessionId): Voice.VoicePacket {
    if p.Audio? then Tunnel.Restamp(p, speaker) else p
  }

  function Stamps(ps: seq<Voice.VoicePacket>, speaker: SessionId): seq<Voice.VoicePacket> {
    if ps == [] then [] else Stamps(ps[..|ps| - 1], speaker) + [Stamp(ps[|ps| - 1], speaker)]
  }

  predicate FromSpeaker(m: Outbound, speaker: SessionId) {
    m.VoiceOut? && m.voice.Audio? && m.voice.session == Some(speaker)
  }

  /** The voice packets of one speaker among everything offered to a session. */
  function Heard(offered: seq<Outbound>, speaker: SessionId): seq<Voice.VoicePacket> {
    if offered == [] then []
    else Heard(offered[..|offered| - 1], speaker) +
         if FromSpeaker(offered[|offered| - 1], speaker) then [offered[|offered| - 1].voice] else []
  }

  lemma HeardPush(offered: seq<Outbound>, m: Outbound, speaker: SessionId)
    ensures Heard(offered + [m], speaker) == Heard(offered, speaker) + if FromSpeaker(m, speaker) then [m.voice] else []
  {
    assert (offered + [m])[..|offered|] == offered;
  }

  lemma {:induction false} HeardSilent(offered: seq<Outbound>, m: Outbound, n: nat, speaker: SessionId)
    requires !FromSpeaker(m, speaker)
    ensures Heard(offered + Repeat(m, n), speaker) == Heard(offered, speaker)
  {
    if n == 0 {
      assert offered + Repeat(m, 0) == offered;
    } else {
      HeardSilent(offered, m, n - 1, speaker);
      HeardPush(offered + Repeat(m, n - 1), m, speaker);
      assert offered + Repeat(m, n) == offered + Repeat(m, n - 1) + [m];
    }
  }

  /** A message as a voice packet of one speaker. */
  function VoiceIn(m: RoutingMsg, id: SessionId): seq<Voice.VoicePacket> {
    if m.VoiceMsg? && m.id == id then [m.voice] else []
  }

  /** The voice of one speaker that the routing task has not handled yet. */
  function VoicesOf(msgs: seq<RoutingMsg>, id: SessionId): seq<Voice.VoicePacket> {
    if msgs == [] then [] else VoicesOf(msgs[..|msgs| - 1], id) + VoiceIn(msgs[|msgs| - 1], id)
  }

  lemma VoicesPush(msgs: seq<RoutingMsg>, m: RoutingMsg, id: SessionId)
    ensures VoicesOf(msgs + [m], id) == VoicesOf(msgs, id) + VoiceIn(m, id)
  {
    assert (msgs + [m])[..|msgs|] == msgs;
  }

  lemma {:induction false} VoicesPop(msgs: seq<RoutingMsg>, id: SessionId)
    requires msgs != []
    ensures VoicesOf(msgs, id) == VoiceIn(msgs[0], id) + VoicesOf(msgs[1..], id)
  {
    hide VoiceIn;
    if |msgs| == 1 {
      assert msgs[..0] == [] && msgs[1..] == [];
    } else {
      var k := |msgs| - 1;
      VoicesPop(msgs[..k], id);
      assert msgs[1..][..k - 1] == msgs[..k][1..];
      Regroup(VoiceIn(msgs[0], id), VoicesOf(msgs[..k][1..], id), VoiceIn(msgs[k], id));
    }
  }

  /** What a session has forwarded as voice; nothing before it exists. */
  function Spoken(s: State, id: SessionId): seq<Voice.VoicePacket> {
    if id < |s.tasks| then s.tasks[id].voiceLog else []
  }

  /** The part of it the routing task has handled: all but what is still queued. */
  ghost predicate HandledPart(s: State, id: SessionId, done: seq<Voice.VoicePacket>) {
    Spoken(s, id) == done + VoicesOf(s.routing.msgs, id)
  }

  /** What a listener was offered of a speaker follows what the routing task has handled of the speaker. */
  ghost predicate InOrder(s: State, id: SessionId, j: nat)
    requires j < |s.tasks|
  {
    exists done :: HandledPart(s, id, done) && Subsequence(Heard(s.tasks[j].offered, id), Stamps(done, id))
  }

  /** What is queued for routing ends what the session forwarded, and every listener was offered the rest in order. */
  ghost predicate Ordered(s: State, id: SessionId) {
    && (exists done :: HandledPart(s, id, done))
    && (forall j :: 0 <= j < |s.tasks| ==> InOrder(s, id, j))
  }

  // ----- Preservation -----

  /** What a step makes a session forward as voice. */
  function Said(s: State, step: Step, id: SessionId): seq<Voice.VoicePacket> {
    if step.FromClient? && step.packet.Tunnelled? && step.i == id && !s.routing.closed then [step.packet.voice] else []
  }

  lemma SpokenFrame(s: State, step: Step, id: SessionId)
    requires |s.tasks| <= TWO_32 && Enabled(s, step)
    ensures Spoken(Next(s, step), id) == Spoken(s, id) + Said(s, step, id)
  {
    hide Next, SenderAlive, AllStopped;
    assert Spoken(s, id) + [] == Spoken(s, id);
    if step.RoutingNext? {
      RoutingKeepsVoice(s);
    } else {
      TasksAfterNext(s, step);
    }
  }

  lemma PushedVoice(s: State, step: Step, id: SessionId)
    requires |s.tasks| <= TWO_32 && Enabled(s, step)
    ensures |Pushed(s, step)| <= 1
    ensures Said(s, step, id) == if Pushed(s, step) == [] then [] else VoiceIn(Pushed(s, step)[0], id)
  {
    hide Next, HandleControl, SenderAlive;
    if step.FromClient? {
      ServerLifecycle.SameId(step.i);
    }
  }

  lemma QueuedFrame(s: State, step: Step, id: SessionId)
    requires |s.tasks| <= TWO_32 && Enabled(s, step) && !step.RoutingNext?
    ensures VoicesOf(Next(s, step).routing.msgs, id) == VoicesOf(s.routing.msgs, id) + Said(s, step, id)
  {
    RoutingFrame(s, step);
    PushedVoice(s, step, id);
    hide Next, VoicesOf, Pushed, Enabled, Said, VoiceIn;
    var q := VoicesOf(s.routing.msgs, id);
    if Pushed(s, step) == [] {
      assert q + [] == q && s.routing.msgs + [] == s.routing.msgs;
    } else {
      var m := Pushed(s, step)[0];
      assert Pushed(s, step) == [m];
      VoicesPush(s.routing.msgs, m, id);
    }
  }

  lemma RoutingKeepsVoice(s: State)
    requires Enabled(s, RoutingNext)
    ensures |Next(s, RoutingNext).tasks| == |s.tasks|
    ensures forall j :: 0 <= j < |s.tasks| ==> Next(s, RoutingNext).tasks[j].voiceLog == s.tasks[j].voiceLog
  {
    hide VoiceCopies, TextCopies, Repeat;
  }

  lemma OfferedFrame(s: State, step: Step, j: nat)
    requires Enabled(s, step) && !step.RoutingNext? && j < |Next(s, step).tasks|
    ensures Next(s, step).tasks[j].offered == if j < |s.tasks| then s.tasks[j].offered else []
  {
    TasksAfterNext(s, step);
    hide Next, SenderAlive, AllStopped;
  }

  /** Steps outside the routing task extend what a speaker said and what is queued alike. */
  lemma HandledFrame(s: State, step: Step, id: SessionId, done: seq<Voice.VoicePacket>)
    requires |s.tasks| <= TWO_32 && Enabled(s, step) && !step.RoutingNext? && HandledPart(s, id, done)
    ensures HandledPart(Next(s, step), id, done)
  {
    hide Next, Spoken, VoicesOf, Said, Enabled;
    SpokenFrame(s, step, id);
    QueuedFrame(s, step, id);
    Regroup(done, VoicesOf(s.routing.msgs, id), Said(s, step, id));
  }

  lemma OutsideOrdered(s: State, step: Step, id: SessionId)
    requires |s.tasks| <= TWO_32 && Enabled(s, step) && !step.RoutingNext? && Ordered(s, id)
    ensures Ordered(Next(s, step), id)
  {
    hide Next, Enabled, HandledPart, Stamps, Subsequence;
    var s' := Next(s, step);
    var any :| HandledPart(s, id, any);
    HandledFrame(s, step, id, any);
    forall j | 0 <= j < |s'.tasks|
      ensures InOrder(s', id, j)
    {
      OfferedFrame(s, step, j);
      if j < |s.tasks| {
        assert InOrder(s, id, j);
        var done :| HandledPart(s, id, done) && Subsequence(Heard(s.tasks[j].offered, id), Stamps(done, id));
        HandledFrame(s, step, id, done);
        assert Subsequence(Heard(s'.tasks[j].offered, id), Stamps(done, id));
      } else {
        EmptySubsequence(Stamps(any, id));
        assert Subsequence(Heard(s'.tasks[j].offered, id), Stamps(any, id));
      }
    }
  }

  lemma {:induction false} EmptySubsequence<T(!new)>(b: seq<T>)
    ensures Subsequence([], b)
  {
    if b != [] {
      EmptySubsequence(b[..|b| - 1]);
    }
  }

  lemma StampsPush(ps: seq<Voice.VoicePacket>, p: Voice.VoicePacket, id: SessionId)
    ensures Stamps(ps + [p], id) == Stamps(ps, id) + [Stamp(p, id)]
  {
    assert (ps + [p])[..|ps|] == ps;
  }

  /** Handling a queued message moves it from the queued to the handled part of its speaker. */
  lemma HandledPop(s: State, id: SessionId, done: seq<Voice.VoicePacket>)
    requires |s.tasks| <= TWO_32 && Enabled(s, RoutingNext) && HandledPart(s, id, done)
    ensures var m := s.routing.msgs[0];
            HandledPart(Next(s, RoutingNext), id, done + VoiceIn(m, id))
  {
    var m := s.routing.msgs[0];
    var head := VoiceIn(m, id);
    SpokenFrame(s, RoutingNext, id);
    RoutingPop(s);
    VoicesPop(s.routing.msgs, id);
    assert Spoken(s, id) + [] == Spoken(s, id);
    hide Next, Spoken, VoicesOf, Enabled;
    Regroup(done, head, VoicesOf(s.routing.msgs[1..], id));
  }

  /** What the routing task offers one session when it takes a message. */
  lemma RoutingOffers(s: State, j: nat)
    requires Enabled(s, RoutingNext) && j < |s.tasks|
    ensures |Next(s, RoutingNext).tasks| == |s.tasks|
    ensures var m := s.routing.msgs[0];
            var offered, offered' := s.tasks[j].offered, Next(s, RoutingNext).tasks[j].offered;
            || offered' == offered
            || (m.VoiceMsg? && m.voice.Audio? &&
                offered' == offered + Repeat(VoiceOut(Tunnel.Restamp(m.voice, m.id)), VoiceCopies(s.snapshot, m.id, j)))
            || (m.TextMsg? && exists text, n :: offered' == offered + Repeat(TextOut(text), n))
  {
    hide VoiceCopies, TextCopies, Repeat;
  }

  /** At most the message just handled is added to what a listener hears of its speaker. */
  lemma HeardAfter(s: State, j: nat, id: SessionId)
    requires Enabled(s, RoutingNext) && j < |s.tasks| && Consistent(s.snapshot) && OwnSenders(s.snapshot)
    ensures |Next(s, RoutingNext).tasks| == |s.tasks|
    ensures var m := s.routing.msgs[0];
            var heard, heard' := Heard(s.tasks[j].offered, id), Heard(Next(s, RoutingNext).tasks[j].offered, id);
            heard' == heard || (m.VoiceMsg? && m.id == id != j && heard' == heard + [Stamp(m.voice, id)])
  {
    RoutingOffers(s, j);
    var m := s.routing.msgs[0];
    var offered, offered' := s.tasks[j].offered, Next(s, RoutingNext).tasks[j].offered;
    hide Next, Heard, Consistent, OwnSenders, Enabled;
    if m.VoiceMsg? && m.voice.Audio? && offered' != offered {
      VoiceCopiesExactly(s.snapshot, m.id, j);
      hide VoiceCopies;
      var out := VoiceOut(Tunnel.Restamp(m.voice, m.id));
      assert offered' == offered + [] || offered' == offered + [out];
      HeardPush(offered, out, id);
      assert Heard(offered, id) + [] == Heard(offered, id);
    } else if offered' != offered {
      var text, n :| offered' == offered + Repeat(TextOut(text), n);
      HeardSilent(offered, TextOut(text), n, id);
    }
  }

  lemma RoutingOrdered(s: State, id: SessionId)
    requires |s.tasks| <= TWO_32 && Enabled(s, RoutingNext) && Ordered(s, id)
    requires Consistent(s.snapshot) && OwnSenders(s.snapshot)
    ensures Ordered(Next(s, RoutingNext), id)
  {
    assert s.routing.msgs != [];
    hide Next, Enabled, HandledPart, Stamps, Subsequence, Consistent, OwnSenders, Heard;
    var s' := Next(s, RoutingNext);
    var m := s.routing.msgs[0];
    var any :| HandledPart(s, id, any);
    HandledPop(s, id, any);
    assert HandledPart(s', id, any + VoiceIn(m, id));
    forall j | 0 <= j < |s'.tasks|
      ensures InOrder(s', id, j)
    {
      RoutingKeepsVoice(s);
      RoutingOrderedAt(s, id, j);
    }
  }

  /** A listener's record and a speaker's, each extended by what one message adds to it. */
  lemma OneMoreHeard(heard: seq<Voice.VoicePacket>, heard': seq<Voice.VoicePacket>, done: seq<Voice.VoicePacket>, m: RoutingMsg, id: SessionId)
    requires Subsequence(heard, Stamps(done, id))
    requires heard' == heard || (m.VoiceMsg? && m.id == id && heard' == heard + [Stamp(m.voice, id)])
    ensures Subsequence(heard', Stamps(done + VoiceIn(m, id), id))
  {
    hide Stamps, Subsequence;
    if m.VoiceMsg? && m.id == id {
      StampsPush(done, m.voice, id);
      SubsequencePush(heard, Stamps(done, id), Stamp(m.voice, id));
    } else {
      assert done + [] == done;
    }
  }

  lemma RoutingOrderedAt(s: State, id: SessionId, j: nat)
    requires |s.tasks| <= TWO_32 && Enabled(s, RoutingNext) && j < |s.tasks| && InOrder(s, id, j)
    requires Consistent(s.snapshot) && OwnSenders(s.snapshot)
    ensures j < |Next(s, RoutingNext).tasks| && InOrder(Next(s, RoutingNext), id, j)
  {
    assert s.routing.msgs != [];
    hide Next, Enabled, HandledPart, Stamps, Subsequence, Consistent, OwnSenders, Heard, VoiceIn, Stamp;
    var m := s.routing.msgs[0];
    var done :| HandledPart(s, id, done) && Subsequence(Heard(s.tasks[j].offered, id), Stamps(done, id));
    HandledPop(s, id, done);
    HeardAfter(s, j, id);
    OneMoreHeard(Heard(s.tasks[j].offered, id), Heard(Next(s, RoutingNext).tasks[j].offered, id), done, m, id);
  }

  lemma {:induction false} ReachableOrdered(steps: seq<Step>, id: SessionId)
    requires Possible(steps) && |After(steps).tasks| <= TWO_32
    ensures Ordered(After(steps), id)
    decreases |steps|
  {
    if steps == [] {
      assert HandledPart(Init(), id, []);
    } else {
      var front, step := steps[..|steps| - 1], steps[|steps| - 1];
      hide Next, Enabled, Ordered, Consistent, OwnSenders;
      var s := After(front);
      ServerLifecycle.TasksForward(s, step);
      ReachableOrdered(front, id);
      if step.RoutingNext? {
        ServerShutdown.ReachableInv(front);
        ReachableOwn(front);
        RoutingOrdered(s, id);
      } else {
        OutsideOrdered(s, step, id);
      }
    }
  }

  /** Over every run, no session is offered its own voice. */
  lemma {:induction false} NeverHearsItself(steps: seq<Step>, id: SessionId)
    requires Possible(steps) && |After(steps).tasks| <= TWO_32 && id < |After(steps).tasks|
    ensures Heard(After(steps).tasks[id].offered, id) == []
    decreases |steps|
  {
    if steps != [] {
      var front, step := steps[..|steps| - 1], steps[|steps| - 1];
      var s := After(front);
      hide Next, Enabled, Consistent, OwnSenders;
      ServerLifecycle.TasksForward(s, step);
      if id < |s.tasks| {
        NeverHearsItself(front, id);
      }
      if step.RoutingNext? {
        ServerLifecycle.RoutingQuiet(s);
        ServerShutdown.ReachableInv(front);
        ReachableOwn(front);
        HeardAfter(s, id, id);
      } else {
        OfferedFrame(s, step, id);
      }
    }
  }

  /** What a session is offered in the name of any id comes from what the session of that id forwarded. */
  lemma HeardIsSpoken(steps: seq<Step>, id: SessionId, j: nat)
    requires Possible(steps) && |After(steps).tasks| <= TWO_32 && j < |After(steps).tasks|
    ensures var s := After(steps);
            Subsequence(Heard(s.tasks[j].offered, id), Stamps(Spoken(s, id), id))
  {
    hide Possible, After, Stamps, Heard, Subsequence, VoicesOf, Spoken;
    ReachableOrdered(steps, id);
    var s := After(steps);
    assert InOrder(s, id, j);
    var done :| HandledPart(s, id, done) && Subsequence(Heard(s.tasks[j].offered, id), Stamps(done, id));
    SubsequenceLonger(Heard(s.tasks[j].offered, id), done, VoicesOf(s.routing.msgs, id), id);
  }

  /**
   * Over every run, what a listener is offered of a speaker is, in order, a subsequence of what the speaker's
   * session forwarded, each packet stamped with the speaker's id.
   */
  lemma VoiceInOrder(steps: seq<Step>, speaker: SessionId, listener: nat)
    requires Possible(steps) && |After(steps).tasks| <= TWO_32
    requires speaker < |After(steps).tasks| && listener < |After(steps).tasks|
    ensures var s := After(steps);
            && Subsequence(Heard(s.tasks[listener].offered, speaker), Stamps(s.tasks[speaker].voiceLog, speaker))
            && Carried(Heard(s.tasks[listener].offered, speaker), s.tasks[speaker].voiceLog, speaker)
  {
    hide Possible, After, Stamps, Heard, Subsequence, Carried;
    HeardIsSpoken(steps, speaker, listener);
    HeardFromSpeaker(After(steps).tasks[listener].offered, speaker);
    CarriedIfSubsequence(Heard(After(steps).tasks[listener].offered, speaker), After(steps).tasks[speaker].voiceLog, speaker);
  }

  // ----- Packet by packet -----

  /** The `k`-th packet heard is the `from[k]`-th one said, with the speaker's id in it and nothing else changed. */
  ghost predicate CarriedFrom(heard: seq<Voice.VoicePacket>, said: seq<Voice.VoicePacket>, speaker: SessionId, from: seq<nat>) {
    && |from| == |heard|
    && (forall k :: 0 <= k < |from| ==> from[k] < |said| && Tunnel.Stamped(heard[k], said[from[k]], speaker))
    && (forall j, k :: 0 <= j < k < |from| ==> from[j] < from[k])
  }

  ghost predicate Carried(heard: seq<Voice.VoicePacket>, said: seq<Voice.VoicePacket>, speaker: SessionId) {
    exists from :: CarriedFrom(heard, said, speaker, from)
  }

  ghost predicate AllFrom(heard: seq<Voice.VoicePacket>, speaker: SessionId) {
    forall k :: 0 <= k < |heard| ==> FromSpeaker(VoiceOut(heard[k]), speaker)
  }

  lemma {:induction false} HeardFromSpeaker(offered: seq<Outbound>, speaker: SessionId)
    ensures AllFrom(Heard(offered, speaker), speaker)
  {
    if offered != [] {
      HeardFromSpeaker(offered[..|offered| - 1], speaker);
    }
  }

  lemma {:induction false} CarriedIfSubsequence(heard: seq<Voice.VoicePacket>, said: seq<Voice.VoicePacket>, speaker: SessionId)
    requires Subsequence(heard, Stamps(said, speaker)) && AllFrom(heard, speaker)
    ensures Carried(heard, said, speaker)
    decreases |said|
  {
    if said == [] {
      assert CarriedFrom([], [], speaker, []);
    } else {
      var front, last := said[..|said| - 1], said[|said| - 1];
      var stamps := Stamps(front, speaker);
      assert Stamps(said, speaker)[..|stamps|] == stamps && Stamps(said, speaker)[|stamps|] == Stamp(last, speaker);
      if Subsequence(heard, stamps) {
        CarriedIfSubsequence(heard, front, speaker);
        var from :| CarriedFrom(heard, front, speaker, from);
        assert CarriedFrom(heard, said, speaker, from);
      } else {
        var heard' := heard[..|heard| - 1];
        CarriedIfSubsequence(heard', front, speaker);
        var from :| CarriedFrom(heard', front, speaker, from);
        OneMoreCarried(heard, front, last, speaker, from);
        assert said == front + [last];
      }
    }
  }

  lemma OneMoreCarried(heard: seq<Voice.VoicePacket>, front: seq<Voice.VoicePacket>, last: Voice.VoicePacket, speaker: SessionId, from: seq<nat>)
    requires heard != [] && AllFrom(heard, speaker) && heard[|heard| - 1] == Stamp(last, speaker)
    requires CarriedFrom(heard[..|heard| - 1], front, speaker, from)
    ensures Carried(heard, front + [last], speaker)
  {
    assert FromSpeaker(VoiceOut(heard[|heard| - 1]), speaker);
    if last.Audio? {
      Tunnel.RestampKeeps(last, speaker);
    }
    assert CarriedFrom(heard, front + [last], speaker, from + [|front|]);
  }

  lemma {:induction false} SubsequenceLonger(a: seq<Voice.VoicePacket>, done: seq<Voice.VoicePacket>, more: seq<Voice.VoicePacket>, id: SessionId)
    requires Subsequence(a, Stamps(done, id))
    ensures Subsequence(a, Stamps(done + more, id))
  {
    hide Stamps, Subsequence;
    if more == [] {
      assert done + more == done;
    } else {
      var front, last := more[..|more| - 1], more[|more| - 1];
      SubsequenceLonger(a, done, front, id);
      assert done + more == done + front + [last];
      StampsPush(done + front, last, id);
      SubsequencePush(a, Stamps(done + front, id), Stamp(last, id));
    }
  }
}
