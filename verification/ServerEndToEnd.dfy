/** Voice from the bytes of a speaker's connection, through a whole run of the server, to the bytes of a listener's. */
module ServerEndToEnd {
  import opened Bytes
  import opened Server
  import opened RoutingTables
  import opened ServerVoice
  import ServerLifecycle
  import ServerStop
  import Framing
  import Tunnel
  import Varint
  import Voice

  // ----- Subsequences -----

  lemma {:induction false} Transitive<T(!new)>(a: seq<T>, b: seq<T>, c: seq<T>)
    requires Subsequence(a, b) && Subsequence(b, c)
    ensures Subsequence(a, c)
    decreases |c|
  {
    if c != [] {
      var c' := c[..|c| - 1];
      if Subsequence(b, c') {
        Transitive(a, b, c');
      } else {
        var b' := b[..|b| - 1];
        if Subsequence(a, b') {
          Transitive(a, b', c');
        } else {
          Transitive(a[..|a| - 1], b', c');
        }
      }
    }
  }

  lemma {:induction false} PrefixIsSubsequence<T(!new)>(a: seq<T>, b: seq<T>)
    requires a <= b
    ensures Subsequence(a, b)
    decreases |b|
  {
    if b != [] {
      if |a| == |b| {
        PrefixIsSubsequence(a[..|a| - 1], b[..|b| - 1]);
      } else {
        PrefixIsSubsequence(a, b[..|b| - 1]);
      }
    }
  }

  lemma {:induction false} SubsequenceMember<T(!new)>(a: seq<T>, b: seq<T>, x: T)
    requires Subsequence(a, b) && x in a
    ensures x in b
    decreases |b|
  {
    if !Subsequence(a, b[..|b| - 1]) {
      if x in a[..|a| - 1] {
        SubsequenceMember(a[..|a| - 1], b[..|b| - 1], x);
      }
    } else {
      SubsequenceMember(a, b[..|b| - 1], x);
    }
  }

  lemma {:induction false} StampsSubsequence(a: seq<Voice.VoicePacket>, b: seq<Voice.VoicePacket>, id: SessionId)
    requires Subsequence(a, b)
    ensures Subsequence(Stamps(a, id), Stamps(b, id))
    decreases |b|
  {
    hide Stamp;
    if b != [] {
      var b' := b[..|b| - 1];
      if Subsequence(a, b') {
        StampsSubsequence(a, b', id);
        SubsequencePush(Stamps(a, id), Stamps(b', id), Stamp(b[|b| - 1], id));
      } else {
        StampsSubsequence(a[..|a| - 1], b', id);
        SubsequencePush(Stamps(a[..|a| - 1], id), Stamps(b', id), Stamp(b[|b| - 1], id));
      }
    }
  }

  lemma {:induction false} StampsMember(ps: seq<Voice.VoicePacket>, id: SessionId, q: Voice.VoicePacket) returns (p: Voice.VoicePacket)
    requires q in Stamps(ps, id)
    ensures p in ps && q == Stamp(p, id)
  {
    hide Stamp;
    var last := ps[|ps| - 1];
    if q == Stamp(last, id) {
      p := last;
    } else {
      p := StampsMember(ps[..|ps| - 1], id, q);
    }
  }

  lemma {:induction false} HeardMember(out: seq<Outbound>, id: SessionId, m: Outbound)
    requires m in out && FromSpeaker(m, id)
    ensures m.voice in Heard(out, id)
  {
    hide FromSpeaker;
    if m != out[|out| - 1] {
      HeardMember(out[..|out| - 1], id, m);
    }
  }

  lemma {:induction false} HeardPrefix(a: seq<Outbound>, b: seq<Outbound>, id: SessionId)
    requires a <= b
    ensures Subsequence(Heard(a, id), Heard(b, id))
    decreases |b|
  {
    hide FromSpeaker;
    if |a| == |b| {
      assert a == b;
      PrefixIsSubsequence(Heard(a, id), Heard(b, id));
    } else {
      var b' := b[..|b| - 1];
      HeardPrefix(a, b', id);
      assert Heard(b', id) <= Heard(b, id);
      PrefixIsSubsequence(Heard(b', id), Heard(b, id));
      Transitive(Heard(a, id), Heard(b', id), Heard(b, id));
    }
  }

  // ----- What a session takes from its client -----

  function TakenNow(step: Step, i: nat): seq<Voice.VoicePacket> {
    if step.FromClient? && step.packet.Tunnelled? && step.i == i then [step.packet.voice] else []
  }

  /** The voice packets a session takes from its client over a run. */
  function TakenVoices(steps: seq<Step>, i: nat): seq<Voice.VoicePacket> {
    if steps == [] then [] else TakenVoices(steps[..|steps| - 1], i) + TakenNow(steps[|steps| - 1], i)
  }

  lemma SaidIsTaken(s: State, step: Step, id: SessionId, spoken: seq<Voice.VoicePacket>, taken: seq<Voice.VoicePacket>)
    requires Subsequence(spoken, taken)
    ensures Subsequence(spoken + Said(s, step, id), taken + TakenNow(step, id))
  {
    hide Subsequence;
    assert spoken + [] == spoken && taken + [] == taken;
    if TakenNow(step, id) != [] {
      SubsequencePush(spoken, taken, TakenNow(step, id)[0]);
    }
  }

  /** What a session has forwarded it has taken from its client; only a closed routing queue makes it forward less. */
  lemma {:induction false} SpokenTaken(steps: seq<Step>, id: SessionId)
    requires Possible(steps) && |After(steps).tasks| <= TWO_32
    ensures Subsequence(Spoken(After(steps), id), TakenVoices(steps, id))
    decreases |steps|
  {
    if steps != [] {
      var front, step := steps[..|steps| - 1], steps[|steps| - 1];
      var s := After(front);
      hide Next, Enabled, Subsequence, Spoken, Said, TakenNow;
      ServerLifecycle.TasksForward(s, step);
      SpokenTaken(front, id);
      SpokenFrame(s, step, id);
      SaidIsTaken(s, step, id, Spoken(s, id), TakenVoices(front, id));
    }
  }

  /** While the routing queue is open, a session forwards every voice packet it takes. */
  lemma {:induction false} SpokenExactly(steps: seq<Step>, id: SessionId)
    requires Possible(steps) && |After(steps).tasks| <= TWO_32 && !After(steps).routing.closed
    ensures Spoken(After(steps), id) == TakenVoices(steps, id)
    decreases |steps|
  {
    if steps != [] {
      var front, step := steps[..|steps| - 1], steps[|steps| - 1];
      var s := After(front);
      hide Next, Enabled, Spoken;
      ServerLifecycle.TasksForward(s, step);
      ServerStop.RoutingClosedFrame(s, step);
      SpokenExactly(front, id);
      SpokenFrame(s, step, id);
    }
  }

  // ----- What a session writes to its client -----

  /** The packet a step writes to the client of a session. */
  function Written(s: State, step: Step, j: nat): seq<Outbound>
    requires Enabled(s, step)
  {
    if step == ToClient(j) then [s.tasks[j].inbox[0]] else []
  }

  /** Everything written to the client of a session over a run. */
  function Delivered(steps: seq<Step>, j: nat): seq<Outbound>
    requires Possible(steps)
  {
    if steps == [] then []
    else
      var front := steps[..|steps| - 1];
      Delivered(front, j) + Written(After(front), steps[|steps| - 1], j)
  }

  /** What was written and what is still in the inbox is what was offered; a session that stops drops its inbox. */
  ghost predicate InTransit(s: State, out: seq<Outbound>, j: nat) {
    if j >= |s.tasks| then out == []
    else
      var task := s.tasks[j];
      out <= task.offered && (!task.phase.Stopped? ==> out + task.inbox == task.offered)
  }

  lemma RoutingOffersTask(s: State, j: nat)
    requires Enabled(s, RoutingNext) && j < |s.tasks|
    ensures |Next(s, RoutingNext).tasks| == |s.tasks|
    ensures var task, task' := s.tasks[j], Next(s, RoutingNext).tasks[j];
            task' == task || exists m, n :: task' == Offer(task, m, n)
  {
    hide VoiceCopies, TextCopies, Offer, AllRoomsExist;
  }

  lemma RoutingInTransit(s: State, out: seq<Outbound>, j: nat)
    requires Enabled(s, RoutingNext) && InTransit(s, out, j)
    ensures InTransit(Next(s, RoutingNext), out, j)
  {
    if j < |s.tasks| {
      RoutingOffersTask(s, j);
      hide Next, Enabled, Repeat;
      var task, task' := s.tasks[j], Next(s, RoutingNext).tasks[j];
      if task' != task {
        var m, n :| task' == Offer(task, m, n);
        Regroup(out, task.inbox, Repeat(m, n));
      }
    } else {
      ServerLifecycle.RoutingQuiet(s);
      hide Next;
    }
  }

  lemma OutsideInTransit(s: State, step: Step, out: seq<Outbound>, j: nat)
    requires Enabled(s, step) && !step.RoutingNext? && InTransit(s, out, j)
    ensures InTransit(Next(s, step), out + Written(s, step, j), j)
  {
    TasksAfterNext(s, step);
    hide Next, SenderAlive, AllStopped, Logged;
    assert out + [] == out;
    if step == ToClient(j) {
      var inbox := s.tasks[j].inbox;
      assert inbox == [inbox[0]] + inbox[1..];
      Regroup(out, [inbox[0]], inbox[1..]);
    } else if step.FromClient? && step.i == j {
      LoggedFrame(s, s.tasks[j], step.packet);
    }
  }

  lemma LoggedFrame(s: State, task: Task, packet: Inbound)
    ensures var t := Logged(s, task, packet);
            t.phase == task.phase && t.inbox == task.inbox && t.offered == task.offered
  {}

  lemma {:induction false} DeliveredInTransit(steps: seq<Step>, j: nat)
    requires Possible(steps)
    ensures InTransit(After(steps), Delivered(steps, j), j)
    decreases |steps|
  {
    if steps != [] {
      var front, step := steps[..|steps| - 1], steps[|steps| - 1];
      hide Next, Enabled, InTransit;
      DeliveredInTransit(front, j);
      var out := Delivered(front, j);
      if step.RoutingNext? {
        RoutingInTransit(After(front), out, j);
        assert out + [] == out;
      } else {
        OutsideInTransit(After(front), step, out, j);
      }
    }
  }

  // ----- Everything a session is offered names its speaker -----

  ghost predicate AllStamped(out: seq<Outbound>) {
    forall m :: m in out && m.VoiceOut? ==> m.voice.Audio? && m.voice.session.Some?
  }

  lemma StampedStep(s: State, step: Step, j: nat)
    requires Enabled(s, step) && j < |Next(s, step).tasks| && (j < |s.tasks| ==> AllStamped(s.tasks[j].offered))
    ensures AllStamped(Next(s, step).tasks[j].offered)
  {
    hide Next, Enabled;
    if step.RoutingNext? {
      ServerLifecycle.RoutingQuiet(s);
      RoutingOffers(s, j);
    } else {
      OfferedFrame(s, step, j);
    }
  }

  lemma {:induction false} OfferedStamped(steps: seq<Step>, j: nat)
    requires Possible(steps) && j < |After(steps).tasks|
    ensures AllStamped(After(steps).tasks[j].offered)
    decreases |steps|
  {
    if steps != [] {
      var front, step := steps[..|steps| - 1], steps[|steps| - 1];
      hide Next, Enabled, AllStamped;
      if j < |After(front).tasks| {
        OfferedStamped(front, j);
      }
      StampedStep(After(front), step, j);
    }
  }

  /** Every voice packet offered to anyone is a packet that some session took from its client, stamped with its id. */
  lemma Provenance(steps: seq<Step>, j: nat, m: Outbound) returns (id: SessionId, p: Voice.VoicePacket)
    requires Possible(steps) && |After(steps).tasks| <= TWO_32 && j < |After(steps).tasks|
    requires m in After(steps).tasks[j].offered && m.VoiceOut?
    ensures id < |After(steps).tasks| && p in TakenVoices(steps, id) && p.Audio?
    ensures m.voice == Tunnel.Restamp(p, id) == Voice.Audio(p.target, Some(id), p.seqNum, p.payload, p.position)
  {
    hide Possible, After, Stamps, Heard, Subsequence, TakenVoices;
    var s := After(steps);
    OfferedStamped(steps, j);
    id := m.voice.session.value;
    HeardMember(s.tasks[j].offered, id, m);
    HeardIsSpoken(steps, id, j);
    SubsequenceMember(Heard(s.tasks[j].offered, id), Stamps(Spoken(s, id), id), m.voice);
    p := StampsMember(Spoken(s, id), id, m.voice);
    SpokenTaken(steps, id);
    SubsequenceMember(Spoken(s, id), TakenVoices(steps, id), p);
  }

  // ----- Connections -----

  /** The sessions of a run take their voice packets from what arrives on their connections, in order. */
  ghost predicate FromWire(steps: seq<Step>, uplinks: seq<seq<seq<byte>>>) {
    forall i :: 0 <= i < |uplinks| ==> TakenVoices(steps, i) <= Tunnel.VoicesIn(Tunnel.Heard(Voice.Serverbound, uplinks[i]))
  }

  function VoicesOut(out: seq<Outbound>): seq<Voice.VoicePacket> {
    if out == [] then []
    else VoicesOut(out[..|out| - 1]) + if out[|out| - 1].VoiceOut? then [out[|out| - 1].voice] else []
  }

  lemma {:induction false} VoicesOutMember(out: seq<Outbound>, p: Voice.VoicePacket)
    requires p in VoicesOut(out)
    ensures VoiceOut(p) in out
  {
    if !(out[|out| - 1].VoiceOut? && out[|out| - 1].voice == p) {
      VoicesOutMember(out[..|out| - 1], p);
    }
  }

  /** The packets of one speaker among the voice packets a client decodes. */
  function Of(ps: seq<Voice.VoicePacket>, speaker: SessionId): seq<Voice.VoicePacket> {
    if ps == [] then []
    else Of(ps[..|ps| - 1], speaker) + if FromSpeaker(VoiceOut(ps[|ps| - 1]), speaker) then [ps[|ps| - 1]] else []
  }

  lemma {:induction false} OfVoicesOut(out: seq<Outbound>, speaker: SessionId)
    ensures Of(VoicesOut(out), speaker) == Heard(out, speaker)
  {
    if out != [] {
      var front, last := out[..|out| - 1], out[|out| - 1];
      OfVoicesOut(front, speaker);
      if last.VoiceOut? {
        assert (VoicesOut(front) + [last.voice])[..|VoicesOut(front)|] == VoicesOut(front);
      } else {
        assert VoicesOut(front) + [] == VoicesOut(front) && Heard(front, speaker) + [] == Heard(front, speaker);
      }
    }
  }

  lemma {:induction false} OfPrefix(a: seq<Voice.VoicePacket>, b: seq<Voice.VoicePacket>, speaker: SessionId)
    requires a <= b
    ensures Subsequence(Of(a, speaker), Of(b, speaker))
    decreases |b|
  {
    hide FromSpeaker;
    if |a| == |b| {
      assert a == b;
      PrefixIsSubsequence(Of(a, speaker), Of(b, speaker));
    } else {
      var b' := b[..|b| - 1];
      OfPrefix(a, b', speaker);
      PrefixIsSubsequence(Of(b', speaker), Of(b, speaker));
      Transitive(Of(a, speaker), Of(b', speaker), Of(b, speaker));
    }
  }

  /** Every voice packet written to a client is well-formed, and its length fits into 32 bits. */
  lemma DeliveredBounds(steps: seq<Step>, uplinks: seq<seq<seq<byte>>>, j: nat, q: Voice.VoicePacket)
    requires Possible(steps) && |After(steps).tasks| <= TWO_32 && j < |After(steps).tasks| == |uplinks|
    requires FromWire(steps, uplinks) && q in VoicesOut(Delivered(steps, j))
    ensures Voice.WellFormed(Voice.Clientbound, q) && |Voice.Encode(q)| < TWO_32
  {
    hide Possible, After, Delivered, VoicesOut, TakenVoices, Voice.PayloadFits, Voice.Encode, Varint.Write, Tunnel.VoicesIn, Tunnel.Heard;
    VoicesOutMember(Delivered(steps, j), q);
    DeliveredInTransit(steps, j);
    var id, p := Provenance(steps, j, VoiceOut(q));
    Tunnel.HeardBounds(uplinks[id], p);
    Tunnel.RestampGrows(p, id);
    Varint.WriteLength(id);
  }

  /** What a listener's connection carries of a speaker is an in-order subsequence of what the speaker's session took, stamped. */
  lemma DeliveredInOrder(steps: seq<Step>, speaker: SessionId, listener: nat)
    requires Possible(steps) && |After(steps).tasks| <= TWO_32 && listener < |After(steps).tasks|
    ensures Subsequence(Heard(Delivered(steps, listener), speaker), Stamps(TakenVoices(steps, speaker), speaker))
    ensures listener == speaker ==> Heard(Delivered(steps, listener), speaker) == []
  {
    if listener == speaker {
      NeverHearsItself(steps, speaker);
    }
    hide Possible, After, Stamps, Heard, TakenVoices, Delivered, Spoken;
    var s := After(steps);
    var out, offered := Delivered(steps, listener), s.tasks[listener].offered;
    DeliveredInTransit(steps, listener);
    HeardPrefix(out, offered, speaker);
    HeardIsSpoken(steps, speaker, listener);
    SpokenTaken(steps, speaker);
    StampsSubsequence(Spoken(s, speaker), TakenVoices(steps, speaker), speaker);
    Transitive(Heard(out, speaker), Heard(offered, speaker), Stamps(Spoken(s, speaker), speaker));
    Transitive(Heard(out, speaker), Stamps(Spoken(s, speaker), speaker), Stamps(TakenVoices(steps, speaker), speaker));
  }

  lemma SendableIfParts(raws: seq<Framing.RawPacket>, ps: seq<Voice.VoicePacket>)
    requires Tunnel.Tunnelled(raws) == Tunnel.Raws(ps) && OthersSendable(raws)
    requires forall k :: 0 <= k < |ps| ==> |Voice.Encode(ps[k])| < TWO_32
    ensures Tunnel.Sendable(raws)
  {
    hide Voice.Encode;
    forall k | 0 <= k < |raws|
      ensures |raws[k].bytes| < TWO_32
    {
      if raws[k].id == Tunnel.UDP_TUNNEL {
        TunnelledMember(raws, k);
      }
    }
  }

  lemma {:induction false} TunnelledMember(raws: seq<Framing.RawPacket>, k: nat)
    requires k < |raws| && raws[k].id == Tunnel.UDP_TUNNEL
    ensures raws[k] in Tunnel.Tunnelled(raws)
  {
    if k > 0 {
      TunnelledMember(raws[1..], k - 1);
    }
  }

  /** Control packets other than voice, whose bodies are not interpreted, have lengths of 32 bits. */
  ghost predicate OthersSendable(raws: seq<Framing.RawPacket>) {
    forall k :: 0 <= k < |raws| && raws[k].id != Tunnel.UDP_TUNNEL ==> |raws[k].bytes| < TWO_32
  }

  /** The stream of a listener's connection: what the run writes to it as voice, among other control packets. */
  ghost predicate OnWire(steps: seq<Step>, j: nat, downs: seq<Framing.RawPacket>, downlink: seq<seq<byte>>)
    requires Possible(steps)
  {
    && Tunnel.Tunnelled(downs) == Tunnel.Raws(VoicesOut(Delivered(steps, j))) && OthersSendable(downs)
    && Framing.Flatten(downlink) == Framing.FrameAll(downs)
  }

  /** What a listener's client makes of its connection, exactly. */
  lemma DownlinkExactly(steps: seq<Step>, uplinks: seq<seq<seq<byte>>>, j: nat,
                        downs: seq<Framing.RawPacket>, downlink: seq<seq<byte>>)
    requires Possible(steps) && |After(steps).tasks| <= TWO_32 && j < |After(steps).tasks| == |uplinks|
    requires FromWire(steps, uplinks) && OnWire(steps, j, downs, downlink)
    ensures var out := VoicesOut(Delivered(steps, j));
            var heard := Tunnel.VoicesIn(Tunnel.Heard(Voice.Clientbound, downlink));
            && heard <= out && |heard| == Tunnel.VoicesBefore(downs)
            && (Tunnel.Failed(downlink) <==> !Tunnel.Short(downs))
            && (Tunnel.OthersShort(downs) ==>
                  && heard == Tunnel.Leading(out)
                  && (heard == out <==> forall k :: 0 <= k < |out| ==> |Voice.Encode(out[k])| <= Framing.MAX_LENGTH)
                  && (Tunnel.Failed(downlink) <==> heard != out))
  {
    hide Possible, After, FromWire, Delivered, VoicesOut, OthersSendable, Voice.WellFormed, Voice.Encode;
    hide Tunnel.Heard, Tunnel.VoicesIn, Tunnel.Short, Tunnel.OthersShort, Tunnel.Sendable, Tunnel.Tunnelled, Tunnel.Raws,
      Tunnel.VoicesBefore, Tunnel.Leading, Tunnel.Failed, Framing.Flatten, Framing.FrameAll;
    var out := VoicesOut(Delivered(steps, j));
    forall k | 0 <= k < |out|
      ensures Voice.WellFormed(Voice.Clientbound, out[k]) && |Voice.Encode(out[k])| < TWO_32
    {
      DeliveredBounds(steps, uplinks, j, out[k]);
    }
    SendableIfParts(downs, out);
    Tunnel.MixedHop(Voice.Clientbound, downs, out, downlink);
    if Tunnel.OthersShort(downs) {
      Tunnel.MixedHopExactly(Voice.Clientbound, downs, out, downlink);
    }
  }

  /** What the speaker's session takes is a beginning of what the speaker's client sent. */
  lemma UplinkPrefix(steps: seq<Step>, uplinks: seq<seq<seq<byte>>>, i: nat, ups: seq<Framing.RawPacket>, ps: seq<Voice.VoicePacket>)
    requires FromWire(steps, uplinks) && i < |uplinks|
    requires Tunnel.Sendable(ups) && Tunnel.Tunnelled(ups) == Tunnel.Raws(ps)
    requires forall k :: 0 <= k < |ps| ==> Voice.WellFormed(Voice.Serverbound, ps[k])
    requires Framing.Flatten(uplinks[i]) == Framing.FrameAll(ups)
    ensures TakenVoices(steps, i) <= ps
  {
    hide TakenVoices, Voice.WellFormed, Tunnel.Heard, Tunnel.VoicesIn, Tunnel.Sendable, Tunnel.Tunnelled, Tunnel.Raws;
    hide Tunnel.VoicesBefore, Framing.Flatten, Framing.FrameAll;
    Tunnel.MixedHop(Voice.Serverbound, ups, ps, uplinks[i]);
  }

  /**
   * End to end, over every run of the server. Session by session, connections bring arbitrary bytes in arbitrary
   * chunks; the speaker's client sends the voice packets `ps` among its other control packets `ups`, and the
   * listener's session writes what the run delivers to it among other control packets `downs`.
   *
   * Then the listener's client decodes the delivered voice up to the first control packet that is too long, where its
   * connection fails; if only voice can be too long, it decodes all of it exactly when every delivered packet, with
   * its speaker's id put in, is within the limit. In any case what it decodes under the speaker's id are, in order,
   * packets of `ps` with target, sequence number, payload and position kept, and nobody hears their own voice.
   */
  lemma EndToEnd(steps: seq<Step>, uplinks: seq<seq<seq<byte>>>, speaker: SessionId, listener: nat,
                 ups: seq<Framing.RawPacket>, ps: seq<Voice.VoicePacket>,
                 downs: seq<Framing.RawPacket>, downlink: seq<seq<byte>>)
    requires Possible(steps) && |After(steps).tasks| <= TWO_32 && |uplinks| == |After(steps).tasks|
    requires speaker < |uplinks| && listener < |uplinks| && FromWire(steps, uplinks)
    requires Tunnel.Sendable(ups) && Tunnel.Tunnelled(ups) == Tunnel.Raws(ps)
    requires forall k :: 0 <= k < |ps| ==> Voice.WellFormed(Voice.Serverbound, ps[k])
    requires Framing.Flatten(uplinks[speaker]) == Framing.FrameAll(ups)
    requires OnWire(steps, listener, downs, downlink)
    ensures var out := VoicesOut(Delivered(steps, listener));
            var heard := Tunnel.VoicesIn(Tunnel.Heard(Voice.Clientbound, downlink));
            && Subsequence(Of(heard, speaker), Stamps(ps, speaker))
            && Carried(Of(heard, speaker), ps, speaker)
            && (listener == speaker ==> Of(heard, speaker) == [])
            && heard <= out && |heard| == Tunnel.VoicesBefore(downs)
            && (Tunnel.Failed(downlink) <==> !Tunnel.Short(downs))
            && (Tunnel.OthersShort(downs) ==>
                  && heard == Tunnel.Leading(out)
                  && (heard == out <==> forall k :: 0 <= k < |out| ==> |Voice.Encode(out[k])| <= Framing.MAX_LENGTH)
                  && (Tunnel.Failed(downlink) <==> heard != out))
  {
    hide Possible, After, Stamps, Of, Subsequence, Carried, AllFrom, FromWire, OnWire, Delivered, TakenVoices, VoicesOut;
    hide Voice.WellFormed, Voice.Encode, Tunnel.Heard, Tunnel.VoicesIn, Tunnel.Sendable, Tunnel.Tunnelled, Tunnel.Raws, Tunnel.Short,
      Tunnel.OthersShort, Tunnel.VoicesBefore, Tunnel.Leading, Tunnel.Failed, Framing.Flatten, Framing.FrameAll;
    DownlinkExactly(steps, uplinks, listener, downs, downlink);
    UplinkPrefix(steps, uplinks, speaker, ups, ps);
    var out, heard := VoicesOut(Delivered(steps, listener)), Tunnel.VoicesIn(Tunnel.Heard(Voice.Clientbound, downlink));
    HeardInOrder(steps, speaker, listener, heard, ps);
    OfFromSpeaker(heard, speaker);
    CarriedIfSubsequence(Of(heard, speaker), ps, speaker);
  }

  lemma {:induction false} OfFromSpeaker(ps: seq<Voice.VoicePacket>, speaker: SessionId)
    ensures AllFrom(Of(ps, speaker), speaker)
  {
    if ps != [] {
      OfFromSpeaker(ps[..|ps| - 1], speaker);
    }
  }

  /** Any beginning of what a run delivers to a listener holds of a speaker what the speaker said, in order. */
  lemma HeardInOrder(steps: seq<Step>, speaker: SessionId, listener: nat, heard: seq<Voice.VoicePacket>, ps: seq<Voice.VoicePacket>)
    requires Possible(steps) && |After(steps).tasks| <= TWO_32 && listener < |After(steps).tasks|
    requires heard <= VoicesOut(Delivered(steps, listener)) && TakenVoices(steps, speaker) <= ps
    ensures Subsequence(Of(heard, speaker), Stamps(ps, speaker))
    ensures listener == speaker ==> Of(heard, speaker) == []
  {
    hide Possible, After, Stamps, Heard, Of, TakenVoices, Delivered, VoicesOut;
    var out := VoicesOut(Delivered(steps, listener));
    OfPrefix(heard, out, speaker);
    OfVoicesOut(Delivered(steps, listener), speaker);
    DeliveredInOrder(steps, speaker, listener);
    hide Subsequence;
    PrefixIsSubsequence(TakenVoices(steps, speaker), ps);
    StampsSubsequence(TakenVoices(steps, speaker), ps, speaker);
    Transitive(Of(heard, speaker), Of(out, speaker), Stamps(TakenVoices(steps, speaker), speaker));
    Transitive(Of(heard, speaker), Stamps(TakenVoices(steps, speaker), speaker), Stamps(ps, speaker));
  }
}
