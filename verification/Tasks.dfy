/** The bodies of the server's tasks as imperative code, proved to take the steps of the transition system. */
module Tasks {
  import opened Bytes
  import opened RoutingTables
  import opened Server
  import opened ServerShutdown
  import Voice
  import Tunnel

  /** An unbounded multi-producer channel. */
  class Channel<T> {
    var msgs: seq<T>
    var closed: bool

    function View(): Queue<T>
      reads this
    {
      Queue(msgs, closed)
    }

    /** Sends, or fails once the receiver has closed the channel. */
    method Send(m: T) returns (ok: bool)
      modifies this
      ensures View() == old(View()).Push(m) && ok == !old(closed)
    {
      if closed {
        return false;
      }
      msgs := msgs + [m];
      ok := true;
    }

    /** What other tasks send in the meantime; a closed channel drops it. */
    method Arrive(batch: seq<T>)
      modifies this
      ensures View() == old(View()).(msgs := if closed then old(msgs) else old(msgs) + batch)
    {
      if !closed {
        msgs := msgs + batch;
      }
    }

    /** Refuses further messages; what was sent before can still be received. */
    method Close()
      modifies this
      ensures View() == old(View()).(closed := true)
    {
      closed := true;
    }

    method Receive() returns (m: T)
      requires msgs != []
      modifies this
      ensures m == old(msgs)[0] && View() == old(View()).(msgs := old(msgs)[1..])
    {
      m := msgs[0];
      msgs := msgs[1..];
    }
  }

  // ----- The control task -----

  /** What the control task has published and holds after a list of messages. */
  datatype Served = Served(unauth: map<SessionId, Unauth>, table: Table, published: seq<RoutingMsg>)

  function Publication(e: ControlEffect): seq<RoutingMsg> {
    if e.publish then [Update(e.table)] else []
  }

  function ServeOne(before: Served, msg: ControlMsg): Served {
    var e := HandleControl(before.unauth, before.table, msg);
    Served(e.unauth, e.table, before.published + Publication(e))
  }

  function Serve(before: Served, msgs: seq<ControlMsg>): Served {
    if msgs == [] then before else ServeOne(Serve(before, msgs[..|msgs| - 1]), msgs[|msgs| - 1])
  }

  lemma ServePush(before: Served, msgs: seq<ControlMsg>, msg: ControlMsg)
    ensures Serve(before, msgs + [msg]) == ServeOne(Serve(before, msgs), msg)
  {
    assert (msgs + [msg])[..|msgs|] == msgs;
  }

  /** Messages arriving in batches, one after the other. */
  function Flatten<T>(batches: seq<seq<T>>): seq<T> {
    if batches == [] then [] else Flatten(batches[..|batches| - 1]) + batches[|batches| - 1]
  }

  lemma FlattenNext<T>(batches: seq<seq<T>>, k: nat)
    requires k < |batches|
    ensures Flatten(batches[..k + 1]) == Flatten(batches[..k]) + batches[k]
  {
    assert batches[..k + 1][..k] == batches[..k];
  }

  /** One message moves from the queue to what has been handled. */
  lemma HandledOne<T>(done: seq<T>, queue: seq<T>)
    requires queue != []
    ensures done + [queue[0]] + queue[1..] == done + queue
  {}

  class ControlTask {
    var unauth: map<SessionId, Unauth>
    const rtbl: RoutingTable

    constructor ()
      ensures fresh(rtbl) && rtbl.Valid() && rtbl.View() == Empty() && unauth == map[]
    {
      unauth := map[];
      rtbl := new RoutingTable();
    }

    method HandlePacket(id: SessionId, packet: ControlPacket, routing: Channel<RoutingMsg>)
      requires rtbl.Valid() && !routing.closed
      modifies this, rtbl, routing
      ensures rtbl.Valid() && !routing.closed
      ensures var e := Server.HandlePacket(old(unauth), old(rtbl.View()), id, packet);
              unauth == e.unauth && rtbl.View() == e.table && routing.msgs == old(routing.msgs) + Publication(e)
    {
      hide Enroll, Consistent;
      assert routing.msgs + [] == routing.msgs;
      var held := rtbl.HoldsSession(id);
      if held {
        return;
      }
      if id in unauth {
        var session := unauth[id];
        unauth := unauth - {id};
        if packet.Authenticate? {
          rtbl.EnrollSession(id, session.version, session.sender);
          var ok := routing.Send(Update(rtbl.View()));
          assert ok;
        }
      }
    }

    method RemoveSession(id: SessionId, routing: Channel<RoutingMsg>)
      requires rtbl.Valid() && !routing.closed
      modifies this, rtbl, routing
      ensures rtbl.Valid() && !routing.closed
      ensures var e := HandleControl(old(unauth), old(rtbl.View()), ControlMsg.RemoveSession(id));
              unauth == e.unauth && rtbl.View() == e.table && routing.msgs == old(routing.msgs) + Publication(e)
    {
      assert routing.msgs + [] == routing.msgs;
      if id in unauth {
        unauth := unauth - {id};
      } else {
        var known := rtbl.ExpelSession(id);
        hide Consistent, Expel;
        if known {
          var ok := routing.Send(Update(rtbl.View()));
          assert ok;
        }
      }
    }

    /** One message; the expectations about an open routing channel and about memberships hold on the way. */
    method Handle(msg: ControlMsg, recv: Channel<ControlMsg>, routing: Channel<RoutingMsg>)
      requires rtbl.Valid() && !routing.closed && recv as object != routing
      modifies this, rtbl, recv, routing
      ensures rtbl.Valid() && !routing.closed
      ensures var e := HandleControl(old(unauth), old(rtbl.View()), msg);
              && unauth == e.unauth && rtbl.View() == e.table
              && routing.msgs == old(routing.msgs) + Publication(e)
              && recv.msgs == old(recv.msgs) && recv.closed == (old(recv.closed) || e.close)
    {
      hide Consistent, Enroll, Expel;
      match msg
      case Packet(id, packet) => HandlePacket(id, packet, routing);
      case AddSession(id, session) =>
        unauth := unauth[id := session];
        assert routing.msgs + [] == routing.msgs;
      case RemoveSession(id) => RemoveSession(id, routing);
      case StopControl =>
        recv.Close();
        assert routing.msgs + [] == routing.msgs;
    }

    /**
     * The task's loop, while other tasks go on sending: `arrivals` are the messages that come in between the steps of
     * this task. It serves, in order, everything sent before its channel closes, also what is queued behind the stop
     * message; then it stops the routing task and drops its end of the channel. The `n` batches that count are all
     * of them unless a stop message closed the channel.
     */
    method Run(recv: Channel<ControlMsg>, routing: Channel<RoutingMsg>, arrivals: seq<seq<ControlMsg>>) returns (n: nat)
      requires rtbl.Valid() && !routing.closed && recv as object != routing
      modifies this, rtbl, recv, routing
      ensures n <= |arrivals|
      ensures var all := old(recv.msgs) + Flatten(arrivals[..n]);
              var end := Serve(Served(old(unauth), old(rtbl.View()), []), all);
              && unauth == end.unauth && rtbl.View() == end.table
              && routing.msgs == old(routing.msgs) + end.published + [StopRouting]
              && (n < |arrivals| ==> old(recv.closed) || StopControl in all)
      ensures rtbl.Valid() && recv.View() == Queue([], true)
    {
      hide Consistent, Serve, ServeOne, Flatten;
      ghost var start := Served(unauth, rtbl.View(), []);
      ghost var done: seq<ControlMsg> := [];
      n := 0;
      StartServing(start, recv.msgs, routing.msgs, arrivals);
      while recv.msgs != [] || (!recv.closed && n < |arrivals|)
        invariant n <= |arrivals| && rtbl.Valid() && !routing.closed
        invariant done + recv.msgs == old(recv.msgs) + Flatten(arrivals[..n])
        invariant var now := Serve(start, done);
                  unauth == now.unauth && rtbl.View() == now.table && routing.msgs == old(routing.msgs) + now.published
        invariant recv.closed ==> old(recv.closed) || StopControl in done
        decreases |arrivals| - n, |recv.msgs|
      {
        if !recv.closed && n < |arrivals| {
          FlattenNext(arrivals, n);
          Regroup(done, recv.msgs, arrivals[n]);
          Regroup(old(recv.msgs), Flatten(arrivals[..n]), arrivals[n]);
          recv.Arrive(arrivals[n]);
          n := n + 1;
        }
        if recv.msgs != [] {
          HandledOne(done, recv.msgs);
          var msg := recv.Receive();
          Step(msg, recv, routing, old(routing.msgs), Serve(start, done));
          ServePush(start, done, msg);
          done := done + [msg];
        }
      }
      assert done + [] == done;
      var ok := routing.Send(StopRouting);
      assert ok;
      recv.Close();
    }

    /** One round of the loop, in terms of what has been served so far. */
    method Step(msg: ControlMsg, recv: Channel<ControlMsg>, routing: Channel<RoutingMsg>,
                ghost sent: seq<RoutingMsg>, ghost so: Served)
      requires rtbl.Valid() && !routing.closed && recv as object != routing
      requires unauth == so.unauth && rtbl.View() == so.table && routing.msgs == sent + so.published
      modifies this, rtbl, recv, routing
      ensures rtbl.Valid() && !routing.closed
      ensures var now := ServeOne(so, msg);
              unauth == now.unauth && rtbl.View() == now.table && routing.msgs == sent + now.published
      ensures recv.msgs == old(recv.msgs) && recv.closed == (old(recv.closed) || msg.StopControl?)
    {
      hide Consistent, HandleControl;
      StopCloses(unauth, rtbl.View(), msg);
      Regroup(sent, so.published, Publication(HandleControl(unauth, rtbl.View(), msg)));
      Handle(msg, recv, routing);
    }
  }

  lemma StartServing(start: Served, queue: seq<ControlMsg>, sent: seq<RoutingMsg>, arrivals: seq<seq<ControlMsg>>)
    requires start.published == []
    ensures Serve(start, []) == start && sent + start.published == sent
    ensures [] + queue == queue + Flatten(arrivals[..0])
  {}

  // ----- The routing task -----

  /** The session channels, as the senders in a table reach them. */
  class Mailboxes {
    var tasks: seq<Task>

    constructor (tasks: seq<Task>)
      ensures this.tasks == tasks
    {
      this.tasks := tasks;
    }

    /** Sends one packet; a sender whose session has stopped, or never was, is skipped. */
    method Send(c: Sender, out: Outbound)
      modifies this
      ensures tasks == if c < |old(tasks)| then old(tasks)[c := Offer(old(tasks)[c], out, 1)] else old(tasks)
    {
      assert [out] == Repeat(out, 1);
      if c < |tasks| && tasks[c].phase.Active? {
        tasks := tasks[c := tasks[c].(inbox := tasks[c].inbox + [out], offered := tasks[c].offered + [out])];
      }
    }

    /** Sends a packet along a list of senders. */
    method SendAll(senders: seq<Sender>, out: Outbound)
      modifies this
      ensures |tasks| == |old(tasks)|
      ensures forall j :: 0 <= j < |tasks| ==> tasks[j] == Offer(old(tasks)[j], out, multiset(senders)[j])
    {
      var i := 0;
      NothingOffered(tasks, out);
      while i < |senders|
        invariant i <= |senders| && |tasks| == |old(tasks)|
        invariant forall j :: 0 <= j < |tasks| ==> tasks[j] == Offer(old(tasks)[j], out, multiset(senders[..i])[j])
      {
        hide Offer;
        SentOne(old(tasks), tasks, senders[..i], senders[i], out);
        assert senders[..i + 1] == senders[..i] + [senders[i]];
        Send(senders[i], out);
        i := i + 1;
      }
      assert senders[..|senders|] == senders;
    }
  }

  /** One more send along a list of senders. */
  lemma SentOne(start: seq<Task>, tasks: seq<Task>, sent: seq<Sender>, c: Sender, out: Outbound)
    requires |tasks| == |start|
    requires forall j :: 0 <= j < |tasks| ==> tasks[j] == Offer(start[j], out, multiset(sent)[j])
    ensures var tasks' := if c < |tasks| then tasks[c := Offer(tasks[c], out, 1)] else tasks;
            forall j :: 0 <= j < |tasks| ==> tasks'[j] == Offer(start[j], out, multiset(sent + [c])[j])
  {
    hide Offer;
    assert multiset(sent + [c]) == multiset(sent) + multiset{c};
    if c < |tasks| {
      OfferAgain(start[c], out, multiset(sent)[c]);
    }
  }

  lemma NothingOffered(tasks: seq<Task>, out: Outbound)
    ensures forall j :: 0 <= j < |tasks| ==> Offer(tasks[j], out, 0) == tasks[j]
  {
    forall j | 0 <= j < |tasks|
      ensures Offer(tasks[j], out, 0) == tasks[j]
    {
      assert tasks[j].inbox + Repeat(out, 0) == tasks[j].inbox && tasks[j].offered + Repeat(out, 0) == tasks[j].offered;
    }
  }

  lemma OfferAgain(task: Task, out: Outbound, n: nat)
    ensures Offer(Offer(task, out, n), out, 1) == Offer(task, out, n + 1)
  {
    assert Repeat(out, n) + Repeat(out, 1) == Repeat(out, n + 1);
    Regroup(task.inbox, Repeat(out, n), Repeat(out, 1));
    Regroup(task.offered, Repeat(out, n), Repeat(out, 1));
  }

  /** Everyone a text goes to: the named sessions that are enrolled, then the members of the named rooms. */
  method TextSenders(t: Table, text: TextMessage) returns (out: seq<Sender>, known: bool)
    ensures known <==> AllRoomsExist(t, text.rooms)
    ensures forall c :: multiset(out)[c] == TextCopies(t, text, c)
  {
    var named := NamedSenders(t, text.sessions);
    var members, all := MemberSenders(t, text.rooms);
    out, known := named + members, all;
    assert multiset(out) == multiset(named) + multiset(members);
  }

  method NamedSenders(t: Table, ids: seq<SessionId>) returns (out: seq<Sender>)
    ensures forall c :: multiset(out)[c] == NamedCopies(t, ids, c)
  {
    out := [];
    var i := 0;
    assert ids[0..] == ids;
    while i < |ids|
      invariant i <= |ids|
      invariant forall c :: multiset(out)[c] + NamedCopies(t, ids[i..], c) == NamedCopies(t, ids, c)
    {
      assert ids[i..][1..] == ids[i + 1..];
      if ids[i] in t.sessions {
        ghost var before := out;
        out := out + [t.sessions[ids[i]].sender];
        assert multiset(out) == multiset(before) + multiset{t.sessions[ids[i]].sender};
      }
      i := i + 1;
    }
  }

  /** The members of the named rooms, up to the first room that does not exist. */
  method MemberSenders(t: Table, rooms: seq<RoomId>) returns (out: seq<Sender>, known: bool)
    ensures known <==> AllRoomsExist(t, rooms)
    ensures forall c :: multiset(out)[c] == RoomCopies(t, Reached(t, rooms), c)
  {
    hide Via;
    out, known := [], true;
    var i := 0;
    assert rooms[0..] == rooms;
    while i < |rooms|
      invariant i <= |rooms| && AllRoomsExist(t, rooms[..i])
      invariant forall c :: multiset(out)[c] + RoomCopies(t, Reached(t, rooms[i..]), c) == RoomCopies(t, Reached(t, rooms), c)
    {
      if rooms[i] !in t.rooms {
        return out, false;
      }
      ReachedStep(t, rooms, i);
      hide Reached, RoomCopies;
      var more := RoomSenders(t, rooms[i], None);
      ghost var before := out;
      out := out + more;
      assert multiset(out) == multiset(before) + multiset(more);
      assert rooms[..i + 1] == rooms[..i] + [rooms[i]];
      i := i + 1;
    }
    assert rooms[..i] == rooms;
  }

  lemma ReachedStep(t: Table, rooms: seq<RoomId>, i: nat)
    requires i < |rooms| && rooms[i] in t.rooms
    ensures forall c :: RoomCopies(t, Reached(t, rooms[i..]), c)
                     == |Via(t, rooms[i], None, c)| + RoomCopies(t, Reached(t, rooms[i + 1..]), c)
  {
    hide Via;
    assert rooms[i..][1..] == rooms[i + 1..];
    var rest := Reached(t, rooms[i + 1..]);
    assert ([rooms[i]] + rest)[1..] == rest;
  }

  /** What the routing task has made of a list of messages; after an unsupported one it does nothing more. */
  datatype Routed = Routed(table: Table, tasks: seq<Task>, supported: bool)

  function RouteOne(before: Routed, msg: RoutingMsg): Routed {
    if !before.supported then before
    else
      var s := HandleRouting(Init().(snapshot := before.table, tasks := before.tasks), msg);
      Routed(s.snapshot, s.tasks, s.fault.NoFault?)
  }

  function Route(before: Routed, msgs: seq<RoutingMsg>): Routed {
    if msgs == [] then before else RouteOne(Route(before, msgs[..|msgs| - 1]), msgs[|msgs| - 1])
  }

  lemma RoutePush(before: Routed, msgs: seq<RoutingMsg>, msg: RoutingMsg)
    ensures Route(before, msgs + [msg]) == RouteOne(Route(before, msgs), msg)
  {
    assert (msgs + [msg])[..|msgs|] == msgs;
  }

  lemma {:induction false} RouteAfterPanic(before: Routed, msgs: seq<RoutingMsg>, more: seq<RoutingMsg>)
    requires !Route(before, msgs).supported
    ensures Route(before, msgs + more) == Route(before, msgs)
  {
    if more == [] {
      assert msgs + more == msgs;
    } else {
      var k := |more| - 1;
      RouteAfterPanic(before, msgs, more[..k]);
      RoutePush(before, msgs + more[..k], more[k]);
      assert msgs + more == msgs + more[..k] + [more[k]];
    }
  }

  /** Routing a message reads the table and the session channels, never the queue it came from. */
  lemma QueueDoesNotMatter(s: State, q: Queue<RoutingMsg>, msg: RoutingMsg)
    ensures var a, b := HandleRouting(s, msg), HandleRouting(s.(routing := q), msg);
            && a.snapshot == b.snapshot == (if msg.Update? then msg.table else s.snapshot)
            && a.tasks == b.tasks && a.fault == b.fault
            && b.routing == Queue(q.msgs, q.closed || msg.StopRouting?)
  {
    hide HandleVoice, HandleText;
    match msg
    case VoiceMsg(id, p) => VoiceIgnoresQueue(s, q, id, p);
    case TextMsg(id, text) => TextIgnoresQueue(s, q, id, text);
    case _ =>
  }

  lemma VoiceIgnoresQueue(s: State, q: Queue<RoutingMsg>, id: SessionId, p: Voice.VoicePacket)
    ensures HandleVoice(s.(routing := q), id, p) == HandleVoice(s, id, p).(routing := q)
    ensures HandleVoice(s, id, p).snapshot == s.snapshot
  {
    hide OfferVoice;
  }

  lemma TextIgnoresQueue(s: State, q: Queue<RoutingMsg>, id: SessionId, text: TextMessage)
    ensures HandleText(s.(routing := q), id, text) == HandleText(s, id, text).(routing := q)
    ensures HandleText(s, id, text).snapshot == s.snapshot
  {
    hide OfferText, AllRoomsExist;
  }

  lemma StartRouting(start: Routed, queue: seq<RoutingMsg>, arrivals: seq<seq<RoutingMsg>>)
    ensures Route(start, []) == start && [] + queue == queue + Flatten(arrivals[..0])
  {}

  class RoutingTask {
    var table: Table

    constructor ()
      ensures table == Empty()
    {
      table := Empty();
    }

    /** A voice message: routed, dropped for an unknown speaker, or unsupported. */
    method RouteVoice(id: SessionId, p: Voice.VoicePacket, boxes: Mailboxes) returns (supported: bool)
      requires Consistent(table)
      modifies boxes
      ensures supported <==> p.Audio? && p.target == 0
      ensures boxes.tasks == if supported then OfferVoice(old(boxes.tasks), table, id, p) else old(boxes.tasks)
    {
      hide Consistent, Offer, Via;
      if p.Ping? {
        return false;
      }
      var senders := TargetSenders(table, id, p.target);
      if senders.NotSupported? {
        return false;
      }
      supported := true;
      if senders.UnknownSession? {
        NothingOffered(boxes.tasks, VoiceOut(Tunnel.Restamp(p, id)));
        return;
      }
      boxes.SendAll(senders.value, VoiceOut(Tunnel.Restamp(p, id)));
    }

    /** A text message, with its actor overwritten; a room that does not exist is unsupported, after the copies before it. */
    method RouteText(id: SessionId, text: TextMessage, boxes: Mailboxes) returns (supported: bool)
      modifies boxes
      ensures supported <==> AllRoomsExist(table, text.rooms)
      ensures boxes.tasks == OfferText(old(boxes.tasks), table, id, text)
    {
      hide Offer, TextCopies, AllRoomsExist;
      var senders, known := TextSenders(table, text);
      boxes.SendAll(senders, TextOut(text.(actor := Some(id))));
      supported := known;
    }

    /** One message of the routing queue, as the transition system handles it. */
    method Handle(msg: RoutingMsg, recv: Channel<RoutingMsg>, boxes: Mailboxes, ghost s: State) returns (supported: bool)
      requires Consistent(table) && recv as object != boxes && recv as object != this && boxes as object != this
      requires s.snapshot == table && s.tasks == boxes.tasks && s.routing == recv.View()
      modifies this, recv, boxes
      ensures var s' := HandleRouting(s, msg);
              && table == s'.snapshot && boxes.tasks == s'.tasks && recv.View() == s'.routing
              && s'.fault == (if supported then s.fault else Unimplemented)
    {
      assert msg.VoiceMsg? && msg.id in table.sessions ==> table.sessions[msg.id].room in table.rooms;
      hide Consistent, OfferVoice, OfferText;
      match msg
      case VoiceMsg(id, p) => supported := RouteVoice(id, p, boxes);
      case TextMsg(id, text) => supported := RouteText(id, text, boxes);
      case Update(t) =>
        table := t;
        supported := true;
      case StopRouting =>
        recv.Close();
        supported := true;
    }

    /** One round of the loop. */
    method Step(msg: RoutingMsg, recv: Channel<RoutingMsg>, boxes: Mailboxes) returns (supported: bool)
      requires Consistent(table) && recv as object != boxes && recv as object != this && boxes as object != this
      requires msg.Update? ==> Consistent(msg.table)
      modifies this, recv, boxes
      ensures Consistent(table)
      ensures Routed(table, boxes.tasks, supported) == RouteOne(Routed(old(table), old(boxes.tasks), true), msg)
      ensures recv.msgs == old(recv.msgs) && recv.closed == (old(recv.closed) || msg.StopRouting?)
    {
      hide Consistent, HandleRouting;
      ghost var s := Init().(snapshot := table, tasks := boxes.tasks);
      QueueDoesNotMatter(s, recv.View(), msg);
      supported := Handle(msg, recv, boxes, s.(routing := recv.View()));
    }

    /**
     * The task's loop, while other tasks go on sending: it routes, in order, everything sent before its channel
     * closes, also what is queued behind the stop message, unless a message it does not support makes it panic.
     */
    method Run(recv: Channel<RoutingMsg>, boxes: Mailboxes, arrivals: seq<seq<RoutingMsg>>) returns (n: nat, supported: bool)
      requires Consistent(table) && recv as object != boxes && recv as object != this && boxes as object != this
      requires UpdatesConsistent(recv.msgs) && forall k :: 0 <= k < |arrivals| ==> UpdatesConsistent(arrivals[k])
      modifies this, recv, boxes
      ensures n <= |arrivals|
      ensures var all := old(recv.msgs) + Flatten(arrivals[..n]);
              && Routed(table, boxes.tasks, supported) == Route(Routed(old(table), old(boxes.tasks), true), all)
              && (supported && n < |arrivals| ==> old(recv.closed) || StopRouting in all)
      ensures supported ==> recv.View() == Queue([], true)
    {
      hide Consistent, Route, RouteOne, Flatten;
      ghost var start := Routed(table, boxes.tasks, true);
      ghost var done: seq<RoutingMsg> := [];
      n, supported := 0, true;
      StartRouting(start, recv.msgs, arrivals);
      while recv.msgs != [] || (!recv.closed && n < |arrivals|)
        invariant n <= |arrivals| && Consistent(table) && UpdatesConsistent(recv.msgs)
        invariant done + recv.msgs == old(recv.msgs) + Flatten(arrivals[..n])
        invariant Route(start, done) == Routed(table, boxes.tasks, true)
        invariant recv.closed ==> old(recv.closed) || StopRouting in done
        decreases |arrivals| - n, |recv.msgs|
      {
        if !recv.closed && n < |arrivals| {
          FlattenNext(arrivals, n);
          Regroup(done, recv.msgs, arrivals[n]);
          Regroup(old(recv.msgs), Flatten(arrivals[..n]), arrivals[n]);
          recv.Arrive(arrivals[n]);
          n := n + 1;
        }
        if recv.msgs != [] {
          HandledOne(done, recv.msgs);
          var msg := recv.Receive();
          supported := Step(msg, recv, boxes);
          RoutePush(start, done, msg);
          done := done + [msg];
          if !supported {
            RouteAfterPanic(start, done, recv.msgs);
            return n, false;
          }
        }
      }
      assert done + [] == done;
      recv.Close();
      supported := true;
    }
  }

  // ----- A session task -----

  /** A packet from the client, sent on to the task that handles it; a closed channel drops it. */
  method ForwardPacket(i: nat, packet: Inbound, control: Channel<ControlMsg>, routing: Channel<RoutingMsg>, ghost s: State)
    requires control as object != routing && i < |s.tasks|
    requires s.control == control.View() && s.routing == routing.View()
    modifies control, routing
    ensures control.View() == Forward(s, i, packet).control && routing.View() == Forward(s, i, packet).routing
  {
    match packet
    case Tunnelled(v) => var _ := routing.Send(VoiceMsg(IdOf(i), v));
    case Texted(text) => var _ := routing.Send(TextMsg(IdOf(i), text));
    case Controlled(p) => var _ := control.Send(Packet(IdOf(i), p));
  }

  lemma StopCloses(unauth: map<SessionId, Unauth>, table: Table, msg: ControlMsg)
    ensures HandleControl(unauth, table, msg).close <==> msg.StopControl?
  {}
}
