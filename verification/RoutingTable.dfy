/** The routing table: which sessions are enrolled, in which room each one is, and how to reach it. */
module RoutingTables {
  import opened Bytes

  type SessionId = u32
  type RoomId = u32

  /** The sending half of a session's channel, named by the session task that made the channel. */
  type Sender = nat

  datatype Session = Session(room: RoomId, version: u32, sender: Sender)

  /** A table as a value; cloning the source's table yields one. */
  datatype Table = Table(sessions: map<SessionId, Session>, rooms: map<RoomId, set<SessionId>>)

  function Empty(): Table {
    Table(map[], map[])
  }

  /** Members of a room, empty for a room that does not exist. */
  function Members(t: Table, room: RoomId): set<SessionId> {
    if room in t.rooms then t.rooms[room] else {}
  }

  /** Membership is a two-way bijection: each session is in exactly its recorded room, and every member is a session. */
  ghost predicate Consistent(t: Table) {
    && (forall id :: id in t.sessions ==> t.sessions[id].room in t.rooms && id in t.rooms[t.sessions[id].room])
    && (forall room, id :: room in t.rooms && id in t.rooms[room] ==> id in t.sessions && t.sessions[id].room == room)
  }

  const DEFAULT_ROOM: RoomId := 0

  function Enroll(t: Table, id: SessionId, version: u32, sender: Sender): Table {
    Table(t.sessions[id := Session(DEFAULT_ROOM, version, sender)],
          t.rooms[DEFAULT_ROOM := Members(t, DEFAULT_ROOM) + {id}])
  }

  function Expel(t: Table, id: SessionId): Table
    requires id in t.sessions && t.sessions[id].room in t.rooms
  {
    var room := t.sessions[id].room;
    Table(t.sessions - {id}, t.rooms[room := t.rooms[room] - {id}])
  }

  function Move(t: Table, id: SessionId, dest: RoomId): Table
    requires id in t.sessions && t.sessions[id].room in t.rooms
  {
    var orig := t.sessions[id].room;
    var left := t.rooms[orig := t.rooms[orig] - {id}];
    Table(t.sessions[id := t.sessions[id].(room := dest)],
          left[dest := (if dest in left then left[dest] else {}) + {id}])
  }

  /** Apart from one session the two tables hold the same sessions, in the same rooms. */
  ghost predicate SameBut(t: Table, u: Table, id: SessionId) {
    && (forall other: SessionId :: other != id ==> (other in u.sessions <==> other in t.sessions))
    && (forall other: SessionId :: other != id && other in t.sessions && other in u.sessions ==> u.sessions[other] == t.sessions[other])
    && (forall room: RoomId, other: SessionId :: other != id ==>
          (room in u.rooms && other in u.rooms[room] <==> room in t.rooms && other in t.rooms[room]))
  }

  /** The session is a member of exactly the given room. */
  ghost predicate OnlyIn(t: Table, id: SessionId, room: RoomId) {
    && room in t.rooms && id in t.rooms[room]
    && forall other :: other in t.rooms && id in t.rooms[other] ==> other == room
  }

  /** An enrolled session is in the default room, with the version and sender it came with; nobody else is touched. */
  lemma EnrollExactly(t: Table, id: SessionId, version: u32, sender: Sender)
    requires Consistent(t) && id !in t.sessions
    ensures var u := Enroll(t, id, version, sender);
            && id in u.sessions && u.sessions[id].room == 0 && u.sessions[id].version == version && u.sessions[id].sender == sender
            && OnlyIn(u, id, 0) && SameBut(t, u, id)
            && u.rooms.Keys == t.rooms.Keys + {0}
  {}

  /** An expelled session is in no map and no room; nobody else is touched, and its room stays, even if it is empty. */
  lemma ExpelExactly(t: Table, id: SessionId)
    requires Consistent(t) && id in t.sessions
    ensures var u := Expel(t, id);
            && id !in u.sessions && (forall room :: room in u.rooms ==> id !in u.rooms[room])
            && SameBut(t, u, id) && u.rooms.Keys == t.rooms.Keys
  {}

  /** A moved session is in its destination alone, with its version and sender; nobody else is touched, and no room goes. */
  lemma MoveExactly(t: Table, id: SessionId, dest: RoomId)
    requires Consistent(t) && id in t.sessions
    ensures var u := Move(t, id, dest);
            && id in u.sessions && u.sessions[id].room == dest
            && u.sessions[id].version == t.sessions[id].version && u.sessions[id].sender == t.sessions[id].sender
            && OnlyIn(u, id, dest) && SameBut(t, u, id)
            && u.rooms.Keys == t.rooms.Keys + {dest}
  {}

  lemma EnrollConsistent(t: Table, id: SessionId, version: u32, sender: Sender)
    requires Consistent(t) && id !in t.sessions
    ensures Consistent(Enroll(t, id, version, sender))
  {}

  lemma ExpelConsistent(t: Table, id: SessionId)
    requires Consistent(t) && id in t.sessions
    ensures Consistent(Expel(t, id))
  {}

  lemma MoveConsistent(t: Table, id: SessionId, dest: RoomId)
    requires Consistent(t) && id in t.sessions
    ensures Consistent(Move(t, id, dest))
  {}

  /** Enrolling a session that is already held in another room would leave it a member of both. */
  lemma EnrollKeepsConsistencyExactly(t: Table, id: SessionId, version: u32, sender: Sender)
    requires Consistent(t)
    ensures Consistent(Enroll(t, id, version, sender)) <==> id !in t.sessions || t.sessions[id].room == DEFAULT_ROOM
  {
    var u := Enroll(t, id, version, sender);
    if id in t.sessions && t.sessions[id].room != DEFAULT_ROOM {
      var room := t.sessions[id].room;
      assert room in u.rooms && id in u.rooms[room] && u.sessions[id].room == DEFAULT_ROOM;
    }
  }

  // ----- Whole histories of a table -----

  datatype Op = DoEnroll(id: SessionId, version: u32, sender: Sender) | DoExpel(id: SessionId) | DoMove(id: SessionId, dest: RoomId)

  /** A table change as its callers make it: enrolment only of new ids, expulsion and moves of any id. */
  predicate Allowed(t: Table, op: Op) {
    op.DoEnroll? ==> op.id !in t.sessions
  }

  /** The effect of a change; expelling or moving an unknown session changes nothing. */
  function Apply(t: Table, op: Op): Table {
    match op
    case DoEnroll(id, version, sender) => Enroll(t, id, version, sender)
    case DoExpel(id) => if id in t.sessions && t.sessions[id].room in t.rooms then Expel(t, id) else t
    case DoMove(id, dest) => if id in t.sessions && t.sessions[id].room in t.rooms then Move(t, id, dest) else t
  }

  function ApplyAll(t: Table, ops: seq<Op>): Table {
    if ops == [] then t else Apply(ApplyAll(t, ops[..|ops| - 1]), ops[|ops| - 1])
  }

  ghost predicate AllAllowed(t: Table, ops: seq<Op>) {
    forall k :: 0 <= k < |ops| ==> Allowed(ApplyAll(t, ops[..k]), ops[k])
  }

  /** Every sequence of changes keeps the table consistent. */
  lemma {:induction false} HistoryConsistent(ops: seq<Op>)
    requires AllAllowed(Empty(), ops)
    ensures Consistent(ApplyAll(Empty(), ops))
  {
    if ops != [] {
      var k := |ops| - 1;
      var front := ops[..k];
      assert forall i :: 0 <= i < k ==> front[..i] == ops[..i];
      HistoryConsistent(front);
      var t := ApplyAll(Empty(), front);
      assert Allowed(t, ops[k]);
      match ops[k]
      case DoEnroll(id, version, sender) => EnrollConsistent(t, id, version, sender);
      case DoExpel(id) => if id in t.sessions { ExpelConsistent(t, id); }
      case DoMove(id, dest) => if id in t.sessions { MoveConsistent(t, id, dest); }
    }
  }

  // ----- Who a message goes to -----

  /** The members of a room, other than `exclude`, that are reached through the sender `c`. */
  function Via(t: Table, room: RoomId, exclude: Option<SessionId>, c: Sender): set<SessionId> {
    set id | id in Members(t, room) && Some(id) != exclude && id in t.sessions && t.sessions[id].sender == c
  }

  /** Every session is reached through its own channel. */
  ghost predicate OwnSenders(t: Table) {
    forall id :: id in t.sessions ==> t.sessions[id].sender == id
  }

  lemma ViaOwnSender(t: Table, room: RoomId, exclude: Option<SessionId>, c: Sender)
    requires Consistent(t) && OwnSenders(t) && room in t.rooms
    ensures Via(t, room, exclude, c) == if c < TWO_32 && c in t.rooms[room] && Some(c) != exclude then {c} else {}
  {}

  // ----- The table the source mutates -----

  datatype Lookup<+T> = Found(value: T) | UnknownSession | NotSupported

  class RoutingTable {
    var sessions: map<SessionId, Session>
    var rooms: map<RoomId, set<SessionId>>

    function View(): Table
      reads this
    {
      Table(sessions, rooms)
    }

    ghost predicate Valid()
      reads this
    {
      Consistent(View())
    }

    constructor ()
      ensures Valid() && View() == Empty()
    {
      sessions, rooms := map[], map[];
    }

    method HoldsSession(id: SessionId) returns (held: bool)
      ensures held <==> id in sessions
    {
      held := id in sessions;
    }

    /** Puts a session in the default room; the table stays consistent unless the session was held elsewhere. */
    method EnrollSession(id: SessionId, version: u32, sender: Sender)
      requires Valid()
      modifies this
      ensures View() == Enroll(old(View()), id, version, sender)
      ensures Valid() <==> id !in old(sessions) || old(sessions)[id].room == DEFAULT_ROOM
    {
      hide Consistent;
      EnrollKeepsConsistencyExactly(View(), id, version, sender);
      sessions := sessions[id := Session(DEFAULT_ROOM, version, sender)];
      if DEFAULT_ROOM !in rooms {
        rooms := rooms[DEFAULT_ROOM := {}];
      }
      rooms := rooms[DEFAULT_ROOM := rooms[DEFAULT_ROOM] + {id}];
      assert rooms == Enroll(old(View()), id, version, sender).rooms;
    }

    /** Removes a session; the room it was in always exists. */
    method ExpelSession(id: SessionId) returns (known: bool)
      requires Valid()
      modifies this
      ensures Valid() && known == (id in old(sessions))
      ensures View() == if known then Expel(old(View()), id) else old(View())
    {
      if id !in sessions {
        return false;
      }
      ExpelConsistent(View(), id);
      var session := sessions[id];
      sessions := sessions - {id};
      rooms := rooms[session.room := rooms[session.room] - {id}];
      known := true;
    }

    method MoveSession(id: SessionId, dest: RoomId) returns (known: bool)
      requires Valid()
      modifies this
      ensures Valid() && known == (id in old(sessions))
      ensures View() == if known then Move(old(View()), id, dest) else old(View())
    {
      if id !in sessions {
        return false;
      }
      assert sessions[id].room in rooms;
      hide Consistent;
      MoveConsistent(View(), id, dest);
      var orig := sessions[id].room;
      rooms := rooms[orig := rooms[orig] - {id}];
      if dest !in rooms {
        rooms := rooms[dest := {}];
      }
      rooms := rooms[dest := rooms[dest] + {id}];
      sessions := sessions[id := sessions[id].(room := dest)];
      known := true;
      assert rooms == Move(old(View()), id, dest).rooms;
    }
  }

  /** The senders collected from the members in `done`. */
  ghost predicate Collected(t: Table, room: RoomId, exclude: Option<SessionId>, done: set<SessionId>, out: seq<Sender>) {
    forall c :: multiset(out)[c] == |Via(t, room, exclude, c) * done|
  }

  /** What visiting one member yields. */
  function Visit(t: Table, exclude: Option<SessionId>, id: SessionId): seq<Sender> {
    if Some(id) != exclude && id in t.sessions then [t.sessions[id].sender] else []
  }

  lemma ViaStep(t: Table, room: RoomId, exclude: Option<SessionId>, done: set<SessionId>, id: SessionId, c: Sender)
    requires id in Members(t, room) && id !in done
    ensures |Via(t, room, exclude, c) * (done + {id})|
         == |Via(t, room, exclude, c) * done| + multiset(Visit(t, exclude, id))[c]
  {
    var via := Via(t, room, exclude, c);
    if id in via {
      assert via * (done + {id}) == via * done + {id};
    } else {
      assert via * (done + {id}) == via * done;
    }
  }

  lemma CollectStep(t: Table, room: RoomId, exclude: Option<SessionId>, done: set<SessionId>, out: seq<Sender>, id: SessionId)
    requires Collected(t, room, exclude, done, out) && id in Members(t, room) && id !in done
    ensures Collected(t, room, exclude, done + {id}, out + Visit(t, exclude, id))
  {
    hide Via, Visit;
    forall c: Sender
      ensures multiset(out + Visit(t, exclude, id))[c] == |Via(t, room, exclude, c) * (done + {id})|
    {
      ViaStep(t, room, exclude, done, id, c);
      assert multiset(out + Visit(t, exclude, id)) == multiset(out) + multiset(Visit(t, exclude, id));
    }
  }

  lemma CollectAll(t: Table, room: RoomId, exclude: Option<SessionId>, out: seq<Sender>)
    requires Collected(t, room, exclude, Members(t, room), out)
    ensures forall c :: multiset(out)[c] == |Via(t, room, exclude, c)|
  {
    forall c: Sender
      ensures multiset(out)[c] == |Via(t, room, exclude, c)|
    {
      assert Via(t, room, exclude, c) * Members(t, room) == Via(t, room, exclude, c);
    }
  }

  /** The senders of a room's members in some order: each one as often as it reaches a member. */
  method RoomSenders(t: Table, room: RoomId, exclude: Option<SessionId>) returns (out: seq<Sender>)
    requires room in t.rooms
    ensures forall c :: multiset(out)[c] == |Via(t, room, exclude, c)|
  {
    hide Via, Collected;
    out := [];
    var rest := t.rooms[room];
    ghost var done: set<SessionId> := {};
    CollectNone(t, room, exclude);
    while rest != {}
      invariant rest <= Members(t, room) && done == Members(t, room) - rest
      invariant Collected(t, room, exclude, done, out)
      decreases rest
    {
      var id :| id in rest;
      CollectStep(t, room, exclude, done, out, id);
      done := done + {id};
      rest := rest - {id};
      if Some(id) != exclude && id in t.sessions {
        out := out + [t.sessions[id].sender];
      } else {
        assert out + [] == out;
      }
    }
    assert done == Members(t, room);
    CollectAll(t, room, exclude, out);
  }

  lemma CollectNone(t: Table, room: RoomId, exclude: Option<SessionId>)
    ensures Collected(t, room, exclude, {}, [])
  {}

  /** The senders a voice packet goes to. On a consistent table the speaker's room is always there. */
  method TargetSenders(t: Table, id: SessionId, target: byte) returns (out: Lookup<seq<Sender>>)
    requires Consistent(t)
    ensures out.NotSupported? <==> target != 0
    ensures out.UnknownSession? <==> target == 0 && id !in t.sessions
    ensures out.Found? ==> forall c :: multiset(out.value)[c] == |Via(t, t.sessions[id].room, Some(id), c)|
  {
    if target != 0 {
      return NotSupported;
    }
    if id !in t.sessions {
      return UnknownSession;
    }
    var senders := RoomSenders(t, t.sessions[id].room, Some(id));
    out := Found(senders);
  }
}
