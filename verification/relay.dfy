/**
  The signaling relay (signaling-server/src/main.rs).

  The server keeps one registry, `room id -> (device id -> client handle)`, and
  every connection runs a receive loop that changes the registry under a single
  lock. The model takes each locked step as atomic: a rejected Join and the
  cleanup that follows it take the lock twice, so they are two steps, and other
  connections may act between them. A client handle is the
  sending half of its connection's outbound queue, so the registry maps a device
  id to the connection that owns the queue, and the queues themselves are kept
  per connection. A connection that joins twice under two ids therefore holds
  two entries that feed one queue, as in the source.

  `State` is the whole relay as a value and `Step` is one iteration of a
  connection's receive loop; the class `RelayServer` performs the same steps in
  place and is proved to agree with them.
*/
module Relay {
  import opened Wrappers
  import opened Signal

  /** A connection is named by its position in the list of accepted connections. */
  type ConnId = nat

  /** `Room.clients`: device id -> the connection whose queue that entry writes to. */
  type Members = map<string, ConnId>

  /**
    `Receiving`: the receive loop runs. `Ending`: the loop broke out after a
    rejected Join (main.rs:116) and the cleanup has not yet taken the lock.
    `Closed`: the cleanup has run.
  */
  datatype Phase = Receiving | Ending | Closed

  /**
    What one `handle_socket` call keeps: the room id from its path, its `device_id`
    variable (empty until a Join) and how far its task has got.
  */
  datatype Conn = Conn(roomId: string, deviceId: string, phase: Phase)

  /** The registry, the connections, and for each connection what was enqueued for it so far. */
  datatype State = State(rooms: map<string, Members>, conns: seq<Conn>, outbox: seq<seq<SignalMessage>>)

  const Initial: State := State(map[], [], [])

  /** Every registry entry names an accepted connection whose path is that room. */
  ghost predicate WellFormed(s: State) {
    && |s.outbox| == |s.conns|
    && forall r | r in s.rooms :: EntriesOf(s.conns, r, s.rooms[r])
  }

  /** Every entry of room `r` names an accepted connection whose path is `r`. */
  ghost predicate EntriesOf(conns: seq<Conn>, r: string, members: Members) {
    forall d | d in members :: members[d] < |conns| && conns[members[d]].roomId == r
  }

  /** The capacity invariant: every room that exists holds one or two entries. */
  ghost predicate Capacity(s: State) {
    forall r | r in s.rooms :: 1 <= |s.rooms[r]| <= 2
  }

  ghost predicate Inv(s: State) {
    WellFormed(s) && Capacity(s)
  }

  function Repeat(msg: SignalMessage, n: nat): (r: seq<SignalMessage>)
    ensures |r| == n && forall i | 0 <= i < n :: r[i] == msg
  {
    seq(n, i => msg)
  }

  /** The ids among `among` whose entry writes to connection `k`'s queue. */
  function Holders(members: Members, among: set<string>, k: ConnId): set<string> {
    set d | d in among && d in members && members[d] == k
  }

  /** Every queue after `msg` was sent once through every entry of `members`. */
  function Notified(outbox: seq<seq<SignalMessage>>, members: Members, msg: SignalMessage): (r: seq<seq<SignalMessage>>)
    ensures |r| == |outbox|
  {
    seq(|outbox|, k requires 0 <= k < |outbox| => outbox[k] + Repeat(msg, |Holders(members, members.Keys, k)|))
  }

  /**
    Notifying only appends copies of `msg`: every queue an entry writes to gets
    at least one, and a queue no entry writes to is unchanged.
  */
  lemma NotifiedDelivers(outbox: seq<seq<SignalMessage>>, members: Members, msg: SignalMessage)
    ensures var r := Notified(outbox, members, msg);
      && (forall k | 0 <= k < |outbox| ::
            |outbox[k]| <= |r[k]| && r[k][..|outbox[k]|] == outbox[k]
            && forall i | |outbox[k]| <= i < |r[k]| :: r[k][i] == msg)
      && (forall d | d in members && members[d] < |outbox| :: |r[members[d]]| > |outbox[members[d]]|)
      && (forall k | 0 <= k < |outbox| && k !in members.Values :: r[k] == outbox[k])
  {
    HoldersCount(members);
  }

  /** A queue some entry writes to has a holder; a queue none writes to has none. */
  lemma HoldersCount(members: Members)
    ensures forall d | d in members :: |Holders(members, members.Keys, members[d])| > 0
    ensures forall k: ConnId | k !in members.Values :: Holders(members, members.Keys, k) == {}
  {
    forall d | d in members
      ensures |Holders(members, members.Keys, members[d])| > 0
    {
      assert d in Holders(members, members.Keys, members[d]);
    }
  }

  /** A new websocket for `roomId`: empty device id, empty queue (main.rs:82-95). */
  function Opened(s: State, roomId: string): (r: State)
    requires WellFormed(s)
    ensures WellFormed(r) && (Capacity(s) ==> Capacity(r))
    ensures r.rooms == s.rooms
    ensures r.conns == s.conns + [Conn(roomId, "", Receiving)]
    ensures r.outbox == s.outbox + [[]]
  {
    s.(conns := s.conns + [Conn(roomId, "", Receiving)], outbox := s.outbox + [[]])
  }

  /**
    Changing a connection's device id, phase or queue keeps every entry well
    formed: only the room ids of the connections matter.
  */
  lemma KeepsWellFormed(s: State, t: State)
    requires WellFormed(s)
    requires t.rooms == s.rooms && |t.outbox| == |s.outbox| && |t.conns| == |s.conns|
    requires forall i | 0 <= i < |s.conns| :: t.conns[i].roomId == s.conns[i].roomId
    ensures WellFormed(t)
  {
  }

  /** Append `msg` to connection `k`'s queue. */
  function Enqueued(s: State, k: ConnId, msg: SignalMessage): (r: State)
    requires WellFormed(s) && k < |s.outbox|
    ensures WellFormed(r) && r.rooms == s.rooms && r.conns == s.conns
    ensures r.outbox == s.outbox[k := s.outbox[k] + [msg]]
  {
    var r := s.(outbox := s.outbox[k := s.outbox[k] + [msg]]);
    KeepsWellFormed(s, r);
    r
  }

  /** `relay_message`: a read-only lookup of `target` in the room, then one enqueue (main.rs:170-178). */
  function Relayed(s: State, roomId: string, target: string, msg: SignalMessage): (r: State)
    requires WellFormed(s)
    ensures WellFormed(r) && r.rooms == s.rooms && r.conns == s.conns
  {
    if roomId in s.rooms && target in s.rooms[roomId] then
      Enqueued(s, s.rooms[roomId][target], msg)
    else
      s
  }

  /** The room after `id` left it: deleted when nothing is left (main.rs:147, 154-157). */
  function Without(rooms: map<string, Members>, roomId: string, rest: Members): map<string, Members> {
    if |rest| == 0 then rooms - {roomId} else rooms[roomId := rest]
  }

  /** `id` leaves room `roomId` and `msg` goes out through every entry left (main.rs:146-157). */
  function Leaving(s: State, roomId: string, id: string, msg: SignalMessage): State
    requires roomId in s.rooms
  {
    s.(rooms := Without(s.rooms, roomId, s.rooms[roomId] - {id}),
       outbox := Notified(s.outbox, s.rooms[roomId] - {id}, msg))
  }

  lemma LeavingKeepsInvariant(s: State, roomId: string, id: string, msg: SignalMessage)
    requires WellFormed(s) && roomId in s.rooms
    ensures WellFormed(Leaving(s, roomId, id, msg))
    ensures Capacity(s) ==> Capacity(Leaving(s, roomId, id, msg))
  {
    if Capacity(s) {
      LeavingKeepsCapacity(s.rooms, roomId, id);
    }
  }

  lemma LeavingKeepsCapacity(rooms: map<string, Members>, roomId: string, id: string)
    requires roomId in rooms && forall r | r in rooms :: 1 <= |rooms[r]| <= 2
    ensures forall r | r in Without(rooms, roomId, rooms[roomId] - {id}) ::
              1 <= |Without(rooms, roomId, rooms[roomId] - {id})[r]| <= 2
  {
    var rest := rooms[roomId] - {id};
    assert rest.Keys == rooms[roomId].Keys - {id};
    SubsetCard(rest.Keys, rooms[roomId].Keys);
  }

  /**
    The cleanup after the receive loop (main.rs:142-159): when the device id is
    not empty and the room exists, remove the id, tell every remaining entry,
    and delete the room if nothing is left.
  */
  function CleanedUp(s: State, c: ConnId): (r: State)
    requires WellFormed(s) && c < |s.conns|
    ensures WellFormed(r) && (Capacity(s) ==> Capacity(r)) && r.conns == s.conns
  {
    var conn := s.conns[c];
    if conn.deviceId == "" || conn.roomId !in s.rooms then s
    else
      LeavingKeepsInvariant(s, conn.roomId, conn.deviceId, PeerDisconnected(conn.deviceId));
      Leaving(s, conn.roomId, conn.deviceId, PeerDisconnected(conn.deviceId))
  }

  /** Connection `c`'s task moves on to `phase`; nothing else changes. */
  function WithPhase(s: State, c: ConnId, phase: Phase): (r: State)
    requires WellFormed(s) && c < |s.conns|
    ensures WellFormed(r) && r.rooms == s.rooms && r.outbox == s.outbox
    ensures r.conns == s.conns[c := s.conns[c].(phase := phase)]
  {
    var r := s.(conns := s.conns[c := s.conns[c].(phase := phase)]);
    KeepsWellFormed(s, r);
    r
  }

  /** The loop has ended: clean up under the current device id, then the connection is closed. */
  function Ended(s: State, c: ConnId): (r: State)
    requires WellFormed(s) && c < |s.conns|
    ensures WellFormed(r) && (Capacity(s) ==> Capacity(r))
  {
    WithPhase(CleanedUp(s, c), c, Closed)
  }

  /** `device_id = id.clone()` (main.rs:104). */
  function Named(s: State, c: ConnId, id: string): (r: State)
    requires WellFormed(s) && c < |s.conns|
    ensures WellFormed(r) && r.rooms == s.rooms && r.outbox == s.outbox
    ensures r.conns == s.conns[c := s.conns[c].(deviceId := id)]
  {
    var r := s.(conns := s.conns[c := s.conns[c].(deviceId := id)]);
    KeepsWellFormed(s, r);
    r
  }

  /** The entries of a room after `id` was inserted for connection `c`. */
  function Entered(members: Members, id: string, c: ConnId): Members {
    members[id := c]
  }

  /** `room.clients.insert(device_id, ..)` into a room with fewer than two entries (main.rs:119). */
  function Admitted(s: State, c: ConnId, id: string): (r: State)
    requires WellFormed(s) && c < |s.conns|
    requires s.conns[c].roomId in s.rooms ==> |s.rooms[s.conns[c].roomId]| < 2
    ensures WellFormed(r) && (Capacity(s) ==> Capacity(r)) && r.conns == s.conns && r.outbox == s.outbox
  {
    var roomId := s.conns[c].roomId;
    var room: Members := if roomId in s.rooms then s.rooms[roomId] else map[];
    var joined := Entered(room, id, c);
    SubsetCard(joined.Keys, room.Keys + {id});
    assert 1 <= |joined| <= 2 by {
      assert id in joined.Keys;
    }
    assert EntriesOf(s.conns, roomId, joined);
    RoomUpdateKeepsInv(s, roomId, joined);
    s.(rooms := s.rooms[roomId := joined])
  }

  /** The registry after an admission: the room, looked up or created, gains the entry. */
  lemma AdmittedRooms(s: State, c: ConnId, id: string)
    requires WellFormed(s) && c < |s.conns|
    requires s.conns[c].roomId in s.rooms ==> |s.rooms[s.conns[c].roomId]| < 2
    ensures var roomId := s.conns[c].roomId;
      Admitted(s, c, id) == s.(rooms := s.rooms[roomId := Entered(if roomId in s.rooms then s.rooms[roomId] else map[], id, c)])
  {
  }

  /** Replacing one room's entries by well-formed entries of allowed size keeps the invariant. */
  lemma RoomUpdateKeepsInv(s: State, roomId: string, members: Members)
    requires WellFormed(s) && EntriesOf(s.conns, roomId, members) && 1 <= |members| <= 2
    ensures WellFormed(s.(rooms := s.rooms[roomId := members]))
    ensures Capacity(s) ==> Capacity(s.(rooms := s.rooms[roomId := members]))
  {
    var rooms := s.rooms[roomId := members];
    forall x | x in rooms ensures EntriesOf(s.conns, x, rooms[x]) {
      if x != roomId { assert rooms[x] == s.rooms[x]; }
    }
    if Capacity(s) {
      forall x | x in rooms ensures 1 <= |rooms[x]| <= 2 {
        if x != roomId { assert rooms[x] == s.rooms[x]; }
      }
    }
  }

  /**
    A Join (main.rs:103-119). The device id is recorded first; then the room is
    looked up or created; a room that already has two entries answers
    `Error{"Room is full"}` on the joiner's own queue and breaks out of the loop,
    releasing the lock. The cleanup under the id just recorded is a later step
    (`Resume`).
  */
  function Joined(s: State, c: ConnId, id: string): (r: State)
    requires WellFormed(s) && c < |s.conns|
    ensures WellFormed(r) && (Capacity(s) ==> Capacity(r))
  {
    var roomId := s.conns[c].roomId;
    var named := Named(s, c, id);
    if roomId in s.rooms && |s.rooms[roomId]| >= 2 then
      WithPhase(Enqueued(named, c, Error(RoomFullMessage)), c, Ending)
    else
      Admitted(named, c, id)
  }

  /** One iteration of the receive loop of connection `c` on `frame` (main.rs:99-159). */
  function Step(s: State, c: ConnId, frame: Frame): (r: State)
    requires WellFormed(s) && c < |s.conns| && s.conns[c].phase == Receiving
    ensures WellFormed(r) && (Capacity(s) ==> Capacity(r))
    ensures |r.conns| == |s.conns|
  {
    match frame
    case Text(None) => s
    case Text(Some(msg)) =>
      (match msg
       case Join(id) => Joined(s, c, id)
       case Offer(_, target) => Relayed(s, s.conns[c].roomId, target, msg)
       case Answer(_, target) => Relayed(s, s.conns[c].roomId, target, msg)
       case IceCandidate(_, target) => Relayed(s, s.conns[c].roomId, target, msg)
       case PeerDisconnected(_) => s
       case Error(_) => s)
    case _ => Ended(s, c)
  }

  lemma StepKeepsInv(s: State, c: ConnId, frame: Frame)
    requires Inv(s) && c < |s.conns| && s.conns[c].phase == Receiving
    ensures Inv(Step(s, c, frame))
  {
  }

  /**
    What the relay sees, in the order the lock is taken: a new socket, a frame
    on a socket, or the cleanup of a task whose loop broke out after a rejection.
    The end of a stream touches nothing shared before the cleanup takes the
    lock, so a non-text frame and its cleanup are one step.
  */
  datatype Event = Accept(roomId: string) | Deliver(conn: ConnId, frame: Frame) | Resume(conn: ConnId)

  /** One event; a frame for a connection whose loop has ended is never read. */
  function Apply(s: State, e: Event): (r: State)
    requires WellFormed(s)
    ensures WellFormed(r) && (Capacity(s) ==> Capacity(r))
  {
    match e
    case Accept(roomId) => Opened(s, roomId)
    case Deliver(c, frame) =>
      if c < |s.conns| && s.conns[c].phase == Receiving then Step(s, c, frame) else s
    case Resume(c) =>
      if c < |s.conns| && s.conns[c].phase == Ending then Ended(s, c) else s
  }

  function Run(s: State, events: seq<Event>): State
    requires WellFormed(s)
    decreases |events|
  {
    if events == [] then s else Run(Apply(s, events[0]), events[1..])
  }

  lemma SubsetCard<T>(a: set<T>, b: set<T>)
    requires a <= b
    ensures |a| <= |b|
  {
    assert b == a + (b - a);
  }

  /** No interleaving of connections ever puts more than two entries in a room. */
  lemma {:induction false} RunKeepsCapacity(s: State, events: seq<Event>)
    requires Inv(s)
    ensures Inv(Run(s, events))
    ensures forall r | r in Run(s, events).rooms :: |Run(s, events).rooms[r]| <= 2
    decreases |events|
  {
    if events != [] {
      RunKeepsCapacity(Apply(s, events[0]), events[1..]);
    }
  }

  lemma CapacityFromStart(events: seq<Event>)
    ensures forall r | r in Run(Initial, events).rooms :: 1 <= |Run(Initial, events).rooms[r]| <= 2
  {
    RunKeepsCapacity(Initial, events);
  }

  /** A Join for a room nobody is in creates the room with the joiner as its only entry (main.rs:107-110, 119). */
  lemma JoinCreatesRoom(s: State, c: ConnId, id: string)
    requires WellFormed(s) && c < |s.conns| && s.conns[c].phase == Receiving
    requires s.conns[c].roomId !in s.rooms
    ensures var r := Step(s, c, Text(Some(Join(id))));
      && r.rooms == s.rooms[s.conns[c].roomId := map[id := c]]
      && r.outbox == s.outbox
      && r.conns == s.conns[c := s.conns[c].(deviceId := id)]
  {
  }

  /** A Join into a room with fewer than two entries adds (or overwrites) the joiner's entry and nothing else. */
  lemma JoinWithRoomInserts(s: State, c: ConnId, id: string)
    requires WellFormed(s) && c < |s.conns| && s.conns[c].phase == Receiving
    requires s.conns[c].roomId in s.rooms && |s.rooms[s.conns[c].roomId]| < 2
    ensures var r := Step(s, c, Text(Some(Join(id))));
      var joined: Members := s.rooms[s.conns[c].roomId][id := c];
      && r.rooms == s.rooms[s.conns[c].roomId := joined]
      && r.outbox == s.outbox
      && r.conns[c].phase == Receiving
  {
  }

  /**
    A Join into a full room records the id, puts `Error{"Room is full"}` on the
    joiner's own queue and breaks out of the loop; the registry is untouched
    until the cleanup takes the lock again (main.rs:104, 113-117).
  */
  lemma JoinFullRoomIsRejected(s: State, c: ConnId, id: string)
    requires WellFormed(s) && c < |s.conns| && s.conns[c].phase == Receiving
    requires s.conns[c].roomId in s.rooms && |s.rooms[s.conns[c].roomId]| >= 2
    ensures Step(s, c, Text(Some(Join(id)))) ==
      s.(conns := s.conns[c := Conn(s.conns[c].roomId, id, Ending)],
         outbox := s.outbox[c := s.outbox[c] + [Error(RoomFullMessage)]])
  {
  }

  /** A task whose loop broke out cleans up, then closes, when it takes the lock again. */
  lemma ResumeRunsCleanup(s: State, c: ConnId)
    requires WellFormed(s) && c < |s.conns| && s.conns[c].phase == Ending
    ensures Apply(s, Resume(c)) == WithPhase(CleanedUp(s, c), c, Closed)
  {
  }

  /**
    The cleanup of a rejected joiner runs under the rejected id whenever it gets
    the lock. If meanwhile that id belongs to another connection's entry, the
    entry is removed although its connection goes on receiving
    (main.rs:104, 116, 143-147).
  */
  lemma LateCleanupEvictsNamesake(s: State, c: ConnId)
    requires WellFormed(s) && c < |s.conns| && s.conns[c].phase == Ending
    requires s.conns[c].deviceId != "" && s.conns[c].roomId in s.rooms
    requires s.conns[c].deviceId in s.rooms[s.conns[c].roomId]
    ensures var r := Apply(s, Resume(c));
      var roomId := s.conns[c].roomId;
      var k := s.rooms[roomId][s.conns[c].deviceId];
      && (roomId in r.rooms ==> r.rooms[roomId] == s.rooms[roomId] - {s.conns[c].deviceId})
      && r.conns[c].phase == Closed
      && (k != c ==> r.conns[k] == s.conns[k])
  {
    ResumeRunsCleanup(s, c);
    CleanupOutcome(s, c);
  }

  /**
    A rejected Join under a new id, cleaned up before anything else happens:
    the members stay as they were, yet each is told that the rejected id
    disconnected (main.rs:104, 113-117, 143-158).
  */
  lemma RejectionThenCleanup(s: State, c: ConnId, id: string)
    requires WellFormed(s) && c < |s.conns| && s.conns[c].phase == Receiving
    requires s.conns[c].roomId in s.rooms && |s.rooms[s.conns[c].roomId]| == 2
    requires id != "" && id !in s.rooms[s.conns[c].roomId]
    requires Holders(s.rooms[s.conns[c].roomId], s.rooms[s.conns[c].roomId].Keys, c) == {}
    ensures var r := Apply(Step(s, c, Text(Some(Join(id)))), Resume(c));
      var room := s.rooms[s.conns[c].roomId];
      && r.rooms == s.rooms
      && r.conns[c] == Conn(s.conns[c].roomId, id, Closed)
      && r.outbox[c] == s.outbox[c] + [Error(RoomFullMessage)]
      && forall d | d in room :: r.outbox[room[d]] == s.outbox[room[d]] + Repeat(PeerDisconnected(id), |Holders(room, room.Keys, room[d])|)
  {
    var errored := Step(s, c, Text(Some(Join(id))));
    JoinFullRoomIsRejected(s, c, id);
    CleanupOfRejected(s, errored, c, id);
  }

  /** `RejectionThenCleanup` once the rejection's state is written out. */
  lemma CleanupOfRejected(s: State, errored: State, c: ConnId, id: string)
    requires WellFormed(s) && WellFormed(errored) && c < |s.conns|
    requires s.conns[c].roomId in s.rooms && |s.rooms[s.conns[c].roomId]| == 2
    requires id != "" && id !in s.rooms[s.conns[c].roomId]
    requires Holders(s.rooms[s.conns[c].roomId], s.rooms[s.conns[c].roomId].Keys, c) == {}
    requires errored == s.(conns := s.conns[c := Conn(s.conns[c].roomId, id, Ending)],
                           outbox := s.outbox[c := s.outbox[c] + [Error(RoomFullMessage)]])
    ensures var r := Apply(errored, Resume(c));
      var room := s.rooms[s.conns[c].roomId];
      && r.rooms == s.rooms
      && r.conns[c] == Conn(s.conns[c].roomId, id, Closed)
      && r.outbox[c] == s.outbox[c] + [Error(RoomFullMessage)]
      && forall d | d in room :: r.outbox[room[d]] == s.outbox[room[d]] + Repeat(PeerDisconnected(id), |Holders(room, room.Keys, room[d])|)
  {
    var roomId := s.conns[c].roomId;
    var room := s.rooms[roomId];
    assert room - {id} == room;
    ResumeRunsCleanup(errored, c);
    CleanupOutcome(errored, c);
    assert |Holders(room, room.Keys, c)| == 0;
    forall d | d in room
      ensures room[d] != c && room[d] < |s.outbox|
    {
      assert d in Holders(room, room.Keys, room[d]);
      assert EntriesOf(s.conns, roomId, room);
    }
  }

  /** A rejected joiner whose id collides with a member's evicts that member (main.rs:104, 147). */
  lemma RejectedJoinerEvictsNamesake(s: State, c: ConnId, id: string)
    requires WellFormed(s) && c < |s.conns| && s.conns[c].phase == Receiving
    requires s.conns[c].roomId in s.rooms && |s.rooms[s.conns[c].roomId]| == 2
    requires id != "" && id in s.rooms[s.conns[c].roomId]
    ensures var r := Apply(Step(s, c, Text(Some(Join(id)))), Resume(c));
      var roomId := s.conns[c].roomId;
      && roomId in r.rooms
      && r.rooms[roomId] == s.rooms[roomId] - {id}
      && |r.rooms[roomId]| == 1
  {
    var roomId := s.conns[c].roomId;
    var room := s.rooms[roomId];
    var rest := room - {id};
    assert rest.Keys == room.Keys - {id};
    var errored := Step(s, c, Text(Some(Join(id))));
    JoinFullRoomIsRejected(s, c, id);
    assert errored.conns[c].phase == Ending;
    ResumeRunsCleanup(errored, c);
    CleanupOutcome(errored, c);
  }

  /**
    Offer, Answer and IceCandidate reach the queue behind `target` in the
    sender's room unchanged, and no other queue; with no such room or target
    nothing changes. Membership is never touched (main.rs:121-136, 170-178).
  */
  lemma RelayReachesOnlyTarget(s: State, c: ConnId, msg: SignalMessage)
    requires WellFormed(s) && c < |s.conns| && s.conns[c].phase == Receiving
    requires msg.IsRelayed()
    ensures var r := Step(s, c, Text(Some(msg)));
      var roomId := s.conns[c].roomId;
      && r.rooms == s.rooms && r.conns == s.conns
      && (if roomId in s.rooms && msg.target in s.rooms[roomId] then
            var k := s.rooms[roomId][msg.target];
            && r.outbox[k] == s.outbox[k] + [msg]
            && forall j | 0 <= j < |s.outbox| && j != k :: r.outbox[j] == s.outbox[j]
          else r == s)
  {
  }

  /**
    The end of a joined connection's loop: its id leaves the room, every
    remaining entry gets PeerDisconnected naming it, and the room is deleted
    exactly when no entry is left (main.rs:143-158).
  */
  lemma DisconnectCleansUp(s: State, c: ConnId, frame: Frame)
    requires WellFormed(s) && c < |s.conns| && s.conns[c].phase == Receiving
    requires !frame.Text?
    requires s.conns[c].deviceId != "" && s.conns[c].roomId in s.rooms
    ensures var r := Step(s, c, frame);
      var roomId := s.conns[c].roomId;
      var id := s.conns[c].deviceId;
      var rest := s.rooms[roomId] - {id};
      && r.conns[c].phase == Closed
      && (roomId in r.rooms <==> |rest| > 0)
      && (roomId in r.rooms ==> r.rooms[roomId] == rest)
      && (forall other | other in s.rooms && other != roomId :: other in r.rooms && r.rooms[other] == s.rooms[other])
      && (forall d | d in rest :: r.outbox[rest[d]] == s.outbox[rest[d]] + Repeat(PeerDisconnected(id), |Holders(rest, rest.Keys, rest[d])|))
  {
    var roomId := s.conns[c].roomId;
    var id := s.conns[c].deviceId;
    var rest := s.rooms[roomId] - {id};
    EndRunsCleanup(s, c, frame);
    CleanupOutcome(s, c);
    forall d | d in rest
      ensures rest[d] < |s.outbox|
    {
      assert EntriesOf(s.conns, roomId, s.rooms[roomId]);
    }
  }

  lemma EndRunsCleanup(s: State, c: ConnId, frame: Frame)
    requires WellFormed(s) && c < |s.conns| && s.conns[c].phase == Receiving
    requires !frame.Text?
    ensures Step(s, c, frame) == WithPhase(CleanedUp(s, c), c, Closed)
  {
  }

  lemma CleanupOutcome(s: State, c: ConnId)
    requires WellFormed(s) && c < |s.conns|
    requires s.conns[c].deviceId != "" && s.conns[c].roomId in s.rooms
    ensures var rest := s.rooms[s.conns[c].roomId] - {s.conns[c].deviceId};
      && CleanedUp(s, c).rooms == Without(s.rooms, s.conns[c].roomId, rest)
      && CleanedUp(s, c).outbox == Notified(s.outbox, rest, PeerDisconnected(s.conns[c].deviceId))
      && CleanedUp(s, c).conns == s.conns
  {
  }

  /**
    When every remaining entry is a different connection, each remaining peer is
    told exactly once.
  */
  lemma EachPeerToldOnce(s: State, c: ConnId, frame: Frame)
    requires WellFormed(s) && c < |s.conns| && s.conns[c].phase == Receiving
    requires !frame.Text?
    requires s.conns[c].deviceId != "" && s.conns[c].roomId in s.rooms
    requires var rest := s.rooms[s.conns[c].roomId] - {s.conns[c].deviceId};
      forall d, e | d in rest && e in rest && d != e :: rest[d] != rest[e]
    ensures var rest := s.rooms[s.conns[c].roomId] - {s.conns[c].deviceId};
      forall d | d in rest :: Step(s, c, frame).outbox[rest[d]] == s.outbox[rest[d]] + [PeerDisconnected(s.conns[c].deviceId)]
  {
    var rest := s.rooms[s.conns[c].roomId] - {s.conns[c].deviceId};
    forall d | d in rest
      ensures Holders(rest, rest.Keys, rest[d]) == {d}
    {
    }
    DisconnectCleansUp(s, c, frame);
  }

  /** A connection that never joined leaves no trace when it ends (main.rs:95, 143). */
  lemma NeverJoinedLeavesNoTrace(s: State, c: ConnId, frame: Frame)
    requires WellFormed(s) && c < |s.conns| && s.conns[c].phase == Receiving
    requires s.conns[c].deviceId == "" && !frame.Text?
    ensures var r := Step(s, c, frame);
      r.rooms == s.rooms && r.outbox == s.outbox && r.conns[c].phase == Closed
  {
  }

  /** Undecodable text and client-sent PeerDisconnected or Error change nothing (main.rs:101, 137). */
  lemma IgnoredMessages(s: State, c: ConnId, frame: Frame)
    requires WellFormed(s) && c < |s.conns| && s.conns[c].phase == Receiving
    requires frame.Text? && (frame.decoded.None? || frame.decoded.value.PeerDisconnected? || frame.decoded.value.Error?)
    ensures Step(s, c, frame) == s
  {
  }

  /** The relay in place: the registry map, the connections, and their queues. */
  class RelayServer {
    var rooms: map<string, Members>
    var conns: seq<Conn>
    var outbox: seq<seq<SignalMessage>>

    function Model(): State
      reads this
    {
      State(rooms, conns, outbox)
    }

    ghost predicate Valid()
      reads this
    {
      Inv(Model())
    }

    constructor ()
      ensures Valid() && Model() == Initial
    {
      rooms, conns, outbox := map[], [], [];
    }

    /** `ws_handler` upgrading one socket: a fresh queue and an empty device id. */
    method Accept(roomId: string) returns (c: ConnId)
      requires Valid()
      modifies this
      ensures Valid() && c == |old(conns)|
      ensures Model() == Opened(old(Model()), roomId)
    {
      c := |conns|;
      conns := conns + [Conn(roomId, "", Receiving)];
      outbox := outbox + [[]];
    }

    /** One iteration of connection `c`'s receive loop. */
    method Receive(c: ConnId, frame: Frame)
      requires Valid() && c < |conns| && conns[c].phase == Receiving
      modifies this
      ensures Valid()
      ensures Model() == Step(old(Model()), c, frame)
    {
      ghost var before := Model();
      match frame {
        case Text(None) =>
        case Text(Some(msg)) =>
          match msg {
            case Join(id) =>
              Join(c, id);
              assert Model() == Joined(before, c, id);
            case Offer(_, target) =>
              RelayMessage(conns[c].roomId, target, msg);
              assert Model() == Relayed(before, before.conns[c].roomId, target, msg);
            case Answer(_, target) =>
              RelayMessage(conns[c].roomId, target, msg);
              assert Model() == Relayed(before, before.conns[c].roomId, target, msg);
            case IceCandidate(_, target) =>
              RelayMessage(conns[c].roomId, target, msg);
              assert Model() == Relayed(before, before.conns[c].roomId, target, msg);
            case PeerDisconnected(_) =>
            case Error(_) =>
          }
        case _ =>
          End(c);
          assert Model() == Ended(before, c);
      }
      assert Model() == Step(before, c, frame);
      StepKeepsInv(before, c, frame);
    }

    method RelayMessage(roomId: string, target: string, msg: SignalMessage)
      requires WellFormed(Model())
      modifies this`outbox
      ensures Model() == Relayed(old(Model()), roomId, target, msg)
    {
      if roomId in rooms && target in rooms[roomId] {
        var k := rooms[roomId][target];
        outbox := outbox[k := outbox[k] + [msg]];
      }
    }

    /**
      A Join (main.rs:103-119). `or_insert_with` is taken as a lookup with the
      empty room as default: a room it creates is either filled by the insert
      that follows or, being empty, never full.
    */
    method Join(c: ConnId, id: string)
      requires WellFormed(Model()) && c < |conns|
      modifies this
      ensures Model() == Joined(old(Model()), c, id)
    {
      ghost var before := Model();
      conns := conns[c := conns[c].(deviceId := id)];
      ghost var named := Model();
      assert named == Named(before, c, id);
      var roomId := conns[c].roomId;
      var room: Members := if roomId in rooms then rooms[roomId] else map[];
      if |room| >= 2 {
        Reject(c);
      } else {
        AdmittedRooms(named, c, id);
        rooms := rooms[roomId := Entered(room, id, c)];
      }
    }

    /** A full room: `Error{"Room is full"}` on the joiner's own queue, then the loop breaks out (main.rs:113-117). */
    method Reject(c: ConnId)
      requires WellFormed(Model()) && c < |conns|
      modifies this
      ensures Model() == WithPhase(Enqueued(old(Model()), c, Error(RoomFullMessage)), c, Ending)
    {
      outbox := outbox[c := outbox[c] + [Error(RoomFullMessage)]];
      conns := conns[c := conns[c].(phase := Ending)];
    }

    /** A task whose loop broke out takes the lock again for its cleanup (main.rs:143-159). */
    method Resume(c: ConnId)
      requires Valid() && c < |conns| && conns[c].phase == Ending
      modifies this
      ensures Valid()
      ensures Model() == Apply(old(Model()), Event.Resume(c))
    {
      End(c);
    }

    /** `for (_, client) in room.clients.iter()`: send `msg` through every entry, one at a time (main.rs:149-152). */
    method Notify(members: Members, msg: SignalMessage)
      requires forall d | d in members :: members[d] < |outbox|
      modifies this`outbox
      ensures outbox == Notified(old(outbox), members, msg)
    {
      var pending := members.Keys;
      ghost var done: set<string> := {};
      while pending != {}
        invariant pending !! done && pending + done == members.Keys
        invariant |outbox| == |old(outbox)|
        invariant forall k | 0 <= k < |outbox| :: outbox[k] == old(outbox)[k] + Repeat(msg, |Holders(members, done, k)|)
        decreases pending
      {
        var d :| d in pending;
        var k := members[d];
        NotifyOne(old(outbox), outbox, members, done, d, msg);
        outbox := outbox[k := outbox[k] + [msg]];
        pending := pending - {d};
        done := done + {d};
      }
      NotifiedAll(old(outbox), outbox, members, done, msg);
    }

    /** The receive loop has ended (main.rs:99 or 116): clean up, and the connection is closed (main.rs:142-159). */
    method End(c: ConnId)
      requires WellFormed(Model()) && c < |conns|
      modifies this
      ensures Model() == Ended(old(Model()), c)
    {
      Cleanup(c);
      conns := conns[c := conns[c].(phase := Closed)];
    }

    /** The cleanup: remove the id, notify each remaining entry one at a time, drop an empty room. */
    method Cleanup(c: ConnId)
      requires WellFormed(Model()) && c < |conns|
      modifies this`rooms, this`outbox
      ensures Model() == CleanedUp(old(Model()), c)
    {
      ghost var before := Model();
      var id := conns[c].deviceId;
      var roomId := conns[c].roomId;
      if id != "" && roomId in rooms {
        CleanupOutcome(before, c);
        var rest: Members := rooms[roomId] - {id};
        RemainingAreAccepted(before, roomId, id);
        rooms := rooms[roomId := rest];
        Notify(rest, PeerDisconnected(id));
        if |rest| == 0 {
          rooms := rooms - {roomId};
        }
        RemovalIsWithout(old(rooms), roomId, rest);
      }
      assert Model() == CleanedUp(before, c);
    }
  }

  lemma RemovalIsWithout(rooms: map<string, Members>, roomId: string, rest: Members)
    ensures Without(rooms, roomId, rest) == if |rest| == 0 then rooms[roomId := rest] - {roomId} else rooms[roomId := rest]
  {
    if |rest| == 0 {
      assert (rooms[roomId := rest] - {roomId}).Keys == (rooms - {roomId}).Keys;
    }
  }

  lemma RemainingAreAccepted(s: State, roomId: string, id: string)
    requires WellFormed(s) && roomId in s.rooms
    ensures forall d | d in s.rooms[roomId] - {id} :: (s.rooms[roomId] - {id})[d] < |s.outbox|
  {
    assert EntriesOf(s.conns, roomId, s.rooms[roomId]);
  }

  /** One more entry told: its connection's queue grows by one copy of `msg`. */
  lemma NotifyOne(before: seq<seq<SignalMessage>>, queues: seq<seq<SignalMessage>>, members: Members, done: set<string>, d: string, msg: SignalMessage)
    requires d in members && d !in done && members[d] < |queues| == |before|
    requires forall k | 0 <= k < |queues| :: queues[k] == before[k] + Repeat(msg, |Holders(members, done, k)|)
    ensures var k := members[d];
      var after := queues[k := queues[k] + [msg]];
      forall j | 0 <= j < |after| :: after[j] == before[j] + Repeat(msg, |Holders(members, done + {d}, j)|)
  {
    HoldersGrow(members, done, d);
    var k := members[d];
    assert Repeat(msg, |Holders(members, done, k)| + 1) == Repeat(msg, |Holders(members, done, k)|) + [msg];
  }

  lemma NotifiedAll(before: seq<seq<SignalMessage>>, queues: seq<seq<SignalMessage>>, members: Members, done: set<string>, msg: SignalMessage)
    requires done == members.Keys && |queues| == |before|
    requires forall k | 0 <= k < |queues| :: queues[k] == before[k] + Repeat(msg, |Holders(members, done, k)|)
    ensures queues == Notified(before, members, msg)
  {
  }

  lemma HoldersGrow(members: Members, done: set<string>, d: string)
    requires d in members && d !in done
    ensures forall k :: |Holders(members, done + {d}, k)| == |Holders(members, done, k)| + (if members[d] == k then 1 else 0)
  {
    forall k
      ensures |Holders(members, done + {d}, k)| == |Holders(members, done, k)| + (if members[d] == k then 1 else 0)
    {
      if members[d] == k {
        assert Holders(members, done + {d}, k) == Holders(members, done, k) + {d};
      } else {
        assert Holders(members, done + {d}, k) == Holders(members, done, k);
      }
    }
  }
}
