/**
 The gateway's signaling rooms (services/gateway/src/routes/signaling.ts): rooms of peers, one
 connection state per peer, and the messages written to each socket.

 A peer's state may outlive its place in a room: revoking a session deletes the whole room and leaves
 the states of its peers behind. The property of the rooms, `Placed`, is the direction that survives
 this. It fails for the room of the empty session id, which the code takes for no room at all; the
 weaker `Confined` holds in every reachable state and keeps the damage to that room.
 */
module Signaling {
  import opened Wrappers
  import TR = TokenRegistry

  datatype Role = Operator | Robot

  datatype Peer = Peer(role: Role, sessionId: string)

  datatype PeerState = PeerState(sessionId: Option<string>, role: Option<Role>)

  datatype Socket = Open | Closing | Closed

  datatype ErrorCode = InvalidJSON | MissingToken | InvalidToken | SessionMismatch | TokenInvalid | NotJoined | UnknownType

  datatype Message =
    | SessionState(sessionId: string, state: string)
    | Relayed(payload: string)
    | Revoked(sessionId: string, reason: string)
    | ErrorMessage(code: ErrorCode)

  datatype TokenClaims = TokenClaims(jti: string, sid: string)

  type Room = map<string, Peer>
  type Rooms = map<string, Room>

  function RoleName(role: Option<Role>): string {
    match role
    case None => "null"
    case Some(Operator) => "operator"
    case Some(Robot) => "robot"
  }

  // The texts of the notices, by the role that the peer's state names.

  ghost function WhoJoined(role: Role): string {
    if role == Operator then "operator_joined" else "robot_joined"
  }

  ghost function WhoLeft(role: Option<Role>): string {
    if role == None then "null_left" else if role == Some(Operator) then "operator_left" else "robot_left"
  }

  ghost function WhoDisconnected(role: Option<Role>): string {
    if role == None then "null_disconnected" else if role == Some(Operator) then "operator_disconnected" else "robot_disconnected"
  }

  lemma {:induction false} JoinedText(role: Role)
    ensures RoleName(Some(role)) + "_joined" == WhoJoined(role)
  {
    assert "operator" + "_joined" == "operator_joined" && "robot" + "_joined" == "robot_joined";
  }

  lemma {:induction false} LeftText(role: Option<Role>)
    ensures RoleName(role) + "_left" == WhoLeft(role)
  {
    assert "null" + "_left" == "null_left" && "operator" + "_left" == "operator_left" && "robot" + "_left" == "robot_left";
  }

  lemma {:induction false} DisconnectedText(role: Option<Role>)
    ensures RoleName(role) + "_disconnected" == WhoDisconnected(role)
  {
    if role == None {
      assert "null" + "_disconnected" == "null_disconnected";
    } else if role == Some(Operator) {
      assert "operator" + "_disconnected" == "operator_disconnected";
    } else {
      assert "robot" + "_disconnected" == "robot_disconnected";
    }
  }

  function Members(rooms: Rooms, sessionId: string): set<string> {
    if sessionId in rooms then rooms[sessionId].Keys else {}
  }

  function LeaveRoom(rooms: Rooms, peerId: string, sessionId: string): Rooms {
    if sessionId !in rooms then rooms
    else
      var room := rooms[sessionId] - {peerId};
      if |room| == 0 then rooms - {sessionId} else rooms[sessionId := room]
  }

  function JoinRoom(rooms: Rooms, peerId: string, sessionId: string, role: Role): Rooms {
    var room := if sessionId in rooms then rooms[sessionId] else map[];
    rooms[sessionId := room[peerId := Peer(role, sessionId)]]
  }

  /** The room a peer's state names, as the code tests it: an empty session id counts as none. */
  function Named(state: PeerState): Option<string> {
    if state.sessionId == Some("") then None else state.sessionId
  }

  /** The peer's state names the session and its socket has not closed. */
  predicate Seated(states: map<string, PeerState>, sockets: map<string, Socket>, sessionId: string, peerId: string) {
    && peerId in states && states[peerId].sessionId == Some(sessionId)
    && peerId in sockets && sockets[peerId] != Closed
  }

  /** No room is empty, and every peer in a room is seated there. */
  ghost predicate Placed(rooms: Rooms, states: map<string, PeerState>, sockets: map<string, Socket>) {
    && NoneEmpty(rooms)
    && (forall s, p {:trigger Seated(states, sockets, s, p)} :: p in Members(rooms, s) ==> Seated(states, sockets, s, p))
  }

  /** No room is empty, and every peer in a room with a name is seated there; of the nameless one it is only known. */
  ghost predicate Confined(rooms: Rooms, states: map<string, PeerState>, sockets: map<string, Socket>) {
    && NoneEmpty(rooms)
    && (forall s, p {:trigger Within(states, sockets, s, p)} :: p in Members(rooms, s) ==> Within(states, sockets, s, p))
  }

  ghost predicate NoneEmpty(rooms: Rooms) {
    forall s {:trigger Members(rooms, s)} :: s in rooms ==> Members(rooms, s) != {}
  }

  ghost predicate Within(states: map<string, PeerState>, sockets: map<string, Socket>, s: string, p: string) {
    p in states && p in sockets && (s == "" || Seated(states, sockets, s, p))
  }

  lemma {:induction false} PlacedIsConfined(rooms: Rooms, states: map<string, PeerState>, sockets: map<string, Socket>)
    ensures Placed(rooms, states, sockets) ==> Confined(rooms, states, sockets)
    ensures Confined(rooms, states, sockets) && (forall p :: p in Members(rooms, "") ==> Seated(states, sockets, "", p)) ==>
              Placed(rooms, states, sockets)
  {
    forall s, p | p in Members(rooms, s)
      ensures Seated(states, sockets, s, p) ==> Within(states, sockets, s, p)
      ensures Within(states, sockets, s, p) && s != "" ==> Seated(states, sockets, s, p)
    {
    }
  }

  /** So a peer is in at most one room with a name, and in at most one room at all while the rooms are in order. */
  lemma {:induction false} InOneRoomAtMost(rooms: Rooms, states: map<string, PeerState>, sockets: map<string, Socket>,
                                           p: string, s: string, t: string)
    requires Confined(rooms, states, sockets)
    requires p in Members(rooms, s) && p in Members(rooms, t)
    ensures s == t || s == "" || t == ""
    ensures Placed(rooms, states, sockets) ==> s == t
  {
    assert Within(states, sockets, s, p) && Within(states, sockets, t, p);
    assert Placed(rooms, states, sockets) ==> Seated(states, sockets, s, p) && Seated(states, sockets, t, p);
  }

  /** The entry of a peer in a room. */
  ghost function EntryAt(rooms: Rooms, t: string, p: string): Option<Peer> {
    if t in rooms && p in rooms[t] then Some(rooms[t][p]) else None
  }

  /** Joining a room writes one entry, and touches no other. */
  lemma {:induction false} JoinWritesOneEntry(rooms: Rooms, peerId: string, sessionId: string, role: Role, t: string, p: string)
    ensures EntryAt(JoinRoom(rooms, peerId, sessionId, role), t, p)
            == if t == sessionId && p == peerId then Some(Peer(role, sessionId)) else EntryAt(rooms, t, p)
  {
  }

  /** Leaving a room erases one entry, and touches no other. */
  lemma {:induction false} LeaveErasesOneEntry(rooms: Rooms, peerId: string, sessionId: string, t: string, p: string)
    ensures EntryAt(LeaveRoom(rooms, peerId, sessionId), t, p)
            == if t == sessionId && p == peerId then None else EntryAt(rooms, t, p)
  {
    if t == sessionId && sessionId in rooms {
      var room := rooms[sessionId] - {peerId};
      assert |room| == 0 <==> room.Keys == {};
    }
  }

  lemma {:induction false} LeaveRoomMembers(rooms: Rooms, peerId: string, sessionId: string, t: string)
    requires NoneEmpty(rooms)
    ensures var left := LeaveRoom(rooms, peerId, sessionId);
            && Members(left, t) == Members(rooms, t) - (if t == sessionId then {peerId} else {})
            && (t in left ==> t in rooms && Members(left, t) != {})
  {
    if t == sessionId && sessionId in rooms {
      var room := rooms[sessionId] - {peerId};
      assert room.Keys == rooms[sessionId].Keys - {peerId};
      assert |room| == 0 <==> room.Keys == {};
    } else if t in rooms {
      assert Members(rooms, t) != {};
    }
  }

  lemma {:induction false} JoinRoomMembers(rooms: Rooms, peerId: string, sessionId: string, role: Role, t: string)
    ensures var joined := JoinRoom(rooms, peerId, sessionId, role);
            && Members(joined, t) == Members(rooms, t) + (if t == sessionId then {peerId} else {})
            && (t in joined <==> t in rooms || t == sessionId)
  {
  }

  /** The rooms once the peer has left the one its state names. */
  function Left(rooms: Rooms, peerId: string, state: PeerState): Rooms {
    match Named(state) { case None => rooms case Some(s) => LeaveRoom(rooms, peerId, s) }
  }

  /** What is left of the members of a room when the peer goes: it does not go from the nameless one. */
  function Without(members: set<string>, peerId: string, t: string): set<string> {
    if t == "" then members else members - {peerId}
  }

  lemma {:induction false} LeftMembers(rooms: Rooms, states: map<string, PeerState>, sockets: map<string, Socket>, peerId: string, t: string)
    requires Confined(rooms, states, sockets) && peerId in states
    ensures var left := Left(rooms, peerId, states[peerId]);
            && Members(left, t) == Without(Members(rooms, t), peerId, t)
            && (t in left ==> Members(left, t) != {})
  {
    if peerId in Members(rooms, t) {
      assert Within(states, sockets, t, peerId);
    }
    assert t in rooms ==> Members(rooms, t) != {};
    if Named(states[peerId]).Some? {
      LeaveRoomMembers(rooms, peerId, Named(states[peerId]).value, t);
    }
  }

  /** Leaving the room that the state names takes the peer out of every room with a name. */
  lemma {:induction false} LeavingIsComplete(rooms: Rooms, states: map<string, PeerState>, sockets: map<string, Socket>, peerId: string)
    requires Confined(rooms, states, sockets) && peerId in states
    ensures forall t {:trigger Members(Left(rooms, peerId, states[peerId]), t)} ::
              Members(Left(rooms, peerId, states[peerId]), t) == Without(Members(rooms, t), peerId, t)
    ensures Confined(Left(rooms, peerId, states[peerId]), states, sockets)
  {
    var left := Left(rooms, peerId, states[peerId]);
    forall t
      ensures Members(left, t) == Without(Members(rooms, t), peerId, t)
      ensures t in left ==> Members(left, t) != {}
    {
      LeftMembers(rooms, states, sockets, peerId, t);
    }
    forall s, p | p in Members(left, s) ensures Within(states, sockets, s, p) {
      assert p in Members(rooms, s);
    }
  }

  lemma {:induction false} MembersHaveSockets(rooms: Rooms, states: map<string, PeerState>, sockets: map<string, Socket>, sessionId: string)
    requires Confined(rooms, states, sockets)
    ensures Members(rooms, sessionId) <= sockets.Keys
  {
    forall p | p in Members(rooms, sessionId) ensures p in sockets {
      assert Within(states, sockets, sessionId, p);
    }
  }

  /** Deleting a room whose members are being closed keeps everyone else where they are. */
  lemma {:induction false} RoomDeleted(rooms: Rooms, states: map<string, PeerState>, sockets: map<string, Socket>,
                                       after: map<string, Socket>, sessionId: string)
    requires Confined(rooms, states, sockets) && after.Keys == sockets.Keys
    requires forall p :: p in sockets && sockets[p] != Closed ==> after[p] != Closed
    ensures Confined(rooms - {sessionId}, states, after)
    ensures Placed(rooms, states, sockets) ==> Placed(rooms - {sessionId}, states, after)
    ensures forall t :: Members(rooms - {sessionId}, t) == if t == sessionId then {} else Members(rooms, t)
  {
    var left := rooms - {sessionId};
    forall s | s in left ensures Members(left, s) != {} {
      assert Members(rooms, s) != {};
    }
    forall s, p | p in Members(left, s)
      ensures Within(states, after, s, p) && (Placed(rooms, states, sockets) ==> Seated(states, after, s, p))
    {
      assert p in Members(rooms, s) && Within(states, sockets, s, p);
      assert Placed(rooms, states, sockets) ==> Seated(states, sockets, s, p);
    }
  }

  /** Changing the state or the socket of a peer that is in no room with a name moves nobody. */
  lemma {:induction false} AbsentMayChange(rooms: Rooms, states: map<string, PeerState>, sockets: map<string, Socket>,
                                           peerId: string, state: PeerState, socket: Socket)
    requires Confined(rooms, states, sockets)
    requires forall t :: t != "" ==> peerId !in Members(rooms, t)
    ensures Confined(rooms, states[peerId := state], sockets)
    ensures Confined(rooms, states, sockets[peerId := socket])
  {
    forall s, p | p in Members(rooms, s)
      ensures Within(states[peerId := state], sockets, s, p) && Within(states, sockets[peerId := socket], s, p)
    {
      assert Within(states, sockets, s, p);
    }
  }

  /** The rooms after an accepted join: out of the room that the state names, into the new one. */
  function Moved(rooms: Rooms, peerId: string, state: PeerState, sessionId: string, role: Role): Rooms {
    JoinRoom(Left(rooms, peerId, state), peerId, sessionId, role)
  }

  /** An accepted join moves exactly this peer, and does not take it out of the nameless room. */
  lemma {:induction false} MovedMembers(rooms: Rooms, states: map<string, PeerState>, sockets: map<string, Socket>,
                                        peerId: string, sessionId: string, role: Role)
    requires Confined(rooms, states, sockets) && peerId in states
    ensures forall t {:trigger Members(Moved(rooms, peerId, states[peerId], sessionId, role), t)} ::
              Members(Moved(rooms, peerId, states[peerId], sessionId, role), t)
              == if t == sessionId then Members(rooms, t) + {peerId} else Without(Members(rooms, t), peerId, t)
  {
    var left := Left(rooms, peerId, states[peerId]);
    LeavingIsComplete(rooms, states, sockets, peerId);
    forall t
      ensures Members(Moved(rooms, peerId, states[peerId], sessionId, role), t)
              == if t == sessionId then Members(rooms, t) + {peerId} else Without(Members(rooms, t), peerId, t)
    {
      JoinRoomMembers(left, peerId, sessionId, role, t);
      assert Members(left, t) == Without(Members(rooms, t), peerId, t);
    }
  }

  /** Every join, whatever the session, leaves all but the nameless room in order. */
  lemma {:induction false} JoinKeepsConfined(rooms: Rooms, states: map<string, PeerState>, sockets: map<string, Socket>,
                                             peerId: string, sessionId: string, role: Role)
    requires Confined(rooms, states, sockets) && peerId in states && peerId in sockets && sockets[peerId] != Closed
    ensures Confined(Moved(rooms, peerId, states[peerId], sessionId, role), states[peerId := PeerState(Some(sessionId), Some(role))], sockets)
  {
    var left := Left(rooms, peerId, states[peerId]);
    var moved := Moved(rooms, peerId, states[peerId], sessionId, role);
    var after := states[peerId := PeerState(Some(sessionId), Some(role))];
    LeavingIsComplete(rooms, states, sockets, peerId);
    MovedMembers(rooms, states, sockets, peerId, sessionId, role);
    forall s | s in moved ensures Members(moved, s) != {} {
      JoinRoomMembers(left, peerId, sessionId, role, s);
      assert s in left ==> Members(left, s) != {};
      assert s == sessionId ==> peerId in Members(moved, s);
    }
    forall s, p | p in Members(moved, s) ensures Within(after, sockets, s, p) {
      assert p != peerId ==> p in Members(rooms, s) && Within(states, sockets, s, p);
    }
  }

  /**
   Exactly when a join keeps the rooms in order: when the peer is not in the nameless room, or joins it
   again. Otherwise it stays there, next to the room that it joins.
   */
  lemma {:induction false} JoinKeepsPlacedIff(rooms: Rooms, states: map<string, PeerState>, sockets: map<string, Socket>,
                                              peerId: string, sessionId: string, role: Role)
    requires Placed(rooms, states, sockets) && peerId in states && peerId in sockets && sockets[peerId] != Closed
    ensures Placed(Moved(rooms, peerId, states[peerId], sessionId, role), states[peerId := PeerState(Some(sessionId), Some(role))], sockets)
            <==> peerId !in Members(rooms, "") || sessionId == ""
  {
    var moved := Moved(rooms, peerId, states[peerId], sessionId, role);
    var after := states[peerId := PeerState(Some(sessionId), Some(role))];
    PlacedIsConfined(rooms, states, sockets);
    PlacedIsConfined(moved, after, sockets);
    JoinKeepsConfined(rooms, states, sockets, peerId, sessionId, role);
    MovedMembers(rooms, states, sockets, peerId, sessionId, role);
    assert peerId in Members(rooms, "") ==> peerId in Members(moved, "");
    assert sessionId != "" ==> !Seated(after, sockets, "", peerId);
    if peerId !in Members(rooms, "") || sessionId == "" {
      forall p | p in Members(moved, "") ensures Seated(after, sockets, "", p) {
        assert p != peerId ==> p in Members(rooms, "") && Seated(states, sockets, "", p);
      }
    }
  }

  lemma {:induction false} LeavingKeepsSeats(rooms: Rooms, states: map<string, PeerState>, sockets: map<string, Socket>, peerId: string)
    requires peerId in states && Confined(rooms, states, sockets)
    ensures Placed(rooms, states, sockets) ==> Placed(Left(rooms, peerId, states[peerId]), states, sockets)
  {
    var left := Left(rooms, peerId, states[peerId]);
    LeavingIsComplete(rooms, states, sockets, peerId);
    PlacedIsConfined(left, states, sockets);
    assert Members(left, "") == Members(rooms, "");
    assert forall p :: p in Members(rooms, "") && Placed(rooms, states, sockets) ==> Seated(states, sockets, "", p);
  }

  /** A leave always keeps the rooms in order; but it takes the peer out of all rooms only if it is not in the nameless one. */
  lemma {:induction false} LeaveKeepsPlaced(rooms: Rooms, states: map<string, PeerState>, sockets: map<string, Socket>, peerId: string)
    requires Placed(rooms, states, sockets) && peerId in states
    ensures var left := Left(rooms, peerId, states[peerId]);
            var after := if Named(states[peerId]).Some? then states[peerId := PeerState(None, None)] else states;
            && Placed(left, after, sockets)
            && ((forall t :: peerId !in Members(left, t)) <==> peerId !in Members(rooms, ""))
  {
    var left := Left(rooms, peerId, states[peerId]);
    var after := if Named(states[peerId]).Some? then states[peerId := PeerState(None, None)] else states;
    PlacedIsConfined(rooms, states, sockets);
    LeavingIsComplete(rooms, states, sockets, peerId);
    assert Members(left, "") == Members(rooms, "");
    forall s, p | p in Members(left, s) ensures Seated(after, sockets, s, p) {
      assert p in Members(rooms, s) && Seated(states, sockets, s, p);
      assert p == peerId ==> Members(left, s) == Without(Members(rooms, s), peerId, s);
    }
  }

  /** Exactly when a closed socket keeps the rooms in order: when its peer is not in the nameless room, where it would stay. */
  lemma {:induction false} DisconnectKeepsPlacedIff(rooms: Rooms, states: map<string, PeerState>, sockets: map<string, Socket>, peerId: string)
    requires Placed(rooms, states, sockets) && peerId in states
    ensures Placed(Left(rooms, peerId, states[peerId]), states, sockets[peerId := Closed]) <==> peerId !in Members(rooms, "")
  {
    var left := Left(rooms, peerId, states[peerId]);
    PlacedIsConfined(rooms, states, sockets);
    LeavingIsComplete(rooms, states, sockets, peerId);
    assert Members(left, "") == Members(rooms, "");
    assert !Seated(states, sockets[peerId := Closed], "", peerId);
    if peerId !in Members(rooms, "") {
      forall s, p | p in Members(left, s) ensures Seated(states, sockets[peerId := Closed], s, p) {
        assert Members(left, s) == Without(Members(rooms, s), peerId, s);
        assert p in Members(rooms, s) && Seated(states, sockets, s, p);
      }
    }
  }

  lemma {:induction false} NewcomerMovesNobody(rooms: Rooms, states: map<string, PeerState>, sockets: map<string, Socket>, peerId: string)
    requires Confined(rooms, states, sockets) && peerId !in states
    ensures Confined(rooms, states[peerId := PeerState(None, None)], sockets[peerId := Open])
    ensures Placed(rooms, states, sockets) ==> Placed(rooms, states[peerId := PeerState(None, None)], sockets[peerId := Open])
  {
    forall s, p | p in Members(rooms, s)
      ensures Within(states[peerId := PeerState(None, None)], sockets[peerId := Open], s, p)
      ensures Placed(rooms, states, sockets) ==> Seated(states[peerId := PeerState(None, None)], sockets[peerId := Open], s, p)
    {
      assert Within(states, sockets, s, p);
      assert Placed(rooms, states, sockets) ==> Seated(states, sockets, s, p);
    }
  }

  // --------------------------------------------------------------------- messages

  type Outbox = map<string, seq<Message>>

  /** Who receives a broadcast: the open members of the room, except the excluded one. */
  predicate Receives(rooms: Rooms, sockets: map<string, Socket>, sessionId: string, exclude: Option<string>, p: string) {
    p in Members(rooms, sessionId) && Some(p) != exclude && p in sockets && sockets[p] == Open
  }

  function Broadcasted(sent: Outbox, rooms: Rooms, sockets: map<string, Socket>, sessionId: string,
                       message: Message, exclude: Option<string>): Outbox {
    map p | p in sent :: if Receives(rooms, sockets, sessionId, exclude, p) then sent[p] + [message] else sent[p]
  }

  function Written(sent: Outbox, sockets: map<string, Socket>, peerId: string, message: Message): Outbox {
    map p | p in sent :: if p == peerId && p in sockets && sockets[p] == Open then sent[p] + [message] else sent[p]
  }

  datatype Scene = Scene(rooms: Rooms, sockets: map<string, Socket>, sent: Outbox)

  /** What a join does: a refused one only tells the peer; an accepted one moves exactly this peer and tells the others and the peer. */
  ghost predicate Joined(before: Scene, states0: map<string, PeerState>, after: Scene, states1: map<string, PeerState>,
                         peerId: string, sessionId: string, role: Role, error: Option<ErrorCode>) {
    && after.sockets == before.sockets
    && (error.Some? ==>
          && after.rooms == before.rooms && states1 == states0
          && after.sent == Written(before.sent, before.sockets, peerId, ErrorMessage(error.value)))
    && (error == None ==>
          && (forall t {:trigger Members(after.rooms, t)} ::
                Members(after.rooms, t) == if t == sessionId then Members(before.rooms, t) + {peerId} else Without(Members(before.rooms, t), peerId, t))
          && states1 == states0[peerId := PeerState(Some(sessionId), Some(role))]
          && after.sent == Announced(before.sent, after.rooms, before.sockets, peerId, sessionId, role))
  }

  /** A join of a named session puts nobody in the nameless room. */
  lemma {:induction false} JoinedNameless(before: Scene, states0: map<string, PeerState>, after: Scene, states1: map<string, PeerState>,
                                          peerId: string, sessionId: string, role: Role, error: Option<ErrorCode>)
    requires Joined(before, states0, after, states1, peerId, sessionId, role, error)
    ensures sessionId != "" ==> Members(after.rooms, "") <= Members(before.rooms, "")
  {
  }

  /** The messages of an accepted join: to the others in the room, and to the peer. */
  ghost function Announced(sent: Outbox, rooms: Rooms, sockets: map<string, Socket>, peerId: string, sessionId: string, role: Role): Outbox {
    Written(Broadcasted(sent, rooms, sockets, sessionId, SessionState(sessionId, WhoJoined(role)), Some(peerId)),
            sockets, peerId, SessionState(sessionId, "joined"))
  }

  // ------------------------------------------------------------- tearing rooms down

  /** Deleting the room of one session: its open members are told and closed, and nobody else notices. */
  ghost predicate TornDown(before: Scene, after: Scene, sessionId: string, reason: string) {
    && (forall t {:trigger Members(after.rooms, t)} ::
          Members(after.rooms, t) == if t == sessionId then {} else Members(before.rooms, t))
    && after.sent == Broadcasted(before.sent, before.rooms, before.sockets, sessionId, Revoked(sessionId, reason), None)
    && after.sockets.Keys == before.sockets.Keys
    && (forall p :: p in after.sockets ==>
                      after.sockets[p] == if p in Members(before.rooms, sessionId) && before.sockets[p] == Open then Closing else before.sockets[p])
  }

  /** The open peer is in the room of one of the sessions. */
  ghost predicate Concerned(before: Scene, ids: seq<string>, p: string) {
    exists i :: 0 <= i < |ids| && Receives(before.rooms, before.sockets, ids[i], None, p)
  }

  /** Deleting the rooms of several sessions: every concerned peer is told once, about its own session, and closed. */
  ghost predicate AllTornDown(before: Scene, after: Scene, ids: seq<string>, reason: string) {
    && after.sent.Keys == before.sent.Keys && after.sockets.Keys == before.sockets.Keys
    && (forall t {:trigger Emptied(before, after, ids, t)} :: Emptied(before, after, ids, t))
    && (forall p {:trigger Dismissed(before, after, ids, reason, p)} :: Dismissed(before, after, ids, reason, p))
  }

  ghost predicate Emptied(before: Scene, after: Scene, ids: seq<string>, t: string) {
    Members(after.rooms, t) == if t in ids then {} else Members(before.rooms, t)
  }

  /** What becomes of one peer. */
  ghost predicate Dismissed(before: Scene, after: Scene, ids: seq<string>, reason: string, p: string) {
    && (p in before.sockets ==>
          p in after.sockets && after.sockets[p] == if Concerned(before, ids, p) then Closing else before.sockets[p])
    && (p in before.sent ==>
          && p in after.sent
          && (!Concerned(before, ids, p) ==> after.sent[p] == before.sent[p])
          && (forall i {:trigger ids[i]} :: 0 <= i < |ids| && Receives(before.rooms, before.sockets, ids[i], None, p) ==>
                after.sent[p] == before.sent[p] + [Revoked(ids[i], reason)]))
  }

  lemma {:induction false} ConcernedEither(before: Scene, ids: seq<string>, more: seq<string>, p: string)
    ensures Concerned(before, ids + more, p) <==> Concerned(before, ids, p) || Concerned(before, more, p)
  {
    var all := ids + more;
    if i :| 0 <= i < |ids| && Receives(before.rooms, before.sockets, ids[i], None, p) {
      assert all[i] == ids[i];
    }
    if i :| 0 <= i < |more| && Receives(before.rooms, before.sockets, more[i], None, p) {
      assert all[|ids| + i] == more[i];
    }
  }

  /** A member of a room not yet torn down is not concerned yet: nobody is in two rooms. */
  lemma {:induction false} NotConcernedYet(before: Scene, states: map<string, PeerState>, ids: seq<string>, id: string, p: string)
    requires Confined(before.rooms, states, before.sockets) && id !in ids && "" !in ids && id != ""
    requires p in Members(before.rooms, id)
    ensures !Concerned(before, ids, p)
  {
    if i :| 0 <= i < |ids| && Receives(before.rooms, before.sockets, ids[i], None, p) {
      InOneRoomAtMost(before.rooms, states, before.sockets, p, ids[i], id);
    }
  }

  lemma {:induction false} StillReceives(before: Scene, mid: Scene, states: map<string, PeerState>, ids: seq<string>, id: string,
                                         reason: string, p: string)
    requires Confined(before.rooms, states, before.sockets) && id !in ids && "" !in ids && id != ""
    requires AllTornDown(before, mid, ids, reason)
    ensures Receives(mid.rooms, mid.sockets, id, None, p) <==> Receives(before.rooms, before.sockets, id, None, p)
    ensures Receives(before.rooms, before.sockets, id, None, p) ==> !Concerned(before, ids, p)
  {
    assert Emptied(before, mid, ids, id) && Dismissed(before, mid, ids, reason, p);
    if p in Members(before.rooms, id) {
      NotConcernedYet(before, states, ids, id, p);
    }
  }

  lemma {:induction false} StillConcerned(before: Scene, mid: Scene, states: map<string, PeerState>, ids: seq<string>, more: seq<string>,
                                          reason: string, p: string)
    requires Confined(before.rooms, states, before.sockets) && "" !in ids && (forall s :: s in more ==> s !in ids && s != "")
    requires AllTornDown(before, mid, ids, reason)
    ensures Concerned(mid, more, p) <==> Concerned(before, more, p)
    ensures Concerned(before, more, p) ==> !Concerned(before, ids, p)
  {
    forall i | 0 <= i < |more|
      ensures Receives(mid.rooms, mid.sockets, more[i], None, p) <==> Receives(before.rooms, before.sockets, more[i], None, p)
      ensures Receives(before.rooms, before.sockets, more[i], None, p) ==> !Concerned(before, ids, p)
    {
      StillReceives(before, mid, states, ids, more[i], reason, p);
    }
  }

  lemma {:induction false} NoneTornDown(scene: Scene, reason: string)
    ensures AllTornDown(scene, scene, [], reason)
  {
  }

  lemma {:induction false} OneTornDown(before: Scene, after: Scene, id: string, reason: string)
    requires TornDown(before, after, id, reason)
    ensures AllTornDown(before, after, [id], reason)
  {
    forall p ensures Dismissed(before, after, [id], reason, p) {
      assert Concerned(before, [id], p) <==> Receives(before.rooms, before.sockets, id, None, p) by {
        assert [id][0] == id;
      }
    }
    forall t ensures Emptied(before, after, [id], t) {
      assert Members(after.rooms, t) == if t == id then {} else Members(before.rooms, t);
    }
  }

  /** Tearing down some rooms and then others is tearing down all of them at once. */
  lemma {:induction false} TearDownsCompose(before: Scene, mid: Scene, after: Scene, states: map<string, PeerState>, ids: seq<string>,
                                            more: seq<string>, reason: string)
    requires Confined(before.rooms, states, before.sockets) && "" !in ids && (forall s :: s in more ==> s !in ids && s != "")
    requires AllTornDown(before, mid, ids, reason) && AllTornDown(mid, after, more, reason)
    ensures AllTornDown(before, after, ids + more, reason)
  {
    forall t ensures Emptied(before, after, ids + more, t) {
      assert Emptied(before, mid, ids, t) && Emptied(mid, after, more, t);
    }
    forall p ensures Dismissed(before, after, ids + more, reason, p) {
      DismissedInTurn(before, mid, after, states, ids, more, reason, p);
    }
  }

  lemma {:induction false} DismissedInTurn(before: Scene, mid: Scene, after: Scene, states: map<string, PeerState>, ids: seq<string>,
                                           more: seq<string>, reason: string, p: string)
    requires Confined(before.rooms, states, before.sockets) && "" !in ids && (forall s :: s in more ==> s !in ids && s != "")
    requires AllTornDown(before, mid, ids, reason) && AllTornDown(mid, after, more, reason)
    ensures Dismissed(before, after, ids + more, reason, p)
  {
    var all := ids + more;
    assert Dismissed(before, mid, ids, reason, p) && Dismissed(mid, after, more, reason, p);
    ConcernedEither(before, ids, more, p);
    StillConcerned(before, mid, states, ids, more, reason, p);
    forall i | 0 <= i < |all| && p in before.sent && Receives(before.rooms, before.sockets, all[i], None, p)
      ensures after.sent[p] == before.sent[p] + [Revoked(all[i], reason)]
    {
      if i < |ids| {
        assert all[i] == ids[i] && Concerned(before, ids, p);
      } else {
        StillReceives(before, mid, states, ids, more[i - |ids|], reason, p);
      }
    }
  }

  class Server {
    /** Decoding of a token's payload, without verification. */
    const decodeTokenClaims: string -> Option<TokenClaims>
    const tokenRegistry: TR.Registry?
    var rooms: Rooms
    var states: map<string, PeerState>
    var sockets: map<string, Socket>
    var sent: Outbox

    ghost predicate Valid()
      reads this
    {
      && states.Keys == sockets.Keys == sent.Keys
      && Confined(rooms, states, sockets)
    }

    /** The rooms are in order: the property that fails only for the nameless room. */
    ghost predicate InPlace()
      reads this
    {
      Placed(rooms, states, sockets)
    }

    /** The peer is connected. */
    predicate Online(peerId: string)
      reads this
    {
      peerId in sockets && sockets[peerId] != Closed
    }

    ghost function Now(): Scene
      reads this
    {
      Scene(rooms, sockets, sent)
    }

    ghost function RegistryRepr(): set<object>
      reads tokenRegistry
    {
      if tokenRegistry == null then {} else tokenRegistry.Repr()
    }

    ghost predicate RegistryReady(now: int)
      reads tokenRegistry, RegistryRepr()
    {
      tokenRegistry != null ==> tokenRegistry.Valid() && tokenRegistry.clock <= now
    }

    constructor (decodeTokenClaims: string -> Option<TokenClaims>, tokenRegistry: TR.Registry?)
      ensures Valid() && InPlace() && rooms == map[] && states == map[] && sockets == map[] && sent == map[]
      ensures this.decodeTokenClaims == decodeTokenClaims && this.tokenRegistry == tokenRegistry
    {
      this.decodeTokenClaims := decodeTokenClaims;
      this.tokenRegistry := tokenRegistry;
      rooms, states, sockets, sent := map[], map[], map[], map[];
    }

    /** A new WebSocket connection. */
    method Connect(peerId: string)
      requires Valid() && peerId !in states
      modifies this`states, this`sockets, this`sent
      ensures Valid() && (old(InPlace()) ==> InPlace())
      ensures states == old(states)[peerId := PeerState(None, None)] && sockets == old(sockets)[peerId := Open]
      ensures sent == old(sent)[peerId := []]
    {
      NewcomerMovesNobody(rooms, states, sockets, peerId);
      states := states[peerId := PeerState(None, None)];
      sockets := sockets[peerId := Open];
      sent := sent[peerId := []];
    }

    method Broadcast(sessionId: string, message: Message, exclude: Option<string>)
      requires Valid()
      modifies this`sent
      ensures Valid() && sent == Broadcasted(old(sent), rooms, sockets, sessionId, message, exclude)
    {
      if sessionId in rooms {
        MembersHaveSockets(rooms, states, sockets, sessionId);
        SendEach(rooms[sessionId].Keys, message, exclude);
      }
      assert sent == Broadcasted(old(sent), rooms, sockets, sessionId, message, exclude);
    }

    method SendEach(peers: set<string>, message: Message, exclude: Option<string>)
      requires peers <= sent.Keys && peers <= sockets.Keys
      modifies this`sent
      ensures sent.Keys == old(sent).Keys
      ensures forall p :: p in sent ==>
                            sent[p] == if p in peers && Some(p) != exclude && sockets[p] == Open then old(sent)[p] + [message] else old(sent)[p]
    {
      var todo := peers;
      while todo != {}
        invariant todo <= peers && sent.Keys == old(sent).Keys
        invariant forall p :: p in sent ==>
                                sent[p] == if p in peers && p !in todo && Some(p) != exclude && sockets[p] == Open
                                           then old(sent)[p] + [message] else old(sent)[p]
        decreases |todo|
      {
        var p :| p in todo;
        if Some(p) != exclude && sockets[p] == Open {
          sent := sent[p := sent[p] + [message]];
        }
        todo := todo - {p};
      }
    }

    method Send(peerId: string, message: Message)
      requires Valid() && peerId in sockets
      modifies this`sent
      ensures Valid() && sent == Written(old(sent), sockets, peerId, message)
    {
      if sockets[peerId] == Open {
        sent := sent[peerId := sent[peerId] + [message]];
      }
    }

    /** The reason to refuse a join, if any. Without a registry the token itself is not checked. */
    ghost function JoinError(sessionId: string, token: Option<string>, now: int): Option<ErrorCode>
      reads tokenRegistry, RegistryRepr()
    {
      if token == None || token.value == "" then Some(MissingToken)
      else
        match decodeTokenClaims(token.value)
        case None => Some(InvalidToken)
        case Some(claims) =>
          if claims.sid != sessionId then Some(SessionMismatch)
          else if tokenRegistry != null && (!TR.Good(tokenRegistry.ledger, claims.jti, now) || tokenRegistry.HeldRevoked(claims.jti, now))
          then Some(TokenInvalid)
          else None
    }

    /** A query leaves the registry's tokens as they are. */
    twostate predicate RegistryKept()
      reads tokenRegistry, RegistryRepr()
    {
      tokenRegistry != null ==>
        && tokenRegistry.ledger == old(tokenRegistry.ledger) && tokenRegistry.tokens == old(tokenRegistry.tokens)
        && tokenRegistry.used == old(tokenRegistry.used) && tokenRegistry.revocationCache == old(tokenRegistry.revocationCache)
        && old(tokenRegistry.clock) <= tokenRegistry.clock && (old(tokenRegistry.Unclashing()) ==> tokenRegistry.Unclashing())
    }

    method ValidateJoinToken(sessionId: string, token: Option<string>, now: int) returns (error: Option<ErrorCode>)
      requires RegistryReady(now)
      modifies RegistryRepr()
      ensures RegistryReady(now) && RegistryKept()
      ensures error == old(JoinError(sessionId, token, now))
    {
      if token == None || token.value == "" {
        return Some(MissingToken);
      }
      var claims := decodeTokenClaims(token.value);
      if claims == None {
        return Some(InvalidToken);
      }
      if claims.value.sid != sessionId {
        return Some(SessionMismatch);
      }
      if tokenRegistry != null {
        var valid := tokenRegistry.IsValid(claims.value.jti, now);
        if !valid {
          return Some(TokenInvalid);
        }
      }
      return None;
    }

    lemma {:induction false} RegistryIsApart()
      ensures this !in RegistryRepr()
    {
    }

    /** A join message, from any peer, for any session, with any token. */
    method HandleJoin(peerId: string, sessionId: string, role: Role, token: Option<string>, now: int) returns (error: Option<ErrorCode>)
      requires Valid() && Online(peerId) && RegistryReady(now)
      modifies this`rooms, this`states, this`sent, RegistryRepr()
      ensures Valid() && RegistryReady(now) && RegistryKept()
      ensures error == old(JoinError(sessionId, token, now))
      ensures Joined(old(Now()), old(states), Now(), states, peerId, sessionId, role, error)
      ensures old(InPlace()) ==>
                (InPlace() <==> error.Some? || peerId !in Members(old(rooms), "") || sessionId == "")
    {
      ghost var scene, before := Now(), states;
      RegistryIsApart();
      error := ValidateJoinToken(sessionId, token, now);
      assert Now() == scene && states == before;
      Admit(peerId, sessionId, role, error);
    }

    /** The rest of a join, once the token has been checked. */
    method Admit(peerId: string, sessionId: string, role: Role, error: Option<ErrorCode>)
      requires Valid() && Online(peerId)
      modifies this`rooms, this`states, this`sent
      ensures Valid()
      ensures Joined(old(Now()), old(states), Now(), states, peerId, sessionId, role, error)
      ensures old(InPlace()) ==>
                (InPlace() <==> error.Some? || peerId !in Members(old(rooms), "") || sessionId == "")
    {
      if error.Some? {
        Send(peerId, ErrorMessage(error.value));
      } else {
        Move(peerId, sessionId, role);
        Announce(peerId, sessionId, role);
      }
    }

    method Announce(peerId: string, sessionId: string, role: Role)
      requires Valid() && Online(peerId)
      modifies this`sent
      ensures Valid() && sent == Announced(old(sent), rooms, sockets, peerId, sessionId, role)
    {
      JoinedText(role);
      Broadcast(sessionId, SessionState(sessionId, RoleName(Some(role)) + "_joined"), Some(peerId));
      Send(peerId, SessionState(sessionId, "joined"));
    }

    /** Out of the room that the peer's state names, if it names one, and into the new one. */
    method Move(peerId: string, sessionId: string, role: Role)
      requires Valid() && Online(peerId)
      modifies this`rooms, this`states
      ensures Valid() && rooms == Moved(old(rooms), peerId, old(states)[peerId], sessionId, role)
      ensures states == old(states)[peerId := PeerState(Some(sessionId), Some(role))]
      ensures forall t {:trigger Members(rooms, t)} ::
                Members(rooms, t) == if t == sessionId then Members(old(rooms), t) + {peerId} else Without(Members(old(rooms), t), peerId, t)
      ensures old(InPlace()) ==> (InPlace() <==> peerId !in Members(old(rooms), "") || sessionId == "")
    {
      MovedMembers(rooms, states, sockets, peerId, sessionId, role);
      JoinKeepsConfined(rooms, states, sockets, peerId, sessionId, role);
      if InPlace() {
        JoinKeepsPlacedIff(rooms, states, sockets, peerId, sessionId, role);
      }
      var named := Named(states[peerId]);
      if named.Some? {
        rooms := LeaveRoom(rooms, peerId, named.value);
      }
      states := states[peerId := PeerState(Some(sessionId), Some(role))];
      rooms := JoinRoom(rooms, peerId, sessionId, role);
    }

    /** A message that cannot be read, or of an unknown type. */
    method HandleOther(peerId: string, code: ErrorCode)
      requires Valid() && Online(peerId)
      modifies this`sent
      ensures Valid() && (old(InPlace()) ==> InPlace())
      ensures sent == Written(old(sent), sockets, peerId, ErrorMessage(code))
    {
      Send(peerId, ErrorMessage(code));
    }

    /** An offer, an answer or a candidate: to the others in the room that the sender's state names. */
    method HandleRelay(peerId: string, payload: string)
      requires Valid() && Online(peerId)
      modifies this`sent
      ensures Valid() && (old(InPlace()) ==> InPlace())
      ensures sent == match Named(states[peerId])
                      case None => Written(old(sent), sockets, peerId, ErrorMessage(NotJoined))
                      case Some(s) => Broadcasted(old(sent), rooms, sockets, s, Relayed(payload), Some(peerId))
    {
      var named := Named(states[peerId]);
      if named == None {
        Send(peerId, ErrorMessage(NotJoined));
      } else {
        Broadcast(named.value, Relayed(payload), Some(peerId));
      }
    }

    /** A leave takes the peer out of the room that its state names, and so out of every room except the nameless one. */
    method HandleLeave(peerId: string)
      requires Valid() && Online(peerId)
      modifies this`rooms, this`states, this`sent
      ensures Valid() && (old(InPlace()) ==> InPlace())
      ensures forall t {:trigger Members(rooms, t)} :: Members(rooms, t) == Without(Members(old(rooms), t), peerId, t)
      ensures match Named(old(states)[peerId])
              case None => states == old(states) && sent == old(sent)
              case Some(s) =>
                && states == old(states)[peerId := PeerState(None, None)]
                && sent == Broadcasted(old(sent), rooms, sockets, s, SessionState(s, WhoLeft(old(states)[peerId].role)), None)
    {
      var state := states[peerId];
      var named := Named(state);
      Vacate(peerId);
      if named.Some? {
        LeftText(state.role);
        Broadcast(named.value, SessionState(named.value, RoleName(state.role) + "_left"), None);
        LeftMayForget(peerId);
        states := states[peerId := PeerState(None, None)];
      }
    }

    /** A peer that has left the room that its state names can be given another state. */
    lemma {:induction false} LeftMayForget(peerId: string)
      requires Valid() && peerId in states && (forall t :: t != "" ==> peerId !in Members(rooms, t))
      requires Named(states[peerId]).Some?
      ensures Confined(rooms, states[peerId := PeerState(None, None)], sockets)
      ensures InPlace() ==> Placed(rooms, states[peerId := PeerState(None, None)], sockets)
    {
      AbsentMayChange(rooms, states, sockets, peerId, PeerState(None, None), Closed);
      PlacedIsConfined(rooms, states[peerId := PeerState(None, None)], sockets);
      if InPlace() {
        forall p | p in Members(rooms, "") ensures Seated(states[peerId := PeerState(None, None)], sockets, "", p) {
          assert Seated(states, sockets, "", p);
        }
      }
    }

    /** Out of the room that the peer's state names, if it names one. */
    method Vacate(peerId: string)
      requires Valid() && peerId in states
      modifies this`rooms
      ensures Valid() && (old(InPlace()) ==> InPlace()) && rooms == Left(old(rooms), peerId, states[peerId])
      ensures forall t {:trigger Members(rooms, t)} :: Members(rooms, t) == Without(Members(old(rooms), t), peerId, t)
    {
      LeavingIsComplete(rooms, states, sockets, peerId);
      LeavingKeepsSeats(rooms, states, sockets, peerId);
      var named := Named(states[peerId]);
      if named.Some? {
        rooms := LeaveRoom(rooms, peerId, named.value);
      }
    }

    /** The socket has closed; the peer's state is left as it is. */
    method HandleDisconnect(peerId: string)
      requires Valid() && Online(peerId)
      modifies this`rooms, this`sockets, this`sent
      ensures Valid() && sockets == old(sockets)[peerId := Closed]
      ensures old(InPlace()) ==> (InPlace() <==> peerId !in Members(old(rooms), ""))
      ensures forall t {:trigger Members(rooms, t)} :: Members(rooms, t) == Without(Members(old(rooms), t), peerId, t)
      ensures match Named(states[peerId])
              case None => sent == old(sent)
              case Some(s) =>
                sent == Broadcasted(old(sent), rooms, sockets, s, SessionState(s, WhoDisconnected(states[peerId].role)), None)
    {
      if InPlace() {
        DisconnectKeepsPlacedIff(rooms, states, sockets, peerId);
      }
      Vacate(peerId);
      AbsentMayChange(rooms, states, sockets, peerId, PeerState(None, None), Closed);
      sockets := sockets[peerId := Closed];
      var named := Named(states[peerId]);
      if named.Some? {
        DisconnectedText(states[peerId].role);
        // An emptied room is gone, so broadcasting to it reaches nobody, as in the code.
        Broadcast(named.value, SessionState(named.value, RoleName(states[peerId].role) + "_disconnected"), None);
      }
    }

    /** Tear a session down: tell its open members, close them, and delete the room. */
    method NotifyRevocation(sessionId: string, reason: string)
      requires Valid()
      modifies this`rooms, this`sockets, this`sent
      ensures Valid() && (old(InPlace()) ==> InPlace())
      ensures TornDown(old(Now()), Now(), sessionId, reason)
      ensures AllTornDown(old(Now()), Now(), [sessionId], reason)
    {
      Broadcast(sessionId, Revoked(sessionId, reason), None);
      TearDown(sessionId);
      OneTornDown(old(Now()), Now(), sessionId, reason);
    }

    method TearDown(sessionId: string)
      requires Valid()
      modifies this`rooms, this`sockets
      ensures Valid() && (old(InPlace()) ==> InPlace())
      ensures forall t :: Members(rooms, t) == if t == sessionId then {} else Members(old(rooms), t)
      ensures forall p :: p in sockets ==>
                            sockets[p] == if p in Members(old(rooms), sessionId) && old(sockets)[p] == Open then Closing else old(sockets)[p]
      ensures sockets.Keys == old(sockets).Keys
    {
      if sessionId in rooms {
        MembersHaveSockets(rooms, states, sockets, sessionId);
        CloseAll(rooms[sessionId].Keys);
        RoomDeleted(rooms, states, old(sockets), sockets, sessionId);
        rooms := rooms - {sessionId};
      }
    }

    method CloseAll(peers: set<string>)
      requires peers <= sockets.Keys
      modifies this`sockets
      ensures sockets.Keys == old(sockets).Keys
      ensures forall p :: p in sockets ==> sockets[p] == if p in peers && old(sockets)[p] == Open then Closing else old(sockets)[p]
    {
      var todo := peers;
      while todo != {}
        invariant todo <= peers && sockets.Keys == old(sockets).Keys
        invariant forall p :: p in sockets ==>
                                sockets[p] == if p in peers && p !in todo && old(sockets)[p] == Open then Closing else old(sockets)[p]
        decreases |todo|
      {
        var p :| p in todo;
        if sockets[p] == Open {
          sockets := sockets[p := Closing];
        }
        todo := todo - {p};
      }
    }

    // --------------------------------------------------------------------- whole runs

    /** The event can happen: new connections are of new peers, and only connected peers send or disconnect. */
    predicate Possible(e: Event)
      reads this
    {
      match e
      case Connecting(p) => p !in states
      case Joining(p, _, _, _) => Online(p)
      case Relaying(p, _) => Online(p)
      case Leaving(p) => Online(p)
      case Sending(p, _) => Online(p)
      case Disconnecting(p) => Online(p)
      case Revoking(_, _) => true
    }

    /** Nobody is in the nameless room. */
    ghost predicate Tidy()
      reads this
    {
      Valid() && Members(rooms, "") == {}
    }

    /** Then all rooms are in order. */
    lemma {:induction false} TidyIsInPlace()
      requires Tidy()
      ensures InPlace()
    {
      PlacedIsConfined(rooms, states, sockets);
    }

    method Perform(e: Event, now: int)
      requires Valid() && RegistryReady(now) && Possible(e)
      modifies this`rooms, this`states, this`sockets, this`sent, RegistryRepr()
      ensures Valid() && RegistryReady(now) && RegistryKept()
      ensures old(Tidy()) && !JoinsNameless(e) ==> Tidy()
    {
      if e.Joining? {
        PerformJoin(e, now);
      } else {
        PerformOther(e);
      }
    }

    method PerformJoin(e: Event, now: int)
      requires Valid() && RegistryReady(now) && e.Joining? && Possible(e)
      modifies this`rooms, this`states, this`sent, RegistryRepr()
      ensures Valid() && RegistryReady(now) && RegistryKept()
      ensures old(Tidy()) && !JoinsNameless(e) ==> Tidy()
    {
      ghost var before, states0 := Now(), states;
      var error := HandleJoin(e.peerId, e.sessionId, e.role, e.token, now);
      JoinedNameless(before, states0, Now(), states, e.peerId, e.sessionId, e.role, error);
    }

    method PerformOther(e: Event)
      requires Valid() && Possible(e) && !e.Joining?
      modifies this`rooms, this`states, this`sockets, this`sent
      ensures Valid() && (old(Tidy()) ==> Tidy())
    {
      match e {
        case Connecting(peerId) => Connect(peerId);
        case Relaying(peerId, payload) => HandleRelay(peerId, payload);
        case Leaving(peerId) => HandleLeave(peerId);
        case Sending(peerId, code) => HandleOther(peerId, code);
        case Disconnecting(peerId) => HandleDisconnect(peerId);
        case Revoking(sessionId, reason) => NotifyRevocation(sessionId, reason);
      }
    }

    /**
     Any run: every room but the nameless one is in order throughout, and so is that one as long as
     nobody asks to join it. Events that cannot happen are passed over.
     */
    method Run(events: seq<TimedEvent>)
      requires Valid()
      requires events != [] ==> RegistryReady(events[0].at)
      requires forall i, j :: 0 <= i < j < |events| ==> events[i].at <= events[j].at
      modifies this`rooms, this`states, this`sockets, this`sent, RegistryRepr()
      ensures Valid()
      ensures old(Tidy()) && (forall i :: 0 <= i < |events| ==> !JoinsNameless(events[i].event)) ==> Tidy() && InPlace()
      decreases |events|
    {
      if events != [] {
        if Possible(events[0].event) {
          Perform(events[0].event, events[0].at);
        }
        Run(events[1..]);
      } else if Tidy() {
        TidyIsInPlace();
      }
    }
  }

  datatype Event =
    | Connecting(peerId: string)
    | Joining(peerId: string, sessionId: string, role: Role, token: Option<string>)
    | Relaying(peerId: string, payload: string)
    | Leaving(peerId: string)
    | Sending(peerId: string, code: ErrorCode)
    | Disconnecting(peerId: string)
    | Revoking(sessionId: string, reason: string)

  datatype TimedEvent = TimedEvent(event: Event, at: int)

  predicate JoinsNameless(e: Event) {
    e.Joining? && e.sessionId == ""
  }

  /**
   The session id that the payload claims decides on the room; the one that the token was registered for
   is not compared with it. From a new server and registry, a token of session "a" opens room "b".
   */
  method OtherRoomIsOpened(peerId: string, role: Role, entry: TR.TokenEntry, now: int) returns (registry: TR.Registry, server: Server)
    requires entry.sessionId == "a" && now < entry.expiresAt
    ensures server.Valid() && server.tokenRegistry == registry
    ensures registry.tokens == map[entry.jti := entry]
    ensures peerId in Members(server.rooms, "b")
  {
    registry := new TR.Registry(now);
    registry.Register(entry);
    server := new Server(_ => Some(TokenClaims(entry.jti, "b")), registry);
    server.Connect(peerId);
    assert server.JoinError("b", Some("token"), now) == None;
    var error := server.HandleJoin(peerId, "b", role, Some("token"), now);
    assert error == None;
  }

  /** Reading the payload of two tokens: one for the nameless session, one for session "a". */
  function TwoTokens(): string -> Option<TokenClaims> {
    (token: string) =>
      if token == "nameless" then Some(TokenClaims("j0", "")) else if token == "a" then Some(TokenClaims("j1", "a")) else None
  }

  /** From a new server, two joins put a peer in two rooms; leaving and disconnecting do not take it out of the nameless one. */
  method NamelessSessionSplitsPeer(peerId: string, role: Role, now: int) returns (server: Server)
    ensures fresh(server) && server.Valid() && !server.InPlace() && server.Online(peerId)
    ensures peerId in Members(server.rooms, "") && peerId in Members(server.rooms, "a")
  {
    server := new Server(TwoTokens(), null);
    server.Connect(peerId);
    JoinAccepted(server, peerId, "", role, "nameless", now);
    JoinAccepted(server, peerId, "a", role, "a", now);
  }

  method JoinAccepted(server: Server, peerId: string, sessionId: string, role: Role, token: string, now: int)
    requires server.Valid() && server.InPlace() && server.Online(peerId) && server.tokenRegistry == null
    requires token != "" && server.decodeTokenClaims(token).Some? && server.decodeTokenClaims(token).value.sid == sessionId
    modifies server`rooms, server`states, server`sent
    ensures server.Valid() && peerId in Members(server.rooms, sessionId)
    ensures Members(old(server.rooms), "") <= Members(server.rooms, "")
    ensures server.InPlace() <==> peerId !in Members(old(server.rooms), "") || sessionId == ""
  {
    var error := server.HandleJoin(peerId, sessionId, role, Some(token), now);
    assert error == None;
  }

  /** And once it has left and disconnected, it is still there. */
  method NamelessPeerStays(peerId: string, role: Role, now: int) returns (server: Server)
    ensures server.Valid() && !server.Online(peerId) && peerId in Members(server.rooms, "")
  {
    server := NamelessSessionSplitsPeer(peerId, role, now);
    server.HandleLeave(peerId);
    server.HandleDisconnect(peerId);
  }
}
