/**
 The data model of the game server's room registry: socket and room
 identifiers, the `GameRoom` record, the outbound emissions, and the
 process-wide registry seen as a value (its keys in insertion order, the
 map itself, and the log of everything emitted so far).
 */
module Types {

  /** A socket.io connection identifier. */
  type SocketId = string

  /** A room identifier; the same string is the match id sent to clients. */
  type RoomId = string

  datatype Option<T> = None | Some(value: T)

  /** A client-supplied value that the server forwards without looking at it. */
  datatype Payload = Payload(raw: string)

  /** A room: its players in joining order and a game state that is always `{}`. */
  datatype GameRoom = GameRoom(players: seq<SocketId>, gameState: ())

  /** Who an emission is addressed to: `io.to(room)` reaches every member of
      the room, `socket.to(room)` every member except the sending socket. */
  datatype Target =
    | ToRoom(room: RoomId)
    | ToRoomExcept(room: RoomId, except: SocketId)

  /** The events the server emits, with their payloads. */
  datatype Event =
    | MatchFound(matchId: RoomId, player1: SocketId, player2: SocketId)
    | OpponentDisconnected
    | OpponentStateUpdate(state: Payload)
    | PlayerHit(damage: Payload, isPlayer1: Payload, attackerX: Payload)
    | OpponentAction(action: Payload, position: Payload)

  datatype Emission = Emission(target: Target, event: Event)

  /** The registry as a value: the Map's keys in insertion order, the Map,
      and every emission made so far, oldest first. */
  datatype ServerState = ServerState(order: seq<RoomId>, rooms: map<RoomId, GameRoom>, log: seq<Emission>)

  const Empty := ServerState([], map[], [])

  predicate Distinct(ids: seq<RoomId>)
  {
    forall i, j :: 0 <= i < j < |ids| ==> ids[i] != ids[j]
  }

  /** The ids listed in a key sequence. */
  function KeySet(ids: seq<RoomId>): set<RoomId>
  {
    if ids == [] then {} else {ids[0]} + KeySet(ids[1..])
  }

  lemma {:induction false} KeySetMembers(ids: seq<RoomId>)
    ensures forall id :: id in KeySet(ids) <==> id in ids
  {
    if ids != [] {
      KeySetMembers(ids[1..]);
      assert ids == [ids[0]] + ids[1..];
    }
  }

  /** The key sequence lists each key of the map exactly once. */
  predicate WellFormed(st: ServerState)
  {
    Distinct(st.order) && st.rooms.Keys == KeySet(st.order)
  }

  /** A key that is new to the map goes to the end of the key order. */
  lemma AppendKey(st: ServerState, id: RoomId, room: GameRoom, log: seq<Emission>)
    requires WellFormed(st) && id !in st.rooms
    ensures WellFormed(ServerState(st.order + [id], st.rooms[id := room], log))
  {
    var o := st.order + [id];
    KeySetMembers(st.order);
    KeySetMembers(o);
    forall i, j | 0 <= i < j < |o| ensures o[i] != o[j] {
      if j == |st.order| {
        assert o[i] == st.order[i];
      }
    }
  }

  /** Every room holds one or two players. */
  predicate OneOrTwoPlayers(rooms: map<RoomId, GameRoom>)
  {
    forall id :: id in rooms ==> 1 <= |rooms[id].players| <= 2
  }

  /** The invariant every handler keeps. */
  predicate Consistent(st: ServerState)
  {
    WellFormed(st) && OneOrTwoPlayers(st.rooms)
  }

  /** `room.players.length === 1`: the room waits for an opponent. */
  predicate Waiting(rooms: map<RoomId, GameRoom>, id: RoomId)
  {
    id in rooms && |rooms[id].players| == 1
  }

  /** `room.players.includes(socket)`. */
  predicate Hosts(rooms: map<RoomId, GameRoom>, id: RoomId, s: SocketId)
  {
    id in rooms && s in rooms[id].players
  }

  /** The members of a room, taken to be its players. */
  function Members(rooms: map<RoomId, GameRoom>, id: RoomId): set<SocketId>
  {
    if id in rooms then set p | p in rooms[id].players else {}
  }

  /** The sockets an emission reaches, given the rooms at the time it is made. */
  function Recipients(rooms: map<RoomId, GameRoom>, t: Target): set<SocketId>
  {
    match t
    case ToRoom(id) => Members(rooms, id)
    case ToRoomExcept(id, sender) => Members(rooms, id) - {sender}
  }
}
