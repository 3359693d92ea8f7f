/**
 The socket handlers of the game server as transitions on `ServerState`:
 `joinMatchmaking`, `disconnect` and the three relays `playerStateUpdate`,
 `playerHit` and `playerAction`. Each function is the whole effect of one
 handler run to completion; the lemmas state what the handlers promise.
 */
module Handlers {
  import opened Types

  // ---------------------------------------------------------------- joining

  /** The position in `order` of the earliest-inserted room that has exactly
      one player, if any. */
  function FirstWaiting(order: seq<RoomId>, rooms: map<RoomId, GameRoom>): (k: Option<nat>)
    ensures k.Some? ==> k.value < |order| && Waiting(rooms, order[k.value])
    ensures k.Some? ==> forall j :: 0 <= j < k.value ==> !Waiting(rooms, order[j])
    ensures k.None? ==> forall j :: 0 <= j < |order| ==> !Waiting(rooms, order[j])
  {
    if order == [] then None
    else if Waiting(rooms, order[0]) then Some(0)
    else match FirstWaiting(order[1..], rooms)
      case None => None
      case Some(k) => Some(k + 1)
  }

  /** The `matchFound` announcement sent to a room once it is full. */
  function Announce(id: RoomId, player1: SocketId, player2: SocketId): Emission
  {
    Emission(ToRoom(id), MatchFound(id, player1, player2))
  }

  /** `joinMatchmaking` by socket `s`. `newId` is the random id the handler
      would draw if it has to open a room; `Map.set` on a key already present
      replaces that room and keeps the key's position. */
  function Join(st: ServerState, s: SocketId, newId: RoomId): (st': ServerState)
    ensures st'.rooms.Keys == st.rooms.Keys + {newId} || st'.rooms.Keys == st.rooms.Keys
    ensures |st.log| <= |st'.log| <= |st.log| + 1 && st'.log[..|st.log|] == st.log
    ensures |st'.log| == |st.log| + 1 <==> FirstWaiting(st.order, st.rooms).Some?
  {
    match FirstWaiting(st.order, st.rooms)
    case Some(k) =>
      var id := st.order[k];
      var players := st.rooms[id].players + [s];
      ServerState(st.order, st.rooms[id := st.rooms[id].(players := players)],
                  st.log + [Announce(id, players[0], players[1])])
    case None =>
      ServerState(if newId in st.rooms then st.order else st.order + [newId],
                  st.rooms[newId := GameRoom([s], ())],
                  st.log)
  }

  /** `k` is the position of the earliest room that waits for an opponent. */
  predicate IsFirstWaiting(st: ServerState, k: nat)
  {
    k < |st.order| && Waiting(st.rooms, st.order[k])
    && forall j :: 0 <= j < k ==> !Waiting(st.rooms, st.order[j])
  }

  /** No room waits for an opponent. */
  predicate NoneWaiting(st: ServerState)
  {
    forall id :: id in st.rooms ==> |st.rooms[id].players| != 1
  }

  /** When a room waits, the joiner becomes the second player of the earliest
      such room: no room is created, every other room is left as it was, and
      exactly one `matchFound` naming the room, its occupant and the joiner
      goes to that room, reaching both of its players. */
  lemma JoinPairsWithFirstWaiting(st: ServerState, s: SocketId, newId: RoomId, k: nat)
    requires IsFirstWaiting(st, k)
    ensures var st' := Join(st, s, newId); var id := st.order[k];
      && st'.order == st.order
      && st'.rooms.Keys == st.rooms.Keys
      && st'.rooms[id].players == st.rooms[id].players + [s]
      && (forall other :: other in st.rooms && other != id ==> st'.rooms[other] == st.rooms[other])
      && st'.log == st.log + [Emission(ToRoom(id), MatchFound(id, st.rooms[id].players[0], s))]
      && Recipients(st'.rooms, st'.log[|st.log|].target) == {st.rooms[id].players[0], s}
  {
    var id := st.order[k];
    assert FirstWaiting(st.order, st.rooms) == Some(k);
    var st' := Join(st, s, newId);
    var players := st.rooms[id].players + [s];
    assert st'.rooms[id].players == players;
    assert (set p | p in players) == {players[0], s};
  }

  /** When no room waits, the joiner gets a new one-player room and nothing is
      emitted. A fresh id is appended to the insertion order and leaves the
      existing rooms alone; an id already in use replaces that room in place. */
  lemma JoinOpensRoom(st: ServerState, s: SocketId, newId: RoomId)
    requires WellFormed(st) && NoneWaiting(st)
    ensures var st' := Join(st, s, newId);
      && st'.rooms == st.rooms[newId := GameRoom([s], ())]
      && st'.log == st.log
      && (newId !in st.rooms ==> st'.order == st.order + [newId])
      && (newId in st.rooms ==> st'.order == st.order)
      && (newId !in st.rooms ==> FirstWaiting(st'.order, st'.rooms) == Some(|st'.order| - 1))
  {
    assert FirstWaiting(st.order, st.rooms) == None;
    KeySetMembers(st.order);
    if newId !in st.rooms {
      var st' := Join(st, s, newId);
      assert Waiting(st'.rooms, st'.order[|st.order|]);
      assert FirstWaiting(st'.order, st'.rooms) == Some(|st.order|);
    }
  }

  /** `joinMatchmaking` keeps every room at one or two players and the key
      order in step with the map. */
  lemma JoinKeepsConsistent(st: ServerState, s: SocketId, newId: RoomId)
    requires Consistent(st)
    ensures Consistent(Join(st, s, newId))
  {
    var st' := Join(st, s, newId);
    match FirstWaiting(st.order, st.rooms)
    case Some(k) =>
      assert st'.rooms.Keys == st.rooms.Keys;
    case None =>
      if newId !in st.rooms {
        AppendKey(st, newId, GameRoom([s], ()), st.log);
      } else {
        assert st'.rooms.Keys == st.rooms.Keys;
      }
  }

  /** A socket that joins twice while alone in its room is paired with itself. */
  lemma RepeatJoinPairsSocketWithItself(s: SocketId, a: RoomId, b: RoomId)
    ensures var st := Join(Join(Empty, s, a), s, b);
      && st.order == [a]
      && st.rooms == map[a := GameRoom([s, s], ())]
      && st.log == [Announce(a, s, s)]
  {
    var st1 := Join(Empty, s, a);
    assert st1 == ServerState([a], map[a := GameRoom([s], ())], []);
    assert FirstWaiting(st1.order, st1.rooms) == Some(0);
    assert [s] + [s] == [s, s];
    assert st1.rooms[a := GameRoom([s, s], ())] == map[a := GameRoom([s, s], ())];
  }

  // ----------------------------------------------------------- disconnecting

  /** The `opponentDisconnected` notice sent to a room that is torn down. */
  function Notice(id: RoomId): Emission
  {
    Emission(ToRoom(id), OpponentDisconnected)
  }

  /** The rooms, in insertion order, that do not contain `s`. */
  function Survivors(order: seq<RoomId>, rooms: map<RoomId, GameRoom>, s: SocketId): seq<RoomId>
  {
    if order == [] then []
    else
      var last := order[|order| - 1];
      Survivors(order[..|order| - 1], rooms, s) + (if Hosts(rooms, last, s) then [] else [last])
  }

  /** One notice per room that contains `s`, in insertion order. */
  function Notices(order: seq<RoomId>, rooms: map<RoomId, GameRoom>, s: SocketId): seq<Emission>
  {
    if order == [] then []
    else
      var last := order[|order| - 1];
      Notices(order[..|order| - 1], rooms, s) + (if Hosts(rooms, last, s) then [Notice(last)] else [])
  }

  /** The keys, among `order`, of the rooms that contain `s`. */
  function HostingRooms(order: seq<RoomId>, rooms: map<RoomId, GameRoom>, s: SocketId): set<RoomId>
  {
    set id | id in order && Hosts(rooms, id, s)
  }

  /** `disconnect` of socket `s`: every room containing `s` is notified and
      deleted, in insertion order. */
  function Disconnect(st: ServerState, s: SocketId): (st': ServerState)
    ensures st'.rooms.Keys <= st.rooms.Keys
    ensures forall id :: id in st'.rooms ==> st'.rooms[id] == st.rooms[id]
    ensures |st.log| <= |st'.log| && st'.log[..|st.log|] == st.log
  {
    ServerState(Survivors(st.order, st.rooms, s),
                st.rooms - HostingRooms(st.order, st.rooms, s),
                st.log + Notices(st.order, st.rooms, s))
  }

  /** Visiting one more key extends the survivors, the deleted rooms and the
      notices by that key, according to whether its room contains `s`. */
  lemma VisitNext(pre: seq<RoomId>, x: RoomId, rooms: map<RoomId, GameRoom>, s: SocketId)
    ensures Survivors(pre + [x], rooms, s) == Survivors(pre, rooms, s) + (if Hosts(rooms, x, s) then [] else [x])
    ensures Notices(pre + [x], rooms, s) == Notices(pre, rooms, s) + (if Hosts(rooms, x, s) then [Notice(x)] else [])
    ensures HostingRooms(pre + [x], rooms, s) == HostingRooms(pre, rooms, s) + (if Hosts(rooms, x, s) then {x} else {})
  {
    assert (pre + [x])[..|pre|] == pre;
  }

  lemma {:induction false} SurvivorsAreTheOthers(order: seq<RoomId>, rooms: map<RoomId, GameRoom>, s: SocketId)
    ensures forall id :: id in Survivors(order, rooms, s) <==> id in order && !Hosts(rooms, id, s)
    ensures Distinct(order) ==> Distinct(Survivors(order, rooms, s))
  {
    if order != [] {
      var init := order[..|order| - 1];
      var last := order[|order| - 1];
      assert order == init + [last];
      SurvivorsAreTheOthers(init, rooms, s);
      if Distinct(order) {
        assert Distinct(init);
        assert last !in init;
      }
    }
  }

  lemma {:induction false} NoticesCountHostingRooms(order: seq<RoomId>, rooms: map<RoomId, GameRoom>, s: SocketId)
    requires Distinct(order)
    ensures forall e :: e in Notices(order, rooms, s) ==> e.event == OpponentDisconnected && e.target.ToRoom?
    ensures forall id :: multiset(Notices(order, rooms, s))[Notice(id)] == if id in order && Hosts(rooms, id, s) then 1 else 0
  {
    if order != [] {
      var init := order[..|order| - 1];
      var last := order[|order| - 1];
      assert order == init + [last];
      assert Distinct(init);
      NoticesCountHostingRooms(init, rooms, s);
    }
  }

  /** After `disconnect(s)` exactly the rooms containing `s` are gone, no room
      contains `s`, the remaining rooms are untouched and the key order still
      lists each remaining key once. */
  lemma DisconnectRemovesHostingRooms(st: ServerState, s: SocketId)
    requires WellFormed(st)
    ensures var st' := Disconnect(st, s);
      && WellFormed(st')
      && (forall id :: id in st'.rooms <==> id in st.rooms && s !in st.rooms[id].players)
      && (forall id :: id in st'.rooms ==> st'.rooms[id] == st.rooms[id] && s !in st'.rooms[id].players)
  {
    SurvivorsAreTheOthers(st.order, st.rooms, s);
    KeySetMembers(st.order);
    KeySetMembers(Survivors(st.order, st.rooms, s));
  }

  /** `disconnect(s)` emits one `opponentDisconnected` to each room it deletes
      and nothing else. */
  lemma DisconnectNotifiesEachRemovedRoomOnce(st: ServerState, s: SocketId)
    requires WellFormed(st)
    ensures var st' := Disconnect(st, s); var sent := st'.log[|st.log|..];
      && st'.log[..|st.log|] == st.log
      && (forall e :: e in sent ==> e.event == OpponentDisconnected && e.target.ToRoom?)
      && (forall id :: multiset(sent)[Notice(id)] == if id in st.rooms && s in st.rooms[id].players then 1 else 0)
  {
    var st' := Disconnect(st, s);
    assert st'.log[|st.log|..] == Notices(st.order, st.rooms, s);
    NoticesCountHostingRooms(st.order, st.rooms, s);
    KeySetMembers(st.order);
  }

  /** `disconnect` keeps every room at one or two players and the key order
      in step with the map. */
  lemma DisconnectKeepsConsistent(st: ServerState, s: SocketId)
    requires Consistent(st)
    ensures Consistent(Disconnect(st, s))
  {
    DisconnectRemovesHostingRooms(st, s);
  }

  // ----------------------------------------------------------------- relays

  /** `socket.to(matchId).emit(event)`: appended to the log, registry untouched.
      `matchId` is whatever the client sent; nothing checks that the sender
      belongs to that room, or that the room exists. */
  function Relay(st: ServerState, sender: SocketId, matchId: RoomId, event: Event): (st': ServerState)
    ensures st'.order == st.order && st'.rooms == st.rooms
    ensures |st'.log| == |st.log| + 1
    ensures st'.log[..|st.log|] == st.log && st'.log[|st.log|..] == [Emission(ToRoomExcept(matchId, sender), event)]
  {
    st.(log := st.log + [Emission(ToRoomExcept(matchId, sender), event)])
  }

  /** `playerStateUpdate`: the players of the room named by the client's
      `matchId`, minus the sender, receive the state; `isPlayer1` plays no part. */
  function PlayerStateUpdate(st: ServerState, sender: SocketId, matchId: RoomId, state: Payload, isPlayer1: Payload): (st': ServerState)
    ensures st'.order == st.order && st'.rooms == st.rooms
    ensures |st'.log| == |st.log| + 1 && st'.log[..|st.log|] == st.log
    ensures st'.log[|st.log|].event == OpponentStateUpdate(state)
    ensures Recipients(st.rooms, st'.log[|st.log|].target) == Members(st.rooms, matchId) - {sender}
  {
    Relay(st, sender, matchId, OpponentStateUpdate(state))
  }

  /** `playerHit`: the players of the room named by the client's `matchId`,
      minus the sender, receive the damage, the attacker's side and position. */
  function PlayerHit(st: ServerState, sender: SocketId, matchId: RoomId, damage: Payload, isPlayer1: Payload, attackerX: Payload): (st': ServerState)
    ensures st'.order == st.order && st'.rooms == st.rooms
    ensures |st'.log| == |st.log| + 1 && st'.log[..|st.log|] == st.log
    ensures st'.log[|st.log|].event == Event.PlayerHit(damage, isPlayer1, attackerX)
    ensures Recipients(st.rooms, st'.log[|st.log|].target) == Members(st.rooms, matchId) - {sender}
  {
    Relay(st, sender, matchId, Event.PlayerHit(damage, isPlayer1, attackerX))
  }

  /** `playerAction`: the players of the room named by the client's `matchId`,
      minus the sender, receive the action and position as `opponentAction`. */
  function PlayerAction(st: ServerState, sender: SocketId, matchId: RoomId, action: Payload, position: Payload): (st': ServerState)
    ensures st'.order == st.order && st'.rooms == st.rooms
    ensures |st'.log| == |st.log| + 1 && st'.log[..|st.log|] == st.log
    ensures st'.log[|st.log|].event == OpponentAction(action, position)
    ensures Recipients(st.rooms, st'.log[|st.log|].target) == Members(st.rooms, matchId) - {sender}
  {
    Relay(st, sender, matchId, OpponentAction(action, position))
  }

  /** The `isPlayer1` flag of `playerStateUpdate` does not affect routing or
      anything else. */
  lemma StateUpdateIgnoresIsPlayer1(st: ServerState, sender: SocketId, matchId: RoomId, state: Payload, a: Payload, b: Payload)
    ensures PlayerStateUpdate(st, sender, matchId, state, a) == PlayerStateUpdate(st, sender, matchId, state, b)
  {
  }
}
