/**
 The `gameRooms` registry as the server keeps it: a Map updated in place by
 the socket handlers. The Map is a key sequence in insertion order beside a
 `map`; everything the handlers emit is appended to `log`. Each handler is
 proved to have exactly the effect of its transition in `Handlers`, and to
 keep every room at one or two players.
 */
module Server {
  import opened Types
  import H = Handlers

  /** `Map.delete(x)` on the key order: `x` leaves, the rest keep their order. */
  function Remove(xs: seq<RoomId>, x: RoomId): (r: seq<RoomId>)
    ensures |r| <= |xs| && x !in r
  {
    if xs == [] then []
    else (if xs[0] == x then [] else [xs[0]]) + Remove(xs[1..], x)
  }

  /** Deleting a key that is absent changes nothing. */
  lemma {:induction false} RemoveAbsent(b: seq<RoomId>, x: RoomId)
    requires x !in b
    ensures Remove(b, x) == b
  {
    if b != [] {
      RemoveAbsent(b[1..], x);
    }
  }

  /** Deleting a key that is absent from a prefix leaves the prefix alone. */
  lemma {:induction false} RemoveAfter(a: seq<RoomId>, c: seq<RoomId>, x: RoomId)
    requires x !in a
    ensures Remove(a + c, x) == a + Remove(c, x)
  {
    if a != [] {
      var ac := a + c;
      assert ac[0] == a[0] && ac[1..] == a[1..] + c;
      RemoveAfter(a[1..], c, x);
      calc {
        Remove(ac, x);
        [a[0]] + Remove(a[1..] + c, x);
        [a[0]] + (a[1..] + Remove(c, x));
        { assert a == [a[0]] + a[1..]; }
        a + Remove(c, x);
      }
    } else {
      assert a + c == c;
    }
  }

  /** Deleting a key that occurs once closes the gap it leaves. */
  lemma RemoveOnce(a: seq<RoomId>, x: RoomId, b: seq<RoomId>)
    requires x !in a && x !in b
    ensures Remove(a + [x] + b, x) == a + b
  {
    var xb := [x] + b;
    assert a + [x] + b == a + xb;
    RemoveAfter(a, xb, x);
    assert xb[0] == x && xb[1..] == b;
    assert Remove(xb, x) == Remove(b, x);
    RemoveAbsent(b, x);
  }

  /** The registry once the `disconnect` walk for `s` has visited the first
      `i` keys of `st.order`: each visited room that contains `s` has been
      notified and deleted. */
  function Walk(st: ServerState, s: SocketId, i: nat): (w: ServerState)
    requires i <= |st.order|
    ensures w.rooms.Keys <= st.rooms.Keys && |w.order| <= |st.order|
    ensures |st.log| <= |w.log| <= |st.log| + i
  {
    if i == 0 then st
    else
      var w := Walk(st, s, i - 1);
      var id := st.order[i - 1];
      if Hosts(w.rooms, id, s) then ServerState(Remove(w.order, id), w.rooms - {id}, w.log + [H.Notice(id)])
      else w
  }

  /** The key order once the walk has visited `pre`, with `rest` still ahead. */
  lemma {:induction false} VisitOrder(pre: seq<RoomId>, x: RoomId, rest: seq<RoomId>, rooms: map<RoomId, GameRoom>, s: SocketId)
    requires x !in pre && x !in rest
    ensures var before := H.Survivors(pre, rooms, s) + ([x] + rest);
      (if Hosts(rooms, x, s) then Remove(before, x) else before) == H.Survivors(pre + [x], rooms, s) + rest
  {
    H.VisitNext(pre, x, rooms, s);
    H.SurvivorsAreTheOthers(pre, rooms, s);
    var survivors := H.Survivors(pre, rooms, s);
    if Hosts(rooms, x, s) {
      assert survivors + ([x] + rest) == survivors + [x] + rest;
      RemoveOnce(survivors, x, rest);
    } else {
      assert survivors + ([x] + rest) == (survivors + [x]) + rest;
    }
  }

  /** The rooms once the walk has visited `pre`, then `x`. */
  lemma VisitRooms(pre: seq<RoomId>, x: RoomId, rooms: map<RoomId, GameRoom>, s: SocketId)
    requires x !in pre
    ensures x !in H.HostingRooms(pre, rooms, s)
    ensures var before := rooms - H.HostingRooms(pre, rooms, s);
      (if Hosts(rooms, x, s) then before - {x} else before) == rooms - H.HostingRooms(pre + [x], rooms, s)
  {
    H.VisitNext(pre, x, rooms, s);
  }

  /** One step of the walk, from the registry after `pre` to the registry
      after `pre + [x]`. */
  lemma VisitStep(w: ServerState, pre: seq<RoomId>, x: RoomId, rest: seq<RoomId>,
                  rooms: map<RoomId, GameRoom>, log: seq<Emission>, s: SocketId)
    requires x !in pre && x !in rest
    requires w == ServerState(H.Survivors(pre, rooms, s) + ([x] + rest), rooms - H.HostingRooms(pre, rooms, s),
                              log + H.Notices(pre, rooms, s))
    ensures (if Hosts(w.rooms, x, s) then ServerState(Remove(w.order, x), w.rooms - {x}, w.log + [H.Notice(x)]) else w)
         == ServerState(H.Survivors(pre + [x], rooms, s) + rest, rooms - H.HostingRooms(pre + [x], rooms, s),
                        log + H.Notices(pre + [x], rooms, s))
  {
    H.VisitNext(pre, x, rooms, s);
    VisitOrder(pre, x, rest, rooms, s);
    VisitRooms(pre, x, rooms, s);
  }

  /** The key at position `i - 1` of a distinct sequence occurs neither
      before nor after it. */
  lemma DistinctAt(ids: seq<RoomId>, i: nat)
    requires Distinct(ids) && 0 < i <= |ids|
    ensures ids[..i] == ids[..i - 1] + [ids[i - 1]] && ids[i - 1..] == [ids[i - 1]] + ids[i..]
    ensures ids[i - 1] !in ids[..i - 1] && ids[i - 1] !in ids[i..]
  {
  }

  /** Part way through, the walk has deleted exactly the visited rooms that
      contain `s`, in order, and notified each of them once. */
  lemma {:induction false} WalkSoFar(st: ServerState, s: SocketId, i: nat)
    requires Distinct(st.order) && i <= |st.order|
    ensures Walk(st, s, i) == ServerState(H.Survivors(st.order[..i], st.rooms, s) + st.order[i..],
                                          st.rooms - H.HostingRooms(st.order[..i], st.rooms, s),
                                          st.log + H.Notices(st.order[..i], st.rooms, s))
  {
    if i == 0 {
      assert st.order[..0] == [] && st.order[0..] == st.order;
      assert H.HostingRooms([], st.rooms, s) == {};
      assert st.rooms - {} == st.rooms;
    } else {
      WalkSoFar(st, s, i - 1);
      DistinctAt(st.order, i);
      VisitStep(Walk(st, s, i - 1), st.order[..i - 1], st.order[i - 1], st.order[i..], st.rooms, st.log, s);
    }
  }

  /** The walk reaches each room before anything has changed it. */
  lemma WalkVisitsLiveRoom(st: ServerState, s: SocketId, i: nat)
    requires WellFormed(st) && i < |st.order|
    ensures st.order[i] in st.rooms && st.order[i] in Walk(st, s, i).rooms
    ensures Walk(st, s, i).rooms[st.order[i]] == st.rooms[st.order[i]]
  {
    WalkSoFar(st, s, i);
    assert st.order[i] !in st.order[..i];
    KeySetMembers(st.order);
  }

  /** The whole walk is the `disconnect` transition. */
  lemma WalkIsDisconnect(st: ServerState, s: SocketId)
    requires WellFormed(st)
    ensures Walk(st, s, |st.order|) == H.Disconnect(st, s)
  {
    WalkSoFar(st, s, |st.order|);
    assert st.order[..|st.order|] == st.order;
    assert st.order[|st.order|..] == [];
  }

  class GameRooms {
    var order: seq<RoomId>
    var rooms: map<RoomId, GameRoom>
    var log: seq<Emission>

    /** The registry and the emissions so far, as a value. */
    function State(): ServerState
      reads this
    {
      ServerState(order, rooms, log)
    }

    /** The key order matches the map and every room has one or two players. */
    ghost predicate Valid()
      reads this
    {
      Consistent(ServerState(order, rooms, log))
    }

    /** `new Map<string, GameRoom>()`, before any socket connects. */
    constructor ()
      ensures Valid() && State() == Empty
    {
      order, rooms, log := [], map[], [];
    }

    /** The `joinMatchmaking` handler of socket `s`; `newId` is the id it draws
        when no room waits. */
    method JoinMatchmaking(s: SocketId, newId: RoomId)
      requires Valid()
      modifies this
      ensures Valid()
      ensures State() == H.Join(old(State()), s, newId)
    {
      KeySetMembers(order);
      var foundMatch := false;
      var i := 0;
      while i < |order|
        invariant 0 <= i <= |order|
        invariant State() == old(State())
        invariant forall j :: 0 <= j < i ==> !Waiting(rooms, order[j])
      {
        var roomId := order[i];
        var room := rooms[roomId];
        if |room.players| == 1 {
          assert H.FirstWaiting(order, rooms) == Some(i);
          var players := room.players + [s];
          rooms := rooms[roomId := room.(players := players)];
          log := log + [H.Announce(roomId, players[0], players[1])];
          foundMatch := true;
          break;
        }
        i := i + 1;
      }
      if !foundMatch {
        assert H.FirstWaiting(order, rooms) == None;
        if newId !in rooms {
          order := order + [newId];
        }
        rooms := rooms[newId := GameRoom([s], ())];
      }
      H.JoinKeepsConsistent(old(State()), s, newId);
    }

    /** The `disconnect` handler of socket `s`: walks the rooms in insertion
        order, notifying and deleting each one that contains `s`. */
    method Disconnect(s: SocketId)
      requires Valid()
      modifies this
      ensures Valid()
      ensures State() == H.Disconnect(old(State()), s)
    {
      ghost var st0 := ServerState(order, rooms, log);
      var ids := order;
      var i := 0;
      while i < |ids|
        invariant 0 <= i <= |ids| && ids == st0.order
        invariant ServerState(order, rooms, log) == Walk(st0, s, i)
      {
        var roomId := ids[i];
        WalkVisitsLiveRoom(st0, s, i);
        var room := rooms[roomId];
        if s in room.players {
          log := log + [H.Notice(roomId)];
          order := Remove(order, roomId);
          rooms := rooms - {roomId};
        }
        i := i + 1;
      }
      WalkIsDisconnect(st0, s);
      H.DisconnectKeepsConsistent(st0, s);
    }

    /** The `playerStateUpdate` handler of socket `sender`. */
    method PlayerStateUpdate(sender: SocketId, matchId: RoomId, state: Payload, isPlayer1: Payload)
      requires Valid()
      modifies this
      ensures Valid()
      ensures State() == H.PlayerStateUpdate(old(State()), sender, matchId, state, isPlayer1)
    {
      log := log + [Emission(ToRoomExcept(matchId, sender), OpponentStateUpdate(state))];
    }

    /** The `playerHit` handler of socket `sender`. */
    method PlayerHit(sender: SocketId, matchId: RoomId, damage: Payload, isPlayer1: Payload, attackerX: Payload)
      requires Valid()
      modifies this
      ensures Valid()
      ensures State() == H.PlayerHit(old(State()), sender, matchId, damage, isPlayer1, attackerX)
    {
      log := log + [Emission(ToRoomExcept(matchId, sender), Event.PlayerHit(damage, isPlayer1, attackerX))];
    }

    /** The `playerAction` handler of socket `sender`. */
    method PlayerAction(sender: SocketId, matchId: RoomId, action: Payload, position: Payload)
      requires Valid()
      modifies this
      ensures Valid()
      ensures State() == H.PlayerAction(old(State()), sender, matchId, action, position)
    {
      log := log + [Emission(ToRoomExcept(matchId, sender), OpponentAction(action, position))];
    }
  }
}
