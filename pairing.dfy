/**
 Pairing in arrival order: when no room waits and every drawn room id is
 fresh, a run of `joinMatchmaking` calls pairs the 1st joiner with the 2nd,
 the 3rd with the 4th, and so on, and an odd last joiner stays alone.
 */
module Pairing {
  import opened Types
  import opened Handlers

  /** `joinMatchmaking` by each socket in turn, the i-th drawing `ids[i]`. */
  function JoinAll(st: ServerState, sockets: seq<SocketId>, ids: seq<RoomId>): ServerState
    requires |ids| == |sockets|
    decreases |sockets|
  {
    if sockets == [] then st
    else JoinAll(Join(st, sockets[0], ids[0]), sockets[1..], ids[1..])
  }

  /** A pair of joiners sharing a new room `id`, announced first-comer first. */
  function AddPair(st: ServerState, first: SocketId, second: SocketId, id: RoomId): ServerState
  {
    ServerState(st.order + [id], st.rooms[id := GameRoom([first, second], ())],
                st.log + [Announce(id, first, second)])
  }

  /** The reference outcome: joiners taken two at a time, each pair sharing
      the room opened by the first of them and announced in that order. */
  function PairInArrivalOrder(st: ServerState, sockets: seq<SocketId>, ids: seq<RoomId>): ServerState
    requires |ids| == |sockets|
    decreases |sockets|
  {
    if sockets == [] then st
    else if |sockets| == 1 then
      ServerState(st.order + [ids[0]], st.rooms[ids[0] := GameRoom([sockets[0]], ())], st.log)
    else
      PairInArrivalOrder(AddPair(st, sockets[0], sockets[1], ids[0]), sockets[2..], ids[2..])
  }

  /** The ids a run of joins actually draws: a join draws an id only when no
      room waits, which in a run from such a registry is every other join,
      starting with the first. */
  function Drawn(ids: seq<RoomId>): seq<RoomId>
    decreases |ids|
  {
    if |ids| <= 1 then ids else [ids[0]] + Drawn(ids[2..])
  }

  /** The drawn ids are pairwise distinct and none names an existing room;
      the ids of the joins that fill a room are unconstrained. */
  predicate FreshIds(st: ServerState, ids: seq<RoomId>)
  {
    Distinct(Drawn(ids)) && forall id :: id in Drawn(ids) ==> id !in st.rooms
  }

  /** The head of a distinct sequence is not in its tail, and the tail is distinct. */
  lemma DistinctCons(x: RoomId, tail: seq<RoomId>)
    requires Distinct([x] + tail)
    ensures x !in tail && Distinct(tail)
  {
    var d := [x] + tail;
    forall i, j | 0 <= i < j < |tail| ensures tail[i] != tail[j] {
      assert tail[i] == d[i + 1] && tail[j] == d[j + 1];
    }
    forall i | 0 <= i < |tail| ensures tail[i] != x {
      assert tail[i] == d[i + 1] && x == d[0];
    }
  }

  /** The first drawn id is followed by those the remaining joins draw, and
      distinct drawn ids stay distinct. */
  lemma DrawnTail(ids: seq<RoomId>)
    requires |ids| >= 2
    ensures Drawn(ids) == [ids[0]] + Drawn(ids[2..])
    ensures Distinct(Drawn(ids)) ==> ids[0] !in Drawn(ids[2..]) && Distinct(Drawn(ids[2..]))
  {
    if Distinct(Drawn(ids)) {
      DistinctCons(ids[0], Drawn(ids[2..]));
    }
  }

  /** Two joins in a row, when no room waits: the first opens room `id0`,
      the second fills it. No room waits afterwards. */
  lemma TwoJoinsPair(st: ServerState, first: SocketId, second: SocketId, id0: RoomId, id1: RoomId)
    requires WellFormed(st) && NoneWaiting(st) && id0 !in st.rooms
    ensures Join(Join(st, first, id0), second, id1) == AddPair(st, first, second, id0)
    ensures WellFormed(AddPair(st, first, second, id0)) && NoneWaiting(AddPair(st, first, second, id0))
  {
    var st1 := Join(st, first, id0);
    JoinOpensRoom(st, first, id0);
    var k := |st.order|;
    assert IsFirstWaiting(st1, k);
    JoinPairsWithFirstWaiting(st1, second, id1, k);
    var next := AddPair(st, first, second, id0);
    assert [first] + [second] == [first, second];
    assert Join(st1, second, id1).rooms == next.rooms;
    AppendKey(st, id0, GameRoom([first, second], ()), next.log);
  }

  /** Successive joins from a registry where no room waits produce exactly the
      arrival-order pairing. Sockets need not be distinct. */
  lemma {:induction false} JoinsPairInArrivalOrder(st: ServerState, sockets: seq<SocketId>, ids: seq<RoomId>)
    requires |ids| == |sockets|
    requires WellFormed(st) && NoneWaiting(st) && FreshIds(st, ids)
    ensures JoinAll(st, sockets, ids) == PairInArrivalOrder(st, sockets, ids)
    decreases |sockets|
  {
    if |sockets| == 1 {
      JoinOpensRoom(st, sockets[0], ids[0]);
    } else if |sockets| >= 2 {
      TwoJoinsPair(st, sockets[0], sockets[1], ids[0], ids[1]);
      var next := AddPair(st, sockets[0], sockets[1], ids[0]);
      DrawnTail(ids);
      assert FreshIds(next, ids[2..]);
      JoinsPairInArrivalOrder(next, sockets[2..], ids[2..]);
      var st1 := Join(st, sockets[0], ids[0]);
      assert JoinAll(st1, sockets[1..], ids[1..]) == JoinAll(Join(st1, sockets[1], ids[1]), sockets[1..][1..], ids[1..][1..]);
      assert sockets[1..][1..] == sockets[2..] && ids[1..][1..] == ids[2..];
    }
  }

  /** Rooms that no joiner's id names keep their players, and the earlier log
      is kept as a prefix. */
  lemma {:induction false} PairingKeepsOthers(st: ServerState, sockets: seq<SocketId>, ids: seq<RoomId>, id: RoomId)
    requires |ids| == |sockets| && id !in Drawn(ids) && id in st.rooms
    ensures var r := PairInArrivalOrder(st, sockets, ids);
      id in r.rooms && r.rooms[id] == st.rooms[id] && |st.log| <= |r.log| && r.log[..|st.log|] == st.log
    decreases |sockets|
  {
    if |sockets| >= 2 {
      var next := AddPair(st, sockets[0], sockets[1], ids[0]);
      DrawnTail(ids);
      PairingKeepsOthers(next, sockets[2..], ids[2..], id);
    }
  }

  /** The k-th pair: joiners 2k and 2k+1 share room `ids[2k]`, and the k-th new
      emission is its `matchFound` naming them in that order. */
  lemma {:induction false} PairedAt(st: ServerState, sockets: seq<SocketId>, ids: seq<RoomId>, k: nat)
    requires |ids| == |sockets| && Distinct(Drawn(ids))
    requires 2 * k + 1 < |sockets|
    ensures var r := PairInArrivalOrder(st, sockets, ids);
      && ids[2 * k] in r.rooms
      && r.rooms[ids[2 * k]].players == [sockets[2 * k], sockets[2 * k + 1]]
      && |st.log| + k < |r.log|
      && r.log[|st.log| + k] == Announce(ids[2 * k], sockets[2 * k], sockets[2 * k + 1])
    decreases |sockets|
  {
    var next := AddPair(st, sockets[0], sockets[1], ids[0]);
    DrawnTail(ids);
    if k == 0 {
      if |sockets| > 2 {
        PairingKeepsOthers(next, sockets[2..], ids[2..], ids[0]);
      }
      var r := PairInArrivalOrder(st, sockets, ids);
      assert r == PairInArrivalOrder(next, sockets[2..], ids[2..]);
      assert r.log[..|next.log|] == next.log;
      assert r.log[|st.log|] == r.log[..|next.log|][|st.log|];
    } else {
      PairedAt(next, sockets[2..], ids[2..], k - 1);
      assert sockets[2..][2 * (k - 1)] == sockets[2 * k];
      assert sockets[2..][2 * (k - 1) + 1] == sockets[2 * k + 1];
      assert ids[2..][2 * (k - 1)] == ids[2 * k];
    }
  }

  /** Only pairs are announced; an odd last joiner is alone in a room of its
      own, waiting for the next call. */
  lemma {:induction false} PairingCounts(st: ServerState, sockets: seq<SocketId>, ids: seq<RoomId>)
    requires |ids| == |sockets|
    ensures var r := PairInArrivalOrder(st, sockets, ids);
      && |r.log| == |st.log| + |sockets| / 2
      && |r.order| == |st.order| + (|sockets| + 1) / 2
      && (|sockets| % 2 == 1 ==> Waiting(r.rooms, ids[|sockets| - 1])
                                 && r.rooms[ids[|sockets| - 1]].players == [sockets[|sockets| - 1]])
    decreases |sockets|
  {
    if |sockets| >= 2 {
      var next := AddPair(st, sockets[0], sockets[1], ids[0]);
      PairingCounts(next, sockets[2..], ids[2..]);
      if |sockets| >= 3 {
        assert ids[2..][|sockets| - 3] == ids[|sockets| - 1];
      }
    }
  }
}
