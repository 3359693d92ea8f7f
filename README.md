# Room registry of the fighting-game match server

The server keeps every game room in one process-wide `Map<string, GameRoom>`
(`gameRooms`) and changes it from socket handlers:

- `joinMatchmaking` walks the rooms in insertion order. The first room with
  exactly one player receives the caller as its second player, and
  `matchFound {matchId, player1, player2}` goes to that room. When no room
  waits, the caller gets a new one-player room under a random id.
- `disconnect` walks the rooms in insertion order. It sends
  `opponentDisconnected` to every room that contains the socket and deletes
  that room.
- `playerStateUpdate`, `playerHit` and `playerAction` forward their payload to
  the room named by the client's `matchId`, minus the sender. They do not
  touch the registry.

The model has four modules:

- `Types` (types.dfy) holds the data model. The registry is a value
  `ServerState(order, rooms, log)`:
  - `order` is the Map's keys in insertion order;
  - `rooms` is the Map itself;
  - `log` is every emission made so far.
  
  `io.to(room)` and `socket.to(room)` become the targets `ToRoom` and
  `ToRoomExcept`. `Recipients` reads a target as the players of the room.
  `Consistent` is the invariant: `order` lists each key of `rooms` exactly
  once, and every room has one or two players.
- `Handlers` (handlers.dfy) gives each handler as a transition function on
  `ServerState`, together with the lemmas stating what the handlers promise.
- `Pairing` (pairing.dfy) shows that successive joins pair players in
  arrival order.
- `Server` (game_rooms.dfy) holds the class `GameRooms`, the Map updated in
  place.
  - Its methods keep the source's loops: the `for … of entries()` loop with
    its `foundMatch` flag and `break`, and the delete-during-iteration loop
    of `disconnect`.
  - Each method is proved to keep `Valid()` and to have exactly the effect
    of its transition in `Handlers`.
  - The `disconnect` loop is proved against `Walk`, the registry after the
    first `i` keys have been visited. `WalkIsDisconnect` connects the
    finished walk to `Handlers.Disconnect`.

What the code does, and does not do:

- There is no separate waiting queue. A waiting player is a room with one
  player.
- Nothing guards against a repeated `joinMatchmaking`. A socket waiting alone
  that joins again is appended to its own room, giving players `[s, s]`
  (`RepeatJoinPairsSocketWithItself`). No lemma assumes distinct sockets.
- `playerHit` goes to the room minus the sender, as `socket.to` does. It is
  not broadcast to both players, and no health is cached or clamped.
- Relays emit for any `matchId`, including one that names no room; nothing
  drops the event first. In the model such an emission has no recipients
  (`Recipients` is empty), although socket.io may still deliver it (see
  "Left out"). The sender need not belong to the room it names: nothing
  checks that, and the emission still reaches that room's players.
- The new room id is a parameter. `Map.set` with an id that is already a key
  replaces that room and keeps its position in the insertion order. The model
  keeps this case (`JoinOpensRoom`) instead of requiring the id to be fresh.

## Model

| member | source | states |
|---|---|---|
| Handlers.Join | src/index.ts:30-57 | The `joinMatchmaking` transition. Its own contract: no room is ever removed and at most the drawn id is added; at most one emission is appended to the kept log, and exactly one precisely when some listed room waits. Its full behaviour is specified by JoinPairsWithFirstWaiting, JoinOpensRoom and JoinKeepsConsistent. |
| Handlers.FirstWaiting | src/index.ts:33-34 | Finds the position of a key whose room has exactly one player such that no earlier key in insertion order has one. When it finds none, no key in the insertion order names a waiting room (which covers every room when the key order matches the map). |
| Handlers.JoinPairsWithFirstWaiting | src/index.ts:33-47 | When a room waits, the joiner is appended to the earliest waiting room. The key order and key set are unchanged and every other room is unchanged. Exactly one `matchFound` is emitted, naming the room id, the original occupant and the joiner. It is sent to that room and reaches exactly those two sockets. |
| Handlers.JoinOpensRoom | src/index.ts:49-56 | When no room waits, the joiner gets the room `[s]` under the drawn id and nothing is emitted. A fresh id is appended to the insertion order and becomes the first waiting room. An id already in use replaces that room in place. |
| Handlers.JoinKeepsConsistent | src/index.ts:30-57 | `joinMatchmaking` keeps every room at one or two players and keeps the key order in step with the map. |
| Handlers.RepeatJoinPairsSocketWithItself | src/index.ts:34-35 | A socket that calls `joinMatchmaking` twice from an empty registry ends up in one room with players `[s, s]`, announced as a match with itself. |
| Handlers.VisitNext | src/index.ts:74-79 | Proof step for the loop: the survivors, notices and deleted rooms of a key prefix extended by one key, written in terms of the shorter prefix. The first two clauses unfold the definitions at the last key; the third is the set counterpart. |
| Handlers.SurvivorsAreTheOthers | src/index.ts:74-79 | A key survives `disconnect` exactly when it was listed and its room does not contain the socket. Distinct keys stay distinct. |
| Handlers.NoticesCountHostingRooms | src/index.ts:75-77 | For a key order without repeats, every notice is `opponentDisconnected` to a room. Each listed key whose room contains the socket gets exactly one, and every other id gets none. |
| Handlers.Disconnect | src/index.ts:71-80 | The `disconnect` transition. Its own contract: no room is added, every remaining room is unchanged, and the earlier log is kept as a prefix. Its full behaviour is specified by DisconnectRemovesHostingRooms, DisconnectNotifiesEachRemovedRoomOnce and DisconnectKeepsConsistent. |
| Handlers.DisconnectRemovesHostingRooms | src/index.ts:74-79 | After `disconnect(s)`, a room remains exactly when it existed and did not contain `s`. Remaining rooms are unchanged and none contains `s`. The key order stays in step with the map. |
| Handlers.DisconnectNotifiesEachRemovedRoomOnce | src/index.ts:75-77 | `disconnect(s)` keeps the earlier log as a prefix. It appends only `opponentDisconnected` room notices: exactly one per room containing `s`, and none for any other id. |
| Handlers.DisconnectKeepsConsistent | src/index.ts:71-80 | `disconnect` keeps every room at one or two players and keeps the key order in step with the map. |
| Handlers.Relay | src/index.ts:59-69 | `socket.to(matchId).emit(...)` shared by the three relays. Its own contract: the key order and the rooms are unchanged, and the log gains exactly the one emission addressed to the `matchId` room minus the sender. PlayerStateUpdate, PlayerHit and PlayerAction state what each one sends and who receives it. |
| Handlers.PlayerStateUpdate | src/index.ts:59-61 | The registry is unchanged and the earlier log is a prefix. Exactly one `opponentStateUpdate` carrying the state is appended. It reaches the players of the room named by the client's `matchId`, other than the sender; the sender need not be in that room. |
| Handlers.PlayerHit | src/index.ts:63-65 | The registry is unchanged and the earlier log is a prefix. Exactly one `playerHit` with damage, side and attacker position is appended. It reaches the players of the room named by the client's `matchId`, other than the sender; the sender need not be in that room. |
| Handlers.PlayerAction | src/index.ts:67-69 | The registry is unchanged and the earlier log is a prefix. Exactly one `opponentAction` with action and position is appended. It reaches the players of the room named by the client's `matchId`, other than the sender; the sender need not be in that room. |
| Handlers.StateUpdateIgnoresIsPlayer1 | src/index.ts:59-61 | The `isPlayer1` field of `playerStateUpdate` has no effect on the outcome, routing included. |
| Pairing.TwoJoinsPair | src/index.ts:33-56 | From a registry with no waiting room, and with the first join drawing a fresh id, two joins put the first and second joiner together in the room the first one opened, with one announcement naming them in that order. Afterwards no room waits. |
| Pairing.JoinsPairInArrivalOrder | src/index.ts:33-56 | With no room waiting, any run of joins equals the arrival-order pairing: (1st, 2nd), (3rd, 4th), …. An odd last joiner is left alone. Only the ids the run actually draws (those of the 1st, 3rd, 5th, … joins) must be fresh and distinct. Sockets need not be distinct. |
| Pairing.PairingKeepsOthers | src/index.ts:51 | Pairing leaves every room that no drawn id names untouched and keeps the earlier log as a prefix. |
| Pairing.DrawnTail | src/index.ts:49-50 | The ids a run draws are the first join's id followed by those the rest of the run draws, and distinct drawn ids stay distinct. |
| Pairing.PairedAt | src/index.ts:40-44 | In the arrival-order pairing with distinct drawn ids, joiners 2k and 2k+1 share room `ids[2k]`. The k-th new emission is that room's `matchFound` with them as player1 and player2. |
| Pairing.PairingCounts | src/index.ts:49-56 | The arrival-order pairing announces one match per pair and adds one key to the insertion order per pair or odd joiner. An odd last joiner waits alone in its room. |
| Server.Remove | src/index.ts:77 | `Map.delete` on the key order. Its own contract: the result is no longer and no longer lists the deleted key. RemoveAbsent, RemoveAfter and RemoveOnce state how the other keys are kept. |
| Server.RemoveAbsent | src/index.ts:77 | Deleting an absent key leaves the key order unchanged. |
| Server.RemoveAfter | src/index.ts:77 | Deleting a key that is absent from a prefix leaves that prefix unchanged. |
| Server.RemoveOnce | src/index.ts:77 | Deleting a key that occurs once removes it and keeps the other keys in their order. |
| Server.Walk | src/index.ts:74-79 | The registry after the `disconnect` loop has visited the first `i` keys. Its own contract: no room is added, the key order does not grow, and the log grows by at most `i` entries. WalkSoFar gives its exact value, and WalkIsDisconnect equates the finished walk with Disconnect. |
| Server.VisitOrder | src/index.ts:74-79 | One loop step on the key order: the visited key survives unless its room contains the socket, and the keys ahead stay in place. |
| Server.VisitRooms | src/index.ts:74-79 | One loop step on the map: the visited room is deleted exactly when it contains the socket. |
| Server.VisitStep | src/index.ts:74-79 | One loop step takes the registry after `pre` to the registry after `pre + [x]`. |
| Server.WalkSoFar | src/index.ts:74-79 | After `i` keys, the loop has deleted and notified exactly the visited rooms that contain the socket, in insertion order, and the unvisited keys are untouched. |
| Server.WalkVisitsLiveRoom | src/index.ts:74-75 | Each key the loop reaches is still in the Map, and its room still holds its original players. |
| Server.WalkIsDisconnect | src/index.ts:71-80 | The finished loop is exactly the `disconnect` transition. |
| Server.GameRooms.constructor | src/index.ts:25 | The registry starts empty, with nothing emitted, and is valid. |
| Server.GameRooms.JoinMatchmaking | src/index.ts:30-57 | The loop with `foundMatch` and `break` has exactly the effect of `Handlers.Join` and keeps every room at one or two players. |
| Server.GameRooms.Disconnect | src/index.ts:71-80 | The delete-during-iteration loop has exactly the effect of `Handlers.Disconnect` and keeps the registry valid. |
| Server.GameRooms.PlayerStateUpdate | src/index.ts:59-61 | Has exactly the effect of `Handlers.PlayerStateUpdate` and keeps the registry valid. |
| Server.GameRooms.PlayerHit | src/index.ts:63-65 | Has exactly the effect of `Handlers.PlayerHit` and keeps the registry valid. |
| Server.GameRooms.PlayerAction | src/index.ts:67-69 | Has exactly the effect of `Handlers.PlayerAction` and keeps the registry valid. |

## Left out

- The Express app, the HTTP server, CORS and dotenv configuration, and `listen` (src/index.ts:1-18, 83-86) are wiring with no registry logic.
- The socket.io transport is not modelled.
  - Emissions are appended to a log; delivery is not modelled.
  - socket.io keeps its own room membership. This covers `socket.join` at src/index.ts:36 and 55, the removal of a disconnecting socket from its rooms, and the room every socket has under its own id. The model does not track it: `Recipients` takes a room's members to be its `players`, so a `matchId` that is another socket's id reaches nobody in the model, whereas socket.io delivers to that socket.
  - A socket.io room can outlive the Map entry it was created for. The model does not capture this.
- Room ids drawn with `Math.random().toString(36).substring(7)` (src/index.ts:50) come from floating point and randomness. The id is a parameter of `JoinMatchmaking`.
- `gameState` is always `{}` and never read, so it is the unit value.
- Relay payloads are forwarded without inspection, so they are opaque `Payload` values.
- Handlers.PlayerStateUpdate, Handlers.PlayerHit, Handlers.PlayerAction: model only calls that carry a payload object. The handlers at src/index.ts:59, 63 and 67 destructure their argument. A call with no argument, or with `null`, throws a TypeError before `socket.to` runs, so nothing is emitted; nothing in the source catches it. The model always appends one emission.
- Handlers.Relay, Handlers.PlayerStateUpdate, Handlers.PlayerHit, Handlers.PlayerAction: the model takes `matchId` to be one string. The source passes the client's value to `socket.to` unchecked, and in socket.io 4 `to` also accepts an array of room names, so an array-valued `matchId` reaches the players of every room it lists, minus the sender. The model does not capture that case.
- `console.log` calls are logging only.
- Handlers are not modelled concurrently: each runs to completion on the event loop, so they are sequential method calls.
- The `disconnect` loop iterates over a snapshot of the key order, not a live Map iterator. Each iteration deletes only the entry it has just visited, so the live iterator visits the same keys in the same order.
- A waiting queue, character selection, `characterUpdate`/`startFight`, `healthUpdate`, a cached and clamped health, dropping of events for unknown match ids, and a guard against duplicate matchmaking requests are not modelled, because the code has none of them.
