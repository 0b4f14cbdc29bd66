# Room coordinator of the multiplayer relay server

`server.js` keeps two in-memory maps behind its socket.io handlers: `rooms`
(room id to a record with name, password, ordered player list, creation time
and the `gameStarted` / `timeLeft` / `inProgress` flags) and `playerRooms`
(connection id to room id). Every handler is a guarded update of these maps:
`createRoom`, `joinRoom` with its four guards, host-only one-shot `startGame`,
the `START_MATCH` / `GAME_OVER` / `RETURNING_TO_LOBBY` lock toggles of
`gameEvent`, the position updates of `join` and `move`, `disconnect`, the
30-second sweep of empty rooms, the orphan sweep and listing of `getRooms`,
and the directory `updateRoomList` publishes.

The project models this core in five modules:

- `JsValues` (js_values.dfy): the client-sent values the handlers inspect
  (undefined, null, booleans, safe integers, strings), JavaScript truthiness,
  `a || b`, and `String(v)` with decimal formatting of integers, proved to
  read back to the number it formats.
- `Rooms` (rooms.dfy): the room, player and summary records, the constants
  (`GAME_DURATION` = 360, capacity 10, default nickname "Desconhecido"), the
  error texts, and the player-list operations `find` and `filter`.
- `Coordinator` (coordinator.dfy): the registry as a value `State(rooms, order,
  playerRooms)`, where `order` is the insertion order in which a JavaScript
  object enumerates its keys, and one transition function per handler
  returning the next state and what the handler reports. Each function's
  contract states the handler's effect and that it preserves `WellFormed`:
  every room is listed once in `order`, and each record's `id` is its key.
- `Server` (server.dfy): class `Registry` with fields `rooms`, `order` and
  `playerRooms`, one method per handler that updates them in place, and the
  two sweeps as `for...in` loops that delete entries while iterating. Each
  method's postcondition is that the new registry and the reply are exactly
  those of the matching `Coordinator` function.
- `Properties` (properties.dfy): lemmas across handlers:
  - well-formedness of every reachable registry;
  - one-shot start;
  - the match lock and the ten-player limit;
  - the `String(...)`-based password comparison;
  - the agreement between `updateRoomList` and `getRooms`;
  - how the connection index drifts from room membership;
  - a scripted session.

## Behaviour of server.js worth knowing

- The connection index and room membership drift apart. `joinRoom` and
  `createRoom` re-point `playerRooms[c]` without removing `c` from the room
  it was in before, and `disconnect` cleans only the indexed room
  (`Properties.JoinKeepsOldMembership`,
  `Properties.DisconnectLeavesStaleEntry`).
- The 30-second timer deletes only rooms without players. A room whose
  players have all lost their connection is deleted only by the `getRooms`
  sweep; `updateRoomList` hides it without deleting it.
- Passwords are compared as `String(stored) !== String(submitted)`. The
  number 1234 and the text "1234" are interchangeable, and the stored text
  "undefined" accepts a join that sends no password
  (`Properties.LiteralUndefinedMatchesMissing`).
- `startGame` sets only `gameStarted` and `timeLeft`. Joins are refused
  only once a client relays `START_MATCH` through `gameEvent`, which sets
  `inProgress` (`Properties.AlphaLock`).
- The capacity test is `players.length >= 10`, so a room is refused as full
  from ten players on.
- `chat` and `skinChange` check only the index entry, so they still
  broadcast to a room that has been deleted, where `join` and `move` return
  early (`Properties.ChatOutlivesRoom`).

## Model

| member | source | states |
|---|---|---|
| JsValues.Or | server.js:110-111 | `a \|\| b` is one of its operands and is truthy whenever the fallback is |
| JsValues.Truthy | server.js:110 | exactly `undefined`, `null`, `false`, `0` and `""` are falsy |
| JsValues.NatToString | server.js:160 | decimal notation: non-empty, digits only, no leading zero, one digit exactly below 10, and reading the digits back gives `n` |
| JsValues.IntToString | server.js:160 | `String(n)` of a safe integer: a minus sign exactly for negative `n`, digits after it, no leading zero, and reading the numeral back gives `n` |
| JsValues.ToStr | server.js:160 | `String(v)`: a text converts to itself, a number to its canonical numeral (no leading zero) denoting it, and only `""` converts to the empty text |
| JsValues.NatToStringInjective | server.js:160 | equal decimal notations come from equal naturals |
| JsValues.IntToStringInjective | server.js:160 | equal `String(n)` forms come from equal integers |
| Rooms.NewPlayer | server.js:110 | the entry carries the connection id, no position, and the nickname when it is truthy, "Desconhecido" otherwise |
| Rooms.Message | server.js:143-161 | each refusal of `joinRoom` has a non-empty error text |
| Rooms.MessagesDistinct | server.js:141-163 | the four refusals of `joinRoom` have four different error texts |
| Rooms.FullMessageQuotesCapacity | server.js:154-157 | the "room full" text quotes the same capacity the guard enforces |
| Rooms.GeneratedId | server.js:25-27 | a generated id starts with "room_", so it is never empty and never starts with a digit |
| Rooms.PasswordAccepts | server.js:159-163 | the join gate: a number admits exactly its own decimal text (or anything when it is 0); a text admits exactly itself (or anything when it is empty) |
| Rooms.PasswordGate | server.js:159-163 | the stored password always opens its room; a password-protected room accepts a single `String(...)` form |
| Rooms.FirstIndexOf | server.js:235 | `find`: the index of the first entry with the connection id, or none exactly when no entry has it |
| Rooms.Without | server.js:334 | `filter`: no entry of the connection remains, every other entry keeps its multiplicity, the list does not grow |
| Rooms.WithoutAppend | server.js:334 | `filter` keeps order: filtering a concatenation is the concatenation of the filtered parts |
| Rooms.HasLivePlayer | server.js:203 | `some`: true exactly when the players' ids and the live connections intersect |
| Rooms.Summarize | server.js:47-54 | the summary carries the room's id, name, creation time and player count, capacity 10, and `hasPassword` exactly when some submitted password would be refused |
| Coordinator.FilterIn | server.js:66-71 | deleting keys during enumeration leaves exactly the surviving keys, once each |
| Coordinator.FilterInAppend | server.js:66-71 | deleting keys keeps the survivors in their order: filtering a concatenation filters each part |
| Coordinator.IndexedRoom | server.js:228-229 | the `if (!roomId) return` guard of `join`, `move`, `chat`, `gameEvent` and `skinChange`: a room exactly when the index entry exists and is truthy; `chat` and `skinChange` broadcast to it |
| Coordinator.CreateRoom | server.js:106-116 | fresh key added at the end of the order; the host is the sole player; password is `password \|\| null`; flags clear; index points the host at the room; old rooms untouched; well-formedness kept |
| Coordinator.JoinRoom | server.js:141-167 | each rejection (not found, in progress, at least 10 players, password mismatch) holds exactly when its guard and no earlier one fires, and leaves the state unchanged; success appends one entry, re-points the index and returns the room name and roster |
| Coordinator.StartGame | server.js:84-98 | starts exactly when the room exists, its first player is the caller and it was not started; then sets `gameStarted` and `timeLeft = 360`; otherwise nothing changes |
| Coordinator.GameEvent | server.js:285-313 | dropped exactly when the sender has no truthy index entry; START_MATCH locks, GAME_OVER and RETURNING_TO_LOBBY unlock, anything else keeps the lock; only `inProgress` of the sender's room can change; a falsy `playerId` becomes the sender's id |
| Coordinator.UpdatePosition | server.js:227-262 | no-op exactly when the sender has no room or the room is gone; otherwise only the first entry of the sender gets the new position and the room is the broadcast target |
| Coordinator.Disconnect | server.js:327-352 | the index entry always goes; the indexed room loses every entry of the connection and is deleted exactly when none remain; other rooms and the order are untouched otherwise |
| Coordinator.DeleteRoom | server.js:340 | `delete rooms[id]`: the key leaves the map and the order; well-formedness kept |
| Coordinator.PeriodicSweep | server.js:64-78 | keeps exactly the rooms with players, unchanged, in their order; `cleaned` is true exactly when some room had no players |
| Coordinator.OrphanSweep | server.js:196-209 | keeps exactly the rooms with a player and a live player, unchanged, in their order |
| Coordinator.RoomList | server.js:211-220 | every summary has players and capacity 10; when every key names a room with players, there is one summary per key, in order |
| Coordinator.Directory | server.js:31-54 | every published summary has players and capacity 10; every room with a live player is published |
| Coordinator.GetRooms | server.js:192-224 | the next state is the orphan sweep; the list has one summary per remaining room, in enumeration order |
| Server.Registry.constructor | server.js:22-23 | the registry starts empty and well formed |
| Server.Registry.CreateRoom | server.js:101-135 | in-place update equal to `Coordinator.CreateRoom`; validity kept |
| Server.Registry.JoinRoom | server.js:138-189 | guards with early returns, then push and index update; equal to `Coordinator.JoinRoom` |
| Server.Registry.StartGame | server.js:84-98 | equal to `Coordinator.StartGame` |
| Server.Registry.GameEvent | server.js:285-313 | equal to `Coordinator.GameEvent` |
| Server.Registry.JoinGame | server.js:227-246 | `join` puts the sender's entry at the origin, equal to `Coordinator.UpdatePosition` |
| Server.Registry.Move | server.js:249-269 | `move` stores the reported position, equal to `Coordinator.UpdatePosition` |
| Server.Registry.SetPosition | server.js:228-241 | shared lookup and in-place field update of `join` and `move` |
| Server.Registry.Disconnect | server.js:327-352 | filter, conditional delete and index removal, equal to `Coordinator.Disconnect` |
| Server.Registry.Delete | server.js:70 | `delete rooms[roomId]` on the registry, equal to `Coordinator.DeleteRoom` |
| Server.Registry.PeriodicSweep | server.js:64-78 | the `for...in` loop deleting empty rooms and setting `cleaned`, equal to `Coordinator.PeriodicSweep` |
| Server.Registry.GetRooms | server.js:192-224 | the `for...in` orphan sweep followed by the listing, equal to `Coordinator.GetRooms` |
| Properties.Apply | server.js:81-352 | every handler, applied to a well-formed registry, leaves it well formed |
| Properties.RunPreservesWellFormed | server.js:81-352 | any enabled sequence of handlers keeps the registry well formed |
| Properties.ReachableWellFormed | server.js:22-23 | every registry reachable from the empty maps is well formed |
| Properties.StartGameOnce | server.js:88-90 | after a successful start, a second `startGame` on the room by anyone is refused and changes nothing |
| Properties.StartGameHostOnly | server.js:88 | a caller other than the first player never starts the room |
| Properties.StartedStays | server.js:90-91 | no handler clears `gameStarted` or changes `timeLeft` of a started room it keeps |
| Properties.StartMatchLocksRoom | server.js:290-296 | after START_MATCH from a member of an existing room, every join to it is refused with the in-progress error and changes nothing |
| Properties.GameOverUnlocksRoom | server.js:299-305 | after GAME_OVER, a joiner with the right password gets into a room with a free slot |
| Properties.TenthJoinsEleventhRefused | server.js:154-157 | with nine players the next join succeeds with a roster of ten, and the one after is refused as full |
| Properties.CapacityKept | server.js:154-157 | if no room has more than ten players, no single handler produces one that does |
| Properties.RunKeepsCapacity | server.js:154-157 | any enabled sequence of handlers keeps every room at ten players or fewer |
| Properties.ReachableCapacity | server.js:22-23 | no registry reachable from the empty maps has a room with more than ten players |
| Properties.NumericPasswordExact | server.js:160 | a room with a non-zero numeric password admits exactly the same number |
| Properties.NumberAndTextAgree | server.js:160 | for every non-zero safe integer, the number and its decimal text open each other's rooms |
| Properties.ZeroPaddedTextRefused | server.js:160 | a room with a positive numeric password refuses the zero-padded text of that number |
| Properties.RefusalTextNamesGuard | server.js:141-163 | the error text of a refused join names the guard that fired: not found, in progress, full or wrong password, each exactly when its guard fired |
| Properties.Password1234 | server.js:160 | 1234 and "1234" are interchangeable; "1235" and a missing password are refused |
| Properties.FalsyPasswordIsOpen | server.js:160 | a falsy stored password admits any submission |
| Properties.TruthyPasswordCompares | server.js:160 | a truthy stored password admits exactly the submissions with the same `String(...)` form |
| Properties.OpenRoomAdmitsAnyone | server.js:110 | a falsy password is stored as `null`, and the fresh room admits the next joiner whatever it sends |
| Properties.LiteralUndefinedMatchesMissing | server.js:160 | the stored text "undefined" admits a join without password, "null" admits `null` |
| Properties.DirectoryMatchesGetRooms | server.js:31-54 | the `updateRoomList` directory equals the list `getRooms` sends after its sweep |
| Properties.DirectoryIsListOfAttended | server.js:31-54 | hiding abandoned rooms equals deleting them and then listing rooms with players, for any key sequence |
| Properties.GetRoomsListing | server.js:211-220 | each sent summary has the room's key as id, its player count (positive), capacity 10, the password flag, and a live player behind it |
| Properties.JoinKeepsOldMembership | server.js:166-167 | a successful join re-points the index while the client's entry in its previous room stays |
| Properties.ChatFollowsGameEvent | server.js:271-282 | `chat` and `skinChange` are dropped exactly when `gameEvent` is, and otherwise reach the same room |
| Properties.ChatOutlivesRoom | server.js:316-324 | with the indexed room deleted, `chat` and `skinChange` still target it while `join` and `move` change nothing and a disconnect finds no room |
| Properties.ChatFollowsLatestRoom | server.js:114-115 | after `createRoom`, and after a successful join of that room, the client's messages go to that room |
| Properties.ChatSilencedByDisconnect | server.js:351 | after a disconnect nothing from that connection is relayed |
| Properties.DisconnectLeavesStaleEntry | server.js:328-351 | a disconnect removes the index entry but leaves a room the client is in, but not indexed under, unchanged |
| Properties.DisconnectKeepsHost | server.js:333-345 | a non-host leaving a room that stays keeps the host at index 0 |
| Properties.StaleRoomSwept | server.js:203-207 | the `getRooms` sweep keeps a room exactly when one of its entries is live |
| Properties.AlphaJoin | server.js:141-185 | in the scripted session the text "1234" opens the room created with 1234, and the roster is host then guest |
| Properties.AlphaStart | server.js:88-91 | the guest cannot start the game, the host can, with 360 seconds on the clock |
| Properties.AlphaLock | server.js:290-296 | after START_MATCH the late joiner is refused with the in-progress error |
| Properties.AlphaReopen | server.js:299-305 | after GAME_OVER the late joiner gets in as the third player |

## Left out

- Transport: `socket.join`, every `emit` and `io.to(...)` fan-out, and the
  payloads they carry. Handlers report what they decided (join reply, relay
  target, departure kind, start flag, summary list), not the messages.
- Express, http, CORS and `server.listen`: bootstrap only.
- `generateRoomId` uses `Math.random`. `createRoom` instead takes the id as a
  parameter, with the precondition that the id is not already a key and has
  the generator's "room_" prefix. Only such ids reach the enumeration order.
  So the model does not capture JavaScript listing integer-like keys such
  as "7" ahead of the others.
- `new Date()`: `createdAt` is an integer supplied by the caller.
- The `setInterval` scheduling. Only the body of the timer callback is
  modelled.
- `io.sockets.sockets.has`: the set of live connection ids is a parameter.
- `console.log` / `console.warn` output.
- Values the handlers never inspect: chat text, skin ids and
  `userData.name` are relayed unmodelled. Positions are four integers; the
  model does not capture the missing or non-numeric coordinates a client
  could send.
- Numbers beyond `Number.MAX_SAFE_INTEGER` (2^53 - 1) in either direction.
  JSON parsing rounds them, and from 10^21 on `String(n)` uses exponent
  form. Only safe integers are modelled, so `JsValues.IntToString` and
  `Properties.NumberAndTextAgree` say nothing about larger numbers.
- Objects, arrays and non-integral numbers as client values. The same goes
  for room ids that are not strings, and keys that hit `Object.prototype`
  (such as "constructor"). Such keys make `rooms[roomId]` truthy for a
  missing room and would crash `joinRoom`.
- The `!room.players` test of the sweeps and of `updateRoomList`. The
  handlers never store a room without a player list, so only the length
  test is modelled.
- Payloads that are not objects. With `null` or `undefined` as payload, the
  handler throws a TypeError at its first field access and stops there. That
  happens at the destructuring of `createRoom` (server.js:102) and of
  `joinRoom` (server.js:139), at `payload.action` in `gameEvent`
  (server.js:290), and at `data.x` in `move` (server.js:258). `chat` and
  `skinChange` throw only at the broadcast (server.js:279, 322). `join`
  throws at `userData.name` (server.js:244), after it has already reset the
  position. The model's transitions are those of object payloads. In every
  throwing case the state change before the throw is the modelled one, or
  none at all.
- Concurrency: handlers run one at a time, as on the Node.js event loop.
- Server.Registry.PeriodicSweep and Server.Registry.GetRooms iterate over a
  copy of the key order taken before the loop. Deleting the current key of
  a `for...in` never skips or revisits another key, so this matches.
- Coordinator.Directory: its own contract says only that its entries have
  players and that every attended room is published. The exact contents
  follow from Properties.DirectoryMatchesGetRooms.
- Coordinator.RoomList: its own contract pins the list down only when every
  key names a room with players. That is the case after the `getRooms`
  sweep, where Coordinator.GetRooms states it.
- Properties.StartedStays is stated per handler. A deleted room's id could
  be handed out again by `createRoom` with fresh flags, so it does not hold
  over whole runs. (Capacity does hold over runs:
  `Properties.RunKeepsCapacity`.)
