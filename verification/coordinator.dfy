/** The room coordinator as a state machine over values: one transition function
    per socket handler, each taking the whole state (`rooms`, the enumeration
    order of its keys, and `playerRooms`) to the next one together with what the
    handler reports back. The class in module Server performs the same updates in
    place and is proved equal to these functions. */
module Coordinator {
  import opened JsValues
  import opened Rooms

  /** `rooms` (room id to record), the order in which a JavaScript object
      enumerates those keys (insertion order), and `playerRooms` (connection id
      to room id). */
  datatype State = State(rooms: map<RoomId, Room>, order: seq<RoomId>, playerRooms: map<ConnId, RoomId>)

  /** A handler's new state together with what it reports. */
  datatype Step<R> = Step(next: State, reply: R)

  /** Outcome of `joinRoom`: the roster sent to the joiner, or the error. */
  datatype JoinReply = Joined(roomName: Value, players: seq<Player>) | Rejected(error: JoinError)

  /** Outcome of `gameEvent`: dropped, or relayed to a room with its `playerId` filled in. */
  datatype Relay = Dropped | Relayed(roomId: RoomId, playerId: Value)

  /** Outcome of a disconnect, as seen by the former room. */
  datatype Departure = NotInRoom | RoomDeleted(roomId: RoomId) | PlayerLeft(roomId: RoomId)

  const EMPTY: State := State(map[], [], map[])
  const ORIGIN: Position := Position(0, 0, 0, 0)

  predicate NoDuplicates(keys: seq<RoomId>) {
    forall i, j :: 0 <= i < j < |keys| ==> keys[i] != keys[j]
  }

  /** What the model keeps true of the registry: the enumeration order lists
      each room id once, and each room record carries its own key as `id`. */
  ghost predicate WellFormed(st: State) {
    && NoDuplicates(st.order)
    && (forall k :: k in st.order <==> k in st.rooms)
    && (forall k :: k in st.rooms ==> st.rooms[k].id == k)
  }

  /** The keys of `keys` that are in `keep`, in their order: what deleting
      the other keys from a JavaScript object leaves of its enumeration order. */
  function FilterIn(keys: seq<RoomId>, keep: set<RoomId>): (r: seq<RoomId>)
    ensures forall k :: k in r <==> k in keys && k in keep
    ensures NoDuplicates(keys) ==> NoDuplicates(r)
    ensures |r| <= |keys|
  {
    if |keys| == 0 then []
    else
      assert forall k :: k in keys <==> k == keys[0] || k in keys[1..];
      if keys[0] in keep then [keys[0]] + FilterIn(keys[1..], keep)
      else FilterIn(keys[1..], keep)
  }

  /** The room a connection is indexed under, when the entry is truthy (`if (!roomId) return`).
      `chat` and `skinChange` broadcast to this room and check nothing else. */
  function IndexedRoom(st: State, c: ConnId): (r: Option<RoomId>)
    ensures r.Some? <==> c in st.playerRooms && Truthy(Str(st.playerRooms[c]))
    ensures r.Some? ==> r.value == st.playerRooms[c]
  {
    if c in st.playerRooms && st.playerRooms[c] != "" then Some(st.playerRooms[c]) else None
  }

  /** True of index `i` when it holds the entry `players.find(p => p.id === c)` returns. */
  predicate IsFirstEntry(players: seq<Player>, i: nat, c: ConnId)
    requires i < |players|
  {
    players[i].id == c && forall j :: 0 <= j < i ==> players[j].id != c
  }

  /** A room the `getRooms` sweep deletes: no players, or none whose connection is live. */
  predicate Abandoned(room: Room, live: set<ConnId>) {
    |room.players| == 0 || !HasLivePlayer(room.players, live)
  }

  // ---------------------------------------------------------------- createRoom

  /** `createRoom`: registers a room under the fresh id `id` whose only player is
      the host, and indexes the host's connection under it. */
  function CreateRoom(st: State, c: ConnId, id: RoomId, roomName: Value, password: Value, nickname: Value, now: int): (t: State)
    requires id !in st.rooms && GeneratedId(id)
    ensures t.rooms.Keys == st.rooms.Keys + {id}
    ensures forall k :: k in st.rooms ==> t.rooms[k] == st.rooms[k]
    ensures t.rooms[id].id == id && t.rooms[id].name == roomName && t.rooms[id].createdAt == now
    ensures t.rooms[id].players == [NewPlayer(c, nickname)]
    ensures Truthy(password) ==> t.rooms[id].password == password
    ensures !Truthy(password) ==> t.rooms[id].password == Null
    ensures !t.rooms[id].gameStarted && !t.rooms[id].inProgress && t.rooms[id].timeLeft == None
    ensures t.playerRooms == st.playerRooms[c := id]
    ensures t.order == st.order + [id]
    ensures WellFormed(st) ==> WellFormed(t)
  {
    var room := Room(id, roomName, Or(password, Null), [NewPlayer(c, nickname)], now, false, None, false);
    State(st.rooms[id := room], st.order + [id], st.playerRooms[c := id])
  }

  // ------------------------------------------------------------------ joinRoom

  /** `joinRoom`: four guards in order, then the joiner is appended to the room. */
  function JoinRoom(st: State, c: ConnId, roomId: RoomId, password: Value, nickname: Value): (r: Step<JoinReply>)
    ensures r.reply == Rejected(RoomNotFound) <==> roomId !in st.rooms
    ensures r.reply == Rejected(MatchInProgress) <==> roomId in st.rooms && st.rooms[roomId].inProgress
    ensures r.reply == Rejected(RoomFull) <==>
      roomId in st.rooms && !st.rooms[roomId].inProgress && |st.rooms[roomId].players| >= MAX_PLAYERS
    ensures r.reply == Rejected(WrongPassword) <==>
      && roomId in st.rooms && !st.rooms[roomId].inProgress && |st.rooms[roomId].players| < MAX_PLAYERS
      && !PasswordAccepts(st.rooms[roomId].password, password)
    ensures r.reply.Rejected? ==> r.next == st
    ensures r.reply.Joined? ==>
      var room := st.rooms[roomId];
      && roomId in st.rooms
      && r.next.rooms == st.rooms[roomId := room.(players := room.players + [NewPlayer(c, nickname)])]
      && r.next.playerRooms == st.playerRooms[c := roomId]
      && r.next.order == st.order
      && r.reply.roomName == room.name
      && r.reply.players == r.next.rooms[roomId].players
    ensures WellFormed(st) ==> WellFormed(r.next)
  {
    if roomId !in st.rooms then Step(st, Rejected(RoomNotFound))
    else
      var room := st.rooms[roomId];
      if room.inProgress then Step(st, Rejected(MatchInProgress))
      else if |room.players| >= MAX_PLAYERS then Step(st, Rejected(RoomFull))
      else if !PasswordAccepts(room.password, password) then Step(st, Rejected(WrongPassword))
      else
        var joined := room.(players := room.players + [NewPlayer(c, nickname)]);
        Step(State(st.rooms[roomId := joined], st.order, st.playerRooms[c := roomId]), Joined(joined.name, joined.players))
  }

  // ----------------------------------------------------------------- startGame

  /** `startGame`: only the host (the player at index 0) starts, and only once. */
  function StartGame(st: State, c: ConnId, roomId: RoomId): (r: Step<bool>)
    ensures r.reply <==>
      && roomId in st.rooms
      && |st.rooms[roomId].players| > 0
      && st.rooms[roomId].players[0].id == c
      && !st.rooms[roomId].gameStarted
    ensures !r.reply ==> r.next == st
    ensures r.reply ==>
      && r.next.rooms == st.rooms[roomId := st.rooms[roomId].(gameStarted := true, timeLeft := Some(GAME_DURATION))]
      && r.next.order == st.order && r.next.playerRooms == st.playerRooms
    ensures WellFormed(st) ==> WellFormed(r.next)
  {
    if roomId in st.rooms && |st.rooms[roomId].players| > 0 && st.rooms[roomId].players[0].id == c
       && !st.rooms[roomId].gameStarted
    then
      var started := st.rooms[roomId].(gameStarted := true, timeLeft := Some(GAME_DURATION));
      Step(st.(rooms := st.rooms[roomId := started]), true)
    else Step(st, false)
  }

  // ----------------------------------------------------------------- gameEvent

  /** `gameEvent`: the action tags lock and unlock the sender's room; the
      payload is relayed with a missing `playerId` filled in. */
  function GameEvent(st: State, c: ConnId, action: Value, playerId: Value): (r: Step<Relay>)
    ensures r.reply.Dropped? <==> IndexedRoom(st, c).None?
    ensures r.reply.Relayed? ==> r.reply.roomId == IndexedRoom(st, c).value
    ensures r.reply.Relayed? && Truthy(playerId) ==> r.reply.playerId == playerId
    ensures r.reply.Relayed? && !Truthy(playerId) ==> r.reply.playerId == Str(c)
    ensures r.next.playerRooms == st.playerRooms && r.next.order == st.order
    ensures r.next.rooms.Keys == st.rooms.Keys
    ensures forall k :: k in st.rooms ==> r.next.rooms[k] == st.rooms[k].(inProgress := r.next.rooms[k].inProgress)
    ensures forall k :: k in st.rooms && (r.reply.Dropped? || k != r.reply.roomId) ==> r.next.rooms[k] == st.rooms[k]
    ensures r.reply.Relayed? && r.reply.roomId in st.rooms ==>
      var locked := r.next.rooms[r.reply.roomId].inProgress;
      && (action == Str("START_MATCH") ==> locked)
      && (action == Str("GAME_OVER") || action == Str("RETURNING_TO_LOBBY") ==> !locked)
      && (action !in {Str("START_MATCH"), Str("GAME_OVER"), Str("RETURNING_TO_LOBBY")} ==>
            locked == st.rooms[r.reply.roomId].inProgress)
    ensures WellFormed(st) ==> WellFormed(r.next)
  {
    match IndexedRoom(st, c)
    case None => Step(st, Dropped)
    case Some(roomId) =>
      var rooms :=
        if roomId in st.rooms && action == Str("START_MATCH") then
          st.rooms[roomId := st.rooms[roomId].(inProgress := true)]
        else if roomId in st.rooms && (action == Str("GAME_OVER") || action == Str("RETURNING_TO_LOBBY")) then
          st.rooms[roomId := st.rooms[roomId].(inProgress := false)]
        else st.rooms;
      Step(st.(rooms := rooms), Relayed(roomId, Or(playerId, Str(c))))
  }

  // -------------------------------------------------------------- join / move

  /** `join` (with `pos` the origin) and `move`: the sender's first entry in its
      room gets the new position. The reply is the room the update is broadcast
      to, or None when the handler returns early. */
  function UpdatePosition(st: State, c: ConnId, pos: Position): (r: Step<Option<RoomId>>)
    ensures r.reply.None? <==> IndexedRoom(st, c).None? || IndexedRoom(st, c).value !in st.rooms
    ensures r.reply.Some? ==> r.reply == IndexedRoom(st, c)
    ensures r.next.playerRooms == st.playerRooms && r.next.order == st.order
    ensures r.next.rooms.Keys == st.rooms.Keys
    ensures forall k :: k in st.rooms && r.reply != Some(k) ==> r.next.rooms[k] == st.rooms[k]
    ensures r.reply.Some? ==>
      var before, after := st.rooms[r.reply.value], r.next.rooms[r.reply.value];
      && after == before.(players := after.players)
      && |after.players| == |before.players|
      && forall i :: 0 <= i < |before.players| ==>
           after.players[i] ==
             if IsFirstEntry(before.players, i, c) then before.players[i].(pos := Some(pos))
             else before.players[i]
    ensures WellFormed(st) ==> WellFormed(r.next)
  {
    match IndexedRoom(st, c)
    case None => Step(st, None)
    case Some(roomId) =>
      if roomId !in st.rooms then Step(st, None)
      else
        var room := st.rooms[roomId];
        match FirstIndexOf(room.players, c)
        case None => Step(st, Some(roomId))
        case Some(i) =>
          var moved := room.(players := room.players[i := room.players[i].(pos := Some(pos))]);
          Step(st.(rooms := st.rooms[roomId := moved]), Some(roomId))
  }

  // ---------------------------------------------------------------- disconnect

  /** `disconnect`: every entry of the connection leaves its indexed room, the
      room goes when nobody is left, and the index entry goes in every case. */
  function Disconnect(st: State, c: ConnId): (r: Step<Departure>)
    ensures r.next.playerRooms == st.playerRooms - {c}
    ensures r.reply.NotInRoom? <==> IndexedRoom(st, c).None? || IndexedRoom(st, c).value !in st.rooms
    ensures r.reply.NotInRoom? ==> r.next.rooms == st.rooms && r.next.order == st.order
    ensures !r.reply.NotInRoom? ==> Some(r.reply.roomId) == IndexedRoom(st, c) && r.reply.roomId in st.rooms
    ensures r.reply.RoomDeleted? ==>
      && Without(st.rooms[r.reply.roomId].players, c) == []
      && r.next.rooms == st.rooms - {r.reply.roomId}
      && r.next.order == FilterIn(st.order, r.next.rooms.Keys)
    ensures r.reply.PlayerLeft? ==>
      var before := st.rooms[r.reply.roomId];
      && Without(before.players, c) != []
      && r.next.rooms == st.rooms[r.reply.roomId := before.(players := Without(before.players, c))]
      && r.next.order == st.order
    ensures WellFormed(st) ==> WellFormed(r.next)
  {
    match IndexedRoom(st, c)
    case None => Step(st.(playerRooms := st.playerRooms - {c}), NotInRoom)
    case Some(roomId) =>
      if roomId !in st.rooms then Step(st.(playerRooms := st.playerRooms - {c}), NotInRoom)
      else
        var room := st.rooms[roomId];
        var remaining := Without(room.players, c);
        if |remaining| == 0 then
          Step(DeleteRoom(st, roomId).(playerRooms := st.playerRooms - {c}), RoomDeleted(roomId))
        else
          Step(State(st.rooms[roomId := room.(players := remaining)], st.order, st.playerRooms - {c}), PlayerLeft(roomId))
  }

  /** `delete rooms[id]`: the record goes, and with it the key from the enumeration order. */
  function DeleteRoom(st: State, id: RoomId): (t: State)
    ensures t.rooms == st.rooms - {id}
    ensures t.order == FilterIn(st.order, t.rooms.Keys)
    ensures t.playerRooms == st.playerRooms
    ensures WellFormed(st) ==> WellFormed(t)
  {
    var rooms := st.rooms - {id};
    State(rooms, FilterIn(st.order, rooms.Keys), st.playerRooms)
  }

  // -------------------------------------------------------------------- sweeps

  /** The rooms of `st` whose keys are in `keep`, everything else as it was. */
  function Restrict(st: State, keep: set<RoomId>): (t: State)
    ensures WellFormed(st) ==> WellFormed(t)
  {
    var rooms := map k | k in st.rooms && k in keep :: st.rooms[k];
    State(rooms, FilterIn(st.order, rooms.Keys), st.playerRooms)
  }

  /** The rooms the periodic sweep keeps. */
  function Occupied(rooms: map<RoomId, Room>): (s: set<RoomId>) {
    set k | k in rooms && |rooms[k].players| > 0
  }

  /** The rooms the `getRooms` sweep keeps. */
  function Attended(rooms: map<RoomId, Room>, live: set<ConnId>): (s: set<RoomId>) {
    set k | k in rooms && !Abandoned(rooms[k], live)
  }

  /** The periodic sweep: deletes exactly the rooms without players; the flag
      says whether anything was deleted. */
  function PeriodicSweep(st: State): (r: Step<bool>)
    ensures forall k :: k in r.next.rooms <==> k in st.rooms && |st.rooms[k].players| > 0
    ensures forall k :: k in r.next.rooms ==> r.next.rooms[k] == st.rooms[k]
    ensures r.next.order == FilterIn(st.order, r.next.rooms.Keys)
    ensures r.next.playerRooms == st.playerRooms
    ensures r.reply <==> exists k :: k in st.rooms && |st.rooms[k].players| == 0
    ensures WellFormed(st) ==> WellFormed(r.next)
  {
    var t := Restrict(st, Occupied(st.rooms));
    assert t.rooms.Keys != st.rooms.Keys <==> exists k :: k in st.rooms && |st.rooms[k].players| == 0 by {
      if !exists k :: k in st.rooms && |st.rooms[k].players| == 0 {
        assert t.rooms.Keys == st.rooms.Keys;
      }
    }
    Step(t, t.rooms.Keys != st.rooms.Keys)
  }

  /** The sweep `getRooms` runs before answering: deletes every abandoned room. */
  function OrphanSweep(st: State, live: set<ConnId>): (t: State)
    ensures forall k :: k in t.rooms <==> k in st.rooms && !Abandoned(st.rooms[k], live)
    ensures forall k :: k in t.rooms ==> t.rooms[k] == st.rooms[k] && HasLivePlayer(t.rooms[k].players, live)
    ensures t.order == FilterIn(st.order, t.rooms.Keys)
    ensures t.playerRooms == st.playerRooms
    ensures WellFormed(st) ==> WellFormed(t)
  {
    Restrict(st, Attended(st.rooms, live))
  }

  /** The `getRooms` list: summaries of the rooms of `keys` that have players, in order. */
  function RoomList(keys: seq<RoomId>, rooms: map<RoomId, Room>): (r: seq<Summary>)
    ensures |r| <= |keys|
    ensures forall i :: 0 <= i < |r| ==> r[i].playerCount > 0 && r[i].maxPlayers == MAX_PLAYERS
    ensures (forall k :: k in keys ==> k in rooms && |rooms[k].players| > 0) ==>
      |r| == |keys| && forall i :: 0 <= i < |keys| ==> r[i] == Summarize(rooms[keys[i]])
  {
    if |keys| == 0 then []
    else
      var rest := RoomList(keys[1..], rooms);
      assert forall k :: k in keys[1..] ==> k in keys;
      if keys[0] in rooms && |rooms[keys[0]].players| > 0 then [Summarize(rooms[keys[0]])] + rest
      else rest
  }

  /** The directory `updateRoomList` publishes: summaries of the rooms of `keys`
      that have players and at least one live player, in order. Abandoned rooms
      are hidden, not deleted. */
  function Directory(keys: seq<RoomId>, rooms: map<RoomId, Room>, live: set<ConnId>): (r: seq<Summary>)
    ensures |r| <= |keys|
    ensures forall i :: 0 <= i < |r| ==> r[i].playerCount > 0 && r[i].maxPlayers == MAX_PLAYERS
    ensures forall k :: k in keys && k in rooms && !Abandoned(rooms[k], live) ==> Summarize(rooms[k]) in r
  {
    if |keys| == 0 then []
    else
      var rest := Directory(keys[1..], rooms, live);
      assert forall k :: k in keys ==> k == keys[0] || k in keys[1..];
      if keys[0] in rooms && !Abandoned(rooms[keys[0]], live) then [Summarize(rooms[keys[0]])] + rest
      else rest
  }

  /** `getRooms`: the orphan sweep, then the list of what is left. */
  function GetRooms(st: State, live: set<ConnId>): (r: Step<seq<Summary>>)
    ensures r.next == OrphanSweep(st, live)
    ensures WellFormed(st) ==>
      |r.reply| == |r.next.order| == |r.next.rooms|
      && forall i :: 0 <= i < |r.reply| ==> r.reply[i] == Summarize(r.next.rooms[r.next.order[i]])
  {
    var t := OrphanSweep(st, live);
    assert WellFormed(st) ==> |t.order| == |t.rooms| by {
      if WellFormed(st) { CountOrder(t); }
    }
    Step(t, RoomList(t.order, t.rooms))
  }

  // ------------------------------------------------------------ order lemmas

  lemma {:induction false} FilterInAll(keys: seq<RoomId>, keep: set<RoomId>)
    requires forall k :: k in keys ==> k in keep
    ensures FilterIn(keys, keep) == keys
  {
    if |keys| > 0 {
      assert keys[0] in keep by { assert keys[0] in keys; }
      assert forall k :: k in keys[1..] ==> k in keys;
      FilterInAll(keys[1..], keep);
      assert keys == [keys[0]] + keys[1..];
    }
  }

  /** Deleting keys keeps the survivors in their order: filtering a concatenation
      filters each part. */
  lemma {:induction false} FilterInAppend(xs: seq<RoomId>, ys: seq<RoomId>, keep: set<RoomId>)
    ensures FilterIn(xs + ys, keep) == FilterIn(xs, keep) + FilterIn(ys, keep)
    decreases |xs|
  {
    if xs == [] {
      assert xs + ys == ys;
    } else {
      assert (xs + ys)[0] == xs[0];
      assert (xs + ys)[1..] == xs[1..] + ys;
      FilterInAppend(xs[1..], ys, keep);
    }
  }

  lemma {:induction false} FilterInTwice(keys: seq<RoomId>, a: set<RoomId>, b: set<RoomId>)
    ensures FilterIn(FilterIn(keys, a), b) == FilterIn(keys, a * b)
  {
    if |keys| > 0 {
      FilterInTwice(keys[1..], a, b);
      if keys[0] in a {
        assert FilterIn(keys, a)[1..] == FilterIn(keys[1..], a);
      }
    }
  }

  /** In a well-formed state there are as many keys in the order as rooms. */
  lemma CountOrder(st: State)
    requires WellFormed(st)
    ensures |st.order| == |st.rooms|
  {
    DistinctCount(st.order, st.rooms.Keys);
  }

  lemma {:induction false} DistinctCount(keys: seq<RoomId>, s: set<RoomId>)
    requires NoDuplicates(keys)
    requires forall k :: k in keys <==> k in s
    ensures |keys| == |s|
  {
    if |keys| > 0 {
      assert forall k :: k in keys[1..] <==> k in s - {keys[0]};
      DistinctCount(keys[1..], s - {keys[0]});
    }
  }
}
