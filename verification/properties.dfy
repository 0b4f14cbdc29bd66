/** What the coordinator guarantees across handlers: the well-formedness of every
    reachable registry, the one-shot start, the match lock, the capacity limit,
    the password comparison, the agreement of the two published room lists, and
    the places where the connection index and room membership drift apart. */
module Properties {
  import opened JsValues
  import opened Rooms
  import opened Coordinator

  /** One handler invocation, with everything the transport or the clock supplies. */
  datatype Event =
    | OnCreateRoom(c: ConnId, id: RoomId, roomName: Value, password: Value, nickname: Value, now: int)
    | OnJoinRoom(c: ConnId, roomId: RoomId, password: Value, nickname: Value)
    | OnGetRooms(live: set<ConnId>)
    | OnJoin(c: ConnId)
    | OnMove(c: ConnId, pos: Position)
    | OnGameEvent(c: ConnId, action: Value, playerId: Value)
    | OnStartGame(c: ConnId, roomId: RoomId)
    | OnDisconnect(c: ConnId)
    | OnTimer

  /** The id generator never hands out a key already in `rooms`. */
  predicate Enabled(st: State, e: Event) {
    e.OnCreateRoom? ==> e.id !in st.rooms && GeneratedId(e.id)
  }

  /** The registry after one handler has run. */
  function Apply(st: State, e: Event): (t: State)
    requires Enabled(st, e)
    ensures WellFormed(st) ==> WellFormed(t)
  {
    match e
    case OnCreateRoom(c, id, roomName, password, nickname, now) => CreateRoom(st, c, id, roomName, password, nickname, now)
    case OnJoinRoom(c, roomId, password, nickname) => JoinRoom(st, c, roomId, password, nickname).next
    case OnGetRooms(live) => GetRooms(st, live).next
    case OnJoin(c) => UpdatePosition(st, c, ORIGIN).next
    case OnMove(c, pos) => UpdatePosition(st, c, pos).next
    case OnGameEvent(c, action, playerId) => GameEvent(st, c, action, playerId).next
    case OnStartGame(c, roomId) => StartGame(st, c, roomId).next
    case OnDisconnect(c) => Disconnect(st, c).next
    case OnTimer => PeriodicSweep(st).next
  }

  /** Every event of the sequence is enabled when its turn comes. */
  predicate Runnable(st: State, events: seq<Event>)
    decreases |events|
  {
    |events| == 0 || (Enabled(st, events[0]) && Runnable(Apply(st, events[0]), events[1..]))
  }

  /** The registry after the handlers of `events` have run one after the other. */
  function Run(st: State, events: seq<Event>): State
    requires Runnable(st, events)
    decreases |events|
  {
    if |events| == 0 then st else Run(Apply(st, events[0]), events[1..])
  }

  /** Every registry reachable from the empty one is well formed: the enumeration
      order lists each room once and each room carries its own key. */
  lemma {:induction false} RunPreservesWellFormed(st: State, events: seq<Event>)
    requires WellFormed(st) && Runnable(st, events)
    ensures WellFormed(Run(st, events))
    decreases |events|
  {
    if |events| > 0 {
      RunPreservesWellFormed(Apply(st, events[0]), events[1..]);
    }
  }

  lemma ReachableWellFormed(events: seq<Event>)
    requires Runnable(EMPTY, events)
    ensures WellFormed(Run(EMPTY, events))
  {
    RunPreservesWellFormed(EMPTY, events);
  }

  // ------------------------------------------------------------------ startGame

  /** `startGame` is one-shot: once it has started a room, no later call on that
      room, by anyone, starts it again or changes anything. */
  lemma StartGameOnce(st: State, host: ConnId, roomId: RoomId, c: ConnId)
    requires StartGame(st, host, roomId).reply
    ensures var again := StartGame(StartGame(st, host, roomId).next, c, roomId);
      !again.reply && again.next == StartGame(st, host, roomId).next
  {
  }

  /** Only the player at index 0 can start a room. */
  lemma StartGameHostOnly(st: State, c: ConnId, roomId: RoomId)
    requires roomId in st.rooms && |st.rooms[roomId].players| > 0
    requires st.rooms[roomId].players[0].id != c
    ensures StartGame(st, c, roomId) == Step(st, false)
  {
  }

  /** No handler clears `gameStarted` or touches `timeLeft` of a started room
      that it keeps. */
  lemma StartedStays(st: State, e: Event, k: RoomId)
    requires Enabled(st, e)
    requires k in st.rooms && st.rooms[k].gameStarted
    requires k in Apply(st, e).rooms
    ensures Apply(st, e).rooms[k].gameStarted
    ensures Apply(st, e).rooms[k].timeLeft == st.rooms[k].timeLeft
  {
  }

  // --------------------------------------------------------------- match lock

  /** After `START_MATCH` from a member of an existing room, nobody can join it. */
  lemma StartMatchLocksRoom(st: State, c: ConnId, playerId: Value, joiner: ConnId, password: Value, nickname: Value)
    requires IndexedRoom(st, c).Some? && IndexedRoom(st, c).value in st.rooms
    ensures var roomId := IndexedRoom(st, c).value;
      var locked := GameEvent(st, c, Str("START_MATCH"), playerId).next;
      JoinRoom(locked, joiner, roomId, password, nickname) == Step(locked, Rejected(MatchInProgress))
  {
  }

  /** After `GAME_OVER` the lock is gone: a room that had a free slot and whose
      password the joiner knows admits the joiner again. */
  lemma GameOverUnlocksRoom(st: State, c: ConnId, playerId: Value, joiner: ConnId, password: Value, nickname: Value)
    requires IndexedRoom(st, c).Some? && IndexedRoom(st, c).value in st.rooms
    requires var room := st.rooms[IndexedRoom(st, c).value];
      |room.players| < MAX_PLAYERS && PasswordAccepts(room.password, password)
    ensures var roomId := IndexedRoom(st, c).value;
      var open := GameEvent(st, c, Str("GAME_OVER"), playerId).next;
      JoinRoom(open, joiner, roomId, password, nickname).reply.Joined?
  {
  }

  // ----------------------------------------------------------------- capacity

  /** The tenth player gets in; the eleventh is turned away with "Sala Cheia". */
  lemma TenthJoinsEleventhRefused(st: State, roomId: RoomId, c: ConnId, c2: ConnId,
                                  password: Value, password2: Value, nickname: Value, nickname2: Value)
    requires roomId in st.rooms && !st.rooms[roomId].inProgress
    requires |st.rooms[roomId].players| == MAX_PLAYERS - 1
    requires PasswordAccepts(st.rooms[roomId].password, password)
    ensures var first := JoinRoom(st, c, roomId, password, nickname);
      && first.reply.Joined? && |first.reply.players| == MAX_PLAYERS
      && JoinRoom(first.next, c2, roomId, password2, nickname2) == Step(first.next, Rejected(RoomFull))
  {
  }

  /** No room holds more than ten players. */
  ghost predicate WithinCapacity(st: State) {
    forall k :: k in st.rooms ==> |st.rooms[k].players| <= MAX_PLAYERS
  }

  /** One handler never takes a room past ten players when none was past ten
      before: joins stop at ten, a new room has one player, and every other
      handler only removes entries or leaves the roster's length alone. */
  lemma CapacityKept(st: State, e: Event, k: RoomId)
    requires Enabled(st, e)
    requires forall r :: r in st.rooms ==> |st.rooms[r].players| <= MAX_PLAYERS
    requires k in Apply(st, e).rooms
    ensures |Apply(st, e).rooms[k].players| <= MAX_PLAYERS
  {
  }

  /** Any enabled sequence of handlers keeps every room within capacity. */
  lemma {:induction false} RunKeepsCapacity(st: State, events: seq<Event>)
    requires WithinCapacity(st) && Runnable(st, events)
    ensures WithinCapacity(Run(st, events))
    decreases |events|
  {
    if |events| > 0 {
      var t := Apply(st, events[0]);
      forall k | k in t.rooms
        ensures |t.rooms[k].players| <= MAX_PLAYERS
      {
        CapacityKept(st, events[0], k);
      }
      RunKeepsCapacity(t, events[1..]);
    }
  }

  /** No registry reachable from the empty one has a room with more than ten players. */
  lemma ReachableCapacity(events: seq<Event>)
    requires Runnable(EMPTY, events)
    ensures WithinCapacity(Run(EMPTY, events))
  {
    RunKeepsCapacity(EMPTY, events);
  }

  // ----------------------------------------------------------------- passwords

  /** Numeric passwords compare by value: `String(n) !== String(m)` exactly when `n != m`. */
  lemma NumericPasswordExact(n: SafeInt, m: SafeInt)
    requires n != 0
    ensures PasswordAccepts(Num(n), Num(m)) <==> n == m
  {
    if PasswordAccepts(Num(n), Num(m)) {
      IntToStringInjective(n, m);
    }
  }

  /** A room created with the number 1234 and one created with the text "1234"
      both accept either form. */
  lemma NumberAndTextAgree(n: SafeInt)
    requires n != 0
    ensures PasswordAccepts(Num(n), Str(IntToString(n)))
    ensures PasswordAccepts(Str(IntToString(n)), Num(n))
  {
  }

  /** The error text a refused joiner receives names the guard that refused it. */
  lemma RefusalTextNamesGuard(st: State, c: ConnId, roomId: RoomId, password: Value, nickname: Value)
    requires JoinRoom(st, c, roomId, password, nickname).reply.Rejected?
    ensures var text := Message(JoinRoom(st, c, roomId, password, nickname).reply.error);
      && (text == "Sala não encontrada" <==> roomId !in st.rooms)
      && (text == "\U{1F6AB} Partida já iniciada! Espere acabar." <==> roomId in st.rooms && st.rooms[roomId].inProgress)
      && (text == "Sala Cheia (10/10)!" <==>
            roomId in st.rooms && !st.rooms[roomId].inProgress && |st.rooms[roomId].players| >= MAX_PLAYERS)
      && (text == "Senha incorreta" <==>
            roomId in st.rooms && !st.rooms[roomId].inProgress && |st.rooms[roomId].players| < MAX_PLAYERS)
  {
    var e := JoinRoom(st, c, roomId, password, nickname).reply.error;
    MessagesDistinct(e, RoomNotFound);
    MessagesDistinct(e, MatchInProgress);
    MessagesDistinct(e, RoomFull);
    MessagesDistinct(e, WrongPassword);
  }

  lemma Password1234()
    ensures PasswordAccepts(Num(1234), Str("1234")) && PasswordAccepts(Str("1234"), Num(1234))
    ensures !PasswordAccepts(Num(1234), Str("1235")) && !PasswordAccepts(Str("1234"), Undefined)
  {
    assert NatToString(12) == "12";
    assert NatToString(1234) == "1234";
  }

  /** A falsy stored password (`""`, `0`, `false`, `null`, missing) lets everyone in. */
  lemma FalsyPasswordIsOpen(stored: Value, submitted: Value)
    requires !Truthy(stored)
    ensures PasswordAccepts(stored, submitted)
  {
  }

  /** A truthy stored password admits exactly the submissions with the same `String(...)` form. */
  lemma TruthyPasswordCompares(stored: Value, submitted: Value)
    requires Truthy(stored)
    ensures PasswordAccepts(stored, submitted) <==> ToStr(stored) == ToStr(submitted)
  {
  }

  /** `createRoom` stores a falsy password as `null`, so the fresh room admits
      the next joiner whatever password it sends. */
  lemma OpenRoomAdmitsAnyone(st: State, c: ConnId, id: RoomId, roomName: Value, password: Value,
                             nickname: Value, now: int, joiner: ConnId, attempt: Value, nickname2: Value)
    requires id !in st.rooms && GeneratedId(id) && !Truthy(password)
    ensures var created := CreateRoom(st, c, id, roomName, password, nickname, now);
      && created.rooms[id].password == Null
      && JoinRoom(created, joiner, id, attempt, nickname2).reply.Joined?
  {
  }

  /** A number is refused in its zero-padded text form: `String(1234)` is "1234", so
      "01234" does not open a room whose password is the number 1234. */
  lemma ZeroPaddedTextRefused(n: SafeInt)
    requires n > 0
    ensures !PasswordAccepts(Num(n), Str("0" + IntToString(n)))
  {
    var padded := "0" + IntToString(n);
    assert padded[0] == '0' && |padded| >= 2;
  }

  /** Comparing `String(...)` forms lets the text "undefined" match a join that
      sends no password at all, and "null" match an explicit `null`. */
  lemma LiteralUndefinedMatchesMissing()
    ensures PasswordAccepts(Str("undefined"), Undefined)
    ensures PasswordAccepts(Str("null"), Null)
    ensures !PasswordAccepts(Str("secret"), Undefined)
  {
  }

  // ----------------------------------------------------------- published lists

  /** `updateRoomList` and `getRooms` publish the same directory: the rooms that
      `updateRoomList` hides are exactly those the `getRooms` sweep deletes, and
      both lists follow the enumeration order. */
  lemma DirectoryMatchesGetRooms(st: State, live: set<ConnId>)
    ensures Directory(st.order, st.rooms, live) == GetRooms(st, live).reply
  {
    var keep := Attended(st.rooms, live);
    var t := Restrict(st, keep);
    DirectoryIsListOfAttended(st.order, st.rooms, live, t.rooms);
  }

  lemma {:induction false} DirectoryIsListOfAttended(keys: seq<RoomId>, rooms: map<RoomId, Room>,
                                                     live: set<ConnId>, kept: map<RoomId, Room>)
    requires kept == map k | k in rooms && k in Attended(rooms, live) :: rooms[k]
    ensures Directory(keys, rooms, live) == RoomList(FilterIn(keys, kept.Keys), kept)
    decreases |keys|
  {
    if |keys| > 0 {
      var k := keys[0];
      DirectoryIsListOfAttended(keys[1..], rooms, live, kept);
      var rest := FilterIn(keys[1..], kept.Keys);
      if k in rooms && !Abandoned(rooms[k], live) {
        assert k in kept.Keys;
        var f := FilterIn(keys, kept.Keys);
        assert f == [k] + rest;
        assert f[1..] == rest;
      } else {
        assert k !in kept.Keys;
      }
    }
  }

  /** What `getRooms` sends: one summary per remaining room, in enumeration order,
      each with the room's own id and player count, a capacity of ten, the
      password flag, and at least one live player behind it. */
  lemma GetRoomsListing(st: State, live: set<ConnId>)
    requires WellFormed(st)
    ensures var r := GetRooms(st, live);
      forall i :: 0 <= i < |r.reply| ==>
        var room := r.next.rooms[r.next.order[i]];
        && r.reply[i].roomId == r.next.order[i]
        && r.reply[i].playerCount == |room.players| > 0
        && r.reply[i].maxPlayers == MAX_PLAYERS
        && r.reply[i].hasPassword == Truthy(room.password)
        && HasLivePlayer(room.players, live)
  {
  }

  // ----------------------------------------------------- index and membership

  /** `chat` and `skinChange` reach the room `gameEvent` reaches, and are
      dropped exactly when `gameEvent` is. */
  lemma ChatFollowsGameEvent(st: State, c: ConnId, action: Value, playerId: Value)
    ensures IndexedRoom(st, c).None? <==> GameEvent(st, c, action, playerId).reply.Dropped?
    ensures IndexedRoom(st, c).Some? ==> IndexedRoom(st, c).value == GameEvent(st, c, action, playerId).reply.roomId
  {
  }

  /** Unlike `join` and `move`, which return early, `chat` and `skinChange` still
      broadcast to an indexed room that no longer exists. */
  lemma ChatOutlivesRoom(st: State, c: ConnId, pos: Position)
    requires IndexedRoom(st, c).Some? && IndexedRoom(st, c).value !in st.rooms
    ensures UpdatePosition(st, c, pos) == Step(st, None)
    ensures Disconnect(st, c).reply == NotInRoom
  {
  }

  /** After creating a room, or joining one, a client chats in that room. */
  lemma ChatFollowsLatestRoom(st: State, c: ConnId, id: RoomId, roomName: Value, password: Value, nickname: Value, now: int)
    requires id !in st.rooms && GeneratedId(id)
    ensures IndexedRoom(CreateRoom(st, c, id, roomName, password, nickname, now), c) == Some(id)
    ensures var created := CreateRoom(st, c, id, roomName, password, nickname, now);
      forall c2, attempt, nickname2 :: JoinRoom(created, c2, id, attempt, nickname2).reply.Joined? ==>
        IndexedRoom(JoinRoom(created, c2, id, attempt, nickname2).next, c2) == Some(id)
  {
  }

  /** Once a client has disconnected, nothing it sends is relayed any more. */
  lemma ChatSilencedByDisconnect(st: State, c: ConnId)
    ensures IndexedRoom(Disconnect(st, c).next, c) == None
  {
  }

  /** `filter` keeps the order of the players who stay, so a non-host leaving
      leaves the host (the player at index 0, the only one who may start the
      game) in place. */
  lemma DisconnectKeepsHost(st: State, c: ConnId)
    requires Disconnect(st, c).reply.PlayerLeft?
    ensures var id := Disconnect(st, c).reply.roomId;
      var before := st.rooms[id].players;
      |before| > 0 && (before[0].id != c ==> Disconnect(st, c).next.rooms[id].players[0] == before[0])
  {
    var id := Disconnect(st, c).reply.roomId;
    var ps := st.rooms[id].players;
    assert |ps| > 0;
    if ps[0].id != c {
      assert ps == [ps[0]] + ps[1..];
      WithoutAppend([ps[0]], ps[1..], c);
      assert Without([ps[0]], c) == [ps[0]];
    }
  }

  /** `joinRoom` does not take a client out of the room it was in: the index
      moves to the new room while the old room still lists the client. */
  lemma JoinKeepsOldMembership(st: State, c: ConnId, roomId: RoomId, password: Value, nickname: Value, a: RoomId, i: nat)
    requires a in st.rooms && a != roomId && i < |st.rooms[a].players| && st.rooms[a].players[i].id == c
    requires JoinRoom(st, c, roomId, password, nickname).reply.Joined?
    ensures var next := JoinRoom(st, c, roomId, password, nickname).next;
      && next.playerRooms[c] == roomId
      && a in next.rooms && next.rooms[a].players[i].id == c
  {
  }

  /** A stale entry outlives the disconnect: only the indexed room is cleaned. */
  lemma DisconnectLeavesStaleEntry(st: State, c: ConnId, a: RoomId, i: nat)
    requires a in st.rooms && i < |st.rooms[a].players| && st.rooms[a].players[i].id == c
    requires IndexedRoom(st, c).Some? && IndexedRoom(st, c).value != a
    ensures var next := Disconnect(st, c).next;
      && c !in next.playerRooms
      && a in next.rooms && next.rooms[a] == st.rooms[a]
  {
  }

  /** The stale room is only deleted by a `getRooms` sweep, and only once none
      of its remaining entries belongs to a live connection. */
  lemma StaleRoomSwept(st: State, a: RoomId, live: set<ConnId>)
    requires a in st.rooms
    ensures a in GetRooms(st, live).next.rooms <==> HasLivePlayer(st.rooms[a].players, live)
  {
  }

  // --------------------------------------------------------------- a session

  const HOST: ConnId := "h"
  const GUEST: ConnId := "g"
  const LATE: ConnId := "l"
  const ALPHA: RoomId := "room_alpha"

  /** The session of the lemmas below: a host opens "Alpha" with the numeric
      password 1234, a guest joins with the text "1234", the host starts the
      game, the guest's client announces START_MATCH and later the host's
      client announces GAME_OVER. */
  const CREATED: State := CreateRoom(EMPTY, HOST, ALPHA, Str("Alpha"), Num(1234), Str("Ana"), 0)
  const JOINED: Step<JoinReply> := JoinRoom(CREATED, GUEST, ALPHA, Str("1234"), Undefined)
  const STARTED: Step<bool> := StartGame(JOINED.next, HOST, ALPHA)
  const LOCKED: Step<Relay> := GameEvent(STARTED.next, GUEST, Str("START_MATCH"), Undefined)
  const REOPENED: Step<Relay> := GameEvent(LOCKED.next, HOST, Str("GAME_OVER"), Undefined)

  /** The text "1234" opens a room created with the number 1234; the guest
      lands behind the host, named "Desconhecido". */
  lemma AlphaJoin()
    ensures JOINED.reply == Joined(Str("Alpha"), [Player(HOST, Str("Ana"), None), Player(GUEST, Str(DEFAULT_NICKNAME), None)])
    ensures JOINED.next.playerRooms[GUEST] == ALPHA && JOINED.next.playerRooms[HOST] == ALPHA
  {
    assert IntToString(1234) == "1234";
    assert CREATED.rooms[ALPHA].players == [Player(HOST, Str("Ana"), None)];
  }

  /** The guest cannot start the game; the host can, and the clock is set to 360 seconds. */
  lemma AlphaStart()
    ensures !StartGame(JOINED.next, GUEST, ALPHA).reply
    ensures STARTED.reply && STARTED.next.rooms[ALPHA].timeLeft == Some(GAME_DURATION)
    ensures STARTED.next.playerRooms == JOINED.next.playerRooms
    ensures ALPHA in STARTED.next.rooms && |STARTED.next.rooms[ALPHA].players| == 2
  {
    AlphaJoin();
  }

  /** Once the guest's client announces START_MATCH, a late joiner with the
      right password is turned away. */
  lemma AlphaLock()
    ensures LOCKED.reply == Relayed(ALPHA, Str(GUEST))
    ensures JoinRoom(LOCKED.next, LATE, ALPHA, Num(1234), Str("Lu")).reply == Rejected(MatchInProgress)
    ensures IndexedRoom(LOCKED.next, HOST) == Some(ALPHA)
    ensures ALPHA in LOCKED.next.rooms && |LOCKED.next.rooms[ALPHA].players| == 2
    ensures PasswordAccepts(LOCKED.next.rooms[ALPHA].password, Num(1234))
  {
    AlphaJoin();
    AlphaStart();
    assert CREATED.rooms[ALPHA].password == Num(1234);
  }

  /** After GAME_OVER the same late joiner gets in, as the third player. */
  lemma AlphaReopen()
    ensures var retry := JoinRoom(REOPENED.next, LATE, ALPHA, Num(1234), Str("Lu"));
      retry.reply.Joined? && |retry.reply.players| == 3
  {
    AlphaLock();
    GameOverUnlocksRoom(LOCKED.next, HOST, Undefined, LATE, Num(1234), Str("Lu"));
    assert REOPENED.next.rooms[ALPHA].players == LOCKED.next.rooms[ALPHA].players;
  }
}
