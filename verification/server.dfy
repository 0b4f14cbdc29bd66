/** The coordinator as the server runs it: one mutable registry whose handlers
    update `rooms` and `playerRooms` in place. Each handler is proved to leave the
    registry in exactly the state the matching transition of module Coordinator
    describes, and to report what that transition reports. */
module Server {
  import opened JsValues
  import opened Rooms
  import opened Coordinator

  class Registry {
    /** Room id to room record. */
    var rooms: map<RoomId, Room>
    /** The order in which `for (const roomId in rooms)` visits the keys. */
    var order: seq<RoomId>
    /** Connection id to the room it was last put in. */
    var playerRooms: map<ConnId, RoomId>

    function Snapshot(): State
      reads this
    {
      State(rooms, order, playerRooms)
    }

    ghost predicate Valid()
      reads this
    {
      WellFormed(Snapshot())
    }

    constructor ()
      ensures Valid() && Snapshot() == EMPTY
    {
      rooms, order, playerRooms := map[], [], map[];
    }

    /** `createRoom`, with the generated id passed in as `id`. */
    method CreateRoom(c: ConnId, id: RoomId, roomName: Value, password: Value, nickname: Value, now: int)
      requires Valid() && id !in rooms && GeneratedId(id)
      modifies this
      ensures Valid()
      ensures Snapshot() == Coordinator.CreateRoom(old(Snapshot()), c, id, roomName, password, nickname, now)
    {
      var room := Room(id, roomName, Or(password, Null), [NewPlayer(c, nickname)], now, false, None, false);
      rooms := rooms[id := room];
      order := order + [id];
      playerRooms := playerRooms[c := id];
    }

    /** `joinRoom`: the guards in the order the handler runs them, then the append. */
    method JoinRoom(c: ConnId, roomId: RoomId, password: Value, nickname: Value) returns (reply: JoinReply)
      requires Valid()
      modifies this
      ensures Valid()
      ensures Step(Snapshot(), reply) == Coordinator.JoinRoom(old(Snapshot()), c, roomId, password, nickname)
    {
      if roomId !in rooms {
        return Rejected(RoomNotFound);
      }
      var room := rooms[roomId];
      if room.inProgress {
        return Rejected(MatchInProgress);
      }
      if |room.players| >= MAX_PLAYERS {
        return Rejected(RoomFull);
      }
      if Truthy(room.password) && ToStr(room.password) != ToStr(password) {
        return Rejected(WrongPassword);
      }
      room := room.(players := room.players + [NewPlayer(c, nickname)]);
      rooms := rooms[roomId := room];
      playerRooms := playerRooms[c := roomId];
      reply := Joined(room.name, room.players);
    }

    /** `startGame`: `started` says whether `gameStart` goes out to the room. */
    method StartGame(c: ConnId, roomId: RoomId) returns (started: bool)
      requires Valid()
      modifies this
      ensures Valid()
      ensures Step(Snapshot(), started) == Coordinator.StartGame(old(Snapshot()), c, roomId)
    {
      started := false;
      if roomId in rooms {
        var room := rooms[roomId];
        if |room.players| > 0 && room.players[0].id == c && !room.gameStarted {
          rooms := rooms[roomId := room.(gameStarted := true, timeLeft := Some(GAME_DURATION))];
          started := true;
        }
      }
    }

    /** `gameEvent`: the two lock toggles, then the relay with `playerId` defaulted. */
    method GameEvent(c: ConnId, action: Value, playerId: Value) returns (relay: Relay)
      requires Valid()
      modifies this
      ensures Valid()
      ensures Step(Snapshot(), relay) == Coordinator.GameEvent(old(Snapshot()), c, action, playerId)
    {
      if c !in playerRooms || playerRooms[c] == "" {
        return Dropped;
      }
      var roomId := playerRooms[c];
      if action == Str("START_MATCH") && roomId in rooms {
        rooms := rooms[roomId := rooms[roomId].(inProgress := true)];
      }
      if (action == Str("GAME_OVER") || action == Str("RETURNING_TO_LOBBY")) && roomId in rooms {
        rooms := rooms[roomId := rooms[roomId].(inProgress := false)];
      }
      var sender := playerId;
      if !Truthy(sender) {
        sender := Str(c);
      }
      relay := Relayed(roomId, sender);
    }

    /** `join`: the sender's entry is put at the origin. */
    method JoinGame(c: ConnId) returns (target: Option<RoomId>)
      requires Valid()
      modifies this
      ensures Valid()
      ensures Step(Snapshot(), target) == UpdatePosition(old(Snapshot()), c, ORIGIN)
    {
      target := SetPosition(c, ORIGIN);
    }

    /** `move`: the sender's entry takes the reported position. */
    method Move(c: ConnId, pos: Position) returns (target: Option<RoomId>)
      requires Valid()
      modifies this
      ensures Valid()
      ensures Step(Snapshot(), target) == UpdatePosition(old(Snapshot()), c, pos)
    {
      target := SetPosition(c, pos);
    }

    /** What `join` and `move` share: find the sender's entry and overwrite its position. */
    method SetPosition(c: ConnId, pos: Position) returns (target: Option<RoomId>)
      requires Valid()
      modifies this
      ensures Valid()
      ensures Step(Snapshot(), target) == UpdatePosition(old(Snapshot()), c, pos)
    {
      if c !in playerRooms || playerRooms[c] == "" {
        return None;
      }
      var roomId := playerRooms[c];
      if roomId !in rooms {
        return None;
      }
      var room := rooms[roomId];
      var found := FirstIndexOf(room.players, c);
      if found.Some? {
        var i := found.value;
        rooms := rooms[roomId := room.(players := room.players[i := room.players[i].(pos := Some(pos))])];
      }
      target := Some(roomId);
    }

    /** `disconnect`: filter the player out, delete the room if it emptied, drop the index entry. */
    method Disconnect(c: ConnId) returns (departure: Departure)
      requires Valid()
      modifies this
      ensures Valid()
      ensures Step(Snapshot(), departure) == Coordinator.Disconnect(old(Snapshot()), c)
    {
      ghost var st := Snapshot();
      ghost var spec := Coordinator.Disconnect(st, c);
      departure := NotInRoom;
      if c in playerRooms && playerRooms[c] != "" && playerRooms[c] in rooms {
        var roomId := playerRooms[c];
        var room := rooms[roomId];
        room := room.(players := Without(room.players, c));
        rooms := rooms[roomId := room];
        if |room.players| == 0 {
          assert DeleteRoom(Snapshot(), roomId) == DeleteRoom(st, roomId) by {
            assert rooms - {roomId} == st.rooms - {roomId};
          }
          Delete(roomId);
          departure := RoomDeleted(roomId);
        } else {
          departure := PlayerLeft(roomId);
        }
      }
      playerRooms := playerRooms - {c};
    }

    /** `delete rooms[roomId]`: the key leaves both the map and its enumeration order. */
    method Delete(roomId: RoomId)
      modifies this
      ensures Snapshot() == DeleteRoom(old(Snapshot()), roomId)
    {
      rooms := rooms - {roomId};
      order := FilterIn(order, rooms.Keys);
    }

    /** The body of the 30-second timer: delete every room without players. */
    method PeriodicSweep() returns (cleaned: bool)
      requires Valid()
      modifies this
      ensures Valid()
      ensures Step(Snapshot(), cleaned) == Coordinator.PeriodicSweep(old(Snapshot()))
    {
      ghost var st := Snapshot();
      ghost var keep := Occupied(st.rooms);
      ghost var unvisited := rooms.Keys;
      RestrictAll(st, keep);
      cleaned := false;
      var keys := order;
      var i := 0;
      PendingAll(st);
      while i < |keys|
        invariant Pending(keys, i, unvisited)
        invariant Snapshot() == Restrict(st, unvisited + keep)
        invariant cleaned == (rooms.Keys != st.rooms.Keys)
      {
        var roomId := keys[i];
        SweepStep(st, unvisited, keep, roomId);
        assert roomId in keep <==> |st.rooms[roomId].players| > 0;
        ghost var before := Snapshot();
        var room := rooms[roomId];
        if |room.players| == 0 {
          Delete(roomId);
          assert roomId !in rooms;
          cleaned := true;
        } else {
          assert Snapshot() == before;
        }
        PendingNext(keys, i, unvisited);
        unvisited := unvisited - {roomId};
        i := i + 1;
      }
      assert unvisited + keep == keep;
    }

    /** The sweep and listing of `getRooms`; `live` stands for the transport's
        set of connected sockets. */
    method GetRooms(live: set<ConnId>) returns (list: seq<Summary>)
      requires Valid()
      modifies this
      ensures Valid()
      ensures Step(Snapshot(), list) == Coordinator.GetRooms(old(Snapshot()), live)
    {
      ghost var st := Snapshot();
      ghost var keep := Attended(st.rooms, live);
      ghost var unvisited := rooms.Keys;
      RestrictAll(st, keep);
      var keys := order;
      var i := 0;
      PendingAll(st);
      while i < |keys|
        invariant Pending(keys, i, unvisited)
        invariant Snapshot() == Restrict(st, unvisited + keep)
      {
        var roomId := keys[i];
        SweepStep(st, unvisited, keep, roomId);
        assert roomId in keep <==> !Abandoned(st.rooms[roomId], live);
        ghost var before := Snapshot();
        var room := rooms[roomId];
        if |room.players| == 0 {
          Delete(roomId);
        } else if !HasLivePlayer(room.players, live) {
          Delete(roomId);
        } else {
          assert Snapshot() == before;
        }
        PendingNext(keys, i, unvisited);
        unvisited := unvisited - {roomId};
        i := i + 1;
      }
      assert unvisited + keep == keep;
      assert Snapshot() == OrphanSweep(st, live);
      list := RoomList(order, rooms);
    }
  }

  /** The keys a sweep has yet to visit: exactly the entries of `keys` from the
      cursor `i` on. */
  ghost predicate Pending(keys: seq<RoomId>, i: int, unvisited: set<RoomId>) {
    && 0 <= i <= |keys|
    && NoDuplicates(keys)
    && |unvisited| == |keys| - i
    && (forall j :: i <= j < |keys| ==> keys[j] in unvisited)
  }

  /** A sweep starts with every room of a well-formed registry pending. */
  lemma PendingAll(st: State)
    requires WellFormed(st)
    ensures Pending(st.order, 0, st.rooms.Keys)
  {
    CountOrder(st);
  }

  /** Visiting the key under the cursor removes exactly that key from the pending set. */
  lemma PendingNext(keys: seq<RoomId>, i: int, unvisited: set<RoomId>)
    requires Pending(keys, i, unvisited) && i < |keys|
    ensures Pending(keys, i + 1, unvisited - {keys[i]})
  {
  }

  /** Before a sweep deletes anything, the registry is its own restriction to all
      its keys, whatever else is kept. */
  lemma RestrictAll(st: State, keep: set<RoomId>)
    requires WellFormed(st)
    ensures Restrict(st, st.rooms.Keys + keep) == st
  {
    FilterInAll(st.order, st.rooms.Keys);
    assert Restrict(st, st.rooms.Keys + keep).rooms == st.rooms;
  }

  /** One iteration of a sweep: the room under the cursor is still as it was, and
      visiting it either keeps the registry or deletes exactly that room. */
  lemma SweepStep(st: State, unvisited: set<RoomId>, keep: set<RoomId>, k: RoomId)
    requires k in unvisited && k in st.rooms
    ensures k in Restrict(st, unvisited + keep).rooms
    ensures Restrict(st, unvisited + keep).rooms[k] == st.rooms[k]
    ensures k in keep ==> Restrict(st, (unvisited - {k}) + keep) == Restrict(st, unvisited + keep)
    ensures k !in keep ==> Restrict(st, (unvisited - {k}) + keep) == DeleteRoom(Restrict(st, unvisited + keep), k)
  {
    if k in keep {
      assert (unvisited - {k}) + keep == unvisited + keep;
    } else {
      assert (unvisited - {k}) + keep == (unvisited + keep) - {k};
      RestrictDelete(st, unvisited + keep, k);
    }
  }

  /** Deleting one more room during a sweep: `delete rooms[k]` leaves the
      restriction to one key fewer. */
  lemma RestrictDelete(st: State, keep: set<RoomId>, k: RoomId)
    ensures DeleteRoom(Restrict(st, keep), k) == Restrict(st, keep - {k})
  {
    var r1 := Restrict(st, keep).rooms;
    var r2 := Restrict(st, keep - {k}).rooms;
    assert r1 - {k} == r2;
    FilterInTwice(st.order, r1.Keys, r2.Keys);
    assert r1.Keys * r2.Keys == r2.Keys;
  }

}
