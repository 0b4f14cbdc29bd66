/** The records the coordinator keeps: rooms, the players in them, the
    summaries it publishes, and the small list operations the handlers apply
    to a room's player sequence. */
module Rooms {
  import opened JsValues

  /** Connection ids come from the transport; room ids from the id generator. */
  type ConnId = string
  type RoomId = string

  /** Length of a match in seconds (six minutes). */
  const GAME_DURATION: int := 360
  /** A room admits at most this many players. */
  const MAX_PLAYERS: nat := 10
  /** Display name used when a client sends no nickname. */
  const DEFAULT_NICKNAME: string := "Desconhecido"

  datatype Option<T> = None | Some(value: T)

  /** The last position a client reported: coordinates and yaw, relayed opaquely. */
  datatype Position = Position(x: int, y: int, z: int, ry: int)

  /** A player entry; `pos` is absent until the first `join` or `move`. */
  datatype Player = Player(id: ConnId, name: Value, pos: Option<Position>)

  /** A room record. The JavaScript fields `gameStarted`, `timeLeft` and
      `inProgress` start out undefined; here they start as false, None, false. */
  datatype Room = Room(
    id: RoomId,
    name: Value,
    password: Value,
    players: seq<Player>,
    createdAt: int,
    gameStarted: bool,
    timeLeft: Option<int>,
    inProgress: bool)

  /** One entry of the room directory. */
  datatype Summary = Summary(
    roomId: RoomId,
    name: Value,
    playerCount: nat,
    maxPlayers: nat,
    hasPassword: bool,
    createdAt: int)

  /** Why `joinRoom` refused a client. */
  datatype JoinError = RoomNotFound | MatchInProgress | RoomFull | WrongPassword

  /** The error text sent back to the client. */
  function Message(e: JoinError): (r: string)
    ensures r != ""
  {
    match e
    case RoomNotFound => "Sala não encontrada"
    case MatchInProgress => "\U{1F6AB} Partida já iniciada! Espere acabar."
    case RoomFull => "Sala Cheia (10/10)!"
    case WrongPassword => "Senha incorreta"
  }

  /** The client tells the four refusals apart by their text alone. */
  lemma MessagesDistinct(e1: JoinError, e2: JoinError)
    ensures Message(e1) == Message(e2) <==> e1 == e2
  {
  }

  /** The capacity quoted in the "room full" text is the one the join gate enforces. */
  lemma FullMessageQuotesCapacity()
    ensures Message(RoomFull) == "Sala Cheia (" + IntToString(MAX_PLAYERS) + "/" + IntToString(MAX_PLAYERS) + ")!"
  {
    assert IntToString(MAX_PLAYERS) == "10";
  }

  /** The shape of the ids `generateRoomId` returns: "room_" and up to nine base-36
      digits. Such an id never starts with a digit, so it is never an array-index key,
      which JavaScript would enumerate ahead of the others. */
  predicate GeneratedId(id: RoomId)
    ensures GeneratedId(id) ==> id != "" && !('0' <= id[0] <= '9')
  {
    |id| >= 5 && id[..5] == "room_"
  }

  /** The entry a client gets when it creates or joins a room. */
  function NewPlayer(c: ConnId, nickname: Value): (p: Player)
    ensures p.id == c && Truthy(p.name) && p.pos == None
    ensures Truthy(nickname) ==> p.name == nickname
    ensures !Truthy(nickname) ==> p.name == Str(DEFAULT_NICKNAME)
  {
    Player(c, Or(nickname, Str(DEFAULT_NICKNAME)), None)
  }

  /** The `joinRoom` password gate: a falsy stored password lets everyone in;
      otherwise both sides are compared after `String(...)`. */
  predicate PasswordAccepts(stored: Value, submitted: Value)
    ensures stored.Num? && submitted.Str? ==>
      (PasswordAccepts(stored, submitted) <==> stored.n == 0 || submitted.s == IntToString(stored.n))
    ensures stored.Str? && submitted.Str? ==>
      (PasswordAccepts(stored, submitted) <==> stored.s == "" || stored.s == submitted.s)
  {
    !(Truthy(stored) && ToStr(stored) != ToStr(submitted))
  }

  /** The stored password itself always opens its room, and a room that refuses
      something has exactly one accepted `String(...)` form. */
  lemma PasswordGate(stored: Value, a: Value, b: Value)
    ensures PasswordAccepts(stored, stored)
    ensures Truthy(stored) && PasswordAccepts(stored, a) && PasswordAccepts(stored, b) ==> ToStr(a) == ToStr(b)
  {
  }

  /** `players.find(p => p.id === c)`: the index of the first entry of `c`. */
  function FirstIndexOf(players: seq<Player>, c: ConnId): (r: Option<nat>)
    ensures r.Some? ==> r.value < |players| && players[r.value].id == c
    ensures r.Some? ==> forall j :: 0 <= j < r.value ==> players[j].id != c
    ensures r.None? <==> forall j :: 0 <= j < |players| ==> players[j].id != c
  {
    if |players| == 0 then None
    else if players[0].id == c then Some(0)
    else match FirstIndexOf(players[1..], c)
      case None => None
      case Some(i) => Some(i + 1)
  }

  /** `players.filter(p => p.id !== c)`. */
  function Without(players: seq<Player>, c: ConnId): (r: seq<Player>)
    ensures forall i :: 0 <= i < |r| ==> r[i].id != c
    ensures forall p :: multiset(r)[p] == if p.id == c then 0 else multiset(players)[p]
    ensures |r| <= |players|
  {
    if |players| == 0 then []
    else
      assert players == [players[0]] + players[1..];
      if players[0].id == c then Without(players[1..], c)
      else [players[0]] + Without(players[1..], c)
  }

  /** `filter` keeps the order: filtering a concatenation filters each part. */
  lemma {:induction false} WithoutAppend(xs: seq<Player>, ys: seq<Player>, c: ConnId)
    ensures Without(xs + ys, c) == Without(xs, c) + Without(ys, c)
    decreases |xs|
  {
    if xs == [] {
      assert xs + ys == ys;
    } else {
      assert (xs + ys)[0] == xs[0];
      assert (xs + ys)[1..] == xs[1..] + ys;
      WithoutAppend(xs[1..], ys, c);
    }
  }

  /** `players.some(p => live.has(p.id))`. */
  predicate HasLivePlayer(players: seq<Player>, live: set<ConnId>)
    ensures HasLivePlayer(players, live) <==> (set p | p in players :: p.id) * live != {}
  {
    var ids := set p | p in players :: p.id;
    assert (exists i :: 0 <= i < |players| && players[i].id in live) ==> ids * live != {} by {
      if exists i :: 0 <= i < |players| && players[i].id in live {
        var i :| 0 <= i < |players| && players[i].id in live;
        assert players[i] in players;
        assert players[i].id in ids * live;
      }
    }
    assert ids * live != {} ==> exists i :: 0 <= i < |players| && players[i].id in live by {
      if ids * live != {} {
        var c :| c in ids * live;
        var p :| p in players && p.id == c;
        var i :| 0 <= i < |players| && players[i] == p;
      }
    }
    exists i :: 0 <= i < |players| && players[i].id in live
  }

  /** The projection a room is published under. */
  function Summarize(room: Room): (s: Summary)
    ensures s.roomId == room.id && s.name == room.name && s.createdAt == room.createdAt
    ensures s.playerCount == |room.players| && s.maxPlayers == MAX_PLAYERS
    ensures s.hasPassword <==> exists v :: !PasswordAccepts(room.password, v)
  {
    assert Truthy(room.password) ==> !PasswordAccepts(room.password, Str(ToStr(room.password) + "?"));
    Summary(room.id, room.name, |room.players|, MAX_PLAYERS, Truthy(room.password), room.createdAt)
  }
}
