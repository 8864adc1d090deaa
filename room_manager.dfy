/** Room lifecycle over an in-memory store of rooms, players and per-room game
    states: room codes, creating and joining rooms, leaving with host failover,
    starting, ending and restarting games, connection updates and test bots.

    The store's record ids, the timestamps the database would stamp and the
    random draws are parameters of the operations. Deleting a room deletes its
    players and its game state with it. */
module RoomManager {
  import opened Wrappers
  import opened GameTypes
  import opened Text
  import opened GameGenerator
  import opened GamesLibrary

  const MaxPlayers := 10
  const CodeLength := 6
  const CodeAttempts := 10
  const CodeChars := "ABCDEFGHIJKLMNOPQRSTUVWXYZ0123456789"

  /*************************************************************************
   * Room codes
   *************************************************************************/

  /** The draws of one code: one `Math.random()` per character. */
  predicate CodeDraws(draws: seq<real>) {
    |draws| == CodeLength && forall i :: 0 <= i < |draws| ==> IsDraw(draws[i])
  }

  /** The code the draws select: six characters of `A-Z0-9`. */
  function CodeOf(draws: seq<real>): (code: string)
    requires CodeDraws(draws)
    ensures |code| == CodeLength
    ensures forall i :: 0 <= i < |code| ==> code[i] == CodeChars[Pick(draws[i], |CodeChars|)]
  {
    seq(CodeLength, i requires 0 <= i < CodeLength => CodeChars[Pick(draws[i], |CodeChars|)])
  }

  /** `generateRoomCode`: the code is built by appending one drawn character at a time. */
  method GenerateRoomCode(draws: seq<real>) returns (code: string)
    requires CodeDraws(draws)
    ensures code == CodeOf(draws)
  {
    code := "";
    for i := 0 to CodeLength
      invariant |code| == i
      invariant forall k :: 0 <= k < i ==> code[k] == CodeChars[Pick(draws[k], |CodeChars|)]
    {
      code := code + [CodeChars[Pick(draws[i], |CodeChars|)]];
    }
  }

  /** Every character of a code is an upper-case letter or a digit, which
      `toUpperCase` leaves alone: a generated code matches itself typed in any case. */
  lemma UpperCodeIsCode(draws: seq<real>)
    requires CodeDraws(draws)
    ensures ToUpper(CodeOf(draws)) == CodeOf(draws)
  {
    var code := CodeOf(draws);
    forall i | 0 <= i < |code| ensures UpperChar(code[i]) == code[i] {
      var k := Pick(draws[i], |CodeChars|);
      assert code[i] == CodeChars[k];
    }
  }

  /*************************************************************************
   * Store-level definitions
   *************************************************************************/

  predicate CodeInUse(rooms: map<string, Room>, code: string) {
    exists id :: id in rooms && rooms[id].code == code
  }

  /** The ids of the player records of a room. */
  function Members(players: map<string, Player>, roomId: string): set<string> {
    set id | id in players && players[id].roomId == roomId
  }

  /** The ids of the connected player records of a room. */
  function ConnectedMembers(players: map<string, Player>, roomId: string): (r: set<string>)
    ensures r <= Members(players, roomId)
  {
    set id | id in players && players[id].roomId == roomId && players[id].connected
  }

  /** A record of `userId` exists in the room. */
  predicate HasRecord(players: map<string, Player>, roomId: string, userId: string) {
    exists id :: id in players && players[id].roomId == roomId && players[id].userId == userId
  }

  /** Every room is stored under its own id. */
  predicate RoomsKeyed(rooms: map<string, Room>) {
    forall id :: id in rooms ==> rooms[id].id == id
  }

  /** No two rooms share a code. */
  predicate CodesUnique(rooms: map<string, Room>) {
    forall a, b :: a in rooms && b in rooms && a != b ==> rooms[a].code != rooms[b].code
  }

  /** Every player is stored under its own id and belongs to an existing room. */
  predicate PlayersKeyed(rooms: map<string, Room>, players: map<string, Player>) {
    forall id :: id in players ==> players[id].id == id && players[id].roomId in rooms
  }

  /** At most one record per (room, user). */
  predicate OneRecordPerUser(players: map<string, Player>) {
    forall a, b :: a in players && b in players && a != b && players[a].roomId == players[b].roomId ==>
      players[a].userId != players[b].userId
  }

  /** No room holds more than ten records. */
  predicate WithinCap(rooms: map<string, Room>, players: map<string, Player>) {
    forall id :: id in rooms ==> |Members(players, id)| <= MaxPlayers
  }

  /** Every game state is stored under the id of an existing room. */
  predicate StatesKeyed(rooms: map<string, Room>, gameStates: map<string, GameState>) {
    forall id :: id in gameStates ==> id in rooms && gameStates[id].roomId == id
  }

  /** What the database keeps true of the three tables, and what the operations
      keep true on top of it: one record per (room, user) and at most ten records
      per room. */
  predicate WellFormed(rooms: map<string, Room>, players: map<string, Player>,
                       gameStates: map<string, GameState>) {
    && RoomsKeyed(rooms) && CodesUnique(rooms)
    && PlayersKeyed(rooms, players) && OneRecordPerUser(players) && WithinCap(rooms, players)
    && StatesKeyed(rooms, gameStates)
  }

  lemma {:induction false} SubsetCard(a: set<string>, b: set<string>)
    requires a <= b
    ensures |a| <= |b|
  {
    if a != {} {
      var x :| x in a;
      SubsetCard(a - {x}, b - {x});
    }
  }

  /** Deleting player records keeps the tables well formed. */
  lemma DropPlayersKeepsWellFormed(rooms: map<string, Room>, players: map<string, Player>,
                                   kept: map<string, Player>, gameStates: map<string, GameState>)
    requires WellFormed(rooms, players, gameStates)
    requires kept.Keys <= players.Keys && forall id :: id in kept ==> kept[id] == players[id]
    ensures WellFormed(rooms, kept, gameStates)
  {
    forall id | id in rooms ensures |Members(kept, id)| <= MaxPlayers {
      SubsetCard(Members(kept, id), Members(players, id));
    }
  }

  /** Rewriting player records without changing their ids, rooms or users keeps
      the tables well formed and every room's records the same. */
  lemma EditPlayersKeepsWellFormed(rooms: map<string, Room>, players: map<string, Player>,
                                   edited: map<string, Player>, gameStates: map<string, GameState>)
    requires WellFormed(rooms, players, gameStates)
    requires edited.Keys == players.Keys
    requires forall id :: id in edited ==>
      edited[id].id == players[id].id && edited[id].roomId == players[id].roomId && edited[id].userId == players[id].userId
    ensures WellFormed(rooms, edited, gameStates)
    ensures forall r :: Members(edited, r) == Members(players, r)
  {
    forall r ensures Members(edited, r) == Members(players, r) {
    }
  }

  /** Inserting a record changes the records of its own room only, by that one. */
  lemma AddPlayerMembers(players: map<string, Player>, p: Player, r: string)
    requires p.id !in players
    ensures Members(players[p.id := p], r) == if r == p.roomId then Members(players, r) + {p.id} else Members(players, r)
  {
    if r == p.roomId {
      assert Members(players[p.id := p], r) == Members(players, r) + {p.id};
    } else {
      assert Members(players[p.id := p], r) == Members(players, r);
    }
  }

  /** Inserting a record for a user with no record in that room keeps one record per (room, user). */
  lemma AddPlayerOneRecord(players: map<string, Player>, p: Player)
    requires OneRecordPerUser(players)
    requires p.id !in players && !HasRecord(players, p.roomId, p.userId)
    ensures OneRecordPerUser(players[p.id := p])
  {
    var after := players[p.id := p];
    forall a, b | a in after && b in after && a != b && after[a].roomId == after[b].roomId
      ensures after[a].userId != after[b].userId
    {
      if a != p.id && b != p.id {
        assert after[a] == players[a] && after[b] == players[b];
      }
    }
  }

  /** Inserting a record for a user new to a room that is not full keeps the
      tables well formed, and the room gains exactly that record. */
  lemma AddPlayerKeepsWellFormed(rooms: map<string, Room>, players: map<string, Player>,
                                 p: Player, gameStates: map<string, GameState>)
    requires WellFormed(rooms, players, gameStates)
    requires p.id !in players && p.roomId in rooms
    requires !HasRecord(players, p.roomId, p.userId)
    requires |Members(players, p.roomId)| < MaxPlayers
    ensures WellFormed(rooms, players[p.id := p], gameStates)
    ensures Members(players[p.id := p], p.roomId) == Members(players, p.roomId) + {p.id}
  {
    AddPlayerOneRecord(players, p);
    forall r | r in rooms ensures |Members(players[p.id := p], r)| <= MaxPlayers {
      AddPlayerMembers(players, p, r);
    }
    AddPlayerMembers(players, p, p.roomId);
  }

  /** The ids of the records of `batch`. */
  function BatchIds(batch: seq<Player>): (r: set<string>)
    ensures forall i :: 0 <= i < |batch| ==> batch[i].id in r
    ensures forall id :: id in r ==> exists i :: 0 <= i < |batch| && batch[i].id == id
    decreases |batch|
  {
    if batch == [] then {}
    else
      var rest := BatchIds(batch[1..]);
      assert forall i :: 0 < i < |batch| ==> batch[i] == batch[1..][i - 1];
      assert forall id :: id in rest ==> exists i :: 0 < i < |batch| && batch[i].id == id by {
        forall id | id in rest ensures exists i :: 0 < i < |batch| && batch[i].id == id {
          var j :| 0 <= j < |batch[1..]| && batch[1..][j].id == id;
          assert batch[j + 1].id == id;
        }
      }
      {batch[0].id} + rest
  }

  /** `players` with the records of `batch` inserted. */
  function InsertAll(players: map<string, Player>, batch: seq<Player>): (r: map<string, Player>)
    requires forall i :: 0 <= i < |batch| ==> batch[i].id !in players
    requires forall i, j :: 0 <= i < j < |batch| ==> batch[i].id != batch[j].id
    ensures r.Keys == players.Keys + BatchIds(batch)
    ensures forall id :: id in players ==> r[id] == players[id]
    ensures forall i :: 0 <= i < |batch| ==> r[batch[i].id] == batch[i]
    decreases |batch|
  {
    if batch == [] then players
    else
      assert forall i :: 0 < i < |batch| ==> batch[i] == batch[1..][i - 1];
      InsertAll(players[batch[0].id := batch[0]], batch[1..])
  }

  /** Inserting a batch of records of new users into a room with room for them
      keeps the tables well formed. */
  lemma {:induction false} InsertAllKeepsWellFormed(rooms: map<string, Room>, players: map<string, Player>,
                                                    gameStates: map<string, GameState>, batch: seq<Player>, roomId: string)
    requires WellFormed(rooms, players, gameStates)
    requires roomId in rooms || batch == []
    requires forall i :: 0 <= i < |batch| ==>
      batch[i].roomId == roomId && batch[i].id !in players && !HasRecord(players, roomId, batch[i].userId)
    requires forall i, j :: 0 <= i < j < |batch| ==> batch[i].id != batch[j].id && batch[i].userId != batch[j].userId
    requires |Members(players, roomId)| + |batch| <= MaxPlayers
    ensures WellFormed(rooms, InsertAll(players, batch), gameStates)
    decreases |batch|
  {
    if batch != [] {
      var p := batch[0];
      AddPlayerKeepsWellFormed(rooms, players, p, gameStates);
      var next := players[p.id := p];
      var rest := batch[1..];
      forall i | 0 <= i < |rest| ensures rest[i].id !in next && !HasRecord(next, roomId, rest[i].userId) {
        assert rest[i] == batch[i + 1];
        forall id | id in next && next[id].roomId == roomId ensures next[id].userId != rest[i].userId {
          if id != p.id {
            assert next[id] == players[id];
          }
        }
      }
      InsertAllKeepsWellFormed(rooms, next, gameStates, rest, roomId);
    }
  }

  /** A new room under its own id with an unused code keeps the tables well
      formed, and it has no records yet. */
  lemma AddRoomKeepsWellFormed(rooms: map<string, Room>, players: map<string, Player>,
                               room: Room, gameStates: map<string, GameState>)
    requires WellFormed(rooms, players, gameStates)
    requires room.id !in rooms && !CodeInUse(rooms, room.code)
    ensures WellFormed(rooms[room.id := room], players, gameStates)
    ensures Members(players, room.id) == {}
  {
    var after := rooms[room.id := room];
    assert Members(players, room.id) == {};
    assert WithinCap(after, players) by {
      forall r | r in after ensures |Members(players, r)| <= MaxPlayers {
        if r != room.id {
          assert r in rooms;
        }
      }
    }
  }

  /** Changing fields of a room other than its id and code keeps the tables well formed. */
  lemma EditRoomKeepsWellFormed(rooms: map<string, Room>, players: map<string, Player>,
                                id: string, room: Room, gameStates: map<string, GameState>)
    requires WellFormed(rooms, players, gameStates)
    requires id in rooms && room.id == id && room.code == rooms[id].code
    ensures WellFormed(rooms[id := room], players, gameStates)
  {
    var after := rooms[id := room];
    assert CodesUnique(after) by {
      forall a, b | a in after && b in after && a != b ensures after[a].code != after[b].code {
        assert after[a].code == rooms[a].code && after[b].code == rooms[b].code;
      }
    }
    assert WithinCap(after, players) by {
      forall r | r in after ensures |Members(players, r)| <= MaxPlayers {
        assert r in rooms;
      }
    }
  }

  /** Writing the game state of an existing room keeps the tables well formed. */
  lemma PutStateKeepsWellFormed(rooms: map<string, Room>, players: map<string, Player>,
                                gameStates: map<string, GameState>, gs: GameState)
    requires WellFormed(rooms, players, gameStates)
    requires gs.roomId in rooms
    ensures WellFormed(rooms, players, gameStates[gs.roomId := gs])
  {
  }

  /** The player records that survive deleting a room. */
  function WithoutRoom(players: map<string, Player>, roomId: string): (r: map<string, Player>)
    ensures forall id :: id in r <==> id in players && players[id].roomId != roomId
    ensures forall id :: id in r ==> r[id] == players[id]
  {
    map id | id in players && players[id].roomId != roomId :: players[id]
  }

  /** Deleting a room together with its players and game state keeps the tables well formed. */
  lemma DeleteRoomKeepsWellFormed(rooms: map<string, Room>, players: map<string, Player>,
                                  gameStates: map<string, GameState>, roomId: string)
    requires WellFormed(rooms, players, gameStates)
    ensures WellFormed(rooms - {roomId}, WithoutRoom(players, roomId), gameStates - {roomId})
  {
    var kept := WithoutRoom(players, roomId);
    forall r | r in rooms && r != roomId ensures |Members(kept, r)| <= MaxPlayers {
      SubsetCard(Members(kept, r), Members(players, r));
    }
  }

  /** The earliest-created connected player of a room: `order('created_at').limit(1)`
      over the connected records. Records created at the same instant come back in
      an order the database chooses; any of them may be returned. */
  method EarliestConnected(players: map<string, Player>, roomId: string) returns (best: Option<string>)
    ensures best.None? <==> ConnectedMembers(players, roomId) == {}
    ensures best.Some? ==> best.value in ConnectedMembers(players, roomId)
    ensures best.Some? ==> forall id :: id in ConnectedMembers(players, roomId) ==>
                             players[best.value].createdAt <= players[id].createdAt
  {
    best := None;
    var todo := players.Keys;
    while todo != {}
      invariant todo <= players.Keys
      invariant best.Some? ==> best.value in ConnectedMembers(players, roomId)
      invariant forall id :: id in ConnectedMembers(players, roomId) && id !in todo ==>
                  best.Some? && players[best.value].createdAt <= players[id].createdAt
      decreases |todo|
    {
      var id :| id in todo;
      var q := players[id];
      if q.roomId == roomId && q.connected && (best.None? || q.createdAt < players[best.value].createdAt) {
        best := Some(id);
      }
      todo := todo - {id};
    }
  }

  /** `playerName.trim() || 'Jugador'`. */
  function DisplayName(name: string): (r: string)
    ensures r != ""
    ensures AllSpace(name) ==> r == "Jugador"
    ensures !AllSpace(name) ==> r == Trim(name) && |r| <= |name|
  {
    TrimEmptyIffAllSpace(name);
    if Trim(name) == "" then "Jugador" else Trim(name)
  }

  const BotNames: seq<string> := ["Bot Alice", "Bot Bob", "Bot Charlie", "Bot Diana",
                                  "Bot Eve", "Bot Frank", "Bot Grace", "Bot Henry"]

  /** `testNames[i] || \`Bot ${i + 1}\``: eight fixed names, then numbered bots. */
  function BotName(i: nat): (r: string)
    ensures i < |BotNames| ==> r == BotNames[i]
    ensures i >= |BotNames| ==> r == "Bot " + NatToString(i + 1)
  {
    if i < |BotNames| then BotNames[i] else "Bot " + NatToString(i + 1)
  }

  /** The game state every game starts from. */
  function InitialState(roomId: string, game: Game): (gs: GameState)
    ensures gs.roomId == roomId && gs.timer == game.timeLimit && gs.round == 1
    ensures gs.votes == Some(map[]) && gs.answers == Some(map[]) && gs.currentTurn.None?
  {
    GameState(roomId, game.timeLimit, 1, Some(map[]), Some(map[]), None)
  }

  /** The ids of the history, `game_history.map((g) => g.id)`. */
  function HistoryIds(history: seq<Game>): (r: seq<string>)
    ensures |r| == |history| && forall i :: 0 <= i < |r| ==> r[i] == history[i].Id()
  {
    seq(|history|, i requires 0 <= i < |history| => history[i].Id())
  }

  /** The game the room gets from a successful start: with a selection, the
      selected catalog entry; otherwise the entry the draws pick from the pool that
      avoids the history while the drawn suit has an unplayed entry. Either way the
      difficulty is the drawn base plus one per three players, capped at 10, the
      time limit is one minute per level and the card names level and suit. */
  predicate StartedWith(game: Game, selection: Option<Selection>, history: seq<Game>, ids: seq<string>, draws: Draws) {
    && IsDraw(draws.base)
    && game.difficulty == Difficulty(BaseDifficulty(draws.base), |ids|)
    && 3 <= game.difficulty <= MaxDifficulty
    && game.timeLimit == game.difficulty * SecondsPerDifficulty
    && game.card == CardLabel(game.difficulty, game.suit)
    && game.parameters.Some? && ParamsFor(game.suit, ids, game.parameters.value)
    && (selection.Some? ==> game.suit == selection.value.suit && game.Id() == selection.value.gameId
                            && game.definition in Pool(game.suit))
    && (selection.None? ==>
          && IsDraw(draws.suit) && IsDraw(draws.pick)
          && game.suit == AllSuits[Pick(draws.suit, 4)]
          && var pool := GamePool(game.suit, HistoryIds(history));
             game.definition == pool[Pick(draws.pick, |pool|)])
  }

  /** A game chosen in the lobby: catalog id and suit. */
  datatype Selection = Selection(gameId: string, suit: Suit)

  /** The generation step of `startGame`: the selected game, or a random game that
      avoids the room's history. Only a selection missing from its suit's pool
      yields nothing. */
  method ChooseGame(selection: Option<Selection>, history: seq<Game>, ids: seq<string>, draws: Draws)
    returns (game: Option<Game>)
    requires ValidDraws(draws, |ids|)
    ensures game.None? <==>
      selection.Some? && forall i :: 0 <= i < |Pool(selection.value.suit)| ==> Pool(selection.value.suit)[i].id != selection.value.gameId
    ensures game.Some? ==> StartedWith(game.value, selection, history, ids, draws)
  {
    if selection.Some? {
      game := GenerateSpecificGame(selection.value.gameId, selection.value.suit, ids, None, draws);
    } else {
      var g := GenerateRandomGame(ids, HistoryIds(history), draws);
      game := Some(g);
    }
  }

  datatype Outcome = Ok | Err(message: string)

  datatype Created = Created(room: Room, code: string) | CodesExhausted | RoomInsertFailed | PlayerInsertFailed

  const NoUniqueCode := "No se pudo generar un código único"
  const RoomNotFound := "Sala no encontrada"
  const RoomFull := "Sala llena (máximo 10 jugadores)"
  const AlreadyStarted := "El juego ya ha comenzado"
  const NotHostToStart := "Solo el host puede iniciar el juego"
  const NoPlayers := "Se necesita al menos 1 jugador"
  const GenerationFailed := "Error al generar el juego"
  const NotHostToEnd := "Solo el host puede terminar el juego"
  const NotHostToContinue := "Solo el host puede iniciar el siguiente juego"
  const BotInsertFailed := "Error al crear jugadores de prueba"

  /** The message refusing `count` bots beyond the cap. */
  function TooManyBots(count: int): (r: string)
    ensures |r| > 0
  {
    "No puedes agregar " + IntToString(count) + " jugadores. Máximo permitido: " + NatToString(MaxPlayers)
  }

  /** The retry loop of `createRoom`: draw codes until one is not in use, giving up
      after ten codes in use. The code it settles on is the first free one drawn. */
  method FindFreeCode(rooms: map<string, Room>, codeDraws: seq<seq<real>>) returns (found: Option<string>)
    requires |codeDraws| == CodeAttempts && forall k :: 0 <= k < |codeDraws| ==> CodeDraws(codeDraws[k])
    ensures found.None? <==> forall k :: 0 <= k < CodeAttempts ==> CodeInUse(rooms, CodeOf(codeDraws[k]))
    ensures found.Some? ==> !CodeInUse(rooms, found.value)
    ensures found.Some? ==> exists k :: 0 <= k < CodeAttempts && found.value == CodeOf(codeDraws[k])
                                        && forall j :: 0 <= j < k ==> CodeInUse(rooms, CodeOf(codeDraws[j]))
  {
    var attempts := 0;
    var code := "";
    var roomExists := true;
    while roomExists && attempts < CodeAttempts
      invariant 0 <= attempts <= CodeAttempts
      invariant forall j :: 0 <= j < attempts ==> CodeInUse(rooms, CodeOf(codeDraws[j]))
      invariant !roomExists ==> attempts < CodeAttempts && code == CodeOf(codeDraws[attempts])
                                && !CodeInUse(rooms, code)
      decreases CodeAttempts - attempts, roomExists
    {
      code := GenerateRoomCode(codeDraws[attempts]);
      if !CodeInUse(rooms, code) {
        roomExists := false;
      } else {
        assert CodeInUse(rooms, CodeOf(codeDraws[attempts]));
        attempts := attempts + 1;
      }
    }
    if attempts >= CodeAttempts {
      return None;
    }
    found := Some(code);
  }

  /** The bot records `createTestPlayers` inserts: alive, connected, no cards,
      named by position. */
  function Bots(roomId: string, userIds: seq<string>, playerIds: seq<string>, now: int): (b: seq<Player>)
    requires |userIds| == |playerIds|
    ensures |b| == |playerIds|
    ensures forall i :: 0 <= i < |b| ==>
      b[i] == Player(playerIds[i], roomId, userIds[i], BotName(i), true, 0, true, now, now)
  {
    seq(|playerIds|, i requires 0 <= i < |playerIds| =>
      Player(playerIds[i], roomId, userIds[i], BotName(i), true, 0, true, now, now))
  }

  /** `createTestPlayers`' loop that lists the bots before the single insert. */
  method BotBatch(roomId: string, userIds: seq<string>, playerIds: seq<string>, now: int) returns (batch: seq<Player>)
    requires |userIds| == |playerIds|
    ensures batch == Bots(roomId, userIds, playerIds, now)
  {
    batch := [];
    for i := 0 to |playerIds|
      invariant |batch| == i
      invariant forall k :: 0 <= k < i ==>
        batch[k] == Player(playerIds[k], roomId, userIds[k], BotName(k), true, 0, true, now, now)
    {
      batch := batch + [Player(playerIds[i], roomId, userIds[i], BotName(i), true, 0, true, now, now)];
    }
  }

  /** The rooms, players and game states of the game, held in memory. */
  class Store {
    var rooms: map<string, Room>
    var players: map<string, Player>
    var gameStates: map<string, GameState>

    predicate Valid()
      reads this
    {
      WellFormed(rooms, players, gameStates)
    }

    constructor ()
      ensures Valid()
      ensures rooms == map[] && players == map[] && gameStates == map[]
    {
      rooms, players, gameStates := map[], map[], map[];
    }

    /** Deletes a room; its players and its game state go with it. */
    method DeleteRoom(roomId: string)
      requires Valid()
      modifies this
      ensures Valid()
      ensures rooms == old(rooms) - {roomId}
      ensures players == WithoutRoom(old(players), roomId)
      ensures gameStates == old(gameStates) - {roomId}
    {
      DeleteRoomKeepsWellFormed(rooms, players, gameStates, roomId);
      rooms, players, gameStates := rooms - {roomId}, WithoutRoom(players, roomId), gameStates - {roomId};
    }

    /** `createRoom`: draw codes until one is free, at most ten times; then insert
        the room and its host's record. A failed room insert changes nothing and a
        failed player insert removes the room again. */
    method CreateRoom(userId: string, codeDraws: seq<seq<real>>, roomId: string, playerId: string, now: int,
                      roomInsertFails: bool, playerInsertFails: bool) returns (r: Created)
      requires Valid()
      requires |codeDraws| == CodeAttempts && forall k :: 0 <= k < |codeDraws| ==> CodeDraws(codeDraws[k])
      requires roomId !in rooms && playerId !in players
      modifies this
      ensures Valid()
      ensures gameStates == old(gameStates)
      ensures r.CodesExhausted? <==> forall k :: 0 <= k < CodeAttempts ==> CodeInUse(old(rooms), CodeOf(codeDraws[k]))
      ensures r.RoomInsertFailed? ==> roomInsertFails
      ensures r.PlayerInsertFailed? ==> playerInsertFails
      ensures !r.Created? ==> rooms == old(rooms) && players == old(players)
      ensures r.Created? <==> (exists k :: 0 <= k < CodeAttempts && !CodeInUse(old(rooms), CodeOf(codeDraws[k])))
                              && !roomInsertFails && !playerInsertFails
      ensures r.Created? ==>
        && (exists k :: 0 <= k < CodeAttempts && r.code == CodeOf(codeDraws[k])
                        && forall j :: 0 <= j < k ==> CodeInUse(old(rooms), CodeOf(codeDraws[j])))
        && !CodeInUse(old(rooms), r.code)
        && r.room == Room(roomId, r.code, userId, Waiting, now, None, [])
        && rooms == old(rooms)[roomId := r.room]
        && players == old(players)[playerId := Player(playerId, roomId, userId, "Host", true, 0, true, now, now)]
    {
      var found := FindFreeCode(rooms, codeDraws);
      if found.None? {
        return CodesExhausted;
      }
      var code := found.value;
      if roomInsertFails {
        return RoomInsertFailed;
      }
      var room := Room(roomId, code, userId, Waiting, now, None, []);
      InsertRoomWithHost(room, Player(playerId, roomId, userId, "Host", true, 0, true, now, now), playerInsertFails);
      if playerInsertFails {
        return PlayerInsertFailed;
      }
      r := Created(room, code);
    }

    /** The two inserts of `createRoom`: the room under a free code, then its
        host's record; a failed player insert removes the room again. */
    method InsertRoomWithHost(room: Room, host: Player, playerInsertFails: bool)
      requires Valid()
      requires room.id !in rooms && !CodeInUse(rooms, room.code)
      requires host.id !in players && host.roomId == room.id
      modifies this
      ensures Valid()
      ensures gameStates == old(gameStates)
      ensures playerInsertFails ==> rooms == old(rooms) && players == old(players)
      ensures !playerInsertFails ==> rooms == old(rooms)[room.id := room] && players == old(players)[host.id := host]
    {
      AddRoomKeepsWellFormed(rooms, players, room, gameStates);
      var withRoom := rooms[room.id := room];
      if playerInsertFails {
        assert withRoom - {room.id} == rooms;
        return;
      }
      AddPlayerKeepsWellFormed(withRoom, players, host, gameStates);
      rooms, players := withRoom, players[host.id := host];
    }

    /** `joinRoom`: look the room up by the upper-cased code, then refuse a full
        room, then a room whose game is running; a user who already has a record
        is marked connected again, anyone else gets a new record. */
    method JoinRoom(code: string, userId: string, playerName: string, playerId: string, now: int)
      returns (r: Outcome)
      requires Valid()
      requires playerId !in players
      modifies this
      ensures Valid()
      ensures rooms == old(rooms) && gameStates == old(gameStates)
      ensures !CodeInUse(old(rooms), ToUpper(code)) ==> r == Err(RoomNotFound) && players == old(players)
      ensures forall rid :: rid in old(rooms) && old(rooms)[rid].code == ToUpper(code) ==>
        var full := |Members(old(players), rid)| >= MaxPlayers;
        var playing := old(rooms)[rid].status == Playing;
        && (full ==> r == Err(RoomFull) && players == old(players))
        && (!full && playing ==> r == Err(AlreadyStarted) && players == old(players))
        && (!full && !playing ==> r == Ok)
        && (!full && !playing && HasRecord(old(players), rid, userId) ==>
              exists id :: id in old(players) && old(players)[id].roomId == rid && old(players)[id].userId == userId
                && players == old(players)[id := old(players)[id].(connected := true, lastSeen := now)])
        && (!full && !playing && !HasRecord(old(players), rid, userId) ==>
              players == old(players)[playerId := Player(playerId, rid, userId, DisplayName(playerName), true, 0, true, now, now)])
    {
      var wanted := ToUpper(code);
      if !CodeInUse(rooms, wanted) {
        return Err(RoomNotFound);
      }
      var rid :| rid in rooms && rooms[rid].code == wanted;
      if |Members(players, rid)| >= MaxPlayers {
        return Err(RoomFull);
      }
      if rooms[rid].status == Playing {
        return Err(AlreadyStarted);
      }
      if HasRecord(players, rid, userId) {
        var id :| id in players && players[id].roomId == rid && players[id].userId == userId;
        EditPlayersKeepsWellFormed(rooms, players, players[id := players[id].(connected := true, lastSeen := now)], gameStates);
        players := players[id := players[id].(connected := true, lastSeen := now)];
        return Ok;
      }
      var p := Player(playerId, rid, userId, DisplayName(playerName), true, 0, true, now, now);
      AddPlayerKeepsWellFormed(rooms, players, p, gameStates);
      players := players[playerId := p];
      r := Ok;
    }

    /** `promoteNewHost`: the earliest-created connected player of the room, if any,
        becomes its host; nothing else changes. */
    method PromoteNewHost(roomId: string)
      requires Valid()
      modifies this
      ensures Valid()
      ensures players == old(players) && gameStates == old(gameStates)
      ensures roomId !in old(rooms) || ConnectedMembers(players, roomId) == {} ==> rooms == old(rooms)
      ensures roomId in old(rooms) && ConnectedMembers(players, roomId) != {} ==>
        exists id :: id in ConnectedMembers(players, roomId)
          && (forall other :: other in ConnectedMembers(players, roomId) ==> players[id].createdAt <= players[other].createdAt)
          && rooms == old(rooms)[roomId := old(rooms)[roomId].(hostId := players[id].userId)]
    {
      var best := EarliestConnected(players, roomId);
      if best.Some? && roomId in rooms {
        var host := players[best.value].userId;
        EditRoomKeepsWellFormed(rooms, players, roomId, rooms[roomId].(hostId := host), gameStates);
        rooms := rooms[roomId := rooms[roomId].(hostId := host)];
      }
    }

    /** `leaveRoom`: the host leaving a waiting room deletes it (with its players
        and game state); anyone else leaving only loses their record, and the host
        leaving a running or finished game hands the room to the earliest-created
        connected player. */
    method LeaveRoom(roomId: string, userId: string) returns (r: Outcome)
      requires Valid()
      modifies this
      ensures Valid()
      ensures roomId !in old(rooms) <==> r == Err(RoomNotFound)
      ensures roomId !in old(rooms) ==> rooms == old(rooms) && players == old(players) && gameStates == old(gameStates)
      ensures roomId in old(rooms) ==> r == Ok
      ensures roomId in old(rooms) && old(rooms)[roomId].hostId == userId && old(rooms)[roomId].status == Waiting ==>
        && rooms == old(rooms) - {roomId}
        && players == WithoutRoom(old(players), roomId)
        && gameStates == old(gameStates) - {roomId}
      ensures roomId in old(rooms) && !(old(rooms)[roomId].hostId == userId && old(rooms)[roomId].status == Waiting) ==>
        && gameStates == old(gameStates)
        && (forall id :: id in players <==> id in old(players) && !(old(players)[id].roomId == roomId && old(players)[id].userId == userId))
        && (forall id :: id in players ==> players[id] == old(players)[id])
        && (old(rooms)[roomId].hostId != userId ==> rooms == old(rooms))
        && (old(rooms)[roomId].hostId == userId && ConnectedMembers(players, roomId) == {} ==> rooms == old(rooms))
        && (old(rooms)[roomId].hostId == userId && ConnectedMembers(players, roomId) != {} ==>
              exists id :: id in ConnectedMembers(players, roomId)
                && (forall other :: other in ConnectedMembers(players, roomId) ==> players[id].createdAt <= players[other].createdAt)
                && rooms == old(rooms)[roomId := old(rooms)[roomId].(hostId := players[id].userId)])
    {
      if roomId !in rooms {
        return Err(RoomNotFound);
      }
      var room := rooms[roomId];
      if room.hostId == userId && room.status == Waiting {
        DeleteRoom(roomId);
        return Ok;
      }
      var kept := map id | id in players && !(players[id].roomId == roomId && players[id].userId == userId) :: players[id];
      DropPlayersKeepsWellFormed(rooms, players, kept, gameStates);
      players := kept;
      if room.hostId == userId && room.status != Waiting {
        PromoteNewHost(roomId);
      }
      r := Ok;
    }

    /** The ids of the connected players of a room, in the order the store lists them. */
    method ConnectedIds(roomId: string) returns (ids: seq<string>)
      ensures |ids| == |ConnectedMembers(players, roomId)|
      ensures forall id :: id in ids <==> id in ConnectedMembers(players, roomId)
    {
      ids := [];
      var todo := ConnectedMembers(players, roomId);
      while todo != {}
        invariant todo <= ConnectedMembers(players, roomId)
        invariant |ids| + |todo| == |ConnectedMembers(players, roomId)|
        invariant forall id :: id in ids <==> id in ConnectedMembers(players, roomId) && id !in todo
        decreases |todo|
      {
        var id :| id in todo;
        ids := ids + [id];
        todo := todo - {id};
      }
    }

    /** `startGame`: only the host may start, and only with at least one connected
        player; the room becomes `playing` with a fresh game and the game state is
        reset. A selection that is not in its suit's pool fails without change. */
    method StartGame(roomId: string, userId: string, selection: Option<Selection>, draws: Draws)
      returns (r: Outcome)
      requires Valid()
      requires ValidDraws(draws, |ConnectedMembers(players, roomId)|)
      modifies this
      ensures Valid()
      ensures players == old(players)
      ensures r == Err(NotHostToStart) <==> roomId !in old(rooms) || old(rooms)[roomId].hostId != userId
      ensures r == Err(NoPlayers) <==>
                roomId in old(rooms) && old(rooms)[roomId].hostId == userId && ConnectedMembers(players, roomId) == {}
      ensures r == Err(GenerationFailed) <==>
                roomId in old(rooms) && old(rooms)[roomId].hostId == userId && ConnectedMembers(players, roomId) != {}
                && selection.Some? && forall i :: 0 <= i < |Pool(selection.value.suit)| ==> Pool(selection.value.suit)[i].id != selection.value.gameId
      ensures r.Err? ==> r.message in {NotHostToStart, NoPlayers, GenerationFailed}
      ensures r.Err? ==> rooms == old(rooms) && gameStates == old(gameStates)
      ensures r.Ok? ==>
        && roomId in old(rooms)
        && exists game, ids ::
          && |ids| == |ConnectedMembers(players, roomId)|
          && (forall id :: id in ids <==> id in ConnectedMembers(players, roomId))
          && StartedWith(game, selection, old(rooms)[roomId].history, ids, draws)
          && rooms == old(rooms)[roomId := old(rooms)[roomId].(status := Playing, currentGame := Some(game))]
          && gameStates == old(gameStates)[roomId := InitialState(roomId, game)]
    {
      assert |NotHostToStart| != |NoPlayers| && |NotHostToStart| != |GenerationFailed| && |NoPlayers| != |GenerationFailed|;
      if roomId !in rooms || rooms[roomId].hostId != userId {
        return Err(NotHostToStart);
      }
      var ids := ConnectedIds(roomId);
      if |ids| < 1 {
        return Err(NoPlayers);
      }
      var chosen := ChooseGame(selection, rooms[roomId].history, ids, draws);
      if chosen.None? {
        return Err(GenerationFailed);
      }
      var game := chosen.value;
      assert StartedWith(game, selection, old(rooms)[roomId].history, ids, draws);
      Launch(roomId, game);
      r := Ok;
    }

    /** The writes of a successful start: the room is playing `game` and its game
        state is reset for it. */
    method Launch(roomId: string, game: Game)
      requires Valid() && roomId in rooms
      modifies this
      ensures Valid()
      ensures players == old(players)
      ensures rooms == old(rooms)[roomId := old(rooms)[roomId].(status := Playing, currentGame := Some(game))]
      ensures gameStates == old(gameStates)[roomId := InitialState(roomId, game)]
    {
      EditRoomKeepsWellFormed(rooms, players, roomId, rooms[roomId].(status := Playing, currentGame := Some(game)), gameStates);
      rooms := rooms[roomId := rooms[roomId].(status := Playing, currentGame := Some(game))];
      PutStateKeepsWellFormed(rooms, players, gameStates, InitialState(roomId, game));
      gameStates := gameStates[roomId := InitialState(roomId, game)];
    }

    /** `endGame`: only the host may end; the current game, if any, is appended to
        the history and the room shows the results. The current game stays set and
        the room's status is not checked, so a waiting room can be ended too. */
    method EndGame(roomId: string, userId: string) returns (r: Outcome)
      requires Valid()
      modifies this
      ensures Valid()
      ensures players == old(players) && gameStates == old(gameStates)
      ensures r == Err(NotHostToEnd) <==> roomId !in old(rooms) || old(rooms)[roomId].hostId != userId
      ensures r == if roomId in old(rooms) && old(rooms)[roomId].hostId == userId then Ok else Err(NotHostToEnd)
      ensures r.Err? ==> rooms == old(rooms)
      ensures r.Ok? ==>
        var room := old(rooms)[roomId];
        rooms == old(rooms)[roomId := room.(status := Results,
                                             history := room.history + if room.currentGame.Some? then [room.currentGame.value] else [])]
    {
      if roomId !in rooms || rooms[roomId].hostId != userId {
        return Err(NotHostToEnd);
      }
      var room := rooms[roomId];
      var history := room.history;
      if room.currentGame.Some? {
        history := history + [room.currentGame.value];
      }
      EditRoomKeepsWellFormed(rooms, players, roomId, room.(status := Results, history := history), gameStates);
      rooms := rooms[roomId := room.(status := Results, history := history)];
      assert history == room.history + if room.currentGame.Some? then [room.currentGame.value] else [];
      assert room == old(rooms)[roomId];
      r := Ok;
    }

    /** `nextGame`: only the host may continue; then a random game starts exactly as
        `startGame` without a selection would start it. */
    method NextGame(roomId: string, userId: string, draws: Draws) returns (r: Outcome)
      requires Valid()
      requires ValidDraws(draws, |ConnectedMembers(players, roomId)|)
      modifies this
      ensures Valid()
      ensures players == old(players)
      ensures r == Err(NotHostToContinue) <==> roomId !in old(rooms) || old(rooms)[roomId].hostId != userId
      ensures r == Err(NoPlayers) <==>
                roomId in old(rooms) && old(rooms)[roomId].hostId == userId && ConnectedMembers(players, roomId) == {}
      ensures r.Err? ==> r.message in {NotHostToContinue, NoPlayers}
      ensures r.Err? ==> rooms == old(rooms) && gameStates == old(gameStates)
      ensures r.Ok? ==>
        && roomId in old(rooms)
        && exists game, ids ::
          && |ids| == |ConnectedMembers(players, roomId)|
          && (forall id :: id in ids <==> id in ConnectedMembers(players, roomId))
          && StartedWith(game, None, old(rooms)[roomId].history, ids, draws)
          && rooms == old(rooms)[roomId := old(rooms)[roomId].(status := Playing, currentGame := Some(game))]
          && gameStates == old(gameStates)[roomId := InitialState(roomId, game)]
    {
      if roomId !in rooms || rooms[roomId].hostId != userId {
        return Err(NotHostToContinue);
      }
      r := StartGame(roomId, userId, None, draws);
      assert |NotHostToContinue| != |NotHostToStart| && |NotHostToContinue| != |NoPlayers|
             && |NotHostToContinue| != |GenerationFailed|;
    }

    /** `updatePlayerConnection`: every record of the user in the room gets the flag
        and a fresh last-seen time; nothing else changes. */
    method UpdatePlayerConnection(roomId: string, userId: string, connected: bool, now: int)
      requires Valid()
      modifies this
      ensures Valid()
      ensures rooms == old(rooms) && gameStates == old(gameStates)
      ensures players.Keys == old(players).Keys
      ensures forall id :: id in players ==>
        players[id] == if old(players)[id].roomId == roomId && old(players)[id].userId == userId
                       then old(players)[id].(connected := connected, lastSeen := now)
                       else old(players)[id]
    {
      var updated := map id | id in players ::
        if players[id].roomId == roomId && players[id].userId == userId
        then players[id].(connected := connected, lastSeen := now) else players[id];
      EditPlayersKeepsWellFormed(rooms, players, updated, gameStates);
      players := updated;
    }

    /** The single insert of `createTestPlayers`. */
    method AddBots(roomId: string, batch: seq<Player>)
      requires Valid()
      requires roomId in rooms || batch == []
      requires forall i :: 0 <= i < |batch| ==>
        batch[i].roomId == roomId && batch[i].id !in players && !HasRecord(players, roomId, batch[i].userId)
      requires forall i, j :: 0 <= i < j < |batch| ==> batch[i].id != batch[j].id && batch[i].userId != batch[j].userId
      requires |Members(players, roomId)| + |batch| <= MaxPlayers
      modifies this
      ensures Valid()
      ensures rooms == old(rooms) && gameStates == old(gameStates)
      ensures players == InsertAll(old(players), batch)
    {
      var next := InsertAll(players, batch);
      InsertAllKeepsWellFormed(rooms, players, gameStates, batch, roomId);
      players := next;
    }

    /** `createTestPlayers`: refuses when the room would exceed ten records;
        otherwise adds `count` connected, alive bots with fixed names (numbered
        after the eighth). The insert fails when the room does not exist. */
    method CreateTestPlayers(roomId: string, count: int, userIds: seq<string>, playerIds: seq<string>, now: int)
      returns (r: Outcome)
      requires Valid()
      requires |userIds| == |playerIds| == if count > 0 then count else 0
      requires forall i, j :: 0 <= i < j < |playerIds| ==> playerIds[i] != playerIds[j] && userIds[i] != userIds[j]
      requires forall i :: 0 <= i < |playerIds| ==> playerIds[i] !in players && !HasRecord(players, roomId, userIds[i])
      modifies this
      ensures Valid()
      ensures rooms == old(rooms) && gameStates == old(gameStates)
      ensures |Members(old(players), roomId)| + count > MaxPlayers ==> r == Err(TooManyBots(count)) && players == old(players)
      ensures |Members(old(players), roomId)| + count <= MaxPlayers && count > 0 && roomId !in rooms ==>
                r == Err(BotInsertFailed) && players == old(players)
      ensures r.Ok? <==> |Members(old(players), roomId)| + count <= MaxPlayers && (count <= 0 || roomId in rooms)
      ensures r.Ok? ==> players == InsertAll(old(players), Bots(roomId, userIds, playerIds, now))
    {
      var current := |Members(players, roomId)|;
      if current + count > MaxPlayers {
        return Err(TooManyBots(count));
      }
      var batch := BotBatch(roomId, userIds, playerIds, now);
      if |batch| > 0 && roomId !in rooms {
        return Err(BotInsertFailed);
      }
      assert forall i :: 0 <= i < |batch| ==>
        batch[i].roomId == roomId && batch[i].id !in players && !HasRecord(players, roomId, batch[i].userId);
      assert forall i, j :: 0 <= i < j < |batch| ==> batch[i].id != batch[j].id && batch[i].userId != batch[j].userId;
      AddBots(roomId, batch);
      r := Ok;
    }
  }
}
