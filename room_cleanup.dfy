/** Housekeeping over the store: the staleness sweep that marks silent players
    disconnected and reclaims abandoned lobbies, and the host check that hands a
    room on when its host has dropped out. The current time is a parameter; the
    sweep reads it once. */
module RoomCleanup {
  import opened GameTypes
  import opened RoomManager
  import opened Sets

  /** A connected player not seen for 30 seconds is marked disconnected. */
  const StaleAfter := 30 * 1000
  /** An empty lobby older than five minutes is deleted. */
  const AbandonedAfter := 5 * 60 * 1000

  /** Connected, and last seen strictly before `now - 30 s`. */
  predicate Stale(p: Player, now: int) {
    p.connected && p.lastSeen < now - StaleAfter
  }

  /** The bulk update of the sweep: stale records lose their connected flag. After
      it, a record is connected exactly when it was connected and seen within the
      last 30 seconds, and nothing but the flag has changed. */
  function MarkStale(players: map<string, Player>, now: int): (r: map<string, Player>)
    ensures r.Keys == players.Keys
    ensures forall id :: id in r ==>
      (r[id].connected <==> players[id].connected && players[id].lastSeen >= now - StaleAfter)
    ensures forall id :: id in r ==> r[id].(connected := players[id].connected) == players[id]
  {
    map id | id in players :: if Stale(players[id], now) then players[id].(connected := false) else players[id]
  }

  /** Sweeping twice at the same time changes nothing the first sweep did not. */
  lemma MarkStaleIdempotent(players: map<string, Player>, now: int)
    ensures MarkStale(MarkStale(players, now), now) == MarkStale(players, now)
  {
    var once := MarkStale(players, now);
    assert forall id :: id in once ==> !Stale(once[id], now);
  }

  /** A lobby nobody is connected to that is more than five minutes old. */
  predicate Abandoned(room: Room, players: map<string, Player>, now: int) {
    room.status == Waiting && ConnectedMembers(players, room.id) == {} && now - room.createdAt > AbandonedAfter
  }

  /** The rooms that remain once the rooms of `visited` have been checked. */
  function Remaining(rooms: map<string, Room>, players: map<string, Player>, now: int, visited: set<string>)
    : (r: map<string, Room>)
    ensures forall id :: id in r <==> id in rooms && !(id in visited && Abandoned(rooms[id], players, now))
    ensures forall id :: id in r ==> r[id] == rooms[id]
  {
    map id | id in rooms && !(id in visited && Abandoned(rooms[id], players, now)) :: rooms[id]
  }

  /** The player records whose room is among `rooms`. */
  function PlayersIn(players: map<string, Player>, rooms: map<string, Room>): (r: map<string, Player>)
    ensures forall id :: id in r <==> id in players && players[id].roomId in rooms
    ensures forall id :: id in r ==> r[id] == players[id]
  {
    map id | id in players && players[id].roomId in rooms :: players[id]
  }

  /** The game states of the rooms among `rooms`. */
  function StatesIn(gameStates: map<string, GameState>, rooms: map<string, Room>): (r: map<string, GameState>)
    ensures forall id :: id in r <==> id in gameStates && id in rooms
    ensures forall id :: id in r ==> r[id] == gameStates[id]
  {
    map id | id in gameStates && id in rooms :: gameStates[id]
  }

  /** Visiting one more room removes it exactly when it is abandoned. */
  lemma RemainingStep(rooms: map<string, Room>, players: map<string, Player>, now: int,
                      visited: set<string>, id: string)
    requires id in rooms && id !in visited
    ensures Abandoned(rooms[id], players, now) ==>
              Remaining(rooms, players, now, visited + {id}) == Remaining(rooms, players, now, visited) - {id}
    ensures !Abandoned(rooms[id], players, now) ==>
              Remaining(rooms, players, now, visited + {id}) == Remaining(rooms, players, now, visited)
  {
    var before, after := Remaining(rooms, players, now, visited), Remaining(rooms, players, now, visited + {id});
    if Abandoned(rooms[id], players, now) {
      assert after.Keys == before.Keys - {id};
    } else {
      assert after.Keys == before.Keys;
    }
  }

  /** Deleting a room's records from the records of a set of rooms leaves the
      records of the smaller set. */
  lemma PlayersInStep(players: map<string, Player>, rooms: map<string, Room>, id: string)
    ensures WithoutRoom(PlayersIn(players, rooms), id) == PlayersIn(players, rooms - {id})
  {
    assert WithoutRoom(PlayersIn(players, rooms), id).Keys == PlayersIn(players, rooms - {id}).Keys;
  }

  lemma StatesInStep(gameStates: map<string, GameState>, rooms: map<string, Room>, id: string)
    ensures StatesIn(gameStates, rooms) - {id} == StatesIn(gameStates, rooms - {id})
  {
    assert (StatesIn(gameStates, rooms) - {id}).Keys == StatesIn(gameStates, rooms - {id}).Keys;
  }

  /** The state of the room-by-room loop once the rooms of `visited` have been
      checked, starting from the tables `rooms0`, `players0`, `states0`. */
  predicate Visited(store: Store, rooms0: map<string, Room>, players0: map<string, Player>,
                    states0: map<string, GameState>, now: int, visited: set<string>)
    reads store
  {
    && store.Valid()
    && store.rooms == Remaining(rooms0, players0, now, visited)
    && store.players == PlayersIn(players0, store.rooms)
    && store.gameStates == StatesIn(states0, store.rooms)
  }

  /** Before the loop nothing has been visited and the tables are as they were. */
  lemma NothingVisited(rooms: map<string, Room>, players: map<string, Player>,
                       gameStates: map<string, GameState>, now: int)
    requires PlayersKeyed(rooms, players) && StatesKeyed(rooms, gameStates)
    ensures Remaining(rooms, players, now, {}) == rooms
    ensures PlayersIn(players, rooms) == players
    ensures StatesIn(gameStates, rooms) == gameStates
  {
    assert Remaining(rooms, players, now, {}).Keys == rooms.Keys;
    assert PlayersIn(players, rooms).Keys == players.Keys;
    assert StatesIn(gameStates, rooms).Keys == gameStates.Keys;
  }

  /** One turn of the loop: delete the room if it is an abandoned lobby. */
  method VisitRoom(store: Store, id: string, now: int, ghost rooms0: map<string, Room>,
                   ghost players0: map<string, Player>, ghost states0: map<string, GameState>,
                   ghost visited: set<string>)
    requires id in rooms0 && id !in visited
    requires Visited(store, rooms0, players0, states0, now, visited)
    modifies store
    ensures Visited(store, rooms0, players0, states0, now, visited + {id})
  {
    RemainingStep(rooms0, players0, now, visited, id);
    var room := store.rooms[id];
    assert ConnectedMembers(store.players, id) == ConnectedMembers(players0, id);
    if ConnectedMembers(store.players, id) == {} && room.status == Waiting && now - room.createdAt > AbandonedAfter {
      PlayersInStep(players0, store.rooms, id);
      StatesInStep(states0, store.rooms, id);
      store.DeleteRoom(id);
    }
  }

  /** The room-by-room loop of `cleanupRooms`, after the bulk update. */
  method ReclaimAbandoned(store: Store, now: int)
    requires store.Valid()
    modifies store
    ensures store.Valid()
    ensures store.rooms == Remaining(old(store.rooms), old(store.players), now, old(store.rooms).Keys)
    ensures store.players == PlayersIn(old(store.players), store.rooms)
    ensures store.gameStates == StatesIn(old(store.gameStates), store.rooms)
  {
    ghost var rooms0, players0, states0 := store.rooms, store.players, store.gameStates;
    NothingVisited(rooms0, players0, states0, now);
    var todo := store.rooms.Keys;
    ghost var visited: set<string> := {};
    while todo != {}
      invariant visited !! todo && visited + todo == rooms0.Keys
      invariant Visited(store, rooms0, players0, states0, now, visited)
      decreases |todo|
    {
      var id :| id in todo;
      VisitRoom(store, id, now, rooms0, players0, states0, visited);
      MoveOne(visited, todo, id);
      visited, todo := visited + {id}, todo - {id};
    }
    assert visited == rooms0.Keys;
  }

  /** `cleanupRooms`: mark stale players disconnected, then visit every room and
      delete the abandoned lobbies (with their players and game state). Rooms that
      are playing or showing results are never deleted, and no room that is left
      is abandoned. */
  method CleanupRooms(store: Store, now: int)
    requires store.Valid()
    modifies store
    ensures store.Valid()
    ensures var swept := MarkStale(old(store.players), now);
      && store.rooms == Remaining(old(store.rooms), swept, now, old(store.rooms).Keys)
      && store.players == PlayersIn(swept, store.rooms)
      && store.gameStates == StatesIn(old(store.gameStates), store.rooms)
    ensures forall id :: id in old(store.rooms) && old(store.rooms)[id].status != Waiting ==>
              id in store.rooms && store.rooms[id] == old(store.rooms)[id]
    ensures forall id :: id in store.rooms ==> !Abandoned(store.rooms[id], store.players, now)
  {
    var swept := MarkStale(store.players, now);
    EditPlayersKeepsWellFormed(store.rooms, store.players, swept, store.gameStates);
    store.players := swept;
    ReclaimAbandoned(store, now);
    forall id | id in store.rooms ensures ConnectedMembers(store.players, id) == ConnectedMembers(swept, id) {
    }
  }

  /** The host's own record exists and is marked disconnected. */
  predicate HostDisconnected(players: map<string, Player>, room: Room) {
    exists id :: id in players && players[id].roomId == room.id && players[id].userId == room.hostId && !players[id].connected
  }

  /** `checkAndPromoteHost`: nothing happens for a missing room, or when the host
      has no record or a connected one; when the host's record is disconnected the
      earliest-created connected player becomes host, and with nobody connected
      the host stays. */
  method CheckAndPromoteHost(store: Store, roomId: string)
    requires store.Valid()
    modifies store
    ensures store.Valid()
    ensures store.players == old(store.players) && store.gameStates == old(store.gameStates)
    ensures roomId !in old(store.rooms) ==> store.rooms == old(store.rooms)
    ensures roomId in old(store.rooms) && !HostDisconnected(store.players, old(store.rooms)[roomId]) ==>
              store.rooms == old(store.rooms)
    ensures roomId in old(store.rooms) && ConnectedMembers(store.players, roomId) == {} ==>
              store.rooms == old(store.rooms)
    ensures roomId in old(store.rooms) && HostDisconnected(store.players, old(store.rooms)[roomId])
            && ConnectedMembers(store.players, roomId) != {} ==>
      exists id :: id in ConnectedMembers(store.players, roomId)
        && (forall other :: other in ConnectedMembers(store.players, roomId) ==>
              store.players[id].createdAt <= store.players[other].createdAt)
        && store.rooms == old(store.rooms)[roomId := old(store.rooms)[roomId].(hostId := store.players[id].userId)]
  {
    if roomId !in store.rooms {
      return;
    }
    var room := store.rooms[roomId];
    if !HasRecord(store.players, roomId, room.hostId) {
      return;
    }
    var hostRecord :| hostRecord in store.players && store.players[hostRecord].roomId == roomId
                      && store.players[hostRecord].userId == room.hostId;
    if store.players[hostRecord].connected {
      return;
    }
    store.PromoteNewHost(roomId);
  }
}
