/** The client-side game-state session of one room: the state it holds, the
    change notifications that replace it, and the read-modify-write helpers that
    submit votes and answers, advance rounds and set the timer in the store. */
module UseGame {
  import opened Wrappers
  import opened GameTypes
  import opened RoomManager

  const NoRoomId := "No room ID"
  const NoGameState := "No game state"

  /** A partial update of a game-state record: `None` leaves a field as it is;
      `votes` and `answers` may be set to null. */
  datatype Patch = Patch(timer: Option<int>, round: Option<int>,
                         votes: Option<Option<map<string, string>>>,
                         answers: Option<Option<map<string, Answer>>>,
                         currentTurn: Option<Option<string>>)

  /** The record after an update: the fields the patch names take its values,
      every other field, the room id included, is kept. */
  function Apply(gs: GameState, patch: Patch): (r: GameState)
    ensures r.roomId == gs.roomId
    ensures patch == Patch(None, None, None, None, None) ==> r == gs
  {
    GameState(gs.roomId,
              if patch.timer.Some? then patch.timer.value else gs.timer,
              if patch.round.Some? then patch.round.value else gs.round,
              if patch.votes.Some? then patch.votes.value else gs.votes,
              if patch.answers.Some? then patch.answers.value else gs.answers,
              if patch.currentTurn.Some? then patch.currentTurn.value else gs.currentTurn)
  }

  /** Applying the same update twice is the same as applying it once. */
  lemma ApplyIdempotent(gs: GameState, patch: Patch)
    ensures Apply(Apply(gs, patch), patch) == Apply(gs, patch)
  {
  }

  /** `.update(patch).eq('room_id', roomId)`: the room's record, if there is one,
      gets the update; no other record changes. */
  function Patched(states: map<string, GameState>, roomId: string, patch: Patch): (r: map<string, GameState>)
    ensures r.Keys == states.Keys
    ensures forall id :: id in r && id != roomId ==> r[id] == states[id]
    ensures roomId in states ==> r[roomId] == Apply(states[roomId], patch)
  {
    if roomId in states then states[roomId := Apply(states[roomId], patch)] else states
  }

  /** `(gameState.votes || {})` with the player's vote written in: the player's
      entry is the vote and every other entry is kept. */
  function WithVote(gs: GameState, playerId: string, vote: string): (r: map<string, string>)
    ensures r.Keys == gs.votes.GetOr(map[]).Keys + {playerId}
    ensures r[playerId] == vote
    ensures forall id :: id in r && id != playerId ==> r[id] == gs.votes.GetOr(map[])[id]
  {
    gs.votes.GetOr(map[])[playerId := vote]
  }

  /** `(gameState.answers || {})` with the player's answer written in. */
  function WithAnswer(gs: GameState, playerId: string, answer: Answer): (r: map<string, Answer>)
    ensures r.Keys == gs.answers.GetOr(map[]).Keys + {playerId}
    ensures r[playerId] == answer
    ensures forall id :: id in r && id != playerId ==> r[id] == gs.answers.GetOr(map[])[id]
  {
    gs.answers.GetOr(map[])[playerId := answer]
  }

  /** A realtime notification about the room's game-state record. */
  datatype Change = Inserted(record: GameState) | Updated(record: GameState) | Deleted

  /** The held state after a notification: the new record on insert or update,
      nothing on delete. The state held before does not matter. */
  function AfterChange(held: Option<GameState>, c: Change): (r: Option<GameState>)
    ensures c.Deleted? <==> r.None?
    ensures !c.Deleted? ==> r == Some(c.record)
  {
    match c
    case Inserted(record) => Some(record)
    case Updated(record) => Some(record)
    case Deleted => None
  }

  /** The held state after a sequence of notifications. */
  function Replay(held: Option<GameState>, changes: seq<Change>): Option<GameState>
    decreases |changes|
  {
    if changes == [] then held else Replay(AfterChange(held, changes[0]), changes[1..])
  }

  /** The latest snapshot wins: after any non-empty sequence of notifications the
      held state is what the last one says, whatever was held before. */
  lemma {:induction false} LatestSnapshotWins(held: Option<GameState>, changes: seq<Change>)
    requires changes != []
    ensures Replay(held, changes) == AfterChange(None, changes[|changes| - 1])
    decreases |changes|
  {
    if |changes| > 1 {
      LatestSnapshotWins(AfterChange(held, changes[0]), changes[1..]);
    }
  }

  /** `roomId` passes the hook's `!roomId` test: it is present and not the
      (falsy) empty string. */
  predicate HasRoomId(roomId: Option<string>) {
    roomId.Some? && roomId.value != ""
  }

  /** The session of one room: the store it writes to, the room id (absent before
      the room is known) and the game state it currently holds. */
  class GameSession {
    const store: Store
    const roomId: Option<string>
    var held: Option<GameState>

    constructor (store: Store, roomId: Option<string>)
      ensures this.store == store && this.roomId == roomId && held.None?
    {
      this.store := store;
      this.roomId := roomId;
      held := None;
    }

    /** The initial fetch: the room's record, or nothing when the room has none
        yet. Without a room id (none, or the empty string)
        nothing is fetched. */
    method Fetch()
      modifies this
      ensures !HasRoomId(roomId) ==> held == old(held)
      ensures HasRoomId(roomId) && roomId.value in store.gameStates ==> held == Some(store.gameStates[roomId.value])
      ensures HasRoomId(roomId) && roomId.value !in store.gameStates ==> held.None?
    {
      if !HasRoomId(roomId) {
        return;
      }
      if roomId.value in store.gameStates {
        held := Some(store.gameStates[roomId.value]);
      } else {
        held := None;
      }
    }

    /** The subscription callback: replaces the held state. */
    method OnChange(c: Change)
      modifies this
      ensures held == AfterChange(old(held), c)
    {
      match c
      case Inserted(record) => held := Some(record);
      case Updated(record) => held := Some(record);
      case Deleted => held := None;
    }

    /** `updateGameState`: fails without a room id (none, or the empty string); otherwise the room's record,
        if any, gets the update, and nothing else in the store changes. */
    method UpdateGameState(patch: Patch) returns (r: Outcome)
      requires store.Valid()
      modifies store
      ensures store.Valid()
      ensures store.rooms == old(store.rooms) && store.players == old(store.players)
      ensures !HasRoomId(roomId) ==> r == Err(NoRoomId) && store.gameStates == old(store.gameStates)
      ensures HasRoomId(roomId) ==> r == Ok && store.gameStates == Patched(old(store.gameStates), roomId.value, patch)
    {
      if !HasRoomId(roomId) {
        return Err(NoRoomId);
      }
      var id := roomId.value;
      if id in store.gameStates {
        PutStateKeepsWellFormed(store.rooms, store.players, store.gameStates, Apply(store.gameStates[id], patch));
        store.gameStates := store.gameStates[id := Apply(store.gameStates[id], patch)];
      }
      r := Ok;
    }

    /** `submitVote`: fails without a held state. Otherwise the player's vote is
        written into the held votes (in place, when the held state has a votes
        record) and the whole votes record is written to the store. */
    method SubmitVote(playerId: string, vote: string) returns (r: Outcome)
      requires store.Valid()
      modifies this, store
      ensures store.Valid()
      ensures store.rooms == old(store.rooms) && store.players == old(store.players)
      ensures old(held).None? ==> r == Err(NoGameState) && held == old(held) && store.gameStates == old(store.gameStates)
      ensures old(held).Some? ==>
        var gs := old(held).value;
        var votes := WithVote(gs, playerId, vote);
        && held == (if gs.votes.Some? then Some(gs.(votes := Some(votes))) else old(held))
        && (!HasRoomId(roomId) ==> r == Err(NoRoomId) && store.gameStates == old(store.gameStates))
        && (HasRoomId(roomId) ==>
              (r == Ok && store.gameStates == Patched(old(store.gameStates), roomId.value, Patch(None, None, Some(Some(votes)), None, None))))
    {
      if held.None? {
        return Err(NoGameState);
      }
      var gs := held.value;
      var votes := gs.votes.GetOr(map[]);
      votes := votes[playerId := vote];
      if gs.votes.Some? {
        held := Some(gs.(votes := Some(votes)));
      }
      r := UpdateGameState(Patch(None, None, Some(Some(votes)), None, None));
    }

    /** `submitAnswer`: as `submitVote`, for the answers record. */
    method SubmitAnswer(playerId: string, answer: Answer) returns (r: Outcome)
      requires store.Valid()
      modifies this, store
      ensures store.Valid()
      ensures store.rooms == old(store.rooms) && store.players == old(store.players)
      ensures old(held).None? ==> r == Err(NoGameState) && held == old(held) && store.gameStates == old(store.gameStates)
      ensures old(held).Some? ==>
        var gs := old(held).value;
        var answers := WithAnswer(gs, playerId, answer);
        && held == (if gs.answers.Some? then Some(gs.(answers := Some(answers))) else old(held))
        && (!HasRoomId(roomId) ==> r == Err(NoRoomId) && store.gameStates == old(store.gameStates))
        && (HasRoomId(roomId) ==>
              (r == Ok && store.gameStates == Patched(old(store.gameStates), roomId.value, Patch(None, None, None, Some(Some(answers)), None))))
    {
      if held.None? {
        return Err(NoGameState);
      }
      var gs := held.value;
      var answers := gs.answers.GetOr(map[]);
      answers := answers[playerId := answer];
      if gs.answers.Some? {
        held := Some(gs.(answers := Some(answers)));
      }
      r := UpdateGameState(Patch(None, None, None, Some(Some(answers)), None));
    }

    /** `updateTimer`: writes the timer field only; it needs no held state. */
    method UpdateTimer(timer: int) returns (r: Outcome)
      requires store.Valid()
      modifies store
      ensures store.Valid()
      ensures store.rooms == old(store.rooms) && store.players == old(store.players)
      ensures !HasRoomId(roomId) ==> r == Err(NoRoomId) && store.gameStates == old(store.gameStates)
      ensures HasRoomId(roomId) ==>
        (r == Ok && store.gameStates == Patched(old(store.gameStates), roomId.value, Patch(Some(timer), None, None, None, None)))
    {
      r := UpdateGameState(Patch(Some(timer), None, None, None, None));
    }

    /** `nextRound`: fails without a held state; otherwise writes the held round
        plus one and empty votes and answers, leaving timer and current turn. */
    method NextRound() returns (r: Outcome)
      requires store.Valid()
      modifies store
      ensures store.Valid()
      ensures store.rooms == old(store.rooms) && store.players == old(store.players)
      ensures held.None? ==> r == Err(NoGameState) && store.gameStates == old(store.gameStates)
      ensures held.Some? && !HasRoomId(roomId) ==> r == Err(NoRoomId) && store.gameStates == old(store.gameStates)
      ensures held.Some? && HasRoomId(roomId) ==>
        (r == Ok && store.gameStates == Patched(old(store.gameStates), roomId.value,
                                                Patch(None, Some(held.value.round + 1), Some(Some(map[])), Some(Some(map[])), None)))
    {
      if held.None? {
        return Err(NoGameState);
      }
      r := UpdateGameState(Patch(None, Some(held.value.round + 1), Some(Some(map[])), Some(Some(map[])), None));
    }
  }

  /** After `nextRound` the room's record is in the next round with no votes and
      no answers, and keeps its timer and current turn. */
  lemma NextRoundResets(gs: GameState, round: int)
    ensures var after := Apply(gs, Patch(None, Some(round + 1), Some(Some(map[])), Some(Some(map[])), None));
      && after.round == round + 1 && after.votes == Some(map[]) && after.answers == Some(map[])
      && after.timer == gs.timer && after.currentTurn == gs.currentTurn && after.roomId == gs.roomId
  {
  }

  /** A vote written by `submitVote` over a held state that matches the store
      records the vote and keeps every other voter's entry. */
  lemma SubmittedVoteKeepsOthers(gs: GameState, playerId: string, vote: string, other: string)
    requires other != playerId && other in gs.votes.GetOr(map[])
    ensures var after := Apply(gs, Patch(None, None, Some(Some(WithVote(gs, playerId, vote))), None, None));
      && after.votes.Some? && after.votes.value[playerId] == vote
      && other in after.votes.value && after.votes.value[other] == gs.votes.GetOr(map[])[other]
      && after.timer == gs.timer && after.round == gs.round && after.answers == gs.answers
  {
  }
}
