# Party-game rooms and game sessions, modelled in Dafny

This project models the core of a browser party game built on a hosted
Postgres store. Players gather in a **room** identified by a six-character
code. One of them is the **host**, who starts a **game**. A game is drawn from
a catalog of twelve games in four suits:

- hearts: social voting games;
- clubs: collaborative riddles;
- diamonds: turn-based maths problems;
- spades: individual challenges.

While a game runs, a per-room **game state** record holds the timer, the round,
the votes and the answers. When the game ends, it is judged into survivors and
eliminated players. The program also provides a card award for the winners
(`updatePlayerCards`) and a sweep that marks silent players disconnected and
deletes abandoned lobbies (`cleanupRooms`). Nothing in the program calls
either of them; the model covers them as the library functions they are. A
periodic host check does run while a room is open. A client-side session keeps
a copy of the room's game state and writes votes, answers and round changes
back to the store.

The modules follow the program's files:

| module | file | flavour |
|---|---|---|
| `GameTypes` | `game_types.dfy` | the records: suits, rules, games, players, rooms, game states |
| `GamesLibrary` | `games_library.dfy` | the catalog and the suit labels, as constants and functions |
| `GameGenerator` | `game_generator.dfy` | random and requested game generation; random draws are parameters |
| `GameLogic` | `game_logic.dfy` | vote validation and resolution, answer checking, completion, results, card awards |
| `RoomManager` | `room_manager.dfy` | the store (class `Store` with a map per table) and every room operation as a method on it |
| `RoomCleanup` | `room_cleanup.dfy` | the staleness sweep and the host check, as methods over a `Store` |
| `UseGame` | `use_game.dfy` | the client session (class `GameSession`), its change notifications and its store writes |
| `Text`, `Sets`, `Wrappers` | `text.dfy`, `sets.dfy`, `wrappers.dfy` | string trimming, upper-casing and decimal printing; a set lemma; `Option`/`Result` |

Modelling decisions:

- **The store.** It is a `Store` object with three maps: rooms by id, players
  by id, and game states by room id. Keying game states by room id is an
  assumption (see "## Left out"). `Store.Valid()` states what the database
  and the operations keep true together:
  - every record sits under its own key;
  - room codes are unique;
  - every player and game state belongs to an existing room;
  - there is one player record per (room, user);
  - no room holds more than ten records.
- **Cascades.** The model assumes that deleting a room also deletes its
  players and its game state (see "## Left out").
- **Randomness.** Every `Math.random()` draw is a real parameter in `[0, 1)`. The
  random sort that shuffles the diamonds turn order is a list of swaps.
- **Fresh values.** New ids and the current time are parameters.
- **Store failures.** A store failure is a boolean parameter where the model
  keeps that error path.
- **Vote tallies.** Vote resolution is specified by functions over the votes
  map (`Tally`, `MaxTally`, `WithTally`). The source's loops are methods proved
  against those functions.

## Model

| member | source | states |
|---|---|---|
| GamesLibrary.Pool | data/gamesLibrary.ts:105-110 | every suit's pool holds three entries, each with the rules record of its own suit |
| GamesLibrary.SuitName | data/gamesLibrary.ts:112-120 | the Spanish name of each suit |
| GamesLibrary.SuitEmoji | data/gamesLibrary.ts:122-130 | each suit's emoji is a symbol followed by the emoji presentation selector |
| GamesLibrary.SuitColor | data/gamesLibrary.ts:132-140 | each suit's colour is a `text-` style class |
| GamesLibrary.SuitLabelsDistinct | data/gamesLibrary.ts:112-140 | different suits get different names, emojis and colours |
| GamesLibrary.CatalogIdsDistinct | data/gamesLibrary.ts:3-103 | no catalog id occurs twice, within a suit or across suits |
| GamesLibrary.HeartsDefinitionsWellFormed | data/gamesLibrary.ts:3-28 | every hearts entry has hearts rules with a positive round count and a secret or open voting type; a direct consequence of the definitions |
| GameGenerator.Pick | lib/gameGenerator.ts:10 | `Math.floor(x * n)` for a draw in [0, 1) is a valid index below n |
| GameGenerator.BaseDifficulty | lib/gameGenerator.ts:13 | the base difficulty lies between 3 and 7 |
| GameGenerator.Difficulty | lib/gameGenerator.ts:14-15 | the difficulty is the base plus one per three players, capped at 10; from a base in 3..7 it lies in 3..10 |
| GameGenerator.CardLabelReadsBack | lib/gameGenerator.ts:34 | the card label starts with the difficulty's decimal digits, which parse back to the difficulty, followed by " de " and the suit's name |
| GameGenerator.Unplayed | lib/gameGenerator.ts:18-20 | the unplayed entries are exactly the pool entries whose ids are not in the history |
| GameGenerator.GamePool | lib/gameGenerator.ts:18-23 | the pool is never empty; it avoids the history when some entry is unplayed and is the whole suit pool when all have been played |
| GameGenerator.NoImmediateRepeat | lib/gameGenerator.ts:18-24 | when some entry of the suit is unplayed, the game just played cannot be drawn again |
| GameGenerator.FirstTurn | lib/gameGenerator.ts:63-68 | `turnOrder[0] \|\| null`: the first id, unless there is none or it is empty |
| GameGenerator.ShuffleTurnOrder | lib/gameGenerator.ts:63 | the shuffled turn order is a permutation of the player ids |
| GameGenerator.NoCompletions | lib/gameGenerator.ts:76-79 | the completions record has one entry per player id, all false |
| GameGenerator.InitialParams | lib/gameGenerator.ts:38-87 | the per-suit starting parameters (hearts unrevealed, clubs at riddle 0, diamonds with a permuted turn order and its first id, spades with no completions) |
| GameGenerator.GenerateRandomGame | lib/gameGenerator.ts:4-90 | the suit, the catalog entry, the difficulty, the time limit (60 s per level), the card and the parameters are the ones the draws select |
| GameGenerator.FindDefinition | lib/gameGenerator.ts:98-101 | finds an entry with the requested id in the pool, or nothing exactly when no entry has it |
| GameGenerator.RequestedDifficulty | lib/gameGenerator.ts:103 | a requested non-zero difficulty is kept; a missing or zero one is replaced by a base difficulty in 3..7 |
| GameGenerator.GenerateSpecificGame | lib/gameGenerator.ts:92-164 | nothing exactly when the id is not in the suit's pool; otherwise that entry, with the requested suit, difficulty, time limit, card and parameters |
| GameLogic.FindPlayer | lib/gameLogic.ts:11-18 | `players.find`: the first roster entry with the id, or nothing exactly when there is none |
| GameLogic.AliveIds | lib/gameLogic.ts:45 | the alive ids are exactly the ids of alive roster entries |
| GameLogic.ValidateVote | lib/gameLogic.ts:3-37 | a vote is valid exactly when voter and target are living, the voter has no recorded vote, and it is not a self-vote in a hearts game other than majority_rules; otherwise the first failing check gives its message; valid exactly when there is no error |
| GameLogic.AcceptedVoteDoesNotOverwrite | lib/gameLogic.ts:23-26 | an accepted vote never replaces a vote already recorded for the voter |
| GameLogic.Distinct | lib/gameLogic.ts:55-58 | the keys of the vote-count record: exactly the ids, each once |
| GameLogic.FirstOccurrence | lib/gameLogic.ts:55-58 | the position at which an id first occurs: it holds the id and no earlier position does |
| GameLogic.DistinctKeepsFirstOccurrenceOrder | lib/gameLogic.ts:55-58 | the vote-count keys come in the order in which the ids first occur, which is the insertion order of the record |
| GameLogic.MaxTally | lib/gameLogic.ts:66 | the maximum tally over the keys, reached by some key (0 without keys) |
| GameLogic.WithTally | lib/gameLogic.ts:67-69 | the keys whose tally equals the given count |
| GameLogic.Excluding | lib/gameLogic.ts:71-73 | the ids not among the eliminated ones |
| GameLogic.DilemmaPartition | lib/gameLogic.ts:103-121 | under the dilemma, the eliminated ids are exactly the living players who voted betray and the survivors the other living players |
| GameLogic.VoteResultsPartition | lib/gameLogic.ts:39-124 | for every suit and mechanic, eliminated ids are living and survivors are exactly the living ids not eliminated |
| GameLogic.NonHeartsEliminatesNobody | lib/gameLogic.ts:47-49 | outside hearts nobody is eliminated and every living player survives |
| GameLogic.CatalogMajorityRulesAsWritten | lib/gameLogic.ts:78 | the catalog's Majority Rules entry is not handled by the majority branch: its votes eliminate nobody, and self-votes are refused in it |
| GameLogic.PluralityEliminatesMostVoted | lib/gameLogic.ts:53-76 | under vote_elimination a living player is eliminated exactly when no living player has more votes (ties eliminate all tied players) |
| GameLogic.MajorityNeedsAVote | lib/gameLogic.ts:78-101 | under majority_rules the same, but only players with at least one vote can be eliminated |
| GameLogic.DilemmaEliminatesBetrayers | lib/gameLogic.ts:103-121 | under prisoners_dilemma exactly the living betrayers are eliminated |
| GameLogic.NoVotesEliminatesEveryone | lib/gameLogic.ts:53-76 | under vote_elimination, when no vote names a living player, every living player is eliminated and nobody survives |
| GameLogic.PluralityExample | lib/gameLogic.ts:53-76 | with votes a→c, b→c, c→a among living a, b, c, exactly c is eliminated and a, b survive in order |
| GameLogic.TieExample | lib/gameLogic.ts:53-76 | two players voting for each other are both eliminated and nobody survives |
| GameLogic.ZeroCounts | lib/gameLogic.ts:55-58 | the first counting loop: one zero entry per living id |
| GameLogic.AddVotes | lib/gameLogic.ts:60-64 | the second counting loop: starting from zeros, each key's count ends at its tally |
| GameLogic.CountVotes | lib/gameLogic.ts:55-64 | the vote-count record has exactly the living ids as keys, each mapped to its tally |
| GameLogic.HighestCount | lib/gameLogic.ts:66 | the loop computing the maximum count agrees with `MaxTally` |
| GameLogic.MostVoted | lib/gameLogic.ts:67-69 | the filtering loop agrees with `WithTally` |
| GameLogic.ResolveDilemma | lib/gameLogic.ts:103-121 | the `forEach` loop with its two pushes computes the dilemma outcome |
| GameLogic.CalculateVoteResults | lib/gameLogic.ts:39-124 | the imperative resolution equals the specification function `VoteResults`, about which the lemmas above are proved |
| GameLogic.ValidateAnswer | lib/gameLogic.ts:126-163 | clubs: valid exactly when the answer is truthy and, if text, not blank; diamonds speed_math: only a number or a string; spades: only `true` or "completed"; hearts and every other case: valid; valid exactly when marked correct and exactly when there is no error |
| GameLogic.StandingPlayers | lib/gameLogic.ts:240 | the standing players are exactly the roster entries that are alive and connected |
| GameLogic.FallenPlayers | lib/gameLogic.ts:241 | the fallen players are exactly the others |
| GameLogic.StandingFallenCover | lib/gameLogic.ts:240-241 | standing and fallen together are the roster, as a multiset |
| GameLogic.CheckGameCompletion | lib/gameLogic.ts:165-228 | completion in the source's priority order: nobody standing, then time up, then the hearts round limit, the clubs riddle count, the diamonds problem count or the spades completions, each with its own reason; an uncompleted game has no success and no reason; success implies completion |
| GameLogic.CalculateGameResults | lib/gameLogic.ts:230-255 | survivors and eliminated partition the roster; the game is clear exactly when someone stands; the winners are the survivors |
| GameLogic.UpdatePlayerCards | lib/gameLogic.ts:257-265 | each winner gains `cardsPerWin` cards; no other field and no other player changes |
| GameLogic.AwardGoesToStandingPlayers | lib/gameLogic.ts:230-265 | with distinct ids, a player gains cards exactly when standing |
| GameLogic.CompletionAgreesWithResults | lib/gameLogic.ts:165-255 | a successful completion means a clear game, and "all eliminated" means a game that is not clear |
| Text.TrimEmptyIffAllSpace | lib/gameLogic.ts:134 | `trim()` yields the empty string exactly when the text is all white space |
| Text.ToUpper | lib/roomManager.ts:94 | upper-casing keeps the length and upper-cases each ASCII letter |
| Text.NatToStringRoundTrip | lib/gameGenerator.ts:34 | the decimal rendering of a number parses back to it |
| RoomManager.CodeOf | lib/roomManager.ts:7-14 | a code is six characters, each picked from `A-Z0-9` by its draw |
| RoomManager.GenerateRoomCode | lib/roomManager.ts:7-14 | the character loop builds the code the draws select |
| RoomManager.UpperCodeIsCode | lib/roomManager.ts:94 | a generated code is unchanged by upper-casing, so its owner can join by typing it in any case |
| RoomManager.FindFreeCode | lib/roomManager.ts:24-45 | the retry loop returns the first of up to ten drawn codes not in use, and nothing exactly when all ten are in use |
| RoomManager.DisplayName | lib/roomManager.ts:143 | the trimmed name, or "Jugador" when it is blank; never empty |
| RoomManager.BotName | lib/roomManager.ts:382-399 | the i-th name from the list, or "Bot i+1" past its end |
| RoomManager.Bots | lib/roomManager.ts:394-404 | one connected, alive bot record with no cards per given id, named by `BotName` |
| RoomManager.BotBatch | lib/roomManager.ts:394-404 | the loop building the bot records computes `Bots` |
| RoomManager.InitialState | lib/roomManager.ts:277-287 | a game starts at round 1 with the game's time limit, no votes, no answers and no turn |
| RoomManager.HistoryIds | lib/roomManager.ts:253 | the ids of the games in the history, in order |
| RoomManager.ChooseGame | lib/roomManager.ts:253-262 | nothing exactly when a selected game is missing from its suit's pool; otherwise the selected game, or a random game whose pool avoids the history |
| RoomManager.EarliestConnected | lib/roomManager.ts:202-208 | the earliest-created connected record of the room, or nothing exactly when nobody is connected |
| RoomManager.AddRoomKeepsWellFormed | lib/roomManager.ts:47-56 | a new room under its own id with an unused code keeps the tables well formed and has no records yet |
| RoomManager.AddPlayerKeepsWellFormed | lib/roomManager.ts:137-153 | inserting a new record for a user without one, into a room below the cap, keeps the store well formed and adds it to the room |
| RoomManager.InsertAllKeepsWellFormed | lib/roomManager.ts:406-412 | inserting a batch of fresh records that fit under the cap keeps the store well formed |
| RoomManager.DeleteRoomKeepsWellFormed | lib/roomManager.ts:172 | deleting a room with its players and game state keeps the store well formed |
| RoomManager.Store.DeleteRoom | lib/roomManager.ts:172 | the room, its player records and its game state are removed, and nothing else (the cascade is an assumption, see Left out) |
| RoomManager.Store.CreateRoom | lib/roomManager.ts:16-81 | on a free code: a waiting room hosted by the creator, with one connected "Host" record; no free code or a failed insert changes nothing; created exactly when a code is free and both inserts succeed |
| RoomManager.Store.InsertRoomWithHost | lib/roomManager.ts:47-77 | the room goes in under a free code and then its host's record; when the player insert fails the room is removed again and the store is as before |
| RoomManager.Store.JoinRoom | lib/roomManager.ts:83-154 | the code is matched upper-cased; an unknown code, a full room (ten records) or a playing room is refused without change; a returning user's record is reconnected; otherwise a new record with the display name is added |
| RoomManager.Store.PromoteNewHost | lib/roomManager.ts:198-216 | the earliest-created connected player's user becomes host; with nobody connected nothing changes |
| RoomManager.Store.LeaveRoom | lib/roomManager.ts:156-196 | unknown room: refused; the host leaving a lobby deletes it; otherwise the user's record goes, and a host leaving a game hands the room on to the earliest connected player |
| RoomManager.Store.ConnectedIds | lib/roomManager.ts:237-241 | the ids of the room's connected records, each once |
| RoomManager.Store.StartGame | lib/roomManager.ts:218-294 | refused exactly when the caller is not the host, exactly when nobody is connected, and exactly when a selected game is missing from its pool; otherwise it succeeds, the room is playing the game drawn from the connected players and the draws, and its game state is the initial one; every refusal leaves the store unchanged |
| RoomManager.Store.Launch | lib/roomManager.ts:264-293 | the room becomes playing with the game and the game state is replaced by the initial one (one game-state row per room is an assumption, see Left out) |
| RoomManager.Store.EndGame | lib/roomManager.ts:296-330 | succeeds exactly when the caller is the host of an existing room; then the room shows results and the current game, if any, is appended to the history |
| RoomManager.Store.NextGame | lib/roomManager.ts:332-348 | refused exactly when the caller is not the host or nobody is connected, with only those two messages; otherwise it succeeds as a start with a random game that avoids the history |
| RoomManager.Store.UpdatePlayerConnection | lib/roomManager.ts:350-361 | the user's record in the room gets the connected flag and the last-seen time; no other record changes |
| RoomManager.Store.AddBots | lib/roomManager.ts:406-412 | the batch is inserted and the store stays valid |
| RoomManager.Store.CreateTestPlayers | lib/roomManager.ts:364-418 | more bots than the free places is refused with its message, bots for a missing room fail to insert, otherwise exactly `Bots` is inserted |
| RoomCleanup.MarkStale | lib/roomCleanup.ts:12-16 | after the bulk update a record is connected exactly when it was connected and seen within 30 s; nothing else changes |
| RoomCleanup.MarkStaleIdempotent | lib/roomCleanup.ts:12-16 | sweeping twice at the same time is sweeping once; a direct consequence of the definitions |
| RoomCleanup.Remaining | lib/roomCleanup.ts:33-39 | the rooms left after visiting some rooms: all but the visited abandoned lobbies |
| RoomCleanup.ReclaimAbandoned | lib/roomCleanup.ts:25-41 | the room loop deletes exactly the abandoned lobbies, with their players and game states |
| RoomCleanup.CleanupRooms | lib/roomCleanup.ts:4-42 | stale players are disconnected, then exactly the abandoned lobbies are deleted; playing and results rooms survive unchanged and no remaining room is abandoned |
| RoomCleanup.CheckAndPromoteHost | lib/roomCleanup.ts:45-80 | nothing changes for a missing room, a host without a record or a connected host; a disconnected host is replaced by the earliest connected player, if any |
| UseGame.Apply | hooks/useGame.ts:76 | a partial update keeps the room id and, when empty, the whole record |
| UseGame.ApplyIdempotent | hooks/useGame.ts:76 | applying the same update twice is applying it once; a direct consequence of the definitions |
| UseGame.Patched | hooks/useGame.ts:74-77 | only the room's record changes, and by the update |
| UseGame.WithVote | hooks/useGame.ts:90-91 | the votes record with the player's vote written in and every other vote kept |
| UseGame.WithAnswer | hooks/useGame.ts:99-100 | the answers record with the player's answer written in and every other answer kept |
| UseGame.AfterChange | hooks/useGame.ts:55-61 | an insert or update notification replaces the held state; a delete clears it |
| UseGame.LatestSnapshotWins | hooks/useGame.ts:55-61 | after any non-empty run of notifications the held state is what the last one says |
| UseGame.NextRoundResets | hooks/useGame.ts:112-116 | the next round's record has the round plus one, no votes and no answers, and keeps the timer and the turn; a direct consequence of the definitions |
| UseGame.SubmittedVoteKeepsOthers | hooks/useGame.ts:87-94 | a submitted vote is recorded and every other voter's vote is kept |
| UseGame.GameSession.constructor | hooks/useGame.ts:7-8 | a session starts holding nothing |
| UseGame.GameSession.Fetch | hooks/useGame.ts:13-40 | without a room id (none, or the empty string) nothing is fetched; otherwise the room's record, or nothing when the room has none |
| UseGame.GameSession.OnChange | hooks/useGame.ts:55-61 | the held state becomes `AfterChange` of the notification |
| UseGame.GameSession.UpdateGameState | hooks/useGame.ts:70-85 | "No room ID" without a room id (none, or the empty string); otherwise the room's record is patched and nothing else changes |
| UseGame.GameSession.SubmitVote | hooks/useGame.ts:87-94 | "No game state" without a held state; otherwise the merged votes are written, and the held record is changed in place when it had a votes record |
| UseGame.GameSession.SubmitAnswer | hooks/useGame.ts:96-103 | as for votes, with the answers record |
| UseGame.GameSession.UpdateTimer | hooks/useGame.ts:105-107 | writes the timer alone; it needs no held state; "No room ID" without a room id (none, or the empty string) |
| UseGame.GameSession.NextRound | hooks/useGame.ts:109-117 | "No game state" without a held state; otherwise the round plus one with empty votes and answers is written |

## Behaviour as written

The model follows the code where it departs from what the game's documentation
suggests.

- Nothing in the program calls `updatePlayerCards` (lib/gameLogic.ts:257) or
  `cleanupRooms` (lib/roomCleanup.ts:4). The results screen computes the
  results and shows the stored card counts, which therefore never change. The
  only periodic timer, in hooks/useRoom.ts:56, runs `checkAndPromoteHost`.
  `GameLogic.UpdatePlayerCards` and `RoomCleanup.CleanupRooms` model what
  these functions would do if called.

- The documented invariant is that a room is waiting exactly when it has no
  current game. `endGame` and `startGame` have no status guard, so a waiting
  room can be sent to results with no current game, and `Store.EndGame` allows
  it.
- The catalog's Majority Rules entry carries the mechanic `majority_vote`,
  while the engine's branch tests for `majority_rules`. Resolving that game's
  votes therefore eliminates nobody, and its self-vote rule is the one for
  other hearts games (`GameLogic.CatalogMajorityRulesAsWritten`).
- Under `vote_elimination`, a round in which no living player received a vote
  eliminates every living player (`GameLogic.NoVotesEliminatesEveryone`).
- When a host leaves a running game and nobody is connected, or when
  `checkAndPromoteHost` finds nobody connected, the room keeps a host who is
  gone.

## Left out

- Network and store errors other than the ones modelled are left out: the
  error results of `joinRoom` ("Error al unirse a la sala", "Error al verificar
  jugadores"), of `leaveRoom` ("Error al eliminar la sala", "Error al salir de
  la sala"), of `startGame` ("Error al iniciar el juego", "Error al
  inicializar el estado del juego") and of `endGame` ("Error al terminar el
  juego"). Also left out are `updateGameState`'s error result and `useGame`'s
  fetch errors other than "no row". Each of these is a store
  failure with no further logic. The modelled failures are `createRoom`'s two
  inserts and `createTestPlayers`' insert into a missing room.
- Identifier generation (`crypto.randomUUID`, and the hand-made UUIDs of the
  bots) is left out: fresh ids are parameters, assumed unused.
- The clock is left out: each operation reads one `now`. `cleanupRooms`
  re-reads `Date.now()` per room, which the model does not distinguish.
  `cleanupRooms` also computes a five-minutes-ago timestamp that it never
  uses.
- Realtime subscriptions, their transport and concurrent writers are left out.
  A notification is a value passed to `UseGame.GameSession.OnChange`.
- `useGame`'s loading and error flags are left out: they are view state with
  no effect on the store.
- UI timers, sounds, animations and all React components are left out.
- Object key order is not modelled in general. JavaScript lists the keys of
  the vote-count record in insertion order except for integer-like keys,
  which come first. `GameLogic.Distinct` models insertion order only.
- `Text.ToUpper` does not model `toUpperCase` beyond ASCII letters. Room codes
  are ASCII, so the lookup by code is unaffected.
- `RoomManager.Store.PromoteNewHost`: when several connected records share
  the earliest creation time, the database's tie-break is unspecified; the
  model picks any one of them.
- The database schema is not part of this model. Two assumptions stand in
  for it:
  - Deleting a room row also deletes its players and its game state, as
    foreign keys with cascading deletes would. `leaveRoom`
    (lib/roomManager.ts:172) and `cleanupRooms` (lib/roomCleanup.ts:38) delete
    only the room row. `RoomManager.Store.DeleteRoom` and everything that
    calls it rest on this assumption.
  - A room has at most one `game_state` row, and `startGame`'s upsert, which
    names no conflict column, replaces it. The row has its own `id` key
    (lib/supabase/types.ts:75). `RoomManager.Store.Launch` rests on this
    assumption.
- The game-state record's own id and `updated_at` columns are left out.
- `console.warn` for a one-player start is left out.
- Two default arguments are required parameters in the model, so callers must
  pass them. One is `cardsPerWin` (default 1) of `updatePlayerCards`, the
  `cardsPerWin` parameter of `GameLogic.UpdatePlayerCards`. The other is
  `count` (default 2) of `createTestPlayers`, the `count` parameter of
  `RoomManager.Store.CreateTestPlayers`. The program's one call of
  `createTestPlayers` passes 2.
- `GameGenerator.ShuffleTurnOrder` models the comparator-driven sort as an
  arbitrary sequence of swaps. It does not capture which permutations the
  engine's sort can reach.
