/** The records the room and game-session logic works on: rooms, players, game
    instances and the per-room game state, as they are stored in the backing store. */
module GameTypes {
  import opened Wrappers

  /** The four game categories; each has its own family of mechanics. */
  datatype Suit = Hearts | Clubs | Diamonds | Spades

  /** Lifecycle of a room: lobby, game in progress, results screen. */
  datatype RoomStatus = Waiting | Playing | Results

  datatype VotingType = Secret | Open

  datatype Complexity = Low | Medium | High

  /** The catalog settings that depend on the suit. Optional settings are `None`
      when the catalog entry leaves them out. */
  datatype Rules =
    | HeartsRules(rounds: int, votingType: VotingType)
    | ClubsRules(riddles: Option<int>, discussionTime: Option<int>,
                 targetLength: Option<int>, sequenceLength: Option<int>)
    | DiamondsRules(problems: Option<int>, attempts: Option<int>, complexity: Option<Complexity>)
    | SpadesRules(questionsPerPlayer: Option<int>, timePerQuestion: Option<int>,
                  challenges: Option<int>, checkInterval: Option<int>)

  /** A catalog entry: everything of a game except what the generator computes.
      The mechanic is kept as the string the store holds, so that a name the rules
      engine does not know is represented as it is. */
  datatype Definition = Definition(id: string, name: string, description: string,
                                   mechanic: string, rules: Rules)

  /** The per-suit parameters the generator attaches to a fresh game instance. */
  datatype Params =
    | HeartsParams(revealed: bool)
    | ClubsParams(currentRiddle: int, sharedAnswer: string, sequence: seq<string>)
    | DiamondsParams(currentProblem: int, currentPlayer: Option<string>, turnOrder: seq<string>)
    | SpadesParams(currentChallenge: int, completions: map<string, bool>)

  /** A generated game instance: a catalog entry plus suit, numeric difficulty,
      time limit in seconds, display label and parameters. */
  datatype Game = Game(definition: Definition, suit: Suit, difficulty: int, timeLimit: int,
                       card: string, parameters: Option<Params>)
  {
    function Id(): string { definition.id }
    function Mechanic(): string { definition.mechanic }
  }

  /** A player record; timestamps are milliseconds. `id` is the record's key,
      `userId` the identity of the browser session that owns it. */
  datatype Player = Player(id: string, roomId: string, userId: string, name: string,
                           alive: bool, cards: int, connected: bool,
                           lastSeen: int, createdAt: int)

  /** A submitted answer: the store holds arbitrary JSON values. */
  datatype Answer = Text(text: string) | Number(number: int) | Flag(flag: bool) | Missing | Structured

  /** The per-room session state. `votes` and `answers` may be null in the store. */
  datatype GameState = GameState(roomId: string, timer: int, round: int,
                                 votes: Option<map<string, string>>,
                                 answers: Option<map<string, Answer>>,
                                 currentTurn: Option<string>)

  datatype Room = Room(id: string, code: string, hostId: string, status: RoomStatus,
                       createdAt: int, currentGame: Option<Game>, history: seq<Game>)
}
