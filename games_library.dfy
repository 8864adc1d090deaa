/** The static catalog: three game definitions per suit and the per-suit display
    names, emoji and colours. */
module GamesLibrary {
  import opened Wrappers
  import opened GameTypes

  const HeartsGames: seq<Definition> := [
    Definition("witch_hunt", "Witch Hunt",
      "Voten quién es la \"bruja\". Si aciertan todos sobreviven menos la bruja.",
      "vote_elimination", HeartsRules(3, Secret)),
    Definition("trust_fall", "Trust Fall",
      "Dilema del prisionero: ¿Colaborar o traicionar?",
      "prisoners_dilemma", HeartsRules(2, Secret)),
    Definition("majority_rules", "Majority Rules",
      "La mayoría decide quién se sacrifica cada ronda",
      "majority_vote", HeartsRules(3, Open))
  ]

  const ClubsGames: seq<Definition> := [
    Definition("riddle_room", "Riddle Room",
      "Resuelvan 5 acertijos en equipo",
      "collaborative_riddles", ClubsRules(Some(5), Some(120), None, None)),
    Definition("word_chain", "Word Chain",
      "Construyan una cadena de palabras. Cada jugador añade una palabra relacionada.",
      "sequential_collaboration", ClubsRules(None, None, Some(15), None)),
    Definition("memory_palace", "Memory Palace",
      "Memoricen una secuencia juntos. Cada uno recuerda una parte.",
      "distributed_memory", ClubsRules(None, None, None, Some(20)))
  ]

  const DiamondsGames: seq<Definition> := [
    Definition("math_race", "Math Race",
      "Resuelvan ecuaciones. El más rápido gana puntos.",
      "speed_math", DiamondsRules(Some(10), None, None)),
    Definition("pattern_break", "Pattern Break",
      "Identifiquen el patrón en la secuencia",
      "pattern_recognition", DiamondsRules(None, Some(3), None)),
    Definition("logic_gates", "Logic Gates",
      "Resuelvan un circuito lógico paso a paso",
      "boolean_logic", DiamondsRules(None, None, Some(Medium)))
  ]

  const SpadesGames: seq<Definition> := [
    Definition("hot_seat", "Hot Seat",
      "Respondan preguntas personales bajo presión de tiempo",
      "timed_questions", SpadesRules(Some(3), Some(10), None, None)),
    Definition("dare_or_dare", "Dare or Dare",
      "Completen desafíos físicos. Confirmen cuando terminen.",
      "physical_challenges", SpadesRules(None, None, Some(5), None)),
    Definition("endurance_test", "Endurance Test",
      "Mantengan una posición/acción. Último en rendirse gana.",
      "last_standing", SpadesRules(None, None, None, Some(30)))
  ]

  /** Whether a catalog entry carries the settings of the given suit. */
  predicate RulesOfSuit(rules: Rules, suit: Suit) {
    match suit
    case Hearts => rules.HeartsRules?
    case Clubs => rules.ClubsRules?
    case Diamonds => rules.DiamondsRules?
    case Spades => rules.SpadesRules?
  }

  /** `gamesLibrary[suit]`: every pool holds three entries, all with the settings
      of their own suit, so picking from a pool always has a candidate. */
  function Pool(suit: Suit): (r: seq<Definition>)
    ensures |r| == 3
    ensures forall i :: 0 <= i < |r| ==> RulesOfSuit(r[i].rules, suit)
  {
    match suit
    case Hearts => HeartsGames
    case Clubs => ClubsGames
    case Diamonds => DiamondsGames
    case Spades => SpadesGames
  }

  /** `getSuitName`. */
  function SuitName(suit: Suit): (r: string)
    ensures suit == Hearts ==> r == "Corazones"
    ensures suit == Clubs ==> r == "Tréboles"
    ensures suit == Diamonds ==> r == "Diamantes"
    ensures suit == Spades ==> r == "Picas"
  {
    match suit
    case Hearts => "Corazones"
    case Clubs => "Tréboles"
    case Diamonds => "Diamantes"
    case Spades => "Picas"
  }

  /** `getSuitEmoji`: the suit symbol followed by the emoji variation selector. */
  function SuitEmoji(suit: Suit): (r: string)
    ensures |r| == 2 && r[1] == '\U{FE0F}'
  {
    match suit
    case Hearts => "\U{2665}\U{FE0F}"
    case Clubs => "\U{2663}\U{FE0F}"
    case Diamonds => "\U{2666}\U{FE0F}"
    case Spades => "\U{2660}\U{FE0F}"
  }

  /** `getSuitColor`: a text colour class. */
  function SuitColor(suit: Suit): (r: string)
    ensures |r| >= 5 && r[..5] == "text-"
  {
    match suit
    case Hearts => "text-red-500"
    case Clubs => "text-green-500"
    case Diamonds => "text-blue-500"
    case Spades => "text-purple-500"
  }

  /** Names, emoji and colours tell the suits apart. */
  lemma SuitLabelsDistinct(a: Suit, b: Suit)
    requires a != b
    ensures SuitName(a) != SuitName(b)
    ensures SuitEmoji(a) != SuitEmoji(b)
    ensures SuitColor(a) != SuitColor(b)
  {
    assert SuitEmoji(a)[0] != SuitEmoji(b)[0];
    assert SuitName(a)[0] != SuitName(b)[0];
    assert SuitColor(a)[5] != SuitColor(b)[5];
  }

  /** No id occurs twice in the catalog, within a pool or across pools. */
  lemma CatalogIdsDistinct(s: Suit, t: Suit, i: nat, j: nat)
    requires i < 3 && j < 3
    requires Pool(s)[i].id == Pool(t)[j].id
    ensures s == t && i == j
  {
    var a, b := Pool(s)[i].id, Pool(t)[j].id;
    assert a[..3] == b[..3];
    match s {
      case Hearts => assert Pool(s) == HeartsGames;
      case Clubs => assert Pool(s) == ClubsGames;
      case Diamonds => assert Pool(s) == DiamondsGames;
      case Spades => assert Pool(s) == SpadesGames;
    }
  }

  /** Every hearts entry has a positive number of rounds (and, by its type, a
      secret or open voting type). */
  lemma HeartsDefinitionsWellFormed(i: nat)
    requires i < |HeartsGames|
    ensures HeartsGames[i].rules.HeartsRules? && HeartsGames[i].rules.rounds > 0
    ensures HeartsGames[i].rules.votingType in {Secret, Open}
  {
  }
}
