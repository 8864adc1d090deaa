/** Produces a fresh game instance: picks a suit and a catalog entry, computes the
    difficulty, time limit and label, and attaches the per-suit parameters.

    Every `Math.random()` the generator calls is an explicit draw in [0, 1): the
    suit, the base difficulty and the pool entry each take one draw, and the
    random-comparator sort that shuffles the turn order is given as the sequence
    of exchanges it performs. */
module GameGenerator {
  import opened Wrappers
  import opened GameTypes
  import opened GamesLibrary
  import opened Text

  const AllSuits: seq<Suit> := [Hearts, Clubs, Diamonds, Spades]
  const MaxDifficulty := 10
  const SecondsPerDifficulty := 60

  /** A value `Math.random()` can return. */
  predicate IsDraw(x: real) {
    0.0 <= x < 1.0
  }

  lemma ScaledDrawBounds(x: real, n: nat)
    requires IsDraw(x) && n > 0
    ensures 0.0 <= x * n as real < n as real
  {
    assert x * n as real < 1.0 * n as real;
  }

  /** `Math.floor(x * n)`: an index into a collection of `n` elements. */
  function Pick(x: real, n: nat): (i: nat)
    requires IsDraw(x) && n > 0
    ensures i < n
  {
    ScaledDrawBounds(x, n);
    (x * n as real).Floor
  }

  /** `Math.floor(Math.random() * 5) + 3`. */
  function BaseDifficulty(x: real): (b: int)
    requires IsDraw(x)
    ensures 3 <= b <= 7
  {
    Pick(x, 5) + 3
  }

  /** `Math.min(10, base + Math.floor(playerCount / 3))`: one more level per three
      players, never above 10; from a base in 3..7 the result lies in 3..10. */
  function Difficulty(base: int, playerCount: nat): (d: int)
    ensures d <= MaxDifficulty
    ensures base + playerCount / 3 <= MaxDifficulty ==> d == base + playerCount / 3
    ensures base + playerCount / 3 > MaxDifficulty ==> d == MaxDifficulty
    ensures 3 <= base <= 7 ==> 3 <= d <= MaxDifficulty
  {
    if base + playerCount / 3 < MaxDifficulty then base + playerCount / 3 else MaxDifficulty
  }

  /** The display label `"<difficulty> de <suit name>"`. */
  function CardLabel(difficulty: int, suit: Suit): string {
    IntToString(difficulty) + " de " + SuitName(suit)
  }

  /** The label can be read back: for a non-negative difficulty it starts with the
      difficulty's decimal digits, which parse back to the difficulty, followed by
      " de " and the suit's name. */
  lemma CardLabelReadsBack(difficulty: nat, suit: Suit)
    ensures var card := CardLabel(difficulty, suit);
      var digits := |NatToString(difficulty)|;
      && digits < |card|
      && (forall i :: 0 <= i < digits ==> IsDigit(card[i]))
      && DecimalValue(card[..digits]) == difficulty
      && card[digits..] == " de " + SuitName(suit)
  {
    var text, tail := NatToString(difficulty), " de " + SuitName(suit);
    assert CardLabel(difficulty, suit) == text + tail;
    assert (text + tail)[..|text|] == text && (text + tail)[|text|..] == tail;
    NatToStringRoundTrip(difficulty);
  }

  /** The entries of `pool` whose id is not among `previous`. */
  function Unplayed(pool: seq<Definition>, previous: seq<string>): (r: seq<Definition>)
    ensures |r| <= |pool|
    ensures forall i :: 0 <= i < |r| ==> r[i] in pool && r[i].id !in previous
    ensures forall i :: 0 <= i < |pool| && pool[i].id !in previous ==> pool[i] in r
  {
    if pool == [] then []
    else if pool[0].id !in previous then [pool[0]] + Unplayed(pool[1..], previous)
    else Unplayed(pool[1..], previous)
  }

  /** The pool the generator draws from: the unplayed entries of the suit, or the
      whole suit pool again once every entry has been played. It is never empty;
      while some entry is unplayed it holds no played one. */
  function GamePool(suit: Suit, previous: seq<string>): (r: seq<Definition>)
    ensures 0 < |r| <= |Pool(suit)|
    ensures forall i :: 0 <= i < |r| ==> r[i] in Pool(suit)
    ensures (exists i :: 0 <= i < |Pool(suit)| && Pool(suit)[i].id !in previous) ==>
              forall i :: 0 <= i < |r| ==> r[i].id !in previous
    ensures (forall i :: 0 <= i < |Pool(suit)| ==> Pool(suit)[i].id in previous) ==>
              r == Pool(suit)
  {
    var available := Unplayed(Pool(suit), previous);
    if |available| > 0 then
      assert available[0] in Pool(suit) && available[0].id !in previous;
      available
    else Pool(suit)
  }

  /** The exchanges performed by the sort that shuffles the turn order. */
  datatype Swap = Swap(i: nat, j: nat)

  /** The random choices of one generation. */
  datatype Draws = Draws(suit: real, base: real, pick: real, swaps: seq<Swap>)

  predicate ValidDraws(d: Draws, playerCount: nat) {
    && IsDraw(d.suit) && IsDraw(d.base) && IsDraw(d.pick)
    && forall k :: 0 <= k < |d.swaps| ==> d.swaps[k].i < playerCount && d.swaps[k].j < playerCount
  }

  /** `turnOrder[0] || null`: the first id, unless there is none or it is the
      (falsy) empty string. */
  function FirstTurn(order: seq<string>): (r: Option<string>)
    ensures r.Some? <==> |order| > 0 && order[0] != ""
    ensures r.Some? ==> r.value == order[0]
  {
    if |order| > 0 && order[0] != "" then Some(order[0]) else None
  }

  /** What the generator promises about the parameters of a game of `suit` for the
      players `ids`. */
  predicate ParamsFor(suit: Suit, ids: seq<string>, p: Params) {
    match suit
    case Hearts => p == HeartsParams(false)
    case Clubs => p == ClubsParams(0, "", [])
    case Diamonds =>
      && p.DiamondsParams? && p.currentProblem == 0
      && multiset(p.turnOrder) == multiset(ids)
      && p.currentPlayer == FirstTurn(p.turnOrder)
    case Spades =>
      && p.SpadesParams? && p.currentChallenge == 0
      && p.completions.Keys == (set i | 0 <= i < |ids| :: ids[i])
      && forall id :: id in p.completions ==> !p.completions[id]
  }

  /** `[...players].sort(() => Math.random() - 0.5).map((p) => p.id)`: the sort
      exchanges elements of a copy, so the turn order is a permutation of the ids. */
  method ShuffleTurnOrder(ids: seq<string>, swaps: seq<Swap>) returns (order: seq<string>)
    requires forall k :: 0 <= k < |swaps| ==> swaps[k].i < |ids| && swaps[k].j < |ids|
    ensures |order| == |ids|
    ensures multiset(order) == multiset(ids)
  {
    order := ids;
    var k := 0;
    while k < |swaps|
      invariant 0 <= k <= |swaps|
      invariant |order| == |ids|
      invariant multiset(order) == multiset(ids)
    {
      var s := swaps[k];
      var a, b := order[s.i], order[s.j];
      order := order[s.i := b][s.j := a];
      k := k + 1;
    }
  }

  /** The spades `completions` record, filled by a loop over the players: one key
      per player id, all false. */
  method NoCompletions(ids: seq<string>) returns (completions: map<string, bool>)
    ensures completions.Keys == (set i | 0 <= i < |ids| :: ids[i])
    ensures forall id :: id in completions ==> !completions[id]
  {
    completions := map[];
    var k := 0;
    while k < |ids|
      invariant 0 <= k <= |ids|
      invariant completions.Keys == (set i | 0 <= i < k :: ids[i])
      invariant forall id :: id in completions ==> !completions[id]
    {
      completions := completions[ids[k] := false];
      k := k + 1;
    }
  }

  /** The parameters attached to a fresh game of `suit`. */
  method InitialParams(suit: Suit, ids: seq<string>, swaps: seq<Swap>) returns (p: Params)
    requires forall k :: 0 <= k < |swaps| ==> swaps[k].i < |ids| && swaps[k].j < |ids|
    ensures ParamsFor(suit, ids, p)
  {
    match suit
    case Hearts =>
      p := HeartsParams(false);
    case Clubs =>
      p := ClubsParams(0, "", []);
    case Diamonds =>
      var order := ShuffleTurnOrder(ids, swaps);
      p := DiamondsParams(0, FirstTurn(order), order);
    case Spades =>
      var completions := NoCompletions(ids);
      p := SpadesParams(0, completions);
  }

  /** `generateRandomGame(players, previousGames)` for the players `ids`. */
  method GenerateRandomGame(ids: seq<string>, previous: seq<string>, draws: Draws) returns (g: Game)
    requires ValidDraws(draws, |ids|)
    ensures g.suit == AllSuits[Pick(draws.suit, 4)]
    ensures var pool := GamePool(g.suit, previous);
            g.definition == pool[Pick(draws.pick, |pool|)]
    ensures g.difficulty == Difficulty(BaseDifficulty(draws.base), |ids|)
    ensures 3 <= g.difficulty <= MaxDifficulty
    ensures g.timeLimit == g.difficulty * SecondsPerDifficulty
    ensures g.card == CardLabel(g.difficulty, g.suit)
    ensures g.parameters.Some? && ParamsFor(g.suit, ids, g.parameters.value)
  {
    var suit := AllSuits[Pick(draws.suit, 4)];
    var difficulty := Difficulty(BaseDifficulty(draws.base), |ids|);
    var pool := GamePool(suit, previous);
    var selected := pool[Pick(draws.pick, |pool|)];
    var params := InitialParams(suit, ids, draws.swaps);
    g := Game(selected, suit, difficulty, difficulty * SecondsPerDifficulty,
              CardLabel(difficulty, suit), Some(params));
  }

  /** `gamePool.find((g) => g.id === gameId)`: the first entry with that id. */
  function FindDefinition(pool: seq<Definition>, gameId: string): (r: Option<Definition>)
    ensures r.None? <==> forall i :: 0 <= i < |pool| ==> pool[i].id != gameId
    ensures r.Some? ==> r.value in pool && r.value.id == gameId
  {
    if pool == [] then None
    else if pool[0].id == gameId then Some(pool[0])
    else FindDefinition(pool[1..], gameId)
  }

  /** `difficulty || <random base>`: an explicit difficulty of 0 counts as absent. */
  function RequestedDifficulty(difficulty: Option<int>, x: real): (b: int)
    requires IsDraw(x)
    ensures difficulty.Some? && difficulty.value != 0 ==> b == difficulty.value
    ensures (difficulty.None? || difficulty.value == 0) ==> 3 <= b <= 7
  {
    if difficulty.Some? && difficulty.value != 0 then difficulty.value else BaseDifficulty(x)
  }

  /** `generateSpecificGame(gameId, suit, players, difficulty)`: null exactly when
      the id is not in the suit's pool; otherwise the same clamp, time limit, label
      and parameters as a random game. */
  method GenerateSpecificGame(gameId: string, suit: Suit, ids: seq<string>,
                              difficulty: Option<int>, draws: Draws) returns (g: Option<Game>)
    requires ValidDraws(draws, |ids|)
    ensures g.None? <==> forall i :: 0 <= i < |Pool(suit)| ==> Pool(suit)[i].id != gameId
    ensures g.Some? ==> g.value.definition in Pool(suit) && g.value.Id() == gameId
    ensures g.Some? ==> g.value.suit == suit
    ensures g.Some? ==> g.value.difficulty == Difficulty(RequestedDifficulty(difficulty, draws.base), |ids|)
    ensures g.Some? ==> g.value.timeLimit == g.value.difficulty * SecondsPerDifficulty
    ensures g.Some? ==> g.value.card == CardLabel(g.value.difficulty, suit)
    ensures g.Some? ==> g.value.parameters.Some? && ParamsFor(suit, ids, g.value.parameters.value)
  {
    var selected := FindDefinition(Pool(suit), gameId);
    if selected.None? {
      return None;
    }
    var adjusted := Difficulty(RequestedDifficulty(difficulty, draws.base), |ids|);
    var params := InitialParams(suit, ids, draws.swaps);
    g := Some(Game(selected.value, suit, adjusted, adjusted * SecondsPerDifficulty,
                   CardLabel(adjusted, suit), Some(params)));
  }

  /** After a game has been played (its id is in `previous`), a new draw from the
      same suit does not repeat it while the suit has an unplayed entry. */
  lemma NoImmediateRepeat(suit: Suit, previous: seq<string>, lastId: string, k: nat)
    requires lastId in previous
    requires exists i :: 0 <= i < |Pool(suit)| && Pool(suit)[i].id !in previous
    requires k < |GamePool(suit, previous)|
    ensures GamePool(suit, previous)[k].id != lastId
  {
  }
}
