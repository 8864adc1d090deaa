/** The rules engine: validation of votes and answers, vote resolution per hearts
    mechanic, the prioritised completion check, result partitioning and card
    awarding. Everything here is a function of (game, game state, roster), apart
    from the loops of vote resolution, which are methods proved against the
    functions that specify them. */
module GameLogic {
  import opened Wrappers
  import opened GameTypes
  import opened Text
  import opened GamesLibrary
  import opened Sets

  const VoteElimination := "vote_elimination"
  const MajorityRules := "majority_rules"
  const PrisonersDilemma := "prisoners_dilemma"
  const CollaborativeRiddles := "collaborative_riddles"
  const SpeedMath := "speed_math"
  const Betray := "betray"

  /*************************************************************************
   * Roster queries
   *************************************************************************/

  /** The index of the first roster entry with id `id`, or `|players|` if none. */
  function FirstIndex(players: seq<Player>, id: string): (k: nat)
    ensures k <= |players|
    ensures forall j :: 0 <= j < k ==> players[j].id != id
    ensures k < |players| ==> players[k].id == id
  {
    if players == [] then 0
    else if players[0].id == id then 0
    else 1 + FirstIndex(players[1..], id)
  }

  /** `players.find((p) => p.id === id)`. */
  function FindPlayer(players: seq<Player>, id: string): (r: Option<Player>)
    ensures r.None? <==> forall i :: 0 <= i < |players| ==> players[i].id != id
    ensures r.Some? ==> r.value.id == id && r.value == players[FirstIndex(players, id)]
  {
    var k := FirstIndex(players, id);
    if k < |players| then Some(players[k]) else None
  }

  /** The player the roster resolves `id` to exists and is alive. */
  predicate Living(players: seq<Player>, id: string) {
    var p := FindPlayer(players, id);
    p.Some? && p.value.alive
  }

  /** Some alive roster entry carries the id `id`. */
  predicate IsAliveId(players: seq<Player>, id: string) {
    exists i :: 0 <= i < |players| && players[i].alive && players[i].id == id
  }

  /** `players.filter((p) => p.alive).map((p) => p.id)`. */
  function AliveIds(players: seq<Player>): (r: seq<string>)
    ensures |r| <= |players|
    ensures forall id :: id in r <==> IsAliveId(players, id)
  {
    if players == [] then []
    else
      var last := players[|players| - 1];
      var rest := AliveIds(players[..|players| - 1]);
      assert forall id :: IsAliveId(players[..|players| - 1], id) ==> IsAliveId(players, id);
      assert forall id :: IsAliveId(players, id) && id != last.id ==> IsAliveId(players[..|players| - 1], id);
      assert forall id :: IsAliveId(players, id) && !last.alive ==> IsAliveId(players[..|players| - 1], id);
      rest + if last.alive then [last.id] else []
  }

  /** `(gameState.votes as Record<string, string>) || {}`. */
  function Votes(gs: GameState): map<string, string> {
    gs.votes.GetOr(map[])
  }

  /** `votes[playerId]` is truthy: a vote is recorded and is not the empty string. */
  predicate HasVoted(votes: map<string, string>, id: string) {
    id in votes && votes[id] != ""
  }

  /*************************************************************************
   * Vote validation
   *************************************************************************/

  datatype Verdict = Verdict(valid: bool, error: Option<string>)

  const VoterNotAlive := "Jugador no está vivo"
  const InvalidTarget := "Objetivo inválido"
  const AlreadyVoted := "Ya has votado"
  const NoSelfVote := "No puedes votar por ti mismo"

  /** Self-votes are refused in hearts games unless the mechanic is exactly `majority_rules`. */
  predicate ForbidsSelfVote(game: Game) {
    game.suit == Hearts && game.Mechanic() != MajorityRules
  }

  /** `validateVote`: a vote is accepted exactly when voter and target resolve to
      living players, the voter has no recorded vote, and it is not a forbidden
      self-vote; a rejection names the first failing check, in that order. */
  function ValidateVote(game: Game, gs: GameState, voter: string, target: string,
                        players: seq<Player>): (r: Verdict)
    ensures r.valid <==>
      && Living(players, voter) && Living(players, target)
      && !HasVoted(Votes(gs), voter)
      && !(voter == target && ForbidsSelfVote(game))
    ensures r.valid <==> r.error.None?
    ensures !Living(players, voter) ==> r.error == Some(VoterNotAlive)
    ensures Living(players, voter) && !Living(players, target) ==> r.error == Some(InvalidTarget)
    ensures Living(players, voter) && Living(players, target) && HasVoted(Votes(gs), voter) ==>
              r.error == Some(AlreadyVoted)
    ensures (Living(players, voter) && Living(players, target) && !HasVoted(Votes(gs), voter)
             && voter == target && ForbidsSelfVote(game)) ==> r.error == Some(NoSelfVote)
  {
    if !Living(players, voter) then Verdict(false, Some(VoterNotAlive))
    else if !Living(players, target) then Verdict(false, Some(InvalidTarget))
    else if HasVoted(Votes(gs), voter) then Verdict(false, Some(AlreadyVoted))
    else if voter == target && ForbidsSelfVote(game) then Verdict(false, Some(NoSelfVote))
    else Verdict(true, None)
  }

  /** An accepted vote never replaces a recorded one: writing it adds the voter's
      entry to the votes the validation saw. */
  lemma AcceptedVoteDoesNotOverwrite(game: Game, gs: GameState, voter: string, target: string,
                                     players: seq<Player>)
    requires ValidateVote(game, gs, voter, target, players).valid
    ensures voter !in Votes(gs) || Votes(gs)[voter] == ""
    ensures var after := Votes(gs)[voter := target];
            forall v :: v in Votes(gs) && v != voter ==> v in after && after[v] == Votes(gs)[v]
  {
  }

  /*************************************************************************
   * Vote resolution
   *************************************************************************/

  datatype VoteOutcome = VoteOutcome(eliminated: seq<string>, survivors: seq<string>)

  /** The number of recorded votes naming `target`. */
  function Tally(votes: map<string, string>, target: string): nat {
    |set voter | voter in votes && votes[voter] == target|
  }

  /** The position of the first occurrence of `id` in `ids`. */
  function FirstOccurrence(ids: seq<string>, id: string): (k: nat)
    requires id in ids
    ensures k < |ids| && ids[k] == id
    ensures forall i :: 0 <= i < k ==> ids[i] != id
  {
    var prefix := ids[..|ids| - 1];
    assert ids == prefix + [ids[|ids| - 1]];
    if id in prefix then FirstOccurrence(prefix, id) else |ids| - 1
  }

  /** The ids of `ids` in order of first occurrence, each once: the key order of
      the `voteCounts` record. */
  function Distinct(ids: seq<string>): (r: seq<string>)
    ensures forall id :: id in r <==> id in ids
    ensures forall i, j :: 0 <= i < j < |r| ==> r[i] != r[j]
  {
    if ids == [] then []
    else
      var rest := Distinct(ids[..|ids| - 1]);
      var last := ids[|ids| - 1];
      assert ids == ids[..|ids| - 1] + [last];
      if last in rest then rest else rest + [last]
  }

  /** Ids that never repeat are their own `Distinct`. */
  lemma {:induction false} DistinctOfRepeatFree(ids: seq<string>)
    requires forall i, j :: 0 <= i < j < |ids| ==> ids[i] != ids[j]
    ensures Distinct(ids) == ids
  {
    if ids != [] {
      var prefix, last := ids[..|ids| - 1], ids[|ids| - 1];
      DistinctOfRepeatFree(prefix);
      assert ids == prefix + [last];
      assert last !in prefix;
    }
  }

  /** `Distinct` lists the ids in the order in which they first occur. */
  lemma {:induction false} DistinctKeepsFirstOccurrenceOrder(ids: seq<string>)
    ensures forall i, j :: 0 <= i < j < |Distinct(ids)| ==>
              FirstOccurrence(ids, Distinct(ids)[i]) < FirstOccurrence(ids, Distinct(ids)[j])
  {
    if ids != [] {
      var prefix, last := ids[..|ids| - 1], ids[|ids| - 1];
      DistinctKeepsFirstOccurrenceOrder(prefix);
      assert ids == prefix + [last];
      assert forall id :: id in prefix ==> FirstOccurrence(ids, id) == FirstOccurrence(prefix, id);
    }
  }

  /** The largest tally among `ids`, 0 when there are none. */
  function MaxTally(votes: map<string, string>, ids: seq<string>): (m: nat)
    ensures forall i :: 0 <= i < |ids| ==> Tally(votes, ids[i]) <= m
    ensures |ids| > 0 ==> exists i :: 0 <= i < |ids| && Tally(votes, ids[i]) == m
    ensures |ids| == 0 ==> m == 0
  {
    if ids == [] then 0
    else
      var prefix := ids[..|ids| - 1];
      var m := MaxTally(votes, prefix);
      var t := Tally(votes, ids[|ids| - 1]);
      assert forall i :: 0 <= i < |prefix| ==> ids[i] == prefix[i];
      if t > m then t else m
  }

  /** The ids of `ids` whose tally is `m`. */
  function WithTally(votes: map<string, string>, ids: seq<string>, m: nat): (r: seq<string>)
    ensures forall id :: id in r <==> id in ids && Tally(votes, id) == m
  {
    if ids == [] then []
    else
      var last := ids[|ids| - 1];
      assert ids == ids[..|ids| - 1] + [last];
      WithTally(votes, ids[..|ids| - 1], m) + if Tally(votes, last) == m then [last] else []
  }

  /** The ids of `ids` that are not in `removed`. */
  function Excluding(ids: seq<string>, removed: seq<string>): (r: seq<string>)
    ensures forall id :: id in r <==> id in ids && id !in removed
  {
    if ids == [] then []
    else
      var last := ids[|ids| - 1];
      assert ids == ids[..|ids| - 1] + [last];
      Excluding(ids[..|ids| - 1], removed) + if last !in removed then [last] else []
  }

  /** Tally-based resolution over the living ids `alive`: the ids with the highest
      tally are eliminated (all of them on a tie); with `quorum`, nobody is
      eliminated when that tally is 0. */
  function Plurality(votes: map<string, string>, alive: seq<string>, quorum: bool): VoteOutcome {
    var keys := Distinct(alive);
    var top := MaxTally(votes, keys);
    var eliminated := if quorum && top == 0 then [] else WithTally(votes, keys, top);
    VoteOutcome(eliminated, Excluding(alive, eliminated))
  }

  /** The ids of the living players whose own vote is `betray`, and of the rest. */
  function Dilemma(votes: map<string, string>, players: seq<Player>): VoteOutcome {
    if players == [] then VoteOutcome([], [])
    else
      var r := Dilemma(votes, players[..|players| - 1]);
      var p := players[|players| - 1];
      if !p.alive then r
      else if p.id in votes && votes[p.id] == Betray then VoteOutcome(r.eliminated + [p.id], r.survivors)
      else VoteOutcome(r.eliminated, r.survivors + [p.id])
  }

  /** `calculateVoteResults`. Outside hearts, and for a hearts mechanic other than
      the three the engine names, nobody is eliminated. */
  function VoteResults(game: Game, gs: GameState, players: seq<Player>): VoteOutcome {
    var votes := Votes(gs);
    var alive := AliveIds(players);
    if game.suit != Hearts then VoteOutcome([], alive)
    else if game.Mechanic() == VoteElimination then Plurality(votes, alive, false)
    else if game.Mechanic() == MajorityRules then Plurality(votes, alive, true)
    else if game.Mechanic() == PrisonersDilemma then Dilemma(votes, players)
    else VoteOutcome([], alive)
  }

  lemma {:induction false} DilemmaPartition(votes: map<string, string>, players: seq<Player>)
    ensures var r := Dilemma(votes, players);
      && (forall id :: id in r.eliminated <==> IsAliveId(players, id) && id in votes && votes[id] == Betray)
      && (forall id :: id in r.survivors <==> IsAliveId(players, id) && !(id in votes && votes[id] == Betray))
  {
    if players != [] {
      var prefix := players[..|players| - 1];
      DilemmaPartition(votes, prefix);
      assert forall id :: IsAliveId(prefix, id) ==> IsAliveId(players, id);
      assert forall id :: IsAliveId(players, id) && id != players[|players| - 1].id ==> IsAliveId(prefix, id);
      assert forall id :: IsAliveId(players, id) && !players[|players| - 1].alive ==> IsAliveId(prefix, id);
    }
  }

  /** Whatever the suit and mechanic, the eliminated ids are ids of living players
      and the survivors are exactly the living ids that were not eliminated. */
  lemma VoteResultsPartition(game: Game, gs: GameState, players: seq<Player>)
    ensures var r := VoteResults(game, gs, players);
      && (forall id :: id in r.eliminated ==> IsAliveId(players, id))
      && (forall id :: id in r.survivors <==> IsAliveId(players, id) && id !in r.eliminated)
  {
    DilemmaPartition(Votes(gs), players);
  }

  /** Outside hearts nobody is eliminated and the survivors are the living ids in
      roster order. */
  lemma NonHeartsEliminatesNobody(game: Game, gs: GameState, players: seq<Player>)
    requires game.suit != Hearts
    ensures VoteResults(game, gs, players) == VoteOutcome([], AliveIds(players))
  {
  }

  /** The catalog's "Majority Rules" entry carries the mechanic `majority_vote`,
      which the engine does not know: resolving its votes eliminates nobody, and
      self-votes are refused in it as in any other hearts game. */
  lemma CatalogMajorityRulesAsWritten(game: Game, gs: GameState, players: seq<Player>)
    requires game.suit == Hearts && game.definition == HeartsGames[2]
    ensures game.Id() == MajorityRules && game.Mechanic() != MajorityRules
    ensures VoteResults(game, gs, players) == VoteOutcome([], AliveIds(players))
    ensures ForbidsSelfVote(game)
  {
    assert |game.Mechanic()| != |MajorityRules|;
  }

  /** Under `vote_elimination` a living player is eliminated exactly when no living
      player received more votes; ties eliminate every tied player. */
  lemma PluralityEliminatesMostVoted(game: Game, gs: GameState, players: seq<Player>, id: string)
    requires game.suit == Hearts && game.Mechanic() == VoteElimination
    ensures var r := VoteResults(game, gs, players);
      id in r.eliminated <==>
        IsAliveId(players, id) &&
        forall other :: IsAliveId(players, other) ==> Tally(Votes(gs), other) <= Tally(Votes(gs), id)
  {
    var votes, alive := Votes(gs), AliveIds(players);
    var keys := Distinct(alive);
    var top := MaxTally(votes, keys);
    if IsAliveId(players, id) {
      assert id in keys;
      if forall other :: IsAliveId(players, other) ==> Tally(votes, other) <= Tally(votes, id) {
        var i :| 0 <= i < |keys| && Tally(votes, keys[i]) == top;
        assert IsAliveId(players, keys[i]);
      } else {
        var other :| IsAliveId(players, other) && Tally(votes, other) > Tally(votes, id);
        assert other in keys;
      }
    }
  }

  /** Under `majority_rules` the same, but only players who received at least one
      vote can be eliminated: an all-abstain round eliminates nobody. */
  lemma MajorityNeedsAVote(game: Game, gs: GameState, players: seq<Player>, id: string)
    requires game.suit == Hearts && game.Mechanic() == MajorityRules
    ensures var r := VoteResults(game, gs, players);
      id in r.eliminated <==>
        IsAliveId(players, id) && Tally(Votes(gs), id) > 0 &&
        forall other :: IsAliveId(players, other) ==> Tally(Votes(gs), other) <= Tally(Votes(gs), id)
  {
    var votes, alive := Votes(gs), AliveIds(players);
    var keys := Distinct(alive);
    var top := MaxTally(votes, keys);
    if IsAliveId(players, id) {
      assert id in keys;
      if forall other :: IsAliveId(players, other) ==> Tally(votes, other) <= Tally(votes, id) {
        var i :| 0 <= i < |keys| && Tally(votes, keys[i]) == top;
        assert IsAliveId(players, keys[i]);
      } else {
        var other :| IsAliveId(players, other) && Tally(votes, other) > Tally(votes, id);
        assert other in keys;
      }
    }
  }

  /** Under `prisoners_dilemma` exactly the living players whose own vote is
      `betray` are eliminated. */
  lemma DilemmaEliminatesBetrayers(game: Game, gs: GameState, players: seq<Player>, id: string)
    requires game.suit == Hearts && game.Mechanic() == PrisonersDilemma
    ensures var r := VoteResults(game, gs, players);
      id in r.eliminated <==> IsAliveId(players, id) && id in Votes(gs) && Votes(gs)[id] == Betray
  {
    DilemmaPartition(Votes(gs), players);
  }

  /** Under `vote_elimination`, when no vote names a living player every living
      player ties at 0 and all of them are eliminated. */
  lemma NoVotesEliminatesEveryone(game: Game, gs: GameState, players: seq<Player>)
    requires game.suit == Hearts && game.Mechanic() == VoteElimination
    requires forall voter :: voter in Votes(gs) ==> !IsAliveId(players, Votes(gs)[voter])
    ensures var r := VoteResults(game, gs, players);
      (forall id :: id in r.eliminated <==> IsAliveId(players, id)) && (forall id :: id !in r.survivors)
  {
    var votes := Votes(gs);
    forall id | IsAliveId(players, id) ensures Tally(votes, id) == 0 {
      assert (set voter | voter in votes && votes[voter] == id) == {};
    }
    var r := VoteResults(game, gs, players);
    forall id | IsAliveId(players, id) ensures id in r.eliminated {
      PluralityEliminatesMostVoted(game, gs, players, id);
    }
    VoteResultsPartition(game, gs, players);
  }

  /** A living contestant of the examples below. */
  function Contestant(id: string): Player {
    Player(id, "room", id, id, true, 0, true, 0, 0)
  }

  /** When every roster entry is alive, the living ids are the roster's ids in
      roster order. */
  lemma {:induction false} AliveIdsOfLiving(players: seq<Player>)
    requires forall i :: 0 <= i < |players| ==> players[i].alive
    ensures |AliveIds(players)| == |players|
    ensures forall i :: 0 <= i < |players| ==> AliveIds(players)[i] == players[i].id
  {
    if players != [] {
      AliveIdsOfLiving(players[..|players| - 1]);
    }
  }

  /** A roster of two living contestants with distinct ids: the living ids are
      the ids in roster order, each once. */
  lemma TwoContestants(x: string, y: string)
    requires x != y
    ensures AliveIds([Contestant(x), Contestant(y)]) == [x, y] && Distinct([x, y]) == [x, y]
  {
    AliveIdsOfLiving([Contestant(x), Contestant(y)]);
    DistinctOfRepeatFree([x, y]);
  }

  /** The same for three living contestants. */
  lemma ThreeContestants(x: string, y: string, z: string)
    requires x != y && x != z && y != z
    ensures AliveIds([Contestant(x), Contestant(y), Contestant(z)]) == [x, y, z] && Distinct([x, y, z]) == [x, y, z]
  {
    AliveIdsOfLiving([Contestant(x), Contestant(y), Contestant(z)]);
    DistinctOfRepeatFree([x, y, z]);
  }

  /** Three ids with tallies 1, 0 and 2: the highest tally is 2, reached by the
      last alone. */
  lemma TopOfThree(votes: map<string, string>, x: string, y: string, z: string)
    requires Tally(votes, x) == 1 && Tally(votes, y) == 0 && Tally(votes, z) == 2
    ensures MaxTally(votes, [x, y, z]) == 2
    ensures WithTally(votes, [x, y, z], 2) == [z]
  {
    assert [x, y, z][..2] == [x, y] && [x, y][..1] == [x] && [x][..0] == [];
    assert MaxTally(votes, [x]) == 1 && MaxTally(votes, [x, y]) == 1;
    assert WithTally(votes, [x], 2) == [];
    assert WithTally(votes, [x, y], 2) == [];
  }

  /** Removing the last of three ids, when it differs from the other two, leaves
      the other two in order. */
  lemma ExcludeLast(x: string, y: string, z: string)
    requires x != z && y != z
    ensures Excluding([x, y, z], [z]) == [x, y]
  {
    assert [x, y, z][..2] == [x, y] && [x, y][..1] == [x] && [x][..0] == [];
    assert Excluding([x], [z]) == [x];
    assert Excluding([x, y], [z]) == [x, y];
  }

  /** Two ids with one vote each: both reach the highest tally, and nobody
      remains. */
  lemma TieOfTwo(votes: map<string, string>, x: string, y: string)
    requires Tally(votes, x) == 1 && Tally(votes, y) == 1
    ensures MaxTally(votes, [x, y]) == 1
    ensures WithTally(votes, [x, y], 1) == [x, y]
    ensures Excluding([x, y], [x, y]) == []
  {
    assert [x, y][..1] == [x] && [x][..0] == [];
    assert MaxTally(votes, [x]) == 1;
    assert WithTally(votes, [x], 1) == [x];
    assert Excluding([x], [x, y]) == [];
  }

  /** A clear plurality: "a" and "b" vote for "c", "c" votes for "a". Only "c" is
      eliminated, and "a" and "b" survive in roster order. */
  lemma PluralityExample(game: Game, gs: GameState)
    requires game.suit == Hearts && game.Mechanic() == VoteElimination
    requires gs.votes == Some(map["a" := "c", "b" := "c", "c" := "a"])
    ensures VoteResults(game, gs, [Contestant("a"), Contestant("b"), Contestant("c")])
            == VoteOutcome(["c"], ["a", "b"])
  {
    var votes := Votes(gs);
    assert "a"[0] != "b"[0] && "a"[0] != "c"[0] && "b"[0] != "c"[0];
    ThreeContestants("a", "b", "c");
    assert (set v | v in votes && votes[v] == "a") == {"c"};
    assert (set v | v in votes && votes[v] == "b") == {};
    assert (set v | v in votes && votes[v] == "c") == {"a", "b"};
    TopOfThree(votes, "a", "b", "c");
    ExcludeLast("a", "b", "c");
  }

  /** A tie: two players vote for each other, and both are eliminated. */
  lemma TieExample(game: Game, gs: GameState)
    requires game.suit == Hearts && game.Mechanic() == VoteElimination
    requires gs.votes == Some(map["a" := "b", "b" := "a"])
    ensures VoteResults(game, gs, [Contestant("a"), Contestant("b")]) == VoteOutcome(["a", "b"], [])
  {
    var votes := Votes(gs);
    assert "a"[0] != "b"[0];
    TwoContestants("a", "b");
    assert (set v | v in votes && votes[v] == "a") == {"b"};
    assert (set v | v in votes && votes[v] == "b") == {"a"};
    TieOfTwo(votes, "a", "b");
  }

  /*************************************************************************
   * Vote resolution, as `calculateVoteResults` computes it
   *************************************************************************/

  /** The votes among the voters `done` that name `id`. */
  function TallyOver(votes: map<string, string>, done: set<string>, id: string): nat {
    |set v | v in votes && votes[v] == id && v in done|
  }

  lemma TallyStep(votes: map<string, string>, done: set<string>, voter: string, id: string)
    requires voter in votes && voter !in done
    ensures TallyOver(votes, done + {voter}, id) == TallyOver(votes, done, id) + (if votes[voter] == id then 1 else 0)
  {
    var before := set v | v in votes && votes[v] == id && v in done;
    var after := set v | v in votes && votes[v] == id && v in done + {voter};
    if votes[voter] == id {
      assert after == before + {voter};
    } else {
      assert after == before;
    }
  }

  lemma TallyOverNone(votes: map<string, string>, id: string)
    ensures TallyOver(votes, {}, id) == 0
  {
    assert (set v | v in votes && votes[v] == id && v in {}) == {};
  }

  lemma TallyOverAll(votes: map<string, string>, id: string)
    ensures TallyOver(votes, votes.Keys, id) == Tally(votes, id)
  {
    assert (set v | v in votes && votes[v] == id && v in votes.Keys) == (set v | v in votes && votes[v] == id);
  }

  /** The first loop of the `voteCounts` computation: every living id at 0. */
  method ZeroCounts(alive: seq<string>) returns (counts: map<string, nat>)
    ensures counts.Keys == set id | id in alive
    ensures forall id :: id in counts ==> counts[id] == 0
  {
    counts := map[];
    var k := 0;
    while k < |alive|
      invariant 0 <= k <= |alive|
      invariant counts.Keys == set id | id in alive[..k]
      invariant forall id :: id in counts ==> counts[id] == 0
    {
      assert alive[..k + 1] == alive[..k] + [alive[k]];
      counts := counts[alive[k] := 0];
      k := k + 1;
    }
    assert alive[..k] == alive;
  }

  /** One turn of the second loop: the vote of `voter` adds one to its target's
      count, if the target is a key. */
  method CountVote(votes: map<string, string>, counts: map<string, nat>, voter: string, ghost done: set<string>)
    returns (next: map<string, nat>)
    requires voter in votes && voter !in done
    requires forall id :: id in counts ==> counts[id] == TallyOver(votes, done, id)
    ensures next.Keys == counts.Keys
    ensures forall id :: id in next ==> next[id] == TallyOver(votes, done + {voter}, id)
  {
    var target := votes[voter];
    forall id | id in counts
      ensures TallyOver(votes, done + {voter}, id) == TallyOver(votes, done, id) + (if target == id then 1 else 0)
    {
      TallyStep(votes, done, voter, id);
    }
    next := if target in counts then counts[target := counts[target] + 1] else counts;
  }

  /** The second loop of the `voteCounts` computation: each recorded vote adds one
      to its target's count, when the target is a key. Starting from zeros, every
      key ends at its tally. */
  method AddVotes(votes: map<string, string>, zeros: map<string, nat>) returns (counts: map<string, nat>)
    requires forall id :: id in zeros ==> zeros[id] == 0
    ensures counts.Keys == zeros.Keys
    ensures forall id :: id in counts ==> counts[id] == Tally(votes, id)
  {
    counts := zeros;
    var todo := votes.Keys;
    ghost var done: set<string> := {};
    forall id | id in counts ensures counts[id] == TallyOver(votes, done, id) {
      TallyOverNone(votes, id);
    }
    while todo != {}
      invariant done !! todo && done + todo == votes.Keys
      invariant counts.Keys == zeros.Keys
      invariant forall id :: id in counts ==> counts[id] == TallyOver(votes, done, id)
      decreases |todo|
    {
      var voter :| voter in todo;
      counts := CountVote(votes, counts, voter, done);
      MoveOne(done, todo, voter);
      done, todo := done + {voter}, todo - {voter};
    }
    assert done == votes.Keys;
    forall id | id in counts ensures counts[id] == Tally(votes, id) {
      TallyOverAll(votes, id);
    }
  }

  /** The `voteCounts` record: every living id starts at 0, then each recorded vote
      naming a living id adds one. */
  method CountVotes(votes: map<string, string>, alive: seq<string>) returns (counts: map<string, nat>)
    ensures counts.Keys == set id | id in alive
    ensures forall id :: id in counts ==> counts[id] == Tally(votes, id)
  {
    var zeros := ZeroCounts(alive);
    counts := AddVotes(votes, zeros);
  }

  /** `Math.max(...Object.values(voteCounts))` over the keys `keys`, 0 when there are none. */
  method HighestCount(counts: map<string, nat>, keys: seq<string>, ghost votes: map<string, string>)
    returns (top: nat)
    requires forall id :: id in keys ==> id in counts && counts[id] == Tally(votes, id)
    ensures top == MaxTally(votes, keys)
  {
    top := 0;
    var k := 0;
    while k < |keys|
      invariant 0 <= k <= |keys|
      invariant top == MaxTally(votes, keys[..k])
    {
      assert keys[..k + 1][..k] == keys[..k];
      var c := counts[keys[k]];
      if c > top {
        top := c;
      }
      k := k + 1;
    }
    assert keys[..k] == keys;
  }

  /** The living players pushed into `eliminated` or `survivors` one by one, by
      their own vote. */
  method ResolveDilemma(votes: map<string, string>, players: seq<Player>) returns (r: VoteOutcome)
    ensures r == Dilemma(votes, players)
  {
    var eliminated, survivors := [], [];
    var k := 0;
    while k < |players|
      invariant 0 <= k <= |players|
      invariant VoteOutcome(eliminated, survivors) == Dilemma(votes, players[..k])
    {
      assert players[..k + 1][..k] == players[..k];
      var p := players[k];
      if p.alive {
        if p.id in votes && votes[p.id] == Betray {
          eliminated := eliminated + [p.id];
        } else {
          survivors := survivors + [p.id];
        }
      }
      k := k + 1;
    }
    assert players[..k] == players;
    r := VoteOutcome(eliminated, survivors);
  }

  /** The ids among `keys` whose count equals `top`, pushed in key order. */
  method MostVoted(counts: map<string, nat>, keys: seq<string>, top: nat, ghost votes: map<string, string>)
    returns (eliminated: seq<string>)
    requires forall id :: id in keys ==> id in counts && counts[id] == Tally(votes, id)
    ensures eliminated == WithTally(votes, keys, top)
  {
    eliminated := [];
    var k := 0;
    while k < |keys|
      invariant 0 <= k <= |keys|
      invariant eliminated == WithTally(votes, keys[..k], top)
    {
      assert keys[..k + 1][..k] == keys[..k];
      if counts[keys[k]] == top {
        eliminated := eliminated + [keys[k]];
      }
      k := k + 1;
    }
    assert keys[..k] == keys;
  }

  /** `calculateVoteResults` with its counting and pushing loops; its result is
      the one `VoteResults` specifies. */
  method CalculateVoteResults(game: Game, gs: GameState, players: seq<Player>) returns (r: VoteOutcome)
    ensures r == VoteResults(game, gs, players)
  {
    var votes := Votes(gs);
    var alive := AliveIds(players);
    if game.suit != Hearts {
      return VoteOutcome([], alive);
    }
    if game.Mechanic() == VoteElimination || game.Mechanic() == MajorityRules {
      var quorum := game.Mechanic() == MajorityRules;
      var counts := CountVotes(votes, alive);
      var keys := Distinct(alive);
      var top := HighestCount(counts, keys, votes);
      var eliminated := [];
      if !(quorum && top == 0) {
        eliminated := MostVoted(counts, keys, top, votes);
      }
      return VoteOutcome(eliminated, Excluding(alive, eliminated));
    }
    if game.Mechanic() == PrisonersDilemma {
      r := ResolveDilemma(votes, players);
      return;
    }
    r := VoteOutcome([], alive);
  }

  /*************************************************************************
   * Answer validation
   *************************************************************************/

  datatype AnswerVerdict = AnswerVerdict(valid: bool, correct: Option<bool>, error: Option<string>)

  const EmptyAnswer := "La respuesta no puede estar vacía"
  const InvalidAnswer := "Respuesta inválida"
  const MustConfirm := "Debes confirmar la completación"

  /** JavaScript truthiness of a submitted value. */
  predicate Truthy(a: Answer) {
    match a
    case Text(s) => s != ""
    case Number(n) => n != 0
    case Flag(b) => b
    case Missing => false
    case Structured => true
  }

  /** `validateAnswer`: clubs answers must not be blank, speed-math answers must be
      a number or a string, spades answers must confirm with `true` or
      `"completed"`; everything else is accepted. Every accepted answer is
      reported correct. */
  function ValidateAnswer(game: Game, answer: Answer, players: seq<Player>): (r: AnswerVerdict)
    ensures r.valid <==> r.correct == Some(true)
    ensures r.valid <==> r.error.None?
    ensures game.suit == Clubs ==>
              (r.valid <==> if answer.Text? then !AllSpace(answer.text) else Truthy(answer))
    ensures game.suit == Diamonds ==>
              (r.valid <==> game.Mechanic() != SpeedMath || answer.Number? || answer.Text?)
    ensures game.suit == Spades ==>
              (r.valid <==> answer == Flag(true) || answer == Text("completed"))
    ensures game.suit == Hearts ==> r.valid
  {
    if game.suit == Clubs then
      TrimEmptyIffAllSpace(if answer.Text? then answer.text else "");
      if !Truthy(answer) || (answer.Text? && Trim(answer.text) == "") then
        AnswerVerdict(false, None, Some(EmptyAnswer))
      else AnswerVerdict(true, Some(true), None)
    else if game.suit == Diamonds then
      if game.Mechanic() == SpeedMath && !(answer.Number? || answer.Text?) then
        AnswerVerdict(false, None, Some(InvalidAnswer))
      else AnswerVerdict(true, Some(true), None)
    else if game.suit == Spades then
      if answer != Flag(true) && answer != Text("completed") then
        AnswerVerdict(false, None, Some(MustConfirm))
      else AnswerVerdict(true, Some(true), None)
    else AnswerVerdict(true, Some(true), None)
  }

  /*************************************************************************
   * Completion check
   *************************************************************************/

  datatype Completion = Completion(completed: bool, success: bool, reason: Option<string>)

  const AllEliminated := "Todos los jugadores fueron eliminados"
  const TimeUp := "Tiempo agotado"
  const RoundsDone := "Rondas completadas"
  const RiddlesDone := "Todos los acertijos resueltos"
  const ProblemsDone := "Todos los problemas resueltos"
  const ChallengeDone := "Todos completaron el desafío"

  /** Alive and connected: the players that still count. */
  predicate Standing(p: Player) {
    p.alive && p.connected
  }

  /** `players.filter((p) => p.alive && p.connected)`. */
  function StandingPlayers(players: seq<Player>): (r: seq<Player>)
    ensures forall p :: p in r <==> p in players && Standing(p)
  {
    if players == [] then []
    else
      var last := players[|players| - 1];
      assert players == players[..|players| - 1] + [last];
      StandingPlayers(players[..|players| - 1]) + if Standing(last) then [last] else []
  }

  /** `players.filter((p) => !p.alive || !p.connected)`. */
  function FallenPlayers(players: seq<Player>): (r: seq<Player>)
    ensures forall p :: p in r <==> p in players && !Standing(p)
  {
    if players == [] then []
    else
      var last := players[|players| - 1];
      assert players == players[..|players| - 1] + [last];
      FallenPlayers(players[..|players| - 1]) + if !Standing(last) then [last] else []
  }

  /** The hearts round limit, if the game carries one (`round > undefined` is false). */
  function RoundLimit(game: Game): Option<int> {
    if game.definition.rules.HeartsRules? then Some(game.definition.rules.rounds) else None
  }

  /** `(clubsGame.riddles || 5)`. */
  function RiddleCount(game: Game): int {
    var rules := game.definition.rules;
    if rules.ClubsRules? && rules.riddles.Some? && rules.riddles.value != 0 then rules.riddles.value else 5
  }

  /** `clubsGame.parameters?.currentRiddle || 0`. */
  function CurrentRiddle(game: Game): int {
    if game.parameters.Some? && game.parameters.value.ClubsParams? then game.parameters.value.currentRiddle else 0
  }

  /** `(diamondsGame.problems || 10)`. */
  function ProblemCount(game: Game): int {
    var rules := game.definition.rules;
    if rules.DiamondsRules? && rules.problems.Some? && rules.problems.value != 0 then rules.problems.value else 10
  }

  /** `diamondsGame.parameters?.currentProblem || 0`. */
  function CurrentProblem(game: Game): int {
    if game.parameters.Some? && game.parameters.value.DiamondsParams? then game.parameters.value.currentProblem else 0
  }

  /** `spadesGame.parameters?.completions || {}`. */
  function Completions(game: Game): map<string, bool> {
    if game.parameters.Some? && game.parameters.value.SpadesParams? then game.parameters.value.completions else map[]
  }

  /** Every standing player has `completions[id] === true`. */
  predicate AllCompleted(completions: map<string, bool>, standing: seq<Player>) {
    forall i :: 0 <= i < |standing| ==> standing[i].id in completions && completions[standing[i].id]
  }

  /** `checkGameCompletion`, in its priority order: nobody standing, then the
      timer, then the suit-specific goal. A hearts round in which everyone has
      voted returns "not completed" early, which is also what the remaining
      checks give for hearts. */
  function CheckGameCompletion(game: Game, gs: GameState, players: seq<Player>): (r: Completion)
    ensures r.success ==> r.completed
    ensures StandingPlayers(players) == [] ==> r == Completion(true, false, Some(AllEliminated))
    ensures StandingPlayers(players) != [] && gs.timer <= 0 ==> r == Completion(true, false, Some(TimeUp))
    ensures StandingPlayers(players) != [] && gs.timer > 0 && game.suit == Hearts ==>
              (r.completed <==> RoundLimit(game).Some? && gs.round > RoundLimit(game).value) &&
              (r.completed ==> r == Completion(true, true, Some(RoundsDone)))
    ensures StandingPlayers(players) != [] && gs.timer > 0 && game.suit == Clubs ==>
              (r.completed <==> game.Mechanic() == CollaborativeRiddles && CurrentRiddle(game) + 1 > RiddleCount(game)) &&
              (r.completed ==> r == Completion(true, true, Some(RiddlesDone)))
    ensures StandingPlayers(players) != [] && gs.timer > 0 && game.suit == Diamonds ==>
              (r.completed <==> game.Mechanic() == SpeedMath && CurrentProblem(game) >= ProblemCount(game)) &&
              (r.completed ==> r == Completion(true, true, Some(ProblemsDone)))
    ensures StandingPlayers(players) != [] && gs.timer > 0 && game.suit == Spades ==>
              (r.completed <==> AllCompleted(Completions(game), StandingPlayers(players))) &&
              (r.completed ==> r == Completion(true, true, Some(ChallengeDone)))
    ensures !r.completed ==> r == Completion(false, false, None)
  {
    var standing := StandingPlayers(players);
    if |standing| == 0 then Completion(true, false, Some(AllEliminated))
    else if gs.timer <= 0 then Completion(true, false, Some(TimeUp))
    else if game.suit == Hearts && RoundLimit(game).Some? && gs.round > RoundLimit(game).value then
      Completion(true, |standing| > 0, Some(RoundsDone))
    else if game.suit == Clubs && game.Mechanic() == CollaborativeRiddles
            && CurrentRiddle(game) + 1 > RiddleCount(game) then
      Completion(true, true, Some(RiddlesDone))
    else if game.suit == Diamonds && game.Mechanic() == SpeedMath
            && CurrentProblem(game) >= ProblemCount(game) then
      Completion(true, true, Some(ProblemsDone))
    else if game.suit == Spades && AllCompleted(Completions(game), standing) then
      Completion(true, true, Some(ChallengeDone))
    else Completion(false, false, None)
  }

  /*************************************************************************
   * Results and cards
   *************************************************************************/

  datatype GameResults = GameResults(survivors: seq<Player>, eliminated: seq<Player>,
                                     winners: seq<Player>, gameClear: bool)

  /** Adding a record at the end adds it to exactly one of the two filters. */
  lemma FiltersSnoc(prefix: seq<Player>, last: Player)
    ensures StandingPlayers(prefix + [last]) == StandingPlayers(prefix) + if Standing(last) then [last] else []
    ensures FallenPlayers(prefix + [last]) == FallenPlayers(prefix) + if Standing(last) then [] else [last]
  {
    assert (prefix + [last])[..|prefix|] == prefix;
  }

  /** Appending one player adds it to exactly one of the two lists. */
  lemma CoverStep(prefix: seq<Player>, last: Player)
    ensures multiset(StandingPlayers(prefix + [last])) + multiset(FallenPlayers(prefix + [last]))
            == multiset(StandingPlayers(prefix)) + multiset(FallenPlayers(prefix)) + multiset{last}
  {
    FiltersSnoc(prefix, last);
    var standing, fallen := StandingPlayers(prefix), FallenPlayers(prefix);
    if Standing(last) {
      assert multiset(standing + [last]) == multiset(standing) + multiset{last};
    } else {
      assert multiset(fallen + [last]) == multiset(fallen) + multiset{last};
    }
  }

  lemma {:induction false} StandingFallenCover(players: seq<Player>)
    ensures multiset(StandingPlayers(players)) + multiset(FallenPlayers(players)) == multiset(players)
  {
    if players != [] {
      var prefix, last := players[..|players| - 1], players[|players| - 1];
      StandingFallenCover(prefix);
      assert players == prefix + [last];
      CoverStep(prefix, last);
    }
  }

  /** `calculateGameResults`: survivors are the standing players, eliminated the
      rest, together the whole roster; the game is clear exactly when someone
      survived, and the winners are the survivors. */
  function CalculateGameResults(game: Game, gs: GameState, players: seq<Player>): (r: GameResults)
    ensures forall p :: p in r.survivors <==> p in players && Standing(p)
    ensures forall p :: p in r.eliminated <==> p in players && !Standing(p)
    ensures multiset(r.survivors) + multiset(r.eliminated) == multiset(players)
    ensures r.gameClear <==> exists i :: 0 <= i < |players| && Standing(players[i])
    ensures r.winners == r.survivors
  {
    StandingFallenCover(players);
    var survivors := StandingPlayers(players);
    assert |survivors| > 0 ==> survivors[0] in players;
    GameResults(survivors, FallenPlayers(players), survivors, |survivors| > 0)
  }

  /** `winners.some((w) => w.id === id)`. */
  predicate IsWinner(winners: seq<Player>, id: string) {
    exists i :: 0 <= i < |winners| && winners[i].id == id
  }

  /** `updatePlayerCards`: the roster keeps its length and order, every player
      whose id is among the winners gains `cardsPerWin` cards, and nothing else
      changes. */
  function UpdatePlayerCards(players: seq<Player>, winners: seq<Player>, cardsPerWin: int): (r: seq<Player>)
    ensures |r| == |players|
    ensures forall i :: 0 <= i < |players| ==>
              r[i].cards == players[i].cards + (if IsWinner(winners, players[i].id) then cardsPerWin else 0)
    ensures forall i :: 0 <= i < |players| ==> r[i].(cards := players[i].cards) == players[i]
  {
    seq(|players|, i requires 0 <= i < |players| =>
      players[i].(cards := if IsWinner(winners, players[i].id) then players[i].cards + cardsPerWin
                           else players[i].cards))
  }

  /** Awarding the winners of `calculateGameResults` over a roster with distinct ids
      gives the card to exactly the standing players. */
  lemma AwardGoesToStandingPlayers(game: Game, gs: GameState, players: seq<Player>, cardsPerWin: int, i: nat)
    requires forall a, b :: 0 <= a < b < |players| ==> players[a].id != players[b].id
    requires i < |players|
    ensures var after := UpdatePlayerCards(players, CalculateGameResults(game, gs, players).winners, cardsPerWin);
            after[i].cards == players[i].cards + (if Standing(players[i]) then cardsPerWin else 0)
  {
    var winners := CalculateGameResults(game, gs, players).winners;
    if Standing(players[i]) {
      assert players[i] in winners;
      var k :| 0 <= k < |winners| && winners[k] == players[i];
      assert IsWinner(winners, players[i].id);
    } else {
      forall k | 0 <= k < |winners| ensures winners[k].id != players[i].id {
        assert winners[k] in winners;
        var j :| 0 <= j < |players| && players[j] == winners[k];
      }
    }
  }

  /** A completion reported as a success always leads to a clear game; "all
      eliminated" always leads to a game that is not clear. */
  lemma CompletionAgreesWithResults(game: Game, gs: GameState, players: seq<Player>)
    ensures CheckGameCompletion(game, gs, players).success ==> CalculateGameResults(game, gs, players).gameClear
    ensures CheckGameCompletion(game, gs, players).reason == Some(AllEliminated) ==>
              !CalculateGameResults(game, gs, players).gameClear
  {
    var standing := StandingPlayers(players);
    if standing != [] {
      assert standing[0] in players;
    } else if exists i :: 0 <= i < |players| && Standing(players[i]) {
      var i :| 0 <= i < |players| && Standing(players[i]);
      assert players[i] in standing;
    }
  }
}
