/**
 * The game record and the operations that change it: seating players,
 * adding rounds, and applying a completed round's scores. The players and
 * rounds are the game's collections; the deck is outside the model and
 * answers each request to deal with a `DealOutcome`.
 */
module DixitGame {
  import opened DixitTypes
  import opened GameState
  import opened Scoring

  /** Player `i` has join order `i`, and only the first player can be the owner. */
  ghost predicate Seated(players: seq<Player>) {
    forall i :: 0 <= i < |players| ==> players[i].order == i && (players[i].owner ==> i == 0)
  }

  /**
   * What scoring the current round demands of its plays, once the round is
   * complete: well-formed plays, all by seated players.
   */
  ghost predicate ReadyToScore(players: seq<Player>, rounds: seq<Round>) {
    rounds != [] && CurrentRound(rounds).value.status == RoundStatus.Complete ==>
      var current := CurrentRound(rounds).value;
      WellFormedRound(current.plays, current.turn) && PlaysSeated(current.plays, |players|)
  }

  class Game {
    var name: string
    var players: seq<Player>
    var rounds: seq<Round>
    /** The numbers of the rounds the deck has dealt for, one entry per successful deal. */
    var dealt: seq<nat>

    ghost predicate Valid()
      reads this
    {
      Seated(players) && Contiguous(rounds) && TurnsSeated(players, rounds)
    }

    /** An empty game: no players, no rounds, nothing dealt. */
    constructor (name: string)
      ensures Valid()
      ensures this.name == name && players == [] && rounds == [] && dealt == []
    {
      this.name := name;
      players := [];
      rounds := [];
      dealt := [];
    }

    /**
     * Bootstraps a game: the creator is seated as the owner with order 0 and
     * round 0 is added with them as storyteller. If the deck cannot deal
     * that round, the game has its owner but no round.
     */
    static method NewGame(name: string, playerName: string, deal: DealOutcome) returns (game: Game)
      ensures fresh(game) && game.Valid()
      ensures game.name == name && game.players == [Player(playerName, 0, true, 0)]
      ensures deal == Dealt ==> game.rounds == [Round(0, 0, RoundStatus.New, [])] && game.dealt == [0]
      ensures deal == Exhausted ==> game.rounds == [] && game.dealt == []
      ensures Rotating(game.rounds, 1)
      ensures Status(game.players, game.rounds) == if deal == Dealt then GameStatus.New else GameStatus.Finished
    {
      game := new Game(name);
      game.players := [Player(playerName, 0, true, 0)];
      var _ := game.AddRound(deal);
      StatusNewExactly(game.players, game.rounds);
    }

    /**
     * Seats a new player with the next join order. When the current round
     * has not started, the deck deals for it; the player is seated before
     * the deal, so an exhausted deck is reported with the player already in.
     */
    method AddPlayer(playerName: string, deal: DealOutcome) returns (r: Result<Player>)
      requires Valid()
      modifies this
      ensures Valid()
      ensures name == old(name) && rounds == old(rounds)
      ensures players == old(players) + [Player(playerName, |old(players)|, false, 0)]
      ensures var current := CurrentRound(rounds);
              if current.Some? && current.value.status == RoundStatus.New then
                if deal == Dealt then r == Ok(players[|players| - 1]) && dealt == old(dealt) + [current.value.number]
                else r == Err(DeckExhausted) && dealt == old(dealt)
              else r == Ok(players[|players| - 1]) && dealt == old(dealt)
    {
      var player := Player(playerName, |players|, false, 0);
      players := players + [player];
      var current := CurrentRound(rounds);
      if current.Some? && current.value.status == RoundStatus.New {
        if deal == Exhausted {
          return Err(DeckExhausted);
        }
        dealt := dealt + [current.value.number];
      }
      return Ok(player);
    }

    /**
     * Adds the next round: none without players; otherwise the round after
     * the current one, told by the next player in join order, wrapping
     * around. The round is kept only if the deck deals for it.
     */
    method AddRound(deal: DealOutcome) returns (r: Option<Round>)
      requires Valid()
      modifies this
      ensures Valid()
      ensures name == old(name) && players == old(players)
      ensures |players| == 0 || deal == Exhausted ==>
                r == None && rounds == old(rounds) && dealt == old(dealt)
      ensures |players| > 0 && deal == Dealt ==>
                && r == Some(NextRound(old(rounds), |players|))
                && rounds == old(rounds) + [r.value]
                && dealt == old(dealt) + [r.value.number]
      ensures r.Some? ==> r.value.number == |old(rounds)| && r.value.turn < |players|
      ensures |players| > 0 && Rotating(old(rounds), |players|) ==> Rotating(rounds, |players|)
    {
      var nplayers := |players|;
      if nplayers == 0 {
        return None;
      }
      var round := NextRound(rounds, nplayers);
      NextRoundContinues(rounds, nplayers);
      if Rotating(rounds, nplayers) {
        RotationStep(rounds, nplayers);
      }
      if deal == Exhausted {
        return None;
      }
      dealt := dealt + [round.number];
      rounds := rounds + [round];
      return Some(round);
    }

    /**
     * Scores the current round: fails without a round to take the
     * storyteller from, refuses an incomplete round, and otherwise adds to
     * each player the round's gain for them, capped, leaving everything
     * else as it was.
     */
    method CompleteRound(s: Settings) returns (outcome: Outcome)
      requires Valid() && ReadyToScore(players, rounds)
      modifies this
      ensures Valid()
      ensures name == old(name) && rounds == old(rounds) && dealt == old(dealt)
      ensures rounds == [] ==> outcome == Failed(NoCurrentRound) && players == old(players)
      ensures rounds != [] && CurrentRound(rounds).value.status != RoundStatus.Complete ==>
                outcome == Failed(RoundIncomplete) && players == old(players)
      ensures rounds != [] && CurrentRound(rounds).value.status == RoundStatus.Complete ==>
                var current := CurrentRound(rounds).value;
                && outcome == Done
                && |players| == |old(players)|
                && forall i :: 0 <= i < |players| ==>
                     players[i] == old(players[i]).(score := old(players[i].score) + RoundGain(current.plays, current.turn, s, i))
    {
      var current := CurrentRound(rounds);
      if current.None? {
        return Failed(NoCurrentRound);
      }
      var round := current.value;
      var storyteller := round.turn;
      if round.status != RoundStatus.Complete {
        return Failed(RoundIncomplete);
      }
      var scores := ScoreRound(round.plays, storyteller, s);
      forall x | x in scores ensures x < |players| {
        if x !in PlayersOf(round.plays) {
          AbsentPlayerGain(round.plays, storyteller, s, x);
        }
      }
      var pending := scores.Keys;
      while pending != {}
        invariant pending <= scores.Keys
        invariant name == old(name) && rounds == old(rounds) && dealt == old(dealt)
        invariant |players| == |old(players)|
        invariant forall i :: 0 <= i < |players| ==>
                    players[i] == old(players[i]).(score := old(players[i].score)
                      + if i in scores && i !in pending then Min(s.maxRoundScore, scores[i]) else 0)
        decreases pending
      {
        var p :| p in pending;
        players := players[p := players[p].(score := players[p].score + Min(s.maxRoundScore, scores[p]))];
        pending := pending - {p};
      }
      return Done;
    }
  }
}
