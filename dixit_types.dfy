/**
 * The values the Dixit rules engine works with: the derived game status, the
 * player, round and play records, the score settings and the outcomes of the
 * operations that can fail.
 */
module DixitTypes {

  /** A card of the deck, an opaque token. */
  type Card = nat

  datatype Option<T> = None | Some(value: T)

  /** The derived status of a game; it is never stored. */
  datatype GameStatus = New | Ongoing | Finished | Abandoned

  /**
   * The status of a round. The round derives it from its plays elsewhere;
   * the rules engine only compares it against New and Complete.
   */
  datatype RoundStatus = New | InProgress | Complete

  /**
   * A seated player: `order` is the join-order index, `owner` marks the
   * player who created the game, `score` is the running total.
   */
  datatype Player = Player(name: string, order: nat, owner: bool, score: int)

  /**
   * One player's submission in a round: the card they put on the table and,
   * for everybody but the storyteller, the card they voted for.
   */
  datatype Play = Play(player: nat, cardProvided: Card, cardChosen: Option<Card>)

  /**
   * A round: its number, the order index of its storyteller (`turn`), its
   * status and the plays submitted to it so far.
   */
  datatype Round = Round(number: nat, turn: nat, status: RoundStatus, plays: seq<Play>)

  /**
   * The four score settings: points for guessing the story card, points for
   * each player fooled by one's card, the storyteller's points, and the cap
   * on what one player may gain in one round.
   */
  datatype Settings = Settings(guessScore: int, confusedGuessScore: int, storyScore: int, maxRoundScore: int)

  /** What the deck answers when a round asks it to deal. */
  datatype DealOutcome = Dealt | Exhausted

  datatype GameError =
    | DeckExhausted     // the deck cannot deal another hand
    | RoundIncomplete   // scoring was asked for before every play was in
    | NoCurrentRound    // the game has no round to take a storyteller from

  datatype Result<T> = Ok(value: T) | Err(error: GameError)

  datatype Outcome = Done | Failed(error: GameError)
}
