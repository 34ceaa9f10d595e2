# Dixit rules engine — a Dafny model

This project models the rules engine of the Dixit online game server: the
`Game` record of `server/src/dixit/game/models/game.py`, with its derived
status, its current round and storyteller, and the operations that seat the
owner and later players, add rounds with a rotating storyteller, and score a
completed round.

The model has four modules:

- `DixitTypes` (`dixit_types.dfy`): the values — game and round status,
  player, play, round, the four score settings, the deck's answer to a
  deal request, errors and results.
- `GameState` (`game_state.dfy`): what a game derives from its players and
  rounds — `current_round`, `status`, `storyteller` and the round
  `add_round` creates next — with the numbering and rotation lemmas
  (round `i` is numbered `i` and told by player `i mod n`).
- `Scoring` (`scoring.dfy`): the scoring rules of `complete_round`. `Gain`
  is a reference definition of what one round credits each player, stated
  per player by counting votes; `TallyVotes` and `ScoreRound` are the
  imperative pass over the votes, proved to build exactly that table. A
  four-player round is worked through as a lemma.
- `DixitGame` (`game.dfy`): the class `Game` with its players, rounds and
  the log of deals as fields; `NewGame`, `AddPlayer`, `AddRound` and
  `CompleteRound` update them and state the whole new state.

The deck lives outside the model: each operation that deals takes the
deck's answer (`Dealt` or `Exhausted`) as a parameter, and the game records
the number of every round dealt for in `dealt`. The score constants are a
`Settings` parameter instead of global configuration.

## Model

| member | source | states |
|---|---|---|
| GameState.CurrentRound | server/src/dixit/game/models/game.py:60-65 | None exactly when there are no rounds; otherwise one of the rounds, with the largest number |
| GameState.CurrentRoundIsLast | server/src/dixit/game/models/game.py:60-65 | with rounds numbered 0, 1, 2, … the current round is the last one added |
| GameState.Status | server/src/dixit/game/models/game.py:42-58 | Abandoned exactly when there are no players; Finished exactly when there are players and every round is complete (vacuously with no round) |
| GameState.StatusNewExactly | server/src/dixit/game/models/game.py:52-58 | with contiguous numbering the status is New exactly when there are players and a single round, which has not started |
| GameState.Storyteller | server/src/dixit/game/models/game.py:70-75 | None exactly when there is no round; otherwise a seated player, and when orders are the join positions, the player whose order is the current round's turn |
| GameState.NextRound | server/src/dixit/game/models/game.py:119-123 | the new round has not started, has no plays and is told by a seated player |
| GameState.NextRoundContinues | server/src/dixit/game/models/game.py:119-122 | the new round's number is the count of rounds so far, so numbering stays contiguous |
| GameState.RotationStep | server/src/dixit/game/models/game.py:119-125 | if round `i` is told by player `i mod n`, the new round is told by player `k mod n` for `k` rounds so far, and the rotation still holds |
| GameState.ScheduleRotates | server/src/dixit/game/models/game.py:109-134 | after any number `k` of rounds added to an `n`-player game, round `i` has number `i` and is told by player `i mod n` |
| GameState.StorytellerRotates | server/src/dixit/game/models/game.py:70-75 | in a rotating game with `k` rounds the storyteller is player `(k - 1) mod n` |
| Scoring.OthersPlaysMembers | server/src/dixit/game/models/game.py:166-167 | the voters' plays are exactly the plays not made by the storyteller |
| Scoring.StoryCard | server/src/dixit/game/models/game.py:169 | a card exactly when the storyteller played, and it is the card of the storyteller's play |
| Scoring.OwnerOf | server/src/dixit/game/models/game.py:178 | a player exactly when the card is on the table, and it is the player who put it there |
| Scoring.StorytellerNeverGuesses | server/src/dixit/game/models/game.py:167-176 | the storyteller is never credited a guess, as their play is left out of the votes |
| Scoring.StorytellerNeverFools | server/src/dixit/game/models/game.py:174-179 | no wrong vote credits the storyteller, since a vote for the story card is a right guess |
| Scoring.StorytellerGain | server/src/dixit/game/models/game.py:181-182 | the storyteller's entry is the story score when some but not all voters found the story card, and there is no entry otherwise |
| Scoring.GuesserGain | server/src/dixit/game/models/game.py:173-179 | a voter's entry is the guess score if they found the story card plus the confused-guess score per player fooled by their card; no entry if neither happened |
| Scoring.AbsentPlayerGain | server/src/dixit/game/models/game.py:170-186 | a player without a play in the round gets no entry, so their score is untouched |
| Scoring.RoundGainBounds | server/src/dixit/game/models/game.py:184-185 | with non-negative settings a round adds between 0 and the round cap to every score |
| Scoring.Unmarked | server/src/dixit/game/models/game.py:171 | one guess flag per voter, all false |
| Scoring.StoryVerdict | server/src/dixit/game/models/game.py:181 | some guess flag is set exactly when some voter found the story card, and all are set exactly when every voter did |
| Scoring.TallyVotes | server/src/dixit/game/models/game.py:170-179 | the pass over the votes builds a table with an entry for exactly the players the votes credit, holding guess score per right guess plus confused-guess score per player fooled, and flags exactly the voters who found the story card |
| Scoring.ScoreRound | server/src/dixit/game/models/game.py:166-182 | the score table has an entry for exactly the players `Gain` credits, holding exactly their gain |
| Scoring.FourPlaysTable | server/src/dixit/game/models/game.py:166-178 | in the worked four-player round the voters are players 1 to 3, the story card is card 1 and card 4 is player 3's |
| Scoring.FourPlaysWellFormed | server/src/dixit/game/models/game.py:166-178 | the worked round has one play per player and per card and every vote is for a card on the table |
| Scoring.FourPlaysVotes | server/src/dixit/game/models/game.py:173-179 | in the worked round players 1 and 3 each guess right once, player 2 not at all, and only player 3's card fools anybody, once |
| Scoring.FourPlayerStoryteller | server/src/dixit/game/models/game.py:141-146 | in the worked round the storyteller earns the story score |
| Scoring.FourPlayerVoters | server/src/dixit/game/models/game.py:141-146 | in the worked round player 1 earns the guess score, player 3 the guess and confused-guess scores, player 2 nothing |
| Scoring.SelfVoteTable | server/src/dixit/game/models/game.py:166-178 | in a three-player round where player 1 votes for their own card, the voters are players 1 and 2, the story card is card 1 and card 2 is player 1's |
| Scoring.SelfVoteWellFormed | server/src/dixit/game/models/game.py:166-178 | that round has one play per player and per card and every vote is for a card on the table |
| Scoring.SelfVoteVotes | server/src/dixit/game/models/game.py:173-179 | in that round player 1 guesses nothing right and their own vote is the one wrong vote that lands on their card |
| Scoring.SelfVoteCounts | server/src/dixit/game/models/game.py:177-179 | a vote for one's own card is credited as fooling: player 1 earns the confused-guess score |
| DixitGame.Game.constructor | server/src/dixit/game/models/game.py:84-85 | a game with its name, no players, no rounds and nothing dealt |
| DixitGame.Game.NewGame | server/src/dixit/game/models/game.py:77-91 | a fresh game whose only player is the owner with order 0 and score 0; round 0 told by the owner if the deck deals, no round otherwise; status New or Finished accordingly |
| DixitGame.Game.AddPlayer | server/src/dixit/game/models/game.py:93-107 | the player is appended with order equal to the former player count; when the current round has not started the deck deals for it, and an exhausted deck is an error reported after the player was seated; rounds unchanged |
| DixitGame.Game.AddRound | server/src/dixit/game/models/game.py:109-134 | nothing changes without players or with an exhausted deck; otherwise the next round is appended and dealt for, numbered after the last and told by the next player, and the rotation invariant is kept |
| DixitGame.Game.CompleteRound | server/src/dixit/game/models/game.py:136-188 | an error and no change without a round or with an incomplete round; otherwise every player's score grows by their capped round gain and nothing else changes |

## Left out

- Persistence: saving records, the creation timestamp, ordering metadata, translations and the string form of a game are not modelled; the collections are in-memory fields.
- Dealing: `Round.deal` and the deck's card pool are not part of this model; the deck's answer is a parameter and `dealt` records which rounds were dealt for.
- Round status and plays: how a round derives its status from its plays, and how plays are submitted, are not part of this model; the status is a field of `Round` and the plays are given.
- The unimplemented card-description update described in the comment at lines 152-158 has no behaviour to model.
- DixitGame.Game.CompleteRound: requires the current round, once complete, to have well-formed plays by seated players. Only some of these conditions make the source raise a lookup exception from the database: a missing or doubled storyteller play (line 169), a missing vote or a vote for a card not on the table, and a voted card that sits on two plays (line 178). The others are data invariants that `complete_round` assumes but does not check: a voter with two plays has both votes counted, a card on two plays that nobody votes for goes unnoticed, and whether the players are seated is never looked up. The model covers none of these inputs.
- Scoring.ScoreRound: requires the same well-formed plays, for the same reasons.
- The lookup of the storyteller by order at line 125 always succeeds in the model, because orders are the dense join positions and every round's storyteller is seated (`Game.Valid`).
- Repeated scoring: `CompleteRound` marks nothing as scored, as in the source, so calling it twice on the same complete round credits the scores twice; no idempotence is claimed.
- Concurrency and transactions between simultaneous requests are not modelled.
- Players are values in a sequence and a round refers to its storyteller by join order, so object identity and aliasing of player records are not modelled.
- The owner is created without an explicit order; the model gives it order 0, the field's default.
- Integers are unbounded, as in the source.

## Behaviour as written

Where the code behaves in ways a reader might not expect, the model follows the code:

- Seating a player is not all-or-nothing: the new player is saved before the deck deals for the unstarted round, so an exhausted deck is reported with the player already seated (`AddPlayer`).
- The storyteller's story score is an assignment over their table entry, not an addition; under well-formed plays the storyteller has no other entry (`StorytellerNeverGuesses`, `StorytellerNeverFools`), so the two readings agree.
- Scoring a game with no round fails before the round status is looked at, because the storyteller is read first (`CompleteRound` returns `NoCurrentRound`).
- A game is Abandoned only when it has no players at all (line 49), although the class comment at lines 28-29 speaks of all players but one quitting (`Status`).
- A player who votes for their own card is credited the confused-guess score for it (lines 177-179), although the docstring at lines 145-146 speaks of other players choosing one's card; `FooledBy` counts such a vote the same way (`SelfVoteCounts`).
