/**
 * Scoring of a completed round. `Gain` says, in closed form, what each
 * player is owed by a round: the guess score for each right guess, the
 * confused-guess score for each player who voted for their card, and, for
 * the storyteller, the story score when some but not all voters found the
 * story card. `ScoreRound` is the loop that builds the same table one play
 * at a time, as the game does.
 */
module Scoring {
  import opened DixitTypes

  function Min(a: int, b: int): int { if a <= b then a else b }

  function PlayersOf(plays: seq<Play>): set<nat> {
    set p | p in plays :: p.player
  }

  function ProvidedCards(plays: seq<Play>): set<Card> {
    set p | p in plays :: p.cardProvided
  }

  /** Each player has at most one play in the round. */
  ghost predicate DistinctPlayers(plays: seq<Play>) {
    forall i, j :: 0 <= i < j < |plays| ==> plays[i].player != plays[j].player
  }

  /** No two plays put the same card on the table: there are as many cards as plays. */
  ghost predicate DistinctCards(plays: seq<Play>) {
    |ProvidedCards(plays)| == |plays|
  }

  /**
   * What scoring needs of a round's plays: one play per player, one play per
   * card, a play by the storyteller, and a vote by everybody else for a card
   * that is on the table.
   */
  ghost predicate WellFormedRound(plays: seq<Play>, storyteller: nat) {
    && DistinctPlayers(plays)
    && DistinctCards(plays)
    && storyteller in PlayersOf(plays)
    && forall i :: 0 <= i < |plays| && plays[i].player != storyteller ==>
         plays[i].cardChosen.Some? && plays[i].cardChosen.value in ProvidedCards(plays)
  }

  /** Every play belongs to one of the `n` seated players. */
  ghost predicate PlaysSeated(plays: seq<Play>, n: nat) {
    forall i :: 0 <= i < |plays| ==> plays[i].player < n
  }

  /** The plays of everybody but the storyteller, in their original order. */
  function OthersPlays(plays: seq<Play>, storyteller: nat): seq<Play> {
    if plays == [] then []
    else
      var last := plays[|plays| - 1];
      OthersPlays(plays[..|plays| - 1], storyteller) + (if last.player != storyteller then [last] else [])
  }

  /** The others' plays are exactly the plays not made by the storyteller. */
  lemma {:induction false} OthersPlaysMembers(plays: seq<Play>, storyteller: nat)
    ensures forall p :: p in OthersPlays(plays, storyteller) <==> p in plays && p.player != storyteller
  {
    if plays != [] {
      var init := plays[..|plays| - 1];
      OthersPlaysMembers(init, storyteller);
      assert plays == init + [plays[|plays| - 1]];
    }
  }

  /** The card the storyteller put on the table, if they played. */
  function StoryCard(plays: seq<Play>, storyteller: nat): (r: Option<Card>)
    ensures r.Some? <==> storyteller in PlayersOf(plays)
    ensures r.Some? ==> exists i :: 0 <= i < |plays| && plays[i].player == storyteller && plays[i].cardProvided == r.value
  {
    if plays == [] then None
    else if plays[0].player == storyteller then Some(plays[0].cardProvided)
    else
      var r := StoryCard(plays[1..], storyteller);
      assert forall p :: p in plays[1..] ==> p in plays;
      assert r.Some? ==> plays[1..][0] in plays[1..];
      r
  }

  /** The player who put `card` on the table, if anybody did. */
  function OwnerOf(plays: seq<Play>, card: Card): (r: Option<nat>)
    ensures r.Some? <==> card in ProvidedCards(plays)
    ensures r.Some? ==> exists i :: 0 <= i < |plays| && plays[i].cardProvided == card && plays[i].player == r.value
  {
    if plays == [] then None
    else if plays[0].cardProvided == card then Some(plays[0].player)
    else
      var r := OwnerOf(plays[1..], card);
      assert forall p :: p in plays[1..] ==> p in plays;
      assert r.Some? ==> plays[1..][0] in plays[1..];
      r
  }

  predicate Guessed(p: Play, story: Card) {
    p.cardChosen == Some(story)
  }

  /** A wrong vote for the card that `x` put on the table. */
  predicate FooledBy(plays: seq<Play>, story: Card, p: Play, x: nat) {
    !Guessed(p, story) && p.cardChosen.Some? && OwnerOf(plays, p.cardChosen.value) == Some(x)
  }

  /** How many of the votes `gs` are right guesses by `x`. */
  function CorrectBy(gs: seq<Play>, story: Card, x: nat): nat {
    if gs == [] then 0
    else CorrectBy(gs[..|gs| - 1], story, x)
         + (if Guessed(gs[|gs| - 1], story) && gs[|gs| - 1].player == x then 1 else 0)
  }

  /** How many of the votes `gs` went wrongly to `x`'s card. */
  function Fooled(gs: seq<Play>, plays: seq<Play>, story: Card, x: nat): nat {
    if gs == [] then 0
    else Fooled(gs[..|gs| - 1], plays, story, x)
         + (if FooledBy(plays, story, gs[|gs| - 1], x) then 1 else 0)
  }

  /** Some, but not all, of the votes found the story card. */
  ghost predicate StoryEarned(gs: seq<Play>, story: Card) {
    && (exists j :: 0 <= j < |gs| && Guessed(gs[j], story))
    && (exists j :: 0 <= j < |gs| && !Guessed(gs[j], story))
  }

  /**
   * What the round credits to player `x` before the cap, or None when the
   * round gives `x` no entry at all. The storyteller's entry is the story
   * score when it is earned; for every other player it is the guess score
   * per right guess plus the confused-guess score per player fooled.
   */
  ghost function Gain(plays: seq<Play>, storyteller: nat, s: Settings, x: nat): Option<int>
    requires storyteller in PlayersOf(plays)
  {
    var story := StoryCard(plays, storyteller).value;
    var gs := OthersPlays(plays, storyteller);
    var right := CorrectBy(gs, story, x);
    var fooled := Fooled(gs, plays, story, x);
    if x == storyteller && StoryEarned(gs, story) then Some(s.storyScore)
    else if right + fooled > 0 then Some(s.guessScore * right + s.confusedGuessScore * fooled)
    else None
  }

  /** What the round adds to player `x`'s score: the gain, capped, or nothing. */
  ghost function RoundGain(plays: seq<Play>, storyteller: nat, s: Settings, x: nat): int
    requires storyteller in PlayersOf(plays)
  {
    match Gain(plays, storyteller, s, x)
    case None => 0
    case Some(d) => Min(s.maxRoundScore, d)
  }

  lemma {:induction false} CorrectByPositive(gs: seq<Play>, story: Card, x: nat)
    ensures CorrectBy(gs, story, x) > 0 <==>
            exists j :: 0 <= j < |gs| && gs[j].player == x && Guessed(gs[j], story)
  {
    if gs != [] {
      var init := gs[..|gs| - 1];
      CorrectByPositive(init, story, x);
      assert forall j :: 0 <= j < |init| ==> init[j] == gs[j];
    }
  }

  lemma {:induction false} FooledPositive(gs: seq<Play>, plays: seq<Play>, story: Card, x: nat)
    ensures Fooled(gs, plays, story, x) > 0 <==>
            exists j :: 0 <= j < |gs| && FooledBy(plays, story, gs[j], x)
  {
    if gs != [] {
      var init := gs[..|gs| - 1];
      FooledPositive(init, plays, story, x);
      assert forall j :: 0 <= j < |init| ==> init[j] == gs[j];
    }
  }

  /** With one vote per player, a player's right guesses number one or none. */
  lemma {:induction false} CorrectByOne(gs: seq<Play>, story: Card, j: nat)
    requires DistinctPlayers(gs) && j < |gs|
    ensures CorrectBy(gs, story, gs[j].player) == if Guessed(gs[j], story) then 1 else 0
  {
    var init := gs[..|gs| - 1];
    var x := gs[j].player;
    if j == |gs| - 1 {
      forall i | 0 <= i < |init| ensures init[i].player != x { assert init[i] == gs[i]; }
      CorrectByPositive(init, story, x);
    } else {
      assert init[j] == gs[j];
      CorrectByOne(init, story, j);
    }
  }

  lemma {:induction false} OthersDistinct(plays: seq<Play>, storyteller: nat)
    requires DistinctPlayers(plays)
    ensures DistinctPlayers(OthersPlays(plays, storyteller))
  {
    if plays != [] {
      var init := plays[..|plays| - 1];
      var last := plays[|plays| - 1];
      OthersDistinct(init, storyteller);
      var before := OthersPlays(init, storyteller);
      OthersPlaysMembers(init, storyteller);
      forall p | p in before ensures p.player != last.player {
        var a :| 0 <= a < |init| && init[a] == p;
        assert plays[a] == p;
      }
    }
  }

  /** Where a non-storyteller's play sits among the others' plays. */
  lemma OthersIndex(plays: seq<Play>, storyteller: nat, i: nat) returns (j: nat)
    requires i < |plays| && plays[i].player != storyteller
    ensures j < |OthersPlays(plays, storyteller)| && OthersPlays(plays, storyteller)[j] == plays[i]
  {
    var gs := OthersPlays(plays, storyteller);
    OthersPlaysMembers(plays, storyteller);
    assert plays[i] in plays;
    assert plays[i] in gs;
    j :| 0 <= j < |gs| && gs[j] == plays[i];
  }

  /** None of the others' plays is the storyteller's, so none is a right guess by them. */
  lemma {:induction false} StorytellerNeverGuesses(plays: seq<Play>, storyteller: nat, story: Card)
    ensures CorrectBy(OthersPlays(plays, storyteller), story, storyteller) == 0
  {
    if plays != [] {
      var init := plays[..|plays| - 1];
      var last := plays[|plays| - 1];
      var before := OthersPlays(init, storyteller);
      StorytellerNeverGuesses(init, storyteller, story);
      assert plays[..|plays| - 1] == init;
      if last.player != storyteller {
        assert OthersPlays(plays, storyteller) == before + [last];
        assert (before + [last])[..|before|] == before;
      } else {
        assert OthersPlays(plays, storyteller) == before;
      }
    }
  }

  /** The only card the storyteller owns is the story card. */
  lemma StorytellersOnlyCard(plays: seq<Play>, storyteller: nat, card: Card)
    requires DistinctPlayers(plays) && storyteller in PlayersOf(plays)
    ensures OwnerOf(plays, card) == Some(storyteller) ==> card == StoryCard(plays, storyteller).value
  {
  }

  /** A wrong vote never lands on the storyteller's card. */
  lemma {:induction false} StorytellerNeverFools(gs: seq<Play>, plays: seq<Play>, storyteller: nat)
    requires DistinctPlayers(plays) && storyteller in PlayersOf(plays)
    ensures Fooled(gs, plays, StoryCard(plays, storyteller).value, storyteller) == 0
  {
    if gs != [] {
      var last := gs[|gs| - 1];
      StorytellerNeverFools(gs[..|gs| - 1], plays, storyteller);
      if last.cardChosen.Some? {
        StorytellersOnlyCard(plays, storyteller, last.cardChosen.value);
      }
    }
  }

  /** A voter's right guesses: one if their single play found the story card, none otherwise. */
  lemma VoterGuesses(plays: seq<Play>, storyteller: nat, story: Card, i: nat)
    requires DistinctPlayers(plays)
    requires i < |plays| && plays[i].player != storyteller
    ensures CorrectBy(OthersPlays(plays, storyteller), story, plays[i].player) == if Guessed(plays[i], story) then 1 else 0
  {
    var j := OthersIndex(plays, storyteller, i);
    OthersDistinct(plays, storyteller);
    CorrectByOne(OthersPlays(plays, storyteller), story, j);
  }

  /** Without a card on the table nobody's vote can land on one's card. */
  lemma {:induction false} AbsentNeverFools(gs: seq<Play>, plays: seq<Play>, story: Card, x: nat)
    requires x !in PlayersOf(plays)
    ensures Fooled(gs, plays, story, x) == 0
  {
    if gs != [] {
      var last := gs[|gs| - 1];
      AbsentNeverFools(gs[..|gs| - 1], plays, story, x);
    }
  }

  /** Without a play one has no right guess either. */
  lemma AbsentNeverGuesses(plays: seq<Play>, storyteller: nat, story: Card, x: nat)
    requires x !in PlayersOf(plays)
    ensures CorrectBy(OthersPlays(plays, storyteller), story, x) == 0
  {
    var gs := OthersPlays(plays, storyteller);
    CorrectByPositive(gs, story, x);
    OthersPlaysMembers(plays, storyteller);
    forall j | 0 <= j < |gs| ensures gs[j].player != x {
      assert gs[j] in gs;
    }
  }

  /**
   * The storyteller's entry: exactly the story score when some but not all
   * of the other players found the story card (so not with zero voters),
   * and no entry otherwise. Nobody's vote can credit the storyteller's card,
   * because a vote for it is a right guess.
   */
  lemma StorytellerGain(plays: seq<Play>, storyteller: nat, s: Settings)
    requires WellFormedRound(plays, storyteller)
    ensures var gs := OthersPlays(plays, storyteller);
            var story := StoryCard(plays, storyteller).value;
            Gain(plays, storyteller, s, storyteller) ==
              if StoryEarned(gs, story) then Some(s.storyScore) else None
  {
    var gs := OthersPlays(plays, storyteller);
    StorytellerNeverGuesses(plays, storyteller, StoryCard(plays, storyteller).value);
    StorytellerNeverFools(gs, plays, storyteller);
  }

  /**
   * Every other player who played: the guess score if they found the story
   * card, plus the confused-guess score for each player who voted for their
   * card; no entry when neither happened.
   */
  lemma GuesserGain(plays: seq<Play>, storyteller: nat, s: Settings, i: nat)
    requires DistinctPlayers(plays) && storyteller in PlayersOf(plays)
    requires i < |plays| && plays[i].player != storyteller
    ensures var x := plays[i].player;
            var story := StoryCard(plays, storyteller).value;
            var fooled := Fooled(OthersPlays(plays, storyteller), plays, story, x);
            Gain(plays, storyteller, s, x) ==
              if Guessed(plays[i], story) then Some(s.guessScore + s.confusedGuessScore * fooled)
              else if fooled > 0 then Some(s.confusedGuessScore * fooled)
              else None
  {
    var story := StoryCard(plays, storyteller).value;
    VoterGuesses(plays, storyteller, story, i);
    var right := CorrectBy(OthersPlays(plays, storyteller), story, plays[i].player);
    if Guessed(plays[i], story) {
      assert right == 1;
      assert s.guessScore * right == s.guessScore;
    } else {
      assert right == 0;
      assert s.guessScore * right == 0;
    }
  }

  /** A player without a play in the round gets no entry, so their score is untouched. */
  lemma AbsentPlayerGain(plays: seq<Play>, storyteller: nat, s: Settings, x: nat)
    requires WellFormedRound(plays, storyteller)
    requires x !in PlayersOf(plays)
    ensures Gain(plays, storyteller, s, x) == None
  {
    var story := StoryCard(plays, storyteller).value;
    AbsentNeverGuesses(plays, storyteller, story, x);
    AbsentNeverFools(OthersPlays(plays, storyteller), plays, story, x);
  }

  /**
   * With non-negative settings, a round adds between zero and the cap to
   * every score: scores never decrease and never jump by more than the cap.
   */
  lemma RoundGainBounds(plays: seq<Play>, storyteller: nat, s: Settings, x: nat)
    requires storyteller in PlayersOf(plays)
    requires s.guessScore >= 0 && s.confusedGuessScore >= 0 && s.storyScore >= 0 && s.maxRoundScore >= 0
    ensures 0 <= RoundGain(plays, storyteller, s, x) <= s.maxRoundScore
  {
    var story := StoryCard(plays, storyteller).value;
    var gs := OthersPlays(plays, storyteller);
    var right := CorrectBy(gs, story, x);
    var fooled := Fooled(gs, plays, story, x);
    assert s.guessScore * right >= 0 && s.confusedGuessScore * fooled >= 0;
  }

  /**
   * `scores` is the table the votes `gs` have built: an entry for exactly the
   * players they credit, holding the guess score per right guess plus the
   * confused-guess score per wrong vote for the player's card.
   */
  ghost predicate Tallied(scores: map<nat, int>, gs: seq<Play>, plays: seq<Play>, story: Card, s: Settings) {
    forall x ::
      && (x in scores <==> CorrectBy(gs, story, x) + Fooled(gs, plays, story, x) > 0)
      && (x in scores ==> scores[x] == s.guessScore * CorrectBy(gs, story, x) + s.confusedGuessScore * Fooled(gs, plays, story, x))
  }

  /** `guesses` marks which voters of `gs` have found the story card. */
  ghost predicate Tracked(guesses: map<nat, bool>, gs: seq<Play>, story: Card) {
    forall x :: x in guesses ==> (guesses[x] <==> CorrectBy(gs, story, x) > 0)
  }

  /** One entry per voter, none marked yet. */
  function Unmarked(gs: seq<Play>): (guesses: map<nat, bool>)
    ensures guesses.Keys == PlayersOf(gs)
    ensures forall x :: x in guesses ==> !guesses[x]
  {
    if gs == [] then map[]
    else
      var init := gs[..|gs| - 1];
      assert gs == init + [gs[|gs| - 1]];
      Unmarked(init)[gs[|gs| - 1].player := false]
  }

  function Lookup(scores: map<nat, int>, x: nat): int {
    if x in scores then scores[x] else 0
  }

  lemma Distribute(a: int, n: nat)
    ensures a * (n + 1) == a * n + a
  {
  }

  /** A right guess credits the guess score to the voter. */
  lemma TallyGuess(scores: map<nat, int>, gs: seq<Play>, plays: seq<Play>, story: Card, s: Settings, p: Play)
    requires Tallied(scores, gs, plays, story, s) && Guessed(p, story)
    ensures Tallied(scores[p.player := Lookup(scores, p.player) + s.guessScore], gs + [p], plays, story, s)
  {
    assert (gs + [p])[..|gs|] == gs;
    Distribute(s.guessScore, CorrectBy(gs, story, p.player));
  }

  /** A wrong vote credits the confused-guess score to the owner of the card voted for. */
  lemma TallyFooled(scores: map<nat, int>, gs: seq<Play>, plays: seq<Play>, story: Card, s: Settings, p: Play, owner: nat)
    requires Tallied(scores, gs, plays, story, s)
    requires !Guessed(p, story) && p.cardChosen.Some? && OwnerOf(plays, p.cardChosen.value) == Some(owner)
    ensures Tallied(scores[owner := Lookup(scores, owner) + s.confusedGuessScore], gs + [p], plays, story, s)
  {
    assert (gs + [p])[..|gs|] == gs;
    Distribute(s.confusedGuessScore, Fooled(gs, plays, story, owner));
  }

  lemma TrackGuess(guesses: map<nat, bool>, gs: seq<Play>, story: Card, p: Play)
    requires Tracked(guesses, gs, story)
    ensures Guessed(p, story) ==> Tracked(guesses[p.player := true], gs + [p], story)
    ensures !Guessed(p, story) ==> Tracked(guesses, gs + [p], story)
  {
    assert (gs + [p])[..|gs|] == gs;
  }

  /** Every wrong vote among `gs` is for a card on the table. */
  ghost predicate VotesOnTable(gs: seq<Play>, plays: seq<Play>, story: Card) {
    forall j :: 0 <= j < |gs| && !Guessed(gs[j], story) ==>
      gs[j].cardChosen.Some? && OwnerOf(plays, gs[j].cardChosen.value).Some?
  }

  lemma OthersVoteOnTable(plays: seq<Play>, storyteller: nat)
    requires WellFormedRound(plays, storyteller)
    ensures VotesOnTable(OthersPlays(plays, storyteller), plays, StoryCard(plays, storyteller).value)
  {
    var gs := OthersPlays(plays, storyteller);
    OthersPlaysMembers(plays, storyteller);
    forall j | 0 <= j < |gs| ensures gs[j] in plays && gs[j].player != storyteller {
      assert gs[j] in gs;
    }
  }

  /**
   * The pass over the votes: each right guess credits the guess score to
   * the voter and marks them in `guesses`; each wrong vote credits the
   * confused-guess score to the player whose card was chosen.
   */
  method TallyVotes(gs: seq<Play>, plays: seq<Play>, story: Card, s: Settings)
    returns (scores: map<nat, int>, guesses: map<nat, bool>)
    requires VotesOnTable(gs, plays, story)
    ensures Tallied(scores, gs, plays, story, s)
    ensures guesses.Keys == PlayersOf(gs) && Tracked(guesses, gs, story)
  {
    scores := map[];
    guesses := Unmarked(gs);
    var k := 0;
    ghost var done: seq<Play> := [];
    while k < |gs|
      invariant 0 <= k <= |gs| && done == gs[..k]
      invariant Tallied(scores, done, plays, story, s)
      invariant guesses.Keys == PlayersOf(gs)
      invariant Tracked(guesses, done, story)
    {
      var play := gs[k];
      TrackGuess(guesses, done, story, play);
      if play.cardChosen == Some(story) {
        TallyGuess(scores, done, plays, story, s, play);
        scores := scores[play.player := Lookup(scores, play.player) + s.guessScore];
        guesses := guesses[play.player := true];
      } else {
        var chosen := OwnerOf(plays, play.cardChosen.value).value;
        TallyFooled(scores, done, plays, story, s, play, chosen);
        scores := scores[chosen := Lookup(scores, chosen) + s.confusedGuessScore];
      }
      done := done + [play];
      k := k + 1;
    }
    assert done == gs;
  }

  /**
   * Builds the round's score table: the pass over the other players' votes,
   * then the story score to the storyteller when some but not all voters
   * guessed right. The table holds exactly the round's gains.
   */
  method ScoreRound(plays: seq<Play>, storyteller: nat, s: Settings) returns (scores: map<nat, int>)
    requires WellFormedRound(plays, storyteller)
    ensures forall x :: x in scores <==> Gain(plays, storyteller, s, x).Some?
    ensures forall x :: x in scores ==> scores[x] == Gain(plays, storyteller, s, x).value
  {
    var others := OthersPlays(plays, storyteller);
    var story := StoryCard(plays, storyteller).value;
    OthersVoteOnTable(plays, storyteller);
    var guesses;
    scores, guesses := TallyVotes(others, plays, story, s);
    var anyGuessed := exists x | x in guesses :: guesses[x];
    var allGuessed := forall x | x in guesses :: guesses[x];
    OthersDistinct(plays, storyteller);
    StoryVerdict(others, story, guesses);
    TableIsGain(plays, storyteller, s, scores, anyGuessed && !allGuessed);
    if anyGuessed && !allGuessed {
      scores := scores[storyteller := s.storyScore];
    }
  }

  /** The tallied table, with the storyteller's entry set when the story score is earned, is the round's gains. */
  lemma TableIsGain(plays: seq<Play>, storyteller: nat, s: Settings, scores: map<nat, int>, earned: bool)
    requires storyteller in PlayersOf(plays)
    requires Tallied(scores, OthersPlays(plays, storyteller), plays, StoryCard(plays, storyteller).value, s)
    requires earned == StoryEarned(OthersPlays(plays, storyteller), StoryCard(plays, storyteller).value)
    ensures var table := if earned then scores[storyteller := s.storyScore] else scores;
            && (forall x :: x in table <==> Gain(plays, storyteller, s, x).Some?)
            && (forall x :: x in table ==> table[x] == Gain(plays, storyteller, s, x).value)
  {
  }

  /**
   * Reading the verdict off the `guesses` table: some entry is true exactly
   * when some voter found the story card, and every entry is true exactly
   * when every voter did (each voter has one entry, as each has one play).
   */
  lemma StoryVerdict(gs: seq<Play>, story: Card, guesses: map<nat, bool>)
    requires DistinctPlayers(gs) && guesses.Keys == PlayersOf(gs) && Tracked(guesses, gs, story)
    ensures (exists x | x in guesses :: guesses[x]) <==> exists j :: 0 <= j < |gs| && Guessed(gs[j], story)
    ensures (forall x | x in guesses :: guesses[x]) <==> forall j :: 0 <= j < |gs| ==> Guessed(gs[j], story)
  {
    forall j | 0 <= j < |gs|
      ensures CorrectBy(gs, story, gs[j].player) == if Guessed(gs[j], story) then 1 else 0
    {
      CorrectByOne(gs, story, j);
    }
    if exists x | x in guesses :: guesses[x] {
      var x :| x in guesses && guesses[x];
      CorrectByPositive(gs, story, x);
    }
    if !forall x | x in guesses :: guesses[x] {
      var x :| x in guesses && !guesses[x];
      var j :| 0 <= j < |gs| && gs[j].player == x;
    }
  }

  /**
   * A four-player round: player 0 tells the story with card 1; players 1
   * and 3 find it, and player 2 votes for player 3's card 4.
   */
  function FourPlays(): seq<Play> {
    [Play(0, 1, None), Play(1, 2, Some(1)), Play(2, 3, Some(4)), Play(3, 4, Some(1))]
  }

  /** In that round the voters are players 1 to 3, the story card is 1 and card 4 is player 3's. */
  lemma FourPlaysTable()
    ensures OthersPlays(FourPlays(), 0) == FourPlays()[1..]
    ensures StoryCard(FourPlays(), 0) == Some(1) && OwnerOf(FourPlays(), 4) == Some(3)
  {
    var plays := FourPlays();
    var a, b, c, d := plays[0], plays[1], plays[2], plays[3];
    assert plays[..3] == [a, b, c] && [a, b, c][..2] == [a, b] && [a, b][..1] == [a] && [a][..0] == [];
    assert OthersPlays([a], 0) == [];
    assert OthersPlays([a, b], 0) == [b];
    assert OthersPlays([a, b, c], 0) == [b, c];
    assert plays[1..] == [b, c, d] && [b, c, d][1..] == [c, d] && [c, d][1..] == [d];
  }

  lemma FourPlaysWellFormed()
    ensures WellFormedRound(FourPlays(), 0)
  {
    var plays := FourPlays();
    assert forall p :: p in plays <==> p == plays[0] || p == plays[1] || p == plays[2] || p == plays[3];
    assert ProvidedCards(plays) == {1, 2, 3, 4};
    assert PlayersOf(plays) == {0, 1, 2, 3};
  }

  /** The votes of that round: who found the story card and whose card fooled whom. */
  lemma FourPlaysVotes()
    ensures var gs := FourPlays()[1..];
            && CorrectBy(gs, 1, 1) == 1 && Fooled(gs, FourPlays(), 1, 1) == 0
            && CorrectBy(gs, 1, 2) == 0 && Fooled(gs, FourPlays(), 1, 2) == 0
            && CorrectBy(gs, 1, 3) == 1 && Fooled(gs, FourPlays(), 1, 3) == 1
  {
    FourPlaysTable();
    var gs := FourPlays()[1..];
    var b, c, d := Play(1, 2, Some(1)), Play(2, 3, Some(4)), Play(3, 4, Some(1));
    assert gs == [b, c, d];
    assert gs[..2] == [b, c] && [b, c][..1] == [b] && [b][..0] == [];
    assert Guessed(b, 1) && !Guessed(c, 1);
    assert CorrectBy([b], 1, 1) == 1 && Fooled([b], FourPlays(), 1, 1) == 0;
    assert CorrectBy([b], 1, 2) == 0 && Fooled([b], FourPlays(), 1, 2) == 0;
    assert !FooledBy(FourPlays(), 1, b, 3);
    assert Fooled([b], FourPlays(), 1, 3) == 0;
    assert CorrectBy([b], 1, 3) == 0;
    assert CorrectBy([b, c], 1, 3) == CorrectBy([b], 1, 3);
    assert Fooled([b, c], FourPlays(), 1, 3) == 1;
  }

  /**
   * Scoring that round, for the storyteller: two of the three voters found
   * the story card, so the storyteller earns the story score.
   */
  lemma FourPlayerStoryteller(s: Settings)
    ensures WellFormedRound(FourPlays(), 0)
    ensures Gain(FourPlays(), 0, s, 0) == Some(s.storyScore)
  {
    FourPlaysTable();
    FourPlaysWellFormed();
    var gs := FourPlays()[1..];
    assert Guessed(gs[0], 1) && !Guessed(gs[1], 1);
    StorytellerGain(FourPlays(), 0, s);
  }

  /**
   * Scoring that round, for the voters: players 1 and 3 earn the guess
   * score, player 3 also the confused-guess score for fooling player 2, and
   * player 2 nothing.
   */
  lemma FourPlayerVoters(s: Settings)
    ensures Gain(FourPlays(), 0, s, 1) == Some(s.guessScore)
    ensures Gain(FourPlays(), 0, s, 2) == None
    ensures Gain(FourPlays(), 0, s, 3) == Some(s.guessScore + s.confusedGuessScore)
  {
    FourPlaysTable();
    FourPlaysVotes();
  }

  /** A three-player round where player 1 votes for their own card 2 and player 2 finds the story card 1. */
  function SelfVotePlays(): seq<Play> {
    [Play(0, 1, None), Play(1, 2, Some(2)), Play(2, 3, Some(1))]
  }

  /** In that round the voters are players 1 and 2, the story card is 1 and card 2 is player 1's. */
  lemma SelfVoteTable()
    ensures OthersPlays(SelfVotePlays(), 0) == SelfVotePlays()[1..]
    ensures StoryCard(SelfVotePlays(), 0) == Some(1) && OwnerOf(SelfVotePlays(), 2) == Some(1)
  {
    var plays := SelfVotePlays();
    var a, b, c := plays[0], plays[1], plays[2];
    assert plays[..2] == [a, b] && [a, b][..1] == [a] && [a][..0] == [];
    assert OthersPlays([a], 0) == [];
    assert OthersPlays([a, b], 0) == [b];
    assert plays[1..] == [b, c] && [b, c][1..] == [c];
  }

  lemma SelfVoteWellFormed()
    ensures WellFormedRound(SelfVotePlays(), 0)
  {
    var plays := SelfVotePlays();
    assert forall p :: p in plays <==> p == plays[0] || p == plays[1] || p == plays[2];
    assert ProvidedCards(plays) == {1, 2, 3};
    assert PlayersOf(plays) == {0, 1, 2};
  }

  /** The votes of that round: player 1 finds nothing and fools one voter, themself. */
  lemma SelfVoteVotes()
    ensures var gs := SelfVotePlays()[1..];
            CorrectBy(gs, 1, 1) == 0 && Fooled(gs, SelfVotePlays(), 1, 1) == 1
  {
    SelfVoteTable();
    var gs := SelfVotePlays()[1..];
    var b, c := Play(1, 2, Some(2)), Play(2, 3, Some(1));
    assert gs == [b, c] && gs[..1] == [b] && [b][..0] == [];
    assert CorrectBy([b], 1, 1) == 0;
    assert CorrectBy(gs, 1, 1) == CorrectBy([b], 1, 1);
    assert Fooled([b], SelfVotePlays(), 1, 1) == 1;
  }

  /**
   * A vote for one's own card counts as fooling: in that well-formed round
   * player 1 is credited the confused-guess score for voting for their own
   * card.
   */
  lemma SelfVoteCounts(s: Settings)
    ensures WellFormedRound(SelfVotePlays(), 0)
    ensures Gain(SelfVotePlays(), 0, s, 1) == Some(s.confusedGuessScore)
  {
    SelfVoteTable();
    SelfVoteWellFormed();
    SelfVoteVotes();
  }
}
