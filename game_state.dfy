/**
 * What a game derives from its players and rounds: the current round, the
 * storyteller, the game status, and the round that `add_round` creates next
 * (numbering and circular turn rotation).
 */
module GameState {
  import opened DixitTypes

  /** Round `i` of the sequence carries number `i`: numbers are 0, 1, 2, ... */
  ghost predicate Contiguous(rounds: seq<Round>) {
    forall i :: 0 <= i < |rounds| ==> rounds[i].number == i
  }

  /** Every round's storyteller is a seated player. */
  ghost predicate TurnsSeated(players: seq<Player>, rounds: seq<Round>) {
    forall i :: 0 <= i < |rounds| ==> rounds[i].turn < |players|
  }

  /** Round `i` is told by the player of order `i mod n`. */
  ghost predicate Rotating(rounds: seq<Round>, n: nat)
    requires n > 0
  {
    forall i :: 0 <= i < |rounds| ==> rounds[i].turn == i % n
  }

  /** The round with the largest number, or None when there is no round. */
  function CurrentRound(rounds: seq<Round>): (r: Option<Round>)
    ensures r.None? <==> rounds == []
    ensures r.Some? ==> r.value in rounds
    ensures r.Some? ==> forall q :: q in rounds ==> q.number <= r.value.number
  {
    if rounds == [] then None
    else
      var last := rounds[|rounds| - 1];
      match CurrentRound(rounds[..|rounds| - 1])
      case None => Some(last)
      case Some(c) => if last.number <= c.number then Some(c) else Some(last)
  }

  predicate AllComplete(rounds: seq<Round>) {
    forall i :: 0 <= i < |rounds| ==> rounds[i].status == RoundStatus.Complete
  }

  /**
   * The game status: Abandoned without players; Finished when there is no
   * round or every round is complete; New while the latest round is round 0
   * and has not started; Ongoing otherwise.
   */
  function Status(players: seq<Player>, rounds: seq<Round>): (r: GameStatus)
    ensures r == GameStatus.Abandoned <==> |players| == 0
    ensures r == GameStatus.Finished <==> |players| > 0 && AllComplete(rounds)
  {
    if |players| == 0 then GameStatus.Abandoned
    else if CurrentRound(rounds).None? || AllComplete(rounds) then GameStatus.Finished
    else if CurrentRound(rounds).value.number == 0 && CurrentRound(rounds).value.status == RoundStatus.New then GameStatus.New
    else GameStatus.Ongoing
  }

  /**
   * The storyteller of the current round; None when there is no round. With
   * orders equal to positions, it is the player whose order is the current
   * round's turn.
   */
  function Storyteller(players: seq<Player>, rounds: seq<Round>): (r: Option<Player>)
    requires TurnsSeated(players, rounds)
    ensures r.None? <==> rounds == []
    ensures r.Some? ==> r.value in players
    ensures r.Some? && (forall i :: 0 <= i < |players| ==> players[i].order == i) ==>
              r.value.order == CurrentRound(rounds).value.turn
  {
    match CurrentRound(rounds)
    case None => None
    case Some(c) => Some(players[c.turn])
  }

  /**
   * The round `add_round` creates for a game with `nplayers` players: round 0
   * told by player 0 when there is no round yet, otherwise the next number,
   * told by the player after the current storyteller, wrapping around.
   */
  function NextRound(rounds: seq<Round>, nplayers: nat): (r: Round)
    requires nplayers > 0
    ensures r.turn < nplayers
    ensures r.status == RoundStatus.New && r.plays == []
  {
    match CurrentRound(rounds)
    case None => Round(0, 0, RoundStatus.New, [])
    case Some(c) => Round(c.number + 1, (c.turn + 1) % nplayers, RoundStatus.New, [])
  }

  /** The rounds of a game with `n` players after `k` rounds were added, starting from none. */
  function Schedule(k: nat, n: nat): (rounds: seq<Round>)
    requires n > 0
    ensures |rounds| == k
  {
    if k == 0 then [] else
      var before := Schedule(k - 1, n);
      before + [NextRound(before, n)]
  }

  lemma {:induction false} CurrentRoundIsLast(rounds: seq<Round>)
    requires Contiguous(rounds) && rounds != []
    ensures CurrentRound(rounds) == Some(rounds[|rounds| - 1])
  {
    var c := CurrentRound(rounds).value;
    var j :| 0 <= j < |rounds| && rounds[j] == c;
    assert rounds[|rounds| - 1] in rounds;
    assert c.number == j == |rounds| - 1;
  }

  /** The next round is numbered right after the last one: numbering stays contiguous. */
  lemma {:induction false} NextRoundContinues(rounds: seq<Round>, n: nat)
    requires n > 0 && Contiguous(rounds)
    ensures NextRound(rounds, n).number == |rounds|
    ensures Contiguous(rounds + [NextRound(rounds, n)])
  {
    if rounds != [] {
      CurrentRoundIsLast(rounds);
    }
    var next := rounds + [NextRound(rounds, n)];
    forall i | 0 <= i < |next| ensures next[i].number == i {
      if i < |rounds| { assert next[i] == rounds[i]; }
    }
  }

  lemma {:induction false} MulAtLeast(d: int, n: int)
    requires d >= 1 && n > 0
    ensures d * n >= n
    decreases d
  {
    if d > 1 {
      MulAtLeast(d - 1, n);
      assert d * n == (d - 1) * n + n;
    }
  }

  /** The remainder is determined by any quotient/remainder decomposition. */
  lemma ModUnique(a: int, n: int, q: int, r: int)
    requires n > 0 && 0 <= r < n && a == q * n + r
    ensures a % n == r
  {
    var d := q - a / n;
    assert d * n == a % n - r;
    if d >= 1 { MulAtLeast(d, n); }
    else if d <= -1 { MulAtLeast(-d, n); }
  }

  /** Stepping to the next seat and then wrapping is the same as wrapping the next index. */
  lemma {:induction false} ModSuccessor(i: nat, n: nat)
    requires n > 0
    ensures (i % n + 1) % n == (i + 1) % n
  {
    var q, r := i / n, i % n;
    if r + 1 < n {
      ModUnique(i + 1, n, q, r + 1);
      ModUnique(r + 1, n, 0, r + 1);
    } else {
      ModUnique(i + 1, n, q + 1, 0);
      ModUnique(r + 1, n, 1, 0);
    }
  }

  /** With a fixed player count, adding a round keeps "round i is told by player i mod n". */
  lemma {:induction false} RotationStep(rounds: seq<Round>, n: nat)
    requires n > 0 && Contiguous(rounds) && Rotating(rounds, n)
    ensures NextRound(rounds, n).turn == |rounds| % n
    ensures Rotating(rounds + [NextRound(rounds, n)], n)
  {
    var k := |rounds|;
    if k > 0 {
      CurrentRoundIsLast(rounds);
      ModSuccessor(k - 1, n);
    }
    var next := rounds + [NextRound(rounds, n)];
    forall i | 0 <= i < |next| ensures next[i].turn == i % n {
      if i < k { assert next[i] == rounds[i]; }
    }
  }

  /**
   * Turn rotation over any number of rounds: after `k` rounds in a game of
   * `n` players, round `i` has number `i` and is told by player `i mod n`.
   */
  lemma {:induction false} ScheduleRotates(k: nat, n: nat)
    requires n > 0
    ensures Contiguous(Schedule(k, n)) && Rotating(Schedule(k, n), n)
    ensures forall i :: 0 <= i < k ==> Schedule(k, n)[i] == Round(i, i % n, RoundStatus.New, [])
  {
    if k > 0 {
      var before := Schedule(k - 1, n);
      ScheduleRotates(k - 1, n);
      NextRoundContinues(before, n);
      RotationStep(before, n);
      var rounds := Schedule(k, n);
      forall i | 0 <= i < k ensures rounds[i] == Round(i, i % n, RoundStatus.New, []) {
        if i < k - 1 { assert rounds[i] == before[i]; }
      }
    }
  }

  /**
   * In a game with contiguous round numbers, the status is New exactly when
   * there are players and a single round, which has not started.
   */
  lemma {:induction false} StatusNewExactly(players: seq<Player>, rounds: seq<Round>)
    requires Contiguous(rounds)
    ensures Status(players, rounds) == GameStatus.New <==>
            |players| > 0 && |rounds| == 1 && rounds[0].status == RoundStatus.New
  {
    if rounds != [] {
      CurrentRoundIsLast(rounds);
    }
  }

  /** When turns rotate, the storyteller of the current round is player `(k - 1) mod n` of `k` rounds. */
  lemma {:induction false} StorytellerRotates(players: seq<Player>, rounds: seq<Round>)
    requires |players| > 0 && Contiguous(rounds) && TurnsSeated(players, rounds)
    requires Rotating(rounds, |players|) && rounds != []
    ensures Storyteller(players, rounds) == Some(players[(|rounds| - 1) % |players|])
  {
    CurrentRoundIsLast(rounds);
  }
}
