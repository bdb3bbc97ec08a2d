/** The training glue around the games: reward shaping, the choice of the opponent and of
    the seats, the win tally, the epsilon adjustment after a game and the loop over the
    session's games with its checkpoint counter. */
module Training {
  import opened Wrappers
  import opened Othello
  import opened Players
  import opened Learning

  /** The winner text of a drawn game. */
  const DrawName: string := "引き分け"

  /** The corners EvaluateBoard looks at, in its order. */
  const Corners: seq<Pos> := [Pos(0, 0), Pos(0, 5), Pos(5, 0), Pos(5, 5)]

  // ---------------------------------------------------------------- reward

  /** What one corner adds for player. */
  function CornerValue(cell: int, player: int, cornerWeight: real): real
  {
    if cell == player then cornerWeight else if cell == -player then -cornerWeight else 0.0
  }

  function CornerTerm(g: Grid, player: int, cornerWeight: real, cs: seq<Pos>): real
    requires IsGrid(g) && AllInBoard(cs)
  {
    if cs == [] then 0.0
    else
      var p := cs[|cs| - 1];
      CornerTerm(g, player, cornerWeight, cs[..|cs| - 1]) + CornerValue(g[p.row][p.col], player, cornerWeight)
  }

  /** The corner term of one colour is the negation of the other's. */
  lemma {:induction false} CornerTermAntisymmetric(g: Grid, player: int, cornerWeight: real, cs: seq<Pos>)
    requires IsGrid(g) && AllInBoard(cs) && player != 0
    ensures CornerTerm(g, -player, cornerWeight, cs) == -CornerTerm(g, player, cornerWeight, cs)
  {
    if cs != [] {
      var init := cs[..|cs| - 1];
      assert AllInBoard(init);
      CornerTermAntisymmetric(g, player, cornerWeight, init);
    }
  }

  /** A value times a weight of the configuration. */
  function Scaled(x: real, weight: real): real
  {
    x * weight
  }

  /** The legal moves of player minus those of the opponent. */
  function Mobility(g: Grid, player: int): int
    requires IsGrid(g)
  {
    |ValidMoves(g, player)| - |ValidMoves(g, -player)|
  }

  /** EvaluateBoard as a value: corners plus weighted mobility. */
  function Evaluation(g: Grid, player: int, cornerWeight: real, legalMoveWeight: real): real
    requires IsGrid(g)
  {
    CornerTerm(g, player, cornerWeight, Corners) + Scaled(Mobility(g, player) as real, legalMoveWeight)
  }

  /** What is good for one colour is as bad for the other. */
  lemma EvaluationAntisymmetric(g: Grid, player: int, cornerWeight: real, legalMoveWeight: real)
    requires IsGrid(g) && player != 0
    ensures Evaluation(g, -player, cornerWeight, legalMoveWeight) == -Evaluation(g, player, cornerWeight, legalMoveWeight)
  {
    CornerTermAntisymmetric(g, player, cornerWeight, Corners);
    var m := Mobility(g, player);
    assert Mobility(g, -player) == -m;
    assert Scaled(-m as real, legalMoveWeight) == -Scaled(m as real, legalMoveWeight);
  }

  /** The corner loop and the two move counts of EvaluateBoard. */
  method EvaluateBoard(board: Board, player: int, cornerWeight: real, legalMoveWeight: real, ghost g: Grid)
    returns (score: real)
    requires board.Valid() && g == board.View()
    ensures score == Evaluation(g, player, cornerWeight, legalMoveWeight)
  {
    score := 0.0;
    for k := 0 to |Corners|
      invariant score == CornerTerm(g, player, cornerWeight, Corners[..k])
    {
      assert Corners[..k + 1][..k] == Corners[..k];
      var cell := board.GetCell(Corners[k].row, Corners[k].col);
      if cell == player {
        score := score + cornerWeight;
      } else if cell == -player {
        score := score - cornerWeight;
      }
    }
    assert Corners[..|Corners|] == Corners;
    var myMoves := board.GetValidMoves(player);
    var oppMoves := board.GetValidMoves(-player);
    assert |myMoves| - |oppMoves| == Mobility(g, player);
    score := score + Scaled((|myMoves| - |oppMoves|) as real, legalMoveWeight);
  }

  /** CalculateReward as a value. */
  function Reward(g: Grid, player: int, scale: real, cornerWeight: real, legalMoveWeight: real): real
    requires IsGrid(g)
  {
    if GameOver(g) then
      var winner := Winner(g);
      if winner == player then 100.0 else if winner == -player then -100.0 else 0.0
    else
      Scaled(Evaluation(g, player, cornerWeight, legalMoveWeight) - Evaluation(g, -player, cornerWeight, legalMoveWeight), scale)
  }

  /** At the end: +100 with more stones, -100 with fewer, 0 for a draw; before it, twice the
      scaled evaluation, so the reward of one colour is the negation of the other's. */
  lemma RewardSpec(g: Grid, player: int, scale: real, cornerWeight: real, legalMoveWeight: real)
    requires IsGrid(g) && CellsInRange(g) && (player == 1 || player == -1)
    ensures var reward := Reward(g, player, scale, cornerWeight, legalMoveWeight);
      (GameOver(g) ==>
        (reward == 100.0 <==> Count(g, player) > Count(g, -player)) &&
        (reward == -100.0 <==> Count(g, player) < Count(g, -player)) &&
        (reward == 0.0 <==> Count(g, player) == Count(g, -player))) &&
      (!GameOver(g) ==> reward == 2.0 * Evaluation(g, player, cornerWeight, legalMoveWeight) * scale) &&
      Reward(g, -player, scale, cornerWeight, legalMoveWeight) == -reward
  {
    ScoreIsStoneDifference(g);
    EvaluationAntisymmetric(g, player, cornerWeight, legalMoveWeight);
    EvaluationAntisymmetric(g, -player, cornerWeight, legalMoveWeight);
    assert -(-player) == player;
  }

  /** The two cases of the reward, as CalculateReward takes them. */
  lemma RewardCases(g: Grid, player: int, scale: real, cornerWeight: real, legalMoveWeight: real)
    requires IsGrid(g)
    ensures GameOver(g) ==>
      Reward(g, player, scale, cornerWeight, legalMoveWeight) ==
      (if Winner(g) == player then 100.0 else if Winner(g) == -player then -100.0 else 0.0)
    ensures !GameOver(g) ==>
      Reward(g, player, scale, cornerWeight, legalMoveWeight) ==
      Scaled(Evaluation(g, player, cornerWeight, legalMoveWeight) - Evaluation(g, -player, cornerWeight, legalMoveWeight), scale)
  {
  }

  method CalculateReward(board: Board, player: int, scale: real, cornerWeight: real, legalMoveWeight: real,
                         ghost g: Grid)
    returns (reward: real)
    requires board.Valid() && g == board.View()
    ensures reward == Reward(g, player, scale, cornerWeight, legalMoveWeight)
  {
    RewardCases(g, player, scale, cornerWeight, legalMoveWeight);
    var over := board.IsGameOver();
    if over {
      var winner := board.GetWinner();
      if winner == player {
        return 100.0;
      }
      if winner == -player {
        return -100.0;
      }
      return 0.0;
    }
    reward := ShapedReward(board, player, scale, cornerWeight, legalMoveWeight, g);
  }

  /** The reward before the end: the scaled difference of the two evaluations. */
  method ShapedReward(board: Board, player: int, scale: real, cornerWeight: real, legalMoveWeight: real,
                      ghost g: Grid)
    returns (reward: real)
    requires board.Valid() && g == board.View()
    ensures reward == Scaled(Evaluation(g, player, cornerWeight, legalMoveWeight) - Evaluation(g, -player, cornerWeight, legalMoveWeight), scale)
  {
    var mine := EvaluateBoard(board, player, cornerWeight, legalMoveWeight, g);
    var theirs := EvaluateBoard(board, -player, cornerWeight, legalMoveWeight, g);
    reward := Scaled(mine - theirs, scale);
  }

  // ---------------------------------------------------------------- opponent and seats

  /** The opponent of game i and the learning rate the game's update uses. */
  datatype Opponent = Opponent(kind: PlayerKind, learningRate: real)

  /** The first randomOpponentGames games are against RandomAI; after that the uniform
      draw u falls into [0, simple), [simple, simple + variant) or the rest, and only
      games against SimpleAI scale the learning rate. */
  function ChooseOpponent(i: nat, randomOpponentGames: int, u: real, simpleRatio: real, variantRatio: real,
                          baseRate: real, multiplier: real): (o: Opponent)
    ensures o.kind == Simple <==> i >= randomOpponentGames && u < simpleRatio
    ensures o.kind == Variant <==> i >= randomOpponentGames && simpleRatio <= u < simpleRatio + variantRatio
    ensures o.kind == Random <==>
      i < randomOpponentGames || (u >= simpleRatio && u >= simpleRatio + variantRatio)
    ensures o.kind != Learner && o.kind != Human
    ensures o.learningRate == if o.kind == Simple then baseRate * multiplier else baseRate
  {
    if i < randomOpponentGames then Opponent(Random, baseRate)
    else if u < simpleRatio then Opponent(Simple, baseRate * multiplier)
    else if u < simpleRatio + variantRatio then Opponent(Variant, baseRate)
    else Opponent(Random, baseRate)
  }

  /** The colour the agent plays after the draw `Next(2)`: black on 0. */
  function AgentSeat(coin: nat): (seat: int)
    requires coin < 2
    ensures seat == 1 || seat == -1
  {
    if coin == 0 then 1 else -1
  }

  /** (black, white) for the agent and its opponent after the draw. */
  function Seating(agent: PlayerKind, opponent: PlayerKind, coin: nat): (seats: (PlayerKind, PlayerKind))
    requires coin < 2
    ensures (if AgentSeat(coin) == 1 then seats.0 else seats.1) == agent
    ensures (if AgentSeat(coin) == 1 then seats.1 else seats.0) == opponent
  {
    if coin == 0 then (agent, opponent) else (opponent, agent)
  }

  // ---------------------------------------------------------------- win tally

  /** The name the tally compares: the winning seat's player, or the draw text. */
  function WinnerName(winner: int, black: PlayerKind, white: PlayerKind): string
  {
    if winner == 1 then Name(black) else if winner == -1 then Name(white) else DrawName
  }

  /** The player on the winning seat, none for a draw. */
  function WinningSeat(winner: int, black: PlayerKind, white: PlayerKind): Option<PlayerKind>
  {
    if winner == 1 then Some(black) else if winner == -1 then Some(white) else None
  }

  /** The tally after one game: (Wins, OpponentWins). Neither counter goes down, at most
      one goes up, by one, and the draw text changes neither. */
  function Tally(name: string, wins: nat, opponentWins: nat): (t: (nat, nat))
    ensures wins <= t.0 && opponentWins <= t.1 && t.0 + t.1 <= wins + opponentWins + 1
    ensures name == DrawName ==> t == (wins, opponentWins)
  {
    if name == Name(Learner) then (wins + 1, opponentWins)
    else if name != DrawName then (wins, opponentWins + 1)
    else (wins, opponentWins)
  }

  lemma DrawNameIsNoName(k: PlayerKind)
    ensures Name(k) != DrawName
  {
    assert |DrawName| == 4;
  }

  /** Wins goes up by one exactly when the agent sat on the winning seat, OpponentWins by
      one exactly when the other player did, and a draw changes neither. */
  lemma TallySpec(winner: int, black: PlayerKind, white: PlayerKind, wins: nat, opponentWins: nat)
    ensures var t := Tally(WinnerName(winner, black, white), wins, opponentWins);
      var seat := WinningSeat(winner, black, white);
      (t == (wins + 1, opponentWins) <==> seat == Some(Learner)) &&
      (t == (wins, opponentWins + 1) <==> seat.Some? && seat.value != Learner) &&
      (t == (wins, opponentWins) <==> seat == None)
  {
    NameInjective(black, Learner);
    NameInjective(white, Learner);
    DrawNameIsNoName(Learner);
    DrawNameIsNoName(black);
    DrawNameIsNoName(white);
  }

  // ---------------------------------------------------------------- epsilon after a game

  /** The adjustment as the source writes it: decay when white won, otherwise raise by
      1 / decayRate and clamp to the initial value. */
  function AdjustedEpsilonAsWritten(epsilon: real, winner: int, decayRate: real, initialEpsilon: real): (e: real)
    requires decayRate != 0.0
    ensures winner == -1 ==> e == Decayed(epsilon, decayRate) && e >= EpsilonFloor
    ensures winner != -1 ==> e <= initialEpsilon && (e == initialEpsilon || e == Decayed(epsilon, 1.0 / decayRate))
  {
    DecayedSpec(epsilon, decayRate);
    if winner == -1 then Decayed(epsilon, decayRate)
    else
      var raised := Decayed(epsilon, 1.0 / decayRate);
      if raised > initialEpsilon then initialEpsilon else raised
  }

  /** The adjustment keyed on the agent's own seat: decay after a win of the agent,
      otherwise raise and clamp. */
  function AdjustedEpsilon(epsilon: real, winner: int, agentSeat: int, decayRate: real, initialEpsilon: real): real
    requires decayRate != 0.0
  {
    if winner == agentSeat then Decayed(epsilon, decayRate)
    else
      var raised := Decayed(epsilon, 1.0 / decayRate);
      if raised > initialEpsilon then initialEpsilon else raised
  }

  /** After a win of the agent epsilon decays (no further than the floor, and not upward
      for a rate in (0, 1]); after a loss or a draw it never exceeds the initial value. */
  lemma AdjustedEpsilonSpec(epsilon: real, winner: int, agentSeat: int, decayRate: real, initialEpsilon: real)
    requires decayRate != 0.0
    ensures var e := AdjustedEpsilon(epsilon, winner, agentSeat, decayRate, initialEpsilon);
      (winner == agentSeat ==>
        e == Decayed(epsilon, decayRate) && e >= EpsilonFloor &&
        (epsilon >= EpsilonFloor && 0.0 < decayRate <= 1.0 ==> e <= epsilon)) &&
      (winner != agentSeat ==>
        e <= initialEpsilon &&
        (e == initialEpsilon || e == Decayed(epsilon, 1.0 / decayRate)))
  {
    DecayedSpec(epsilon, decayRate);
  }

  /** With the agent on black, a black win raises epsilon back to its initial value
      instead of decaying it. */
  lemma AdjustedEpsilonAsWrittenRaisesAfterWin()
    ensures AgentSeat(0) == 1
    ensures AdjustedEpsilonAsWritten(0.5, AgentSeat(0), 0.5, 1.0) == 1.0
    ensures AdjustedEpsilon(0.5, AgentSeat(0), AgentSeat(0), 0.5, 1.0) == 0.25
  {
    assert Decayed(0.5, 1.0 / 0.5) == 1.0;
    assert Decayed(0.5, 0.5) == 0.25;
  }

  /** The adjustment on the agent's field, through UpdateEpsilon and SetEpsilon. */
  method AdjustEpsilon(ai: ReinforcementLearningAI, winner: int, agentSeat: int, decayRate: real, initialEpsilon: real)
    requires decayRate != 0.0
    modifies ai
    ensures ai.epsilon == AdjustedEpsilon(old(ai.epsilon), winner, agentSeat, decayRate, initialEpsilon)
    ensures ai.replayBuffer == old(ai.replayBuffer)
  {
    if winner == agentSeat {
      ai.UpdateEpsilon(decayRate);
    } else {
      ai.UpdateEpsilon(1.0 / decayRate);
      if ai.epsilon > initialEpsilon {
        ai.SetEpsilon(initialEpsilon);
      }
    }
  }

  // ---------------------------------------------------------------- the session loop

  /** How game i of the loop ends: played to the end with these seats, or by an exception. */
  datatype GameOutcome = Finished(winner: int, black: PlayerKind, white: PlayerKind) | Failed

  /** CompletedGames after the check before game i. */
  function Checkpoint(completed: nat, i: nat, displayEnabled: bool, saveInterval: nat): (c: nat)
    requires saveInterval > 0
    ensures c == completed || (!displayEnabled && c == i + 1 && c % saveInterval == 0)
    ensures displayEnabled ==> c == completed
  {
    if !displayEnabled && (i + 1) % saveInterval == 0 then i + 1 else completed
  }

  /** CompletedGames after the checks of the games start .. i-1. */
  function CheckpointAfter(start: nat, i: nat, displayEnabled: bool, saveInterval: nat): nat
    requires saveInterval > 0
  {
    if i <= start then start
    else Checkpoint(CheckpointAfter(start, i - 1, displayEnabled, saveInterval), i - 1, displayEnabled, saveInterval)
  }

  lemma CheckpointAfterStep(start: nat, i: nat, displayEnabled: bool, saveInterval: nat)
    requires saveInterval > 0 && start <= i
    ensures CheckpointAfter(start, i + 1, displayEnabled, saveInterval) ==
      Checkpoint(CheckpointAfter(start, i, displayEnabled, saveInterval), i, displayEnabled, saveInterval)
  {
  }

  /** The counter is the starting value or the last multiple of saveInterval reached, and it
      can run one game ahead of the games played. */
  lemma {:induction false} CheckpointAfterSpec(start: nat, i: nat, displayEnabled: bool, saveInterval: nat)
    requires saveInterval > 0
    ensures var c := CheckpointAfter(start, i, displayEnabled, saveInterval);
      c == start || (!displayEnabled && start < c <= i && c % saveInterval == 0)
  {
    if i > start {
      CheckpointAfterSpec(start, i - 1, displayEnabled, saveInterval);
    }
  }

  /** The value the exception handler stores when game j fails: the counter of the last
      checkpoint plus one. */
  function HandlerAsWritten(start: nat, j: nat, displayEnabled: bool, saveInterval: nat): (h: nat)
    requires saveInterval > 0
    ensures h == start + 1 || (!displayEnabled && start + 1 < h <= j + 2 && (h - 1) % saveInterval == 0)
  {
    CheckpointAfterSpec(start, j + 1, displayEnabled, saveInterval);
    CheckpointAfter(start, j + 1, displayEnabled, saveInterval) + 1
  }

  /** With saveInterval 4 from game 0: a failure in game 6 resumes at game 5, which was
      played and tallied already; a failure in game 3 resumes at game 5, so game 4 is
      never played. */
  lemma HandlerAsWrittenMisplaces()
    ensures HandlerAsWritten(0, 6, false, 4) == 5
    ensures HandlerAsWritten(0, 3, false, 4) == 5
  {
    assert CheckpointAfter(0, 3, false, 4) == 0;
    assert CheckpointAfter(0, 4, false, 4) == 4;
    assert CheckpointAfter(0, 5, false, 4) == 4;
    assert CheckpointAfter(0, 6, false, 4) == 4;
    assert CheckpointAfter(0, 7, false, 4) == 4;
  }

  /** The first game of start .. total-1 that fails. */
  function FirstFailure(outcome: nat -> GameOutcome, start: nat, total: nat): (f: Option<nat>)
    ensures f.Some? ==> start <= f.value < total && outcome(f.value).Failed?
    decreases total - start
  {
    if start >= total then None
    else if outcome(start).Failed? then Some(start)
    else FirstFailure(outcome, start + 1, total)
  }

  /** No game before the first failure fails, and none at all without one. */
  lemma {:induction false} FirstFailureSpec(outcome: nat -> GameOutcome, start: nat, total: nat)
    ensures var f := FirstFailure(outcome, start, total);
      forall i :: start <= i < total && (f.None? || i < f.value) ==> outcome(i).Finished?
    decreases total - start
  {
    if start < total && outcome(start).Finished? {
      FirstFailureSpec(outcome, start + 1, total);
    }
  }

  /** (Wins, OpponentWins) after tallying the finished games start .. end-1. */
  function TallyRange(outcome: nat -> GameOutcome, start: nat, end: nat, wins: nat, opponentWins: nat): (nat, nat)
  {
    if end <= start then (wins, opponentWins)
    else
      var t := TallyRange(outcome, start, end - 1, wins, opponentWins);
      match outcome(end - 1)
      case Failed => t
      case Finished(w, b, wh) => Tally(WinnerName(w, b, wh), t.0, t.1)
  }

  lemma TallyRangeStep(outcome: nat -> GameOutcome, start: nat, i: nat, wins: nat, opponentWins: nat)
    requires start <= i && outcome(i).Finished?
    ensures TallyRange(outcome, start, i + 1, wins, opponentWins) ==
      var t := TallyRange(outcome, start, i, wins, opponentWins);
      Tally(WinnerName(outcome(i).winner, outcome(i).black, outcome(i).white), t.0, t.1)
  {
  }

  /** Every game raises exactly one of the counters by one, or neither on a draw. */
  lemma {:induction false} TallyRangeBound(outcome: nat -> GameOutcome, start: nat, end: nat, wins: nat, opponentWins: nat)
    ensures var t := TallyRange(outcome, start, end, wins, opponentWins);
      wins <= t.0 && opponentWins <= t.1 &&
      t.0 + t.1 <= wins + opponentWins + (if end <= start then 0 else end - start)
  {
    if end > start {
      TallyRangeBound(outcome, start, end - 1, wins, opponentWins);
      var t := TallyRange(outcome, start, end - 1, wins, opponentWins);
      match outcome(end - 1)
      case Failed =>
      case Finished(w, b, wh) => TallySpec(w, b, wh, t.0, t.1);
    }
  }

  class TrainingSession {
    var completedGames: nat
    const totalGames: nat
    var wins: nat
    var opponentWins: nat

    /** A session as loaded: the counters are parameters. */
    constructor (completedGames: nat, totalGames: nat, wins: nat, opponentWins: nat)
      ensures this.completedGames == completedGames && this.totalGames == totalGames
      ensures this.wins == wins && this.opponentWins == opponentWins
    {
      this.completedGames := completedGames;
      this.totalGames := totalGames;
      this.wins := wins;
      this.opponentWins := opponentWins;
    }

    /** The games CompletedGames .. TotalGames-1: the checkpoint before each game, the tally
        after it, and on the first failure the handler, which records that the games up to
        and including the failed one are done. */
    method RunGames(displayEnabled: bool, saveInterval: nat, outcome: nat -> GameOutcome)
      returns (failed: Option<nat>)
      requires saveInterval > 0
      modifies this
      ensures failed == FirstFailure(outcome, old(completedGames), totalGames)
      ensures (wins, opponentWins) == TallyRange(outcome, old(completedGames),
        if failed.Some? then failed.value else totalGames, old(wins), old(opponentWins))
      ensures failed.Some? ==> completedGames == failed.value + 1
      ensures failed.None? ==> completedGames == CheckpointAfter(old(completedGames), totalGames, displayEnabled, saveInterval)
    {
      ghost var start, wins0, opponentWins0 := completedGames, wins, opponentWins;
      var i := completedGames;
      while i < totalGames
        invariant start <= i && (start <= totalGames ==> i <= totalGames) && (start > totalGames ==> i == start)
        invariant FirstFailure(outcome, start, totalGames) == FirstFailure(outcome, i, totalGames)
        invariant completedGames == CheckpointAfter(start, i, displayEnabled, saveInterval)
        invariant (wins, opponentWins) == TallyRange(outcome, start, i, wins0, opponentWins0)
        decreases totalGames - i
      {
        CheckpointAfterStep(start, i, displayEnabled, saveInterval);
        ghost var checked := Checkpoint(completedGames, i, displayEnabled, saveInterval);
        if !displayEnabled && (i + 1) % saveInterval == 0 {
          completedGames := i + 1;
        }
        assert completedGames == checked;
        match outcome(i) {
          case Failed =>
            completedGames := i + 1;
            return Some(i);
          case Finished(winner, black, white) =>
            TallyRangeStep(outcome, start, i, wins0, opponentWins0);
            var t := Tally(WinnerName(winner, black, white), wins, opponentWins);
            wins, opponentWins := t.0, t.1;
        }
        i := i + 1;
      }
      return None;
    }
  }
}
