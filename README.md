# 6x6 Othello with a tabular Q-learning agent: a verified model

This project models the core of an Othello trainer for a 6x6 board. It covers:

- the board and its rules (legal moves, flipping, game over, score and winner);
- the turn manager, which asks the player on move for a decision and applies it;
- the Q-learning agent: an epsilon-greedy choice over a table of state values,
  an experience-replay buffer, and averaged temporal-difference batch updates;
- the value store, a cache in front of a durable table;
- the scripted opponents: a positional heuristic, its randomised variant, a uniform
  random player, and the console human player;
- the training loop: picking the opponent, assigning seats, tallying wins, adjusting
  epsilon after each game, and checkpointing the session.

Every class whose fields the program updates is a Dafny `class` with the same state fields,
without the display flag, the times and the player names.
Each method is proved against a pure specification function, and the properties the
program relies on are lemmas about those functions:

- `Othello.Board` keeps its 6x6 `array2<int>`, proved against the grid model
  `seq<seq<int>>`;
- `Games.GameManager` keeps the board, the two seats, the player to move and the
  game-over flag, proved against the turn function `Games.Turn`;
- `Learning.ReinforcementLearningAI` keeps epsilon and the replay buffer;
- `ValueStore.QValueRepository` keeps the cache and the durable table.

Cells hold 0 (empty), 1 (black) or -1 (white). A move is a `Pos(row, col)`, and the pass
sentinel `(-1, -1)` is kept as `Othello.Pass`.

| module | source |
|---|---|
| `Othello` (board.dfy) | Board.cs |
| `Games` (games.dfy) | GameManager.cs |
| `Learning` (learning.dfy) | ReinforcementLearningAI.cs |
| `ValueStore` (value_store.dfy) | QValueRepository.cs |
| `Heuristic` (heuristic.dfy) | SimpleAI.cs, SimpleAIVariant.cs |
| `RandomPlayer` (random_player.dfy) | RandomAI.cs |
| `Human` (human.dfy) | HumanPlayer.cs |
| `Training` (training.dfy) | Program.cs (training loop, reward, epsilon) |
| `Players`, `Experience`, `Text`, `Wrappers` | IAI.cs names, the transition tuple, `ToString`/`string.Join`, Option |

Where the program draws a random number, the model takes the draw as a parameter:

- `next: nat -> nat` with `next(n) < n` stands for `Random.Next(n)`;
- `u: real` stands for `NextDouble()`;
- `draw(i, n)` is the i-th index draw of the batch sampler.

Every statement then holds for every possible sequence of draws.

## Model

| member | source | states |
|---|---|---|
| Othello.Board.constructor | Board.cs:30-34 | a new board is the standard start: the four centre stones (2,2)=-1, (2,3)=1, (3,2)=1, (3,3)=-1, every other cell empty |
| Othello.InitialScore | Board.cs:61-68 | the starting position is level: score 0 and winner 0 |
| Othello.InitialNotOver | Board.cs:61-68 | the starting position is not game over |
| Othello.InitialInRange | Board.cs:61-68 | every cell of the starting position is -1, 0 or 1 |
| Othello.Board.Copy | Board.cs:39-45 | the copy has its own fresh array holding exactly the other board's cells |
| Othello.Board.FromArray | Board.cs:50-56 | the board has a fresh array whose cells equal the given array's first 6x6 cells |
| Othello.CopyCells | Board.cs:52-55 | the copied array is fresh, 6x6, and cell for cell equal to the source |
| Othello.Board.GetBoardCopy | Board.cs:82-87 | the returned array is fresh and equal to the board, so writing to it cannot affect the board |
| Othello.Board.GetCell | Board.cs:162-165 | the value read is the model cell at (row, col) |
| Othello.Board.IsValidMove | Board.cs:92-100 | true exactly when the cell is on the board, empty, and some direction flanks a run of opponent stones |
| Othello.Board.PlaceStone | Board.cs:105-117 | returns true exactly for legal moves; then the board becomes the placed position, otherwise it does not change |
| Othello.PlaceEffect | Board.cs:110-116 | after a placement, each cell is the placed stone, or player if it lay in a flanked run, or unchanged; every flipped cell held an opponent stone and is not the placed cell |
| Othello.PlaceKeepsRange | Board.cs:110-116 | a legal placement keeps every cell in {-1, 0, 1} |
| Othello.PlaceFillsOneCell | Board.cs:110-116 | a legal placement fills exactly the chosen empty cell, so the set of empty cells shrinks by one |
| Othello.ValidMoveByStone | Board.cs:92-100 | on a board of stones only 1 or -1 can have a legal move (0 cannot flank) |
| Othello.Board.FlipStonesInDirection | Board.cs:174-200 | reports whether the ray from (row,col) holds a non-empty opponent run closed by player's stone, and flips exactly that run only when asked to |
| Othello.Board.WalkRun | Board.cs:176-187 | the walk collects exactly the opponent run along the ray and stops at the first cell that is off the board or not the opponent's |
| Othello.Board.CanFlip | Board.cs:202-205 | the dry run tells whether the direction flanks, and leaves the board unchanged |
| Othello.Board.FlipStones | Board.cs:207-210 | flips the flanked run in that direction, taking the player from the cell at (row,col) |
| Othello.Board.FlipDirection | Board.cs:111-115 | one pass of the direction loop takes the board from the flips of the first i directions to the flips of the first i + 1: it flips that direction's run when the direction flanks and otherwise leaves the board |
| Othello.Board.FlipAll | Board.cs:111-115 | applying the eight directions in order yields the sequential flip of all eight |
| Othello.Board.SetCellAt | Board.cs:110 | writes one cell and nothing else |
| Othello.Board.SetCellsAt | Board.cs:193-196 | writes the given cells and nothing else |
| Othello.FlippedIsOpponent | Board.cs:189-198 | a stone turned by any of the eight directions was an opponent stone on the board, not the placed cell |
| Othello.FlipUpToAt | Board.cs:111-115 | after the first n directions, a cell equals player exactly when one of those n runs covered it |
| Othello.FlipInDirectionAt | Board.cs:189-198 | one direction's flip changes exactly the cells of its run, and only when the run is flanked |
| Othello.Board.GetValidMoves | Board.cs:122-130 | the returned list is the row-major list of legal moves for player |
| Othello.ValidMovesExact | Board.cs:122-130 | a position is in the list if and only if it is a legal move, and the list is in row-major order without repeats |
| Othello.CellsExact | Board.cs:124-129 | the nested row/column scan visits exactly the cells accepted by the test, in row-major order |
| Othello.ValidMoveListed | Board.cs:122-130 | every legal move appears in the move list |
| Othello.NoMoves | Board.cs:122-130 | the move list is empty if and only if no cell is a legal move |
| Othello.Board.IsGameOver | Board.cs:135-138 | true exactly when neither colour has a legal move |
| Othello.GameOverExact | Board.cs:135-138 | game over if and only if no cell is legal for black or for white |
| Othello.Board.GetScore | Board.cs:154-157 | the score is the sum of the board's cells, and on a board of stones black's stones less white's |
| Othello.Board.GetWinner | Board.cs:143-149 | the winner is the sign of the score, one of 1, -1 and 0; on a board of stones 1 exactly when black holds more stones, -1 exactly when white does, 0 on equal counts |
| Othello.ScoreIsStoneDifference | Board.cs:143-157 | the score is black stones minus white stones, and the winner is 1, -1 or 0 exactly when black has more, fewer or as many stones |
| Games.GameManager.constructor | GameManager.cs:23-31 | a new game holds the start position, black to move, not over, with the given seats and no recorded turns |
| Games.Start | GameManager.cs:23-31 | the start state is consistent (cells in range, a colour to move, the over flag raised only on a finished position), not over, black to move |
| Games.GameManager.PlayTurn | GameManager.cs:37-93 | the new state and result are those of the turn function: a finished game stays finished; a pass hands over the move and ends the game if the other side cannot move either; an illegal move leaves everything and reports it; a legal move places, hands over and ends the game if neither side can move |
| Games.GameManager.PassTurn | GameManager.cs:52-67 | a pass keeps the board, hands the move to the opponent, and ends the game exactly when the opponent has no legal move |
| Games.GameManager.StoneTurn | GameManager.cs:70-92 | a stone move places and hands over when legal, and otherwise changes nothing and reports the invalid move |
| Games.TurnOverSticky | GameManager.cs:39-40 | once a game is over, every further turn leaves it unchanged and reports it over |
| Games.TurnResultFlag | GameManager.cs:71-75 | the result reports an invalid move exactly when the game is running and the move is an illegal non-pass, and then the state is untouched; otherwise the result equals the new over flag |
| Games.TurnPass | GameManager.cs:52-67 | after a pass the board is the same, the opponent is to move, and the game is over if and only if the opponent has no legal cell |
| Games.TurnLegal | GameManager.cs:71-92 | after a legal move the chosen cell holds the mover's stone, exactly one empty cell is filled, cells stay in range, the opponent is to move, and the game is over if and only if neither colour can move |
| Games.TurnConsistent | GameManager.cs:37-93 | a turn taken with a legal move, or with a pass when there is no legal move, keeps the cells in range and a colour to move, raises the over flag only on a game-over position, and never reports an invalid move |
| Games.TurnProgress | GameManager.cs:155 | each honest turn that does not end the game lowers a natural-number measure (twice the empty cells, plus one when the player to move has no legal move), so the game loop ends |
| Games.GameManager.RunGame | GameManager.cs:148-158 | with players that only play legal moves and pass only when they must, the turn loop ends with the game over and the board in a game-over position |
| Games.GameManager.GetWinner | GameManager.cs:189-192 | the winner of the game is the board's winner |
| Games.GameManager.RecordTurn | GameManager.cs:202-205 | appends exactly one transition to the recorded turns and leaves the game state unchanged |
| Games.GameManager.GetTurnUpdates | GameManager.cs:208-211 | returns the transitions recorded since the last clear, oldest first, as `RecordTurn` appended them |
| Games.GameManager.ClearTurnUpdates | GameManager.cs:214-217 | empties the recorded turns and leaves the game state unchanged |
| Learning.ReinforcementLearningAI.constructor | ReinforcementLearningAI.cs:27-50 | the agent starts with the given parameters, an empty replay buffer, and a store whose cache and table hold the loaded rows |
| Learning.ReinforcementLearningAI.SetEpsilon | ReinforcementLearningAI.cs:60-63 | epsilon becomes the given value and the replay buffer is unchanged |
| Learning.ReinforcementLearningAI.GetBoardState | ReinforcementLearningAI.cs:117-130 | the key is the six rows of cell numbers, cells joined by ',' and rows by ';' |
| Learning.RowState | ReinforcementLearningAI.cs:122-127 | one row's key is its six cell numbers joined by ',' |
| Learning.StateKeyLayout | ReinforcementLearningAI.cs:117-130 | splitting a key at ';' gives back the six row keys, and splitting each row key at ',' gives back its six cell texts |
| Learning.StateKeyInjective | ReinforcementLearningAI.cs:117-130 | two boards have the same key if and only if they are the same board, so the value table never mixes two positions |
| Text.SplitJoin | ReinforcementLearningAI.cs:127-129 | splitting a join of separator-free parts at the separator gives back the parts |
| Text.JoinInjective | ReinforcementLearningAI.cs:127-129 | joins of separator-free parts are equal only when the parts are equal |
| Text.IntTextInjective | ReinforcementLearningAI.cs:125 | distinct integers print as distinct decimal texts |
| Text.IntText | ReinforcementLearningAI.cs:125 | a cell prints as a non-empty text of digits with a leading '-' exactly for negative values, so it contains neither ',' nor ';' |
| Learning.ReinforcementLearningAI.DecideMove | ReinforcementLearningAI.cs:68-112 | the move is the epsilon-greedy choice over the legal moves, made with the agent's cache, epsilon and the given draws |
| Learning.ChooseSpec | ReinforcementLearningAI.cs:70-111 | the agent passes if and only if it has no legal move; otherwise it plays a legal move, and when it exploits, no legal move's successor value exceeds the chosen one's by the tie tolerance 0.0001 or more |
| Learning.TieScanSpec | ReinforcementLearningAI.cs:85-107 | the scan's maximum is attained by some move and bounds every move's value; every kept move lies within the tolerance of it, and the list is non-empty when there are moves |
| Learning.ReinforcementLearningAI.BestMoves | ReinforcementLearningAI.cs:88-107 | the loop over the legal moves yields the tie scan of their successor values |
| Learning.ReinforcementLearningAI.MoveValue | ReinforcementLearningAI.cs:90-95 | a move's value is the cached value (default 0) of the key of the board after the move |
| Learning.Consider | ReinforcementLearningAI.cs:97-106 | one comparison step: a strictly larger value restarts the list, a value within tolerance is appended, anything else is ignored |
| Learning.ReinforcementLearningAI.UpdateEpsilon | ReinforcementLearningAI.cs:141-144 | epsilon becomes the decayed value and nothing else changes |
| Learning.DecayedSpec | ReinforcementLearningAI.cs:141-144 | the decayed epsilon is never below the floor 0.01, is the product when that is above the floor, and never rises when the rate is at most 1 |
| Learning.ReinforcementLearningAI.AddToReplayBuffer | ReinforcementLearningAI.cs:151-158 | the buffer becomes the newest replayBufferSize transitions of the old buffer followed by the updates |
| Learning.AppendAll | ReinforcementLearningAI.cs:151-158 | appending one by one and dropping the oldest entry on overflow yields the capped window of the concatenation |
| Learning.Window | ReinforcementLearningAI.cs:151-158 | the window has min(length, cap) entries and is a suffix of the sequence, so only the oldest entries are dropped |
| Learning.WindowSnoc | ReinforcementLearningAI.cs:153-157 | adding one transition to a window appends it and drops the first entry exactly when the cap is exceeded |
| Learning.ReinforcementLearningAI.SampleBatch | ReinforcementLearningAI.cs:164-171 | the batch has batchSize entries drawn from the buffer with replacement, entry i at the i-th drawn index |
| Learning.Sample | ReinforcementLearningAI.cs:167-171 | the sample has n entries, entry i being the buffer entry at the i-th draw |
| Learning.ReinforcementLearningAI.AggregateBatch | ReinforcementLearningAI.cs:174-200 | the dictionary built by the loop is the per-state (sum of targets, count) of the batch |
| Learning.AggregateSpec | ReinforcementLearningAI.cs:174-200 | the aggregate has one entry for each state that occurs in the batch; the entry holds the sum of that state's targets and how often it occurs, which is positive |
| Learning.CountForPositive | ReinforcementLearningAI.cs:191-199 | a state that occurs in the batch has a positive count, so the mean never divides by zero |
| Learning.MeanValues | ReinforcementLearningAI.cs:203-207 | each state's new value is its sum divided by its count, for exactly the aggregated states |
| Learning.MeansOfAggregate | ReinforcementLearningAI.cs:203-207 | dividing each aggregated sum by its count gives the per-state mean of the targets |
| Learning.Means | ReinforcementLearningAI.cs:174-207 | the new values cover exactly the states of the batch |
| Learning.MeanOfEqualTargets | ReinforcementLearningAI.cs:189-206 | when every occurrence of a state has the same target v, the value written for it is v |
| Learning.SumOfEqualTargets | ReinforcementLearningAI.cs:191-199 | equal targets v sum to count times v |
| Learning.ReinforcementLearningAI.BatchUpdateQValues | ReinforcementLearningAI.cs:148-209 | the buffer becomes the capped window of old buffer plus updates; below batch size nothing else changes; otherwise the cache takes each sampled state's mean target (computed against the values before the batch) and the table takes them only if the transaction commits |
| Learning.ReinforcementLearningAI.ClearQValueRepository | ReinforcementLearningAI.cs:212-215 | both the cache and the table become empty |
| ValueStore.QValueRepository.constructor | QValueRepository.cs:15-20 | the cache starts as exactly the rows of the table |
| ValueStore.QValueRepository.LoadToCache | QValueRepository.cs:25-45 | loading adds every stored row to the cache, overriding existing keys, and leaves the table unchanged |
| ValueStore.RowsMapAt | QValueRepository.cs:41-44 | with distinct states, the loaded cache holds each row's value under its state |
| ValueStore.RowsMapCount | QValueRepository.cs:41-44 | with distinct states, the loaded cache has one entry per row |
| ValueStore.RowsMap | QValueRepository.cs:41-44 | the loaded map's keys are exactly the rows' states |
| ValueStore.QValueRepository.GetValue | QValueRepository.cs:50-56 | a lookup gives the cached value, or 0.0 for a state never stored |
| ValueStore.LookupEmpty | QValueRepository.cs:54 | every state reads 0.0 from an empty cache |
| ValueStore.QValueRepository.UpdateValue | QValueRepository.cs:61-79 | the cache always takes the state's new value; the table takes it when the upsert succeeds and is unchanged when it fails; the result reports which |
| ValueStore.LookupAfterUpsert | QValueRepository.cs:61-66 | after an upsert the state reads the new value and every other state reads as before |
| ValueStore.UpsertCount | QValueRepository.cs:65 | an upsert adds one entry for a new state and none for a known one |
| ValueStore.QValueRepository.BatchUpdate | QValueRepository.cs:84-126 | the cache takes every update; the table takes all of them when the transaction commits and none when it fails; the result reports whether it committed |
| ValueStore.LookupAfterMerge | QValueRepository.cs:84-92 | after a batch an updated state reads its new value and any other state reads as before |
| ValueStore.MergeStep | QValueRepository.cs:113-118 | writing the updates one by one builds up the whole merge |
| ValueStore.QValueRepository.Count | QValueRepository.cs:131-140 | the count is the number of cached states |
| ValueStore.QValueRepository.ClearDatabase | QValueRepository.cs:143-165 | cache and table become empty, so the count is 0 and every state reads 0.0 |
| Heuristic.NewBaseTable | SimpleAI.cs:9-16 | the position table is the fixed 6x6 table: corners 30, edge cells beside the corners -12, diagonal neighbours of the corners -15, others -3 or 0 |
| Heuristic.SimpleAI.constructor | SimpleAI.cs:9-16 | a new heuristic player holds the fixed position table |
| Heuristic.SimpleAI.EvaluatePosition | SimpleAI.cs:59-90 | the evaluation is the position-weight sum of own stones minus opponent stones, plus 100 times the signed stone difference at the end, or 5 times the mobility difference before it |
| Heuristic.Evaluate | SimpleAI.cs:59-90 | the loop computes the evaluation function of the board for the given table |
| Heuristic.PositionalTerm | SimpleAI.cs:64-74 | the double loop computes the position term over all 36 cells |
| Heuristic.RowTerm | SimpleAI.cs:66-73 | one pass of the inner loop adds one row's position term |
| Heuristic.AddCell | SimpleAI.cs:68-72 | a cell adds its weight for an own stone, subtracts it for an opponent stone, and adds nothing when empty |
| Heuristic.PositionalIsDifference | SimpleAI.cs:64-74 | the position term is the weight of own stones minus the weight of opponent stones |
| Heuristic.EvaluationAntisymmetric | SimpleAI.cs:59-90 | the evaluation for one colour is the negation of the evaluation for the other |
| Heuristic.SimpleAI.DecideMove | SimpleAI.cs:22-53 | the move is the heuristic choice over the legal moves with the fixed table and the given draw |
| Heuristic.DecideSpec | SimpleAI.cs:22-53 | the player passes if and only if it has no legal move; otherwise it plays a legal move whose resulting evaluation no other legal move beats |
| Heuristic.ArgmaxSpec | SimpleAI.cs:30-50 | the scan's maximum bounds every move's evaluation and is attained, and the kept moves are exactly the moves that attain it |
| Heuristic.BestMoves | SimpleAI.cs:34-50 | the loop yields the moves attaining the maximum evaluation, in move-list order |
| Heuristic.MoveEval | SimpleAI.cs:36-38 | a move's evaluation is that of the board copy after the move |
| Heuristic.Consider | SimpleAI.cs:40-49 | one comparison step: a strictly larger value restarts the list, an equal value is appended, a smaller one is ignored |
| Heuristic.ArgmaxMove | SimpleAI.cs:22-53 | the decision procedure computes the heuristic choice for the given table |
| Heuristic.SimpleAIVariant.constructor | SimpleAIVariant.cs:9-22 | the variant table is its own array, equal to the base table plus one draw in [-5, 5] per cell, and the base table is left intact |
| Heuristic.SimpleAIVariant.DecideMove | SimpleAIVariant.cs:26-43 | the move is the variant choice: the heuristic choice with the perturbed table, replaced, when the draw u is below randomFactor, by the legal move at the drawn index |
| Heuristic.VariantDecideSpec | SimpleAIVariant.cs:26-43 | the variant passes if and only if it has no legal move, otherwise plays a legal move, and when the draw is not below randomFactor plays the heuristic choice, which no legal move beats |
| Heuristic.SimpleAIVariant.EvaluatePosition | SimpleAIVariant.cs:45-77 | the variant evaluates like the base player, but with its perturbed table |
| RandomPlayer.DecideMove | RandomAI.cs:8-18 | passes if and only if there is no legal move; otherwise plays the legal move at the drawn index of the move list |
| Players.NameInjective | RandomAI.cs:7 | the five player names are pairwise distinct, so comparing names compares player kinds |
| Human.IsValidMove | HumanPlayer.cs:97-132 | the human player's own legality test on the raw array, as its loop computes it |
| Human.WalkDirection | HumanPlayer.cs:109-128 | the walk along one direction reports whether at least one non-empty, non-own stone is closed by an own stone |
| Human.WalkIsRun | HumanPlayer.cs:115-128 | on a board of stones, that walk agrees with the board's opponent run: it succeeds exactly for a non-empty run ending on player's stone |
| Human.WalkFlanks | HumanPlayer.cs:109-128 | each direction of the human test flanks exactly when the board's test does for that direction |
| Human.HumanValidIsValidMove | HumanPlayer.cs:97-132 | for cells on the board, the human player's legality test equals the board's, although it lists the directions in another order |
| Human.GetValidMoves | HumanPlayer.cs:78-92 | the human player's scan gives its own list of legal cells |
| Human.HumanMovesAgree | HumanPlayer.cs:78-92 | on a board of stones that list is the board's move list: exactly the legal moves, in row-major order |
| Human.DecideMove | HumanPlayer.cs:13-73 | the input loop returns the decision for the given sequence of input lines: a move, the uncaught overflow exception, or no decision within these lines |
| Human.HumanDecideSpec | HumanPlayer.cs:13-73 | with no legal move the player passes; any move chosen is legal and listed; a pass is chosen only when there is no legal move; the overflow exception escapes only while moves exist and only from an overflowing line |
| Human.FirstAccepted | HumanPlayer.cs:26-72 | a chosen move is one of the listed moves on the board |
| Human.FirstAcceptedSpec | HumanPlayer.cs:26-72 | the loop ends if and only if some line is acceptable or overflows, and then at the first such line: with its move when it is acceptable, with the exception when it overflows (only `FormatException` is caught, HumanPlayer.cs:68); every earlier line was rejected and skipped |
| Training.CalculateReward | Program.cs:433-451 | the method computes the reward function for the board and player |
| Training.RewardSpec | Program.cs:433-451 | at the end the reward is +100, -100 or 0 exactly when player has more, fewer or as many stones; before it, it is twice player's evaluation times the scale; and the reward for one colour is the negation of the other's |
| Training.ShapedReward | Program.cs:443-449 | the reward before the end is the scaled difference of the two colours' evaluations |
| Training.EvaluateBoard | Program.cs:454-472 | the loop computes the corner term plus the weighted mobility difference |
| Training.CornerTermAntisymmetric | Program.cs:458-466 | the corner term for one colour is the negation of the other's |
| Training.EvaluationAntisymmetric | Program.cs:454-472 | the shaping evaluation for one colour is the negation of the other's |
| Training.ChooseOpponent | Program.cs:284-310 | the first randomOpponentGames games are against RandomAI; after that the uniform draw picks SimpleAI below the first threshold, SimpleAIVariant below the second, RandomAI otherwise; only against SimpleAI is the learning rate multiplied |
| Training.AgentSeat | Program.cs:314 | the agent sits on black or on white |
| Training.Seating | Program.cs:313-323 | the agent takes the seat the coin gives and the opponent the other one |
| Training.Tally | Program.cs:373-380 | after one game neither counter goes down, at most one of them goes up, by one, and the draw text changes neither |
| Training.TallySpec | Program.cs:368-380 | Wins goes up exactly when the agent sat on the winning seat; OpponentWins goes up exactly when another player did; neither moves on a draw |
| Training.DrawNameIsNoName | Program.cs:370-377 | no player's name equals the draw text, so a draw is never credited to a player |
| Training.AdjustedEpsilonAsWritten | Program.cs:386-404 | as written: when white (-1) wins epsilon decays, no further than the floor; otherwise it is the raised value or the initial value, never above the initial value |
| Training.AdjustedEpsilonSpec | Program.cs:386-404 | after an agent win epsilon decays, no further than the floor and never upward; otherwise it is raised by the inverse rate but never above its initial value |
| Training.AdjustedEpsilonAsWrittenRaisesAfterWin | Program.cs:388 | with the agent on black, a black win grows epsilon from 0.5 back to 1.0 as the code is written; the seat-aware rule gives 0.25 |
| Training.AdjustEpsilon | Program.cs:386-404 | the agent's epsilon becomes the seat-aware adjustment, through UpdateEpsilon then SetEpsilon, and its buffer is unchanged |
| Training.Checkpoint | Program.cs:263-276 | the check before one game leaves the counter, or, with display off, sets it to the game's number when that is a multiple of saveInterval; with display on it never changes the counter |
| Training.CheckpointAfterSpec | Program.cs:259-276 | the stored counter is either the value the run started with or, with display off, a multiple of saveInterval just reached |
| Training.HandlerAsWritten | Program.cs:423 | as written, the handler stores the starting counter plus one, or, with display off, one more than a multiple of saveInterval reached between the start and the failed game j, at most j + 2; it is not the failed game's index plus one |
| Training.HandlerAsWrittenMisplaces | Program.cs:420-427 | with saveInterval 4 from game 0, a failure in game 6 and a failure in game 3 both store 5: one resume replays game 5, the other skips games 3 and 4 |
| Training.FirstFailure | Program.cs:256-427 | a reported failure is a game of the range that did fail |
| Training.FirstFailureSpec | Program.cs:256-427 | every game before the first failure, and every game when there is none, finished |
| Training.TallyRangeBound | Program.cs:368-380 | over a range of games each counter only grows, and together they grow by at most one per game |
| Training.TrainingSession.constructor | TrainingSession.cs:10-14 | a session record holds the given total, completed, win and opponent-win counters |
| Training.TrainingSession.RunGames | Program.cs:256-427 | the loop stops at the first failing game; the tallies are those of the finished games before it; after a failure the counter is set to the failed game's index plus one, the corrected handler of the Findings table, not the value the code stores (`Training.HandlerAsWritten`); a completed run ends with the last checkpoint value |

## Left out

- SQLite: the durable table is a map. A failed write is modelled by the `dbOk` parameter, and the exception becomes the `false` result of `BatchUpdate` and `UpdateValue`. Connections, SQL text and locks are not modelled.
- In `BatchUpdate` and `UpdateValue` the code writes the cache before opening the connection, and a failure of the table write does not restore the cache. The model does the same: the cache keeps the new values whatever the outcome, and `dbOk` decides only the table.
- ValueStore.QValueRepository.ClearDatabase: a failure of the DROP or CREATE statement after the cache is cleared is not modelled; the table is taken to be recreated empty.
- The appsettings.json values (rates, weights, ratios, the buffer size, the batch size, the save interval) are parameters. Reading the file and its missing-file exception are not modelled.
- Console output, board display, `Thread.Sleep` and the wall-clock timing of the progress line have no effect on state and are left out. The training log file is left out as well. Its only effect on state is on the error path: a failed append at Program.cs:383 throws after the tally of Program.cs:373-380, as the `RunGames` line below says.
- `System.Random` becomes draw parameters, as described above. Probabilities and distributions are not stated.
- IEEE doubles are modelled as exact reals. Rounding, `double.MinValue` and NaN are not captured. The `double.MinValue` and `int.MinValue` "no maximum yet" starting values become `None`.
- Training.TrainingSession.RunGames: each game enters as its outcome (the winner and the seats, or a failure). The body of one game is modelled separately: turn recording at Program.cs:328-357, the batch update, the opponent choice, the seating, the tally and the epsilon rule each have their own members above, but the loop itself does not string them together.
- Program.cs:406 calls `RunGame` on a game that is already over. By `Games.TurnOverSticky` that call changes nothing, so the loop model omits it.
- Training.TrainingSession.RunGames: on a failure the model stores the intended value, the failed game's index plus one. The code at Program.cs:423 stores the last checkpoint value plus one, `CheckpointAfter(start, j + 1) + 1` for a failure in game j, which is `Training.HandlerAsWritten` (see Findings). A `Failed` game is never tallied, so the model covers an exception thrown before the tally. An exception thrown after it, for example by `File.AppendAllText` at Program.cs:383 or by the epsilon update, leaves a `Wins` or `OpponentWins` that already counts the failed game, and the handler saves that. The model does not capture that case.
- Training.TrainingSession.RunGames: saving and loading the session file (TrainingSession.cs) and deleting it on completion are I/O and not modelled. Only the counter values that would be written are modelled.
- AIFactory.cs (construction by name) is not part of this model. `IAI` becomes the `Players.PlayerKind` tag and its `Name` strings.
- Games.GameManager.RunGame requires that players only play legal moves and pass only when they have none. The scripted players are proved to satisfy this (`Learning.ChooseSpec`, `Heuristic.DecideSpec`, `Heuristic.VariantDecideSpec`, `RandomPlayer.DecideMove`, `Human.HumanDecideSpec`). The exception that `PlayTurn` throws on an illegal move is modelled as the `InvalidMove` result of `Games.GameManager.PlayTurn`.
- `Board.GetBoard` returns the board's own array. That aliasing, and the writes a caller could make through it, are not modelled; callers receive the grid value.
- Human.DecideMove: console input is a finite sequence of already parsed lines: `Malformed` (a null line, the wrong number of parts, or a part `int.Parse` rejects with `FormatException`), `Overflow` (the first failing part overflows `int`) or `Coords(row, col)`. Trimming, splitting at spaces and `int.Parse` themselves are abstracted into that parse, and the exception leaving `DecideMove` is the `Overflowed` result; what it does to the caller is not modelled. At the end of input `ReadLine` returns null and the real loop asks again for ever; the model stops at the last given line with `Waiting`.
- Training.AdjustEpsilon requires a non-zero decay rate, because the code divides by it. Training.TrainingSession.RunGames requires a positive save interval, because the code takes a remainder by it.
- Learning.ChooseSpec: the exploiting choice is maximal only up to the tie tolerance. The code also keeps moves whose value is within 0.0001 of the running maximum (`Math.Abs(qValue - maxQ) < 0.0001`), so the chosen move can be up to 0.0001 below the best one. The contract states that bound, which is all the code guarantees.

## Findings

| source | as written | input that shows it | evidently intended | confidence | as-written member | corrected member |
|---|---|---|---|---|---|---|
| Program.cs:388 | epsilon decays when white (-1) wins, although the agent's seat is drawn at random at Program.cs:314 | the agent is seated on black (draw 0), black wins, epsilon 0.5, decay rate 0.5, initial epsilon 1.0: epsilon is raised back to 1.0 after the agent's win | decay after a win of the agent's own seat, whichever colour it played; grow after a loss or draw | not executed | Training.AdjustedEpsilonAsWrittenRaisesAfterWin | Training.AdjustedEpsilonSpec |
| Program.cs:423 | the exception handler stores the last checkpoint value plus one, and that value was written before some earlier game | saveInterval 4, board display off, starting at game 0: when game 6 fails the stored counter is 4 + 1 = 5, so a resumed run plays game 5 again and tallies it twice; when game 3 fails it also stores 5, so games 3 and 4 are never played | store the failed game's index plus one, so that a resumed run starts just after the failed game | not executed | Training.HandlerAsWrittenMisplaces | Training.TrainingSession.RunGames |
