/** The turn state machine of one game: whose turn it is, passes, rejected moves, the
    game-over flag, the game loop and the list of recorded transitions. */
module Games {
  import opened Othello
  import opened Experience
  import opened Players

  /** What PlayTurn reports: Done(over) is its bool result, InvalidMove the
      InvalidOperationException for an illegal stone. */
  datatype TurnResult = Done(over: bool) | InvalidMove(row: int, col: int)

  /** The state a turn reads and writes. */
  datatype Game = Game(grid: Grid, player: int, over: bool)

  /** One turn with the move the player to move decided on. */
  function Turn(s: Game, move: Pos): (Game, TurnResult)
    requires IsGrid(s.grid)
  {
    if s.over then (s, Done(true))
    else if move == Pass then
      var p := -s.player;
      var over := |ValidMoves(s.grid, p)| == 0;
      (Game(s.grid, p, over), Done(over))
    else if !ValidMove(s.grid, move.row, move.col, s.player) then
      (s, InvalidMove(move.row, move.col))
    else
      var g := Place(s.grid, move.row, move.col, s.player);
      (Game(g, -s.player, GameOver(g)), Done(GameOver(g)))
  }

  /** The three cases of a turn of a running game, as PlayTurn takes them. */
  lemma TurnCases(s: Game, move: Pos)
    requires IsGrid(s.grid) && !s.over
    ensures move == Pass ==>
      Turn(s, move) == (Game(s.grid, -s.player, |ValidMoves(s.grid, -s.player)| == 0), Done(|ValidMoves(s.grid, -s.player)| == 0))
    ensures move != Pass && !ValidMove(s.grid, move.row, move.col, s.player) ==>
      Turn(s, move) == (s, InvalidMove(move.row, move.col))
    ensures move != Pass && ValidMove(s.grid, move.row, move.col, s.player) ==>
      var g := Place(s.grid, move.row, move.col, s.player);
      Turn(s, move) == (Game(g, -s.player, GameOver(g)), Done(GameOver(g)))
  {
  }

  /** A finished game stays finished and unchanged; the flag is never reset. */
  lemma TurnOverSticky(s: Game, move: Pos)
    requires IsGrid(s.grid)
    ensures s.over ==> Turn(s, move) == (s, Done(true))
    ensures s.over ==> Turn(s, move).0.over
  {
  }

  /** The bool PlayTurn returns is the new game-over flag; the error is raised exactly for a
      non-pass illegal move of a running game, and then nothing changes. */
  lemma TurnResultFlag(s: Game, move: Pos)
    requires IsGrid(s.grid)
    ensures var (t, r) := Turn(s, move);
      IsGrid(t.grid) &&
      (r.Done? ==> r.over == t.over) &&
      (r.InvalidMove? <==> !s.over && move != Pass && !ValidMove(s.grid, move.row, move.col, s.player)) &&
      (r.InvalidMove? ==> t == s && r == InvalidMove(move.row, move.col))
  {
  }

  /** A pass hands the turn over; the game ends exactly when the new player has no move. */
  lemma TurnPass(s: Game)
    requires IsGrid(s.grid) && !s.over
    ensures var (t, r) := Turn(s, Pass);
      t.grid == s.grid && t.player == -s.player &&
      (t.over <==> forall r, c :: !ValidMove(s.grid, r, c, t.player)) &&
      r == Done(t.over)
  {
    NoMoves(s.grid, -s.player);
  }

  /** A legal stone: the cell gets the player's colour, one empty cell fewer, the turn
      passes and the flag says whether neither colour can move. */
  lemma TurnLegal(s: Game, move: Pos)
    requires IsGrid(s.grid) && CellsInRange(s.grid) && !s.over
    requires move != Pass && ValidMove(s.grid, move.row, move.col, s.player)
    ensures var (t, r) := Turn(s, move);
      t.grid[move.row][move.col] == s.player &&
      CellsInRange(t.grid) &&
      EmptyCells(t.grid) == EmptyCells(s.grid) - {move} &&
      t.player == -s.player &&
      (t.over <==> forall r, c :: !ValidMove(t.grid, r, c, 1) && !ValidMove(t.grid, r, c, -1)) &&
      r == Done(t.over)
  {
    var g := Place(s.grid, move.row, move.col, s.player);
    PlaceEffect(s.grid, move.row, move.col, s.player, move.row, move.col);
    PlaceKeepsRange(s.grid, move.row, move.col, s.player);
    PlaceFillsOneCell(s.grid, move.row, move.col, s.player);
    GameOverExact(g);
  }

  /** The move a player of the source can hand in: a pass exactly when it has no legal
      move, otherwise a legal move. */
  predicate Honest(g: Grid, player: int, move: Pos)
    requires IsGrid(g)
  {
    (move == Pass <==> |ValidMoves(g, player)| == 0) &&
    (move != Pass ==> ValidMove(g, move.row, move.col, player))
  }

  /** The states reachable from a new game by honest moves. */
  predicate Consistent(s: Game)
  {
    IsGrid(s.grid) && CellsInRange(s.grid) && (s.player == 1 || s.player == -1) &&
    (s.over ==> GameOver(s.grid))
  }

  /** Honest turns keep the state consistent: the flag is only raised on a finished position. */
  lemma TurnConsistent(s: Game, move: Pos)
    requires Consistent(s) && Honest(s.grid, s.player, move)
    ensures Consistent(Turn(s, move).0) && Turn(s, move).1.Done?
  {
    if !s.over {
      if move == Pass {
        assert s.player == 1 ==> GameOver(s.grid) == (|ValidMoves(s.grid, -1)| == 0);
      } else {
        TurnLegal(s, move);
      }
    }
  }

  /** Twice the empty cells, plus one while the player to move must pass. */
  ghost function Measure(s: Game): nat
    requires IsGrid(s.grid)
  {
    2 * |EmptyCells(s.grid)| + (if |ValidMoves(s.grid, s.player)| == 0 then 1 else 0)
  }

  /** An honest turn that does not end the game lowers the measure: a game cannot go on
      for ever. */
  lemma {:induction false} TurnProgress(s: Game, move: Pos)
    requires Consistent(s) && !s.over && Honest(s.grid, s.player, move)
    requires !Turn(s, move).0.over
    ensures Measure(Turn(s, move).0) < Measure(s)
  {
    if move != Pass {
      TurnLegal(s, move);
      PlaceFillsOneCell(s.grid, move.row, move.col, s.player);
    }
  }

  /** The state of a new game. */
  function Start(): (s: Game)
    ensures Consistent(s) && !s.over && s.player == 1
  {
    InitialInRange();
    Game(InitialGrid(), 1, false)
  }

  class GameManager {
    const board: Board
    const blackPlayer: PlayerKind
    const whitePlayer: PlayerKind
    var currentPlayer: int
    var isGameOver: bool
    var turnUpdates: seq<Transition>

    predicate Valid()
      reads this, board
    {
      board.Valid()
    }

    function State(): Game
      requires Valid()
      reads this, board, board.cells
    {
      Game(board.View(), currentPlayer, isGameOver)
    }

    /** A fresh initial board, black to move, the game running, no turns recorded. */
    constructor (blackPlayer: PlayerKind, whitePlayer: PlayerKind)
      ensures Valid() && fresh(board) && fresh(board.cells)
      ensures State() == Start()
      ensures this.blackPlayer == blackPlayer && this.whitePlayer == whitePlayer
      ensures turnUpdates == []
    {
      board := new Board();
      this.blackPlayer := blackPlayer;
      this.whitePlayer := whitePlayer;
      currentPlayer := 1;
      isGameOver := false;
      turnUpdates := [];
    }

    /** The seat whose turn it is. */
    function CurrentAI(): PlayerKind
      reads this
    {
      if currentPlayer == 1 then blackPlayer else whitePlayer
    }

    /** One turn with the move the current player's DecideMove returned. */
    method PlayTurn(move: Pos) returns (result: TurnResult)
      requires Valid()
      modifies this, board.cells
      ensures Valid() && turnUpdates == old(turnUpdates)
      ensures (State(), result) == Turn(old(State()), move)
    {
      if isGameOver {
        return Done(true);
      }
      if move.row == -1 && move.col == -1 {
        result := PassTurn();
        return;
      }
      result := StoneTurn(move);
    }

    /** The pass branch of PlayTurn: the turn goes over, and the game ends if the new
        player has no legal move either. */
    method PassTurn() returns (result: TurnResult)
      requires Valid() && !isGameOver
      modifies this
      ensures Valid() && turnUpdates == old(turnUpdates)
      ensures (State(), result) == Turn(old(State()), Pass)
    {
      ghost var s := State();
      TurnCases(s, Pass);
      currentPlayer := -currentPlayer;
      var moves := board.GetValidMoves(currentPlayer);
      if |moves| == 0 {
        isGameOver := true;
        return Done(true);
      }
      return Done(false);
    }

    /** The stone branch of PlayTurn: an illegal cell raises the error, a legal one is
        played and the turn goes over. */
    method StoneTurn(move: Pos) returns (result: TurnResult)
      requires Valid() && !isGameOver && move != Pass
      modifies this, board.cells
      ensures Valid() && turnUpdates == old(turnUpdates)
      ensures (State(), result) == Turn(old(State()), move)
    {
      ghost var s := State();
      TurnCases(s, move);
      var placed := board.PlaceStone(move.row, move.col, currentPlayer);
      if !placed {
        assert State() == s;
        return InvalidMove(move.row, move.col);
      }
      ghost var g := board.View();
      currentPlayer := -currentPlayer;
      var over := board.IsGameOver();
      if over {
        isGameOver := true;
        assert State() == Game(g, -s.player, true);
        return Done(true);
      }
      assert State() == Game(g, -s.player, false);
      return Done(false);
    }

    /** Turns until PlayTurn reports the end. decide(g, p, k) is the k-th move handed in,
        made by whichever player sits at p; the players of the source are honest. */
    method RunGame(decide: (Grid, int, nat) -> Pos)
      requires Valid() && Consistent(State())
      requires forall g: Grid, p: int, k: nat :: IsGrid(g) ==> Honest(g, p, decide(g, p, k))
      modifies this, board.cells
      ensures Valid() && Consistent(State()) && turnUpdates == old(turnUpdates)
      ensures isGameOver && GameOver(board.View())
    {
      var done := false;
      var k := 0;
      while !done
        invariant Valid() && Consistent(State()) && turnUpdates == old(turnUpdates)
        invariant done ==> isGameOver
        decreases if done then 0 else 1 + Measure(State())
      {
        var move := decide(board.View(), currentPlayer, k);
        ghost var before := State();
        TurnConsistent(before, move);
        if !before.over && !Turn(before, move).0.over {
          TurnProgress(before, move);
        }
        var result := PlayTurn(move);
        done := result == Done(true);
        k := k + 1;
      }
    }

    function GetWinner(): (w: int)
      requires Valid()
      reads this, board, board.cells
      ensures w == Winner(board.View())
    {
      board.GetWinner()
    }

    /** Appends one transition. */
    method RecordTurn(currentState: string, nextState: string, reward: real, done: bool)
      modifies this
      ensures turnUpdates == old(turnUpdates) + [Transition(currentState, nextState, reward, done)]
      ensures currentPlayer == old(currentPlayer) && isGameOver == old(isGameOver)
    {
      turnUpdates := turnUpdates + [Transition(currentState, nextState, reward, done)];
    }

    /** The transitions recorded since the last clear, oldest first. */
    function GetTurnUpdates(): (updates: seq<Transition>)
      reads this
      ensures updates == turnUpdates
    {
      turnUpdates
    }

    method ClearTurnUpdates()
      modifies this
      ensures turnUpdates == []
      ensures currentPlayer == old(currentPlayer) && isGameOver == old(isGameOver)
    {
      turnUpdates := [];
    }
  }
}
