/** HumanPlayer: its own implementation of the legality rule, its move list, and which of
    the typed entries DecideMove accepts. */
module Human {
  import opened Othello

  /** The directions in the order HumanPlayer tries them. */
  const HumanDirections: seq<(int, int)> :=
    [(-1, -1), (-1, 0), (-1, 1), (0, -1), (0, 1), (1, -1), (1, 0), (1, 1)]

  function HumanDir(i: int): (d: (int, int))
    requires 0 <= i < |HumanDirections|
    ensures IsDirection(d.0, d.1)
  {
    HumanDirections[i]
  }

  /** Where each of HumanPlayer's directions sits in Board's list, and back. */
  function ToBoard(i: int): (j: int)
    requires 0 <= i < |HumanDirections|
    ensures 0 <= j < |Directions| && Dir(j) == HumanDir(i)
  {
    [7, 0, 1, 6, 2, 5, 4, 3][i]
  }

  function ToHuman(j: int): (i: int)
    requires 0 <= j < |Directions|
    ensures 0 <= i < |HumanDirections| && Dir(j) == HumanDir(i)
  {
    [1, 2, 4, 7, 6, 5, 3, 0][j]
  }

  /** The inner while loop from (r, c): an empty cell or the edge stops it without a
      flank, an own stone stops it with a flank exactly when a stone was passed, any other
      stone is passed. */
  predicate Walk(g: Grid, r: int, c: int, dr: int, dc: int, player: int, found: bool)
    requires IsGrid(g) && IsDirection(dr, dc)
    decreases Room(r, c, dr, dc)
  {
    if !IsInBoard(r, c) || g[r][c] == 0 then false
    else if g[r][c] == player then found
    else Walk(g, r + dr, c + dc, dr, dc, player, true)
  }

  /** The walk in HumanPlayer's i-th direction from the neighbour of (row, col). */
  predicate HumanFlank(g: Grid, row: int, col: int, player: int, i: int)
    requires IsGrid(g) && 0 <= i < |HumanDirections|
  {
    var d := HumanDir(i);
    Walk(g, row + d.0, col + d.1, d.0, d.1, player, false)
  }

  /** IsValidMove of HumanPlayer, for a cell on the board. */
  predicate HumanValid(g: Grid, row: int, col: int, player: int)
    requires IsGrid(g) && IsInBoard(row, col)
  {
    g[row][col] == 0 &&
    exists i :: 0 <= i < |HumanDirections| && HumanFlank(g, row, col, player, i)
  }

  /** The walk finds a flank exactly when Board's run of opponent stones is closed by an
      own stone (or a stone was passed already). */
  predicate WalkMatchesRun(g: Grid, r: int, c: int, dr: int, dc: int, player: int, found: bool)
    requires IsGrid(g) && IsDirection(dr, dc)
  {
    var e := RunEnd(g, r, c, dr, dc, player);
    Walk(g, r, c, dr, dc, player, found) ==
      ((found || |OpponentRun(g, r, c, dr, dc, player)| > 0) && IsInBoard(e.row, e.col) && g[e.row][e.col] == player)
  }

  /** A stone the walk passes: the match carries over from the next cell. */
  lemma WalkPassMatches(g: Grid, r: int, c: int, dr: int, dc: int, player: int, found: bool)
    requires IsGrid(g) && CellsInRange(g) && IsDirection(dr, dc)
    requires IsInBoard(r, c) && g[r][c] != 0 && g[r][c] != player
    requires WalkMatchesRun(g, r + dr, c + dc, dr, dc, player, true)
    ensures WalkMatchesRun(g, r, c, dr, dc, player, found)
  {
    if g[r][c] == -player {
      RunStep(g, r, c, dr, dc, player);
    } else {
      RunStop(g, r, c, dr, dc, player);
    }
  }

  /** A cell where the walk stops: off the board, empty, or an own stone. */
  lemma WalkStopMatches(g: Grid, r: int, c: int, dr: int, dc: int, player: int, found: bool)
    requires IsGrid(g) && IsDirection(dr, dc)
    requires !(IsInBoard(r, c) && g[r][c] != 0 && g[r][c] != player)
    ensures WalkMatchesRun(g, r, c, dr, dc, player, found)
  {
    if IsInBoard(r, c) && g[r][c] == -player {
      RunStep(g, r, c, dr, dc, player);
    } else {
      RunStop(g, r, c, dr, dc, player);
    }
  }

  /** On cells in {-1, 0, 1} the walk and Board's run agree from every cell. */
  lemma {:induction false} WalkIsRun(g: Grid, r: int, c: int, dr: int, dc: int, player: int, found: bool)
    requires IsGrid(g) && CellsInRange(g) && IsDirection(dr, dc)
    ensures WalkMatchesRun(g, r, c, dr, dc, player, found)
    decreases Room(r, c, dr, dc)
  {
    if IsInBoard(r, c) && g[r][c] != 0 && g[r][c] != player {
      WalkIsRun(g, r + dr, c + dc, dr, dc, player, true);
      WalkPassMatches(g, r, c, dr, dc, player, found);
    } else {
      WalkStopMatches(g, r, c, dr, dc, player, found);
    }
  }

  /** In one direction the walk from the neighbour of (row, col) is Board's flank test. */
  lemma WalkFlanks(g: Grid, row: int, col: int, player: int, i: int)
    requires IsGrid(g) && CellsInRange(g) && 0 <= i < |HumanDirections|
    ensures HumanFlank(g, row, col, player, i) == Flanks(g, row, col, player, HumanDir(i).0, HumanDir(i).1)
  {
    var d := HumanDir(i);
    WalkIsRun(g, row + d.0, col + d.1, d.0, d.1, player, false);
  }

  /** For in-range cells the two implementations of the rule agree, for any player. */
  lemma HumanValidIsValidMove(g: Grid, row: int, col: int, player: int)
    requires IsGrid(g) && CellsInRange(g) && IsInBoard(row, col)
    ensures HumanValid(g, row, col, player) == ValidMove(g, row, col, player)
  {
    if HumanValid(g, row, col, player) {
      var i :| 0 <= i < |HumanDirections| && HumanFlank(g, row, col, player, i);
      WalkFlanks(g, row, col, player, i);
      var j := ToBoard(i);
      assert Flanks(g, row, col, player, Dir(j).0, Dir(j).1);
    }
    if ValidMove(g, row, col, player) {
      var j :| 0 <= j < |Directions| && Flanks(g, row, col, player, Dir(j).0, Dir(j).1);
      var i := ToHuman(j);
      WalkFlanks(g, row, col, player, i);
      assert HumanFlank(g, row, col, player, i);
    }
  }

  /** One direction of IsValidMove: the while loop over r, c and foundOpponent. */
  method WalkDirection(board: array2<int>, row: int, col: int, dr: int, dc: int, player: int, ghost g: Grid)
    returns (flanked: bool)
    requires board.Length0 >= Size && board.Length1 >= Size && g == ArrayGrid(board) && IsDirection(dr, dc)
    ensures flanked == Walk(g, row + dr, col + dc, dr, dc, player, false)
  {
    var r, c := row + dr, col + dc;
    var foundOpponent := false;
    while 0 <= r < Size && 0 <= c < Size
      invariant Walk(g, r, c, dr, dc, player, foundOpponent) == Walk(g, row + dr, col + dc, dr, dc, player, false)
      decreases Room(r, c, dr, dc)
    {
      if board[r, c] == 0 {
        return false;
      }
      if board[r, c] == player {
        return foundOpponent;
      }
      foundOpponent := true;
      r, c := r + dr, c + dc;
    }
    return false;
  }

  /** IsValidMove: an occupied cell is never valid; otherwise the first direction with a
      flank makes it valid. */
  method IsValidMove(board: array2<int>, row: int, col: int, player: int, ghost g: Grid) returns (valid: bool)
    requires board.Length0 >= Size && board.Length1 >= Size && g == ArrayGrid(board) && IsInBoard(row, col)
    ensures valid == HumanValid(g, row, col, player)
  {
    if board[row, col] != 0 {
      return false;
    }
    for k := 0 to |HumanDirections|
      invariant forall i :: 0 <= i < k ==> !HumanFlank(g, row, col, player, i)
    {
      var d := HumanDir(k);
      var flanked := WalkDirection(board, row, col, d.0, d.1, player, g);
      if flanked {
        assert HumanFlank(g, row, col, player, k);
        return true;
      }
    }
    return false;
  }

  /** The cells among the first k of row r where HumanValid holds, left to right. */
  function HumanRowMoves(g: Grid, player: int, r: int, k: nat): seq<Pos>
    requires IsGrid(g) && 0 <= r < Size && k <= Size
  {
    if k == 0 then []
    else HumanRowMoves(g, player, r, k - 1) + (if HumanValid(g, r, k - 1, player) then [Pos(r, k - 1)] else [])
  }

  /** The cells in the first rows rows where HumanValid holds, in row-major order. */
  function HumanMovesUpTo(g: Grid, player: int, rows: nat): seq<Pos>
    requires IsGrid(g) && rows <= Size
  {
    if rows == 0 then []
    else HumanMovesUpTo(g, player, rows - 1) + HumanRowMoves(g, player, rows - 1, Size)
  }

  function HumanMoves(g: Grid, player: int): seq<Pos>
    requires IsGrid(g)
  {
    HumanMovesUpTo(g, player, Size)
  }

  lemma {:induction false} HumanRowMovesAgree(g: Grid, player: int, r: int, k: nat)
    requires IsGrid(g) && CellsInRange(g) && 0 <= r < Size && k <= Size
    ensures HumanRowMoves(g, player, r, k) == RowMoves(g, player, r, k)
  {
    if k > 0 {
      HumanRowMovesAgree(g, player, r, k - 1);
      HumanValidIsValidMove(g, r, k - 1, player);
    }
  }

  /** On cells in {-1, 0, 1} the list is Board's list of legal moves. */
  lemma {:induction false} HumanMovesUpToAgree(g: Grid, player: int, rows: nat)
    requires IsGrid(g) && CellsInRange(g) && rows <= Size
    ensures HumanMovesUpTo(g, player, rows) == ValidMovesUpTo(g, player, rows)
  {
    if rows > 0 {
      HumanMovesUpToAgree(g, player, rows - 1);
      HumanRowMovesAgree(g, player, rows - 1, Size);
    }
  }

  /** So it holds exactly the legal moves, in row-major order. */
  lemma HumanMovesAgree(g: Grid, player: int)
    requires IsGrid(g) && CellsInRange(g)
    ensures HumanMoves(g, player) == ValidMoves(g, player)
    ensures forall p :: p in HumanMoves(g, player) <==> ValidMove(g, p.row, p.col, player)
    ensures RowMajor(HumanMoves(g, player))
  {
    HumanMovesUpToAgree(g, player, Size);
    ValidMovesExact(g, player);
  }

  method GetValidMoves(board: array2<int>, player: int) returns (moves: seq<Pos>)
    requires board.Length0 >= Size && board.Length1 >= Size
    ensures moves == HumanMoves(ArrayGrid(board), player)
  {
    ghost var g := ArrayGrid(board);
    moves := [];
    for i := 0 to Size
      invariant moves == HumanMovesUpTo(g, player, i)
    {
      ghost var before := moves;
      for j := 0 to Size
        invariant moves == before + HumanRowMoves(g, player, i, j)
      {
        var valid := IsValidMove(board, i, j, player, g);
        if valid {
          moves := moves + [Pos(i, j)];
        }
      }
    }
  }

  // ---------------------------------------------------------------- the input loop

  /** One line typed at the prompt, once split and parsed: not two integers (the wrong
      number of parts, or a part int.Parse rejects with a FormatException), a number
      int.Parse rejects with an OverflowException (the first of the two parts that fails
      does so by overflow), or two integers. */
  datatype Entry = Malformed | Overflow | Coords(row: int, col: int)

  /** How the input loop ends on the given lines: with a move; with the OverflowException,
      which the loop does not catch and which leaves DecideMove; or not within these lines
      (at the end of input ReadLine returns null and the loop goes on asking for ever). */
  datatype Decision = Chosen(move: Pos) | Overflowed | Waiting

  /** The checks of the loop, in order: the format, the pass while moves exist, the range,
      the membership in the move list. */
  predicate Acceptable(e: Entry, moves: seq<Pos>)
  {
    e.Coords? &&
    !(e.row == -1 && e.col == -1 && |moves| > 0) &&
    IsInBoard(e.row, e.col) &&
    Pos(e.row, e.col) in moves
  }

  /** A line that leaves the loop: an overflow or an acceptable move. */
  predicate Ends(e: Entry, moves: seq<Pos>)
  {
    e.Overflow? || Acceptable(e, moves)
  }

  /** The first line that leaves the loop decides: its move, or the exception. */
  function FirstAccepted(input: seq<Entry>, moves: seq<Pos>): (d: Decision)
    ensures d.Chosen? ==> d.move in moves && IsInBoard(d.move.row, d.move.col)
  {
    if input == [] then Waiting
    else if input[0].Overflow? then Overflowed
    else if Acceptable(input[0], moves) then Chosen(Pos(input[0].row, input[0].col))
    else FirstAccepted(input[1..], moves)
  }

  /** The loop ends exactly when some line ends it, and then at the first such line: with
      that line's move when it is acceptable and with the exception when it overflows; every
      earlier line was rejected and skipped. */
  lemma {:induction false} FirstAcceptedSpec(input: seq<Entry>, moves: seq<Pos>)
    ensures var d := FirstAccepted(input, moves);
      (!d.Waiting? <==> exists k :: 0 <= k < |input| && Ends(input[k], moves)) &&
      (!d.Waiting? ==> exists k :: (0 <= k < |input| && Ends(input[k], moves) &&
        (forall j :: 0 <= j < k ==> !Ends(input[j], moves)) &&
        (d.Overflowed? <==> input[k].Overflow?) &&
        (d.Chosen? ==> input[k] == Coords(d.move.row, d.move.col) && Acceptable(input[k], moves))))
  {
    if input != [] && !Ends(input[0], moves) {
      FirstAcceptedSpec(input[1..], moves);
      var d := FirstAccepted(input[1..], moves);
      if !d.Waiting? {
        var k :| 0 <= k < |input[1..]| && Ends(input[1..][k], moves) &&
          (forall j :: 0 <= j < k ==> !Ends(input[1..][j], moves)) &&
          (d.Overflowed? <==> input[1..][k].Overflow?) &&
          (d.Chosen? ==> input[1..][k] == Coords(d.move.row, d.move.col) && Acceptable(input[1..][k], moves));
        assert input[k + 1] == input[1..][k];
        assert forall j :: 0 <= j < k + 1 ==> !Ends(input[j], moves) by {
          forall j | 0 <= j < k + 1 ensures !Ends(input[j], moves) {
            if j > 0 {
              assert input[j] == input[1..][j - 1];
            }
          }
        }
      }
      if exists k :: 0 <= k < |input| && Ends(input[k], moves) {
        var k :| 0 <= k < |input| && Ends(input[k], moves);
        assert input[1..][k - 1] == input[k];
      } else {
        assert forall k :: 0 <= k < |input[1..]| ==> input[1..][k] == input[k + 1];
      }
    } else if input != [] {
      assert input[0].Coords? ==> input[0] == Coords(input[0].row, input[0].col);
    }
  }

  /** DecideMove with the typed lines as input: pass at once without a legal move, and
      otherwise the decision of the first line that ends the loop. */
  function HumanDecide(g: Grid, player: int, input: seq<Entry>): Decision
    requires IsGrid(g)
  {
    var moves := HumanMoves(g, player);
    if |moves| == 0 then Chosen(Pass) else FirstAccepted(input, moves)
  }

  /** A pass only without a legal move, never a pass while moves exist, otherwise a legal
      move of the board; and the exception only from an overflowing line, never without a
      legal move. */
  lemma HumanDecideSpec(g: Grid, player: int, input: seq<Entry>)
    requires IsGrid(g) && CellsInRange(g)
    ensures var r := HumanDecide(g, player, input);
      (|ValidMoves(g, player)| == 0 ==> r == Chosen(Pass)) &&
      (r.Chosen? && r.move != Pass ==> ValidMove(g, r.move.row, r.move.col, player) && r.move in ValidMoves(g, player)) &&
      (r == Chosen(Pass) ==> |ValidMoves(g, player)| == 0) &&
      (r.Overflowed? ==> |ValidMoves(g, player)| > 0 && exists k :: 0 <= k < |input| && input[k].Overflow?)
  {
    HumanMovesAgree(g, player);
    FirstAcceptedSpec(input, HumanMoves(g, player));
  }

  method DecideMove(board: array2<int>, currentPlayer: int, input: seq<Entry>) returns (decision: Decision)
    requires board.Length0 >= Size && board.Length1 >= Size
    ensures decision == HumanDecide(ArrayGrid(board), currentPlayer, input)
  {
    var validMoves := GetValidMoves(board, currentPlayer);
    if |validMoves| == 0 {
      return Chosen(Pass);
    }
    var k := 0;
    while k < |input|
      invariant 0 <= k <= |input|
      invariant FirstAccepted(input[k..], validMoves) == FirstAccepted(input, validMoves)
    {
      assert input[k..][1..] == input[k + 1..];
      var e := input[k];
      k := k + 1;
      if e.Malformed? {
        continue;
      }
      if e.Overflow? {
        return Overflowed;
      }
      var row, col := e.row, e.col;
      if row == -1 && col == -1 {
        if |validMoves| > 0 {
          continue;
        }
        return Chosen(Pos(row, col));
      }
      if row < 0 || row >= Size || col < 0 || col >= Size {
        continue;
      }
      if Pos(row, col) !in validMoves {
        continue;
      }
      return Chosen(Pos(row, col));
    }
    return Waiting;
  }
}
