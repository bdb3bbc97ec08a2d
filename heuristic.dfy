/** The scripted opponents SimpleAI and SimpleAIVariant: a positional table, the final
    score on a finished board or the mobility difference otherwise, and the move whose
    resulting position scores best, ties broken by a draw. */
module Heuristic {
  import opened Wrappers
  import opened Othello

  /** The positional weights of SimpleAI. */
  const BaseTable: seq<seq<int>> := [
    [ 30, -12,  0,  0, -12,  30],
    [-12, -15, -3, -3, -15, -12],
    [  0,  -3,  0,  0,  -3,   0],
    [  0,  -3,  0,  0,  -3,   0],
    [-12, -15, -3, -3, -15, -12],
    [ 30, -12,  0,  0, -12,  30]
  ]

  lemma BaseTableShape()
    ensures IsGrid(BaseTable)
  {
  }

  // ---------------------------------------------------------------- evaluation

  /** What one cell adds for player. */
  function CellWeight(cell: int, player: int, weight: int): int
  {
    if cell == player then weight else if cell == -player then -weight else 0
  }

  /** The positional term over the first k cells of row r. */
  function RowPositional(g: Grid, player: int, table: Grid, r: int, k: nat): int
    requires IsGrid(g) && IsGrid(table) && 0 <= r < Size && k <= Size
  {
    if k == 0 then 0
    else RowPositional(g, player, table, r, k - 1) + CellWeight(g[r][k - 1], player, table[r][k - 1])
  }

  /** The positional term over the first rows rows. */
  function Positional(g: Grid, player: int, table: Grid, rows: nat): int
    requires IsGrid(g) && IsGrid(table) && rows <= Size
  {
    if rows == 0 then 0
    else Positional(g, player, table, rows - 1) + RowPositional(g, player, table, rows - 1, Size)
  }

  /** The weights of the cells, among the first k of row r, that hold who. */
  function RowWeight(g: Grid, who: int, table: Grid, r: int, k: nat): int
    requires IsGrid(g) && IsGrid(table) && 0 <= r < Size && k <= Size
  {
    if k == 0 then 0
    else RowWeight(g, who, table, r, k - 1) + (if g[r][k - 1] == who then table[r][k - 1] else 0)
  }

  /** The weights of the cells, among the first rows rows, that hold who. */
  function Weight(g: Grid, who: int, table: Grid, rows: nat): int
    requires IsGrid(g) && IsGrid(table) && rows <= Size
  {
    if rows == 0 then 0
    else Weight(g, who, table, rows - 1) + RowWeight(g, who, table, rows - 1, Size)
  }

  lemma {:induction false} RowPositionalIsDifference(g: Grid, player: int, table: Grid, r: int, k: nat)
    requires IsGrid(g) && IsGrid(table) && 0 <= r < Size && k <= Size && player != 0
    ensures RowPositional(g, player, table, r, k) == RowWeight(g, player, table, r, k) - RowWeight(g, -player, table, r, k)
  {
    if k > 0 {
      RowPositionalIsDifference(g, player, table, r, k - 1);
    }
  }

  /** The positional term is the weight of the player's cells minus that of the opponent's;
      empty cells count for nothing. */
  lemma {:induction false} PositionalIsDifference(g: Grid, player: int, table: Grid, rows: nat)
    requires IsGrid(g) && IsGrid(table) && rows <= Size && player != 0
    ensures Positional(g, player, table, rows) == Weight(g, player, table, rows) - Weight(g, -player, table, rows)
  {
    if rows > 0 {
      PositionalIsDifference(g, player, table, rows - 1);
      RowPositionalIsDifference(g, player, table, rows - 1, Size);
    }
  }

  /** EvaluatePosition as a value. */
  function Evaluation(g: Grid, player: int, table: Grid): int
    requires IsGrid(g) && IsGrid(table)
  {
    Positional(g, player, table, Size) +
    if GameOver(g) then Score(g) * player * 100
    else (|ValidMoves(g, player)| - |ValidMoves(g, -player)|) * 5
  }

  lemma NegTimes(a: int, b: int)
    ensures a * -b * 100 == -(a * b * 100)
  {
  }

  /** The evaluation of one colour is the negation of the other's. */
  lemma EvaluationAntisymmetric(g: Grid, player: int, table: Grid)
    requires IsGrid(g) && IsGrid(table) && player != 0
    ensures Evaluation(g, -player, table) == -Evaluation(g, player, table)
  {
    PositionalIsDifference(g, player, table, Size);
    PositionalIsDifference(g, -player, table, Size);
    assert -(-player) == player;
    NegTimes(Score(g), player);
  }

  /** The body of the inner loop: the weight of cell (i, j) added or subtracted. */
  method AddCell(board: Board, player: int, table: array2<int>, i: int, j: int, score: int,
                 ghost g: Grid, ghost t: Grid) returns (next: int)
    requires board.Valid() && table.Length0 >= Size && table.Length1 >= Size && IsInBoard(i, j)
    requires g == board.View() && t == ArrayGrid(table)
    ensures next == score + CellWeight(g[i][j], player, t[i][j])
  {
    next := score;
    var cell := board.GetCell(i, j);
    if cell == player {
      next := next + table[i, j];
    } else if cell == -player {
      next := next - table[i, j];
    }
  }

  /** The inner loop: the cells of row i added to the sum of the rows before it. */
  method RowTerm(board: Board, player: int, table: array2<int>, i: int, score: int,
                 ghost g: Grid, ghost t: Grid) returns (next: int)
    requires board.Valid() && table.Length0 >= Size && table.Length1 >= Size && 0 <= i < Size
    requires g == board.View() && t == ArrayGrid(table)
    requires score == Positional(g, player, t, i)
    ensures next == Positional(g, player, t, i + 1)
  {
    next := score;
    for j := 0 to Size
      invariant next == score + RowPositional(g, player, t, i, j)
    {
      next := AddCell(board, player, table, i, j, next, g, t);
    }
  }

  /** The two loops over the cells. */
  method PositionalTerm(board: Board, player: int, table: array2<int>) returns (score: int)
    requires board.Valid() && table.Length0 >= Size && table.Length1 >= Size
    ensures score == Positional(board.View(), player, ArrayGrid(table), Size)
  {
    ghost var g := board.View();
    ghost var t := ArrayGrid(table);
    score := 0;
    for i := 0 to Size
      invariant score == Positional(g, player, t, i)
    {
      score := RowTerm(board, player, table, i, score, g, t);
    }
  }

  /** The two loops and the terminal or mobility term of EvaluatePosition. */
  method Evaluate(board: Board, player: int, table: array2<int>) returns (score: int)
    requires board.Valid() && table.Length0 >= Size && table.Length1 >= Size
    ensures score == Evaluation(board.View(), player, ArrayGrid(table))
  {
    score := PositionalTerm(board, player, table);
    var over := board.IsGameOver();
    if over {
      var finalScore := board.GetScore() * player;
      score := score + finalScore * 100;
      return;
    }
    var myMoves := board.GetValidMoves(player);
    var oppMoves := board.GetValidMoves(-player);
    score := score + (|myMoves| - |oppMoves|) * 5;
  }

  // ---------------------------------------------------------------- argmax with ties

  /** The running maximum (None before the first move: the `int.MinValue` start) and the
      moves that attain it. */
  datatype Best = Best(maxEval: Option<int>, moves: seq<Pos>)

  function ArgmaxStep(b: Best, m: Pos, v: int): Best
  {
    if b.maxEval.None? || v > b.maxEval.value then Best(Some(v), [m])
    else if v == b.maxEval.value then Best(b.maxEval, b.moves + [m])
    else b
  }

  /** The scan of DecideMove: a larger value restarts the list, an equal one joins it. */
  function ArgmaxScan(moves: seq<Pos>, e: Pos -> int): Best
  {
    if moves == [] then Best(None, [])
    else
      var m := moves[|moves| - 1];
      ArgmaxStep(ArgmaxScan(moves[..|moves| - 1], e), m, e(m))
  }

  /** The scan of one more move is one more step. */
  lemma ArgmaxScanSnoc(moves: seq<Pos>, k: int, e: Pos -> int)
    requires 0 <= k < |moves|
    ensures ArgmaxScan(moves[..k + 1], e) == ArgmaxStep(ArgmaxScan(moves[..k], e), moves[k], e(moves[k]))
  {
    assert moves[..k + 1][..k] == moves[..k];
  }

  /** The scan ends with the largest value of the moves, and its list holds exactly the
      moves that attain it. */
  lemma {:induction false} ArgmaxSpec(moves: seq<Pos>, e: Pos -> int)
    ensures var b := ArgmaxScan(moves, e);
      (b.maxEval.Some? <==> |moves| > 0) &&
      (|moves| > 0 ==> |b.moves| > 0) &&
      (b.maxEval.Some? ==>
        (forall m :: m in moves ==> e(m) <= b.maxEval.value) &&
        (exists m :: m in moves && e(m) == b.maxEval.value) &&
        (forall m :: m in b.moves <==> m in moves && e(m) == b.maxEval.value))
  {
    if moves != [] {
      var init := moves[..|moves| - 1];
      var last := moves[|moves| - 1];
      ArgmaxSpec(init, e);
      assert moves == init + [last];
      assert forall m :: m in moves <==> m in init || m == last;
      var b := ArgmaxScan(init, e);
      if b.maxEval.Some? {
        var w :| w in init && e(w) == b.maxEval.value;
        assert w in moves;
      }
    }
  }

  /** The evaluation, for the player, of the position after the move. */
  function EvalAfter(g: Grid, player: int, table: Grid, m: Pos): int
  {
    if IsGrid(g) && IsGrid(table) && IsInBoard(m.row, m.col) then Evaluation(Place(g, m.row, m.col, player), player, table)
    else 0
  }

  function EvalOf(g: Grid, player: int, table: Grid): Pos -> int
  {
    m => EvalAfter(g, player, table, m)
  }

  /** The move DecideMove returns: pass without a legal move, else the drawn best move. */
  function Decide(g: Grid, player: int, table: Grid, next: nat -> nat): Pos
    requires IsGrid(g)
    requires forall n: nat :: n > 0 ==> next(n) < n
  {
    var moves := ValidMoves(g, player);
    if |moves| == 0 then Pass
    else
      ArgmaxSpec(moves, EvalOf(g, player, table));
      var best := ArgmaxScan(moves, EvalOf(g, player, table)).moves;
      best[next(|best|)]
  }

  /** Pass exactly without a legal move; otherwise a legal move whose resulting position
      evaluates at least as well as that of every legal move. */
  lemma DecideSpec(g: Grid, player: int, table: Grid, next: nat -> nat)
    requires IsGrid(g)
    requires forall n: nat :: n > 0 ==> next(n) < n
    ensures var m := Decide(g, player, table, next);
      (m == Pass <==> |ValidMoves(g, player)| == 0) &&
      (m != Pass ==> (m in ValidMoves(g, player) && ValidMove(g, m.row, m.col, player) &&
        forall m' :: m' in ValidMoves(g, player) ==> EvalAfter(g, player, table, m') <= EvalAfter(g, player, table, m)))
  {
    var moves := ValidMoves(g, player);
    ValidMovesExact(g, player);
    var m := Decide(g, player, table, next);
    if |moves| > 0 {
      var e := EvalOf(g, player, table);
      ArgmaxSpec(moves, e);
      var best := ArgmaxScan(moves, e).moves;
      assert m == best[next(|best|)] && m in best;
      assert forall m' :: m' in moves ==> e(m') == EvalAfter(g, player, table, m');
    }
    assert !ValidMove(g, Pass.row, Pass.col, player);
  }

  /** The evaluation of the position after the legal move m, played on a copy. */
  method MoveEval(gameBoard: Board, m: Pos, player: int, table: array2<int>, ghost g: Grid, ghost t: Grid)
    returns (v: int)
    requires gameBoard.Valid() && g == gameBoard.View() && ValidMove(g, m.row, m.col, player)
    requires table.Length0 >= Size && table.Length1 >= Size && t == ArrayGrid(table)
    ensures v == EvalAfter(g, player, t, m)
  {
    var nextBoard := new Board.Copy(gameBoard);
    var _ := nextBoard.PlaceStone(m.row, m.col, player);
    v := Evaluate(nextBoard, player, table);
  }

  /** The tie list of the scan over the legal moves. */
  method BestMoves(gameBoard: Board, validMoves: seq<Pos>, player: int, table: array2<int>) returns (bestMoves: seq<Pos>)
    requires gameBoard.Valid() && validMoves == ValidMoves(gameBoard.View(), player)
    requires table.Length0 >= Size && table.Length1 >= Size
    ensures bestMoves == ArgmaxScan(validMoves, EvalOf(gameBoard.View(), player, ArrayGrid(table))).moves
  {
    ghost var g := gameBoard.View();
    ghost var t := ArrayGrid(table);
    ghost var e := EvalOf(g, player, t);
    var maxEval: Option<int> := None;
    bestMoves := [];
    for k := 0 to |validMoves|
      invariant Best(maxEval, bestMoves) == ArgmaxScan(validMoves[..k], e)
    {
      var m := validMoves[k];
      ValidMoveAt(g, player, k);
      var evaluation := MoveEval(gameBoard, m, player, table, g, t);
      ArgmaxScanSnoc(validMoves, k, e);
      maxEval, bestMoves := Consider(maxEval, bestMoves, m, evaluation);
    }
    assert validMoves[..|validMoves|] == validMoves;
  }

  /** The body of the scan: a larger value starts a new tie list, an equal one joins it. */
  method Consider(maxEval: Option<int>, bestMoves: seq<Pos>, m: Pos, evaluation: int)
    returns (maxEval': Option<int>, bestMoves': seq<Pos>)
    ensures Best(maxEval', bestMoves') == ArgmaxStep(Best(maxEval, bestMoves), m, evaluation)
  {
    maxEval', bestMoves' := maxEval, bestMoves;
    if maxEval.None? || evaluation > maxEval.value {
      maxEval' := Some(evaluation);
      bestMoves' := [m];
    } else if evaluation == maxEval.value {
      bestMoves' := bestMoves + [m];
    }
  }

  /** SimpleAI's DecideMove with the table it evaluates with; the board is only read. */
  method ArgmaxMove(board: array2<int>, currentPlayer: int, table: array2<int>, next: nat -> nat) returns (move: Pos)
    requires board.Length0 >= Size && board.Length1 >= Size
    requires table.Length0 >= Size && table.Length1 >= Size
    requires forall n: nat :: n > 0 ==> next(n) < n
    ensures move == Decide(ArrayGrid(board), currentPlayer, ArrayGrid(table), next)
  {
    ghost var g := ArrayGrid(board);
    var gameBoard := new Board.FromArray(board);
    assert gameBoard.View() == g;
    var validMoves := gameBoard.GetValidMoves(currentPlayer);
    if |validMoves| == 0 {
      return Pass;
    }
    var bestMoves := BestMoves(gameBoard, validMoves, currentPlayer, table);
    ArgmaxSpec(validMoves, EvalOf(g, currentPlayer, ArrayGrid(table)));
    move := bestMoves[next(|bestMoves|)];
  }

  /** A fresh array holding the base table. */
  method NewBaseTable() returns (a: array2<int>)
    ensures fresh(a) && a.Length0 == Size && a.Length1 == Size
    ensures ArrayGrid(a) == BaseTable
  {
    BaseTableShape();
    a := new int[Size, Size]((r, c) => if 0 <= r < Size && 0 <= c < Size then BaseTable[r][c] else 0);
    GridExt(ArrayGrid(a), BaseTable);
  }

  // ---------------------------------------------------------------- the variant

  /** The variant's move: after the base choice the draw u may override it with a drawn
      legal move. */
  function VariantDecide(g: Grid, player: int, table: Grid, randomFactor: real,
                         next: nat -> nat, u: real, next2: nat -> nat): Pos
    requires IsGrid(g)
    requires forall n: nat :: n > 0 ==> next(n) < n
    requires forall n: nat :: n > 0 ==> next2(n) < n
  {
    var moves := ValidMoves(g, player);
    if u < randomFactor && |moves| > 0 then moves[next2(|moves|)]
    else Decide(g, player, table, next)
  }

  /** Pass exactly without a legal move; otherwise a legal move, and without the override
      one that is best for the variant's own table. */
  lemma VariantDecideSpec(g: Grid, player: int, table: Grid, randomFactor: real,
                          next: nat -> nat, u: real, next2: nat -> nat)
    requires IsGrid(g)
    requires forall n: nat :: n > 0 ==> next(n) < n
    requires forall n: nat :: n > 0 ==> next2(n) < n
    ensures var m := VariantDecide(g, player, table, randomFactor, next, u, next2);
      (m == Pass <==> |ValidMoves(g, player)| == 0) &&
      (m != Pass ==> m in ValidMoves(g, player) && ValidMove(g, m.row, m.col, player)) &&
      (u >= randomFactor ==> (m == Decide(g, player, table, next) &&
        forall m' :: m' in ValidMoves(g, player) ==> EvalAfter(g, player, table, m') <= EvalAfter(g, player, table, m)))
  {
    var moves := ValidMoves(g, player);
    ValidMovesExact(g, player);
    DecideSpec(g, player, table, next);
    if u < randomFactor && |moves| > 0 {
      assert moves[next2(|moves|)] in moves;
    }
  }

  /** Every variant weight lies within five of the base weight of its cell. */
  predicate WithinFive(variant: Grid, base: Grid)
    requires IsGrid(variant) && IsGrid(base)
  {
    forall r, c :: 0 <= r < Size && 0 <= c < Size ==> base[r][c] - 5 <= variant[r][c] <= base[r][c] + 5
  }

  class SimpleAI {
    const positionValues: array2<int>

    predicate Valid()
      reads this, positionValues
    {
      positionValues.Length0 == Size && positionValues.Length1 == Size &&
      ArrayGrid(positionValues) == BaseTable
    }

    constructor ()
      ensures Valid() && fresh(positionValues)
    {
      var table := NewBaseTable();
      positionValues := table;
    }

    method DecideMove(board: array2<int>, currentPlayer: int, next: nat -> nat) returns (move: Pos)
      requires Valid() && board.Length0 >= Size && board.Length1 >= Size
      requires forall n: nat :: n > 0 ==> next(n) < n
      ensures move == Decide(ArrayGrid(board), currentPlayer, BaseTable, next)
    {
      move := ArgmaxMove(board, currentPlayer, positionValues, next);
    }

    method EvaluatePosition(board: Board, player: int) returns (score: int)
      requires Valid() && board.Valid()
      ensures score == Evaluation(board.View(), player, BaseTable)
    {
      score := Evaluate(board, player, positionValues);
    }
  }

  class SimpleAIVariant {
    const positionValues: array2<int>
    const positionValuesVariant: array2<int>
    const randomFactor: real

    predicate Valid()
      reads this, positionValues, positionValuesVariant
    {
      positionValues.Length0 == Size && positionValues.Length1 == Size &&
      positionValuesVariant.Length0 == Size && positionValuesVariant.Length1 == Size &&
      positionValues != positionValuesVariant &&
      ArrayGrid(positionValues) == BaseTable
    }

    /** The clone of the base table with draw(i, j), the draw `Next(-5, 6)`, added to
        cell (i, j); the base table itself stays as it is. */
    constructor (randomFactor: real, draw: (int, int) -> int)
      requires forall i, j :: -5 <= draw(i, j) <= 5
      ensures Valid() && fresh(positionValues) && fresh(positionValuesVariant)
      ensures this.randomFactor == randomFactor
      ensures forall r, c :: 0 <= r < Size && 0 <= c < Size ==>
        ArrayGrid(positionValuesVariant)[r][c] == BaseTable[r][c] + draw(r, c)
      ensures WithinFive(ArrayGrid(positionValuesVariant), BaseTable)
    {
      var base := NewBaseTable();
      var variant := CopyCells(base);
      for i := 0 to Size
        invariant ArrayGrid(base) == BaseTable
        invariant forall r, c :: 0 <= r < Size && 0 <= c < Size ==>
          variant[r, c] == BaseTable[r][c] + (if r < i then draw(r, c) else 0)
      {
        for j := 0 to Size
          invariant ArrayGrid(base) == BaseTable
          invariant forall r, c :: 0 <= r < Size && 0 <= c < Size ==>
            variant[r, c] == BaseTable[r][c] + (if r < i || (r == i && c < j) then draw(r, c) else 0)
        {
          variant[i, j] := variant[i, j] + draw(i, j);
        }
      }
      positionValues := base;
      positionValuesVariant := variant;
      this.randomFactor := randomFactor;
    }

    /** The base choice with the variant table (the overridden evaluation), then with
        u < randomFactor a drawn legal move instead. */
    method DecideMove(board: array2<int>, currentPlayer: int, next: nat -> nat, u: real, next2: nat -> nat)
      returns (move: Pos)
      requires Valid() && board.Length0 >= Size && board.Length1 >= Size
      requires forall n: nat :: n > 0 ==> next(n) < n
      requires forall n: nat :: n > 0 ==> next2(n) < n
      ensures move == VariantDecide(ArrayGrid(board), currentPlayer, ArrayGrid(positionValuesVariant),
                                    randomFactor, next, u, next2)
    {
      move := ArgmaxMove(board, currentPlayer, positionValuesVariant, next);
      if u < randomFactor {
        var gameBoard := new Board.FromArray(board);
        var validMoves := gameBoard.GetValidMoves(currentPlayer);
        if |validMoves| > 0 {
          move := validMoves[next2(|validMoves|)];
        }
      }
    }

    method EvaluatePosition(board: Board, player: int) returns (score: int)
      requires Valid() && board.Valid()
      ensures score == Evaluation(board.View(), player, ArrayGrid(positionValuesVariant))
    {
      score := Evaluate(board, player, positionValuesVariant);
    }
  }
}
