/** RandomAI: a uniformly drawn legal move. */
module RandomPlayer {
  import opened Othello

  /** DecideMove on the position: pass without a legal move, otherwise the legal move at
      the drawn index next(count), the draw `Next(count)`. The board is only read. */
  function DecideMove(g: Grid, player: int, next: nat -> nat): (m: Pos)
    requires IsGrid(g)
    requires forall n: nat :: n > 0 ==> next(n) < n
    ensures m == Pass <==> |ValidMoves(g, player)| == 0
    ensures m != Pass ==> (ValidMove(g, m.row, m.col, player) &&
      m == ValidMoves(g, player)[next(|ValidMoves(g, player)|)])
  {
    var moves := ValidMoves(g, player);
    ValidMovesExact(g, player);
    if |moves| == 0 then Pass
    else
      assert moves[next(|moves|)] in moves;
      moves[next(|moves|)]
  }
}
