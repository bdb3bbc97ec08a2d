/** The 6x6 Othello rules engine: a pure model of the grid (legality by flanking in eight
    directions, placement with flipping, the row-major move list, score, winner, game over)
    and the `Board` class over the in-place `int[,]` array, proved against that model. */
module Othello {

  /** Width and height of the board. */
  const Size: int := 6

  /** A board coordinate, the `(int row, int col)` tuple of the program. */
  datatype Pos = Pos(row: int, col: int)

  /** The sentinel move by which a player passes. */
  const Pass: Pos := Pos(-1, -1)

  /** A board position as rows of cells: 0 empty, 1 black, -1 white. */
  type Grid = seq<seq<int>>

  predicate IsGrid(g: Grid)
  {
    |g| == Size && forall r :: 0 <= r < Size ==> |g[r]| == Size
  }

  predicate IsInBoard(row: int, col: int)
  {
    0 <= row < Size && 0 <= col < Size
  }

  /** Every cell holds -1, 0 or 1. */
  predicate CellsInRange(g: Grid)
    requires IsGrid(g)
  {
    forall r, c :: 0 <= r < Size && 0 <= c < Size ==> -1 <= g[r][c] <= 1
  }

  /** The eight directions in the program's order (up, then clockwise). */
  const Directions: seq<(int, int)> :=
    [(-1, 0), (-1, 1), (0, 1), (1, 1), (1, 0), (1, -1), (0, -1), (-1, -1)]

  predicate IsDirection(dr: int, dc: int)
  {
    -1 <= dr <= 1 && -1 <= dc <= 1 && (dr != 0 || dc != 0)
  }

  /** The i-th direction. */
  function Dir(i: int): (d: (int, int))
    requires 0 <= i < |Directions|
    ensures IsDirection(d.0, d.1)
  {
    Directions[i]
  }

  lemma DirectionsDistinct(i: int, j: int)
    requires 0 <= i < |Directions| && 0 <= j < |Directions| && i != j
    ensures Dir(i) != Dir(j)
  {
  }

  /** A measure that shrinks with every step in direction (dr, dc) while on the board. */
  function Room(r: int, c: int, dr: int, dc: int): nat
  {
    if !IsInBoard(r, c) then 0
    else
      (if dr > 0 then Size - r else if dr < 0 then r + 1 else 0) +
      (if dc > 0 then Size - c else if dc < 0 then c + 1 else 0)
  }

  /** The stones of the opponent (-player) met when walking from (r, c) in direction
      (dr, dc): the list `stonesToFlip` collects exactly these. */
  function OpponentRun(g: Grid, r: int, c: int, dr: int, dc: int, player: int): (run: seq<Pos>)
    requires IsGrid(g) && IsDirection(dr, dc)
    ensures forall k :: 0 <= k < |run| ==>
      IsInBoard(run[k].row, run[k].col) && g[run[k].row][run[k].col] == -player
    decreases Room(r, c, dr, dc)
  {
    if IsInBoard(r, c) && g[r][c] == -player then
      [Pos(r, c)] + OpponentRun(g, r + dr, c + dc, dr, dc, player)
    else
      []
  }

  /** The cell where that walk stops: the first one off the board or not an opponent stone. */
  function RunEnd(g: Grid, r: int, c: int, dr: int, dc: int, player: int): (e: Pos)
    requires IsGrid(g) && IsDirection(dr, dc)
    ensures !(IsInBoard(e.row, e.col) && g[e.row][e.col] == -player)
    decreases Room(r, c, dr, dc)
  {
    if IsInBoard(r, c) && g[r][c] == -player then RunEnd(g, r + dr, c + dc, dr, dc, player)
    else Pos(r, c)
  }

  /** One step of the walk over an opponent stone. */
  lemma RunStep(g: Grid, r: int, c: int, dr: int, dc: int, player: int)
    requires IsGrid(g) && IsDirection(dr, dc) && IsInBoard(r, c) && g[r][c] == -player
    ensures OpponentRun(g, r, c, dr, dc, player) == [Pos(r, c)] + OpponentRun(g, r + dr, c + dc, dr, dc, player)
    ensures RunEnd(g, r, c, dr, dc, player) == RunEnd(g, r + dr, c + dc, dr, dc, player)
    ensures Room(r + dr, c + dc, dr, dc) < Room(r, c, dr, dc)
  {
  }

  /** The walk stops at a cell that is off the board or not an opponent stone. */
  lemma RunStop(g: Grid, r: int, c: int, dr: int, dc: int, player: int)
    requires IsGrid(g) && IsDirection(dr, dc) && !(IsInBoard(r, c) && g[r][c] == -player)
    ensures OpponentRun(g, r, c, dr, dc, player) == [] && RunEnd(g, r, c, dr, dc, player) == Pos(r, c)
  {
  }

  /** A stone placed at (row, col) flanks in direction (dr, dc): a non-empty run of opponent
      stones is closed by a stone of the player on the board. */
  predicate Flanks(g: Grid, row: int, col: int, player: int, dr: int, dc: int)
    requires IsGrid(g) && IsDirection(dr, dc)
  {
    var e := RunEnd(g, row + dr, col + dc, dr, dc, player);
    |OpponentRun(g, row + dr, col + dc, dr, dc, player)| > 0 &&
    IsInBoard(e.row, e.col) && g[e.row][e.col] == player
  }

  /** The legality rule: on the board, on an empty cell, and flanking in some direction. */
  predicate ValidMove(g: Grid, row: int, col: int, player: int)
    requires IsGrid(g)
  {
    IsInBoard(row, col) && g[row][col] == 0 &&
    exists i :: 0 <= i < |Directions| && Flanks(g, row, col, player, Dir(i).0, Dir(i).1)
  }

  function SetCell(g: Grid, p: Pos, v: int): (h: Grid)
    requires IsGrid(g) && IsInBoard(p.row, p.col)
    ensures IsGrid(h)
  {
    g[p.row := g[p.row][p.col := v]]
  }

  predicate AllInBoard(cells: seq<Pos>)
  {
    forall k :: 0 <= k < |cells| ==> IsInBoard(cells[k].row, cells[k].col)
  }

  /** Writes v into each of the cells, in order. */
  function SetCells(g: Grid, cells: seq<Pos>, v: int): (h: Grid)
    requires IsGrid(g) && AllInBoard(cells)
    ensures IsGrid(h)
  {
    if cells == [] then g else SetCell(SetCells(g, cells[..|cells| - 1], v), cells[|cells| - 1], v)
  }

  /** FlipStonesInDirection: when the direction flanks, every stone of its run becomes the
      player's. */
  function FlipInDirection(g: Grid, row: int, col: int, player: int, dr: int, dc: int): (h: Grid)
    requires IsGrid(g) && IsDirection(dr, dc)
    ensures IsGrid(h)
  {
    if Flanks(g, row, col, player, dr, dc) then
      SetCells(g, OpponentRun(g, row + dr, col + dc, dr, dc, player), player)
    else g
  }

  /** The flips of the first n directions, applied one after the other as PlaceStone does. */
  function FlipUpTo(g: Grid, row: int, col: int, player: int, n: nat): (h: Grid)
    requires IsGrid(g) && n <= |Directions|
    ensures IsGrid(h)
  {
    if n == 0 then g
    else FlipInDirection(FlipUpTo(g, row, col, player, n - 1), row, col, player, Dir(n - 1).0, Dir(n - 1).1)
  }

  /** The board after a stone of the player is placed at (row, col). */
  function Place(g: Grid, row: int, col: int, player: int): (h: Grid)
    requires IsGrid(g) && IsInBoard(row, col)
    ensures IsGrid(h)
  {
    FlipUpTo(SetCell(g, Pos(row, col), player), row, col, player, |Directions|)
  }

  /** (r, c) lies on the ray that leaves (row, col) in direction (dr, dc), past (row, col). */
  predicate OnRay(row: int, col: int, dr: int, dc: int, r: int, c: int)
  {
    Sign(r - row) == dr && Sign(c - col) == dc && (dr != 0 && dc != 0 ==> Abs(r - row) == Abs(c - col))
  }

  function Sign(x: int): int
  {
    if x > 0 then 1 else if x < 0 then -1 else 0
  }

  function Abs(x: int): int
  {
    if x < 0 then -x else x
  }

  /** (r, c) is a stone that one of the first n directions flanks and turns over. */
  predicate FlippedBefore(g: Grid, row: int, col: int, player: int, r: int, c: int, n: nat)
    requires IsGrid(g) && n <= |Directions|
  {
    n > 0 &&
    (FlippedBefore(g, row, col, player, r, c, n - 1) ||
     (Flanks(g, row, col, player, Dir(n - 1).0, Dir(n - 1).1) &&
      Pos(r, c) in OpponentRun(g, row + Dir(n - 1).0, col + Dir(n - 1).1, Dir(n - 1).0, Dir(n - 1).1, player)))
  }

  /** (r, c) is a stone that placing at (row, col) turns over. */
  predicate Flipped(g: Grid, row: int, col: int, player: int, r: int, c: int)
    requires IsGrid(g)
  {
    FlippedBefore(g, row, col, player, r, c, |Directions|)
  }

  /** Every stone of a run, and the cell where it stops, lie on the ray from (row, col),
      provided the walk starts one step past (row, col) or past a cell already on the ray. */
  lemma {:induction false} RunOnRay(g: Grid, row: int, col: int, dr: int, dc: int, player: int, r: int, c: int)
    requires IsGrid(g) && IsDirection(dr, dc)
    requires (r - dr == row && c - dc == col) || OnRay(row, col, dr, dc, r - dr, c - dc)
    ensures forall p :: p in OpponentRun(g, r, c, dr, dc, player) ==> OnRay(row, col, dr, dc, p.row, p.col)
    ensures OnRay(row, col, dr, dc, RunEnd(g, r, c, dr, dc, player).row, RunEnd(g, r, c, dr, dc, player).col)
    decreases Room(r, c, dr, dc)
  {
    RayStep(row, col, dr, dc, r, c);
    if IsInBoard(r, c) && g[r][c] == -player {
      RunStep(g, r, c, dr, dc, player);
      RunOnRay(g, row, col, dr, dc, player, r + dr, c + dc);
      var tail := OpponentRun(g, r + dr, c + dc, dr, dc, player);
      forall p | p in [Pos(r, c)] + tail ensures OnRay(row, col, dr, dc, p.row, p.col) {
        if p != Pos(r, c) {
          assert p in tail;
        }
      }
    } else {
      RunStop(g, r, c, dr, dc, player);
    }
  }

  /** One step further along a direction stays on its ray. */
  lemma RayStep(row: int, col: int, dr: int, dc: int, r: int, c: int)
    requires IsDirection(dr, dc)
    requires (r - dr == row && c - dc == col) || OnRay(row, col, dr, dc, r - dr, c - dc)
    ensures OnRay(row, col, dr, dc, r, c)
  {
  }

  /** A run, and where it stops, depend only on the cells of its ray. */
  lemma {:induction false} RunFrame(g: Grid, h: Grid, row: int, col: int, dr: int, dc: int, player: int, r: int, c: int)
    requires IsGrid(g) && IsGrid(h) && IsDirection(dr, dc)
    requires (r - dr == row && c - dc == col) || OnRay(row, col, dr, dc, r - dr, c - dc)
    requires forall x, y :: IsInBoard(x, y) && OnRay(row, col, dr, dc, x, y) ==> g[x][y] == h[x][y]
    ensures OpponentRun(g, r, c, dr, dc, player) == OpponentRun(h, r, c, dr, dc, player)
    ensures RunEnd(g, r, c, dr, dc, player) == RunEnd(h, r, c, dr, dc, player)
    decreases Room(r, c, dr, dc)
  {
    CellFrame(g, h, row, col, dr, dc, r, c);
    if IsInBoard(r, c) && g[r][c] == -player {
      RunStep(g, r, c, dr, dc, player);
      RunStep(h, r, c, dr, dc, player);
      RunFrame(g, h, row, col, dr, dc, player, r + dr, c + dc);
    } else {
      RunStop(g, r, c, dr, dc, player);
      RunStop(h, r, c, dr, dc, player);
    }
  }

  /** The next cell of the walk lies on the ray, so it holds the same on both boards. */
  lemma CellFrame(g: Grid, h: Grid, row: int, col: int, dr: int, dc: int, r: int, c: int)
    requires IsGrid(g) && IsGrid(h) && IsDirection(dr, dc)
    requires (r - dr == row && c - dc == col) || OnRay(row, col, dr, dc, r - dr, c - dc)
    requires forall x, y :: IsInBoard(x, y) && OnRay(row, col, dr, dc, x, y) ==> g[x][y] == h[x][y]
    ensures OnRay(row, col, dr, dc, r, c)
    ensures IsInBoard(r, c) ==> g[r][c] == h[r][c]
  {
    RayStep(row, col, dr, dc, r, c);
  }

  /** Whether a direction flanks, and which stones it turns over, depend only on its ray. */
  lemma FlanksFrame(g: Grid, h: Grid, row: int, col: int, player: int, dr: int, dc: int)
    requires IsGrid(g) && IsGrid(h) && IsDirection(dr, dc)
    requires forall x, y :: IsInBoard(x, y) && OnRay(row, col, dr, dc, x, y) ==> g[x][y] == h[x][y]
    ensures Flanks(g, row, col, player, dr, dc) == Flanks(h, row, col, player, dr, dc)
    ensures OpponentRun(g, row + dr, col + dc, dr, dc, player) == OpponentRun(h, row + dr, col + dc, dr, dc, player)
  {
    RunFrame(g, h, row, col, dr, dc, player, row + dr, col + dc);
    EndFrame(g, h, row, col, player, dr, dc);
  }

  /** The cell where the run of a direction stops holds the same on both boards. */
  lemma EndFrame(g: Grid, h: Grid, row: int, col: int, player: int, dr: int, dc: int)
    requires IsGrid(g) && IsGrid(h) && IsDirection(dr, dc)
    requires forall x, y :: IsInBoard(x, y) && OnRay(row, col, dr, dc, x, y) ==> g[x][y] == h[x][y]
    ensures var e := RunEnd(g, row + dr, col + dc, dr, dc, player);
      IsInBoard(e.row, e.col) ==> g[e.row][e.col] == h[e.row][e.col]
  {
    RunOnRay(g, row, col, dr, dc, player, row + dr, col + dc);
  }

  lemma {:induction false} SetCellsEffect(g: Grid, cells: seq<Pos>, v: int, r: int, c: int)
    requires IsGrid(g) && AllInBoard(cells) && IsInBoard(r, c)
    ensures SetCells(g, cells, v)[r][c] == if Pos(r, c) in cells then v else g[r][c]
  {
    if cells != [] {
      var init := cells[..|cells| - 1];
      SetCellsEffect(g, init, v, r, c);
      assert cells == init + [cells[|cells| - 1]];
    }
  }

  lemma FlipInDirectionAt(g: Grid, row: int, col: int, player: int, dr: int, dc: int, r: int, c: int)
    requires IsGrid(g) && IsDirection(dr, dc) && IsInBoard(r, c)
    ensures FlipInDirection(g, row, col, player, dr, dc)[r][c] ==
      if Flanks(g, row, col, player, dr, dc) && Pos(r, c) in OpponentRun(g, row + dr, col + dc, dr, dc, player)
      then player else g[r][c]
  {
    if Flanks(g, row, col, player, dr, dc) {
      SetCellsEffect(g, OpponentRun(g, row + dr, col + dc, dr, dc, player), player, r, c);
    }
  }

  /** A cell on the ray of direction m is not turned over by any direction before it. */
  lemma {:induction false} NotFlippedOffRay(g: Grid, row: int, col: int, player: int, n: nat, m: int, x: int, y: int)
    requires IsGrid(g) && n <= m < |Directions|
    requires OnRay(row, col, Dir(m).0, Dir(m).1, x, y)
    ensures !FlippedBefore(g, row, col, player, x, y, n)
  {
    if n > 0 {
      NotFlippedOffRay(g, row, col, player, n - 1, m, x, y);
      OffRayNotInRun(g, row, col, player, n - 1, m, x, y);
      NotFlippedStep(g, row, col, player, n, x, y);
    }
  }

  /** A cell that the first n - 1 directions leave alone and that is not in the run of
      direction n - 1 is not turned over by the first n. */
  lemma NotFlippedStep(g: Grid, row: int, col: int, player: int, n: nat, x: int, y: int)
    requires IsGrid(g) && 0 < n <= |Directions|
    requires !FlippedBefore(g, row, col, player, x, y, n - 1)
    requires Pos(x, y) !in OpponentRun(g, row + Dir(n - 1).0, col + Dir(n - 1).1, Dir(n - 1).0, Dir(n - 1).1, player)
    ensures !FlippedBefore(g, row, col, player, x, y, n)
  {
  }

  /** A cell on the ray of direction m is in no run of another direction j. */
  lemma OffRayNotInRun(g: Grid, row: int, col: int, player: int, j: int, m: int, x: int, y: int)
    requires IsGrid(g) && 0 <= j < m < |Directions|
    requires OnRay(row, col, Dir(m).0, Dir(m).1, x, y)
    ensures Pos(x, y) !in OpponentRun(g, row + Dir(j).0, col + Dir(j).1, Dir(j).0, Dir(j).1, player)
  {
    var d := Dir(j);
    RunOnRay(g, row, col, d.0, d.1, player, row + d.0, col + d.1);
    DirectionsDistinct(j, m);
  }

  /** The flips of the first n directions leave the ray of direction n untouched. */
  lemma RayUntouched(g: Grid, row: int, col: int, player: int, n: nat)
    requires IsGrid(g) && n < |Directions|
    requires forall x, y :: IsInBoard(x, y) ==>
      FlipUpTo(g, row, col, player, n)[x][y] == if FlippedBefore(g, row, col, player, x, y, n) then player else g[x][y]
    ensures forall x, y :: IsInBoard(x, y) && OnRay(row, col, Dir(n).0, Dir(n).1, x, y) ==>
      FlipUpTo(g, row, col, player, n)[x][y] == g[x][y]
  {
    forall x, y | IsInBoard(x, y) && OnRay(row, col, Dir(n).0, Dir(n).1, x, y)
      ensures FlipUpTo(g, row, col, player, n)[x][y] == g[x][y]
    {
      NotFlippedOffRay(g, row, col, player, n, n, x, y);
    }
  }

  /** After the first n directions, a cell is the player's if one of them turned it over, and
      is otherwise unchanged: the directions do not interfere, because their rays are disjoint. */
  lemma {:induction false} FlipUpToAt(g: Grid, row: int, col: int, player: int, n: nat)
    requires IsGrid(g) && n <= |Directions|
    ensures forall r, c :: IsInBoard(r, c) ==>
      FlipUpTo(g, row, col, player, n)[r][c] == if FlippedBefore(g, row, col, player, r, c, n) then player else g[r][c]
  {
    if n > 0 {
      FlipUpToAt(g, row, col, player, n - 1);
      var h := FlipUpTo(g, row, col, player, n - 1);
      var (dr, dc) := Dir(n - 1);
      RayUntouched(g, row, col, player, n - 1);
      FlanksFrame(h, g, row, col, player, dr, dc);
      forall r, c | IsInBoard(r, c)
        ensures FlipUpTo(g, row, col, player, n)[r][c] ==
          if FlippedBefore(g, row, col, player, r, c, n) then player else g[r][c]
      {
        FlipInDirectionAt(h, row, col, player, dr, dc, r, c);
      }
    }
  }

  /** A turned-over cell held an opponent stone and is not the placed cell. */
  lemma {:induction false} FlippedIsOpponent(g: Grid, row: int, col: int, player: int, r: int, c: int, n: nat)
    requires IsGrid(g) && n <= |Directions|
    requires FlippedBefore(g, row, col, player, r, c, n)
    ensures IsInBoard(r, c) && g[r][c] == -player && (r != row || c != col)
  {
    var (dr, dc) := Dir(n - 1);
    if FlippedBefore(g, row, col, player, r, c, n - 1) {
      FlippedIsOpponent(g, row, col, player, r, c, n - 1);
    } else {
      var run := OpponentRun(g, row + dr, col + dc, dr, dc, player);
      var k :| 0 <= k < |run| && run[k] == Pos(r, c);
      RunOnRay(g, row, col, dr, dc, player, row + dr, col + dc);
    }
  }

  /** Two boards on which every direction flanks alike and turns over the same stones. */
  lemma {:induction false} FlippedFrame(g: Grid, h: Grid, row: int, col: int, player: int, r: int, c: int, n: nat)
    requires IsGrid(g) && IsGrid(h) && n <= |Directions|
    requires forall j :: 0 <= j < n ==>
      Flanks(g, row, col, player, Dir(j).0, Dir(j).1) == Flanks(h, row, col, player, Dir(j).0, Dir(j).1) &&
      OpponentRun(g, row + Dir(j).0, col + Dir(j).1, Dir(j).0, Dir(j).1, player)
        == OpponentRun(h, row + Dir(j).0, col + Dir(j).1, Dir(j).0, Dir(j).1, player)
    ensures FlippedBefore(g, row, col, player, r, c, n) == FlippedBefore(h, row, col, player, r, c, n)
  {
    if n > 0 {
      FlippedFrame(g, h, row, col, player, r, c, n - 1);
    }
  }

  /** Placing at (row, col): the placed cell becomes the player's, so do exactly the opponent
      stones on the flanked rays, and every other cell keeps its value. */
  lemma PlaceEffect(g: Grid, row: int, col: int, player: int, r: int, c: int)
    requires IsGrid(g) && IsInBoard(row, col) && IsInBoard(r, c)
    ensures Place(g, row, col, player)[r][c] ==
      if r == row && c == col then player
      else if Flipped(g, row, col, player, r, c) then player
      else g[r][c]
    ensures Flipped(g, row, col, player, r, c) ==> g[r][c] == -player && (r != row || c != col)
  {
    var g1 := SetCell(g, Pos(row, col), player);
    forall j | 0 <= j < |Directions|
      ensures Flanks(g1, row, col, player, Dir(j).0, Dir(j).1) == Flanks(g, row, col, player, Dir(j).0, Dir(j).1)
      ensures OpponentRun(g1, row + Dir(j).0, col + Dir(j).1, Dir(j).0, Dir(j).1, player)
           == OpponentRun(g, row + Dir(j).0, col + Dir(j).1, Dir(j).0, Dir(j).1, player)
    {
      FlanksFrame(g1, g, row, col, player, Dir(j).0, Dir(j).1);
    }
    FlippedFrame(g, g1, row, col, player, r, c, |Directions|);
    FlipUpToAt(g1, row, col, player, |Directions|);
    if Flipped(g, row, col, player, r, c) {
      FlippedIsOpponent(g, row, col, player, r, c, |Directions|);
    }
  }

  /** The directions never turn over the stone on (row, col) itself. */
  lemma FlipUpToKeepsOrigin(g: Grid, row: int, col: int, player: int, n: nat)
    requires IsGrid(g) && IsInBoard(row, col) && n <= |Directions|
    ensures FlipUpTo(g, row, col, player, n)[row][col] == g[row][col]
  {
    FlipUpToAt(g, row, col, player, n);
    if FlippedBefore(g, row, col, player, row, col, n) {
      FlippedIsOpponent(g, row, col, player, row, col, n);
    }
  }

  /** A placed stone keeps every cell in {-1, 0, 1}, and only a player 1 or -1 can move. */
  lemma ValidMoveByStone(g: Grid, row: int, col: int, player: int)
    requires IsGrid(g) && CellsInRange(g) && ValidMove(g, row, col, player)
    ensures player == 1 || player == -1
  {
    var i :| 0 <= i < |Directions| && Flanks(g, row, col, player, Dir(i).0, Dir(i).1);
  }

  lemma PlaceKeepsRange(g: Grid, row: int, col: int, player: int)
    requires IsGrid(g) && CellsInRange(g) && ValidMove(g, row, col, player)
    ensures CellsInRange(Place(g, row, col, player))
  {
    ValidMoveByStone(g, row, col, player);
    forall r, c | 0 <= r < Size && 0 <= c < Size
      ensures -1 <= Place(g, row, col, player)[r][c] <= 1
    {
      PlaceEffect(g, row, col, player, r, c);
    }
  }

  /** The empty cells of a position. */
  ghost function EmptyCells(g: Grid): set<Pos>
    requires IsGrid(g)
  {
    set r, c | 0 <= r < Size && 0 <= c < Size && g[r][c] == 0 :: Pos(r, c)
  }

  /** A legal placement fills exactly the cell played: flipped stones were not empty. */
  lemma PlaceFillsOneCell(g: Grid, row: int, col: int, player: int)
    requires IsGrid(g) && CellsInRange(g) && ValidMove(g, row, col, player)
    ensures EmptyCells(Place(g, row, col, player)) == EmptyCells(g) - {Pos(row, col)}
    ensures |EmptyCells(Place(g, row, col, player))| == |EmptyCells(g)| - 1
  {
    ValidMoveByStone(g, row, col, player);
    var h := Place(g, row, col, player);
    forall p | p in EmptyCells(h) ensures p in EmptyCells(g) - {Pos(row, col)} {
      PlaceEffect(g, row, col, player, p.row, p.col);
    }
    forall p | p in EmptyCells(g) - {Pos(row, col)} ensures p in EmptyCells(h) {
      PlaceEffect(g, row, col, player, p.row, p.col);
    }
    assert Pos(row, col) in EmptyCells(g);
  }

  /** Row-major order of two cells. */
  predicate Before(p: Pos, q: Pos)
  {
    p.row < q.row || (p.row == q.row && p.col < q.col)
  }

  /** Row-major order, strictly: so no move is listed twice. */
  predicate RowMajor(moves: seq<Pos>)
  {
    forall a, b :: 0 <= a < b < |moves| ==> Before(moves[a], moves[b])
  }

  lemma RowMajorConcat(a: seq<Pos>, b: seq<Pos>)
    requires RowMajor(a) && RowMajor(b)
    requires forall i, j :: 0 <= i < |a| && 0 <= j < |b| ==> Before(a[i], b[j])
    ensures RowMajor(a + b)
  {
    forall x, y | 0 <= x < y < |a + b| ensures Before((a + b)[x], (a + b)[y]) {
      if x >= |a| {
        assert (a + b)[x] == b[x - |a|] && (a + b)[y] == b[y - |a|];
      } else if y >= |a| {
        assert (a + b)[x] == a[x] && (a + b)[y] == b[y - |a|];
      }
    }
  }

  /** The cells (r, 0), ..., (r, k - 1) that ok accepts, left to right. */
  function RowCells(ok: (int, int) -> bool, r: int, k: nat): seq<Pos>
  {
    if k == 0 then []
    else RowCells(ok, r, k - 1) + (if ok(r, k - 1) then [Pos(r, k - 1)] else [])
  }

  /** The cells of the first rows rows that ok accepts, in row-major order: the scan of
      rows then columns that GetValidMoves does. */
  function Cells(ok: (int, int) -> bool, rows: nat): seq<Pos>
  {
    if rows == 0 then []
    else Cells(ok, rows - 1) + RowCells(ok, rows - 1, Size)
  }

  lemma {:induction false} RowCellsExact(ok: (int, int) -> bool, r: int, k: nat)
    ensures forall p :: p in RowCells(ok, r, k) <==> p.row == r && 0 <= p.col < k && ok(p.row, p.col)
    ensures RowMajor(RowCells(ok, r, k))
  {
    if k > 0 {
      RowCellsExact(ok, r, k - 1);
      var init := RowCells(ok, r, k - 1);
      var last: seq<Pos> := if ok(r, k - 1) then [Pos(r, k - 1)] else [];
      assert RowCells(ok, r, k) == init + last;
      forall p: Pos ensures p in init + last <==> p.row == r && 0 <= p.col < k && ok(p.row, p.col) {
        assert p in init + last <==> p in init || p in last;
        if p.row == r && p.col == k - 1 {
          assert p == Pos(r, k - 1);
        }
      }
      forall i, j | 0 <= i < |init| && 0 <= j < |last| ensures Before(init[i], last[j]) {
        assert init[i] in init;
      }
      RowMajorConcat(init, last);
    }
  }

  /** The scan lists exactly the accepted cells of the first rows rows, each once, in
      row-major order. */
  lemma {:induction false} CellsExact(ok: (int, int) -> bool, rows: nat)
    ensures forall p :: p in Cells(ok, rows) <==> 0 <= p.row < rows && 0 <= p.col < Size && ok(p.row, p.col)
    ensures RowMajor(Cells(ok, rows))
  {
    if rows > 0 {
      CellsExact(ok, rows - 1);
      RowCellsExact(ok, rows - 1, Size);
      var init := Cells(ok, rows - 1);
      var last := RowCells(ok, rows - 1, Size);
      forall p: Pos ensures p in init + last <==> 0 <= p.row < rows && 0 <= p.col < Size && ok(p.row, p.col) {
        assert p in init + last <==> p in init || p in last;
      }
      forall i, j | 0 <= i < |init| && 0 <= j < |last| ensures Before(init[i], last[j]) {
        assert init[i] in init && last[j] in last;
      }
      RowMajorConcat(init, last);
    }
  }

  /** The legality test of the player on a position, as a test on cells. */
  function MoveMask(g: Grid, player: int): (int, int) -> bool
    requires IsGrid(g)
  {
    (r, c) => ValidMove(g, r, c, player)
  }

  /** The legal moves of the player in row r among its first k columns, left to right. */
  function RowMoves(g: Grid, player: int, r: int, k: nat): seq<Pos>
    requires IsGrid(g)
  {
    if k == 0 then []
    else RowMoves(g, player, r, k - 1) + (if ValidMove(g, r, k - 1, player) then [Pos(r, k - 1)] else [])
  }

  /** The legal moves of the player in the first rows rows, in row-major order: the list
      GetValidMoves builds. */
  function ValidMovesUpTo(g: Grid, player: int, rows: nat): seq<Pos>
    requires IsGrid(g)
  {
    if rows == 0 then []
    else ValidMovesUpTo(g, player, rows - 1) + RowMoves(g, player, rows - 1, Size)
  }

  function ValidMoves(g: Grid, player: int): seq<Pos>
    requires IsGrid(g)
  {
    ValidMovesUpTo(g, player, Size)
  }

  lemma {:induction false} RowMovesAsCells(g: Grid, player: int, r: int, k: nat)
    requires IsGrid(g)
    ensures RowMoves(g, player, r, k) == RowCells(MoveMask(g, player), r, k)
  {
    if k > 0 {
      RowMovesAsCells(g, player, r, k - 1);
      var ok := MoveMask(g, player);
      assert ok(r, k - 1) == ValidMove(g, r, k - 1, player);
      assert RowCells(ok, r, k) == RowCells(ok, r, k - 1) + (if ok(r, k - 1) then [Pos(r, k - 1)] else []);
    }
  }

  /** The list is the scan of the board with the legality test. */
  lemma {:induction false} ValidMovesAsCells(g: Grid, player: int, rows: nat)
    requires IsGrid(g)
    ensures ValidMovesUpTo(g, player, rows) == Cells(MoveMask(g, player), rows)
  {
    if rows > 0 {
      ValidMovesAsCells(g, player, rows - 1);
      RowMovesAsCells(g, player, rows - 1, Size);
      var ok := MoveMask(g, player);
      assert ValidMovesUpTo(g, player, rows) == ValidMovesUpTo(g, player, rows - 1) + RowMoves(g, player, rows - 1, Size);
      assert Cells(ok, rows) == Cells(ok, rows - 1) + RowCells(ok, rows - 1, Size);
    }
  }

  /** GetValidMoves lists exactly the legal cells, in row-major order, without repetition. */
  lemma ValidMovesExact(g: Grid, player: int)
    requires IsGrid(g)
    ensures forall p :: p in ValidMoves(g, player) <==> ValidMove(g, p.row, p.col, player)
    ensures RowMajor(ValidMoves(g, player))
  {
    var ok := MoveMask(g, player);
    ValidMovesAsCells(g, player, Size);
    CellsExact(ok, Size);
    forall p: Pos ensures p in ValidMoves(g, player) <==> ValidMove(g, p.row, p.col, player) {
      assert ok(p.row, p.col) == ValidMove(g, p.row, p.col, player);
    }
  }

  /** Every entry of the list is a legal move. */
  lemma ValidMoveAt(g: Grid, player: int, k: int)
    requires IsGrid(g) && 0 <= k < |ValidMoves(g, player)|
    ensures ValidMove(g, ValidMoves(g, player)[k].row, ValidMoves(g, player)[k].col, player)
  {
    ValidMovesExact(g, player);
    assert ValidMoves(g, player)[k] in ValidMoves(g, player);
  }

  /** Neither player can move. */
  predicate GameOver(g: Grid)
    requires IsGrid(g)
  {
    |ValidMoves(g, 1)| == 0 && |ValidMoves(g, -1)| == 0
  }

  /** Every legal move is on the list. */
  lemma ValidMoveListed(g: Grid, player: int, r: int, c: int)
    requires IsGrid(g) && ValidMove(g, r, c, player)
    ensures Pos(r, c) in ValidMoves(g, player)
  {
    ValidMovesExact(g, player);
    assert ValidMove(g, Pos(r, c).row, Pos(r, c).col, player);
  }

  lemma NoMovesEmpty(g: Grid, player: int)
    requires IsGrid(g) && |ValidMoves(g, player)| == 0
    ensures forall r, c :: !ValidMove(g, r, c, player)
  {
    forall r, c ensures !ValidMove(g, r, c, player) {
      if ValidMove(g, r, c, player) {
        ValidMoveListed(g, player, r, c);
      }
    }
  }

  /** A player has an empty move list exactly when no cell is a legal move for them. */
  lemma NoMoves(g: Grid, player: int)
    requires IsGrid(g)
    ensures |ValidMoves(g, player)| == 0 <==> forall r, c :: !ValidMove(g, r, c, player)
  {
    if |ValidMoves(g, player)| > 0 {
      ValidMoveAt(g, player, 0);
    } else {
      NoMovesEmpty(g, player);
    }
  }

  lemma GameOverExact(g: Grid)
    requires IsGrid(g)
    ensures GameOver(g) <==> forall r, c :: !ValidMove(g, r, c, 1) && !ValidMove(g, r, c, -1)
  {
    NoMoves(g, 1);
    NoMoves(g, -1);
  }

  function RowSum(row: seq<int>): int
  {
    if row == [] then 0 else RowSum(row[..|row| - 1]) + row[|row| - 1]
  }

  function SumRows(rows: seq<seq<int>>): int
  {
    if rows == [] then 0 else SumRows(rows[..|rows| - 1]) + RowSum(rows[|rows| - 1])
  }

  /** The sum of all cells: positive when black leads. */
  function Score(g: Grid): int
  {
    SumRows(g)
  }

  /** The sign of the score: 1 black, -1 white, 0 draw. */
  function Winner(g: Grid): int
  {
    var score := Score(g);
    if score > 0 then 1 else if score < 0 then -1 else 0
  }

  function RowCount(row: seq<int>, v: int): nat
  {
    if row == [] then 0 else RowCount(row[..|row| - 1], v) + (if row[|row| - 1] == v then 1 else 0)
  }

  /** The number of cells holding v. */
  function Count(rows: seq<seq<int>>, v: int): nat
  {
    if rows == [] then 0 else Count(rows[..|rows| - 1], v) + RowCount(rows[|rows| - 1], v)
  }

  lemma {:induction false} RowSumIsDifference(row: seq<int>)
    requires forall k :: 0 <= k < |row| ==> -1 <= row[k] <= 1
    ensures RowSum(row) == RowCount(row, 1) - RowCount(row, -1)
  {
    if row != [] {
      RowSumIsDifference(row[..|row| - 1]);
    }
  }

  lemma {:induction false} SumRowsIsDifference(rows: seq<seq<int>>)
    requires forall r, k :: 0 <= r < |rows| && 0 <= k < |rows[r]| ==> -1 <= rows[r][k] <= 1
    ensures SumRows(rows) == Count(rows, 1) - Count(rows, -1)
  {
    if rows != [] {
      SumRowsIsDifference(rows[..|rows| - 1]);
      RowSumIsDifference(rows[|rows| - 1]);
    }
  }

  /** The score is the number of black stones minus the number of white stones, so the
      winner is the colour with more stones. */
  lemma ScoreIsStoneDifference(g: Grid)
    requires IsGrid(g) && CellsInRange(g)
    ensures Score(g) == Count(g, 1) - Count(g, -1)
    ensures Winner(g) == 1 <==> Count(g, 1) > Count(g, -1)
    ensures Winner(g) == -1 <==> Count(g, 1) < Count(g, -1)
    ensures Winner(g) == 0 <==> Count(g, 1) == Count(g, -1)
  {
    SumRowsIsDifference(g);
  }

  /** The starting position: white at (2,2) and (3,3), black at (2,3) and (3,2). */
  function InitialCell(r: int, c: int): int
  {
    if (r == 2 && c == 2) || (r == 3 && c == 3) then -1
    else if (r == 2 && c == 3) || (r == 3 && c == 2) then 1
    else 0
  }

  function InitialGrid(): Grid
  {
    seq(Size, r => seq(Size, c => InitialCell(r, c)))
  }

  lemma InitialInRange()
    ensures IsGrid(InitialGrid()) && CellsInRange(InitialGrid())
  {
  }

  /** In the starting position black can move, so the game is not over: (1,2) flanks the
      white stone at (2,2) against the black one at (3,2). */
  lemma InitialNotOver()
    ensures IsGrid(InitialGrid()) && !GameOver(InitialGrid())
  {
    var g := InitialGrid();
    assert g[2][2] == -1 && g[3][2] == 1 && g[1][2] == 0;
    assert OpponentRun(g, 3, 2, 1, 0, 1) == [];
    assert OpponentRun(g, 2, 2, 1, 0, 1) == [Pos(2, 2)];
    assert RunEnd(g, 2, 2, 1, 0, 1) == Pos(3, 2);
    assert Flanks(g, 1, 2, 1, 1, 0);
    assert ValidMove(g, 1, 2, 1) by {
      assert Dir(4) == (1, 0);
    }
    ValidMovesExact(g, 1);
    assert Pos(1, 2) in ValidMoves(g, 1);
  }

  lemma RowSumSnoc(row: seq<int>, x: int)
    ensures RowSum(row + [x]) == RowSum(row) + x
  {
    assert (row + [x])[..|row|] == row;
  }

  lemma SumRowsSnoc(rows: seq<seq<int>>, row: seq<int>)
    ensures SumRows(rows + [row]) == SumRows(rows) + RowSum(row)
  {
    assert (rows + [row])[..|rows|] == rows;
  }

  lemma RowSumOfSix(x: int, y: int, u: int, v: int, w: int, t: int)
    ensures RowSum([x, y, u, v, w, t]) == x + y + u + v + w + t
  {
    assert [x, y, u, v, w, t] == [x, y, u, v, w] + [t];
    assert [x, y, u, v, w] == [x, y, u, v] + [w];
    assert [x, y, u, v] == [x, y, u] + [v];
    assert [x, y, u] == [x, y] + [u];
    assert [x, y] == [x] + [y];
    assert [x] == [] + [x];
    RowSumSnoc([], x);
    RowSumSnoc([x], y);
    RowSumSnoc([x, y], u);
    RowSumSnoc([x, y, u], v);
    RowSumSnoc([x, y, u, v], w);
    RowSumSnoc([x, y, u, v, w], t);
  }

  /** The starting position is level. */
  lemma InitialScore()
    ensures Score(InitialGrid()) == 0 && Winner(InitialGrid()) == 0
  {
    var z: seq<int> := [0, 0, 0, 0, 0, 0];
    var a: seq<int> := [0, 0, -1, 1, 0, 0];
    var b: seq<int> := [0, 0, 1, -1, 0, 0];
    RowSumOfSix(0, 0, 0, 0, 0, 0);
    RowSumOfSix(0, 0, -1, 1, 0, 0);
    RowSumOfSix(0, 0, 1, -1, 0, 0);
    var g := InitialGrid();
    assert g[0] == z && g[1] == z && g[4] == z && g[5] == z;
    assert g[2] == a && g[3] == b;
    assert g == [z, z, a, b, z] + [z];
    assert [z, z, a, b, z] == [z, z, a, b] + [z];
    assert [z, z, a, b] == [z, z, a] + [b];
    assert [z, z, a] == [z, z] + [a];
    assert [z, z] == [z] + [z];
    assert [z] == [] + [z];
    SumRowsSnoc([], z);
    SumRowsSnoc([z], z);
    SumRowsSnoc([z, z], a);
    SumRowsSnoc([z, z, a], b);
    SumRowsSnoc([z, z, a, b], z);
    SumRowsSnoc([z, z, a, b, z], z);
  }

  /** The first 6x6 cells of an array, as a grid. */
  function ArrayGrid(a: array2<int>): (g: Grid)
    requires a.Length0 >= Size && a.Length1 >= Size
    reads a
    ensures IsGrid(g)
    ensures forall r, c :: 0 <= r < Size && 0 <= c < Size ==> g[r][c] == a[r, c]
  {
    seq(Size, r reads a requires 0 <= r < Size => seq(Size, c reads a requires 0 <= c < Size => a[r, c]))
  }

  lemma GridExt(g: Grid, h: Grid)
    requires IsGrid(g) && IsGrid(h)
    requires forall r, c :: 0 <= r < Size && 0 <= c < Size ==> g[r][c] == h[r][c]
    ensures g == h
  {
    forall r | 0 <= r < Size ensures g[r] == h[r] {
      assert forall c :: 0 <= c < Size ==> g[r][c] == h[r][c];
    }
  }

  /** A fresh 6x6 array holding the first 6x6 cells of src: the copy loops of both copying
      constructors and of GetBoardCopy. */
  method CopyCells(src: array2<int>) returns (dst: array2<int>)
    requires src.Length0 >= Size && src.Length1 >= Size
    ensures fresh(dst) && dst.Length0 == Size && dst.Length1 == Size
    ensures ArrayGrid(dst) == ArrayGrid(src)
  {
    dst := new int[Size, Size];
    for i := 0 to Size
      invariant forall r, c :: 0 <= r < i && 0 <= c < Size ==> dst[r, c] == src[r, c]
    {
      for j := 0 to Size
        invariant forall r, c :: 0 <= r < i && 0 <= c < Size ==> dst[r, c] == src[r, c]
        invariant forall c :: 0 <= c < j ==> dst[i, c] == src[i, c]
      {
        dst[i, j] := src[i, j];
      }
    }
    GridExt(ArrayGrid(dst), ArrayGrid(src));
  }

  /** The game board: a 6x6 array of cells updated in place. */
  class Board {
    const cells: array2<int>

    predicate Valid()
      reads this
    {
      cells.Length0 == Size && cells.Length1 == Size
    }

    /** The position the array holds. */
    function View(): (g: Grid)
      requires Valid()
      reads this, cells
      ensures IsGrid(g)
    {
      ArrayGrid(cells)
    }

    /** A new game: empty apart from the four centre stones. */
    constructor ()
      ensures Valid() && fresh(cells)
      ensures View() == InitialGrid()
    {
      cells := new int[Size, Size]((r, c) => 0);
      new;
      cells[2, 2] := -1;
      cells[2, 3] := 1;
      cells[3, 2] := 1;
      cells[3, 3] := -1;
      assert forall r, c :: 0 <= r < Size && 0 <= c < Size ==> cells[r, c] == InitialCell(r, c);
      GridExt(View(), InitialGrid());
    }

    /** The copy constructor: an independent array with the same cells. */
    constructor Copy(other: Board)
      requires other.Valid()
      ensures Valid() && fresh(cells)
      ensures View() == other.View()
    {
      var copy := CopyCells(other.cells);
      cells := copy;
    }

    /** The constructor from an `int[,]`: its first 6x6 cells are copied. */
    constructor FromArray(a: array2<int>)
      requires a.Length0 >= Size && a.Length1 >= Size
      ensures Valid() && fresh(cells)
      ensures View() == ArrayGrid(a)
    {
      var copy := CopyCells(a);
      cells := copy;
    }

    /** GetBoardCopy: a fresh array with the same cells. */
    method GetBoardCopy() returns (copy: array2<int>)
      requires Valid()
      ensures fresh(copy) && copy.Length0 == Size && copy.Length1 == Size
      ensures ArrayGrid(copy) == View()
    {
      copy := CopyCells(cells);
    }

    function GetCell(row: int, col: int): (v: int)
      requires Valid() && IsInBoard(row, col)
      reads this, cells
      ensures v == View()[row][col]
    {
      cells[row, col]
    }

    /** The assignment `_board[r, c] = v`. */
    method SetCellAt(p: Pos, v: int)
      requires Valid() && IsInBoard(p.row, p.col)
      modifies cells
      ensures View() == SetCell(old(View()), p, v)
    {
      cells[p.row, p.col] := v;
      GridExt(View(), SetCell(old(View()), p, v));
    }

    /** The walk of FlipStonesInDirection: from (r, c) over opponent stones, collecting them,
        up to the first cell that is off the board or not the opponent's. */
    method WalkRun(r0: int, c0: int, player: int, dr: int, dc: int) returns (stones: seq<Pos>, r: int, c: int)
      requires Valid() && IsDirection(dr, dc)
      ensures stones == OpponentRun(View(), r0, c0, dr, dc, player)
      ensures Pos(r, c) == RunEnd(View(), r0, c0, dr, dc, player)
    {
      ghost var g := View();
      r, c := r0, c0;
      stones := [];
      while IsInBoard(r, c) && GetCell(r, c) == -player
        invariant stones + OpponentRun(g, r, c, dr, dc, player) == OpponentRun(g, r0, c0, dr, dc, player)
        invariant RunEnd(g, r, c, dr, dc, player) == RunEnd(g, r0, c0, dr, dc, player)
        decreases Room(r, c, dr, dc)
      {
        RunStep(g, r, c, dr, dc, player);
        ghost var rest := OpponentRun(g, r + dr, c + dc, dr, dc, player);
        assert stones + ([Pos(r, c)] + rest) == (stones + [Pos(r, c)]) + rest;
        stones := stones + [Pos(r, c)];
        r := r + dr;
        c := c + dc;
      }
      RunStop(g, r, c, dr, dc, player);
      assert stones + [] == stones;
    }

    /** The flip loop of FlipStonesInDirection: writes v into each listed cell in turn. */
    method SetCellsAt(ps: seq<Pos>, v: int)
      requires Valid() && AllInBoard(ps)
      modifies cells
      ensures View() == SetCells(old(View()), ps, v)
    {
      for k := 0 to |ps|
        invariant View() == SetCells(old(View()), ps[..k], v)
      {
        assert ps[..k + 1][..k] == ps[..k];
        SetCellAt(ps[k], v);
      }
      assert ps[..|ps|] == ps;
    }

    /** Walks from the neighbour of (row, col) in direction (dr, dc) over opponent stones and
        reports whether a stone of the player closes the run; when actuallyFlip is set and it
        does, the run is turned over. With actuallyFlip unset the board is left alone. */
    method FlipStonesInDirection(row: int, col: int, player: int, dr: int, dc: int, actuallyFlip: bool)
      returns (canFlip: bool)
      requires Valid() && IsDirection(dr, dc)
      modifies if actuallyFlip then {cells} else {}
      ensures canFlip == Flanks(old(View()), row, col, player, dr, dc)
      ensures View() == if actuallyFlip then FlipInDirection(old(View()), row, col, player, dr, dc) else old(View())
    {
      var stonesToFlip, r, c := WalkRun(row + dr, col + dc, player, dr, dc);
      var hasOpponent := |stonesToFlip| > 0;
      canFlip := hasOpponent && IsInBoard(r, c) && cells[r, c] == player;
      if canFlip && actuallyFlip {
        SetCellsAt(stonesToFlip, player);
      }
    }

    method CanFlip(row: int, col: int, player: int, dr: int, dc: int) returns (can: bool)
      requires Valid() && IsDirection(dr, dc)
      ensures can == Flanks(View(), row, col, player, dr, dc)
    {
      can := FlipStonesInDirection(row, col, player, dr, dc, false);
    }

    /** Turns over the run flanked in direction (dr, dc) for the colour on (row, col). */
    method FlipStones(row: int, col: int, dr: int, dc: int)
      requires Valid() && IsInBoard(row, col) && IsDirection(dr, dc)
      modifies cells
      ensures View() == FlipInDirection(old(View()), row, col, old(View())[row][col], dr, dc)
    {
      var _ := FlipStonesInDirection(row, col, cells[row, col], dr, dc, true);
    }

    /** The legality rule on the current position. */
    method IsValidMove(row: int, col: int, player: int) returns (valid: bool)
      requires Valid()
      ensures valid == ValidMove(View(), row, col, player)
    {
      if !IsInBoard(row, col) || cells[row, col] != 0 {
        return false;
      }
      var i := 0;
      while i < |Directions|
        invariant 0 <= i <= |Directions|
        invariant forall j :: 0 <= j < i ==> !Flanks(View(), row, col, player, Dir(j).0, Dir(j).1)
      {
        var can := CanFlip(row, col, player, Dir(i).0, Dir(i).1);
        if can {
          return true;
        }
        i := i + 1;
      }
      return false;
    }

    /** Places a stone when the move is legal and turns over every flanked run; an illegal
        move leaves the board unchanged and reports false. */
    method PlaceStone(row: int, col: int, player: int) returns (placed: bool)
      requires Valid()
      modifies cells
      ensures placed == ValidMove(old(View()), row, col, player)
      ensures View() == if placed then Place(old(View()), row, col, player) else old(View())
    {
      placed := IsValidMove(row, col, player);
      if placed {
        ghost var g1 := SetCell(View(), Pos(row, col), player);
        SetCellAt(Pos(row, col), player);
        FlipAll(row, col, player, g1);
      }
    }

    /** The loop of PlaceStone over the eight directions, after the stone is set. */
    method FlipAll(row: int, col: int, player: int, ghost g1: Grid)
      requires Valid() && IsInBoard(row, col) && IsGrid(g1) && g1[row][col] == player && View() == g1
      modifies cells
      ensures View() == FlipUpTo(g1, row, col, player, |Directions|)
    {
      for i := 0 to |Directions|
        invariant View() == FlipUpTo(g1, row, col, player, i)
      {
        FlipDirection(row, col, player, i, g1);
      }
    }

    /** The body of the loop of PlaceStone: the i-th direction flipped when it flanks. */
    method FlipDirection(row: int, col: int, player: int, i: int, ghost g1: Grid)
      requires Valid() && IsInBoard(row, col) && 0 <= i < |Directions| && IsGrid(g1)
      requires g1[row][col] == player && View() == FlipUpTo(g1, row, col, player, i)
      modifies cells
      ensures View() == FlipUpTo(g1, row, col, player, i + 1)
    {
      ghost var before := View();
      FlipUpToKeepsOrigin(g1, row, col, player, i);
      var d := Dir(i);
      var can := CanFlip(row, col, player, d.0, d.1);
      if can {
        FlipStones(row, col, d.0, d.1);
      }
      assert View() == FlipInDirection(before, row, col, player, d.0, d.1);
    }

    /** The legal moves of the player, scanning rows then columns. */
    method GetValidMoves(player: int) returns (moves: seq<Pos>)
      requires Valid()
      ensures moves == ValidMoves(View(), player)
    {
      ghost var g := View();
      moves := [];
      for i := 0 to Size
        invariant moves == ValidMovesUpTo(g, player, i)
      {
        ghost var before := moves;
        for j := 0 to Size
          invariant moves == before + RowMoves(g, player, i, j)
        {
          var valid := IsValidMove(i, j, player);
          if valid {
            moves := moves + [Pos(i, j)];
          }
        }
      }
    }

    method IsGameOver() returns (over: bool)
      requires Valid()
      ensures over == GameOver(View())
    {
      var black := GetValidMoves(1);
      var white := GetValidMoves(-1);
      over := |black| == 0 && |white| == 0;
    }

    /** The sum of all cells: on a board of stones, black's stones less white's. */
    function GetScore(): (s: int)
      requires Valid()
      reads this, cells
      ensures s == Score(View())
      ensures CellsInRange(View()) ==> s == Count(View(), 1) - Count(View(), -1)
    {
      var g := View();
      if CellsInRange(g) then ScoreIsStoneDifference(g); Score(g) else Score(g)
    }

    /** The sign of the score: on a board of stones, 1 when black holds more stones, -1
        when white does and 0 on equal counts. */
    function GetWinner(): (w: int)
      requires Valid()
      reads this, cells
      ensures w == Winner(View()) && -1 <= w <= 1
      ensures CellsInRange(View()) ==>
        (w == 1 <==> Count(View(), 1) > Count(View(), -1)) &&
        (w == -1 <==> Count(View(), 1) < Count(View(), -1)) &&
        (w == 0 <==> Count(View(), 1) == Count(View(), -1))
    {
      var g := View();
      if CellsInRange(g) then ScoreIsStoneDifference(g); Winner(g) else Winner(g)
    }
  }
}
