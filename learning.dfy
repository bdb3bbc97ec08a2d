/** The tabular Q-learning player: the board-to-key encoder, epsilon-greedy move choice with
    a tolerance tie set, epsilon decay with a floor, the bounded replay buffer and the batch
    temporal-difference update that averages the samples of each state. */
module Learning {
  import opened Wrappers
  import opened Text
  import opened Othello
  import opened Experience
  import opened ValueStore

  /** Two Q values closer than this tie. */
  const Tolerance: real := 0.0001

  /** UpdateEpsilon never lowers epsilon below this. */
  const EpsilonFloor: real := 0.01

  function AbsReal(x: real): real
  {
    if x < 0.0 then -x else x
  }

  function MaxReal(x: real, y: real): real
  {
    if x >= y then x else y
  }

  // ---------------------------------------------------------------- state key

  /** The texts of the cells of a row. */
  function CellTexts(row: seq<int>): (texts: seq<string>)
    ensures |texts| == |row| && forall k :: 0 <= k < |row| ==> texts[k] == IntText(row[k])
  {
    if row == [] then [] else CellTexts(row[..|row| - 1]) + [IntText(row[|row| - 1])]
  }

  /** A row joined with ','. */
  function RowKey(row: seq<int>): string
  {
    Join(',', CellTexts(row))
  }

  function RowKeys(rows: seq<seq<int>>): (keys: seq<string>)
    ensures |keys| == |rows| && forall k :: 0 <= k < |rows| ==> keys[k] == RowKey(rows[k])
  {
    if rows == [] then [] else RowKeys(rows[..|rows| - 1]) + [RowKey(rows[|rows| - 1])]
  }

  lemma CellTextsSnoc(row: seq<int>, j: int)
    requires 0 <= j < |row|
    ensures CellTexts(row[..j + 1]) == CellTexts(row[..j]) + [IntText(row[j])]
  {
    assert row[..j + 1][..j] == row[..j];
  }

  lemma RowKeysSnoc(rows: seq<seq<int>>, i: int)
    requires 0 <= i < |rows|
    ensures RowKeys(rows[..i + 1]) == RowKeys(rows[..i]) + [RowKey(rows[i])]
  {
    assert rows[..i + 1][..i] == rows[..i];
  }

  /** The inner loop of GetBoardState: the cells of row i, joined with ','. */
  method RowState(board: Board, i: int, ghost g: Grid) returns (key: string)
    requires board.Valid() && g == board.View() && 0 <= i < Size
    ensures key == RowKey(g[i])
  {
    var cells: seq<string> := [];
    for j := 0 to Size
      invariant cells == CellTexts(g[i][..j])
    {
      var cell := board.GetCell(i, j);
      CellTextsSnoc(g[i], j);
      cells := cells + [IntText(cell)];
    }
    assert g[i][..Size] == g[i];
    key := Join(',', cells);
  }

  /** GetBoardState: the rows joined with ';'. */
  function StateKey(g: Grid): string
  {
    Join(';', RowKeys(g))
  }

  lemma CellTextsFree(row: seq<int>, ch: char)
    requires ch == ',' || ch == ';'
    ensures AllFree(ch, CellTexts(row))
  {
    forall k | 0 <= k < |row| ensures Free(ch, CellTexts(row)[k]) {
      var s := IntText(row[k]);
      assert forall i :: 0 <= i < |s| ==> IsDigit(s[i]) || s[i] == '-';
    }
  }

  lemma RowKeysFree(rows: seq<seq<int>>)
    ensures AllFree(';', RowKeys(rows))
  {
    forall k | 0 <= k < |rows| ensures Free(';', RowKeys(rows)[k]) {
      CellTextsFree(rows[k], ';');
      JoinFree(';', ',', CellTexts(rows[k]));
    }
  }

  /** The key is six ';'-separated rows of six ','-separated cell texts. */
  lemma StateKeyLayout(g: Grid)
    requires IsGrid(g)
    ensures Split(';', StateKey(g)) == RowKeys(g) && |RowKeys(g)| == Size
    ensures forall r :: 0 <= r < Size ==> Split(',', RowKeys(g)[r]) == CellTexts(g[r]) && |CellTexts(g[r])| == Size
  {
    RowKeysFree(g);
    SplitJoin(';', RowKeys(g));
    forall r | 0 <= r < Size ensures Split(',', RowKeys(g)[r]) == CellTexts(g[r]) {
      CellTextsFree(g[r], ',');
      SplitJoin(',', CellTexts(g[r]));
    }
  }

  /** Two positions have the same key exactly when all 36 cells agree. */
  lemma StateKeyInjective(g: Grid, h: Grid)
    requires IsGrid(g) && IsGrid(h)
    ensures StateKey(g) == StateKey(h) <==> g == h
  {
    if StateKey(g) == StateKey(h) {
      StateKeyLayout(g);
      StateKeyLayout(h);
      forall r, c | 0 <= r < Size && 0 <= c < Size ensures g[r][c] == h[r][c] {
        assert CellTexts(g[r]) == CellTexts(h[r]);
        assert CellTexts(g[r])[c] == IntText(g[r][c]) && CellTexts(h[r])[c] == IntText(h[r][c]);
        IntTextInjective(g[r][c], h[r][c]);
      }
      GridExt(g, h);
    }
  }

  // ---------------------------------------------------------------- move choice

  /** The Q value the store holds for the position after the move. */
  function QAfter(cache: map<string, real>, g: Grid, player: int, m: Pos): real
  {
    if IsGrid(g) && IsInBoard(m.row, m.col) then Lookup(cache, StateKey(Place(g, m.row, m.col, player)))
    else 0.0
  }

  /** The Q value of each move on g. */
  function QOf(cache: map<string, real>, g: Grid, player: int): Pos -> real
  {
    m => QAfter(cache, g, player, m)
  }

  /** The running maximum (None before the first move: the `double.MinValue` start) and the
      moves kept as tied with it. */
  datatype Scan = Scan(maxQ: Option<real>, best: seq<Pos>)

  /** The scan of DecideMove over the moves: a larger Q restarts the tie list, a Q within
      Tolerance of the maximum joins it. */
  function TieScan(moves: seq<Pos>, q: Pos -> real): Scan
  {
    if moves == [] then Scan(None, [])
    else
      var m := moves[|moves| - 1];
      ScanStep(TieScan(moves[..|moves| - 1], q), m, q(m))
  }

  /** One move with value qm looked at by the scan. */
  function ScanStep(s: Scan, m: Pos, qm: real): Scan
  {
    if s.maxQ.None? || qm > s.maxQ.value then Scan(Some(qm), [m])
    else if AbsReal(qm - s.maxQ.value) < Tolerance then Scan(s.maxQ, s.best + [m])
    else s
  }

  /** The scan of one more move is one more step. */
  lemma TieScanSnoc(moves: seq<Pos>, k: int, q: Pos -> real)
    requires 0 <= k < |moves|
    ensures TieScan(moves[..k + 1], q) == ScanStep(TieScan(moves[..k], q), moves[k], q(moves[k]))
  {
    assert moves[..k + 1][..k] == moves[..k];
  }

  /** The scan ends with the largest Q of all moves, and every move it keeps is one of them
      and within Tolerance of that maximum; it keeps at least one move. */
  lemma {:induction false} TieScanSpec(moves: seq<Pos>, q: Pos -> real)
    ensures var s := TieScan(moves, q);
      (s.maxQ.Some? <==> |moves| > 0) &&
      (|moves| > 0 ==> |s.best| > 0) &&
      (s.maxQ.Some? ==>
        (forall m :: m in moves ==> q(m) <= s.maxQ.value) &&
        (exists m :: m in moves && q(m) == s.maxQ.value) &&
        (forall m :: m in s.best ==> m in moves && s.maxQ.value - q(m) < Tolerance))
  {
    if moves != [] {
      var init := moves[..|moves| - 1];
      var last := moves[|moves| - 1];
      TieScanSpec(init, q);
      assert moves == init + [last];
      assert forall m :: m in moves <==> m in init || m == last;
      var s := TieScan(init, q);
      if s.maxQ.Some? {
        var w :| w in init && q(w) == s.maxQ.value;
        assert w in moves;
      }
    }
  }

  /** The move DecideMove returns: pass without a legal move; else with u < epsilon the
      drawn legal move; else the drawn move of the tie list. next(n) is the draw
      `Random.Next(n)`. */
  function Choose(cache: map<string, real>, g: Grid, player: int, epsilon: real, u: real, next: nat -> nat): Pos
    requires IsGrid(g)
    requires forall n: nat :: n > 0 ==> next(n) < n
  {
    var moves := ValidMoves(g, player);
    if |moves| == 0 then Pass
    else if u < epsilon then moves[next(|moves|)]
    else
      TieScanSpec(moves, QOf(cache, g, player));
      var best := TieScan(moves, QOf(cache, g, player)).best;
      best[next(|best|)]
  }

  /** Pass exactly when there is no legal move; otherwise a legal move, and when exploiting
      one whose Q is within Tolerance of every legal move's Q. */
  lemma ChooseSpec(cache: map<string, real>, g: Grid, player: int, epsilon: real, u: real, next: nat -> nat)
    requires IsGrid(g)
    requires forall n: nat :: n > 0 ==> next(n) < n
    ensures var m := Choose(cache, g, player, epsilon, u, next);
      (m == Pass <==> |ValidMoves(g, player)| == 0) &&
      (m != Pass ==> m in ValidMoves(g, player) && ValidMove(g, m.row, m.col, player)) &&
      (m != Pass && u >= epsilon ==>
        forall m' :: m' in ValidMoves(g, player) ==>
          QAfter(cache, g, player, m') - QAfter(cache, g, player, m) < Tolerance)
  {
    var moves := ValidMoves(g, player);
    ValidMovesExact(g, player);
    var m := Choose(cache, g, player, epsilon, u, next);
    if |moves| > 0 {
      if u < epsilon {
        assert m == moves[next(|moves|)];
        assert m in moves;
      } else {
        var q := QOf(cache, g, player);
        TieScanSpec(moves, q);
        var best := TieScan(moves, q).best;
        assert m == best[next(|best|)] && m in best;
        assert forall m' :: m' in moves ==> q(m') == QAfter(cache, g, player, m');
      }
      assert !ValidMove(g, Pass.row, Pass.col, player);
    }
  }

  // ---------------------------------------------------------------- epsilon

  /** UpdateEpsilon(d): epsilon times d, but never below the floor. */
  function Decayed(epsilon: real, decayRate: real): real
  {
    MaxReal(epsilon * decayRate, EpsilonFloor)
  }

  lemma DecayedSpec(epsilon: real, decayRate: real)
    ensures Decayed(epsilon, decayRate) >= EpsilonFloor
    ensures Decayed(epsilon, decayRate) >= epsilon * decayRate
    ensures Decayed(epsilon, decayRate) == epsilon * decayRate || Decayed(epsilon, decayRate) == EpsilonFloor
    ensures epsilon >= EpsilonFloor && 0.0 <= decayRate <= 1.0 ==> Decayed(epsilon, decayRate) <= epsilon
  {
  }

  // ---------------------------------------------------------------- replay buffer

  /** The last cap transitions (all of them when there are fewer). */
  function Window(s: seq<Transition>, cap: nat): (w: seq<Transition>)
    ensures |w| == if |s| <= cap then |s| else cap
    ensures w == s[|s| - |w|..]
  {
    if |s| <= cap then s else s[|s| - cap..]
  }

  /** Appending to a full window drops its oldest entry: the Add/RemoveAt(0) step. */
  lemma WindowSnoc(s: seq<Transition>, t: Transition, cap: nat)
    ensures var w := Window(s, cap) + [t];
      Window(s + [t], cap) == if |w| > cap then w[1..] else w
  {
    var w := Window(s, cap) + [t];
    if |s| <= cap {
      assert w == s + [t];
      if |s| == cap {
        assert Window(s + [t], cap) == (s + [t])[1..];
      }
    } else if cap == 0 {
      assert w[1..] == [];
    } else {
      assert Window(s, cap) == s[|s| - cap..];
      assert w[1..] == s[|s| - cap + 1..] + [t];
      assert Window(s + [t], cap) == (s + [t])[|s| + 1 - cap..];
      assert (s + [t])[|s| + 1 - cap..] == s[|s| - cap + 1..] + [t];
    }
  }

  lemma WindowFits(s: seq<Transition>, cap: nat)
    requires |s| <= cap
    ensures Window(s, cap) == s
  {
  }

  // ---------------------------------------------------------------- batch update

  /** newQ of one sample, read against the values before the batch. */
  function Target(cache: map<string, real>, t: Transition, lr: real, gamma: real): real
  {
    var currentQ := Lookup(cache, t.currentState);
    var nextQ := if t.done then 0.0 else Lookup(cache, t.nextState);
    currentQ + lr * (t.reward + gamma * nextQ - currentQ)
  }

  /** The samples drawn with replacement: the i-th is the buffer entry at draw(i, |buffer|). */
  function Sample(buffer: seq<Transition>, draw: (nat, nat) -> nat, n: nat): (batch: seq<Transition>)
    requires |buffer| > 0 || n == 0
    requires forall i: nat, k: nat :: k > 0 ==> draw(i, k) < k
    ensures |batch| == n
    ensures forall i :: 0 <= i < n ==> batch[i] == buffer[draw(i, |buffer|)]
  {
    if n == 0 then [] else Sample(buffer, draw, n - 1) + [buffer[draw(n - 1, |buffer|)]]
  }

  /** The states the batch updates. */
  function States(batch: seq<Transition>): set<string>
  {
    set i | 0 <= i < |batch| :: batch[i].currentState
  }

  /** The sum and number of the targets of the samples of state s. */
  function SumFor(cache: map<string, real>, batch: seq<Transition>, s: string, lr: real, gamma: real): real
  {
    if batch == [] then 0.0
    else
      var t := batch[|batch| - 1];
      SumFor(cache, batch[..|batch| - 1], s, lr, gamma) + (if t.currentState == s then Target(cache, t, lr, gamma) else 0.0)
  }

  function CountFor(batch: seq<Transition>, s: string): nat
  {
    if batch == [] then 0
    else CountFor(batch[..|batch| - 1], s) + (if batch[|batch| - 1].currentState == s then 1 else 0)
  }

  lemma {:induction false} CountForPositive(batch: seq<Transition>, s: string)
    requires s in States(batch)
    ensures CountFor(batch, s) > 0
  {
    var init := batch[..|batch| - 1];
    if batch[|batch| - 1].currentState != s {
      var i :| 0 <= i < |batch| && batch[i].currentState == s;
      assert init[i].currentState == s;
      CountForPositive(init, s);
    }
  }

  /** The values the batch writes: for each state of the batch the arithmetic mean of the
      targets of its samples, and nothing for any other state. */
  function Means(cache: map<string, real>, batch: seq<Transition>, lr: real, gamma: real): (m: map<string, real>)
    ensures m.Keys == States(batch)
  {
    map s | s in States(batch) ::
      (CountForPositive(batch, s); SumFor(cache, batch, s, lr, gamma) / (CountFor(batch, s) as real))
  }

  /** The (sum, count) dictionary the first loop of the update builds. */
  function Aggregate(cache: map<string, real>, batch: seq<Transition>, lr: real, gamma: real): map<string, (real, nat)>
  {
    if batch == [] then map[]
    else
      var a := Aggregate(cache, batch[..|batch| - 1], lr, gamma);
      var t := batch[|batch| - 1];
      var newQ := Target(cache, t, lr, gamma);
      if t.currentState in a then a[t.currentState := (a[t.currentState].0 + newQ, a[t.currentState].1 + 1)]
      else a[t.currentState := (newQ, 1)]
  }

  /** The dictionary holds, for exactly the states of the batch, the sum and the number of
      their samples' targets. */
  lemma AggregateSpec(cache: map<string, real>, batch: seq<Transition>, lr: real, gamma: real)
    ensures Aggregate(cache, batch, lr, gamma).Keys == States(batch)
    ensures forall s :: s in States(batch) ==>
      Aggregate(cache, batch, lr, gamma)[s] == (SumFor(cache, batch, s, lr, gamma), CountFor(batch, s))
    ensures forall s :: s in States(batch) ==> Aggregate(cache, batch, lr, gamma)[s].1 > 0
  {
    AggregateKeys(cache, batch, lr, gamma);
    forall s | s in States(batch)
      ensures Aggregate(cache, batch, lr, gamma)[s] == (SumFor(cache, batch, s, lr, gamma), CountFor(batch, s))
      ensures CountFor(batch, s) > 0
    {
      AggregateAt(cache, batch, s, lr, gamma);
      CountForPositive(batch, s);
    }
  }

  /** The dictionary has an entry for exactly the states of the batch. */
  lemma {:induction false} AggregateKeys(cache: map<string, real>, batch: seq<Transition>, lr: real, gamma: real)
    ensures Aggregate(cache, batch, lr, gamma).Keys == States(batch)
  {
    if batch != [] {
      AggregateKeys(cache, batch[..|batch| - 1], lr, gamma);
      StatesLast(batch);
    }
  }

  /** The entry of a state of the batch is the sum and the number of its samples' targets. */
  lemma {:induction false} AggregateAt(cache: map<string, real>, batch: seq<Transition>, s: string, lr: real, gamma: real)
    requires s in States(batch)
    ensures s in Aggregate(cache, batch, lr, gamma) &&
      Aggregate(cache, batch, lr, gamma)[s] == (SumFor(cache, batch, s, lr, gamma), CountFor(batch, s))
  {
    var init := batch[..|batch| - 1];
    StatesLast(batch);
    AggregateKeys(cache, init, lr, gamma);
    if s in States(init) {
      AggregateAt(cache, init, s, lr, gamma);
      AggregateSeen(cache, batch, s, lr, gamma);
    } else {
      NotInStates(cache, init, s, lr, gamma);
      AggregateFirst(cache, batch, s, lr, gamma);
    }
  }

  /** A state already in the dictionary of all but the last sample keeps its sum and
      count, raised by the last sample when it is that state's. */
  lemma AggregateSeen(cache: map<string, real>, batch: seq<Transition>, s: string, lr: real, gamma: real)
    requires batch != []
    requires var init := batch[..|batch| - 1];
      s in Aggregate(cache, init, lr, gamma) &&
      Aggregate(cache, init, lr, gamma)[s] == (SumFor(cache, init, s, lr, gamma), CountFor(init, s))
    ensures s in Aggregate(cache, batch, lr, gamma) &&
      Aggregate(cache, batch, lr, gamma)[s] == (SumFor(cache, batch, s, lr, gamma), CountFor(batch, s))
  {
  }

  /** A state first seen in the last sample enters with that sample's target and count 1. */
  lemma AggregateFirst(cache: map<string, real>, batch: seq<Transition>, s: string, lr: real, gamma: real)
    requires batch != [] && batch[|batch| - 1].currentState == s
    requires var init := batch[..|batch| - 1];
      s !in Aggregate(cache, init, lr, gamma) && SumFor(cache, init, s, lr, gamma) == 0.0 && CountFor(init, s) == 0
    ensures s in Aggregate(cache, batch, lr, gamma) &&
      Aggregate(cache, batch, lr, gamma)[s] == (SumFor(cache, batch, s, lr, gamma), CountFor(batch, s))
  {
  }

  /** The states of a batch are those of all but its last sample, and the last one's. */
  lemma StatesLast(batch: seq<Transition>)
    requires batch != []
    ensures States(batch) == States(batch[..|batch| - 1]) + {batch[|batch| - 1].currentState}
  {
    var init := batch[..|batch| - 1];
    forall x | x in States(batch) ensures x in States(init) + {batch[|batch| - 1].currentState} {
      var i :| 0 <= i < |batch| && batch[i].currentState == x;
      if i < |batch| - 1 {
        assert init[i].currentState == x;
      }
    }
    forall x | x in States(init) ensures x in States(batch) {
      var i :| 0 <= i < |init| && init[i].currentState == x;
      assert batch[i].currentState == x;
    }
  }

  lemma {:induction false} NotInStates(cache: map<string, real>, batch: seq<Transition>, s: string, lr: real, gamma: real)
    requires s !in States(batch)
    ensures SumFor(cache, batch, s, lr, gamma) == 0.0 && CountFor(batch, s) == 0
  {
    if batch != [] {
      var init := batch[..|batch| - 1];
      NotInStates(cache, init, s, lr, gamma);
    }
  }

  /** sum / count over the dictionary of the batch is the map of means. */
  lemma MeansOfAggregate(cache: map<string, real>, batch: seq<Transition>, lr: real, gamma: real,
                         aggregated: map<string, (real, nat)>, values: map<string, real>)
    requires aggregated == Aggregate(cache, batch, lr, gamma)
    requires values.Keys == aggregated.Keys
    requires forall s :: s in aggregated ==> aggregated[s].1 > 0
    requires forall s :: s in aggregated ==> values[s] == aggregated[s].0 / (aggregated[s].1 as real)
    ensures values == Means(cache, batch, lr, gamma)
  {
    AggregateSpec(cache, batch, lr, gamma);
    var means := Means(cache, batch, lr, gamma);
    forall s | s in States(batch) ensures values[s] == means[s] {
      CountForPositive(batch, s);
    }
  }

  /** A state sampled k times, each with the same target v, is written as v. */
  lemma MeanOfEqualTargets(cache: map<string, real>, batch: seq<Transition>, s: string, lr: real, gamma: real, v: real)
    requires s in States(batch)
    requires forall i :: 0 <= i < |batch| && batch[i].currentState == s ==> Target(cache, batch[i], lr, gamma) == v
    ensures Means(cache, batch, lr, gamma)[s] == v
  {
    SumOfEqualTargets(cache, batch, s, lr, gamma, v);
    RepeatIsProduct(CountFor(batch, s), v);
    CountForPositive(batch, s);
    var k := CountFor(batch, s) as real;
    var sum := SumFor(cache, batch, s, lr, gamma);
    assert sum == k * v;
    assert Means(cache, batch, lr, gamma)[s] == sum / k;
    DivMul(k, v);
    assert sum / k == v;
  }

  lemma DivMul(k: real, v: real)
    requires k > 0.0
    ensures (k * v) / k == v
  {
  }

  /** v added n times. */
  function Repeat(n: nat, v: real): real
  {
    if n == 0 then 0.0 else Repeat(n - 1, v) + v
  }

  lemma {:induction false} RepeatIsProduct(n: nat, v: real)
    ensures Repeat(n, v) == (n as real) * v
  {
    if n > 0 {
      RepeatIsProduct(n - 1, v);
      assert (n as real) * v == ((n - 1) as real) * v + v;
    }
  }

  lemma {:induction false} SumOfEqualTargets(cache: map<string, real>, batch: seq<Transition>, s: string, lr: real, gamma: real, v: real)
    requires forall i :: 0 <= i < |batch| && batch[i].currentState == s ==> Target(cache, batch[i], lr, gamma) == v
    ensures SumFor(cache, batch, s, lr, gamma) == Repeat(CountFor(batch, s), v)
  {
    if batch != [] {
      var init := batch[..|batch| - 1];
      forall i | 0 <= i < |init| && init[i].currentState == s
        ensures Target(cache, init[i], lr, gamma) == v
      {
        assert init[i] == batch[i];
      }
      SumOfEqualTargets(cache, init, s, lr, gamma, v);
    }
  }

  // ---------------------------------------------------------------- the player

  class ReinforcementLearningAI {
    const repo: QValueRepository
    const learningRate: real
    const discountFactor: real
    const intermediateRewardScale: real
    var epsilon: real
    const cornerWeight: real
    const legalMoveWeight: real
    var replayBuffer: seq<Transition>
    const replayBufferSize: nat
    const batchSize: nat

    /** The buffer never holds more than its capacity. */
    predicate Valid()
      reads this
    {
      |replayBuffer| <= replayBufferSize
    }

    /** The configuration values and the stored table are parameters. */
    constructor (rows: seq<(string, real)>, learningRate: real, discountFactor: real, epsilon: real,
                 intermediateRewardScale: real, cornerWeight: real, legalMoveWeight: real,
                 replayBufferSize: nat, batchSize: nat)
      requires DistinctStates(rows)
      ensures Valid() && fresh(repo)
      ensures repo.cache == RowsMap(rows) && repo.table == RowsMap(rows)
      ensures this.learningRate == learningRate && this.discountFactor == discountFactor
      ensures this.epsilon == epsilon && this.intermediateRewardScale == intermediateRewardScale
      ensures this.cornerWeight == cornerWeight && this.legalMoveWeight == legalMoveWeight
      ensures this.replayBufferSize == replayBufferSize && this.batchSize == batchSize
      ensures replayBuffer == []
    {
      repo := new QValueRepository(rows);
      this.learningRate := learningRate;
      this.discountFactor := discountFactor;
      this.epsilon := epsilon;
      this.intermediateRewardScale := intermediateRewardScale;
      this.cornerWeight := cornerWeight;
      this.legalMoveWeight := legalMoveWeight;
      this.replayBufferSize := replayBufferSize;
      this.batchSize := batchSize;
      replayBuffer := [];
    }

    method SetEpsilon(value: real)
      modifies this
      ensures epsilon == value && replayBuffer == old(replayBuffer)
    {
      epsilon := value;
    }

    method UpdateEpsilon(decayRate: real)
      modifies this
      ensures epsilon == Decayed(old(epsilon), decayRate) && replayBuffer == old(replayBuffer)
    {
      epsilon := MaxReal(epsilon * decayRate, EpsilonFloor);
    }

    /** The key of the position on the board, built row by row. */
    method GetBoardState(board: Board) returns (key: string)
      requires board.Valid()
      ensures key == StateKey(board.View())
    {
      ghost var g := board.View();
      var rows: seq<string> := [];
      for i := 0 to Size
        invariant rows == RowKeys(g[..i])
      {
        var row := RowState(board, i, g);
        RowKeysSnoc(g, i);
        rows := rows + [row];
      }
      assert g[..Size] == g;
      key := Join(';', rows);
    }

    /** The move for currentPlayer on the position in the array. u is the draw
        `NextDouble()` in [0, 1) and next(n) the draw `Next(n)`. */
    method DecideMove(board: array2<int>, currentPlayer: int, u: real, next: nat -> nat) returns (move: Pos)
      requires board.Length0 >= Size && board.Length1 >= Size
      requires 0.0 <= u < 1.0
      requires forall n: nat :: n > 0 ==> next(n) < n
      ensures move == Choose(repo.cache, ArrayGrid(board), currentPlayer, epsilon, u, next)
    {
      ghost var g := ArrayGrid(board);
      var gameBoard := new Board.FromArray(board);
      assert gameBoard.View() == g;
      var validMoves := gameBoard.GetValidMoves(currentPlayer);
      if |validMoves| == 0 {
        return Pass;
      }
      if u < epsilon {
        return validMoves[next(|validMoves|)];
      }
      var bestMoves := BestMoves(gameBoard, validMoves, currentPlayer);
      TieScanSpec(validMoves, QOf(repo.cache, g, currentPlayer));
      move := bestMoves[next(|bestMoves|)];
    }

    /** The tie list of the scan of DecideMove over the legal moves. */
    method BestMoves(gameBoard: Board, validMoves: seq<Pos>, player: int) returns (bestMoves: seq<Pos>)
      requires gameBoard.Valid() && validMoves == ValidMoves(gameBoard.View(), player)
      ensures bestMoves == TieScan(validMoves, QOf(repo.cache, gameBoard.View(), player)).best
    {
      ghost var g := gameBoard.View();
      ghost var cache := repo.cache;
      ghost var q := QOf(cache, g, player);
      var maxQ: Option<real> := None;
      bestMoves := [];
      for k := 0 to |validMoves|
        invariant Scan(maxQ, bestMoves) == TieScan(validMoves[..k], q)
      {
        var m := validMoves[k];
        ValidMoveAt(g, player, k);
        var qValue := MoveValue(gameBoard, m, player, g, cache);
        TieScanSnoc(validMoves, k, q);
        maxQ, bestMoves := Consider(maxQ, bestMoves, m, qValue);
      }
      assert validMoves[..|validMoves|] == validMoves;
    }

    /** The stored Q value of the position after the legal move m, played on a copy. */
    method MoveValue(gameBoard: Board, m: Pos, player: int, ghost g: Grid, ghost cache: map<string, real>)
      returns (q: real)
      requires gameBoard.Valid() && g == gameBoard.View() && cache == repo.cache
      requires ValidMove(g, m.row, m.col, player)
      ensures q == QAfter(cache, g, player, m)
    {
      var nextBoard := new Board.Copy(gameBoard);
      var _ := nextBoard.PlaceStone(m.row, m.col, player);
      var nextState := GetBoardState(nextBoard);
      q := repo.GetValue(nextState);
    }

    /** Appends the transitions to the replay buffer, evicting the oldest beyond capacity;
        with fewer than batchSize transitions buffered it stops; otherwise it draws
        batchSize samples with replacement and writes, in one batch, the mean target of each
        sampled state, every target read against the values before the batch. draw(i, n) is
        the i-th draw `Next(n)`; dbOk says whether the table's transaction commits. */
    method BatchUpdateQValues(updates: seq<Transition>, learningRate: real, draw: (nat, nat) -> nat, dbOk: bool)
      returns (committed: bool)
      requires Valid()
      requires forall i: nat, n: nat :: n > 0 ==> draw(i, n) < n
      modifies this, repo
      ensures Valid() && epsilon == old(epsilon)
      ensures replayBuffer == Window(old(replayBuffer) + updates, replayBufferSize)
      ensures |replayBuffer| < batchSize ==>
        committed && repo.cache == old(repo.cache) && repo.table == old(repo.table)
      ensures |replayBuffer| >= batchSize ==>
        var means := Means(old(repo.cache), Sample(replayBuffer, draw, batchSize), learningRate, discountFactor);
        committed == dbOk &&
        repo.cache == Merge(old(repo.cache), means) &&
        repo.table == if dbOk then Merge(old(repo.table), means) else old(repo.table)
    {
      AddToReplayBuffer(updates);
      if |replayBuffer| < batchSize {
        return true;
      }
      var batch := SampleBatch(draw);
      var aggregated := AggregateBatch(batch, learningRate);
      ghost var cache := repo.cache;
      AggregateSpec(cache, batch, learningRate, discountFactor);
      var qValueUpdates := MeanValues(aggregated);
      MeansOfAggregate(cache, batch, learningRate, discountFactor, aggregated, qValueUpdates);
      committed := repo.BatchUpdate(qValueUpdates, dbOk);
    }

    /** The first loop of the update: Add, then RemoveAt(0) when over capacity. */
    method AddToReplayBuffer(updates: seq<Transition>)
      requires Valid()
      modifies this
      ensures Valid() && epsilon == old(epsilon)
      ensures replayBuffer == Window(old(replayBuffer) + updates, replayBufferSize)
    {
      replayBuffer := AppendAll(replayBuffer, updates, replayBufferSize);
    }

    /** batchSize draws with replacement from the buffer. */
    method SampleBatch(draw: (nat, nat) -> nat) returns (batch: seq<Transition>)
      requires |replayBuffer| >= batchSize
      requires forall i: nat, n: nat :: n > 0 ==> draw(i, n) < n
      ensures batch == Sample(replayBuffer, draw, batchSize)
    {
      batch := [];
      for i := 0 to batchSize
        invariant batch == Sample(replayBuffer, draw, i)
      {
        var index := draw(i, |replayBuffer|);
        batch := batch + [replayBuffer[index]];
      }
    }

    /** The (sum, count) of the targets per state, every value read from the store as it is
        before the batch is written. */
    method AggregateBatch(batch: seq<Transition>, learningRate: real) returns (aggregated: map<string, (real, nat)>)
      ensures aggregated == Aggregate(repo.cache, batch, learningRate, discountFactor)
    {
      aggregated := map[];
      for k := 0 to |batch|
        invariant aggregated == Aggregate(repo.cache, batch[..k], learningRate, discountFactor)
      {
        assert batch[..k + 1][..k] == batch[..k];
        var t := batch[k];
        var currentQ := repo.GetValue(t.currentState);
        var nextQ: real;
        if t.done {
          nextQ := 0.0;
        } else {
          nextQ := repo.GetValue(t.nextState);
        }
        var newQ := currentQ + learningRate * (t.reward + discountFactor * nextQ - currentQ);
        assert newQ == Target(repo.cache, t, learningRate, discountFactor);
        if t.currentState in aggregated {
          aggregated := aggregated[t.currentState := (aggregated[t.currentState].0 + newQ, aggregated[t.currentState].1 + 1)];
        } else {
          aggregated := aggregated[t.currentState := (newQ, 1)];
        }
      }
      assert batch[..|batch|] == batch;
    }

    /** Empties the store. */
    method ClearQValueRepository()
      modifies repo
      ensures repo.cache == map[] && repo.table == map[]
    {
      repo.ClearDatabase();
    }
  }

  /** The loop of AddToReplayBuffer on the list: Add, then RemoveAt(0) when over capacity. */
  method AppendAll(start: seq<Transition>, updates: seq<Transition>, cap: nat) returns (buffer: seq<Transition>)
    requires |start| <= cap
    ensures buffer == Window(start + updates, cap)
  {
    buffer := start;
    ghost var seen := start;
    for k := 0 to |updates|
      invariant seen == start + updates[..k]
      invariant buffer == Window(seen, cap)
    {
      WindowSnoc(seen, updates[k], cap);
      PrefixSnoc(start, updates, k);
      seen := seen + [updates[k]];
      buffer := buffer + [updates[k]];
      if |buffer| > cap {
        buffer := buffer[1..];
      }
    }
    assert updates[..|updates|] == updates;
  }

  lemma PrefixSnoc(a: seq<Transition>, b: seq<Transition>, k: int)
    requires 0 <= k < |b|
    ensures a + b[..k + 1] == (a + b[..k]) + [b[k]]
  {
    assert b[..k + 1] == b[..k] + [b[k]];
  }

  /** The body of the scan in DecideMove: a larger value starts a new tie list, a value
      within Tolerance of the maximum joins it. */
  method Consider(maxQ: Option<real>, bestMoves: seq<Pos>, m: Pos, qValue: real)
    returns (maxQ': Option<real>, bestMoves': seq<Pos>)
    ensures Scan(maxQ', bestMoves') == ScanStep(Scan(maxQ, bestMoves), m, qValue)
  {
    maxQ', bestMoves' := maxQ, bestMoves;
    if maxQ.None? || qValue > maxQ.value {
      maxQ' := Some(qValue);
      bestMoves' := [m];
    } else if AbsReal(qValue - maxQ.value) < Tolerance {
      bestMoves' := bestMoves + [m];
    }
  }

  /** The second loop of the update: sum / count for every aggregated state. */
  method MeanValues(aggregated: map<string, (real, nat)>) returns (values: map<string, real>)
    requires forall s :: s in aggregated ==> aggregated[s].1 > 0
    ensures values.Keys == aggregated.Keys
    ensures forall s :: s in aggregated ==> values[s] == aggregated[s].0 / (aggregated[s].1 as real)
  {
    values := map[];
    var pending := aggregated.Keys;
    while pending != {}
      invariant pending <= aggregated.Keys
      invariant values.Keys == aggregated.Keys - pending
      invariant forall s :: s in values ==> values[s] == aggregated[s].0 / (aggregated[s].1 as real)
      decreases |pending|
    {
      var s :| s in pending;
      values := values[s := aggregated[s].0 / (aggregated[s].1 as real)];
      pending := pending - {s};
    }
  }
}
