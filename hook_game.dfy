/** src/hooks/useGameLogic.ts: the React version. The state is an immutable
    value replaced on every change, so each operation is a function from the
    old state to the new one (initializeGame is a method because grid
    generation is a loop). A missing wallet account turns every operation
    into a no-op, and every change waits for its transaction, as in main.js.

    Unlike the DOM versions, the hook builds its revealed lists with
    Array(GRID_SIZE).fill(row): every row refers to one and the same row
    array. Its reveal copies the rows before writing, which is what keeps a
    reveal to one cell; RowArrays models the rows as references so that
    this can be stated. */
module HookGame {
  import opened Board
  import opened Odds
  import Rules

  /** A JavaScript array of row arrays: row i of the matrix is the array
      rows[refs[i]], so several rows can be the same array. */
  datatype RowArrays = RowArrays(refs: seq<nat>, rows: seq<seq<bool>>)

  predicate WellFormed(a: RowArrays) {
    forall i :: 0 <= i < |a.refs| ==> a.refs[i] < |a.rows|
  }

  /** The matrix the row arrays show. */
  function View(a: RowArrays): (m: Matrix)
    requires WellFormed(a)
    ensures |m| == |a.refs| && forall i :: 0 <= i < |m| ==> m[i] == a.rows[a.refs[i]]
  {
    seq(|a.refs|, i requires 0 <= i < |a.refs| => a.rows[a.refs[i]])
  }

  /** No two rows are the same array. */
  predicate DistinctRows(a: RowArrays) {
    forall i, j :: 0 <= i < j < |a.refs| ==> a.refs[i] != a.refs[j]
  }

  /** Array(GRID_SIZE).fill(Array(GRID_SIZE).fill(false)): one all-false
      row array, used as every row. */
  function SharedFalseRows(): (a: RowArrays)
    ensures WellFormed(a) && View(a) == Empty()
  {
    RowArrays(seq(GridSize, _ => 0), [seq(GridSize, _ => false)])
  }

  /** rows.map(r => [...r]): a new array for every row, holding the same
      values. */
  function CopyRows(a: RowArrays): (b: RowArrays)
    requires WellFormed(a)
    ensures WellFormed(b) && DistinctRows(b) && View(b) == View(a)
  {
    RowArrays(seq(|a.refs|, i => i), View(a))
  }

  /** rows[r][c] = true: a write into the array row r refers to, which every
      row sharing that array then shows. */
  function SetInPlace(a: RowArrays, r: nat, c: nat): (b: RowArrays)
    requires WellFormed(a) && r < |a.refs| && c < |a.rows[a.refs[r]]|
    ensures WellFormed(b) && b.refs == a.refs
    ensures forall i :: 0 <= i < |a.refs| ==>
              View(b)[i] == if a.refs[i] == a.refs[r] then View(a)[i][c := true] else View(a)[i]
  {
    a.(rows := a.rows[a.refs[r] := a.rows[a.refs[r]][c := true]])
  }

  /** When no two rows share an array, an in-place write sets exactly one
      cell. */
  lemma DistinctRowsSet(a: RowArrays, r: nat, c: nat)
    requires WellFormed(a) && DistinctRows(a) && r < |a.refs| && c < |a.rows[a.refs[r]]|
    ensures View(SetInPlace(a, r, c)) == Mark(View(a), r, c)
  {
    var b := SetInPlace(a, r, c);
    forall i | 0 <= i < |a.refs|
      ensures View(b)[i] == Mark(View(a), r, c)[i]
    {
      if i != r {
        assert a.refs[i] != a.refs[r] by {
          if i < r { assert a.refs[i] != a.refs[r]; } else { assert a.refs[r] != a.refs[i]; }
        }
      }
    }
  }

  /** Copy-on-write: copying the rows before the write sets exactly one
      cell, however the rows were shared before. */
  lemma CopyThenSet(a: RowArrays, r: nat, c: nat)
    requires WellFormed(a) && r < |a.refs| && c < |a.rows[a.refs[r]]|
    ensures View(SetInPlace(CopyRows(a), r, c)) == Mark(View(a), r, c)
  {
    DistinctRowsSet(CopyRows(a), r, c);
  }

  /** Without the copy, a write into the shared fill shows up in every row:
      the whole column would be revealed. */
  lemma SharedRowsSetColumn(c: nat)
    requires c < GridSize
    ensures forall i :: 0 <= i < GridSize ==> View(SetInPlace(SharedFalseRows(), 0, c))[i][c]
    ensures View(SetInPlace(SharedFalseRows(), 0, c)) != Mark(Empty(), 0, c)
  {
    var b := SetInPlace(SharedFalseRows(), 0, c);
    assert View(b)[1][c] && !Mark(Empty(), 0, c)[1][c];
  }

  /** The hook's state (src/types/game.ts GameState), with revealed as row
      arrays. The grid is never written in place, so it is a plain matrix. */
  datatype HookState = HookState(
    grid: Matrix,
    revealed: RowArrays,
    betAmount: real,
    revealedCount: nat,
    isGameOver: bool,
    isWinner: bool)

  /** The state as the board shows it. */
  function Abs(h: HookState): Rules.GameState
    requires WellFormed(h.revealed)
  {
    Rules.GameState(h.grid, View(h.revealed), h.betAmount, h.revealedCount, h.isGameOver, h.isWinner)
  }

  ghost predicate Valid(h: HookState) {
    WellFormed(h.revealed) && Rules.Inv(Abs(h), Rules.Hook)
  }

  /** The initial useState value: an all-false grid (no mine at all), all
      rows hidden and sharing one array, bet 0, count 0, not over. It is a
      fresh round on a mine-free board. */
  function InitialState(): (h: HookState)
    ensures Valid(h) && Abs(h) == Rules.NewRound(Empty(), 0.0)
    ensures Count(h.grid) == 0 && !DistinctRows(h.revealed)
  {
    CountEmpty(Empty(), true);
    Rules.NewRoundInv(Empty(), 0.0, Rules.Hook);
    assert SharedFalseRows().refs[0] == SharedFalseRows().refs[1];
    HookState(Empty(), SharedFalseRows(), 0.0, 0, false, false)
  }

  /** initializeGame: without an account, or when the initialize_game
      transaction fails, nothing changes; otherwise a fresh round on a newly
      generated grid replaces the state. The bet is not checked here. */
  method InitializeGame(h: HookState, hasAccount: bool, txOk: bool, bet: real, draws: seq<Cell>)
    returns (t: HookState)
    requires forall k :: 0 <= k < |draws| ==> OnBoard(draws[k])
    ensures !(hasAccount && txOk) ==> t == h
    ensures hasAccount && txOk ==>
              && Valid(t) && Abs(t) == Rules.NewRound(t.grid, bet)
              && Count(t.grid) <= MineCount && (|draws| > 0 ==> Count(t.grid) == MineCount)
    ensures Valid(h) ==> Valid(t)
  {
    if !hasAccount || !txOk {
      return h;
    }
    var g, _ := GenerateGrid(draws);
    Rules.NewRoundInv(g, bet, Rules.Hook);
    t := HookState(g, SharedFalseRows(), bet, 0, false, false);
  }

  /** revealTile: without an account, after game over, on a revealed cell
      or when the reveal_tile transaction fails, nothing changes. Otherwise
      the rows are copied and the cell set in the copy; a mine ends the
      round as a loss and leaves revealedCount as it was, a safe cell adds
      one to it and ends the round as a win once it reaches TargetReveals.
      This is the round's reveal rule for the hook. */
  function RevealTile(h: HookState, hasAccount: bool, txOk: bool, row: nat, col: nat): (t: HookState)
    requires WellFormed(h.revealed) && Rules.Shaped(Abs(h)) && row < GridSize && col < GridSize
    ensures WellFormed(t.revealed) && Rules.Shaped(Abs(t))
    ensures Abs(t) == if hasAccount && txOk then Rules.Reveal(Abs(h), row, col, Rules.Hook) else Abs(h)
    ensures !(hasAccount && txOk && Rules.Accepts(Abs(h), row, col)) ==> t == h
    ensures hasAccount && txOk && Rules.Accepts(Abs(h), row, col) ==>
              && View(t.revealed) == Mark(View(h.revealed), row, col)
              && DistinctRows(t.revealed) && t.grid == h.grid && t.betAmount == h.betAmount
              && (h.grid[row][col] ==> t.revealedCount == h.revealedCount && t.isGameOver && !t.isWinner)
              && (!h.grid[row][col] ==>
                    && t.revealedCount == h.revealedCount + 1
                    && t.isGameOver == t.isWinner == (h.revealedCount + 1 >= TargetReveals))
  {
    if !hasAccount || h.isGameOver || h.revealed.rows[h.revealed.refs[row]][col] then h
    else if !txOk then h
    else
      var newRevealed := SetInPlace(CopyRows(h.revealed), row, col);
      CopyThenSet(h.revealed, row, col);
      if h.grid[row][col] then
        h.(revealed := newRevealed, isGameOver := true, isWinner := false)
      else
        var newRevealedCount := h.revealedCount + 1;
        var isWinner := newRevealedCount >= TargetReveals;
        h.(revealed := newRevealed, revealedCount := newRevealedCount, isGameOver := isWinner, isWinner := isWinner)
  }

  /** cashOut: without an account or after game over nothing is submitted
      and nothing changes; once the cash_out transaction is confirmed the
      round ends as a win. */
  function CashOut(h: HookState, hasAccount: bool, txOk: bool): (t: HookState)
    requires WellFormed(h.revealed)
    ensures WellFormed(t.revealed)
    ensures Abs(t) == if hasAccount && !h.isGameOver && txOk then Rules.CashOut(Abs(h)) else Abs(h)
    ensures !(hasAccount && !h.isGameOver && txOk) ==> t == h
  {
    if !hasAccount || h.isGameOver then h
    else if !txOk then h
    else h.(isGameOver := true, isWinner := true)
  }

  /** Every reveal keeps the hook's round invariant. */
  lemma RevealTileValid(h: HookState, hasAccount: bool, txOk: bool, row: nat, col: nat)
    requires Valid(h) && row < GridSize && col < GridSize
    ensures Valid(RevealTile(h, hasAccount, txOk, row, col))
  {
    Rules.RevealInv(Abs(h), row, col, Rules.Hook);
  }

  /** Every cash-out keeps the hook's round invariant: in particular a won
      round never shows the mine. */
  lemma CashOutValid(h: HookState, hasAccount: bool, txOk: bool)
    requires Valid(h)
    ensures Valid(CashOut(h, hasAccount, txOk))
  {
    if hasAccount && !h.isGameOver && txOk {
      Rules.CashOutInv(Abs(h), Rules.Hook);
    }
  }

  /** In the hook the count is the number of safe revealed cells, so a
      finished round is a win exactly when no mine is revealed and at most
      TargetReveals safe cells are ever revealed. */
  lemma ValidOutcome(h: HookState)
    requires Valid(h)
    ensures h.revealedCount == Rules.SafeRevealed(Abs(h)) <= TargetReveals
    ensures Defined(h.revealedCount)
    ensures h.isGameOver ==> (h.isWinner <==> Rules.MinesRevealed(Abs(h)) == 0)
  {
    Rules.InvBounds(Abs(h), Rules.Hook);
  }

  /** The initial state has no mine, so reveals made on it before any
      initializeGame are all safe: four of them win a round whose bet is 0. */
  lemma WinBeforeInitialize()
    ensures var s0 := InitialState();
            var s1 := RevealTile(s0, true, true, 0, 0);
            var s2 := RevealTile(s1, true, true, 0, 1);
            var s3 := RevealTile(s2, true, true, 0, 2);
            var s4 := RevealTile(s3, true, true, 1, 0);
            !s3.isGameOver && s4.isGameOver && s4.isWinner && s4.betAmount == 0.0
  {
    var e := Empty();
    var s0 := InitialState();
    var s1 := RevealTile(s0, true, true, 0, 0);
    var s2 := RevealTile(s1, true, true, 0, 1);
    var s3 := RevealTile(s2, true, true, 0, 2);
    assert !e[0][0] && !e[0][1] && !e[0][2] && !e[1][0];
    assert s3.revealedCount == 3;
  }

  /** calculateStats: the formulas of updateStats, with both multipliers
      rounded to two decimals as the DOM panel shows them, and the chance of
      a safe reveal as an unrounded percentage. */
  function CalculateStats(revealedCount: nat): (st: GameStats)
    requires Defined(revealedCount)
    ensures st.multiplier == Panel(revealedCount).multiplier
    ensures st.nextMultiplier == Panel(revealedCount).nextMultiplier
    ensures st.probability == Stats(revealedCount).probability * 100.0
  {
    var remaining := (GridSize * GridSize - revealedCount) as real;
    var safeSpots := remaining - MineCount as real;
    var probability := safeSpots / remaining;
    Reciprocals(remaining, safeSpots);
    MultiplierRounds(revealedCount);
    NextMultiplierRounds(revealedCount);
    GameStats(ToFixed2(1.0 / probability), ToFixed2(1.0 / ((safeSpots - 1.0) / (remaining - 1.0))), probability * 100.0)
  }

  /** The hook's figures: the percentage is strictly between 0 and 100, and
      the multiplier within half a cent of the exact odds and never below 1. */
  lemma CalculateStatsBounds(k: nat)
    requires Defined(k)
    ensures 0.0 < CalculateStats(k).probability < 100.0
    ensures Stats(k).multiplier - 0.005 < CalculateStats(k).multiplier <= Stats(k).multiplier + 0.005
    ensures CalculateStats(k).multiplier >= 1.0
  {
    StatsBounds(k);
    PanelBounds(k);
  }

  /** At the start, after three safe reveals and at the target the hook's
      multipliers are those of the DOM panel; its percentage is unrounded
      (88.88...% where the DOM panel shows 88.9%). */
  lemma CalculateStatsExamples()
    ensures CalculateStats(0) == GameStats(1.13, 1.14, 800.0 / 9.0)
    ensures CalculateStats(3).multiplier == 1.2 && CalculateStats(3).nextMultiplier == 1.25
    ensures CalculateStats(4) == GameStats(1.25, 1.33, 80.0)
  {
    StatsClosedForm(0);
    StatsClosedForm(4);
  }
}
