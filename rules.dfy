/** The round state machine shared by the three front ends (js/game.js,
    main.js and src/hooks/useGameLogic.ts), as functions on the state value
    of src/types/game.ts. The versions differ in two places, named by
    Version: the hook does not count a mine hit in revealedCount, and
    main.js does not guard its cash-out with isGameOver. */
module Rules {
  import opened Board
  import opened Odds

  /** The round state (src/types/game.ts, GameState). */
  datatype GameState = GameState(
    grid: Matrix,
    revealed: Matrix,
    betAmount: real,
    revealedCount: nat,
    isGameOver: bool,
    isWinner: bool)

  /** Which of the three front ends. */
  datatype Version = Local | Chain | Hook

  /** The DOM versions count every accepted reveal; the hook counts safe ones only. */
  predicate CountsMineHit(v: Version) {
    v != Hook
  }

  /** Only main.js lets a cash-out through after the round is over. */
  predicate CashOutGuarded(v: Version) {
    v != Chain
  }

  /** The bet as parseFloat reads it from the input field. */
  datatype ParsedBet = NotANumber | Amount(value: real)

  /** The bet check of startGame: NaN and non-positive amounts are refused. */
  predicate ValidBet(bet: ParsedBet) {
    bet.Amount? && bet.value > 0.0
  }

  /** The result banner of the DOM versions. */
  datatype ResultMessage = NoResult | WonMessage(amount: real) | LostMessage

  /** showGameResult: a win pays the bet times the multiplier the stats
      panel shows at that moment (read back from its text); a loss shows
      the loss message. */
  function ShowGameResult(isWin: bool, bet: real, panel: GameStats): (m: ResultMessage)
    ensures m != NoResult
    ensures m.WonMessage? <==> isWin
    ensures isWin ==> m.amount == bet * panel.multiplier
  {
    if isWin then WonMessage(bet * panel.multiplier) else LostMessage
  }

  /** A win shown from the panel of k reveals pays at least the bet, and
      within half a cent per unit of bet of the exact fair-odds payout
      bet * Stats(k).multiplier; the rounding of the panel is all that
      separates the two. */
  lemma WinPayout(bet: real, k: nat)
    requires bet > 0.0 && Defined(k)
    ensures ShowGameResult(true, bet, Panel(k)).amount >= bet
    ensures bet * (Stats(k).multiplier - 0.005) < ShowGameResult(true, bet, Panel(k)).amount
    ensures ShowGameResult(true, bet, Panel(k)).amount <= bet * (Stats(k).multiplier + 0.005)
  {
    PanelBounds(k);
    var p := Panel(k).multiplier;
    var x := Stats(k).multiplier;
    assert bet * p >= bet * 1.0;
    assert bet * (x - 0.005) < bet * p;
    assert bet * p <= bet * (x + 0.005);
  }

  predicate Shaped(s: GameState) {
    IsBoard(s.grid) && IsBoard(s.revealed)
  }

  /** Revealed cells that hold the mine, safe revealed cells, hidden safe cells. */
  function MinesRevealed(s: GameState): nat
    requires Shaped(s)
  {
    CountCells(s.revealed, s.grid, true, true)
  }

  function SafeRevealed(s: GameState): nat
    requires Shaped(s)
  {
    CountCells(s.revealed, s.grid, true, false)
  }

  function HiddenSafe(s: GameState): nat
    requires Shaped(s)
  {
    CountCells(s.revealed, s.grid, false, false)
  }

  /** The state of a DOM version before its first round: the constructor's
      empty grid and revealed lists; only a cash-out can change it. */
  predicate Idle(s: GameState) {
    s.grid == [] && s.revealed == [] && s.revealedCount == 0 && (s.isWinner ==> s.isGameOver)
  }

  /** The fresh round that a start installs: the given grid, nothing
      revealed, count 0, not over, not won, the given bet. */
  function NewRound(grid: Matrix, bet: real): GameState {
    GameState(grid, Empty(), bet, 0, false, false)
  }

  /** The reveal guard common to all versions: the round is not over and
      the cell is still hidden. */
  predicate Accepts(s: GameState, row: nat, col: nat)
    requires Shaped(s) && row < GridSize && col < GridSize
  {
    !s.isGameOver && !s.revealed[row][col]
  }

  /** revealTile, once the guard and (where there is one) the transaction
      have let it through: the cell is revealed; a mine ends the round as a
      loss, and a safe cell that reaches TargetReveals ends it as a win. */
  function Reveal(s: GameState, row: nat, col: nat, v: Version): (t: GameState)
    requires Shaped(s) && row < GridSize && col < GridSize
    ensures Shaped(t) && t.grid == s.grid && t.betAmount == s.betAmount
    ensures !Accepts(s, row, col) ==> t == s
    ensures Accepts(s, row, col) ==>
              t.revealed == Mark(s.revealed, row, col) && Count(t.revealed) == Count(s.revealed) + 1
    ensures Accepts(s, row, col) && s.grid[row][col] ==>
              t.isGameOver && !t.isWinner
              && t.revealedCount == s.revealedCount + (if CountsMineHit(v) then 1 else 0)
    ensures Accepts(s, row, col) && !s.grid[row][col] ==>
              t.revealedCount == s.revealedCount + 1
              && (t.isGameOver <==> t.revealedCount >= TargetReveals)
              && (t.isGameOver ==> t.isWinner)
              && (v == Hook ==> t.isWinner == t.isGameOver)
              && (v != Hook && !t.isGameOver ==> t.isWinner == s.isWinner)
  {
    if s.isGameOver || s.revealed[row][col] then s
    else
      var revealed := Mark(s.revealed, row, col);
      CountMark(s.revealed, row, col);
      if s.grid[row][col] then
        var count := if CountsMineHit(v) then s.revealedCount + 1 else s.revealedCount;
        s.(revealed := revealed, revealedCount := count, isGameOver := true, isWinner := false)
      else
        var count := s.revealedCount + 1;
        if v == Hook then
          s.(revealed := revealed, revealedCount := count,
             isGameOver := count >= TargetReveals, isWinner := count >= TargetReveals)
        else if count >= TargetReveals then
          s.(revealed := revealed, revealedCount := count, isGameOver := true, isWinner := true)
        else
          s.(revealed := revealed, revealedCount := count)
  }

  /** The effect of a cash-out that is let through: the round ends as a win
      and nothing else changes. */
  function CashOut(s: GameState): (t: GameState)
    ensures t.isGameOver && t.isWinner
    ensures t.grid == s.grid && t.revealed == s.revealed
    ensures t.betAmount == s.betAmount && t.revealedCount == s.revealedCount
  {
    s.(isGameOver := true, isWinner := true)
  }

  /** The invariant of a started round (or, for the hook, of its initial
      state, whose grid holds no mine yet). */
  ghost predicate Inv(s: GameState, v: Version) {
    && Shaped(s)
    && Count(s.grid) <= MineCount
    && (s.isWinner ==> s.isGameOver)
    // the count matches the revealed cells (safe ones only, in the hook)
    && s.revealedCount == (if CountsMineHit(v) then Count(s.revealed) else SafeRevealed(s))
    && s.revealedCount <= TargetReveals
    // a round in progress shows no mine and has not reached the target
    && (!s.isGameOver ==> MinesRevealed(s) == 0 && s.revealedCount < TargetReveals)
    // a loss shows the mine
    && (s.isGameOver && !s.isWinner ==> MinesRevealed(s) > 0)
    // a win shows no mine, except after main.js's unguarded cash-out
    && (CashOutGuarded(v) && s.isWinner ==> MinesRevealed(s) == 0)
    // the DOM versions start a round only with a validated bet
    && (v != Hook ==> s.betAmount > 0.0)
  }

  /** A start with a board of at most MineCount mines and (for the DOM
      versions) a validated bet establishes the invariant. */
  lemma NewRoundInv(grid: Matrix, bet: real, v: Version)
    requires IsBoard(grid) && Count(grid) <= MineCount
    requires v != Hook ==> bet > 0.0
    ensures Inv(NewRound(grid, bet), v)
    ensures Count(NewRound(grid, bet).revealed) == 0
  {
    CountEmpty(grid, true);
    CountEmpty(grid, false);
  }

  /** Every reveal preserves the invariant. */
  lemma RevealInv(s: GameState, row: nat, col: nat, v: Version)
    requires Inv(s, v) && row < GridSize && col < GridSize
    ensures Inv(Reveal(s, row, col, v), v)
  {
    var t := Reveal(s, row, col, v);
    if Accepts(s, row, col) {
      var mine := s.grid[row][col];
      CountCellsMark(s.revealed, s.grid, row, col, true, true);
      CountCellsMark(s.revealed, s.grid, row, col, true, false);
      assert MinesRevealed(t) == MinesRevealed(s) + (if mine then 1 else 0);
      assert SafeRevealed(t) == SafeRevealed(s) + (if mine then 0 else 1);
    }
  }

  /** A cash-out that the version lets through preserves the invariant. */
  lemma CashOutInv(s: GameState, v: Version)
    requires Inv(s, v)
    requires CashOutGuarded(v) ==> !s.isGameOver
    ensures Inv(CashOut(s), v)
  {
  }

  /** What the invariant bounds: at most TargetReveals cells (and safe cells)
      are revealed, so the odds are defined, and at least
      CellCount - MineCount - TargetReveals = 4 safe cells stay hidden. */
  lemma InvBounds(s: GameState, v: Version)
    requires Inv(s, v)
    ensures s.revealedCount <= TargetReveals && Defined(s.revealedCount) && Defined(s.revealedCount + 1)
    ensures SafeRevealed(s) <= TargetReveals
    ensures MinesRevealed(s) <= MineCount
    ensures HiddenSafe(s) >= CellCount - MineCount - TargetReveals
  {
    CountCellsSplit(s.revealed, s.grid);
  }

  /** In the guarded versions a finished round is a win exactly when no mine
      is revealed. */
  lemma OutcomeMatchesBoard(s: GameState, v: Version)
    requires Inv(s, v) && CashOutGuarded(v) && s.isGameOver
    ensures s.isWinner <==> MinesRevealed(s) == 0
  {
  }

  /** Repeating a reveal changes nothing: the second call meets the guard. */
  lemma RevealIdempotent(s: GameState, row: nat, col: nat, v: Version)
    requires Shaped(s) && row < GridSize && col < GridSize
    ensures Reveal(Reveal(s, row, col, v), row, col, v) == Reveal(s, row, col, v)
  {
  }

  /** Reveals only add cells: no revealed cell is hidden again, the grid is
      untouched and the count never drops. */
  lemma RevealMonotone(s: GameState, row: nat, col: nat, v: Version)
    requires Shaped(s) && row < GridSize && col < GridSize
    ensures forall i, j :: 0 <= i < GridSize && 0 <= j < GridSize && s.revealed[i][j] ==>
              Reveal(s, row, col, v).revealed[i][j]
    ensures Reveal(s, row, col, v).grid == s.grid
    ensures Reveal(s, row, col, v).revealedCount >= s.revealedCount
    ensures Count(Reveal(s, row, col, v).revealed) >= Count(s.revealed)
  {
  }

  /** Once the round is over no reveal changes anything, and a guarded
      cash-out does not either. */
  lemma GameOverIsTerminal(s: GameState, row: nat, col: nat, v: Version)
    requires Shaped(s) && row < GridSize && col < GridSize && s.isGameOver
    ensures Reveal(s, row, col, v) == s
    ensures s.isWinner ==> CashOut(s) == s
  {
  }

  /** The hook's revealedCount stays one behind the DOM versions' on a mine hit. */
  lemma MineHitCountsDiffer(s: GameState, row: nat, col: nat)
    requires Shaped(s) && row < GridSize && col < GridSize
    requires Accepts(s, row, col) && s.grid[row][col]
    ensures Reveal(s, row, col, Hook).revealedCount + 1 == Reveal(s, row, col, Local).revealedCount
    ensures Reveal(s, row, col, Local) == Reveal(s, row, col, Chain)
  {
  }

  /** main.js's unguarded cash-out turns a lost round into a won one with
      the mine on show; this is why Inv(_, Chain) cannot promise that a win
      shows no mine. */
  lemma UnguardedCashOutAfterLoss(s: GameState)
    requires Inv(s, Chain) && s.isGameOver && !s.isWinner
    ensures CashOut(s).isWinner && MinesRevealed(CashOut(s)) > 0
    ensures Inv(CashOut(s), Chain) && !Inv(CashOut(s), Local)
  {
  }

  /** Four safe reveals win the round: with the mine at (0, 0), three safe
      reveals keep it running and the fourth wins it. */
  lemma FourSafeRevealsWin(grid: Matrix, bet: real, v: Version)
    requires IsBoard(grid) && grid[0][0]
    requires forall i, j :: 0 <= i < GridSize && 0 <= j < GridSize && (i, j) != (0, 0) ==> !grid[i][j]
    ensures var s0 := NewRound(grid, bet);
            var s1 := Reveal(s0, 0, 1, v);
            var s2 := Reveal(s1, 0, 2, v);
            var s3 := Reveal(s2, 1, 0, v);
            var s4 := Reveal(s3, 1, 1, v);
            !s3.isGameOver && s4.isGameOver && s4.isWinner && s4.revealedCount == TargetReveals
  {
  }

  /** A mine on the first reveal loses the round. */
  lemma MineFirstLoses(grid: Matrix, bet: real, row: nat, col: nat, v: Version)
    requires IsBoard(grid) && row < GridSize && col < GridSize && grid[row][col]
    ensures Reveal(NewRound(grid, bet), row, col, v).isGameOver
    ensures !Reveal(NewRound(grid, bet), row, col, v).isWinner
  {
  }
}
