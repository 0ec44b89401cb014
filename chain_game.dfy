/** main.js: the wallet version. The game object is the same as in
    js/game.js, but every state change first submits a transaction and
    happens only once it is confirmed. Whether the wallet signs and the
    network accepts it is the parameter txOk; a failed transaction is
    reported and leaves the state as it was. The cash-out has no
    isGameOver guard. */
module ChainGame {
  import opened Board
  import opened Odds
  import opened Rules

  class MinesGame {
    var grid: Matrix
    var revealed: Matrix
    var betAmount: real
    var isGameOver: bool
    var isWinner: bool
    var revealedCount: nat
    /** The figures last written to the stats panel. */
    var shown: GameStats
    /** The result banner. */
    var result: ResultMessage

    /** The round state as a value. */
    function State(): GameState
      reads this
    {
      GameState(grid, revealed, betAmount, revealedCount, isGameOver, isWinner)
    }

    /** Either no round was started yet, or the main.js round invariant
        holds and the stats panel shows the odds of the current count. */
    ghost predicate Valid()
      reads this
    {
      Idle(State()) || (Inv(State(), Chain) && shown == Panel(revealedCount))
    }

    /** A round has been started: the board's tiles exist. */
    ghost predicate Started()
      reads this
    {
      !Idle(State())
    }

    /** The initial state: empty grid and revealed lists, no bet. */
    constructor (initial: GameStats)
      ensures Valid() && !Started()
      ensures State() == GameState([], [], 0.0, 0, false, false)
      ensures shown == initial && result == NoResult
    {
      grid, revealed := [], [];
      betAmount, revealedCount := 0.0, 0;
      isGameOver, isWinner := false, false;
      shown, result := initial, NoResult;
    }

    /** startGame: the bet is checked before anything is submitted; the
        initialize_game transaction carries the bet, and only once it is
        confirmed is the grid generated and the fresh round installed. */
    method StartGame(bet: ParsedBet, txOk: bool, draws: seq<Cell>) returns (submitted: bool, started: bool)
      requires Valid()
      requires forall k :: 0 <= k < |draws| ==> OnBoard(draws[k])
      modifies this
      ensures Valid()
      ensures submitted == ValidBet(bet)
      ensures started == (submitted && txOk)
      ensures !started ==> unchanged(this)
      ensures started ==>
                && State() == NewRound(grid, bet.value)
                && Started() && Count(grid) <= MineCount
                && (|draws| > 0 ==> Count(grid) == MineCount)
                && shown == Panel(0) && result == old(result)
    {
      if bet.NotANumber? || bet.value <= 0.0 {
        submitted, started := false, false;
        return;
      }
      submitted := true;
      if !txOk {
        started := false;
        return;
      }
      started := true;
      var g, _ := GenerateGrid(draws);
      var panel := UpdateStats(0);
      NewRoundInv(g, bet.value, Chain);
      grid, revealed, betAmount := g, Empty(), bet.value;
      isGameOver, isWinner, revealedCount := false, false, 0;
      shown := panel;
    }

    /** revealTile: the guard is checked before anything is submitted; the
        reveal_tile transaction is sent only for a hidden cell of a running
        round, and the cell is revealed only once it is confirmed. As in
        js/game.js the win banner is written before the panel is updated. */
    method RevealTile(row: nat, col: nat, txOk: bool) returns (submitted: bool)
      requires Valid() && Started() && row < GridSize && col < GridSize
      modifies this
      ensures Valid() && Started()
      ensures submitted == Accepts(old(State()), row, col)
      ensures State() == if submitted && txOk then Reveal(old(State()), row, col, Chain) else old(State())
      ensures !(submitted && txOk) ==> unchanged(this)
      ensures result ==
                if !(submitted && txOk) then old(result)
                else if grid[row][col] then LostMessage
                else if isWinner then WonMessage(betAmount * Panel(revealedCount - 1).multiplier)
                else old(result)
    {
      if isGameOver || revealed[row][col] {
        submitted := false;
        return;
      }
      submitted := true;
      if !txOk {
        return;
      }
      RevealInv(State(), row, col, Chain);
      InvBounds(State(), Chain);
      var count := revealedCount + 1;
      var over, win := false, false;
      if grid[row][col] {
        over, win := true, false;
      } else if count >= TargetReveals {
        over, win := true, true;
      }
      // the banner reads the panel before updateStats rewrites it
      var banner := if over then ShowGameResult(win, betAmount, shown) else result;
      var panel := UpdateStats(count);
      revealed, revealedCount, isGameOver, isWinner := Mark(revealed, row, col), count, over, win;
      result, shown := banner, panel;
    }

    /** cashout: no guard; the cash_out transaction is always submitted and,
        once confirmed, the round is marked won and the banner shows the bet
        times the multiplier on the panel, even after a lost or finished
        round. */
    method Cashout(txOk: bool) returns (submitted: bool)
      requires Valid()
      modifies this
      ensures Valid() && submitted && shown == old(shown)
      ensures State() == if txOk then CashOut(old(State())) else old(State())
      ensures result == if txOk then WonMessage(betAmount * shown.multiplier) else old(result)
      ensures Started() && txOk ==> result == WonMessage(betAmount * Panel(revealedCount).multiplier)
    {
      submitted := true;
      if !txOk {
        return;
      }
      if Started() {
        CashOutInv(State(), Chain);
      }
      isGameOver, isWinner, result := true, true, ShowGameResult(true, betAmount, shown);
    }
  }
}
