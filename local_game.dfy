/** js/game.js: the local-only DOM version. The game object holds the round
    state in fields and its methods update them. Besides the round state it
    keeps what the page shows from it: the stats panel (written by
    updateStats) and the result banner, whose win amount is read back from
    the multiplier the panel shows. */
module LocalGame {
  import opened Board
  import opened Odds
  import opened Rules

  class MinesGame {
    var grid: Matrix
    var revealed: Matrix
    var betAmount: real
    var isGameOver: bool
    var isWinner: bool
    var revealedCount: nat
    /** The figures last written to the stats panel. */
    var shown: GameStats
    /** The result banner. */
    var result: ResultMessage

    /** The round state as a value. */
    function State(): GameState
      reads this
    {
      GameState(grid, revealed, betAmount, revealedCount, isGameOver, isWinner)
    }

    /** Either no round was started yet, or the round invariant holds and
        the stats panel shows the odds of the current count. */
    ghost predicate Valid()
      reads this
    {
      Idle(State()) || (Inv(State(), Local) && shown == Panel(revealedCount))
    }

    /** A round has been started: the board's tiles exist. */
    ghost predicate Started()
      reads this
    {
      !Idle(State())
    }

    /** The initial state: empty grid and revealed lists, no bet. The stats
        panel shows whatever the page was loaded with. */
    constructor (initial: GameStats)
      ensures Valid() && !Started()
      ensures State() == GameState([], [], 0.0, 0, false, false)
      ensures shown == initial && result == NoResult
    {
      grid, revealed := [], [];
      betAmount, revealedCount := 0.0, 0;
      isGameOver, isWinner := false, false;
      shown, result := initial, NoResult;
    }

    /** startGame: a NaN or non-positive bet is refused and nothing changes;
        otherwise a fresh round with a newly generated grid replaces the old
        state and updateStats shows the odds of 0 reveals. */
    method StartGame(bet: ParsedBet, draws: seq<Cell>) returns (accepted: bool)
      requires Valid()
      requires forall k :: 0 <= k < |draws| ==> OnBoard(draws[k])
      modifies this
      ensures Valid()
      ensures accepted == ValidBet(bet)
      ensures !accepted ==> unchanged(this)
      ensures accepted ==>
                && State() == NewRound(grid, bet.value)
                && Started() && Count(grid) <= MineCount
                && (|draws| > 0 ==> Count(grid) == MineCount)
                && shown == Panel(0) && result == old(result)
    {
      if bet.NotANumber? || bet.value <= 0.0 {
        accepted := false;
        return;
      }
      accepted := true;
      var g, _ := GenerateGrid(draws);
      var panel := UpdateStats(0);
      NewRoundInv(g, bet.value, Local);
      grid, revealed, betAmount := g, Empty(), bet.value;
      isGameOver, isWinner, revealedCount := false, false, 0;
      shown := panel;
    }

    /** revealTile: ignored after game over or on a revealed cell; otherwise
        exactly that cell is revealed and the count goes up by one, a mine
        loses the round and the TargetReveals-th safe cell wins it. The win
        banner is written before updateStats refreshes the panel, so it pays
        the multiplier of the count before this reveal. */
    method RevealTile(row: nat, col: nat)
      requires Valid() && Started() && row < GridSize && col < GridSize
      modifies this
      ensures Valid() && Started()
      ensures State() == Reveal(old(State()), row, col, Local)
      ensures result ==
                if !Accepts(old(State()), row, col) then old(result)
                else if grid[row][col] then LostMessage
                else if isWinner then WonMessage(betAmount * Panel(revealedCount - 1).multiplier)
                else old(result)
    {
      if isGameOver || revealed[row][col] {
        return;
      }
      RevealInv(State(), row, col, Local);
      InvBounds(State(), Local);
      var count := revealedCount + 1;
      var over, win := false, false;
      if grid[row][col] {
        over, win := true, false;
      } else if count >= TargetReveals {
        over, win := true, true;
      }
      // the banner reads the panel before updateStats rewrites it
      var banner := if over then ShowGameResult(win, betAmount, shown) else result;
      var panel := UpdateStats(count);
      revealed, revealedCount, isGameOver, isWinner := Mark(revealed, row, col), count, over, win;
      result, shown := banner, panel;
    }

    /** cashout: ignored after game over; otherwise the round ends as a win
        paying the bet times the multiplier on the panel, which is the
        multiplier of the current count. */
    method Cashout()
      requires Valid()
      modifies this
      ensures Valid() && shown == old(shown)
      ensures State() == if old(isGameOver) then old(State()) else CashOut(old(State()))
      ensures result == if old(isGameOver) then old(result) else WonMessage(betAmount * shown.multiplier)
      ensures Started() && !old(isGameOver) ==> result == WonMessage(betAmount * Panel(revealedCount).multiplier)
    {
      if isGameOver {
        return;
      }
      if Started() {
        CashOutInv(State(), Local);
      }
      isGameOver, isWinner, result := true, true, ShowGameResult(true, betAmount, shown);
    }
  }
}
