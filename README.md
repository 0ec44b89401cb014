# Mines round state machine, in Dafny

The repository is a small browser game, "Mines", wired to an Aptos wallet.
The player bets and reveals tiles of a 3x3 grid that hides one mine. A mine
loses the bet. The fourth safe tile wins the round, and the player may cash
out before that at the current fair-odds multiplier. The round logic exists
three times, and all three are modelled here:

- `js/game.js` is a local DOM version. Its game object updates its fields
  in place, and `LocalGame.MinesGame` models it as a Dafny class with those
  fields.
- `main.js` is the same class, except that every state change first submits
  a wallet transaction and happens only once the transaction is confirmed.
  Whether the transaction succeeds is the parameter `txOk`. This is
  `ChainGame.MinesGame`, and its cash-out has no game-over guard.
- `src/hooks/useGameLogic.ts` is a React hook. It replaces an immutable
  state value, so `HookGame` models it as functions from the old state to
  the new one. A missing wallet account makes every operation a no-op, and
  only a safe reveal counts.

The shared parts are:

- `Board`: the configuration (3x3, one mine, four reveals to win), counting
  over boolean matrices, and mine placement by rejection sampling.
- `Odds`: the exact odds after k reveals (`Stats`), and the rounded figures
  of the DOM stats panel (`Panel`).
- `Rules`: the round state as a value, with the reveal and cash-out rules
  and the round invariant `Inv`. The flag `Version` names the two places
  where the versions differ.

Each class keeps its stats panel (`shown`) and result banner (`result`) as
fields. The win banner reads its multiplier back from the panel text. Both
DOM versions write the win banner before `updateStats` refreshes the panel.
In `js/game.js` the reveal calls `showGameResult` (line 133) before
`updateStats` (line 137). A round won by the fourth safe reveal therefore
pays the bet times the panel multiplier of three reveals, 1.20. A cash-out
pays the multiplier of the current count. The cash-out is guarded by
`isGameOver`, so in `js/game.js` the multiplier of the winning reveal
itself, 1.25, is never paid: see the `RevealTile` and `Cashout` rows.
`main.js` orders the reveal the same way. Its cash-out has no guard, so a
confirmed cash-out after the winning reveal pays 1.25 times the bet
(`ChainGame.MinesGame.Cashout`). On the page that path is closed only
because `showGameResult` hides the cash-out button (main.js:183), which the
model does not capture.

Cashing out straight after the start pays 1.13 times the bet with no tile
revealed. That follows from `Cashout`'s contract and `Panel(0)`.

The hook starts from an all-false grid, a fresh round with no mine and a
bet of 0. Reveals on it before any `initializeGame` are all safe, and four
of them win (`HookGame.WinBeforeInitialize`).

## Model

| member | source | states |
|---|---|---|
| Board.Empty | js/game.js:68 | the fresh revealed mask is 3x3 with every cell false |
| Board.Mark | js/game.js:123 | setting one cell of the mask gives a matrix of the same shape, true at that cell and equal everywhere else |
| Board.CountMark | js/game.js:123-124 | setting a hidden cell adds exactly 1 to the number of true cells, and setting a true cell adds nothing |
| Board.CountEmpty | js/game.js:68-72 | the fresh mask has no true cell, so a new round starts with count 0 and nothing revealed |
| Board.GenerateGrid | js/game.js:41-56 | mine placement: a 3x3 grid with at most one mine, and exactly one once a draw is made; the mine lies on a consumed draw (the first); the loop keeps count = minesPlaced; main.js:99-114 and src/hooks/useGameLogic.ts:64-79 are the same loop |
| Odds.UpdateStats | js/game.js:107-117 | with the source's formulas (1 / probability, 1 / ((safe - 1) / (remaining - 1)), toFixed) the panel gets exactly Panel(k); main.js:164-174 is the same |
| Odds.PanelRounds | js/game.js:111-116 | every panel entry is the exact multiplier and next multiplier rounded to two decimals and the chance as a percentage to one decimal |
| Odds.MultiplierRounds | js/game.js:111 | the shown multiplier is the exact one rounded by toFixed(2) |
| Odds.NextMultiplierRounds | js/game.js:112 | the shown next multiplier is the exact one rounded by toFixed(2) |
| Odds.ChanceRounds | js/game.js:116 | the shown chance is the exact probability times 100, rounded by toFixed(1) |
| Odds.ToFixedRounds | js/game.js:111-116 | toFixed(2) and toFixed(1) give a whole number of hundredths or tenths within half a unit of the value |
| Odds.ToFixed2Monotone | js/game.js:111 | rounding to two decimals never reverses an order |
| Odds.StatsBounds | js/game.js:108-112 | the chance of a safe reveal is strictly between 0 and 1; the multiplier is its reciprocal, above 1; the next multiplier is larger |
| Odds.StatsClosedForm | js/game.js:108-112 | after k reveals: probability (8-k)/(9-k), multiplier (9-k)/(8-k), next multiplier (8-k)/(7-k) |
| Odds.NextIsNextMultiplier | js/game.js:112 | the next multiplier shown after k reveals is the multiplier after k+1 |
| Odds.MultiplierIncreasing | js/game.js:111 | the exact multiplier grows strictly with every reveal |
| Odds.PanelMonotone | js/game.js:111 | the shown multiplier never decreases as cells are revealed |
| Odds.PanelBounds | js/game.js:111-116 | the shown multiplier is within 0.005 of the exact one and at least 1; the next multiplier is shown no lower; the chance lies in 0..100 |
| Odds.StatsExamples | js/game.js:108-112 | exact odds: k=0 gives probability 8/9 and multiplier 1.125; k=3 gives 5/6 and 1.2 with next 1.25 |
| Rules.WinPayout | js/game.js:144-154 | a win banner shown from the panel of k reveals pays at least the bet and lies within 0.005 per unit of bet of the exact fair-odds payout bet times the multiplier of k; main.js:176-184 is the same banner |
| Rules.Reveal | js/game.js:119-142 | a rejected reveal changes nothing; an accepted one sets exactly that cell and adds 1 to the true cells; a mine loses; a safe cell adds 1 to the count and ends as a win exactly at the target, and a safe reveal that keeps the round running leaves isWinner as it was; for the hook (src/hooks/useGameLogic.ts:100-117) a mine hit leaves the count as it was, and after a safe reveal isGameOver = isWinner = (count + 1 >= 4) |
| Rules.CashOut | js/game.js:159-161 | a cash-out ends the round as a win and changes nothing else |
| Rules.NewRoundInv | js/game.js:66-73 | a fresh round with a grid of at most one mine (and, in the DOM versions, a validated bet) satisfies the round invariant |
| Rules.RevealInv | js/game.js:119-142 | every reveal preserves the invariant: count = revealed cells (safe ones in the hook), at most 4, no mine shown while running, the mine shown after a loss |
| Rules.CashOutInv | js/game.js:156-167 | a cash-out that gets past the version's guard preserves the invariant |
| Rules.InvBounds | js/game.js:130 | in every reachable state at most 4 cells (and safe cells) are revealed, so at least 4 safe cells stay hidden and every denominator of the odds, now and one reveal later, is positive |
| Rules.OutcomeMatchesBoard | js/game.js:126-133 | in the guarded versions a finished round is won exactly when no mine is revealed |
| Rules.RevealIdempotent | js/game.js:120 | revealing the same cell twice equals revealing it once |
| Rules.RevealMonotone | js/game.js:123-124 | a reveal never hides a cell again, never changes the grid and never lowers the count |
| Rules.GameOverIsTerminal | js/game.js:120 | after game over no reveal changes anything, and a cash-out of a won round changes nothing either |
| Rules.MineHitCountsDiffer | src/hooks/useGameLogic.ts:100-106 | on a mine hit the hook's count is one lower than the DOM versions' count, which agree with each other |
| Rules.UnguardedCashOutAfterLoss | main.js:186-196 | cashing out after a loss turns the round into a win with the mine on show, which the guarded invariant forbids |
| Rules.FourSafeRevealsWin | js/game.js:130-133 | with the mine at (0,0), three safe reveals keep the round running and a fourth wins it with count 4 |
| Rules.MineFirstLoses | js/game.js:126-129 | a mine on the first reveal ends the round as a loss |
| LocalGame.MinesGame.constructor | js/game.js:6-14 | empty grid and revealed lists, bet 0, count 0, not over, not won |
| LocalGame.MinesGame.StartGame | js/game.js:58-84 | a NaN or non-positive bet is refused and changes nothing; otherwise a fresh round on a one-mine grid is installed and the panel shows Panel(0) |
| LocalGame.MinesGame.RevealTile | js/game.js:119-142 | the new state is Reveal of the old one; a mine shows the loss banner; a win pays bet times the panel multiplier of the count before the winning reveal |
| LocalGame.MinesGame.Cashout | js/game.js:156-167 | ignored after game over; otherwise the round ends as a win paying bet times the current panel multiplier |
| ChainGame.MinesGame.constructor | main.js:8-18 | empty grid and revealed lists, bet 0, count 0, not over, not won |
| ChainGame.MinesGame.StartGame | main.js:70-97 | an invalid bet submits nothing; a valid one is submitted, and only a confirmed transaction installs the fresh round; otherwise nothing changes |
| ChainGame.MinesGame.RevealTile | main.js:137-162 | a transaction is submitted exactly when the reveal guard passes; only a confirmed one applies Reveal; the win banner pays the stale multiplier as in js/game.js |
| ChainGame.MinesGame.Cashout | main.js:186-196 | always submitted; once confirmed the round is a win paying bet times the panel multiplier, even after a loss or a finished round |
| HookGame.SharedFalseRows | src/hooks/useGameLogic.ts:13-14 | `Array(3).fill(Array(3).fill(false))` shows the all-false matrix |
| HookGame.CopyRows | src/hooks/useGameLogic.ts:97 | copying the rows gives the same matrix with no two rows sharing an array |
| HookGame.SetInPlace | src/hooks/useGameLogic.ts:98 | an in-place write changes every row that shares the written row's array, and no other |
| HookGame.DistinctRowsSet | src/hooks/useGameLogic.ts:98 | with unshared rows an in-place write sets exactly one cell |
| HookGame.CopyThenSet | src/hooks/useGameLogic.ts:97-98 | copy-on-write: copying and then writing sets exactly one cell, whatever the sharing |
| HookGame.SharedRowsSetColumn | src/hooks/useGameLogic.ts:53 | without the copy, writing into the shared fill would reveal a whole column |
| HookGame.InitialState | src/hooks/useGameLogic.ts:12-19 | the initial state is a fresh round on a mine-free grid with bet 0; its rows share one array; it satisfies the invariant |
| HookGame.InitializeGame | src/hooks/useGameLogic.ts:35-62 | no account or a failed transaction changes nothing; otherwise a fresh round on a one-mine grid with the unchecked bet |
| HookGame.RevealTile | src/hooks/useGameLogic.ts:81-122 | no account, the guard or a failed transaction changes nothing; otherwise exactly one cell is revealed, a mine loses with the count unchanged, a safe cell adds 1 and over = winner = (count + 1 >= 4) |
| HookGame.CashOut | src/hooks/useGameLogic.ts:124-145 | no account, game over or a failed transaction changes nothing; otherwise the round ends as a win |
| HookGame.RevealTileValid | src/hooks/useGameLogic.ts:81-122 | every hook reveal preserves the round invariant |
| HookGame.CashOutValid | src/hooks/useGameLogic.ts:124-145 | every hook cash-out preserves the round invariant |
| HookGame.ValidOutcome | src/hooks/useGameLogic.ts:107-117 | the hook's count is the number of safe revealed cells, at most 4, and a finished round is won exactly when no mine shows |
| HookGame.WinBeforeInitialize | src/hooks/useGameLogic.ts:12-19 | four reveals on the initial state, before any initializeGame, win a round with bet 0 |
| HookGame.CalculateStats | src/hooks/useGameLogic.ts:21-33 | the multipliers are the exact odds rounded to two decimals (those of Panel); the probability is the unrounded exact chance times 100 |
| HookGame.CalculateStatsBounds | src/hooks/useGameLogic.ts:21-33 | the percentage is strictly between 0 and 100, and the multiplier is within 0.005 of the exact one and at least 1 |
| HookGame.CalculateStatsExamples | src/hooks/useGameLogic.ts:21-33 | k=0 gives 1.13, 1.14 and 800/9 %; k=3 gives 1.2 and 1.25; k=4 gives 1.25, 1.33 and 80 % |

## Left out

- The DOM and React rendering, the tile elements, button and input states, `alert` and `console.error` are left out. They only display the state.
- Wallet connection and transaction submission become the parameters `txOk` and `hasAccount`. The on-chain contract is not part of this model, and neither is `js/wallet.js`.
- `Math.random` becomes the sequence of cells `draws`. The source has no bound on the number of draws. With one mine its loop stops after the first draw, but the model takes a finite sequence: an empty one leaves the grid without a mine, and the contracts say so.
- JavaScript numbers are modelled as exact reals. `toFixed` and `parseFloat` are modelled as round-half-up to hundredths or tenths of the exact value. The model does not capture double-precision error inside `1 / probability`.
- `Rules.ShowGameResult`: the amount in the banner is kept unrounded. The source formats it with `toFixed(2)`.
- `Odds.Stats`, `Odds.Panel`, `Odds.UpdateStats` and `HookGame.CalculateStats` are defined only while at least two safe cells are hidden. No reachable count (at most 4) leaves that range. The source would divide by zero beyond it.
- `LocalGame.MinesGame.RevealTile` and `ChainGame.MinesGame.RevealTile` require a started round. Before the first round the source's `revealed` is `[]`, so indexing it throws, and the tiles are not on the page anyway.
- Row aliasing in the DOM versions is not modelled. Those versions build every row with `fill(null).map(...)`, so no two rows share an array. The classes hold `grid` and `revealed` as matrix values that the methods reassign, where the source writes one cell of a row in place.
- The hook's grid (`grid: Array(3).fill(...)`, line 13) is modelled as a plain matrix. It is never written in place.
- Async interleaving is left out: two clicks while a transaction is pending, and the hook's stale `gameState` closure against `prev`. Each operation is modelled as one atomic step from the state it starts in.
- Components outside the three core files are not modelled. One example: `src/components/BetInput.tsx` checks the bet is positive and is disabled while no round is over, so the hook never sees a non-positive bet from the UI. Another: `src/App.tsx` (line 56) computes the hook's win amount from the current `calculateStats()`, so the hook's page pays 1.25 times the bet for a win by the fourth reveal.
