/** The odds panel: the chance that the next reveal is safe and the
    fair-odds multipliers, computed from the number of revealed cells.
    Stats is what the figures mean, exactly; Panel is what the DOM versions'
    updateStats writes (multipliers to two decimals, the chance as a
    percentage to one). UpdateStats and HookGame.CalculateStats compute them
    with the formulas of the source, over the reals. */
module Odds {
  import opened Board

  /** What the stats panel shows (src/types/game.ts GameStats). */
  datatype GameStats = GameStats(multiplier: real, nextMultiplier: real, probability: real)

  /** All three figures have positive denominators: there are still at
      least two safe cells hidden when k cells are revealed. */
  predicate Defined(k: nat) {
    k + MineCount + 1 < CellCount
  }

  /** The odds after k safe reveals. Of the CellCount - k hidden cells all
      but MineCount are safe: the chance of a safe reveal is safe / hidden,
      the fair multiplier its reciprocal, and the next multiplier the same
      ratio one safe reveal later. */
  function Stats(k: nat): GameStats
    requires Defined(k)
  {
    var hidden := (CellCount - k) as real;
    var safe := hidden - MineCount as real;
    GameStats(hidden / safe, (hidden - 1.0) / (safe - 1.0), safe / hidden)
  }

  /** The arithmetic behind the source's formulas, for remaining > safe >= 2. */
  lemma Reciprocals(remaining: real, safe: real)
    requires safe >= 2.0 && remaining > safe
    ensures 1.0 / (safe / remaining) == remaining / safe
    ensures 1.0 / ((safe - 1.0) / (remaining - 1.0)) == (remaining - 1.0) / (safe - 1.0)
  {
    assert (safe / remaining) * (remaining / safe) == 1.0;
    assert ((safe - 1.0) / (remaining - 1.0)) * ((remaining - 1.0) / (safe - 1.0)) == 1.0;
  }

  /** Number.prototype.toFixed(2) read back with parseFloat, over the
      reals: the multiple of 0.01 nearest to x, halves rounded up. */
  function ToFixed2(x: real): real {
    (x * 100.0 + 0.5).Floor as real / 100.0
  }

  /** toFixed(1) the same way: the multiple of 0.1 nearest to x. */
  function ToFixed1(x: real): real {
    (x * 10.0 + 0.5).Floor as real / 10.0
  }

  /** ToFixed2 and ToFixed1 round to a whole number of hundredths (tenths)
      and move x by at most half of one. */
  lemma ToFixedRounds(x: real)
    ensures (ToFixed2(x) * 100.0).Floor as real == ToFixed2(x) * 100.0
    ensures x - 0.005 < ToFixed2(x) <= x + 0.005
    ensures (ToFixed1(x) * 10.0).Floor as real == ToFixed1(x) * 10.0
    ensures x - 0.05 < ToFixed1(x) <= x + 0.05
  {
  }

  /** Rounding never reverses an order. */
  lemma ToFixed2Monotone(x: real, y: real)
    requires x <= y
    ensures ToFixed2(x) <= ToFixed2(y)
  {
    var a := (x * 100.0 + 0.5).Floor;
    var b := (y * 100.0 + 0.5).Floor;
    assert a as real <= x * 100.0 + 0.5 <= y * 100.0 + 0.5 < b as real + 1.0;
    assert a <= b;
  }

  /** The figures of the DOM stats panel after k reveals, for every k with
      defined odds: both multipliers to two decimals and the chance of a
      safe reveal as a percentage to one decimal. PanelRounds proves each
      entry to be the exact odds rounded as toFixed rounds. */
  function Panel(k: nat): GameStats
    requires Defined(k)
  {
    match k
    case 0 => GameStats(1.13, 1.14, 88.9)
    case 1 => GameStats(1.14, 1.17, 87.5)
    case 2 => GameStats(1.17, 1.2, 85.7)
    case 3 => GameStats(1.2, 1.25, 83.3)
    case 4 => GameStats(1.25, 1.33, 80.0)
    case 5 => GameStats(1.33, 1.5, 75.0)
    case _ => GameStats(1.5, 2.0, 66.7)
  }

  /** x rounds to n hundredths when x * 100 lies within half of n. */
  lemma ToFixed2Is(x: real, n: int)
    requires n as real - 0.5 <= x * 100.0 < n as real + 0.5
    ensures ToFixed2(x) == n as real / 100.0
  {
    assert (x * 100.0 + 0.5).Floor == n;
  }

  /** x rounds to n tenths when x * 10 lies within half of n. */
  lemma ToFixed1Is(x: real, n: int)
    requires n as real - 0.5 <= x * 10.0 < n as real + 0.5
    ensures ToFixed1(x) == n as real / 10.0
  {
    assert (x * 10.0 + 0.5).Floor == n;
  }

  /** The shown multiplier is the exact one to two decimals. */
  lemma MultiplierRounds(k: nat)
    requires Defined(k)
    ensures Panel(k).multiplier == ToFixed2(Stats(k).multiplier)
  {
    StatsClosedForm(k);
    match k
    case 0 => ToFixed2Is(Stats(k).multiplier, 113);
    case 1 => ToFixed2Is(Stats(k).multiplier, 114);
    case 2 => ToFixed2Is(Stats(k).multiplier, 117);
    case 3 => ToFixed2Is(Stats(k).multiplier, 120);
    case 4 => ToFixed2Is(Stats(k).multiplier, 125);
    case 5 => ToFixed2Is(Stats(k).multiplier, 133);
    case 6 => ToFixed2Is(Stats(k).multiplier, 150);
  }

  /** The shown next multiplier is the exact one to two decimals. */
  lemma NextMultiplierRounds(k: nat)
    requires Defined(k)
    ensures Panel(k).nextMultiplier == ToFixed2(Stats(k).nextMultiplier)
  {
    StatsClosedForm(k);
    match k
    case 0 => ToFixed2Is(Stats(k).nextMultiplier, 114);
    case 1 => ToFixed2Is(Stats(k).nextMultiplier, 117);
    case 2 => ToFixed2Is(Stats(k).nextMultiplier, 120);
    case 3 => ToFixed2Is(Stats(k).nextMultiplier, 125);
    case 4 => ToFixed2Is(Stats(k).nextMultiplier, 133);
    case 5 => ToFixed2Is(Stats(k).nextMultiplier, 150);
    case 6 => ToFixed2Is(Stats(k).nextMultiplier, 200);
  }

  /** The shown chance is the exact percentage to one decimal. */
  lemma ChanceRounds(k: nat)
    requires Defined(k)
    ensures Panel(k).probability == ToFixed1(Stats(k).probability * 100.0)
  {
    StatsClosedForm(k);
    match k
    case 0 => ToFixed1Is(Stats(k).probability * 100.0, 889);
    case 1 => ToFixed1Is(Stats(k).probability * 100.0, 875);
    case 2 => ToFixed1Is(Stats(k).probability * 100.0, 857);
    case 3 => ToFixed1Is(Stats(k).probability * 100.0, 833);
    case 4 => ToFixed1Is(Stats(k).probability * 100.0, 800);
    case 5 => ToFixed1Is(Stats(k).probability * 100.0, 750);
    case 6 => ToFixed1Is(Stats(k).probability * 100.0, 667);
  }

  /** Each entry of the panel is the exact odds rounded by toFixed. */
  lemma PanelRounds(k: nat)
    requires Defined(k)
    ensures Panel(k) == GameStats(ToFixed2(Stats(k).multiplier), ToFixed2(Stats(k).nextMultiplier),
                                  ToFixed1(Stats(k).probability * 100.0))
  {
    MultiplierRounds(k);
    NextMultiplierRounds(k);
    ChanceRounds(k);
  }

  /** updateStats, the figures it writes: remaining = 9 - k,
      safeSpots = remaining - MINE_COUNT, probability = safeSpots / remaining,
      multiplier = 1 / probability and
      nextMultiplier = 1 / ((safeSpots - 1) / (remaining - 1)), shown with
      toFixed(2), and the chance as (probability * 100).toFixed(1). */
  method UpdateStats(revealedCount: nat) returns (st: GameStats)
    requires Defined(revealedCount)
    ensures st == Panel(revealedCount)
  {
    var remaining := (GridSize * GridSize - revealedCount) as real;
    var safeSpots := remaining - MineCount as real;
    var probability := safeSpots / remaining;
    var multiplier := ToFixed2(1.0 / probability);
    var nextMultiplier := ToFixed2(1.0 / ((safeSpots - 1.0) / (remaining - 1.0)));
    Reciprocals(remaining, safeSpots);
    PanelRounds(revealedCount);
    st := GameStats(multiplier, nextMultiplier, ToFixed1(probability * 100.0));
  }

  /** The chance of a safe reveal is strictly between 0 and 1, the
      multiplier is its reciprocal (fair odds, so above 1), and the next
      multiplier is larger still. */
  lemma StatsBounds(k: nat)
    requires Defined(k)
    ensures 0.0 < Stats(k).probability < 1.0
    ensures Stats(k).multiplier > 1.0 && Stats(k).multiplier * Stats(k).probability == 1.0
    ensures Stats(k).nextMultiplier > Stats(k).multiplier
  {
    var hidden := (CellCount - k) as real;
    var safe := hidden - MineCount as real;
    FairOdds(hidden, safe);
  }

  /** The same facts for any safe >= 2 safe cells among hidden = safe + 1. */
  lemma FairOdds(hidden: real, safe: real)
    requires safe >= 2.0 && hidden == safe + 1.0
    ensures 0.0 < safe / hidden < 1.0
    ensures hidden / safe > 1.0 && (hidden / safe) * (safe / hidden) == 1.0
    ensures (hidden - 1.0) / (safe - 1.0) > hidden / safe
  {
    assert hidden / safe == 1.0 + 1.0 / safe;
    assert (hidden - 1.0) / (safe - 1.0) == 1.0 + 1.0 / (safe - 1.0);
    assert 1.0 / safe < 1.0 / (safe - 1.0);
  }

  /** The closed forms for this board: probability (8-k)/(9-k), multiplier
      (9-k)/(8-k), next multiplier (8-k)/(7-k). */
  lemma StatsClosedForm(k: nat)
    requires Defined(k)
    ensures Stats(k).probability == (8 - k) as real / (9 - k) as real
    ensures Stats(k).multiplier == (9 - k) as real / (8 - k) as real
    ensures Stats(k).nextMultiplier == (8 - k) as real / (7 - k) as real
  {
    assert (CellCount - k) as real - MineCount as real == (8 - k) as real;
    assert (CellCount - k) as real - 1.0 == (8 - k) as real;
  }

  /** The "next" multiplier shown now is the multiplier shown after one more
      safe reveal. */
  lemma NextIsNextMultiplier(k: nat)
    requires Defined(k + 1)
    ensures Stats(k).nextMultiplier == Stats(k + 1).multiplier
  {
    assert (CellCount - k) as real - 1.0 == (CellCount - (k + 1)) as real;
  }

  /** The multiplier grows strictly with every reveal. */
  lemma {:induction false} MultiplierIncreasing(j: nat, k: nat)
    requires j < k && Defined(k)
    ensures Stats(j).multiplier < Stats(k).multiplier
    decreases k - j
  {
    NextIsNextMultiplier(j);
    StatsBounds(j);
    if j + 1 < k {
      MultiplierIncreasing(j + 1, k);
    }
  }

  /** The exact odds at the start, after three safe reveals and at the
      target. */
  lemma StatsExamples()
    ensures Stats(0).probability == 8.0 / 9.0 && Stats(0).multiplier == 1.125
    ensures Stats(3).probability == 5.0 / 6.0 && Stats(3).multiplier == 1.2
    ensures Stats(3).nextMultiplier == 1.25 && Stats(4).multiplier == 1.25
  {
    StatsClosedForm(0);
    StatsClosedForm(3);
    StatsClosedForm(4);
  }

  /** The panel stays within rounding of the exact odds: each multiplier is
      within half a cent, never below 1, and the next multiplier is never
      shown below the current one. */
  lemma PanelBounds(k: nat)
    requires Defined(k)
    ensures Stats(k).multiplier - 0.005 < Panel(k).multiplier <= Stats(k).multiplier + 0.005
    ensures Panel(k).multiplier >= 1.0 && Panel(k).nextMultiplier >= Panel(k).multiplier
    ensures 0.0 <= Panel(k).probability <= 100.0
  {
    StatsBounds(k);
    PanelRounds(k);
    ToFixedRounds(Stats(k).multiplier);
    ToFixed2Monotone(1.0, Stats(k).multiplier);
    ToFixed2Monotone(Stats(k).multiplier, Stats(k).nextMultiplier);
    assert ToFixed2(1.0) == 1.0 by { assert (1.0 * 100.0 + 0.5).Floor == 100; }
    var p := Stats(k).probability * 100.0;
    assert 0.0 < p < 100.0;
    assert 0 <= (p * 10.0 + 0.5).Floor <= 1000;
  }

  /** The panel's multiplier never goes down as cells are revealed. */
  lemma PanelMonotone(j: nat, k: nat)
    requires j <= k && Defined(k)
    ensures Panel(j).multiplier <= Panel(k).multiplier
  {
    if j < k {
      PanelRounds(j);
      PanelRounds(k);
      MultiplierIncreasing(j, k);
      ToFixed2Monotone(Stats(j).multiplier, Stats(k).multiplier);
    }
  }
}
