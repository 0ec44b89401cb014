/** The board of the Mines game: its fixed configuration, 3x3 boolean
    matrices, counting over them, and the rejection-sampling mine placement. */
module Board {

  /** The configuration shared by all three front ends. */
  const GridSize: nat := 3
  const TargetReveals: nat := 4
  const MineCount: nat := 1
  const CellCount: nat := GridSize * GridSize

  /** A matrix of booleans, row by row: the mine grid or the revealed mask. */
  type Matrix = seq<seq<bool>>

  /** A random draw of a cell, as (row, col). */
  type Cell = (int, int)

  predicate OnBoard(d: Cell) {
    0 <= d.0 < GridSize && 0 <= d.1 < GridSize
  }

  /** The matrix has the GridSize x GridSize shape of a board. */
  predicate IsBoard(m: Matrix) {
    |m| == GridSize && forall i :: 0 <= i < |m| ==> |m[i]| == GridSize
  }

  predicate SameShape(a: Matrix, b: Matrix) {
    |a| == |b| && forall i :: 0 <= i < |a| ==> |a[i]| == |b[i]|
  }

  /** The all-false board: no mine, nothing revealed. */
  function Empty(): (m: Matrix)
    ensures IsBoard(m)
    ensures forall i, j :: 0 <= i < GridSize && 0 <= j < GridSize ==> !m[i][j]
  {
    seq(GridSize, _ => seq(GridSize, _ => false))
  }

  /** The matrix with cell (r, c) set to true and every other cell as it was. */
  function Mark(m: Matrix, r: nat, c: nat): (t: Matrix)
    requires r < |m| && c < |m[r]|
    ensures SameShape(t, m) && t[r][c]
    ensures forall i, j :: 0 <= i < |m| && 0 <= j < |m[i]| && (i != r || j != c) ==> t[i][j] == m[i][j]
  {
    m[r := m[r][c := true]]
  }

  /** The values of a two-dimensional array, as a matrix. */
  function Cells(a: array2<bool>): (m: Matrix)
    reads a
    ensures |m| == a.Length0 && forall i :: 0 <= i < |m| ==> |m[i]| == a.Length1
    ensures forall i, j :: 0 <= i < a.Length0 && 0 <= j < a.Length1 ==> m[i][j] == a[i, j]
  {
    seq(a.Length0, i requires 0 <= i < a.Length0 reads a =>
      seq(a.Length1, j requires 0 <= j < a.Length1 reads a => a[i, j]))
  }

  /** The array holds exactly the values of the matrix. */
  ghost predicate Mirrors(a: array2<bool>, m: Matrix)
    reads a
  {
    && |m| == a.Length0
    && (forall i :: 0 <= i < |m| ==> |m[i]| == a.Length1)
    && forall i, j :: 0 <= i < a.Length0 && 0 <= j < a.Length1 ==> a[i, j] == m[i][j]
  }

  // ---------------------------------------------------------------------
  // Counting

  /** The number of positions k where a[k] == x and b[k] == y. */
  function CountRow(a: seq<bool>, b: seq<bool>, x: bool, y: bool): nat
    requires |a| == |b|
  {
    if a == [] then 0
    else (if a[0] == x && b[0] == y then 1 else 0) + CountRow(a[1..], b[1..], x, y)
  }

  /** The number of cells (i, j) where a[i][j] == x and b[i][j] == y. */
  function CountCells(a: Matrix, b: Matrix, x: bool, y: bool): nat
    requires SameShape(a, b)
  {
    if a == [] then 0
    else CountRow(a[0], b[0], x, y) + CountCells(a[1..], b[1..], x, y)
  }

  /** The number of true cells of a matrix. */
  function Count(m: Matrix): nat {
    CountCells(m, m, true, true)
  }

  /** How the count of cells matching (x, y) moves when a cell holding `was`,
      beside `other` in the second matrix, is set to true in the first. */
  function MarkDelta(was: bool, other: bool, x: bool, y: bool): int {
    if was || other != y then 0 else if x then 1 else -1
  }

  lemma {:induction false} CountRowMark(a: seq<bool>, b: seq<bool>, c: nat, x: bool, y: bool)
    requires |a| == |b| && c < |a|
    ensures CountRow(a[c := true], b, x, y) as int == CountRow(a, b, x, y) + MarkDelta(a[c], b[c], x, y)
  {
    if c > 0 {
      CountRowMark(a[1..], b[1..], c - 1, x, y);
      assert a[c := true][1..] == a[1..][c - 1 := true];
    } else {
      assert a[c := true][1..] == a[1..];
    }
  }

  /** Setting one cell of the first matrix to true moves exactly that cell
      from the (false, other) class to the (true, other) class. */
  lemma {:induction false} CountCellsMark(a: Matrix, b: Matrix, r: nat, c: nat, x: bool, y: bool)
    requires SameShape(a, b) && r < |a| && c < |a[r]|
    ensures SameShape(Mark(a, r, c), b)
    ensures CountCells(Mark(a, r, c), b, x, y) as int == CountCells(a, b, x, y) + MarkDelta(a[r][c], b[r][c], x, y)
  {
    var t := Mark(a, r, c);
    if r > 0 {
      assert t[1..] == Mark(a[1..], r - 1, c);
      CountCellsMark(a[1..], b[1..], r - 1, c, x, y);
    } else {
      assert t[1..] == a[1..];
      CountRowMark(a[0], b[0], c, x, y);
    }
  }

  lemma {:induction false} CountRowMarkSelf(a: seq<bool>, c: nat)
    requires c < |a|
    ensures CountRow(a[c := true], a[c := true], true, true) == CountRow(a, a, true, true) + (if a[c] then 0 else 1)
  {
    if c > 0 {
      CountRowMarkSelf(a[1..], c - 1);
      assert a[c := true][1..] == a[1..][c - 1 := true];
    } else {
      assert a[c := true][1..] == a[1..];
    }
  }

  /** Setting a false cell to true adds one to the count; a true cell, nothing. */
  lemma {:induction false} CountMark(m: Matrix, r: nat, c: nat)
    requires r < |m| && c < |m[r]|
    ensures Count(Mark(m, r, c)) == Count(m) + (if m[r][c] then 0 else 1)
  {
    var t := Mark(m, r, c);
    if r > 0 {
      assert t[1..] == Mark(m[1..], r - 1, c);
      CountMark(m[1..], r - 1, c);
    } else {
      assert t[1..] == m[1..];
      CountRowMarkSelf(m[0], c);
    }
  }

  lemma {:induction false} CountRowSplit(a: seq<bool>, b: seq<bool>)
    requires |a| == |b|
    ensures CountRow(a, b, true, true) + CountRow(a, b, true, false) == CountRow(a, a, true, true)
    ensures CountRow(a, b, true, true) + CountRow(a, b, false, true) == CountRow(b, b, true, true)
    ensures CountRow(a, b, true, true) + CountRow(a, b, true, false)
          + CountRow(a, b, false, true) + CountRow(a, b, false, false) == |a|
  {
    if a != [] {
      CountRowSplit(a[1..], b[1..]);
    }
  }

  /** The four (a, b) classes partition the cells: their sums along a and
      along b are the true counts of a and of b, and all four sum to the size. */
  lemma {:induction false} CountCellsSplit(a: Matrix, b: Matrix)
    requires SameShape(a, b)
    ensures CountCells(a, b, true, true) + CountCells(a, b, true, false) == Count(a)
    ensures CountCells(a, b, true, true) + CountCells(a, b, false, true) == Count(b)
    ensures IsBoard(a) ==>
              CountCells(a, b, true, true) + CountCells(a, b, true, false)
              + CountCells(a, b, false, true) + CountCells(a, b, false, false) == CellCount
  {
    CountCellsSplitRows(a, b);
    if IsBoard(a) {
      SizeOfBoard(a);
    }
  }

  /** The row-by-row form of CountCellsSplit; the total is the sum of the row lengths. */
  lemma {:induction false} CountCellsSplitRows(a: Matrix, b: Matrix)
    requires SameShape(a, b)
    ensures CountCells(a, b, true, true) + CountCells(a, b, true, false) == Count(a)
    ensures CountCells(a, b, true, true) + CountCells(a, b, false, true) == Count(b)
    ensures CountCells(a, b, true, true) + CountCells(a, b, true, false)
          + CountCells(a, b, false, true) + CountCells(a, b, false, false) == Size(a)
  {
    if a != [] {
      CountRowSplit(a[0], b[0]);
      CountCellsSplitRows(a[1..], b[1..]);
    }
  }

  /** The number of cells of a matrix. */
  function Size(m: Matrix): nat {
    if m == [] then 0 else |m[0]| + Size(m[1..])
  }

  lemma SizeOfBoard(m: Matrix)
    requires IsBoard(m)
    ensures Size(m) == CellCount
  {
    var m1 := m[1..];
    var m2 := m1[1..];
    assert m2[1..] == [];
    assert Size(m2) == |m[2]|;
    assert Size(m1) == |m[1]| + Size(m2);
    assert Size(m) == |m[0]| + Size(m1);
  }

  lemma {:induction false} CountRowNone(a: seq<bool>, b: seq<bool>, y: bool)
    requires |a| == |b| && forall k :: 0 <= k < |a| ==> !a[k]
    ensures CountRow(a, b, true, y) == 0
  {
    if a != [] {
      CountRowNone(a[1..], b[1..], y);
    }
  }

  /** Nothing is counted in the true column of an all-false matrix. */
  lemma {:induction false} CountCellsNone(a: Matrix, b: Matrix, y: bool)
    requires SameShape(a, b)
    requires forall i, j :: 0 <= i < |a| && 0 <= j < |a[i]| ==> !a[i][j]
    ensures CountCells(a, b, true, y) == 0
  {
    if a != [] {
      CountRowNone(a[0], b[0], y);
      assert forall i, j :: 0 <= i < |a[1..]| && 0 <= j < |a[1..][i]| ==> !a[1..][i][j] by {
        forall i, j | 0 <= i < |a[1..]| && 0 <= j < |a[1..][i]| ensures !a[1..][i][j] {
          assert a[1..][i] == a[i + 1];
        }
      }
      CountCellsNone(a[1..], b[1..], y);
    }
  }

  /** The empty board has no true cell, in any pairing. */
  lemma CountEmpty(b: Matrix, y: bool)
    requires IsBoard(b)
    ensures CountCells(Empty(), b, true, y) == 0 && Count(Empty()) == 0
  {
    CountCellsNone(Empty(), b, y);
    CountCellsNone(Empty(), Empty(), true);
  }

  /** Two matrices of the same shape that agree on every cell are equal. */
  lemma MatrixEquality(a: Matrix, b: Matrix)
    requires SameShape(a, b)
    requires forall i, j :: 0 <= i < |a| && 0 <= j < |a[i]| ==> a[i][j] == b[i][j]
    ensures a == b
  {
    forall i | 0 <= i < |a| ensures a[i] == b[i] {
      assert forall j :: 0 <= j < |a[i]| ==> a[i][j] == b[i][j];
    }
  }

  /** An array that holds the values of a matrix reads back as that matrix. */
  lemma CellsOfMirror(a: array2<bool>, m: Matrix)
    requires Mirrors(a, m)
    ensures Cells(a) == m
  {
    MatrixEquality(Cells(a), m);
  }

  // ---------------------------------------------------------------------
  // Mine placement

  /** Rejection sampling, as in generateGrid: a fresh all-false array is
      filled by drawing cells until MineCount distinct cells hold a mine; a
      draw that lands on a mine is discarded. The random source is the
      sequence `draws`; `used` says how many draws were consumed, and
      placement stops early if the draws run out. The grid returned is the
      array's final contents. */
  method GenerateGrid(draws: seq<Cell>) returns (grid: Matrix, used: nat)
    requires forall k :: 0 <= k < |draws| ==> OnBoard(draws[k])
    ensures IsBoard(grid) && used <= |draws|
    ensures Count(grid) <= MineCount
    ensures Count(grid) == MineCount || used == |draws|
    ensures forall i, j :: 0 <= i < GridSize && 0 <= j < GridSize && grid[i][j] ==> (i, j) in draws[..used]
    ensures |draws| > 0 ==> used == 1 && Count(grid) == MineCount
    ensures |draws| > 0 ==> forall i, j :: 0 <= i < GridSize && 0 <= j < GridSize ==> (grid[i][j] <==> (i, j) == draws[0])
    ensures |draws| == 0 ==> grid == Empty()
  {
    var a := new bool[GridSize, GridSize]((i, j) => false);
    ghost var cells := Empty();
    CountEmpty(cells, true);
    var minesPlaced: nat := 0;
    used := 0;
    while minesPlaced < MineCount && used < |draws|
      invariant a.Length0 == GridSize && a.Length1 == GridSize
      invariant Mirrors(a, cells) && IsBoard(cells)
      invariant used <= |draws|
      invariant minesPlaced <= MineCount
      invariant Count(cells) == minesPlaced
      invariant forall i, j :: 0 <= i < GridSize && 0 <= j < GridSize && cells[i][j] ==> (i, j) in draws[..used]
      invariant used == 0 ==> cells == Empty()
      invariant used > 0 ==> minesPlaced == MineCount && used == 1
      invariant used > 0 ==> forall i, j :: 0 <= i < GridSize && 0 <= j < GridSize ==> (cells[i][j] <==> (i, j) == draws[0])
      decreases |draws| - used
    {
      var (row, col) := draws[used];
      if !a[row, col] {
        a[row, col] := true;
        CountMark(cells, row, col);
        cells := Mark(cells, row, col);
        minesPlaced := minesPlaced + 1;
      }
      used := used + 1;
    }
    CellsOfMirror(a, cells);
    grid := Cells(a);
  }
}
