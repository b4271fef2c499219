/** The game board of Grid.java: an r x c matrix of cell codes with bounds-checked
    get/set and a reset to the empty sea. Grids here are immutable values; the
    sharing of one matrix between several Grid objects is modelled in GridStorage. */
module Grids {

  /** Cell codes written by the game. */
  const EmptyCell: char := '-'
  const ShipCell: char := 'S'
  const HitCell: char := '$'
  const SunkCell: char := 'X'
  const MissCell: char := 'O'

  /** A Grid object: its declared dimensions and the matrix it stores. */
  datatype Grid = Grid(dimRow: nat, dimColumn: nat, cells: seq<seq<char>>)

  /** The matrix has exactly dimRow rows of dimColumn cells each. */
  ghost predicate Valid(g: Grid) {
    |g.cells| == g.dimRow && forall i :: 0 <= i < |g.cells| ==> |g.cells[i]| == g.dimColumn
  }

  predicate InBounds(g: Grid, row: int, column: int) {
    0 <= row < g.dimRow && 0 <= column < g.dimColumn
  }

  ghost predicate SameShape(g: Grid, h: Grid) {
    Valid(g) && Valid(h) && g.dimRow == h.dimRow && g.dimColumn == h.dimColumn
  }

  /** Grid.getGridValue; an index outside the matrix is an array-bounds error in the source. */
  function GetGridValue(g: Grid, row: int, column: int): char
    requires Valid(g) && InBounds(g, row, column)
  {
    g.cells[row][column]
  }

  /** Grid.setGridValue: exactly one cell takes the new value. */
  function SetGridValue(g: Grid, row: int, column: int, value: char): (r: Grid)
    requires Valid(g) && InBounds(g, row, column)
    ensures SameShape(g, r)
    ensures GetGridValue(r, row, column) == value
    ensures forall i, j :: InBounds(g, i, j) && (i != row || j != column) ==>
              GetGridValue(r, i, j) == GetGridValue(g, i, j)
  {
    g.(cells := g.cells[row := g.cells[row][column := value]])
  }

  /** Grid.resetGrid: every cell of the dimRow x dimColumn matrix becomes '-'. */
  function ResetGrid(g: Grid): (r: Grid)
    requires Valid(g)
    ensures SameShape(g, r)
    ensures forall i, j :: InBounds(r, i, j) ==> GetGridValue(r, i, j) == EmptyCell
  {
    Grid(g.dimRow, g.dimColumn, seq(g.dimRow, _ => seq(g.dimColumn, _ => EmptyCell)))
  }

  /** The Grid(rows, columns) constructor: Java fills a fresh char matrix with '\0',
      then resetGrid overwrites every cell. */
  function NewGrid(rows: nat, columns: nat): (g: Grid)
    ensures Valid(g) && g.dimRow == rows && g.dimColumn == columns
    ensures forall i, j :: InBounds(g, i, j) ==> GetGridValue(g, i, j) == EmptyCell
  {
    ResetGrid(Grid(rows, columns, seq(rows, _ => seq(columns, _ => '\0'))))
  }

  /** resetGrid is idempotent, and a reset grid is indistinguishable from a new one of the same size. */
  lemma ResetIdempotent(g: Grid)
    requires Valid(g)
    ensures ResetGrid(ResetGrid(g)) == ResetGrid(g)
    ensures ResetGrid(g) == NewGrid(g.dimRow, g.dimColumn)
  {
  }

  // Counting cells that hold a given code.

  function CountInRow(row: seq<char>, v: char): nat {
    if |row| == 0 then 0 else (if row[0] == v then 1 else 0) + CountInRow(row[1..], v)
  }

  function CountInRows(rows: seq<seq<char>>, v: char): nat {
    if |rows| == 0 then 0 else CountInRow(rows[0], v) + CountInRows(rows[1..], v)
  }

  /** The number of cells of `g` holding code `v`. */
  function CountValue(g: Grid, v: char): nat {
    CountInRows(g.cells, v)
  }

  lemma {:induction false} CountInRowUpdate(row: seq<char>, k: nat, x: char, v: char)
    requires k < |row|
    ensures CountInRow(row[k := x], v)
            == CountInRow(row, v) - (if row[k] == v then 1 else 0) + (if x == v then 1 else 0)
  {
    if k > 0 {
      assert row[k := x][1..] == row[1..][k - 1 := x];
      CountInRowUpdate(row[1..], k - 1, x, v);
    } else {
      assert row[k := x][1..] == row[1..];
    }
  }

  lemma {:induction false} CountInRowsUpdate(rows: seq<seq<char>>, r: nat, c: nat, x: char, v: char)
    requires r < |rows| && c < |rows[r]|
    ensures CountInRows(rows[r := rows[r][c := x]], v)
            == CountInRows(rows, v) - (if rows[r][c] == v then 1 else 0) + (if x == v then 1 else 0)
  {
    if r > 0 {
      assert rows[r := rows[r][c := x]][1..] == rows[1..][r - 1 := rows[1..][r - 1][c := x]];
      CountInRowsUpdate(rows[1..], r - 1, c, x, v);
    } else {
      assert rows[r := rows[r][c := x]][1..] == rows[1..];
      CountInRowUpdate(rows[0], c, x, v);
    }
  }

  /** Writing one cell changes the count of a code by at most one, exactly as the old and new codes dictate. */
  lemma CountAfterSet(g: Grid, row: int, column: int, value: char, v: char)
    requires Valid(g) && InBounds(g, row, column)
    ensures CountValue(SetGridValue(g, row, column, value), v)
            == CountValue(g, v) - (if GetGridValue(g, row, column) == v then 1 else 0)
               + (if value == v then 1 else 0)
  {
    CountInRowsUpdate(g.cells, row, column, value, v);
  }

  lemma {:induction false} CountInRowAbsent(row: seq<char>, v: char)
    requires forall k :: 0 <= k < |row| ==> row[k] != v
    ensures CountInRow(row, v) == 0
  {
    if |row| > 0 {
      CountInRowAbsent(row[1..], v);
    }
  }

  lemma {:induction false} CountInRowsAbsent(rows: seq<seq<char>>, v: char)
    requires forall i, k :: 0 <= i < |rows| && 0 <= k < |rows[i]| ==> rows[i][k] != v
    ensures CountInRows(rows, v) == 0
  {
    if |rows| > 0 {
      CountInRowAbsent(rows[0], v);
      assert forall i, k :: 0 <= i < |rows[1..]| && 0 <= k < |rows[1..][i]| ==> rows[1..][i][k] == rows[i + 1][k];
      CountInRowsAbsent(rows[1..], v);
    }
  }

  /** A freshly reset grid holds no ship cell. */
  lemma ResetHasNoShips(g: Grid)
    requires Valid(g)
    ensures CountValue(ResetGrid(g), ShipCell) == 0
  {
    CountInRowsAbsent(ResetGrid(g).cells, ShipCell);
  }

  lemma {:induction false} CountInRowSame(a: seq<char>, b: seq<char>, v: char)
    requires |a| == |b| && forall k :: 0 <= k < |a| ==> (a[k] == v <==> b[k] == v)
    ensures CountInRow(a, v) == CountInRow(b, v)
  {
    if |a| > 0 {
      CountInRowSame(a[1..], b[1..], v);
    }
  }

  lemma {:induction false} CountInRowsSame(a: seq<seq<char>>, b: seq<seq<char>>, v: char)
    requires |a| == |b|
    requires forall i :: 0 <= i < |a| ==> |a[i]| == |b[i]|
    requires forall i, k :: 0 <= i < |a| && 0 <= k < |a[i]| ==> (a[i][k] == v <==> b[i][k] == v)
    ensures CountInRows(a, v) == CountInRows(b, v)
  {
    if |a| > 0 {
      CountInRowSame(a[0], b[0], v);
      CountInRowsSame(a[1..], b[1..], v);
    }
  }

  /** Two boards of the same shape whose cells hold `v` in the same places have the same count of `v`. */
  lemma CountSameCells(g: Grid, h: Grid, v: char)
    requires SameShape(g, h)
    requires forall i, j :: InBounds(g, i, j) ==> (GetGridValue(g, i, j) == v <==> GetGridValue(h, i, j) == v)
    ensures CountValue(g, v) == CountValue(h, v)
  {
    forall i, k | 0 <= i < |g.cells| && 0 <= k < |g.cells[i]|
      ensures g.cells[i][k] == v <==> h.cells[i][k] == v
    {
      assert GetGridValue(g, i, k) == g.cells[i][k] && GetGridValue(h, i, k) == h.cells[i][k];
    }
    CountInRowsSame(g.cells, h.cells, v);
  }

  lemma {:induction false} CountInRowPositive(row: seq<char>, v: char, k: int)
    requires 0 <= k < |row| && row[k] == v
    ensures CountInRow(row, v) > 0
  {
    if k > 0 {
      CountInRowPositive(row[1..], v, k - 1);
    }
  }

  lemma {:induction false} CountInRowsPositive(rows: seq<seq<char>>, v: char, i: int, k: int)
    requires 0 <= i < |rows| && 0 <= k < |rows[i]| && rows[i][k] == v
    ensures CountInRows(rows, v) > 0
  {
    if i > 0 {
      CountInRowsPositive(rows[1..], v, i - 1, k);
    } else {
      CountInRowPositive(rows[0], v, k);
    }
  }

  /** A board with a cell holding `v` counts at least one `v`. */
  lemma CountPositive(g: Grid, v: char, i: int, j: int)
    requires Valid(g) && InBounds(g, i, j) && GetGridValue(g, i, j) == v
    ensures CountValue(g, v) > 0
  {
    CountInRowsPositive(g.cells, v, i, j);
  }
}
