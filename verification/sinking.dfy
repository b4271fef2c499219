/** The sink check and the sunk marking of CommandsGame.java (isSinked and
    writeSinkedShips). Both walk straight runs from the struck cell towards
    North, South, West and East; a run stops at '-', at 'O' or at the edge. Which
    directions are walked depends on the struck cell's position class: the
    interior, or one of the edge classes the source enumerates. */
module Sinking {
  import opened Grids

  datatype Dir = North | South | West | East

  function RayRow(row: int, d: Dir, k: int): int {
    match d
    case North => row - k
    case South => row + k
    case _ => row
  }

  function RayColumn(column: int, d: Dir, k: int): int {
    match d
    case West => column - k
    case East => column + k
    case _ => column
  }

  /** The cell k steps from (row, column) towards d (step 0 is the cell itself);
      off the board it reads as '-', which stops every walk. */
  function Probe(g: Grid, row: int, column: int, d: Dir, k: int): char
    requires Valid(g)
  {
    if InBounds(g, RayRow(row, d, k), RayColumn(column, d, k))
    then GetGridValue(g, RayRow(row, d, k), RayColumn(column, d, k))
    else EmptyCell
  }

  /** '-' (sea) and 'O' (miss) end a run. */
  predicate Blocks(ch: char) {
    ch == EmptyCell || ch == MissCell
  }

  /** The number of steps left before a walk towards d leaves the board. */
  function StepsLeft(g: Grid, row: int, column: int, d: Dir, k: int): int {
    match d
    case North => row - k + 1
    case South => g.dimRow - row - k
    case West => column - k + 1
    case East => g.dimColumn - column - k
  }

  /** Every cell at steps from .. to-1 towards d is neither '-' nor 'O' (nor off the board). */
  ghost predicate ClearBetween(g: Grid, row: int, column: int, d: Dir, from: int, to: int)
    requires Valid(g)
  {
    forall m :: from <= m < to ==> !Blocks(Probe(g, row, column, d, m))
  }

  /** Walking towards d from step `from`, an 'S' is met before any '-', 'O' or the edge. */
  ghost predicate ReachesShip(g: Grid, row: int, column: int, d: Dir, from: int)
    requires Valid(g)
  {
    exists k :: from <= k && Probe(g, row, column, d, k) == ShipCell && ClearBetween(g, row, column, d, from, k)
  }

  /** One scanning `while` loop of isSinked, from step k: true when it meets an 'S'. */
  function ScanFrom(g: Grid, row: int, column: int, d: Dir, k: int): (meets: bool)
    requires Valid(g)
    ensures meets <==> ReachesShip(g, row, column, d, k)
    decreases StepsLeft(g, row, column, d, k)
  {
    if !InBounds(g, RayRow(row, d, k), RayColumn(column, d, k)) || Blocks(Probe(g, row, column, d, k)) then
      BlockedStopsWalk(g, row, column, d, k);
      false
    else if Probe(g, row, column, d, k) == ShipCell then
      assert ClearBetween(g, row, column, d, k, k);
      true
    else
      var rest := ScanFrom(g, row, column, d, k + 1);
      assert ReachesShip(g, row, column, d, k) ==> ReachesShip(g, row, column, d, k + 1) by {
        if ReachesShip(g, row, column, d, k) {
          var k' :| k <= k' && Probe(g, row, column, d, k') == ShipCell && ClearBetween(g, row, column, d, k, k');
          assert k + 1 <= k' && ClearBetween(g, row, column, d, k + 1, k');
        }
      }
      assert ReachesShip(g, row, column, d, k + 1) ==> ReachesShip(g, row, column, d, k) by {
        if ReachesShip(g, row, column, d, k + 1) {
          var k' :| k + 1 <= k' && Probe(g, row, column, d, k') == ShipCell && ClearBetween(g, row, column, d, k + 1, k');
          assert ClearBetween(g, row, column, d, k, k');
        }
      }
      rest
  }

  /** A walk whose first cell is '-', 'O' or off the board meets no ship. */
  lemma BlockedStopsWalk(g: Grid, row: int, column: int, d: Dir, k: int)
    requires Valid(g) && Blocks(Probe(g, row, column, d, k))
    ensures !ReachesShip(g, row, column, d, k)
  {
    forall k' | k <= k'
      ensures !(Probe(g, row, column, d, k') == ShipCell && ClearBetween(g, row, column, d, k, k'))
    {
      if k' > k {
        assert k <= k < k';
      }
    }
  }

  // The position classes, exactly as the source enumerates them for a board of
  // `rows` x `columns` cells. isSinked and writeSinkedShips use the same ones.

  predicate Interior(rows: int, columns: int, row: int, column: int) {
    0 < column < columns - 1 && 0 < row < rows - 1
  }

  predicate NorthEdge(rows: int, columns: int, row: int, column: int) {
    || (row == rows - 1 && column == 0)
    || (row == rows - 1 && column == columns - 1)
    || (0 < column < columns - 1 && row == rows - 1)
    || (0 < row < rows - 1 && column == columns - 1)
    || (0 < row < rows - 1 && column == 0)
  }

  predicate SouthEdge(rows: int, columns: int, row: int, column: int) {
    || (row == 0 && column == 0)
    || (0 < row < rows - 1 && column == columns - 1)
    || (0 < column < columns - 1 && row == 0)
    || (column == columns - 1 && row == 0)
    || (0 < row < rows - 1 && column == 0)
  }

  predicate WestEdge(rows: int, columns: int, row: int, column: int) {
    || (0 < column < columns - 1 && row == 0)
    || (0 < column < columns - 1 && row == rows - 1)
    || (column == columns - 1 && row == 0)
    || (0 < row < rows - 1 && column == columns - 1)
    || (row == rows - 1 && column == columns - 1)
  }

  predicate EastEdge(rows: int, columns: int, row: int, column: int) {
    || (row == 0 && column == 0)
    || (0 < row < rows - 1 && column == 0)
    || (row == rows - 1 && column == 0)
    || (0 < column < columns - 1 && row == 0)
    || (0 < column < columns - 1 && row == rows - 1)
  }

  /** isSinked walks towards d from this position (in its edge branch or its interior branch). */
  predicate Scanned(rows: int, columns: int, row: int, column: int, d: Dir) {
    Interior(rows, columns, row, column) ||
    match d
    case North => NorthEdge(rows, columns, row, column)
    case South => SouthEdge(rows, columns, row, column)
    case West => WestEdge(rows, columns, row, column)
    case East => EastEdge(rows, columns, row, column)
  }

  /** Every in-bounds position walks North or South, and a direction it does not
      walk has no neighbouring cell that way. */
  lemma ScannedCover(rows: int, columns: int, row: int, column: int)
    requires 0 <= row < rows && 0 <= column < columns
    ensures Scanned(rows, columns, row, column, North) || Scanned(rows, columns, row, column, South)
    ensures forall d :: !Scanned(rows, columns, row, column, d) ==>
      !(0 <= RayRow(row, d, 1) < rows && 0 <= RayColumn(column, d, 1) < columns)
  {
  }

  /** On a board of at least 2 x 2 the position classes walk exactly the directions
      that have a neighbouring cell. */
  lemma ScannedExactlyInBounds(rows: int, columns: int, row: int, column: int, d: Dir)
    requires 2 <= rows && 2 <= columns && 0 <= row < rows && 0 <= column < columns
    ensures Scanned(rows, columns, row, column, d) <==>
      0 <= RayRow(row, d, 1) < rows && 0 <= RayColumn(column, d, 1) < columns
  {
  }

  /** A direction with no neighbouring cell reaches a ship only through the struck cell itself. */
  lemma ReachesAtEdge(g: Grid, row: int, column: int, d: Dir)
    requires Valid(g) && InBounds(g, row, column)
    requires !InBounds(g, RayRow(row, d, 1), RayColumn(column, d, 1))
    ensures ReachesShip(g, row, column, d, 0) <==> GetGridValue(g, row, column) == ShipCell
  {
    if ReachesShip(g, row, column, d, 0) {
      var k :| 0 <= k && Probe(g, row, column, d, k) == ShipCell && ClearBetween(g, row, column, d, 0, k);
      assert Probe(g, row, column, d, 1) == EmptyCell;
      assert k >= 2 ==> !Blocks(Probe(g, row, column, d, 1));
    }
    if GetGridValue(g, row, column) == ShipCell {
      assert Probe(g, row, column, d, 0) == ShipCell && ClearBetween(g, row, column, d, 0, 0);
    }
  }

  /** isSinked, with its branches in the source's order: false as soon as one walk
      meets an 'S'. The struck ship is sunk iff no walk in any of the four directions
      reaches an 'S' before '-', 'O' or the edge. */
  function IsSinked(g: Grid, row: int, column: int): (sunk: bool)
    requires Valid(g) && InBounds(g, row, column)
    ensures sunk <==> forall d :: !ReachesShip(g, row, column, d, 0)
  {
    var rows := g.dimRow;
    var columns := g.dimColumn;
    ScannedCover(rows, columns, row, column);
    assert forall d :: !Scanned(rows, columns, row, column, d) ==>
      (ReachesShip(g, row, column, d, 0) <==> GetGridValue(g, row, column) == ShipCell) by {
      forall d | !Scanned(rows, columns, row, column, d)
        ensures ReachesShip(g, row, column, d, 0) <==> GetGridValue(g, row, column) == ShipCell
      {
        ReachesAtEdge(g, row, column, d);
      }
    }
    assert GetGridValue(g, row, column) == ShipCell ==>
      ReachesShip(g, row, column, North, 0) && ReachesShip(g, row, column, South, 0) by {
      if GetGridValue(g, row, column) == ShipCell {
        assert Probe(g, row, column, North, 0) == ShipCell && ClearBetween(g, row, column, North, 0, 0);
        assert Probe(g, row, column, South, 0) == ShipCell && ClearBetween(g, row, column, South, 0, 0);
      }
    }
    if NorthEdge(rows, columns, row, column) && ScanFrom(g, row, column, North, 0) then false
    else if SouthEdge(rows, columns, row, column) && ScanFrom(g, row, column, South, 0) then false
    else if WestEdge(rows, columns, row, column) && ScanFrom(g, row, column, West, 0) then false
    else if EastEdge(rows, columns, row, column) && ScanFrom(g, row, column, East, 0) then false
    else if Interior(rows, columns, row, column)
         && (ScanFrom(g, row, column, North, 0) || ScanFrom(g, row, column, West, 0)
             || ScanFrom(g, row, column, East, 0) || ScanFrom(g, row, column, South, 0)) then false
    else true
  }

  // Sunk marking.

  /** A marking run: its direction, and whether its bound stops one cell before the far
      edge (the edge-class South and East loops test `< rows - 1` and `< columns - 1`). */
  datatype Ray = Ray(dir: Dir, short: bool)

  /** The bound test of a marking loop at step k. */
  predicate InLimit(g: Grid, row: int, column: int, ray: Ray, k: int) {
    match ray.dir
    case North => row - k >= 0
    case South => row + k < (if ray.short then g.dimRow - 1 else g.dimRow)
    case West => column - k >= 0
    case East => column + k < (if ray.short then g.dimColumn - 1 else g.dimColumn)
  }

  /** The step at which a marking loop started at step k stops: the first step out of
      its bound or on '-' or 'O'. */
  function RunEnd(g: Grid, row: int, column: int, ray: Ray, k: nat): (stop: nat)
    requires Valid(g) && InBounds(g, row, column)
    ensures k <= stop
    ensures forall m :: k <= m < stop ==>
      InLimit(g, row, column, ray, m) && !Blocks(Probe(g, row, column, ray.dir, m))
    ensures !InLimit(g, row, column, ray, stop) || Blocks(Probe(g, row, column, ray.dir, stop))
    decreases StepsLeft(g, row, column, ray.dir, k)
  {
    if !InLimit(g, row, column, ray, k) || Blocks(Probe(g, row, column, ray.dir, k)) then k
    else RunEnd(g, row, column, ray, k + 1)
  }

  /** (i, j) lies at a step from .. to-1 towards d. */
  predicate OnRun(row: int, column: int, d: Dir, from: int, to: int, i: int, j: int) {
    match d
    case North => j == column && row - to < i <= row - from
    case South => j == column && row + from <= i < row + to
    case West => i == row && column - to < j <= column - from
    case East => i == row && column + from <= j < column + to
  }

  /** The two boards agree on which cells are '-' or 'O'. */
  ghost predicate SameBlocking(g: Grid, h: Grid) {
    SameShape(g, h) &&
    forall i, j :: InBounds(g, i, j) ==> (Blocks(GetGridValue(g, i, j)) <==> Blocks(GetGridValue(h, i, j)))
  }

  /** `h` differs from `g` only by 'X' written on the struck row or column over cells
      that were neither '-' nor 'O'. */
  ghost predicate MarksOnly(g: Grid, h: Grid, row: int, column: int) {
    SameShape(g, h) &&
    forall i, j :: InBounds(g, i, j) && GetGridValue(h, i, j) != GetGridValue(g, i, j) ==>
      GetGridValue(h, i, j) == SunkCell && (i == row || j == column) && !Blocks(GetGridValue(g, i, j))
  }

  lemma MarksOnlyKeepsBlocking(g: Grid, h: Grid, row: int, column: int)
    requires MarksOnly(g, h, row, column)
    ensures SameBlocking(g, h)
  {
  }

  /** A marking loop's stopping step depends only on which cells are '-' or 'O'. */
  lemma {:induction false} RunEndFrame(g: Grid, h: Grid, row: int, column: int, ray: Ray, k: nat)
    requires SameBlocking(g, h) && InBounds(g, row, column)
    ensures RunEnd(h, row, column, ray, k) == RunEnd(g, row, column, ray, k)
    decreases StepsLeft(g, row, column, ray.dir, k)
  {
    assert Blocks(Probe(g, row, column, ray.dir, k)) == Blocks(Probe(h, row, column, ray.dir, k));
    if InLimit(g, row, column, ray, k) && !Blocks(Probe(g, row, column, ray.dir, k)) {
      RunEndFrame(g, h, row, column, ray, k + 1);
    }
  }

  /** One marking `while` loop of writeSinkedShips from step k. It reads the board it
      writes; every cell it passes becomes 'X'. */
  function MarkLoop(g: Grid, row: int, column: int, ray: Ray, k: nat): (r: Grid)
    requires Valid(g) && InBounds(g, row, column)
    ensures MarksOnly(g, r, row, column)
    ensures forall i, j :: InBounds(g, i, j) ==>
      GetGridValue(r, i, j) ==
        if OnRun(row, column, ray.dir, k, RunEnd(g, row, column, ray, k), i, j) then SunkCell
        else GetGridValue(g, i, j)
    decreases StepsLeft(g, row, column, ray.dir, k)
  {
    if !InLimit(g, row, column, ray, k) || Blocks(Probe(g, row, column, ray.dir, k)) then g
    else
      var g1 := SetGridValue(g, RayRow(row, ray.dir, k), RayColumn(column, ray.dir, k), SunkCell);
      assert MarksOnly(g, g1, row, column);
      RunEndFrame(g, g1, row, column, ray, k + 1);
      MarkLoop(g1, row, column, ray, k + 1)
  }

  /** (i, j) is passed by one of the marking runs, each measured on board g. */
  predicate MarkedBy(g: Grid, row: int, column: int, rays: seq<Ray>, i: int, j: int)
    requires Valid(g) && InBounds(g, row, column)
    decreases |rays|
  {
    |rays| > 0 &&
    (OnRun(row, column, rays[0].dir, 0, RunEnd(g, row, column, rays[0], 0), i, j)
     || MarkedBy(g, row, column, rays[1..], i, j))
  }

  lemma {:induction false} MarkedByFrame(g: Grid, h: Grid, row: int, column: int, rays: seq<Ray>, i: int, j: int)
    requires SameBlocking(g, h) && InBounds(g, row, column)
    ensures MarkedBy(h, row, column, rays, i, j) == MarkedBy(g, row, column, rays, i, j)
    decreases |rays|
  {
    if |rays| > 0 {
      RunEndFrame(g, h, row, column, rays[0], 0);
      MarkedByFrame(g, h, row, column, rays[1..], i, j);
    }
  }

  /** A cell is passed by the runs of a concatenation iff it is passed by a run of either part. */
  lemma {:induction false} MarkedByAppend(g: Grid, row: int, column: int, a: seq<Ray>, b: seq<Ray>, i: int, j: int)
    requires Valid(g) && InBounds(g, row, column)
    ensures MarkedBy(g, row, column, a + b, i, j) <==> MarkedBy(g, row, column, a, i, j) || MarkedBy(g, row, column, b, i, j)
    decreases |a|
  {
    if |a| == 0 {
      assert a + b == b;
    } else {
      assert (a + b)[1..] == a[1..] + b;
      MarkedByAppend(g, row, column, a[1..], b, i, j);
    }
  }

  lemma MarkedBySingle(g: Grid, row: int, column: int, ray: Ray, i: int, j: int)
    requires Valid(g) && InBounds(g, row, column)
    ensures MarkedBy(g, row, column, [ray], i, j) <==> OnRun(row, column, ray.dir, 0, RunEnd(g, row, column, ray, 0), i, j)
  {
    assert [ray][1..] == [];
  }

  /** The marking loops run one after another on the same board. */
  function MarkRays(g: Grid, row: int, column: int, rays: seq<Ray>): (r: Grid)
    requires Valid(g) && InBounds(g, row, column)
    ensures MarksOnly(g, r, row, column)
    ensures forall i, j :: InBounds(g, i, j) ==>
      GetGridValue(r, i, j) == if MarkedBy(g, row, column, rays, i, j) then SunkCell else GetGridValue(g, i, j)
    decreases |rays|
  {
    if |rays| == 0 then g
    else
      var g1 := MarkLoop(g, row, column, rays[0], 0);
      MarksOnlyKeepsBlocking(g, g1, row, column);
      assert forall i, j :: MarkedBy(g1, row, column, rays[1..], i, j) == MarkedBy(g, row, column, rays[1..], i, j) by {
        forall i, j ensures MarkedBy(g1, row, column, rays[1..], i, j) == MarkedBy(g, row, column, rays[1..], i, j) {
          MarkedByFrame(g, g1, row, column, rays[1..], i, j);
        }
      }
      MarkRays(g1, row, column, rays[1..])
  }

  /** The marking loops writeSinkedShips runs from (row, column), in the source's
      order: the four full runs for an interior cell, then one run per edge class
      the cell belongs to, South and East ones stopping short of the far edge. */
  function SinkRays(rows: int, columns: int, row: int, column: int): seq<Ray> {
    (if Interior(rows, columns, row, column)
     then [Ray(North, false), Ray(South, false), Ray(East, false), Ray(West, false)] else [])
    + (if NorthEdge(rows, columns, row, column) then [Ray(North, false)] else [])
    + (if SouthEdge(rows, columns, row, column) then [Ray(South, true)] else [])
    + (if WestEdge(rows, columns, row, column) then [Ray(West, false)] else [])
    + (if EastEdge(rows, columns, row, column) then [Ray(East, true)] else [])
  }

  /** writeSinkedShips: writes only 'X', only on the struck row or column and only over
      cells that were neither '-' nor 'O'; a cell becomes 'X' iff one of the position
      class's runs passes it. */
  function WriteSinkedShips(g: Grid, row: int, column: int): (r: Grid)
    requires Valid(g) && InBounds(g, row, column)
    ensures MarksOnly(g, r, row, column)
    ensures forall i, j :: InBounds(g, i, j) ==>
      GetGridValue(r, i, j) ==
        if MarkedBy(g, row, column, SinkRays(g.dimRow, g.dimColumn, row, column), i, j) then SunkCell
        else GetGridValue(g, i, j)
  {
    MarkRays(g, row, column, SinkRays(g.dimRow, g.dimColumn, row, column))
  }

  /** A full run passes every cell up to the first '-' or 'O' or the edge. */
  lemma FullRunReaches(g: Grid, row: int, column: int, d: Dir, k: nat)
    requires Valid(g) && InBounds(g, row, column)
    requires InBounds(g, RayRow(row, d, k), RayColumn(column, d, k))
    requires ClearBetween(g, row, column, d, 0, k + 1)
    ensures k < RunEnd(g, row, column, Ray(d, false), 0)
  {
    var stop := RunEnd(g, row, column, Ray(d, false), 0);
    assert (InLimit(g, row, column, Ray(d, false), stop) && !Blocks(Probe(g, row, column, d, stop))) || k < stop;
  }

  /** From an interior cell, writeSinkedShips marks all four runs up to the first '-',
      'O' or the edge: every cell reached through non-blocking cells becomes 'X'. */
  lemma InteriorMarksFullRuns(g: Grid, row: int, column: int, d: Dir, k: nat)
    requires Valid(g) && InBounds(g, row, column) && Interior(g.dimRow, g.dimColumn, row, column)
    requires InBounds(g, RayRow(row, d, k), RayColumn(column, d, k))
    requires ClearBetween(g, row, column, d, 0, k + 1)
    ensures GetGridValue(WriteSinkedShips(g, row, column), RayRow(row, d, k), RayColumn(column, d, k)) == SunkCell
  {
    FullRunReaches(g, row, column, d, k);
    var i, j := RayRow(row, d, k), RayColumn(column, d, k);
    var n, s, e, w := [Ray(North, false)], [Ray(South, false)], [Ray(East, false)], [Ray(West, false)];
    assert SinkRays(g.dimRow, g.dimColumn, row, column) == n + (s + (e + w));
    MarkedBySingle(g, row, column, Ray(d, false), i, j);
    MarkedByAppend(g, row, column, e, w, i, j);
    MarkedByAppend(g, row, column, s, e + w, i, j);
    MarkedByAppend(g, row, column, n, s + (e + w), i, j);
  }

  /** From a cell of the first column strictly between the first and the last row, the
      marking never reaches the last row of that column, whatever the board holds: the
      edge-class South loop stops at `rows - 1`. */
  lemma FirstColumnSkipsLastRow(g: Grid, row: int)
    requires Valid(g) && g.dimColumn >= 1 && 0 < row < g.dimRow - 1
    ensures GetGridValue(WriteSinkedShips(g, row, 0), g.dimRow - 1, 0) == GetGridValue(g, g.dimRow - 1, 0)
  {
    var rows, columns := g.dimRow, g.dimColumn;
    var south := RunEnd(g, row, 0, Ray(South, true), 0);
    assert !InLimit(g, row, 0, Ray(South, true), rows - 1 - row);
    assert south <= rows - 1 - row;
    var n, s, e := [Ray(North, false)], [Ray(South, true)], [Ray(East, true)];
    var w := if columns == 1 then [Ray(West, false)] else [];
    FirstColumnRays(rows, columns, row);
    MarkedBySingle(g, row, 0, Ray(North, false), rows - 1, 0);
    MarkedBySingle(g, row, 0, Ray(South, true), rows - 1, 0);
    MarkedBySingle(g, row, 0, Ray(East, true), rows - 1, 0);
    if columns == 1 {
      MarkedBySingle(g, row, 0, Ray(West, false), rows - 1, 0);
    } else {
      assert !MarkedBy(g, row, 0, w, rows - 1, 0);
    }
    MarkedByAppend(g, row, 0, w, e, rows - 1, 0);
    MarkedByAppend(g, row, 0, s, w + e, rows - 1, 0);
    MarkedByAppend(g, row, 0, n, s + (w + e), rows - 1, 0);
  }

  /** A cell of the first column strictly between the first and the last row walks
      North, South (stopping short) and East (stopping short), and West only on a
      one-column board. */
  lemma FirstColumnRays(rows: int, columns: int, row: int)
    requires 0 < row < rows - 1 && columns >= 1
    ensures SinkRays(rows, columns, row, 0) ==
      [Ray(North, false)] + ([Ray(South, true)]
        + ((if columns == 1 then [Ray(West, false)] else []) + [Ray(East, true)]))
  {
    assert !Interior(rows, columns, row, 0);
    assert NorthEdge(rows, columns, row, 0) && SouthEdge(rows, columns, row, 0) && EastEdge(rows, columns, row, 0);
    assert WestEdge(rows, columns, row, 0) <==> columns == 1;
  }

  /** The contrast with the interior: there the South run reaches the last row. */
  lemma InteriorReachesLastRow(g: Grid, row: int, column: int)
    requires Valid(g) && InBounds(g, row, column) && Interior(g.dimRow, g.dimColumn, row, column)
    requires ClearBetween(g, row, column, South, 0, g.dimRow - row)
    ensures GetGridValue(WriteSinkedShips(g, row, column), g.dimRow - 1, column) == SunkCell
  {
    InteriorMarksFullRuns(g, row, column, South, g.dimRow - 1 - row);
  }

  /** A cell some run passes was reached through non-blocking cells, so when no walk
      reaches an 'S' it does not hold one. */
  lemma {:induction false} MarkedIsNotShip(g: Grid, row: int, column: int, rays: seq<Ray>, i: int, j: int)
    requires Valid(g) && InBounds(g, row, column) && InBounds(g, i, j)
    requires forall d :: !ReachesShip(g, row, column, d, 0)
    requires MarkedBy(g, row, column, rays, i, j)
    ensures GetGridValue(g, i, j) != ShipCell
    decreases |rays|
  {
    var ray := rays[0];
    var stop := RunEnd(g, row, column, ray, 0);
    if OnRun(row, column, ray.dir, 0, stop, i, j) {
      var m := match ray.dir
        case North => row - i
        case South => i - row
        case West => column - j
        case East => j - column;
      assert 0 <= m < stop && RayRow(row, ray.dir, m) == i && RayColumn(column, ray.dir, m) == j;
      assert ClearBetween(g, row, column, ray.dir, 0, m);
      if GetGridValue(g, i, j) == ShipCell {
        assert Probe(g, row, column, ray.dir, m) == ShipCell;
        assert ReachesShip(g, row, column, ray.dir, 0);
      }
    } else {
      MarkedIsNotShip(g, row, column, rays[1..], i, j);
    }
  }

  /** When the struck ship is sunk, marking leaves every 'S' of the board in place and
      writes no new one. */
  lemma SunkMarkingSparesShips(g: Grid, row: int, column: int)
    requires Valid(g) && InBounds(g, row, column) && IsSinked(g, row, column)
    ensures forall i, j :: InBounds(g, i, j) ==>
      (GetGridValue(WriteSinkedShips(g, row, column), i, j) == ShipCell <==> GetGridValue(g, i, j) == ShipCell)
  {
    var rays := SinkRays(g.dimRow, g.dimColumn, row, column);
    forall i, j | InBounds(g, i, j) && MarkedBy(g, row, column, rays, i, j)
      ensures GetGridValue(g, i, j) != ShipCell
    {
      MarkedIsNotShip(g, row, column, rays, i, j);
    }
  }
}
