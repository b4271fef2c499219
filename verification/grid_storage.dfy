/** Object identity of Grid.java. A Grid object holds its dimensions and a
    reference to a char matrix; the copy constructor `Grid(Grid)` takes the
    matrix through getGrid/copy2DArray, which return the very same reference.
    The heap is a sequence of matrices and a reference is an index into it. */
module GridStorage {
  import opened Grids

  type Heap = seq<seq<seq<char>>>

  /** A Grid object: dimRow, dimColumn and the reference held in its `grid` field. */
  datatype GridObject = GridObject(dimRow: nat, dimColumn: nat, storage: nat)

  /** The object's reference is allocated and the matrix there has the object's dimensions. */
  ghost predicate Live(h: Heap, g: GridObject) {
    g.storage < |h| && Valid(Grid(g.dimRow, g.dimColumn, h[g.storage]))
  }

  /** What the object shows: its dimensions over the matrix it references. */
  function View(h: Heap, g: GridObject): (v: Grid)
    requires g.storage < |h|
    ensures Live(h, g) ==> Valid(v)
  {
    Grid(g.dimRow, g.dimColumn, h[g.storage])
  }

  /** `new Grid(rows, columns)`: a fresh matrix is allocated and reset. */
  function Allocate(h: Heap, rows: nat, columns: nat): (res: (Heap, GridObject))
    ensures |res.0| == |h| + 1 && res.0[..|h|] == h
    ensures res.1.storage == |h| && Live(res.0, res.1)
    ensures View(res.0, res.1) == NewGrid(rows, columns)
  {
    (h + [NewGrid(rows, columns).cells], GridObject(rows, columns, |h|))
  }

  /** `new Grid(gridCopy)`: the copy takes the dimensions and the same matrix reference. */
  function CopyGrid(g: GridObject): (copy: GridObject)
    ensures copy.storage == g.storage
    ensures copy.dimRow == g.dimRow && copy.dimColumn == g.dimColumn
  {
    GridObject(g.dimRow, g.dimColumn, g.storage)
  }

  /** setGridValue called on object `g`: the referenced matrix is updated in place. */
  function SetThrough(h: Heap, g: GridObject, row: int, column: int, value: char): (h': Heap)
    requires Live(h, g) && InBounds(View(h, g), row, column)
    ensures |h'| == |h| && Live(h', g)
    ensures View(h', g) == SetGridValue(View(h, g), row, column, value)
    ensures forall k :: 0 <= k < |h| && k != g.storage ==> h'[k] == h[k]
  {
    h[g.storage := SetGridValue(View(h, g), row, column, value).cells]
  }

  /** resetGrid called on object `g`. */
  function ResetThrough(h: Heap, g: GridObject): (h': Heap)
    requires Live(h, g)
    ensures |h'| == |h| && Live(h', g)
    ensures View(h', g) == ResetGrid(View(h, g))
    ensures forall k :: 0 <= k < |h| && k != g.storage ==> h'[k] == h[k]
  {
    h[g.storage := ResetGrid(View(h, g)).cells]
  }

  /** A write through one object is seen through every object sharing its reference:
      the copy constructor does not isolate the copy from the original, in either direction. */
  lemma CopySharesWrites(h: Heap, g: GridObject, row: int, column: int, value: char)
    requires Live(h, g) && InBounds(View(h, g), row, column)
    ensures GetGridValue(View(SetThrough(h, CopyGrid(g), row, column, value), g), row, column) == value
    ensures GetGridValue(View(SetThrough(h, g, row, column, value), CopyGrid(g)), row, column) == value
    ensures View(SetThrough(h, CopyGrid(g), row, column, value), g) == SetGridValue(View(h, g), row, column, value)
  {
  }

  /** Writing through one object leaves every object on another matrix unchanged. */
  lemma SeparateStorageUnaffected(h: Heap, g: GridObject, other: GridObject, row: int, column: int, value: char)
    requires Live(h, g) && Live(h, other) && other.storage != g.storage
    requires InBounds(View(h, g), row, column)
    ensures View(SetThrough(h, g, row, column, value), other) == View(h, other)
  {
  }
}
