/** The placement engine of Game.java: the fleet table, the legality test for a
    single cell, the placeability test for a whole ship, the write of a ship, and
    the randomised placement loop with its single failure budget per episode. */
module Game {
  import opened Optional
  import opened Grids
  import opened GridStorage
  import opened GameSettings

  /** Game.shipsArray: the index is a ship length, the value how many ships of that length. */
  const ShipsArray: seq<nat> := [0, 0, 4, 3, 2, 1]

  /** The failure budget shared by a whole placement episode. */
  const MaxFailAttempts: nat := 400

  /** HORIZONTAL (0) and VERTICAL (1); the source draws the direction with nextInt(2). */
  datatype Direction = Horizontal | Vertical

  /** A ship of `length` cells starting at (row, column) and extending right or down. */
  datatype Ship = Ship(length: nat, row: int, column: int, direction: Direction)

  /** One draw of the random source: a row, a column and a direction. */
  datatype Draw = Draw(row: int, column: int, direction: Direction)

  function ShipRow(s: Ship, k: int): int {
    if s.direction == Horizontal then s.row else s.row + k
  }

  function ShipColumn(s: Ship, k: int): int {
    if s.direction == Horizontal then s.column + k else s.column
  }

  /** (i, j) is one of the ship's cells. */
  predicate Occupies(s: Ship, i: int, j: int) {
    match s.direction
    case Horizontal => i == s.row && s.column <= j < s.column + s.length
    case Vertical => j == s.column && s.row <= i < s.row + s.length
  }

  /** All cells of the ship lie on an n x n board. */
  predicate ShipInside(s: Ship, n: int) {
    0 <= s.row && 0 <= s.column &&
    match s.direction
    case Horizontal => s.row < n && s.column + s.length <= n
    case Vertical => s.row + s.length <= n && s.column < n
  }

  /** The two cells are equal or neighbours, diagonals included. */
  predicate Touching(r1: int, c1: int, r2: int, c2: int) {
    -1 <= r1 - r2 <= 1 && -1 <= c1 - c2 <= 1
  }

  /** No cell of `s` touches a cell of `t`, diagonals included. */
  ghost predicate Apart(s: Ship, t: Ship) {
    forall r1, c1, r2, c2 :: Occupies(s, r1, c1) && Occupies(t, r2, c2) ==> !Touching(r1, c1, r2, c2)
  }

  /** Every ship is apart from every ship committed before it. */
  ghost predicate Separated(ships: seq<Ship>) {
    forall a, b :: 0 <= a < b < |ships| ==> Apart(ships[a], ships[b])
  }

  /** The board holds exactly the committed ships: a cell is 'S' iff some ship occupies it,
      every other cell is '-', and every ship lies on the board. */
  ghost predicate Layout(g: Grid, ships: seq<Ship>) {
    && Valid(g) && g.dimRow == g.dimColumn
    && (forall k :: 0 <= k < |ships| ==> ShipInside(ships[k], g.dimRow))
    && (forall i, j :: InBounds(g, i, j) ==>
          (GetGridValue(g, i, j) == ShipCell <==> exists k :: 0 <= k < |ships| && Occupies(ships[k], i, j)))
    && (forall i, j :: InBounds(g, i, j) ==>
          GetGridValue(g, i, j) == EmptyCell || GetGridValue(g, i, j) == ShipCell)
  }

  /** The cell and every in-bounds cell among its 8 neighbours is '-'. */
  ghost predicate SeaAround(g: Grid, row: int, column: int)
    requires Valid(g)
  {
    forall i, j :: InBounds(g, i, j) && Touching(i, j, row, column) ==> GetGridValue(g, i, j) == EmptyCell
  }

  /** Game.isPositionLegal, with its checks in the source's order. The game's
      `dimRowMax` bounds both coordinates; every caller builds a square board. */
  function IsPositionLegal(g: Grid, dimRowMax: nat, row: int, column: int): (legal: bool)
    requires Valid(g) && g.dimRow == dimRowMax && g.dimColumn == dimRowMax
    ensures legal <==> InBounds(g, row, column) && SeaAround(g, row, column)
  {
    var maxIndex := dimRowMax - 1;
    if row < 0 || row > maxIndex || column < 0 || column > maxIndex
       || GetGridValue(g, row, column) != EmptyCell then false
    // right
    else if column < maxIndex && GetGridValue(g, row, column + 1) != EmptyCell then false
    // bottom-right
    else if row < maxIndex && column < maxIndex && GetGridValue(g, row + 1, column + 1) != EmptyCell then false
    // top
    else if row > 0 && GetGridValue(g, row - 1, column) != EmptyCell then false
    // left
    else if column > 0 && GetGridValue(g, row, column - 1) != EmptyCell then false
    // top-left
    else if row > 0 && column > 0 && GetGridValue(g, row - 1, column - 1) != EmptyCell then false
    // bottom-left
    else if row < maxIndex && column != 0 && GetGridValue(g, row + 1, column - 1) != EmptyCell then false
    // top-right
    else if column != maxIndex && row != 0 && GetGridValue(g, row - 1, column + 1) != EmptyCell then false
    // bottom
    else if row != maxIndex && GetGridValue(g, row + 1, column) != EmptyCell then false
    else
      assert forall i, j :: InBounds(g, i, j) && Touching(i, j, row, column) ==>
        (i == row - 1 || i == row || i == row + 1) && (j == column - 1 || j == column || j == column + 1);
      true
  }

  /** Every cell the ship would occupy is legal on the current board. */
  ghost predicate ShipFits(g: Grid, dimRowMax: nat, s: Ship)
    requires Valid(g) && g.dimRow == dimRowMax && g.dimColumn == dimRowMax
  {
    forall k :: 0 <= k < s.length ==> IsPositionLegal(g, dimRowMax, ShipRow(s, k), ShipColumn(s, k))
  }

  /** Game.isShipPlaceable: counts the legal cells among the `lengthShip` cells and
      accepts only when all of them are legal. */
  method IsShipPlaceable(lengthShip: nat, g: Grid, dimRowMax: nat, row: int, column: int, direction: Direction)
    returns (placeable: bool)
    requires Valid(g) && g.dimRow == dimRowMax && g.dimColumn == dimRowMax
    ensures placeable <==> ShipFits(g, dimRowMax, Ship(lengthShip, row, column, direction))
  {
    ghost var s := Ship(lengthShip, row, column, direction);
    var count := 0;
    for i := 0 to lengthShip
      invariant count <= i
      invariant count == i <==>
        forall k :: 0 <= k < i ==> IsPositionLegal(g, dimRowMax, ShipRow(s, k), ShipColumn(s, k))
    {
      var rr := if direction == Horizontal then row else row + i;
      var cc := if direction == Horizontal then column + i else column;
      assert rr == ShipRow(s, i) && cc == ShipColumn(s, i);
      if IsPositionLegal(g, dimRowMax, rr, cc) {
        count := count + 1;
      }
    }
    placeable := count == lengthShip;
  }

  /** A ship that fits lies on the board, and every one of its cells is '-' now. */
  lemma FitsIsInside(g: Grid, dimRowMax: nat, s: Ship)
    requires Valid(g) && g.dimRow == dimRowMax && g.dimColumn == dimRowMax
    requires ShipFits(g, dimRowMax, s) && s.length > 0
    ensures ShipInside(s, dimRowMax)
    ensures forall i, j :: Occupies(s, i, j) ==> InBounds(g, i, j) && GetGridValue(g, i, j) == EmptyCell
  {
    assert IsPositionLegal(g, dimRowMax, ShipRow(s, 0), ShipColumn(s, 0));
    assert IsPositionLegal(g, dimRowMax, ShipRow(s, s.length - 1), ShipColumn(s, s.length - 1));
    forall i, j | Occupies(s, i, j)
      ensures InBounds(g, i, j) && GetGridValue(g, i, j) == EmptyCell
    {
      var k := if s.direction == Horizontal then j - s.column else i - s.row;
      assert IsPositionLegal(g, dimRowMax, ShipRow(s, k), ShipColumn(s, k));
    }
  }

  /** Game.placeShip: writes 'S' to exactly the ship's cells; when none of them held 'S'
      before, the number of 'S' cells grows by the ship's length. */
  method PlaceShip(lengthShip: nat, g: Grid, row: int, column: int, direction: Direction) returns (r: Grid)
    requires Valid(g)
    requires forall k :: 0 <= k < lengthShip ==>
      InBounds(g, ShipRow(Ship(lengthShip, row, column, direction), k), ShipColumn(Ship(lengthShip, row, column, direction), k))
    ensures SameShape(g, r)
    ensures forall i, j :: InBounds(g, i, j) ==>
      GetGridValue(r, i, j) == if Occupies(Ship(lengthShip, row, column, direction), i, j) then ShipCell else GetGridValue(g, i, j)
    ensures (forall i, j :: InBounds(g, i, j) && Occupies(Ship(lengthShip, row, column, direction), i, j) ==>
               GetGridValue(g, i, j) != ShipCell)
            ==> CountValue(r, ShipCell) == CountValue(g, ShipCell) + lengthShip
  {
    ghost var s := Ship(lengthShip, row, column, direction);
    ghost var unoccupied := forall i, j :: InBounds(g, i, j) && Occupies(s, i, j) ==> GetGridValue(g, i, j) != ShipCell;
    r := g;
    for i := 0 to lengthShip
      invariant SameShape(g, r)
      invariant forall a, b :: InBounds(g, a, b) ==>
        GetGridValue(r, a, b) == if Occupies(Ship(i, row, column, direction), a, b) then ShipCell else GetGridValue(g, a, b)
      invariant unoccupied ==> CountValue(r, ShipCell) == CountValue(g, ShipCell) + i
    {
      var rr := if direction == Horizontal then row else row + i;
      var cc := if direction == Horizontal then column + i else column;
      assert rr == ShipRow(s, i) && cc == ShipColumn(s, i);
      if unoccupied {
        assert Occupies(s, rr, cc);
        assert GetGridValue(r, rr, cc) == GetGridValue(g, rr, cc);
      }
      CountAfterSet(r, rr, cc, ShipCell, ShipCell);
      r := SetGridValue(r, rr, cc, ShipCell);
    }
  }

  /** Committing a placeable ship keeps the board an exact, separated layout: the new
      ship touches no earlier ship, diagonals included. */
  lemma {:induction false} PlaceKeepsLayout(g: Grid, dimRowMax: nat, ships: seq<Ship>, s: Ship, g': Grid)
    requires Layout(g, ships) && Separated(ships) && g.dimRow == dimRowMax
    requires ShipFits(g, dimRowMax, s) && s.length > 0
    requires SameShape(g, g')
    requires forall i, j :: InBounds(g, i, j) ==>
      GetGridValue(g', i, j) == if Occupies(s, i, j) then ShipCell else GetGridValue(g, i, j)
    ensures Layout(g', ships + [s]) && Separated(ships + [s])
  {
    FitsIsInside(g, dimRowMax, s);
    var all := ships + [s];
    forall i, j | InBounds(g', i, j)
      ensures GetGridValue(g', i, j) == ShipCell <==> exists k :: 0 <= k < |all| && Occupies(all[k], i, j)
    {
      if Occupies(s, i, j) {
        assert Occupies(all[|ships|], i, j);
      } else if GetGridValue(g, i, j) == ShipCell {
        var k :| 0 <= k < |ships| && Occupies(ships[k], i, j);
        assert Occupies(all[k], i, j);
      } else {
        assert forall k :: 0 <= k < |ships| ==> !Occupies(ships[k], i, j);
        assert forall k :: 0 <= k < |all| ==> !Occupies(all[k], i, j) by {
          forall k | 0 <= k < |all| ensures !Occupies(all[k], i, j) {
            if k < |ships| { assert all[k] == ships[k]; }
          }
        }
      }
    }
    forall a | 0 <= a < |ships|
      ensures Apart(ships[a], s)
    {
      forall r1, c1, r2, c2 | Occupies(ships[a], r1, c1) && Occupies(s, r2, c2)
        ensures !Touching(r1, c1, r2, c2)
      {
        var k := if s.direction == Horizontal then c2 - s.column else r2 - s.row;
        assert IsPositionLegal(g, dimRowMax, ShipRow(s, k), ShipColumn(s, k));
        assert InBounds(g, r1, c1);
        assert GetGridValue(g, r1, c1) == ShipCell;
      }
    }
    assert forall k :: 0 <= k < |all| ==> ShipInside(all[k], g.dimRow) by {
      forall k | 0 <= k < |all| ensures ShipInside(all[k], g.dimRow) {
        if k < |ships| { assert all[k] == ships[k]; }
      }
    }
  }

  // The fleet as the sequence of lengths the loop commits, in order.

  function Repeat(length: nat, times: nat): seq<nat> {
    seq(times, _ => length)
  }

  /** The lengths placed for table indices 2 .. upto-1, ascending. */
  function FleetLengths(shipsArray: seq<nat>, upto: nat): seq<nat>
    requires upto <= 2 || upto <= |shipsArray|
  {
    if upto <= 2 then [] else FleetLengths(shipsArray, upto - 1) + Repeat(upto - 1, shipsArray[upto - 1])
  }

  function Sum(xs: seq<nat>): nat {
    if |xs| == 0 then 0 else Sum(xs[..|xs| - 1]) + xs[|xs| - 1]
  }

  function Lengths(ships: seq<Ship>): seq<nat> {
    seq(|ships|, k requires 0 <= k < |ships| => ships[k].length)
  }

  lemma LengthsAppend(ships: seq<Ship>, s: Ship)
    ensures Lengths(ships + [s]) == Lengths(ships) + [s.length]
    ensures Sum(Lengths(ships + [s])) == Sum(Lengths(ships)) + s.length
  {
    assert Lengths(ships + [s])[..|ships|] == Lengths(ships);
  }

  /** The standard fleet: four ships of length 2, three of 3, two of 4 and one of 5,
      placed in ascending length order, 30 ship cells in all. */
  lemma StandardFleet()
    ensures FleetLengths(ShipsArray, |ShipsArray|) == [2, 2, 2, 2, 3, 3, 3, 4, 4, 5]
    ensures Sum(FleetLengths(ShipsArray, |ShipsArray|)) == 30
  {
    assert Repeat(2, 4) == [2, 2, 2, 2];
    assert Repeat(3, 3) == [3, 3, 3];
    assert Repeat(4, 2) == [4, 4];
    assert Repeat(5, 1) == [5];
    var f := [2, 2, 2, 2, 3, 3, 3, 4, 4, 5];
    assert f[..9] == [2, 2, 2, 2, 3, 3, 3, 4, 4];
    assert f[..9][..8] == [2, 2, 2, 2, 3, 3, 3, 4];
    assert f[..9][..8][..7] == [2, 2, 2, 2, 3, 3, 3];
    assert f[..9][..8][..7][..6] == [2, 2, 2, 2, 3, 3];
    assert f[..9][..8][..7][..6][..5] == [2, 2, 2, 2, 3];
    assert f[..9][..8][..7][..6][..5][..4] == [2, 2, 2, 2];
    assert f[..9][..8][..7][..6][..5][..4][..3] == [2, 2, 2];
    assert f[..9][..8][..7][..6][..5][..4][..3][..2] == [2, 2];
    assert f[..9][..8][..7][..6][..5][..4][..3][..2][..1] == [2];
    assert Sum([2]) == 2;
    assert Sum([2, 2]) == 4;
    assert Sum([2, 2, 2]) == 6;
    assert Sum([2, 2, 2, 2]) == 8;
    assert Sum([2, 2, 2, 2, 3]) == 11;
    assert Sum([2, 2, 2, 2, 3, 3]) == 14;
    assert Sum([2, 2, 2, 2, 3, 3, 3]) == 17;
    assert Sum([2, 2, 2, 2, 3, 3, 3, 4]) == 21;
    assert Sum([2, 2, 2, 2, 3, 3, 3, 4, 4]) == 25;
  }

  /** The state the placement loop keeps during an episode. */
  ghost predicate Episode(board: Grid, ships: seq<Ship>) {
    Layout(board, ships) && Separated(ships) && CountValue(board, ShipCell) == Sum(Lengths(ships))
  }

  /** The ship of `length` cells that the draw `d` proposes. */
  function DrawnShip(length: nat, d: Draw): Ship {
    Ship(length, d.row, d.column, d.direction)
  }

  /** None of the draws `ds` proposes a ship of `length` cells that fits on `g`. */
  ghost predicate AllRejected(g: Grid, dimRowMax: nat, length: nat, ds: seq<Draw>)
    requires Valid(g) && g.dimRow == dimRowMax && g.dimColumn == dimRowMax
  {
    forall k :: 0 <= k < |ds| ==> !ShipFits(g, dimRowMax, DrawnShip(length, ds[k]))
  }

  /** `g'` is `g` with exactly the cells of `s` turned to 'S'. */
  ghost predicate Committed(g: Grid, g': Grid, s: Ship)
    requires Valid(g)
  {
    SameShape(g, g') &&
    forall i, j :: InBounds(g, i, j) ==>
      GetGridValue(g', i, j) == if Occupies(s, i, j) then ShipCell else GetGridValue(g, i, j)
  }

  /** The innermost loop of Game.placeShipsRandom: draw positions for one ship of
      `length` cells until one is placeable or the episode's failure budget is spent.
      Every draw is either a failure or places the ship; the ship, once placed, keeps
      the board's layout and its separation from the ships before it. The draws
      counted as failures are exactly those whose ship does not fit, and the ship
      committed is the one the last draw proposes. */
  method PlaceOneShip(length: nat, dimRowMax: nat, board: Grid, ships: seq<Ship>, draws: seq<Draw>,
                      used: nat, count: nat)
    returns (dry: bool, board': Grid, ships': seq<Ship>, count': nat, used': nat)
    requires length > 0 && board.dimRow == dimRowMax && board.dimColumn == dimRowMax
    requires Episode(board, ships) && used <= |draws| && count <= MaxFailAttempts
    ensures used <= used' <= |draws| && SameShape(board, board')
    ensures dry ==> used' == |draws|
    ensures !dry ==> count <= count' <= MaxFailAttempts && Episode(board', ships')
    ensures !dry ==> used' == used + (count' - count) + (|ships'| - |ships|)
    ensures !dry && count' < MaxFailAttempts ==> Lengths(ships') == Lengths(ships) + [length]
    ensures !dry && count' == MaxFailAttempts ==> ships' == ships && board' == board
    ensures !dry ==> AllRejected(board, dimRowMax, length, draws[used..used + (count' - count)])
    ensures !dry && count' < MaxFailAttempts ==>
      && used' > used
      && ships' == ships + [DrawnShip(length, draws[used' - 1])]
      && ShipFits(board, dimRowMax, DrawnShip(length, draws[used' - 1]))
      && Committed(board, board', DrawnShip(length, draws[used' - 1]))
  {
    dry, board', ships', count', used' := false, board, ships, count, used;
    while count' < MaxFailAttempts
      invariant used <= used' <= |draws| && SameShape(board, board')
      invariant count <= count' <= MaxFailAttempts && used' == used + (count' - count)
      invariant board' == board && ships' == ships
      invariant AllRejected(board, dimRowMax, length, draws[used..used'])
      decreases MaxFailAttempts - count'
    {
      if used' == |draws| {
        dry := true;
        return;
      }
      var d := draws[used'];
      used' := used' + 1;
      var ok := IsShipPlaceable(length, board', dimRowMax, d.row, d.column, d.direction);
      if ok {
        var s := DrawnShip(length, d);
        FitsIsInside(board', dimRowMax, s);
        var next := PlaceShip(length, board', d.row, d.column, d.direction);
        PlaceKeepsLayout(board', dimRowMax, ships', s, next);
        LengthsAppend(ships', s);
        board' := next;
        ships' := ships' + [s];
        return;
      }
      assert draws[used..used'] == draws[used..used' - 1] + [d];
      count' := count' + 1;
    }
  }

  /** The middle loop of Game.placeShipsRandom: place the `times` ships of `length`
      cells one after the other, sharing the episode's failure budget. */
  method PlaceShipsOfLength(length: nat, times: nat, dimRowMax: nat, board: Grid, ships: seq<Ship>,
                            draws: seq<Draw>, used: nat, count: nat)
    returns (dry: bool, board': Grid, ships': seq<Ship>, count': nat, used': nat)
    requires length > 0 && board.dimRow == dimRowMax && board.dimColumn == dimRowMax
    requires Episode(board, ships) && used <= |draws| && count <= MaxFailAttempts
    ensures used <= used' <= |draws| && SameShape(board, board')
    ensures dry ==> used' == |draws|
    ensures !dry ==> count <= count' <= MaxFailAttempts && Episode(board', ships')
    ensures !dry ==> used' == used + (count' - count) + (|ships'| - |ships|)
    ensures !dry && count' < MaxFailAttempts ==> Lengths(ships') == Lengths(ships) + Repeat(length, times)
  {
    dry, board', ships', count', used' := false, board, ships, count, used;
    var j := 1;
    while j <= times
      invariant 1 <= j <= times + 1
      invariant used <= used' <= |draws| && SameShape(board, board')
      invariant count <= count' <= MaxFailAttempts && Episode(board', ships')
      invariant used' == used + (count' - count) + (|ships'| - |ships|)
      invariant count' < MaxFailAttempts ==> Lengths(ships') == Lengths(ships) + Repeat(length, j - 1)
    {
      dry, board', ships', count', used' := PlaceOneShip(length, dimRowMax, board', ships', draws, used', count');
      if dry {
        return;
      }
      if count' < MaxFailAttempts {
        assert Repeat(length, j - 1) + [length] == Repeat(length, j);
      }
      j := j + 1;
    }
  }

  /** One episode of Game.placeShipsRandom: reset the board, then try every ship of
      the table in ascending length order, all of them sharing one budget of 400
      failed draws; once the budget is spent the remaining ships are skipped. `dry`
      reports that the oracle ran out first. Otherwise the episode spent one draw per
      placed ship plus one per failure, and when the budget was not spent every ship
      of the table is on the board, no two touching. */
  method PlaceEpisode(shipsArray: seq<nat>, dimRowMax: nat, enemy: Grid, draws: seq<Draw>, start: nat)
    returns (dry: bool, board: Grid, ships: seq<Ship>, count: nat, used: nat)
    requires Valid(enemy) && enemy.dimRow == dimRowMax && enemy.dimColumn == dimRowMax
    requires start <= |draws|
    ensures start <= used <= |draws| && SameShape(enemy, board)
    ensures dry ==> used == |draws|
    ensures !dry ==> count <= MaxFailAttempts && used == start + count + |ships|
    ensures !dry ==> Episode(board, ships)
    ensures !dry && count < MaxFailAttempts ==> Lengths(ships) == FleetLengths(shipsArray, |shipsArray|)
  {
    dry := false;
    count := 0;
    used := start;
    board := ResetGrid(enemy);
    ResetHasNoShips(board);
    ships := [];
    var i := 2;
    while i < |shipsArray|
      invariant 2 <= i && (i == 2 || i <= |shipsArray|)
      invariant start <= used <= |draws| && SameShape(enemy, board)
      invariant count <= MaxFailAttempts && used == start + count + |ships|
      invariant Episode(board, ships)
      invariant count < MaxFailAttempts ==> Lengths(ships) == FleetLengths(shipsArray, i)
    {
      dry, board, ships, count, used := PlaceShipsOfLength(i, shipsArray[i], dimRowMax, board, ships, draws, used, count);
      if dry {
        return;
      }
      i := i + 1;
    }
    assert FleetLengths(shipsArray, i) == FleetLengths(shipsArray, |shipsArray|);
  }

  /** Game.placeShipsRandom. Random draws come from the oracle `draws`, consumed in
      order; `placed` is false only when the oracle runs dry. Episodes repeat until
      one ends with fewer than 400 failures. The episode that succeeds began at draw
      `episodeStart` and spent one draw per ship plus one per failure; it placed every
      ship of the table in ascending length order, no two touching. */
  method PlaceShipsRandom(shipsArray: seq<nat>, dimRowMax: nat, enemy: Grid, draws: seq<Draw>)
    returns (placed: bool, board: Grid, ships: seq<Ship>, count: nat, used: nat, ghost episodeStart: nat)
    requires Valid(enemy) && enemy.dimRow == dimRowMax && enemy.dimColumn == dimRowMax
    ensures used <= |draws| && SameShape(enemy, board)
    ensures !placed ==> used == |draws|
    ensures placed ==> count < MaxFailAttempts
    ensures placed ==> used == episodeStart + count + |ships|
    ensures placed ==> Layout(board, ships) && Separated(ships)
    ensures placed ==> Lengths(ships) == FleetLengths(shipsArray, |shipsArray|)
    ensures placed ==> CountValue(board, ShipCell) == Sum(FleetLengths(shipsArray, |shipsArray|))
  {
    placed := false;
    board := enemy;
    ships := [];
    count := 0;
    used := 0;
    episodeStart := 0;
    while !placed
      invariant used <= |draws| && SameShape(enemy, board)
      invariant placed ==> count < MaxFailAttempts && Episode(board, ships)
      invariant placed ==> used == episodeStart + count + |ships|
      invariant placed ==> Lengths(ships) == FleetLengths(shipsArray, |shipsArray|)
      decreases |draws| - used, if placed then 0 else 1
    {
      episodeStart := used;
      var dry;
      dry, board, ships, count, used := PlaceEpisode(shipsArray, dimRowMax, board, draws, used);
      if dry {
        return;
      }
      if count < MaxFailAttempts {
        placed := true;
      }
    }
  }

  /** The Game constructor: two fresh, reset dimRow x dimColumn grids on separate
      matrices become the enemy and the player grid, and the failure counter is zeroed. */
  function NewGame(h: Heap, s: Settings, fixedDimRow: nat, fixedDimColumn: nat): (res: (Heap, Settings))
    ensures |res.0| == |h| + 2 && res.0[..|h|] == h
    ensures res.1.enemyGrid.Some? && res.1.playerGrid.Some?
    ensures Live(res.0, res.1.enemyGrid.value) && Live(res.0, res.1.playerGrid.value)
    ensures res.1.enemyGrid.value.storage != res.1.playerGrid.value.storage
    ensures View(res.0, res.1.enemyGrid.value) == NewGrid(fixedDimRow, fixedDimColumn)
    ensures View(res.0, res.1.playerGrid.value) == NewGrid(fixedDimRow, fixedDimColumn)
    ensures res.1.failures == 0
    ensures res.1.(enemyGrid := s.enemyGrid, playerGrid := s.playerGrid, failures := s.failures) == s
  {
    var (h1, enemy) := Allocate(h, fixedDimRow, fixedDimColumn);
    var s1 := SetEnemyGrid(s, enemy);
    var (h2, player) := Allocate(h1, fixedDimRow, fixedDimColumn);
    var s2 := SetPlayerGrid(s1, player);
    assert h2[..|h|] == h1[..|h|];
    (h2, s2.(failures := 0))
  }
}
