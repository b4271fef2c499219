/** Attack resolution and the end of the game, from CommandsGame.java: the enemy
    board transition and the failure counter, the player's tracking board, the
    end-of-game code and the game-menu loop it controls. The wall clock is replaced
    by the number of seconds remaining. */
module CommandsGame {
  import opened Optional
  import opened UtilityTools
  import opened Grids
  import opened GridStorage
  import opened GameSettings
  import opened Coordinates
  import opened GameMenuInput
  import opened Sinking

  /** The message writeEnemyGrid prints. */
  datatype Report = Hit | HitAndSunk | Miss | AlreadyAttacked

  /** The enemy board and the failure count after one shot, and the message printed. */
  datatype Shot = Shot(grid: Grid, failures: int, report: Report)

  /** Every cell holds one of the five codes the game writes. */
  ghost predicate WellFormed(g: Grid) {
    Valid(g) &&
    forall i, j :: InBounds(g, i, j) ==>
      GetGridValue(g, i, j) in {EmptyCell, ShipCell, HitCell, SunkCell, MissCell}
  }

  /** No cell holds 'S'. */
  ghost predicate NoShips(g: Grid) {
    Valid(g) && forall i, j :: InBounds(g, i, j) ==> GetGridValue(g, i, j) != ShipCell
  }

  /** writeEnemyGrid. A ship cell becomes '$' and, when that sinks its ship, the runs
      through it become 'X'; the board then counts one 'S' fewer. A sea cell becomes
      'O' and costs one failure. Any other cell was attacked before: nothing changes. */
  function WriteEnemyGrid(g: Grid, failures: int, row: int, column: int): (r: Shot)
    requires Valid(g) && InBounds(g, row, column)
    ensures SameShape(g, r.grid)
    ensures GetGridValue(g, row, column) == ShipCell ==>
      var hit := SetGridValue(g, row, column, HitCell);
      && r.failures == failures
      && (r.report == Hit || r.report == HitAndSunk)
      && (r.report == HitAndSunk <==> forall d :: !ReachesShip(hit, row, column, d, 0))
      && (r.report == Hit ==> r.grid == hit)
      && (r.report == HitAndSunk ==> r.grid == WriteSinkedShips(hit, row, column))
      && MarksOnly(hit, r.grid, row, column)
      && CountValue(r.grid, ShipCell) == CountValue(g, ShipCell) - 1
    ensures GetGridValue(g, row, column) == EmptyCell ==>
      r == Shot(SetGridValue(g, row, column, MissCell), failures + 1, Miss)
    ensures GetGridValue(g, row, column) != ShipCell && GetGridValue(g, row, column) != EmptyCell ==>
      r == Shot(g, failures, AlreadyAttacked)
  {
    if GetGridValue(g, row, column) == ShipCell then
      var hit := SetGridValue(g, row, column, HitCell);
      CountAfterSet(g, row, column, HitCell, ShipCell);
      if IsSinked(hit, row, column) then
        var marked := WriteSinkedShips(hit, row, column);
        SunkMarkingSparesShips(hit, row, column);
        CountSameCells(hit, marked, ShipCell);
        Shot(marked, failures, HitAndSunk)
      else
        Shot(hit, failures, Hit)
    else if GetGridValue(g, row, column) == EmptyCell then
      Shot(SetGridValue(g, row, column, MissCell), failures + 1, Miss)
    else
      Shot(g, failures, AlreadyAttacked)
  }

  /** A shot keeps the enemy board well formed. */
  lemma ShotKeepsWellFormed(g: Grid, failures: int, row: int, column: int)
    requires WellFormed(g) && InBounds(g, row, column)
    ensures WellFormed(WriteEnemyGrid(g, failures, row, column).grid)
  {
    var r := WriteEnemyGrid(g, failures, row, column);
    if GetGridValue(g, row, column) == ShipCell {
      var hit := SetGridValue(g, row, column, HitCell);
      assert WellFormed(hit);
    }
  }

  /** Shooting the same cell twice: the second shot reports an earlier attack and
      changes neither the enemy board nor the failure count. */
  lemma RepeatShotChangesNothing(g: Grid, failures: int, row: int, column: int)
    requires Valid(g) && InBounds(g, row, column)
    ensures var first := WriteEnemyGrid(g, failures, row, column);
      WriteEnemyGrid(first.grid, first.failures, row, column) == Shot(first.grid, first.failures, AlreadyAttacked)
  {
  }

  /** The failure count rises by one exactly when the shot lands on open sea. */
  lemma FailuresCountMisses(g: Grid, failures: int, row: int, column: int)
    requires Valid(g) && InBounds(g, row, column)
    ensures WriteEnemyGrid(g, failures, row, column).failures
            == failures + (if GetGridValue(g, row, column) == EmptyCell then 1 else 0)
  {
  }

  /** writePlayerGrid. The struck cell of the player's tracking board shows '$' when the
      enemy cell is '$' or 'X' and 'O' otherwise; when isSinked holds on the enemy board,
      the sunk marking runs on the tracking board from the same cell. */
  function WritePlayerGrid(enemy: Grid, player: Grid, row: int, column: int): (r: Grid)
    requires Valid(enemy) && InBounds(enemy, row, column)
    requires Valid(player) && InBounds(player, row, column)
    ensures SameShape(player, r)
    ensures var hit := GetGridValue(enemy, row, column) == SunkCell || GetGridValue(enemy, row, column) == HitCell;
      var mirror := SetGridValue(player, row, column, if hit then HitCell else MissCell);
      && (hit ==> GetGridValue(r, row, column) == HitCell || GetGridValue(r, row, column) == SunkCell)
      && (!hit ==> GetGridValue(r, row, column) == MissCell)
      && (IsSinked(enemy, row, column) ==> r == WriteSinkedShips(mirror, row, column))
      && (IsSinked(enemy, row, column) ==> MarksOnly(mirror, r, row, column))
      && (!IsSinked(enemy, row, column) ==> r == mirror)
    ensures NoShips(player) ==> NoShips(r)
  {
    var mirror :=
      if GetGridValue(enemy, row, column) == SunkCell || GetGridValue(enemy, row, column) == HitCell
      then SetGridValue(player, row, column, HitCell)
      else SetGridValue(player, row, column, MissCell);
    if IsSinked(enemy, row, column) then WriteSinkedShips(mirror, row, column) else mirror
  }

  // The end of the game.

  /** Some 'S' lies in rows 0 .. rows-2 and columns 0 .. columns-2, the region the
      end-of-game scan covers. */
  ghost predicate ShipInScanRegion(g: Grid)
    requires Valid(g)
  {
    exists i, j :: 0 <= i < g.dimRow - 1 && 0 <= j < g.dimColumn - 1 && GetGridValue(g, i, j) == ShipCell
  }

  /** isTheGameEnd: 1 when no time remains, checked first; else 2 when the failures
      have reached the attempt limit; else 3 when an 'S' remains in the scanned region;
      else 0. The scan stops one short of the last row and the last column. */
  method IsTheGameEnd(mat: Grid, secondsRemaining: int, failures: int, currentDifficultyNumTry: int)
    returns (code: int)
    requires Valid(mat)
    ensures secondsRemaining <= 0 ==> code == 1
    ensures secondsRemaining > 0 && failures == currentDifficultyNumTry ==> code == 2
    ensures secondsRemaining > 0 && failures != currentDifficultyNumTry ==>
      (code == 3 <==> ShipInScanRegion(mat)) && (code == 0 <==> !ShipInScanRegion(mat))
  {
    var isTheGameEnd := 0;
    var isNotEnded := 3;
    if secondsRemaining <= 0 {
      return 1;
    } else if failures == currentDifficultyNumTry {
      return 2;
    }
    var i := 0;
    while i < mat.dimRow - 1
      invariant 0 <= i && (i == 0 || i <= mat.dimRow - 1)
      invariant isTheGameEnd == 0 || isTheGameEnd == 3
      invariant isTheGameEnd == 3 <==>
        exists a, b :: 0 <= a < i && 0 <= b < mat.dimColumn - 1 && GetGridValue(mat, a, b) == ShipCell
    {
      var j := 0;
      while j < mat.dimColumn - 1
        invariant 0 <= j && (j == 0 || j <= mat.dimColumn - 1)
        invariant isTheGameEnd == 0 || isTheGameEnd == 3
        invariant isTheGameEnd == 3 <==>
          (exists a, b :: 0 <= a < i && 0 <= b < mat.dimColumn - 1 && GetGridValue(mat, a, b) == ShipCell)
          || (exists b :: 0 <= b < j && GetGridValue(mat, i, b) == ShipCell)
      {
        if GetGridValue(mat, i, j) == ShipCell {
          isTheGameEnd := isNotEnded;
        }
        j := j + 1;
      }
      i := i + 1;
    }
    return isTheGameEnd;
  }

  /** A board with no 'S' left always ends the scan with a win. */
  lemma NoShipsLeftWins(g: Grid)
    requires Valid(g) && CountValue(g, ShipCell) == 0
    ensures !ShipInScanRegion(g)
  {
    if ShipInScanRegion(g) {
      var i, j :| 0 <= i < g.dimRow - 1 && 0 <= j < g.dimColumn - 1 && GetGridValue(g, i, j) == ShipCell;
      CountPositive(g, ShipCell, i, j);
    }
  }

  /** The last row and the last column do not take part in the scan. */
  lemma ScanIgnoresLastRowAndColumn(g: Grid, h: Grid)
    requires SameShape(g, h)
    requires forall i, j :: 0 <= i < g.dimRow - 1 && 0 <= j < g.dimColumn - 1 ==> GetGridValue(g, i, j) == GetGridValue(h, i, j)
    ensures ShipInScanRegion(g) <==> ShipInScanRegion(h)
  {
  }

  /** A 2 x 2 board whose only 'S' is in the last row and column counts as cleared. */
  lemma LastCornerShipIgnored()
    ensures Valid(Grid(2, 2, ["--", "-S"]))
    ensures CountValue(Grid(2, 2, ["--", "-S"]), ShipCell) == 1
    ensures !ShipInScanRegion(Grid(2, 2, ["--", "-S"]))
  {
    var g := Grid(2, 2, ["--", "-S"]);
    assert g.cells[0] == "--" && g.cells[1] == "-S";
    assert GetGridValue(g, 0, 0) == EmptyCell;
    assert CountInRow("-S", ShipCell) == 1 by {
      assert "-S"[1..] == "S" && "S"[1..] == "";
    }
    assert CountInRow("--", ShipCell) == 0 by {
      assert "--"[1..] == "-" && "-"[1..] == "";
    }
    assert g.cells[1..] == ["-S"] && g.cells[1..][1..] == [];
  }

  /** How winLoseCondition ends the game. */
  datatype Verdict = TimeOver | AttemptsOver | Won | Running

  /** winLoseCondition on one end-of-game code: 1, 2 and 0 print their message and stop
      the game-menu loop; 3 leaves everything as it is. */
  function WinLoseCondition(s: Settings, code: int): (r: (Verdict, Settings))
    ensures r.0 == Running <==> code != 0 && code != 1 && code != 2
    ensures r.0 == Running ==> r.1 == s
    ensures r.0 != Running ==> r.1 == s.(gameMenuLoop := false)
    ensures code == 1 <==> r.0 == TimeOver
    ensures code == 2 <==> r.0 == AttemptsOver
    ensures code == 0 <==> r.0 == Won
  {
    if code == 1 then (TimeOver, s.(gameMenuLoop := false))
    else if code == 2 then (AttemptsOver, s.(gameMenuLoop := false))
    else if code == 0 then (Won, s.(gameMenuLoop := false))
    else (Running, s)
  }

  /** attack: decodes the validated coordinate (column = letter code - 97, row = number - 1),
      shoots the enemy board, mirrors the shot on the tracking board and, when asked to,
      tests the end of the game. Both boards are written through the settings' shared
      matrices. The game-menu loop stops exactly when the time is over, the failures
      have reached the limit, or no 'S' is left in the scanned region. */
  method Attack(h: Heap, s: Settings, coordinate: string, testCondition: bool, secondsRemaining: int)
    returns (h': Heap, s': Settings)
    requires s.enemyGrid.Some? && s.playerGrid.Some?
    requires Live(h, s.enemyGrid.value) && Live(h, s.playerGrid.value)
    requires s.enemyGrid.value.storage != s.playerGrid.value.storage
    requires s.playerGrid.value.dimRow == s.enemyGrid.value.dimRow
    requires s.playerGrid.value.dimColumn == s.enemyGrid.value.dimColumn
    requires Readable(coordinate)
    requires IsTheCoordinatesCorrect(s.enemyGrid.value.dimRow, s.enemyGrid.value.dimColumn, coordinate)
    ensures |h'| == |h| && Live(h', s.enemyGrid.value) && Live(h', s.playerGrid.value)
    ensures forall k :: 0 <= k < |h| && k != s.enemyGrid.value.storage && k != s.playerGrid.value.storage ==> h'[k] == h[k]
    ensures var cord := SplitDash(coordinate);
      var row, column := RowOf(cord[1]), ColumnOf(cord[0]);
      var shot := WriteEnemyGrid(View(h, s.enemyGrid.value), s.failures, row, column);
      && View(h', s.enemyGrid.value) == shot.grid
      && s'.failures == shot.failures
      && View(h', s.playerGrid.value) == WritePlayerGrid(shot.grid, View(h, s.playerGrid.value), row, column)
    ensures testCondition ==>
      (s'.gameMenuLoop <==>
        s.gameMenuLoop && secondsRemaining > 0 && s'.failures != s.currentDifficultyNumTry
        && ShipInScanRegion(View(h', s.enemyGrid.value)))
    ensures !testCondition ==> s'.gameMenuLoop == s.gameMenuLoop
    ensures s'.(failures := s.failures, gameMenuLoop := s.gameMenuLoop) == s
  {
    var enemy := GetEnemyGrid(s);
    var player := GetPlayerGrid(s);
    var offSet := 97;
    var cord := SplitDash(coordinate);
    var column := AsciiByte(cord[0][0]) - offSet;
    var row := DigitsValue(cord[1]) - 1;
    var shot := WriteEnemyGrid(View(h, enemy), s.failures, row, column);
    h' := h[enemy.storage := shot.grid.cells];
    s' := s.(failures := shot.failures);
    assert View(h', enemy) == shot.grid;
    assert View(h', player) == View(h, player);
    var tracking := WritePlayerGrid(View(h', enemy), View(h', player), row, column);
    h' := h'[player.storage := tracking.cells];
    assert View(h', enemy) == shot.grid;
    if testCondition {
      var code := IsTheGameEnd(View(h', enemy), secondsRemaining, s'.failures, s'.currentDifficultyNumTry);
      s' := WinLoseCondition(s', code).1;
    }
  }
}
