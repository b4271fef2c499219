# Battleship core in Dafny

This project models the rules engine of a console Battleship game written in Java. It covers:

- the board (`Grid`);
- random fleet placement (`Game`);
- attack resolution, sink detection and marking, and the end-of-game test (`CommandsGame`);
- the validators of the game and main menus (`GameMenuInput`, `MainMenuInput`);
- the shared settings singleton (`Settings`);
- the digit helpers of `UtilityTools`.

Boards are values: `Grid(dimRow, dimColumn, cells)` with the cell codes `-` (sea), `S` (ship), `$` (hit), `X` (sunk) and `O` (miss).

In Java, `new Grid(other)` and the settings' grid accessors share one matrix. The model keeps that aliasing explicit: a heap of matrices, and `GridObject`s that point into it (module `GridStorage`). Writes through any copy are therefore visible through every other copy.

The random generator is an oracle: a sequence of draws handed to the placement method. The wall clock is the number of seconds left, passed to the end-of-game test.

Modules, one per source concern:

| module | models |
|---|---|
| `UtilityTools` | `isNumeric`, `Integer.parseInt` on digit strings, `replaceAll("[^0-9]?", "")` |
| `Grids` | `Grid.java` as a value: get, set, reset, constructor, cell counts |
| `GridStorage` | object identity of `Grid`: shared matrices, the copy constructor |
| `GameSettings` | `Settings.java`: fields, constructor, `setCurrentDifficulty`, grid accessors |
| `Game` | `Game.java`: legality of a cell, ship fitting, `placeShip`, `placeShipsRandom`, constructor |
| `Sinking` | `isSinked` and `writeSinkedShips` of `CommandsGame.java` |
| `CommandsGame` | `writeEnemyGrid`, `writePlayerGrid`, `isTheGameEnd`, `winLoseCondition`, `attack` |
| `Coordinates` | the text of a coordinate: `split("-")`, ASCII lower-casing, the first byte |
| `GameMenuInput` | the attack branch and `isTheCoordinatesCorrect` of `GameMenuInput.java` |
| `MainMenuInput` | `MainMenuInput.java`: keyword and numeric commands, `isTimeLegal`, `isDifficultyLegal` |

## Model

| member | source | states |
|---|---|---|
| UtilityTools.IsNumeric | src/utility/UtilityTools.java:70-82 | true exactly for non-empty strings of characters '0'..'9' ("", "." and ".." are false) |
| UtilityTools.DigitsOnly | src/utility/UtilityTools.java:75-81 | the character loop accepts exactly the strings with no character outside '0'..'9' |
| UtilityTools.ShortNumberRange | src/keyboardInput/MainMenuInput.java:90 | a one- or two-digit number `\d[0-9]?` parses to a value in 0..99, computed digit by digit |
| UtilityTools.KeepDigitsOfSuffix | src/keyboardInput/MainMenuInput.java:119 | removing every non-digit from a digit-free keyword followed by digits leaves exactly the digits |
| Grids.SetGridValue | src/grid/Grid.java:65-67 | the written cell reads back the value; every other cell and the dimensions are unchanged |
| Grids.ResetGrid | src/grid/Grid.java:91-98 | every cell of the dimRow x dimColumn matrix becomes '-', the shape is kept |
| Grids.NewGrid | src/grid/Grid.java:30-35 | a new grid has the requested dimensions and all cells '-' |
| Grids.ResetIdempotent | src/grid/Grid.java:91-98 | resetting twice equals resetting once, and a reset grid equals a new grid of its size |
| Grids.ResetHasNoShips | src/grid/Grid.java:91-98 | a reset grid holds no 'S' |
| Grids.CountAfterSet | src/grid/Grid.java:65-67 | one write changes the count of a code by exactly -1, 0 or +1 according to the old and new codes |
| GridStorage.Allocate | src/grid/Grid.java:30-35 | `new Grid(r, c)` allocates a fresh matrix, leaves existing ones alone, and shows a new grid |
| GridStorage.CopyGrid | src/grid/Grid.java:40-44 | the copy constructor keeps the dimensions and the same matrix reference |
| GridStorage.SetThrough | src/grid/Grid.java:65-67 | writing through an object updates its matrix in place and no other matrix |
| GridStorage.ResetThrough | src/grid/Grid.java:91-98 | resetting through an object resets its matrix and no other |
| GridStorage.CopySharesWrites | src/grid/Grid.java:40-59 | a write through a copy is seen through the original and the other way round |
| GridStorage.SeparateStorageUnaffected | src/grid/Grid.java:65-67 | writing one matrix leaves an object over another matrix unchanged |
| GameSettings.SetCurrentDifficulty | src/game/Settings.java:229-239 | FACILE, MEDIO and DIFFICILE copy the matching limit into the current limit; other states only record the difficulty; nothing else changes |
| GameSettings.NewSettings | src/game/Settings.java:109-160 | defaults: time 30, limits 50/30/10, minimum time 3, difficulty MEDIO with limit 30, no grids, and both menu loops running |
| GameSettings.DefaultsOrdered | src/game/Settings.java:130-160 | the default limits are ordered easy > medium > hard |
| GameSettings.GetEnemyGrid | src/game/Settings.java:328-330 | the returned object shares the stored matrix and has its dimensions |
| GameSettings.SetEnemyGrid | src/game/Settings.java:334-336 | the stored object shares the argument's matrix and has its dimensions; nothing else changes |
| GameSettings.GetPlayerGrid | src/game/Settings.java:340-342 | the returned object shares the stored matrix and has its dimensions |
| GameSettings.SetPlayerGrid | src/game/Settings.java:346-348 | the stored object shares the argument's matrix and has its dimensions; nothing else changes |
| GameSettings.EnemyGridWritesPersist | src/game/Settings.java:328-330 | a write or reset through `getEnemyGrid()` changes the game's board |
| GameSettings.SetEnemyGridAliasesArgument | src/game/Settings.java:334-336 | after `setEnemyGrid(g)`, writes through `g` are seen through `getEnemyGrid()` |
| Game.IsPositionLegal | src/game/Game.java:202-266 | a cell is legal exactly when it is on the board and it and all its in-bounds neighbours (diagonals included) are '-' |
| Game.IsShipPlaceable | src/game/Game.java:174-195 | true exactly when every cell of the ship, extending right or down, is legal |
| Game.FitsIsInside | src/game/Game.java:174-195 | a ship that is placeable lies on the board over cells that are all '-' |
| Game.PlaceShip | src/game/Game.java:156-165 | exactly the ship's cells become 'S'; on cells that held no 'S' the ship count grows by the ship's length |
| Game.PlaceKeepsLayout | src/game/Game.java:156-195 | committing a placeable ship keeps the board equal to the union of the placed ships, and the ships pairwise non-touching |
| Game.StandardFleet | src/game/Game.java:30 | the ship table places 2,2,2,2,3,3,3,4,4,5: 30 ship cells |
| Game.PlaceOneShip | src/game/Game.java:129-140 | draws for one ship until one is placeable or the failure budget of 400 is spent: every draw counted as a failure proposes a ship that does not fit, and the ship committed is the one the last draw proposes, written as 'S' on exactly its cells; the layout and the separation from earlier ships are kept |
| Game.PlaceShipsOfLength | src/game/Game.java:127-141 | places the table's ships of one length one after the other on the shared failure budget; each draw is a failure or one placed ship, and within budget exactly that many ships of that length are added |
| Game.PlaceEpisode | src/game/Game.java:123-142 | one episode resets the board and places the table in ascending length order on a single failure budget; the draws it spent are its failures plus its ships, and within budget the board holds the whole table, pairwise non-touching |
| Game.PlaceShipsRandom | src/game/Game.java:117-148 | on success fewer than 400 failures were counted and the draws used are at least the last episode's ships plus its failures, with the ghost `episodeStart` marking where that episode began (the exact per-episode accounting, from a known start, is stated by `Game.PlaceEpisode`); the board holds exactly the table's ships, pairwise non-touching, and exactly their total length in 'S' cells; when the draws run out, no success is claimed |
| Game.NewGame | src/game/Game.java:50-59 | two fresh reset boards on distinct matrices become the enemy and player grids; failures reset to 0; nothing else changes |
| Sinking.ScanFrom | src/menu/CommandsGame.java:152-158 | one scanning loop meets an 'S' exactly when the walk reaches an 'S' before a '-', an 'O' or the edge |
| Sinking.ScannedCover | src/menu/CommandsGame.java:141-262 | every position scans North or South, and a direction it skips has no neighbouring cell |
| Sinking.ScannedExactlyInBounds | src/menu/CommandsGame.java:141-262 | on boards of at least 2 x 2 a position scans a direction exactly when the neighbour that way exists |
| Sinking.IsSinked | src/menu/CommandsGame.java:141-262 | true exactly when no straight walk from the struck cell reaches an 'S' before a '-', an 'O' or the edge |
| Sinking.RunEnd | src/menu/CommandsGame.java:268-362 | a marking loop stops at its first step that is out of its bound or on a '-' or 'O' |
| Sinking.RunEndFrame | src/menu/CommandsGame.java:268-362 | where a marking loop stops depends only on which cells are '-' or 'O' |
| Sinking.MarkLoop | src/menu/CommandsGame.java:276-282 | one marking loop writes 'X' on exactly the cells of its run and only over cells that were not '-' or 'O' |
| Sinking.MarkedByAppend | src/menu/CommandsGame.java:268-362 | a cell is passed by the runs of two groups of loops exactly when one of the groups passes it |
| Sinking.WriteSinkedShips | src/menu/CommandsGame.java:268-362 | writes 'X' on exactly the cells of the struck row and column that the runs pass, and only over cells that were not '-' or 'O' |
| Sinking.InteriorMarksFullRuns | src/menu/CommandsGame.java:268-362 | from an interior cell every cell before the first '-', 'O' or edge becomes 'X' |
| Sinking.FirstColumnSkipsLastRow | src/menu/CommandsGame.java:321-333 | from the first column, strictly between the first and last rows, the South run never writes the last row |
| Sinking.InteriorReachesLastRow | src/menu/CommandsGame.java:268-362 | from an interior cell with a clear column below, the last row is marked |
| Sinking.MarkedIsNotShip | src/menu/CommandsGame.java:268-362 | when no walk reaches an 'S', no marking run passes an 'S' |
| Sinking.SunkMarkingSparesShips | src/menu/CommandsGame.java:268-362 | when isSinked holds, marking changes no 'S' cell and writes no 'S' |
| CommandsGame.WriteEnemyGrid | src/menu/CommandsGame.java:385-402 | a hit turns 'S' to '$', sinks exactly when no walk reaches another 'S', removes exactly one 'S' and keeps the failures; a sinking hit is followed by writeSinkedShips on the hit board; a miss turns '-' to 'O' and adds one failure; other cells change nothing |
| CommandsGame.ShotKeepsWellFormed | src/menu/CommandsGame.java:385-402 | a shot keeps every cell among the five codes |
| CommandsGame.RepeatShotChangesNothing | src/menu/CommandsGame.java:399-401 | shooting the same cell again reports an earlier attack and changes neither the enemy board nor the failures |
| CommandsGame.FailuresCountMisses | src/menu/CommandsGame.java:395-398 | the failure count rises by one exactly when the shot hits open sea |
| CommandsGame.WritePlayerGrid | src/menu/CommandsGame.java:369-379 | the tracking cell shows a hit exactly when the enemy cell is '$' or 'X', and 'O' otherwise; when isSinked holds on the enemy board, writeSinkedShips runs on the tracking board; a tracking board never gains an 'S' |
| CommandsGame.IsTheGameEnd | src/menu/CommandsGame.java:408-427 | 1 when time is over, else 2 when failures reached the limit, else 3 exactly when an 'S' lies outside the last row and column, else 0 |
| CommandsGame.NoShipsLeftWins | src/menu/CommandsGame.java:419-425 | a board with no 'S' at all always scans as won |
| CommandsGame.ScanIgnoresLastRowAndColumn | src/menu/CommandsGame.java:419-420 | the end-of-game scan does not look at the last row or the last column |
| CommandsGame.LastCornerShipIgnored | src/menu/CommandsGame.java:419-420 | a 2 x 2 board whose only 'S' is in the bottom-right corner counts as cleared |
| CommandsGame.WinLoseCondition | src/menu/CommandsGame.java:115-134 | codes 1, 2 and 0 give time over, attempts over and won and stop the game-menu loop; any other code changes nothing |
| CommandsGame.Attack | src/menu/CommandsGame.java:96-111 | the coordinate's letter and number select the cell; both boards are written through their shared matrices; with the test enabled, the menu loop stops exactly when time is over, the failures reach the limit, or no 'S' remains in the scanned region |
| Coordinates.ToLower | src/keyboardInput/GameMenuInput.java:63-64 | lower-casing maps 'A'..'Z' to 'a'..'z' and keeps every other character and the length |
| Coordinates.PiecesJoin | src/menu/CommandsGame.java:101 | the pieces between dashes hold no dash and join back to the input |
| Coordinates.SplitLetterDash | src/menu/CommandsGame.java:101 | splitting a character, a dash and a dash-free tail gives exactly those two parts |
| Coordinates.LoweredAttackSplits | src/keyboardInput/GameMenuInput.java:62-64 | a coordinate of either case, lower-cased, splits into its letter and digits; the letter's column is its alphabet index and the row the number minus one |
| Coordinates.CoordinateRoundTrip | src/menu/CommandsGame.java:96-104 | the text of any cell has the coordinate shape, is already lower case, and decodes back to that cell |
| GameMenuInput.IsTheCoordinatesCorrect | src/keyboardInput/GameMenuInput.java:100-136 | true exactly when the letter piece is one character, the number has one or two digits, and the column and row it names are on the board |
| GameMenuInput.TakeAttackInput | src/keyboardInput/GameMenuInput.java:62-93 | a coordinate of the pattern is accepted exactly when its letter and number name a cell of the game's enemy grid (its rows and columns), and then the state becomes ATTACCA; a coordinate without its dash is reported as such; nothing else changes |
| GameMenuInput.RowZeroRejected | src/keyboardInput/GameMenuInput.java:100-136 | "x-0" and "x-00" name no row and are rejected whatever the enemy grid's size |
| GameMenuInput.CellTextAccepted | src/keyboardInput/GameMenuInput.java:62-71 | the text of every cell of the enemy grid (up to 99 rows and 26 columns) is accepted and selects that cell |
| GameMenuInput.CaseInsensitive | src/keyboardInput/GameMenuInput.java:62-71 | upper- and lower-case letters are accepted alike |
| MainMenuInput.IsDifficultyLegal | src/keyboardInput/MainMenuInput.java:193-248 | at most 99 and at least 15/10/5/5; easy above the current medium; medium strictly between the current hard and easy; hard below the current medium; personal checked only against 5 and 99 |
| MainMenuInput.IsTimeLegal | src/keyboardInput/MainMenuInput.java:176-186 | a time below the minimum is refused with nothing changed; any other time is stored |
| MainMenuInput.SetNumTry | src/game/Settings.java:181-219 | each setter writes its own limit and nothing else |
| MainMenuInput.OrderingPreserved | src/keyboardInput/MainMenuInput.java:223-246 | when the limits are ordered easy > medium > hard, an accepted limit keeps them ordered |
| MainMenuInput.BreakingNumberRefused | src/keyboardInput/MainMenuInput.java:223-246 | a level's number that would break the ordering is refused |
| MainMenuInput.CommandNumberIsSuffix | src/keyboardInput/MainMenuInput.java:119-120 | the number parsed from a numeric command is the one written after the keyword, within 0..99 |
| MainMenuInput.NumericIsNotKeyword | src/keyboardInput/MainMenuInput.java:62-154 | no numeric command is also a keyword command |
| MainMenuInput.NumTryCommand | src/keyboardInput/MainMenuInput.java:111-153 | a numeric attempt command is accepted exactly when isDifficultyLegal holds, then records its state and stores the number with the level's setter |
| MainMenuInput.IsTheInputCorrect | src/keyboardInput/MainMenuInput.java:62-170 | a keyword selects its state regardless of case; "/tempo N" and the attempt commands are accepted exactly when their checks pass and store N; other input is classed as empty, missing '/', or unsupported and changes nothing |
| MainMenuInput.InputKeepsOrdered | src/keyboardInput/MainMenuInput.java:111-153 | no main-menu command breaks the ordering easy > medium > hard |
| MainMenuInput.EasyLimitUsed | src/game/Settings.java:229-235 | a limit accepted by "/facile N" is the limit played once FACILE is selected |

## Left out

- Console output: every message printed is reduced to the answer datatypes `Report`, `Verdict`, `Outcome` and `MenuAnswer`. `printGrid`, `printGridWithoutMiss` and the ASCII art are not modelled.
- The Scanner-driven loops are not modelled: `takeInput`, `ConfirmInput`, `startNewGame`, `gameMenu`, `exit`, `abandon`, `help`, `showTime` and `showFailures`. They only read lines and print.
- `CommandsMainMenu` is not modelled. It prints, calls the size setters (10, 18 or 26) and starts a `Game`.
- `java.util.Random` is replaced by the sequence of draws given to `Game.PlaceShipsRandom`. A run that exhausts the draws reports failure; the Java loop would instead draw again.
- Game.PlaceShipsRandom: the ensures count the draws the successful episode spent, but do not say which cells a given draw selects.
- `LocalDateTime.now()` is replaced by the seconds-remaining parameter of `CommandsGame.IsTheGameEnd` and `CommandsGame.Attack`.
- CommandsGame.WinLoseCondition: the Java method calls `isTheGameEnd` up to three times, reading the clock each time. The model computes the code once. A deadline that passes between two reads is not modelled.
- `Game.IsPositionLegal` and placement use `dimRowMax` for both axes, as the source does. The model therefore requires square boards there.
- Java `null` for the unset grids and states is modelled as `Option`. The singleton `Settings.getIstance` is replaced by passing the settings value explicitly.
- `getShipsArrayValue` and `setShipsArrayValue` are not modelled; the ship table is a parameter of placement.
- Java `int` overflow is not modelled: every number the model handles is at most 99, or a board size or count.
- Regular expressions are stated directly as the shapes they accept (`AttackPattern`, `NoDashPattern`, `NumericCommand`).
- Case mapping covers ASCII letters plus the four non-ASCII characters that Java's `equalsIgnoreCase` matches to ASCII letters. Non-ASCII letters in a coordinate are already rejected by the pattern.
- Coordinates.ToLower: assumes a default locale whose case mapping of 'A'..'Z' is ASCII. Under a Turkish or Azerbaijani locale `toLowerCase()` (src/keyboardInput/GameMenuInput.java:64) maps 'I' to U+0131, so the source then rejects "I-1" (the column becomes '?' - 97) while the model accepts it as column 8.
- `GameMenuInput`'s keyword commands (`/help`, `/esci`, `/mostragriglia`, …) are not modelled; only its attack branch and error classification for coordinates are. `MainMenuInput`'s keyword branches are modelled.
- Sinking.WriteSinkedShips: states which cells the marking loops write, as written, and does not claim that a sunk ship is marked completely. From edge positions the South and East loops stop one cell before the last row or column (src/menu/CommandsGame.java:328 and 356); `Sinking.FirstColumnSkipsLastRow` exhibits such a case.
