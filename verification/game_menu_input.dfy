/** The attack branch of GameMenuInput.java: the shape test on the raw input, the
    coordinate validation against the enemy grid's size, the resulting command
    state, and the dedicated error for a coordinate typed without its dash. */
module GameMenuInput {
  import opened Optional
  import opened UtilityTools
  import opened Coordinates
  import opened GameSettings

  /** split("-") yields the pieces isTheCoordinatesCorrect reads: the first always,
      and the second whenever the first is one character long. */
  predicate Readable(coordinates: string) {
    var cord := SplitDash(coordinates);
    |cord| >= 1 && (|cord[0]| == 1 ==> |cord| >= 2)
  }

  /** isTheCoordinatesCorrect, checks in the source's order: the first piece must be one
      character, the second numeric and at most two characters; then the letter's
      column and the number's row must lie on the rows x columns grid. */
  function IsTheCoordinatesCorrect(rows: int, columns: int, coordinates: string): (ok: bool)
    requires Readable(coordinates)
    ensures ok <==>
      var cord := SplitDash(coordinates);
      |cord[0]| == 1 && ShortNumber(cord[1])
      && 0 <= ColumnOf(cord[0]) < columns && 0 <= RowOf(cord[1]) < rows
  {
    var cord := SplitDash(coordinates);
    if |cord[0]| != 1 then false
    else if !IsNumeric(cord[1]) then false
    else if |cord[1]| <= 2 then
      var column := AsciiByte(cord[0][0]) - 97;
      var row := DigitsValue(cord[1]) - 1;
      column >= 0 && column <= columns - 1 && row >= 0 && row <= rows - 1
    else false
  }

  /** How the game menu treats an input with respect to attacks. */
  datatype Outcome =
    | AttackAccepted   // matches the coordinate shape and names a cell of the grid
    | AttackRejected   // matches the coordinate shape but names no cell of the grid
    | MissingDash      // a letter and digits with no dash: its own error message
    | NotAnAttack      // anything else, left to the other command branches

  /** The branch at the coordinate pattern and the no-dash error branch of isTheInputCorrect.
      A matching input is lowercased and validated against the size of the game's enemy
      grid (getEnemyGrid); on acceptance the command state becomes ATTACCA, otherwise the
      settings are untouched. */
  function TakeAttackInput(s: Settings, input: string): (r: (Outcome, Settings))
    requires s.enemyGrid.Some?
    ensures var rows, columns := s.enemyGrid.value.dimRow, s.enemyGrid.value.dimColumn;
      r.0 == AttackAccepted <==>
      AttackPattern(input) && 0 <= LetterIndex(input[0]) < columns && 1 <= DigitsValue(input[2..]) <= rows
    ensures var rows, columns := s.enemyGrid.value.dimRow, s.enemyGrid.value.dimColumn;
      r.0 == AttackRejected <==>
      AttackPattern(input) && !(0 <= LetterIndex(input[0]) < columns && 1 <= DigitsValue(input[2..]) <= rows)
    ensures r.0 == MissingDash <==> NoDashPattern(input)
    ensures r.0 == AttackAccepted ==> r.1 == s.(currentState := Some(Attacca))
    ensures r.0 != AttackAccepted ==> r.1 == s
  {
    if AttackPattern(input) then
      LoweredAttackSplits(input);
      var mat := GetEnemyGrid(s);
      if IsTheCoordinatesCorrect(mat.dimRow, mat.dimColumn, ToLower(input)) then
        (AttackAccepted, s.(currentState := Some(Attacca)))
      else (AttackRejected, s)
    else if NoDashPattern(input) then (MissingDash, s)
    else (NotAnAttack, s)
  }

  /** The number 0 names no row: "a-0" and "a-00" are rejected on every grid. */
  lemma RowZeroRejected(s: Settings, input: string)
    requires s.enemyGrid.Some?
    requires AttackPattern(input) && DigitsValue(input[2..]) == 0
    ensures TakeAttackInput(s, input).0 == AttackRejected
  {
  }

  /** The text of every cell of the enemy grid is accepted, and it selects that cell. */
  lemma CellTextAccepted(s: Settings, row: int, column: int)
    requires s.enemyGrid.Some? && s.enemyGrid.value.dimRow <= 99 && s.enemyGrid.value.dimColumn <= 26
    requires 0 <= row < s.enemyGrid.value.dimRow && 0 <= column < s.enemyGrid.value.dimColumn
    ensures TakeAttackInput(s, CoordinateString(row, column)).0 == AttackAccepted
    ensures var cord := SplitDash(CoordinateString(row, column));
      |cord| == 2 && |cord[0]| == 1 && AllDigits(cord[1])
      && ColumnOf(cord[0]) == column && RowOf(cord[1]) == row
  {
    CoordinateRoundTrip(row, column);
    LoweredAttackSplits(CoordinateString(row, column));
  }

  /** Upper- and lower-case letters name the same cell. */
  lemma CaseInsensitive(s: Settings, input: string)
    requires s.enemyGrid.Some? && AttackPattern(input)
    ensures TakeAttackInput(s, input).0 == TakeAttackInput(s, ToLower(input)).0
  {
    LoweredAttackSplits(input);
    assert LowerChar(LowerChar(input[0])) == LowerChar(input[0]);
    assert ToLower(input)[0] == LowerChar(input[0]);
  }
}
