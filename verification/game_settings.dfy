/** The shared settings of Settings.java, passed explicitly instead of through
    the singleton: attempt limits per difficulty, the selected difficulty, the
    play time, the failure counter, the last accepted command and the two grids. */
module GameSettings {
  import opened Optional
  import opened GridStorage

  /** Settings.CommandsState: the command last accepted by an input validator. */
  datatype CommandsState =
    | Help | Esci | MostraNavi | MostraLivello | SvelaGriglia | Gioca
    | Facile | Medio | Difficile | Tempo | Standard | Large | ExtraLarge
    | MostraTempo | FacileTentativi | MedioTentativi | DifficileTentativi
    | Personalizzata | MostraGriglia | MostraTentativi | Attacca | Abbandona

  const DefaultEasyNumTry: int := 50
  const DefaultMediumNumTry: int := 30
  const DefaultHardNumTry: int := 10
  const DefaultTime: int := 30
  const MinTime: int := 3

  datatype Settings = Settings(
    enemyGrid: Option<GridObject>,
    playerGrid: Option<GridObject>,
    failures: int,
    currentState: Option<CommandsState>,
    mainMenuLoop: bool,
    gameMenuLoop: bool,
    time: int,
    currentDifficultyNumTry: int,
    easyNumTry: int,
    mediumNumTry: int,
    hardNumTry: int,
    currentDifficulty: Option<CommandsState>,
    minValueTime: int)

  /** The attempt limits decrease strictly from easy to medium to hard. */
  ghost predicate Ordered(s: Settings) {
    s.easyNumTry > s.mediumNumTry > s.hardNumTry
  }

  /** Settings.setCurrentDifficulty: FACILE, MEDIO and DIFFICILE select the matching
      attempt limit; any other state only records the difficulty. */
  function SetCurrentDifficulty(s: Settings, difficulty: CommandsState): (r: Settings)
    ensures r.currentDifficulty == Some(difficulty)
    ensures difficulty == Facile ==> r.currentDifficultyNumTry == s.easyNumTry
    ensures difficulty == Medio ==> r.currentDifficultyNumTry == s.mediumNumTry
    ensures difficulty == Difficile ==> r.currentDifficultyNumTry == s.hardNumTry
    ensures difficulty !in {Facile, Medio, Difficile} ==> r.currentDifficultyNumTry == s.currentDifficultyNumTry
    ensures r.(currentDifficulty := s.currentDifficulty, currentDifficultyNumTry := s.currentDifficultyNumTry) == s
  {
    var s1 := s.(currentDifficulty := Some(difficulty));
    if difficulty == Facile then s1.(currentDifficultyNumTry := s1.easyNumTry)
    else if difficulty == Medio then s1.(currentDifficultyNumTry := s1.mediumNumTry)
    else if difficulty == Difficile then s1.(currentDifficultyNumTry := s1.hardNumTry)
    else s1
  }

  /** The private constructor: time 30, limits 50/30/10, minimum time 3, difficulty MEDIO.
      Fields it does not touch keep their Java defaults (null, 0, and true for the menu loops). */
  function NewSettings(): (s: Settings)
    ensures s.easyNumTry == DefaultEasyNumTry && s.mediumNumTry == DefaultMediumNumTry
    ensures s.hardNumTry == DefaultHardNumTry
    ensures s.time == DefaultTime && s.minValueTime == MinTime
    ensures s.currentDifficulty == Some(Medio) && s.currentDifficultyNumTry == s.mediumNumTry
    ensures s.failures == 0 && s.currentState == None
    ensures s.enemyGrid == None && s.playerGrid == None
    ensures s.mainMenuLoop && s.gameMenuLoop
  {
    var blank := Settings(None, None, 0, None, true, true, 0, 0, 0, 0, 0, None, 0);
    var s1 := blank.(time := DefaultTime);
    var s2 := s1.(easyNumTry := DefaultEasyNumTry);
    var s3 := s2.(mediumNumTry := DefaultMediumNumTry);
    var s4 := s3.(hardNumTry := DefaultHardNumTry);
    var s5 := s4.(minValueTime := MinTime);
    var s6 := SetCurrentDifficulty(s5, Medio);
    s6.(currentDifficultyNumTry := s6.mediumNumTry)
  }

  /** The default limits satisfy the ordering easy > medium > hard. */
  lemma DefaultsOrdered()
    ensures Ordered(NewSettings())
    ensures NewSettings().currentDifficultyNumTry == 30
  {
  }

  /** getEnemyGrid: a new Grid object over the stored object's matrix. */
  function GetEnemyGrid(s: Settings): (g: GridObject)
    requires s.enemyGrid.Some?
    ensures g.storage == s.enemyGrid.value.storage
    ensures g.dimRow == s.enemyGrid.value.dimRow && g.dimColumn == s.enemyGrid.value.dimColumn
  {
    CopyGrid(s.enemyGrid.value)
  }

  /** setEnemyGrid: stores a new Grid object over the argument's matrix. */
  function SetEnemyGrid(s: Settings, g: GridObject): (r: Settings)
    ensures r.enemyGrid.Some? && r.enemyGrid.value.storage == g.storage
    ensures r.enemyGrid.value.dimRow == g.dimRow && r.enemyGrid.value.dimColumn == g.dimColumn
    ensures r.(enemyGrid := s.enemyGrid) == s
  {
    s.(enemyGrid := Some(CopyGrid(g)))
  }

  function GetPlayerGrid(s: Settings): (g: GridObject)
    requires s.playerGrid.Some?
    ensures g.storage == s.playerGrid.value.storage
    ensures g.dimRow == s.playerGrid.value.dimRow && g.dimColumn == s.playerGrid.value.dimColumn
  {
    CopyGrid(s.playerGrid.value)
  }

  function SetPlayerGrid(s: Settings, g: GridObject): (r: Settings)
    ensures r.playerGrid.Some? && r.playerGrid.value.storage == g.storage
    ensures r.playerGrid.value.dimRow == g.dimRow && r.playerGrid.value.dimColumn == g.dimColumn
    ensures r.(playerGrid := s.playerGrid) == s
  {
    s.(playerGrid := Some(CopyGrid(g)))
  }

  /** Every Grid returned by getEnemyGrid is a view of the one stored matrix: a write
      through one returned object is seen by the next call, so callers that write
      through `getEnemyGrid()` change the game's board. */
  lemma EnemyGridWritesPersist(h: Heap, s: Settings, row: int, column: int, value: char)
    requires s.enemyGrid.Some? && Live(h, s.enemyGrid.value)
    requires Grids.InBounds(View(h, s.enemyGrid.value), row, column)
    ensures View(SetThrough(h, GetEnemyGrid(s), row, column, value), GetEnemyGrid(s))
            == Grids.SetGridValue(View(h, GetEnemyGrid(s)), row, column, value)
    ensures View(ResetThrough(h, GetEnemyGrid(s)), GetEnemyGrid(s)) == Grids.ResetGrid(View(h, GetEnemyGrid(s)))
  {
  }

  /** A grid handed to setEnemyGrid stays shared with the caller's object. */
  lemma SetEnemyGridAliasesArgument(h: Heap, s: Settings, g: GridObject, row: int, column: int, value: char)
    requires Live(h, g) && Grids.InBounds(View(h, g), row, column)
    ensures View(SetThrough(h, g, row, column, value), GetEnemyGrid(SetEnemyGrid(s, g)))
            == Grids.SetGridValue(View(h, g), row, column, value)
  {
  }
}
