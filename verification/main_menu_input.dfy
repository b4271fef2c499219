/** The main-menu validator of MainMenuInput.java: keyword commands, the numeric
    commands "/tempo N", "/facile N", "/medio N", "/difficile N" and "/tentativi N"
    (N of one or two digits), and the checks that keep the attempt limits ordered
    easy > medium > hard. */
module MainMenuInput {
  import opened Optional
  import opened UtilityTools
  import opened GameSettings

  /** The selector strings isDifficultyLegal receives. */
  datatype Selector = Easy | Medium | Hard | Personal

  const MaxInt: int := 99
  const MinEasyNumTry: int := 15
  const MinMediumNumTry: int := 10
  const MinHardNumTry: int := 5
  const MinPersonalNumTry: int := 5

  /** isDifficultyLegal on the number the command carries: at most 99, at least the
      selector's minimum, and for the three levels strictly inside the neighbouring
      levels' current limits. A personal limit is checked only against 5 and 99. */
  function IsDifficultyLegal(s: Settings, difficulty: Selector, number: int): (legal: bool)
    ensures legal ==> number <= MaxInt
    ensures difficulty == Personal ==> (legal <==> MinPersonalNumTry <= number <= MaxInt)
    ensures difficulty == Easy ==>
      (legal <==> MinEasyNumTry <= number <= MaxInt && number > s.mediumNumTry)
    ensures difficulty == Medium ==>
      (legal <==> MinMediumNumTry <= number <= MaxInt && s.hardNumTry < number < s.easyNumTry)
    ensures difficulty == Hard ==>
      (legal <==> MinHardNumTry <= number <= MaxInt && number < s.mediumNumTry)
  {
    if number > MaxInt then false
    else if difficulty == Personal && number < MinPersonalNumTry then false
    else if difficulty == Easy && number < MinEasyNumTry then false
    else if difficulty == Medium && number < MinMediumNumTry then false
    else if difficulty == Hard && number < MinHardNumTry then false
    else if difficulty == Easy && number <= s.mediumNumTry then false
    else if (difficulty == Medium && number <= s.hardNumTry) || (difficulty == Medium && number >= s.easyNumTry) then false
    else if difficulty == Hard && number >= s.mediumNumTry then false
    else true
  }

  /** isTimeLegal: a time below the minimum is refused and changes nothing; any other
      time is stored. */
  function IsTimeLegal(s: Settings, number: int): (r: (bool, Settings))
    ensures r.0 <==> number >= s.minValueTime
    ensures r.0 ==> r.1.time == number && r.1.(time := s.time) == s
    ensures !r.0 ==> r.1 == s
  {
    if number < s.minValueTime then (false, s) else (true, s.(time := number))
  }

  /** Stores an accepted attempt limit with the setter of the selector's level:
      setEasyNumTry, setMediumNumTry, setHardNumTry or, for a personal limit,
      setCurrentDifficultyNumTry. */
  function SetNumTry(s: Settings, difficulty: Selector, number: int): (r: Settings)
    ensures difficulty == Easy ==> r.easyNumTry == number && r.(easyNumTry := s.easyNumTry) == s
    ensures difficulty == Medium ==> r.mediumNumTry == number && r.(mediumNumTry := s.mediumNumTry) == s
    ensures difficulty == Hard ==> r.hardNumTry == number && r.(hardNumTry := s.hardNumTry) == s
    ensures difficulty == Personal ==>
      r.currentDifficultyNumTry == number && r.(currentDifficultyNumTry := s.currentDifficultyNumTry) == s
  {
    match difficulty
    case Easy => s.(easyNumTry := number)
    case Medium => s.(mediumNumTry := number)
    case Hard => s.(hardNumTry := number)
    case Personal => s.(currentDifficultyNumTry := number)
  }

  /** An accepted limit keeps the three levels ordered easy > medium > hard. */
  lemma OrderingPreserved(s: Settings, difficulty: Selector, number: int)
    requires Ordered(s) && IsDifficultyLegal(s, difficulty, number)
    ensures Ordered(SetNumTry(s, difficulty, number))
  {
  }

  /** The ordering cannot be broken: a number that would break it is refused. */
  lemma BreakingNumberRefused(s: Settings, difficulty: Selector, number: int)
    requires Ordered(s) && difficulty != Personal
    requires !Ordered(SetNumTry(s, difficulty, number))
    ensures !IsDifficultyLegal(s, difficulty, number)
  {
  }

  // Java's case-insensitive comparison against the lower-case ASCII keywords.

  /** The lower-case ASCII letter a character matches under String.equalsIgnoreCase:
      'A'..'Z' their lower case, the dotted and dotless I (U+0130, U+0131) 'i', the long
      s (U+017F) 's' and the Kelvin sign (U+212A) 'k'; any other character only itself. */
  function FoldCase(ch: char): char {
    if 'A' <= ch <= 'Z' then (ch as int + 32) as char
    else if ch == 'İ' || ch == 'ı' then 'i'
    else if ch == 'ſ' then 's'
    else if ch == 'K' then 'k'
    else ch
  }

  /** The input with every character replaced by the keyword character it matches. */
  function Folded(input: string): (r: string)
    ensures |r| == |input|
  {
    seq(|input|, i requires 0 <= i < |input| => FoldCase(input[i]))
  }

  /** String.equalsIgnoreCase against a keyword of lower-case ASCII letters and '/'. */
  predicate EqualsIgnoreCase(input: string, keyword: string) {
    Folded(input) == keyword
  }

  /** The keyword commands, each with the state it selects. */
  const Keywords: seq<(string, CommandsState)> := [
    ("/help", Help), ("/gioca", Gioca), ("/esci", Esci), ("/facile", Facile),
    ("/medio", Medio), ("/difficile", Difficile), ("/mostralivello", MostraLivello),
    ("/mostranavi", MostraNavi), ("/svelagriglia", SvelaGriglia), ("/standard", Standard),
    ("/large", Large), ("/extralarge", ExtraLarge), ("/mostratempo", MostraTempo)]

  /** `input` matches `<keyword>\d[0-9]?`: the keyword, then one or two digits. */
  predicate NumericCommand(keyword: string, input: string) {
    |keyword| < |input| <= |keyword| + 2 && input[..|keyword|] == keyword && DigitsOnly(input[|keyword|..])
  }

  /** The number a numeric command carries: Integer.parseInt of the input with every
      non-digit removed. */
  function CommandNumber(input: string): int {
    DigitsValue(KeepDigits(input))
  }

  /** With a keyword that holds no digit, the number is the one written after it,
      between 0 and 99. */
  lemma CommandNumberIsSuffix(keyword: string, input: string)
    requires forall i :: 0 <= i < |keyword| ==> !IsDigit(keyword[i])
    requires NumericCommand(keyword, input)
    ensures CommandNumber(input) == DigitsValue(input[|keyword|..])
    ensures 0 <= CommandNumber(input) <= MaxInt
  {
    var digits := input[|keyword|..];
    assert input == keyword + digits;
    KeepDigitsOfSuffix(keyword, digits);
    ShortNumberRange(digits);
  }

  /** What isTheInputCorrect answers. */
  datatype MenuAnswer =
    | Accepted(state: CommandsState)
    | NumberRejected   // a numeric command whose number the checks refuse
    | NoCommand        // the input is empty
    | MissingPrefix    // the input does not start with '/'
    | UnsupportedCommand

  /** The keyword table, entry by entry. */
  lemma KeywordTable()
    ensures |Keywords| == 13
    ensures Keywords[0] == ("/help", Help) && Keywords[1] == ("/gioca", Gioca) && Keywords[2] == ("/esci", Esci)
    ensures Keywords[3] == ("/facile", Facile) && Keywords[4] == ("/medio", Medio)
    ensures Keywords[5] == ("/difficile", Difficile) && Keywords[6] == ("/mostralivello", MostraLivello)
    ensures Keywords[7] == ("/mostranavi", MostraNavi) && Keywords[8] == ("/svelagriglia", SvelaGriglia)
    ensures Keywords[9] == ("/standard", Standard) && Keywords[10] == ("/large", Large)
    ensures Keywords[11] == ("/extralarge", ExtraLarge) && Keywords[12] == ("/mostratempo", MostraTempo)
  {
  }

  /** A numeric command is never a keyword: its keyword ends in a space, and no keyword
      command holds one. */
  lemma NumericIsNotKeyword(keyword: string, input: string)
    requires |keyword| > 0 && keyword[|keyword| - 1] == ' '
    ensures NumericCommand(keyword, input) ==>
      forall k :: 0 <= k < |Keywords| ==> Folded(input) != Keywords[k].0
  {
    if NumericCommand(keyword, input) {
      var p := |keyword| - 1;
      assert input[p] == input[..|keyword|][p] == ' ';
      assert Folded(input)[p] == ' ';
      KeywordTable();
      forall k | 0 <= k < |Keywords| ensures ' ' !in Keywords[k].0 {
      }
    }
  }

  ghost predicate IsKeyword(input: string) {
    exists k :: 0 <= k < |Keywords| && Folded(input) == Keywords[k].0
  }

  ghost predicate IsNumericCommand(input: string) {
    NumericCommand("/tempo ", input) || NumericCommand("/facile ", input) || NumericCommand("/medio ", input)
    || NumericCommand("/difficile ", input) || NumericCommand("/tentativi ", input)
  }

  /** A numeric command whose number the level's checks accept selects `state` and stores
      the number with the level's setter; one they refuse changes nothing. */
  ghost predicate NumericOutcome(s: Settings, input: string, keyword: string, difficulty: Selector,
                                 state: CommandsState, r: (MenuAnswer, Settings))
    requires NumericCommand(keyword, input)
  {
    var number := DigitsValue(input[|keyword|..]);
    if IsDifficultyLegal(s, difficulty, number)
    then r == (Accepted(state), SetNumTry(s.(currentState := Some(state)), difficulty, number))
    else r == (NumberRejected, s)
  }

  /** One numeric-command branch of isTheInputCorrect: the level's checks, then the
      state and the setter. */
  function NumTryCommand(s: Settings, input: string, keyword: string, difficulty: Selector, state: CommandsState)
    : (r: (MenuAnswer, Settings))
    requires forall i :: 0 <= i < |keyword| ==> !IsDigit(keyword[i])
    requires NumericCommand(keyword, input)
    ensures NumericOutcome(s, input, keyword, difficulty, state, r)
  {
    CommandNumberIsSuffix(keyword, input);
    var number := CommandNumber(input);
    if !IsDifficultyLegal(s, difficulty, number) then (NumberRejected, s)
    else (Accepted(state), SetNumTry(s.(currentState := Some(state)), difficulty, number))
  }

  /** isTheInputCorrect: a keyword, compared ignoring case, selects its state; a numeric
      command is accepted when its number passes isTimeLegal or isDifficultyLegal and then
      stores the number; anything else is reported as empty, missing the '/' prefix, or
      unsupported, and changes nothing. */
  function IsTheInputCorrect(s: Settings, input: string): (r: (MenuAnswer, Settings))
    ensures forall k :: 0 <= k < |Keywords| && Folded(input) == Keywords[k].0 ==>
      r == (Accepted(Keywords[k].1), s.(currentState := Some(Keywords[k].1)))
    ensures NumericCommand("/tempo ", input) ==>
      var number := DigitsValue(input[7..]);
      if number >= s.minValueTime
      then r == (Accepted(Tempo), s.(time := number, currentState := Some(Tempo)))
      else r == (NumberRejected, s)
    ensures NumericCommand("/facile ", input) ==> NumericOutcome(s, input, "/facile ", Easy, FacileTentativi, r)
    ensures NumericCommand("/medio ", input) ==> NumericOutcome(s, input, "/medio ", Medium, MedioTentativi, r)
    ensures NumericCommand("/difficile ", input) ==> NumericOutcome(s, input, "/difficile ", Hard, DifficileTentativi, r)
    ensures NumericCommand("/tentativi ", input) ==> NumericOutcome(s, input, "/tentativi ", Personal, Personalizzata, r)
    ensures !IsKeyword(input) && !IsNumericCommand(input) ==>
      r.1 == s &&
      (r.0 == NoCommand <==> |input| == 0) &&
      (r.0 == MissingPrefix <==> |input| > 0 && input[0] != '/') &&
      (r.0 == UnsupportedCommand <==> |input| > 0 && input[0] == '/')
  {
    KeywordTable();
    NumericIsNotKeyword("/tempo ", input);
    NumericIsNotKeyword("/facile ", input);
    NumericIsNotKeyword("/medio ", input);
    NumericIsNotKeyword("/difficile ", input);
    NumericIsNotKeyword("/tentativi ", input);
    if EqualsIgnoreCase(input, "/help") then (Accepted(Help), s.(currentState := Some(Help)))
    else if EqualsIgnoreCase(input, "/gioca") then (Accepted(Gioca), s.(currentState := Some(Gioca)))
    else if EqualsIgnoreCase(input, "/esci") then (Accepted(Esci), s.(currentState := Some(Esci)))
    else if EqualsIgnoreCase(input, "/facile") then (Accepted(Facile), s.(currentState := Some(Facile)))
    else if EqualsIgnoreCase(input, "/medio") then (Accepted(Medio), s.(currentState := Some(Medio)))
    else if EqualsIgnoreCase(input, "/difficile") then (Accepted(Difficile), s.(currentState := Some(Difficile)))
    else if EqualsIgnoreCase(input, "/mostralivello") then (Accepted(MostraLivello), s.(currentState := Some(MostraLivello)))
    else if EqualsIgnoreCase(input, "/mostranavi") then (Accepted(MostraNavi), s.(currentState := Some(MostraNavi)))
    else if EqualsIgnoreCase(input, "/svelagriglia") then (Accepted(SvelaGriglia), s.(currentState := Some(SvelaGriglia)))
    else if NumericCommand("/tempo ", input) then
      CommandNumberIsSuffix("/tempo ", input);
      var legal := IsTimeLegal(s, CommandNumber(input));
      if !legal.0 then (NumberRejected, s)
      else (Accepted(Tempo), legal.1.(currentState := Some(Tempo)))
    else if EqualsIgnoreCase(input, "/standard") then (Accepted(Standard), s.(currentState := Some(Standard)))
    else if EqualsIgnoreCase(input, "/large") then (Accepted(Large), s.(currentState := Some(Large)))
    else if EqualsIgnoreCase(input, "/extralarge") then (Accepted(ExtraLarge), s.(currentState := Some(ExtraLarge)))
    else if EqualsIgnoreCase(input, "/mostratempo") then (Accepted(MostraTempo), s.(currentState := Some(MostraTempo)))
    else if NumericCommand("/facile ", input) then NumTryCommand(s, input, "/facile ", Easy, FacileTentativi)
    else if NumericCommand("/medio ", input) then NumTryCommand(s, input, "/medio ", Medium, MedioTentativi)
    else if NumericCommand("/difficile ", input) then NumTryCommand(s, input, "/difficile ", Hard, DifficileTentativi)
    else if NumericCommand("/tentativi ", input) then NumTryCommand(s, input, "/tentativi ", Personal, Personalizzata)
    else if |input| == 0 then (NoCommand, s)
    else if input[0] != '/' then (MissingPrefix, s)
    else (UnsupportedCommand, s)
  }

  /** No main-menu command can break the ordering easy > medium > hard. */
  lemma InputKeepsOrdered(s: Settings, input: string)
    requires Ordered(s)
    ensures Ordered(IsTheInputCorrect(s, input).1)
  {
    var r := IsTheInputCorrect(s, input);
    var s1 := s.(currentState := r.1.currentState);
    assert Ordered(s1);
    if r.0.Accepted? && r.0.state in {FacileTentativi, MedioTentativi, DifficileTentativi, Personalizzata} {
      var (keyword, difficulty) :=
        if r.0.state == FacileTentativi then ("/facile ", Easy)
        else if r.0.state == MedioTentativi then ("/medio ", Medium)
        else if r.0.state == DifficileTentativi then ("/difficile ", Hard)
        else ("/tentativi ", Personal);
      assert NumericCommand(keyword, input);
      OrderingPreserved(s1, difficulty, DigitsValue(input[|keyword|..]));
    }
  }

  /** A limit accepted by "/facile N" is the one the easy level plays with once selected. */
  lemma EasyLimitUsed(s: Settings, input: string)
    requires NumericCommand("/facile ", input)
    requires IsTheInputCorrect(s, input).0 == Accepted(FacileTentativi)
    ensures SetCurrentDifficulty(IsTheInputCorrect(s, input).1, Facile).currentDifficultyNumTry
            == DigitsValue(input[8..])
  {
  }
}
