/** The text of an attack coordinate ("a-1" .. "z-99") and the parts of the Java
    string library the game applies to it: split("-"), toLowerCase on ASCII
    letters, and the first byte of getBytes(US_ASCII). The letter selects the
    column (its code minus 97) and the number the row (the number minus one). */
module Coordinates {
  import opened UtilityTools

  predicate IsLowerLetter(ch: char) {
    'a' <= ch <= 'z'
  }

  predicate IsUpperLetter(ch: char) {
    'A' <= ch <= 'Z'
  }

  /** Character.toLowerCase restricted to ASCII: 'A'..'Z' become 'a'..'z', nothing else changes. */
  function LowerChar(ch: char): char {
    if IsUpperLetter(ch) then (ch as int + 32) as char else ch
  }

  /** String.toLowerCase on ASCII text. */
  function ToLower(s: string): (r: string)
    ensures |r| == |s|
    ensures forall i :: 0 <= i < |s| ==>
      if IsUpperLetter(s[i]) then IsLowerLetter(r[i]) && r[i] as int == s[i] as int + 32 else r[i] == s[i]
  {
    seq(|s|, i requires 0 <= i < |s| => LowerChar(s[i]))
  }

  /** The byte getBytes(US_ASCII) produces for one character: unmappable characters become '?'. */
  function AsciiByte(ch: char): int {
    if ch as int < 128 then ch as int else '?' as int
  }

  // String.split("-").

  /** The pieces of `s` between dashes, empty pieces included. */
  function Pieces(s: string): (r: seq<string>)
    ensures |r| >= 1
  {
    if |s| == 0 then [""]
    else if s[0] == '-' then [""] + Pieces(s[1..])
    else
      var rest := Pieces(s[1..]);
      [[s[0]] + rest[0]] + rest[1..]
  }

  /** The pieces joined back with dashes. */
  function JoinDash(xs: seq<string>): string
    requires |xs| >= 1
  {
    if |xs| == 1 then xs[0] else xs[0] + "-" + JoinDash(xs[1..])
  }

  /** Splitting at the dashes loses nothing: the pieces hold no dash and joining them
      with dashes gives the string back. */
  lemma {:induction false} PiecesJoin(s: string)
    ensures JoinDash(Pieces(s)) == s
    ensures forall k :: 0 <= k < |Pieces(s)| ==> '-' !in Pieces(s)[k]
  {
    if |s| > 0 {
      PiecesJoin(s[1..]);
      var rest := Pieces(s[1..]);
      if s[0] == '-' {
        assert ([""] + rest)[1..] == rest;
      } else {
        var r := [[s[0]] + rest[0]] + rest[1..];
        if |rest| == 1 {
          assert r == [[s[0]] + rest[0]];
        } else {
          assert r[1..] == rest[1..];
          assert JoinDash(rest) == rest[0] + "-" + JoinDash(rest[1..]);
        }
        assert s == [s[0]] + s[1..];
        forall k | 0 <= k < |r| ensures '-' !in r[k] {
          if k > 0 { assert r[k] == rest[k]; }
        }
      }
    }
  }

  function DropTrailingEmpty(xs: seq<string>): seq<string> {
    if |xs| > 0 && xs[|xs| - 1] == "" then DropTrailingEmpty(xs[..|xs| - 1]) else xs
  }

  /** String.split("-"): the pieces between dashes with the trailing empty ones
      removed; a string with no dash, the empty string included, is its own only piece. */
  function SplitDash(s: string): seq<string> {
    if '-' !in s then [s] else DropTrailingEmpty(Pieces(s))
  }

  lemma {:induction false} PiecesNoDash(s: string)
    requires '-' !in s
    ensures Pieces(s) == [s]
  {
    if |s| > 0 {
      assert '-' !in s[1..] by {
        forall k | 0 <= k < |s[1..]| ensures s[1..][k] != '-' { assert s[1..][k] == s[k + 1]; }
      }
      PiecesNoDash(s[1..]);
      assert [s[0]] + s[1..] == s;
    }
  }

  /** One character, a dash, and a non-empty dash-free tail split into exactly those two parts. */
  lemma SplitLetterDash(c: char, tail: string)
    requires c != '-' && '-' !in tail && |tail| > 0
    ensures SplitDash([c] + "-" + tail) == [[c], tail]
  {
    var s := [c] + "-" + tail;
    assert s[1] == '-';
    assert s[1..] == "-" + tail;
    assert s[1..][1..] == tail;
    PiecesNoDash(tail);
    assert Pieces(s[1..]) == ["", tail];
    assert s[0] == c && [c] + "" == [c];
    assert Pieces(s) == [[c] + ""] + [tail];
  }

  // The accepted shapes.

  /** The input matches `[a-z]-\d[0-9]?` or `[A-Z]-\d[0-9]?`. */
  predicate AttackPattern(s: string) {
    (|s| == 3 || |s| == 4) && (IsLowerLetter(s[0]) || IsUpperLetter(s[0])) && s[1] == '-' && DigitsOnly(s[2..])
  }

  /** The input matches `[a-z]\d[0-9]?` or `[A-Z]\d[0-9]?`: a coordinate without its dash. */
  predicate NoDashPattern(s: string) {
    (|s| == 2 || |s| == 3) && (IsLowerLetter(s[0]) || IsUpperLetter(s[0])) && DigitsOnly(s[1..])
  }

  /** The column a first piece names: its first byte minus 97. */
  function ColumnOf(first: string): int
    requires |first| >= 1
  {
    AsciiByte(first[0]) - 97
  }

  /** The row a second piece of digits names: Integer.parseInt minus one. */
  function RowOf(second: string): int
    requires AllDigits(second)
  {
    DigitsValue(second) - 1
  }

  /** The column a letter of either case names once lowercased: 'a'/'A' is 0, 'z'/'Z' is 25. */
  function LetterIndex(ch: char): int {
    LowerChar(ch) as int - 'a' as int
  }

  /** A coordinate of either case, lowercased, splits into its letter and its digits;
      the letter's column is its alphabet index and the number's row is the number minus one. */
  lemma LoweredAttackSplits(s: string)
    requires AttackPattern(s)
    ensures AttackPattern(ToLower(s)) && ToLower(s)[2..] == s[2..]
    ensures SplitDash(ToLower(s)) == [[LowerChar(s[0])], s[2..]]
    ensures ColumnOf([LowerChar(s[0])]) == LetterIndex(s[0]) && 0 <= LetterIndex(s[0]) < 26
    ensures ShortNumber(s[2..]) && RowOf(s[2..]) == DigitsValue(s[2..]) - 1
  {
    var low := ToLower(s);
    assert forall k :: 2 <= k < |s| ==> IsDigit(s[k]) by {
      forall k | 2 <= k < |s| ensures IsDigit(s[k]) { assert s[2..][k - 2] == s[k]; }
    }
    assert low[2..] == s[2..];
    assert '-' !in s[2..];
    assert low == [LowerChar(s[0])] + "-" + s[2..];
    SplitLetterDash(LowerChar(s[0]), s[2..]);
  }

  /** The text of a decimal number between 1 and 99, without leading zeros. */
  function NumberText(n: int): string
    requires 1 <= n <= 99
  {
    if n < 10 then [('0' as int + n) as char]
    else [('0' as int + n / 10) as char, ('0' as int + n % 10) as char]
  }

  /** The coordinate text naming (row, column): the column's letter, a dash, and row + 1. */
  function CoordinateString(row: int, column: int): string
    requires 0 <= row < 99 && 0 <= column < 26
  {
    [('a' as int + column) as char] + "-" + NumberText(row + 1)
  }

  /** Decoding the text of a cell gives the cell back. */
  lemma CoordinateRoundTrip(row: int, column: int)
    requires 0 <= row < 99 && 0 <= column < 26
    ensures AttackPattern(CoordinateString(row, column))
    ensures ToLower(CoordinateString(row, column)) == CoordinateString(row, column)
    ensures LetterIndex(CoordinateString(row, column)[0]) == column
    ensures DigitsValue(CoordinateString(row, column)[2..]) == row + 1
  {
    var s := CoordinateString(row, column);
    var digits := NumberText(row + 1);
    assert s[2..] == digits;
    ShortNumberRange(digits);
    assert ToLower(s) == s;
  }
}
