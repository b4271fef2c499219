/** Character and digit-string helpers shared by the input validators
    (UtilityTools.isNumeric, Integer.parseInt on short digit strings, and the
    `replaceAll("[^0-9]?", "")` digit extraction). */
module UtilityTools {

  predicate IsDigit(ch: char) {
    '0' <= ch <= '9'
  }

  /** Every character of `s` is a decimal digit. */
  ghost predicate AllDigits(s: string) {
    forall i :: 0 <= i < |s| ==> IsDigit(s[i])
  }

  /** The character loop of isNumeric: true iff no character lies outside '0'..'9'. */
  function DigitsOnly(s: string): (ok: bool)
    ensures ok <==> AllDigits(s)
  {
    if |s| == 0 then true
    else IsDigit(s[0]) && DigitsOnly(s[1..])
  }

  /** UtilityTools.isNumeric: the empty string and the strings "." and ".." are
      rejected up front; otherwise every character must be a decimal digit. */
  function IsNumeric(s: string): (numeric: bool)
    ensures numeric <==> |s| > 0 && AllDigits(s)
  {
    if s == "" || s == "." || s == ".." then
      assert s != "" ==> !IsDigit(s[0]);
      false
    else DigitsOnly(s)
  }

  function DigitValue(ch: char): nat
    requires IsDigit(ch)
  {
    ch as int - '0' as int
  }

  /** Integer.parseInt on a string of decimal digits (leading zeros allowed). */
  function DigitsValue(s: string): nat
    requires AllDigits(s)
  {
    if |s| == 0 then 0
    else 10 * DigitsValue(s[..|s| - 1]) + DigitValue(s[|s| - 1])
  }

  /** A one- or two-digit decimal number, as accepted by the regular expression `\d[0-9]?`. */
  ghost predicate ShortNumber(s: string) {
    1 <= |s| <= 2 && AllDigits(s)
  }

  lemma {:induction false} ShortNumberRange(s: string)
    requires ShortNumber(s)
    ensures 0 <= DigitsValue(s) <= 99
    ensures |s| == 1 ==> DigitsValue(s) == DigitValue(s[0])
    ensures |s| == 2 ==> DigitsValue(s) == 10 * DigitValue(s[0]) + DigitValue(s[1])
  {
    if |s| == 2 {
      assert s[..1] == [s[0]];
      assert DigitsValue(s[..1]) == 10 * DigitsValue(s[..0]) + DigitValue(s[0]);
    } else {
      assert DigitsValue(s[..0]) == 0;
    }
  }

  /** `s.replaceAll("[^0-9]?", "")`: every non-digit character is removed. */
  function KeepDigits(s: string): (r: string)
    ensures AllDigits(r)
    ensures |r| <= |s|
  {
    if |s| == 0 then ""
    else if IsDigit(s[0]) then [s[0]] + KeepDigits(s[1..])
    else KeepDigits(s[1..])
  }

  /** Removing the non-digits of `prefix + digits` leaves exactly `digits` when the prefix holds no digit. */
  lemma {:induction false} KeepDigitsOfSuffix(prefix: string, digits: string)
    requires forall i :: 0 <= i < |prefix| ==> !IsDigit(prefix[i])
    requires AllDigits(digits)
    ensures KeepDigits(prefix + digits) == digits
    decreases |prefix| + |digits|
  {
    if |prefix| > 0 {
      assert (prefix + digits)[1..] == prefix[1..] + digits;
      KeepDigitsOfSuffix(prefix[1..], digits);
    } else if |digits| > 0 {
      assert prefix + digits == digits;
      assert digits[1..] == "" + digits[1..];
      KeepDigitsOfSuffix("", digits[1..]);
    }
  }
}
