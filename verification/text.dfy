/** Character and string helpers shared by the screens: the pieces of JavaScript's
    string and regular-expression semantics the screens rely on. */
module Text {
  import opened Optional

  /** `\d` in a JavaScript regular expression, and the characters `parseInt(c, 10)` accepts. */
  predicate IsDigit(c: char) {
    '0' <= c <= '9'
  }

  function DigitValue(c: char): (d: nat)
    requires IsDigit(c)
    ensures d < 10
  {
    (c as int) - ('0' as int)
  }

  function DigitChar(d: nat): (c: char)
    requires d < 10
    ensures IsDigit(c) && DigitValue(c) == d
  {
    ((d + ('0' as int)) as char)
  }

  /** `\s` in a JavaScript regular expression: the ECMAScript WhiteSpace and LineTerminator code points. */
  predicate IsWhitespace(c: char) {
    var n := c as int;
    || n == 0x09 || n == 0x0A || n == 0x0B || n == 0x0C || n == 0x0D || n == 0x20
    || n == 0xA0 || n == 0x1680 || (0x2000 <= n <= 0x200A)
    || n == 0x2028 || n == 0x2029 || n == 0x202F || n == 0x205F || n == 0x3000 || n == 0xFEFF
  }

  /** `toUpperCase` restricted to ASCII: lower-case letters map to upper case, everything else is kept. */
  function ToUpper(c: char): (u: char)
    ensures 'a' <= c <= 'z' ==> 'A' <= u <= 'Z' && (u as int) == (c as int) - 32
    ensures !('a' <= c <= 'z') ==> u == c
  {
    if 'a' <= c <= 'z' then ((c as int) - 32) as char else c
  }

  /** Every character of `s` is a decimal digit, checked left to right. */
  predicate AllDigits(s: string) {
    |s| == 0 || (IsDigit(s[0]) && AllDigits(s[1..]))
  }

  lemma {:induction false} AllDigitsMeansEveryDigit(s: string)
    ensures AllDigits(s) <==> forall i :: 0 <= i < |s| ==> IsDigit(s[i])
    decreases |s|
  {
    if |s| > 0 {
      AllDigitsMeansEveryDigit(s[1..]);
      assert forall i :: 1 <= i < |s| ==> s[i] == s[1..][i - 1];
    }
  }

  /** The index of the first occurrence of `c` in `s` (`indexOf`), or `None`. */
  function IndexOf(s: string, c: char): (r: Option<nat>)
    ensures r.Some? ==> r.value < |s| && s[r.value] == c && c !in s[..r.value]
    ensures r.None? ==> c !in s
    decreases |s|
  {
    if |s| == 0 then None
    else if s[0] == c then Some(0)
    else
      match IndexOf(s[1..], c)
      case None => None
      case Some(i) => Some(i + 1)
  }

  /** The string `prefix` begins `s`. */
  predicate StartsWith(s: string, prefix: string) {
    |prefix| <= |s| && s[..|prefix|] == prefix
  }
}
