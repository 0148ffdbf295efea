/** Strings: hex digits and lower case. */
module Text {
  predicate IsHexDigit(c: char) {
    '0' <= c <= '9' || 'a' <= c <= 'f' || 'A' <= c <= 'F'
  }

  /** A hex string: at least one byte, an even number of digits. */
  predicate IsHex(s: string) {
    |s| >= 2 && |s| % 2 == 0 && forall i :: 0 <= i < |s| ==> IsHexDigit(s[i])
  }

  function LowerChar(c: char): char {
    if 'A' <= c <= 'Z' then (c as int + 32) as char else c
  }

  function Lower(s: string): (r: string)
    ensures |r| == |s|
    ensures forall i :: 0 <= i < |s| ==> r[i] == LowerChar(s[i])
  {
    seq(|s|, i requires 0 <= i < |s| => LowerChar(s[i]))
  }

  function UpperChar(c: char): char {
    if 'a' <= c <= 'z' then (c as int - 32) as char else c
  }

  function Upper(s: string): (r: string)
    ensures |r| == |s|
    ensures forall i :: 0 <= i < |s| ==> r[i] == UpperChar(s[i])
  {
    seq(|s|, i requires 0 <= i < |s| => UpperChar(s[i]))
  }

  /** What a hex digit stands for. */
  function HexValue(c: char): (v: nat)
    requires IsHexDigit(c)
    ensures v < 16
  {
    if c <= '9' then c as int - '0' as int
    else if c >= 'a' then c as int - 'a' as int + 10
    else c as int - 'A' as int + 10
  }

  predicate IsLowerHexDigit(c: char) {
    '0' <= c <= '9' || 'a' <= c <= 'f'
  }

  predicate IsUpperHexDigit(c: char) {
    '0' <= c <= '9' || 'A' <= c <= 'F'
  }

  /** Digits of one case that stand for the same are the same. */
  lemma OneSpelling(c: char, d: char)
    requires (IsLowerHexDigit(c) && IsLowerHexDigit(d)) || (IsUpperHexDigit(c) && IsUpperHexDigit(d))
    requires HexValue(c) == HexValue(d)
    ensures c == d
  {
  }

  /** Lower and upper case of hex digits: the digits of that case that stand for the same. */
  lemma CasesOfHex(s: string)
    requires forall i :: 0 <= i < |s| ==> IsHexDigit(s[i])
    ensures forall i :: 0 <= i < |s| ==> IsLowerHexDigit(Lower(s)[i]) && HexValue(Lower(s)[i]) == HexValue(s[i])
    ensures forall i :: 0 <= i < |s| ==> IsUpperHexDigit(Upper(s)[i]) && HexValue(Upper(s)[i]) == HexValue(s[i])
  {
  }
}
