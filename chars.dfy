/**
 * Character classes and case mapping of .NET's System.Char, on the ASCII range.
 * Letters, digits and white space outside ASCII are not classified, and case
 * mapping leaves every non-ASCII character unchanged.
 */
module Chars {

  predicate IsLetter(c: char) { 'a' <= c <= 'z' || 'A' <= c <= 'Z' }

  predicate IsDigit(c: char) { '0' <= c <= '9' }

  /** char.IsLetterOrDigit */
  predicate IsLetterOrDigit(c: char) { IsLetter(c) || IsDigit(c) }

  /** char.IsNumber: decimal digits (other numeric categories are not modelled). */
  predicate IsNumber(c: char) { IsDigit(c) }

  /** char.IsWhiteSpace: space and the control characters tab through carriage return. */
  predicate IsWhiteSpace(c: char) { c == ' ' || '\t' <= c <= '\r' }

  /** char.ToUpper */
  function ToUpper(c: char): (r: char)
    ensures IsLetter(c) <==> IsLetter(r)
    ensures IsDigit(c) <==> IsDigit(r)
    ensures !('a' <= r <= 'z')
  {
    if 'a' <= c <= 'z' then (c as int - 32) as char else c
  }

  /** char.ToLower */
  function ToLower(c: char): (r: char)
    ensures IsLetter(c) <==> IsLetter(r)
    ensures !('A' <= r <= 'Z')
  {
    if 'A' <= c <= 'Z' then (c as int + 32) as char else c
  }

  /** string.ToUpper */
  function Upper(s: string): (r: string)
    ensures |r| == |s|
    ensures forall i :: 0 <= i < |s| ==> r[i] == ToUpper(s[i])
  {
    seq(|s|, i requires 0 <= i < |s| => ToUpper(s[i]))
  }

  /** string.ToLower */
  function Lower(s: string): (r: string)
    ensures |r| == |s|
    ensures forall i :: 0 <= i < |s| ==> r[i] == ToLower(s[i])
  {
    seq(|s|, i requires 0 <= i < |s| => ToLower(s[i]))
  }

  /** The value of a hexadecimal digit, as int.TryParse with AllowHexSpecifier reads it. */
  function HexValue(c: char): (r: int)
    ensures -1 <= r < 16
  {
    if '0' <= c <= '9' then c as int - '0' as int
    else if 'a' <= c <= 'f' then c as int - 'a' as int + 10
    else if 'A' <= c <= 'F' then c as int - 'A' as int + 10
    else -1
  }

  predicate IsHexDigit(c: char) { HexValue(c) >= 0 }

  /**
   * A C# char (UTF-16 code unit) as a Dafny char. Every surrogate code unit,
   * including either half of a valid pair, becomes U+FFFD.
   */
  function CodeUnit(v: nat): char
    requires v < 0x1_0000
  {
    if 0xD800 <= v < 0xE000 then '�' else v as char
  }

  lemma UpperIdempotent(s: string)
    ensures Upper(Upper(s)) == Upper(s)
  {
  }

  lemma UpperConcat(a: string, b: string)
    ensures Upper(a + b) == Upper(a) + Upper(b)
  {
    assert forall i :: 0 <= i < |a + b| ==> Upper(a + b)[i] == (Upper(a) + Upper(b))[i];
  }
}
