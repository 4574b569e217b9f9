/** Characters, keywords, identifiers, numerals and quoted strings of ASCII text. */
module AsciiText {

  predicate IsSpace(c: char) {
    c == ' ' || c == '\t' || c == '\n' || c == '\r' || c == '\U{000B}' || c == '\U{000C}'
  }

  predicate IsDigit(c: char) {
    '0' <= c <= '9'
  }

  predicate IsIdentStart(c: char) {
    'a' <= c <= 'z' || 'A' <= c <= 'Z' || c == '_'
  }

  predicate IsIdentChar(c: char) {
    IsIdentStart(c) || IsDigit(c)
  }

  function Lower(c: char): char {
    if 'A' <= c <= 'Z' then (c as int + 32) as char else c
  }

  predicate EqIgnoreCase(a: string, b: string) {
    |a| == |b| && forall i | 0 <= i < |b| :: Lower(a[i]) == Lower(b[i])
  }

  function SkipSpaces(s: string): (r: string)
    ensures |r| <= |s|
    ensures r == "" || !IsSpace(r[0])
  {
    if s != "" && IsSpace(s[0]) then SkipSpaces(s[1..]) else s
  }

  predicate StartsWith(s: string, c: char) {
    s != "" && s[0] == c
  }

  predicate StartsWithText(s: string, prefix: string) {
    |prefix| <= |s| && forall i | 0 <= i < |prefix| :: s[i] == prefix[i]
  }

  /** A keyword, in any case, that is not the beginning of a longer identifier. */
  predicate AtKeyword(s: string, keyword: string) {
    && |keyword| <= |s|
    && (forall i | 0 <= i < |keyword| :: Lower(s[i]) == Lower(keyword[i]))
    && (|s| > |keyword| ==> !IsIdentChar(s[|keyword|]))
  }

  predicate IsIdent(name: string) {
    && name != ""
    && IsIdentStart(name[0])
    && forall i | 0 <= i < |name| :: IsIdentChar(name[i])
  }

  /** The number of identifier characters at the front of the text. */
  function IdentSpan(s: string): (n: nat)
    ensures n <= |s|
    ensures s != "" && IsIdentChar(s[0]) ==> n > 0
  {
    if s != "" && IsIdentChar(s[0]) then 1 + IdentSpan(s[1..]) else 0
  }

  lemma IdentSpanStep(s: string, k: nat)
    requires k < |s|
    ensures IsIdentChar(s[k]) ==> IdentSpan(s[k..]) == 1 + IdentSpan(s[k + 1..])
    ensures !IsIdentChar(s[k]) ==> IdentSpan(s[k..]) == 0
    ensures s[k..][1..] == s[k + 1..] && s[k..][0] == s[k]
  {
    assert s[k..][1..] == s[k + 1..];
  }

  predicate AllDigits(s: string) {
    forall i | 0 <= i < |s| :: IsDigit(s[i])
  }

  function DigitValue(c: char): (v: nat)
    requires IsDigit(c)
    ensures v < 10
  {
    c as int - '0' as int
  }

  function DigitChar(v: nat): (c: char)
    requires v < 10
    ensures IsDigit(c) && DigitValue(c) == v
  {
    ('0' as int + v) as char
  }

  function NumeralValue(s: string): nat
    requires AllDigits(s)
  {
    if s == "" then 0 else 10 * NumeralValue(s[..|s| - 1]) + DigitValue(s[|s| - 1])
  }

  function Numeral(n: nat): (s: string)
    ensures s != "" && AllDigits(s)
    ensures NumeralValue(s) == n
  {
    if n < 10 then [DigitChar(n)] else Numeral(n / 10) + [DigitChar(n % 10)]
  }

  /** The length of the number at the front: digits with at most one dot among them. */
  function NumberSpan(s: string, hasDot: bool): (n: nat)
    ensures n <= |s|
    ensures s != "" && IsDigit(s[0]) ==> n > 0
    ensures hasDot ==> AllDigits(s[..n])
    ensures forall i | 0 <= i < n :: IsDigit(s[i]) || s[i] == '.'
  {
    if s != "" && IsDigit(s[0]) then 1 + NumberSpan(s[1..], hasDot)
    else if s != "" && s[0] == '.' && !hasDot then 1 + NumberSpan(s[1..], true)
    else 0
  }

  lemma NumberSpanStep(s: string, k: nat, hasDot: bool)
    requires k < |s|
    ensures IsDigit(s[k]) ==> NumberSpan(s[k..], hasDot) == 1 + NumberSpan(s[k + 1..], hasDot)
    ensures s[k] == '.' && !hasDot ==> NumberSpan(s[k..], false) == 1 + NumberSpan(s[k + 1..], true)
    ensures !IsDigit(s[k]) && (s[k] != '.' || hasDot) ==> NumberSpan(s[k..], hasDot) == 0
  {
    assert s[k..][1..] == s[k + 1..];
  }

  function Escape(s: string): string {
    if s == "" then "" else (if s[0] == '\'' then "''" else [s[0]]) + Escape(s[1..])
  }

  /** Concatenation with a separator, peeled from the right as the grammar's loops do. */
  function Join(parts: seq<string>, separator: string): string {
    if |parts| == 0 then ""
    else if |parts| == 1 then parts[0]
    else Join(parts[..|parts| - 1], separator) + separator + parts[|parts| - 1]
  }
}
