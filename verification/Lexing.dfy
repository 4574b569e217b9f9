/** What the lexical layer does at the seam between a token and the text after it. */
module Lexing {
  import opened AsciiText

  predicate EndsIdent(rest: string) {
    rest == "" || !IsIdentChar(rest[0])
  }

  lemma SkipSpace(s: string)
    ensures SkipSpaces(" " + s) == SkipSpaces(s)
  {
    assert (" " + s)[1..] == s;
  }

  lemma {:induction false} SkipInFront(p: string, rest: string)
    ensures SkipSpaces(p) != "" ==> SkipSpaces(p + rest) == SkipSpaces(p) + rest
    ensures SkipSpaces(p) == "" ==> SkipSpaces(p + rest) == SkipSpaces(rest)
  {
    if p == "" {
      assert p + rest == rest;
    } else if IsSpace(p[0]) {
      assert (p + rest)[1..] == p[1..] + rest;
      SkipInFront(p[1..], rest);
    }
  }

  lemma {:induction false} IdentSpanOf(name: string, rest: string)
    requires forall i | 0 <= i < |name| :: IsIdentChar(name[i])
    requires EndsIdent(rest)
    ensures IdentSpan(name + rest) == |name|
  {
    if name == "" {
      assert name + rest == rest;
    } else {
      assert (name + rest)[1..] == name[1..] + rest;
      IdentSpanOf(name[1..], rest);
    }
  }

  lemma {:induction false} IdentSpanMaximal(s: string)
    ensures forall i | 0 <= i < IdentSpan(s) :: IsIdentChar(s[i])
    ensures EndsIdent(s[IdentSpan(s)..])
  {
    if s != "" && IsIdentChar(s[0]) {
      IdentSpanMaximal(s[1..]);
      var n := IdentSpan(s[1..]);
      forall i | 0 <= i < 1 + n
        ensures IsIdentChar(s[i])
      {
        if i > 0 { assert s[i] == s[1..][i - 1]; }
      }
      assert s[1..][n..] == s[1 + n..];
    }
  }

  /** In front of an identifier a keyword is seen exactly when the identifier is that keyword. */
  lemma KeywordAtIdent(name: string, rest: string, keyword: string)
    requires IsIdent(name) && IsIdent(keyword) && EndsIdent(rest)
    ensures AtKeyword(name + rest, keyword) <==> EqIgnoreCase(name, keyword)
  {
    var s := name + rest;
    assert forall i | 0 <= i < |name| :: s[i] == name[i];
    if |keyword| < |name| {
      assert s[|keyword|] == name[|keyword|];
    } else if |name| < |keyword| {
      if |name| < |s| {
        assert s[|name|] == rest[0];
        assert IsIdentChar(keyword[|name|]);
      }
    } else if rest != "" {
      assert s[|keyword|] == rest[0];
    }
  }

  /** A keyword is seen where it is written, and space before it is skipped. */
  lemma KeywordHere(keyword: string, rest: string)
    requires IsIdent(keyword) && EndsIdent(rest)
    ensures AtKeyword(keyword + rest, keyword)
    ensures (keyword + rest)[|keyword|..] == rest
    ensures SkipSpaces(keyword + rest) == keyword + rest
    ensures SkipSpaces(" " + keyword + rest) == keyword + rest
  {
    assert " " + keyword + rest == " " + (keyword + rest);
    SkipSpace(keyword + rest);
  }

  /** Two words that differ in some letter are not mistaken for each other. */
  lemma KeywordElsewhere(s: string, keyword: string, i: nat)
    requires i < |s| && i < |keyword| && Lower(s[i]) != Lower(keyword[i])
    ensures !AtKeyword(s, keyword)
  {
  }

  lemma {:induction false} NumberSpanOf(digits: string, rest: string, hasDot: bool)
    requires AllDigits(digits)
    requires rest == "" || (!IsDigit(rest[0]) && rest[0] != '.')
    ensures NumberSpan(digits + rest, hasDot) == |digits|
  {
    if digits == "" {
      assert digits + rest == rest;
    } else {
      assert (digits + rest)[1..] == digits[1..] + rest;
      NumberSpanOf(digits[1..], rest, hasDot);
    }
  }

  /** A decimal spelling: digits with exactly one dot, after at least one digit. */
  predicate IsDecimal(s: string) {
    s != "" && IsDigit(s[0]) && '.' in s && NumberSpan(s, false) == |s|
  }

  lemma {:induction false} DecimalSpanOf(s: string, rest: string, hasDot: bool)
    requires NumberSpan(s, hasDot) == |s|
    requires rest == "" || (!IsDigit(rest[0]) && rest[0] != '.')
    ensures NumberSpan(s + rest, hasDot) == |s|
  {
    if s == "" {
      assert s + rest == rest;
    } else {
      assert (s + rest)[1..] == s[1..] + rest;
      DecimalSpanOf(s[1..], rest, hasDot || !IsDigit(s[0]));
    }
  }

  lemma {:induction false} NumberSpanPrefix(s: string, hasDot: bool)
    ensures NumberSpan(s[..NumberSpan(s, hasDot)], hasDot) == NumberSpan(s, hasDot)
  {
    var n := NumberSpan(s, hasDot);
    if n > 0 {
      var dot := hasDot || !IsDigit(s[0]);
      NumberSpanPrefix(s[1..], dot);
      assert s[..n][1..] == s[1..][..n - 1];
    }
  }

  lemma JoinOne(parts: seq<string>, separator: string)
    requires |parts| == 1
    ensures Join(parts, separator) == parts[0]
  {
  }

  lemma JoinTail(parts: seq<string>, separator: string, rest: string)
    requires |parts| > 1
    ensures var n := |parts| - 1;
            Join(parts, separator) + rest == Join(parts[..n], separator) + (separator + (parts[n] + rest))
  {
  }

  /** A word of capitals, written with any mixture of capitals and small letters. */
  predicate AnyCase(word: string, capitals: string) {
    && |word| == |capitals|
    && forall i | 0 <= i < |word| ::
         word[i] == capitals[i] || ('A' <= capitals[i] <= 'Z' && word[i] as int == capitals[i] as int + 32)
  }

  lemma AnyCaseIff(word: string, capitals: string)
    requires forall i | 0 <= i < |capitals| :: 'A' <= capitals[i] <= 'Z'
    ensures AnyCase(word, capitals) <==> EqIgnoreCase(word, capitals)
  {
  }
}
