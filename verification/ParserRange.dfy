/**
 Which trees the parser can produce. Every tree read from policy text is `Printable`, and
 with the round trip of `PolicyPrinter` that makes `Printable` the exact range of the parser.
 */
module ParserRange {
  import opened PolicyAst
  import opened AsciiText
  import opened Lexing
  import opened Grammar
  import opened Reading
  import opened Atoms
  import opened PolicyPrinter

  lemma {:induction false} OrRange(s: string)
    requires ParseOr(StoredText, s).Ok?
    ensures Printable(ParseOr(StoredText, s).value, false)
    decreases |s|, 7
  {
    hide Printable, ParseAnd, OrLoop;
    AndRange(s);
    OrLoopRange(ParseAnd(StoredText, s).value, ParseAnd(StoredText, s).rest);
  }

  lemma {:induction false} OrLoopRange(left: Expr, s: string)
    requires Printable(left, false) && OrLoop(StoredText, left, s).Ok?
    ensures Printable(OrLoop(StoredText, left, s).value, false)
    decreases |s|, 8
  {
    hide ParseAnd;
    var t := SkipSpaces(s);
    if AtKeyword(t, "OR") {
      AndRange(t[2..]);
      var right := ParseAnd(StoredText, t[2..]);
      OrLoopRange(Binary(left, Or, right.value), right.rest);
    }
  }

  lemma {:induction false} AndRange(s: string)
    requires ParseAnd(StoredText, s).Ok?
    ensures Printable(ParseAnd(StoredText, s).value, false)
    decreases |s|, 6
  {
    hide Printable, ParseNot, AndLoop;
    NotRange(s);
    AndLoopRange(ParseNot(StoredText, s).value, ParseNot(StoredText, s).rest);
  }

  lemma {:induction false} AndLoopRange(left: Expr, s: string)
    requires Printable(left, false) && AndLoop(StoredText, left, s).Ok?
    ensures Printable(AndLoop(StoredText, left, s).value, false)
    decreases |s|, 8
  {
    hide ParseNot;
    var t := SkipSpaces(s);
    if AtKeyword(t, "AND") {
      NotRange(t[3..]);
      var right := ParseNot(StoredText, t[3..]);
      AndLoopRange(Binary(left, And, right.value), right.rest);
    }
  }

  lemma {:induction false} NotRange(s: string)
    requires ParseNot(StoredText, s).Ok?
    ensures Printable(ParseNot(StoredText, s).value, false)
    decreases |s|, 5
  {
    hide ParsePrimary, AfterPrimary;
    var t := SkipSpaces(s);
    if AtKeyword(t, "NOT") {
      NotRange(t[3..]);
    } else {
      SkipTwice(s);
      PrimaryRange(t);
      assert ParseNot(StoredText, s) == ParseComparison(StoredText, t);
      AfterRange(ParsePrimary(StoredText, t).value, ParsePrimary(StoredText, t).rest);
    }
  }

  lemma {:induction false} AfterRange(left: Expr, s: string)
    requires Printable(left, false) && AfterPrimary(StoredText, left, s).Ok?
    ensures Printable(AfterPrimary(StoredText, left, s).value, false)
    decreases |s|, 5
  {
    hide ParsePrimary, ParseList, AtKeyword, ComparisonAt;
    var t := SkipSpaces(s);
    KeywordLength(t, "IS");
    if AtKeyword(t, "IS") {
      AfterIsRange(left, t[2..]);
    } else {
      KeywordLength(t, "NOT");
      var negated := AtKeyword(t, "NOT");
      var u := if negated then SkipSpaces(t[3..]) else t;
      KeywordLength(u, "IN");
      if AtKeyword(u, "IN") {
        ListRange(u[2..]);
      } else if !negated {
        SkipTwice(s);
        var c := ComparisonAt(u);
        if c.Present? {
          PrimaryRange(u[c.width..]);
        }
      }
    }
  }

  lemma AfterIsRange(left: Expr, s: string)
    requires AfterIs(left, s).Ok? && Printable(left, false)
    ensures Printable(AfterIs(left, s).value, false)
  {
  }

  lemma KeywordLength(s: string, keyword: string)
    ensures AtKeyword(s, keyword) ==> |keyword| <= |s|
  {
  }

  /** At a primary the word NOT is an ordinary name. */
  lemma {:induction false} PrimaryRange(s: string)
    requires ParsePrimary(StoredText, s).Ok?
    ensures Printable(ParsePrimary(StoredText, s).value, true)
    ensures NotNegated(s) ==> Printable(ParsePrimary(StoredText, s).value, false)
    decreases |s|, 3
  {
    hide ParseOr, ParseNumber, ParseWord, ScanString, AtKeyword;
    var t := SkipSpaces(s);
    SkipTwice(s);
    if StartsWith(t, '(') {
      OrRange(t[1..]);
      FlagIrrelevant(ParseOr(StoredText, t[1..]).value);
    } else if StartsWith(t, '-') {
      PrimaryRange(t[1..]);
    } else if StartsWith(t, '\'') {
      ScanRange("", t[1..]);
    } else if t != "" && IsDigit(t[0]) {
      NumberRange(t);
    } else {
      WordRange(t);
    }
  }

  /** Being printable where NOT is looked for is the stronger demand. */
  lemma FlagIrrelevant(e: Expr)
    requires Printable(e, false)
    ensures Printable(e, true)
  {
  }

  lemma {:induction false} ScanRange(value: string, s: string)
    requires ScanString(value, s).Ok?
    ensures ScanString(value, s).value.Lit? && ScanString(value, s).value.lit.String?
    decreases |s|
  {
    if s[0] != '\'' {
      ScanRange(value + [s[0]], s[1..]);
    } else if StartsWith(s[1..], '\'') {
      ScanRange(value + "'", s[2..]);
    }
  }

  lemma NumberRange(s: string)
    requires s != "" && IsDigit(s[0]) && ParseNumber(s).Ok?
    ensures Printable(ParseNumber(s).value, false)
  {
    hide NumeralValue;
    var text := s[..NumberSpan(s, false)];
    NumberSpanPrefix(s, false);
    assert text[0] == s[0];
  }

  lemma {:induction false} WordRange(s: string)
    requires ParseWord(StoredText, s).Ok? && SkipSpaces(s) == s
    ensures Printable(ParseWord(StoredText, s).value, true)
    ensures !AtKeyword(s, "NOT") ==> Printable(ParseWord(StoredText, s).value, false)
    decreases |s|, 2
  {
    hide ParseIdentOrCall, AtKeyword;
    if !AtKeyword(s, "TRUE") && !AtKeyword(s, "FALSE") && !AtKeyword(s, "NULL") {
      NameRange(s);
    }
  }

  lemma IdentRange(s: string)
    requires ParseIdent(s).Ok?
    ensures IsIdent(ParseIdent(s).value) && EndsIdent(ParseIdent(s).rest)
    ensures SkipSpaces(s) == ParseIdent(s).value + ParseIdent(s).rest
  {
    hide IdentSpan;
    IdentSpanMaximal(SkipSpaces(s));
    IdentSpanStep(SkipSpaces(s), 0);
  }

  lemma {:induction false} NameRange(s: string)
    requires ParseIdentOrCall(StoredText, s).Ok? && SkipSpaces(s) == s
    requires !AtKeyword(s, "TRUE") && !AtKeyword(s, "FALSE") && !AtKeyword(s, "NULL")
    ensures Printable(ParseIdentOrCall(StoredText, s).value, true)
    ensures !AtKeyword(s, "NOT") ==> Printable(ParseIdentOrCall(StoredText, s).value, false)
    decreases |s|, 1
  {
    hide ParseIdent, ParseArgs, ParseQualified, AtKeyword, IsIdent, EqIgnoreCase;
    IdentRange(s);
    var name, rest := ParseIdent(s).value, ParseIdent(s).rest;
    WordsAreIdents();
    KeywordAtIdent(name, rest, "TRUE");
    KeywordAtIdent(name, rest, "FALSE");
    KeywordAtIdent(name, rest, "NULL");
    KeywordAtIdent(name, rest, "NOT");
    var t := SkipSpaces(rest);
    if StartsWith(t, '.') {
      QualifiedRange(name, t[1..]);
    } else if StartsWith(t, '(') {
      ArgsRange(t[1..]);
    }
  }

  lemma {:induction false} QualifiedRange(first: string, s: string)
    requires IsName(first, true) && ParseQualified(StoredText, first, s).Ok?
    ensures Printable(ParseQualified(StoredText, first, s).value, true)
    ensures !IsNot(first) ==> Printable(ParseQualified(StoredText, first, s).value, false)
    decreases |s|, 1
  {
    hide ParseIdent, ParseArgs, IsIdent, IsLiteralWord, IsNot, IsAuth, IsDomain;
    IdentRange(s);
    var t := SkipSpaces(ParseIdent(s).rest);
    if IsAuth(first) || (IsDomain(first) && StartsWith(t, '(')) {
      ArgsRange(t[1..]);
    }
  }

  lemma {:induction false} ArgsRange(s: string)
    requires ParseArgs(StoredText, s).Ok?
    ensures forall i | 0 <= i < |ParseArgs(StoredText, s).value| :: Printable(ParseArgs(StoredText, s).value[i], false)
    decreases |s|, 9
  {
    hide ArgsLoop;
    var t := SkipSpaces(s);
    if !StartsWith(t, ')') {
      ArgsLoopRange([], t);
    }
  }

  lemma {:induction false} ArgsLoopRange(args: seq<Expr>, s: string)
    requires ArgsLoop(StoredText, args, s).Ok?
    requires forall i | 0 <= i < |args| :: Printable(args[i], false)
    ensures var r := ArgsLoop(StoredText, args, s).value;
            forall i | 0 <= i < |r| :: Printable(r[i], false)
    decreases |s|, 8
  {
    hide ParseOr, Printable;
    OrRange(s);
    var arg := ParseOr(StoredText, s);
    var t := SkipSpaces(arg.rest);
    if StartsWith(t, ',') {
      ArgsLoopRange(args + [arg.value], t[1..]);
    }
  }

  lemma {:induction false} ListRange(s: string)
    requires ParseList(StoredText, s).Ok?
    ensures forall i | 0 <= i < |ParseList(StoredText, s).value| :: Printable(ParseList(StoredText, s).value[i], true)
    decreases |s|, 9
  {
    hide ListLoop;
    var t := SkipSpaces(s);
    var u := SkipSpaces(t[1..]);
    if !StartsWith(u, ')') {
      ListLoopRange([], u);
    }
  }

  lemma {:induction false} ListLoopRange(items: seq<Expr>, s: string)
    requires ListLoop(StoredText, items, s).Ok?
    requires forall i | 0 <= i < |items| :: Printable(items[i], true)
    ensures var r := ListLoop(StoredText, items, s).value;
            forall i | 0 <= i < |r| :: Printable(r[i], true)
    decreases |s|, 8
  {
    hide ParsePrimary, Printable;
    PrimaryRange(s);
    var item := ParsePrimary(StoredText, s);
    var t := SkipSpaces(item.rest);
    if StartsWith(t, ',') {
      ListLoopRange(items + [item.value], t[1..]);
    }
  }

  /** Printing what was parsed and parsing it again changes nothing. */
  lemma ParsePrintParse(s: string, e: Expr)
    requires Parse(StoredText, s) == Success(e)
    ensures Printable(e, false)
    ensures Parse(StoredText, Print(e, OrLevel)) == Success(e)
  {
    OrRange(s);
    RoundTrip(StoredText, e);
  }

  /** A tree is the meaning of some policy text exactly when it is printable. */
  lemma ParserRangeIsPrintable(e: Expr)
    ensures Printable(e, false) <==> exists s :: Parse(StoredText, s) == Success(e)
  {
    if Printable(e, false) {
      RoundTrip(StoredText, e);
    }
    forall s | Parse(StoredText, s) == Success(e)
      ensures Printable(e, false)
    {
      ParsePrintParse(s, e);
    }
  }
}
