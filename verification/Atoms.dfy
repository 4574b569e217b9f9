/** How the grammar reads literals, names, calls and comma-separated lists. */
module Atoms {
  import opened PolicyAst
  import opened AsciiText
  import opened Builtins
  import opened Lexing
  import opened Grammar
  import opened Reading

  // Literals

  lemma {:induction false} EscapedScans(value: string, s: string, rest: string)
    requires !StartsWith(rest, '\'')
    ensures ScanString(value, Escape(s) + "'" + rest) == Ok(Lit(String(value + s)), rest)
    decreases |s|
  {
    var text := Escape(s) + "'" + rest;
    if s == "" {
      assert text == "'" + rest;
      assert value + s == value;
    } else {
      var more := Escape(s[1..]) + "'" + rest;
      EscapedScans(value + [s[0]], s[1..], rest);
      assert value + [s[0]] + s[1..] == value + s;
      if s[0] == '\'' {
        assert text == "''" + more;
        assert text[2..] == more;
      } else {
        assert text == [s[0]] + more;
      }
    }
  }

  lemma StringReads(d: Dialect, s: string, rest: string)
    requires EndsPrimary(rest)
    ensures Reads(PrimaryLevel, d, "'" + Escape(s) + "'", Lit(String(s)), rest)
    ensures NotNegated("'" + Escape(s) + "'" + rest)
  {
    hide ParseOr, ParseNumber, ParseQuoted, ParseWord, ScanString, Escape;
    var text := "'" + Escape(s) + "'" + rest;
    assert SkipSpaces(text) == text;
    assert text[1..] == Escape(s) + "'" + rest;
    EscapedScans("", s, rest);
    assert "" + s == s;
  }

  lemma IntReads(d: Dialect, n: nat, rest: string)
    requires EndsPrimary(rest) && n <= MAX_I64
    ensures Reads(PrimaryLevel, d, Numeral(n), Lit(Int(n)), rest)
    ensures NotNegated(Numeral(n) + rest)
  {
    hide ParseOr, ParseQuoted, ParseWord, ScanString, Numeral, NumeralValue, NumberSpan;
    var text := Numeral(n) + rest;
    assert text[0] == Numeral(n)[0];
    assert SkipSpaces(text) == text;
    NumberSpanOf(Numeral(n), rest, false);
    assert text[..|Numeral(n)|] == Numeral(n);
    assert text[|Numeral(n)|..] == rest;
    assert '.' !in Numeral(n);
  }

  lemma FloatReads(d: Dialect, spelling: string, rest: string)
    requires EndsPrimary(rest) && IsDecimal(spelling)
    ensures Reads(PrimaryLevel, d, spelling, Lit(Float(spelling)), rest)
    ensures NotNegated(spelling + rest)
  {
    hide ParseOr, ParseQuoted, ParseWord, ScanString, NumeralValue, NumberSpan;
    var text := spelling + rest;
    assert text[0] == spelling[0];
    assert SkipSpaces(text) == text;
    DecimalSpanOf(spelling, rest, false);
    assert text[..|spelling|] == spelling;
    assert text[|spelling|..] == rest;
  }

  /** Text that starts with a letter or underscore is read as a word. */
  lemma WordFirst(d: Dialect, text: string)
    requires text != "" && IsIdentStart(text[0])
    ensures ParsePrimary(d, text) == ParseWord(d, text)
    ensures SkipSpaces(text) == text
  {
    hide ParseOr, ParseNumber, ParseQuoted, ParseWord, ScanString;
  }

  lemma WordsAreIdents()
    ensures IsIdent("TRUE") && IsIdent("FALSE") && IsIdent("NULL") && IsIdent("NOT")
    ensures IsIdent("auth") && IsIdent("false")
  {
  }

  lemma BoolReads(d: Dialect, b: bool, rest: string)
    requires EndsPrimary(rest)
    ensures Reads(PrimaryLevel, d, if b then "TRUE" else "FALSE", Lit(Bool(b)), rest)
    ensures NotNegated((if b then "TRUE" else "FALSE") + rest)
  {
    hide ParsePrimary, AtKeyword, SkipSpaces, ParseIdentOrCall;
    var text := (if b then "TRUE" else "FALSE") + rest;
    WordFirst(d, text);
    WordsAreIdents();
    KeywordHere(if b then "TRUE" else "FALSE", rest);
    KeywordElsewhere(text, "NOT", 0);
    if !b {
      KeywordElsewhere(text, "TRUE", 0);
    }
  }

  lemma NullReads(d: Dialect, rest: string)
    requires EndsPrimary(rest)
    ensures Reads(PrimaryLevel, d, "NULL", Lit(Null), rest)
    ensures NotNegated("NULL" + rest)
  {
    hide ParsePrimary, AtKeyword, SkipSpaces, ParseIdentOrCall;
    var text := "NULL" + rest;
    WordFirst(d, text);
    WordsAreIdents();
    KeywordHere("NULL", rest);
    KeywordElsewhere(text, "NOT", 1);
    KeywordElsewhere(text, "TRUE", 0);
    KeywordElsewhere(text, "FALSE", 0);
  }

  /** The lower-case `false` that evaluation emits. */
  lemma LowerFalseReads(d: Dialect, rest: string)
    requires EndsPrimary(rest)
    ensures Reads(PrimaryLevel, d, "false", Lit(Bool(false)), rest)
    ensures NotNegated("false" + rest)
  {
    hide ParsePrimary, AtKeyword, SkipSpaces, ParseIdentOrCall;
    var text := "false" + rest;
    WordFirst(d, text);
    WordsAreIdents();
    KeywordAtIdent("false", rest, "FALSE");
    assert EqIgnoreCase("false", "FALSE");
    KeywordElsewhere(text, "NOT", 0);
    KeywordElsewhere(text, "TRUE", 0);
    assert text[5..] == rest;
  }

  // Names and calls

  predicate IsLiteralWord(name: string) {
    EqIgnoreCase(name, "TRUE") || EqIgnoreCase(name, "FALSE") || EqIgnoreCase(name, "NULL")
  }

  predicate IsNot(name: string) {
    EqIgnoreCase(name, "NOT")
  }

  lemma NameFirst(d: Dialect, name: string, rest: string)
    requires IsIdent(name) && !IsLiteralWord(name) && EndsIdent(rest)
    ensures ParsePrimary(d, name + rest) == ParseIdentOrCall(d, name + rest)
    ensures ParseIdent(name + rest) == Ok(name, rest)
    ensures !IsNot(name) ==> NotNegated(name + rest)
  {
    hide ParsePrimary, ParseIdentOrCall, AtKeyword, SkipSpaces, EqIgnoreCase, IsIdent;
    var text := name + rest;
    WordsAreIdents();
    KeywordAtIdent(name, rest, "TRUE");
    KeywordAtIdent(name, rest, "FALSE");
    KeywordAtIdent(name, rest, "NULL");
    KeywordAtIdent(name, rest, "NOT");
    IdentReads(name, rest);
    WordFirst(d, text);
  }

  lemma IdentReads(name: string, rest: string)
    requires IsIdent(name) && EndsIdent(rest)
    ensures ParseIdent(name + rest) == Ok(name, rest)
    ensures (name + rest)[0] == name[0] && IsIdentStart(name[0])
  {
    hide IdentSpan;
    var text := name + rest;
    IdentSpanOf(name, rest);
    assert SkipSpaces(text) == text;
    assert text[..|name|] == name;
    assert text[|name|..] == rest;
  }

  lemma ColumnReads(d: Dialect, name: string, rest: string)
    requires IsIdent(name) && !IsLiteralWord(name) && EndsPrimary(rest)
    ensures Reads(PrimaryLevel, d, name, Column(name), rest)
    ensures !IsNot(name) ==> NotNegated(name + rest)
  {
    hide ParsePrimary, ParseIdent, IsIdent, IsLiteralWord, NotNegated, IsNot;
    NameFirst(d, name, rest);
    SkipTwice(rest);
  }

  /** `first.` hands over to the qualified forms. */
  lemma DotRead(d: Dialect, first: string, s: string)
    requires IsIdent(first) && !IsLiteralWord(first)
    ensures ParsePrimary(d, first + "." + s) == ParseQualified(d, first, s)
    ensures !IsNot(first) ==> NotNegated(first + "." + s)
  {
    hide ParsePrimary, ParseIdent, ParseQualified, IsIdent, IsLiteralWord, NotNegated, IsNot;
    var tail := "." + s;
    assert first + "." + s == first + tail;
    NameFirst(d, first, tail);
    assert SkipSpaces(tail) == tail && tail[1..] == s;
  }

  lemma QualifiedReads(d: Dialect, table: string, column: string, rest: string)
    requires IsIdent(table) && !IsLiteralWord(table) && !IsAuth(table) && !IsDomain(table)
    requires IsIdent(column) && EndsPrimary(rest)
    ensures Reads(PrimaryLevel, d, table + "." + column, QualifiedColumn(table, column), rest)
    ensures !IsNot(table) ==> NotNegated(table + "." + column + rest)
  {
    hide ParsePrimary, ParseIdent, IsIdent, IsLiteralWord, NotNegated, IsNot, IsAuth, IsDomain, ParseArgs;
    assert table + "." + column + rest == table + "." + (column + rest);
    DotRead(d, table, column + rest);
    IdentReads(column, rest);
    SkipTwice(rest);
  }

  lemma DomainsAreNotWords(name: string)
    requires IsDomain(name)
    ensures !IsLiteralWord(name) && !IsNot(name) && !IsAuth(name)
  {
    var i :| 0 <= i < |DOMAINS| && EqIgnoreCase(name, DOMAINS[i]);
    assert |name| == |DOMAINS[i]|;
    assert Lower(name[0]) == Lower(DOMAINS[i][0]);
    assert i == 0 || i == 1 || i == 2 || i == 3 || i == 4;
  }

  /** A domain builtin without arguments, as evaluation emits it. */
  lemma DomainReads(d: Dialect, domain: string, property: string, rest: string)
    requires IsIdent(domain) && IsDomain(domain) && IsIdent(property) && EndsPrimary(rest)
    ensures Reads(PrimaryLevel, d, domain + "." + property, DomainBuiltin(domain, property, []), rest)
    ensures NotNegated(domain + "." + property + rest)
  {
    hide ParsePrimary, ParseIdent, IsIdent, IsLiteralWord, NotNegated, IsNot, IsAuth, IsDomain, ParseArgs;
    assert domain + "." + property + rest == domain + "." + (property + rest);
    DomainsAreNotWords(domain);
    DotRead(d, domain, property + rest);
    IdentReads(property, rest);
    SkipTwice(rest);
  }

  /** `args` is text that reads as an argument list up to and including its closing parenthesis. */
  lemma DomainCallReads(d: Dialect, domain: string, property: string, args: string, es: seq<Expr>, rest: string)
    requires IsIdent(domain) && IsDomain(domain) && IsIdent(property)
    requires ParseArgs(d, args + ")" + rest) == Ok(es, rest)
    ensures Reads(PrimaryLevel, d, domain + "." + property + "(" + args + ")",
                  DomainBuiltin(domain, property, es), rest)
    ensures NotNegated(domain + "." + property + "(" + args + ")" + rest)
  {
    hide ParsePrimary, ParseIdent, IsIdent, IsLiteralWord, NotNegated, IsNot, IsAuth, IsDomain, ParseArgs;
    var call := "(" + (args + ")" + rest);
    assert domain + "." + property + "(" + args + ")" + rest == domain + "." + (property + call);
    DomainsAreNotWords(domain);
    DotRead(d, domain, property + call);
    IdentReads(property, call);
    assert SkipSpaces(call) == call && call[1..] == args + ")" + rest;
  }

  lemma AuthCallReads(d: Dialect, name: string, args: string, es: seq<Expr>, rest: string)
    requires IsIdent(name) && ValidateCall(name, |es|).Valid?
    requires ParseArgs(d, args + ")" + rest) == Ok(es, rest)
    ensures Reads(PrimaryLevel, d, "auth." + name + "(" + args + ")", AuthBuiltin(name, es), rest)
    ensures NotNegated("auth." + name + "(" + args + ")" + rest)
  {
    hide ParsePrimary, ParseIdent, IsIdent, NotNegated, IsDomain, ParseArgs, ValidateCall;
    var call := "(" + (args + ")" + rest);
    assert "auth." + name + "(" + args + ")" + rest == "auth" + "." + (name + call);
    WordsAreIdents();
    assert IsAuth("auth") && !IsLiteralWord("auth") && !IsNot("auth");
    DotRead(d, "auth", name + call);
    IdentReads(name, call);
    assert SkipSpaces(call) == call && call[1..] == args + ")" + rest;
  }

  lemma CallReads(d: Dialect, name: string, args: string, es: seq<Expr>, rest: string)
    requires IsIdent(name) && !IsLiteralWord(name)
    requires ParseArgs(d, args + ")" + rest) == Ok(es, rest)
    ensures Reads(PrimaryLevel, d, name + "(" + args + ")", AuthBuiltin(name, es), rest)
    ensures !IsNot(name) ==> NotNegated(name + "(" + args + ")" + rest)
  {
    hide ParsePrimary, ParseIdent, IsIdent, IsLiteralWord, NotNegated, IsNot, ParseArgs;
    var call := "(" + (args + ")" + rest);
    assert name + "(" + args + ")" + rest == name + call;
    NameFirst(d, name, call);
    assert SkipSpaces(call) == call && call[1..] == args + ")" + rest;
  }

  // Quoted columns of emitted SQL

  predicate QuoteFree(name: string) {
    '"' !in name
  }

  lemma {:induction false} QuotedSpanOf(name: string, rest: string)
    requires QuoteFree(name) && StartsWith(rest, '"')
    ensures QuotedSpan(name + rest) == |name|
  {
    if name == "" {
      assert name + rest == rest;
    } else {
      assert (name + rest)[1..] == name[1..] + rest;
      QuotedSpanOf(name[1..], rest);
    }
  }

  lemma QuoteFirst(d: Dialect, text: string)
    requires d.EmittedSql? && StartsWith(text, '"')
    ensures ParsePrimary(d, text) == ParseQuoted(text[1..])
    ensures NotNegated(text)
  {
    hide ParseOr, ParseNumber, ParseQuoted, ParseWord, ScanString;
    assert SkipSpaces(text) == text;
  }

  lemma QuotedColumnReads(name: string, rest: string)
    requires QuoteFree(name) && EndsPrimary(rest)
    ensures Reads(PrimaryLevel, EmittedSql, "\"" + name + "\"", Column(name), rest)
    ensures NotNegated("\"" + name + "\"" + rest)
  {
    hide ParsePrimary, QuotedSpan;
    var tail := "\"" + rest;
    var text := "\"" + name + "\"" + rest;
    assert text == "\"" + (name + tail);
    QuoteFirst(EmittedSql, text);
    QuotedSpanOf(name, tail);
    var s := name + tail;
    assert text[1..] == s;
    assert s[..|name|] == name && s[|name| + 1..] == rest;
  }

  lemma QuotedPairReads(table: string, column: string, rest: string)
    requires QuoteFree(table) && QuoteFree(column) && EndsPrimary(rest)
    ensures Reads(PrimaryLevel, EmittedSql, "\"" + table + "\".\"" + column + "\"",
                  QualifiedColumn(table, column), rest)
    ensures NotNegated("\"" + table + "\".\"" + column + "\"" + rest)
  {
    hide ParsePrimary, QuotedSpan, ParseQuoted, NotNegated, SkipSpaces, EndsPrimary;
    var text := "\"" + table + "\".\"" + column + "\"" + rest;
    var s := table + ("\"" + (".\"" + (column + ("\"" + rest))));
    assert text == "\"" + s;
    assert text[1..] == s;
    QuoteFirst(EmittedSql, text);
    QuotedPairParses(table, column, rest);
  }

  lemma QuotedPairParses(table: string, column: string, rest: string)
    requires QuoteFree(table) && QuoteFree(column)
    ensures ParseQuoted(table + ("\"" + (".\"" + (column + ("\"" + rest))))) == Ok(QualifiedColumn(table, column), rest)
  {
    hide QuotedSpan;
    var tail := "\"" + rest;
    var inner := column + tail;
    var after := ".\"" + inner;
    var s := table + ("\"" + after);
    QuotedSpanOf(table, "\"" + after);
    QuotedSpanOf(column, tail);
    assert s[..|table|] == table && s[|table| + 1..] == after;
    assert after[2..] == inner;
    assert inner[..|column|] == column && inner[|column| + 1..] == rest;
  }

  // Comma-separated lists

  ghost predicate AllRead(level: Level, d: Dialect, parts: seq<string>, es: seq<Expr>) {
    && |parts| == |es|
    && forall i, rest | 0 <= i < |es| && StopsExpr(rest) :: Reads(level, d, parts[i], es[i], rest)
  }

  lemma CommaStops(s: string)
    ensures StopsExpr(", " + s) && SkipSpaces(", " + s) == ", " + s && (", " + s)[1..] == " " + s
    ensures StopsExpr(")" + s) && SkipSpaces(")" + s) == ")" + s && (")" + s)[1..] == s
  {
  }

  lemma {:induction false} ArgsRun(d: Dialect, parts: seq<string>, es: seq<Expr>, rest: string)
    requires |es| > 0 && AllRead(OrLevel, d, parts, es) && StopsExpr(rest)
    ensures ArgsLoop(d, [], Join(parts, ", ") + rest) == ArgsNext(d, es, SkipSpaces(rest))
    decreases |es|
  {
    hide ParseOr, OrLoop, StopsExpr, SkipSpaces, Join;
    var n := |es| - 1;
    assert Reads(OrLevel, d, parts[n], es[n], rest);
    OrStops(d, es[n], rest);
    if n == 0 {
      JoinOne(parts, ", ");
      assert es == [] + [es[0]];
    } else {
      var tail := ", " + (parts[n] + rest);
      CommaStops(parts[n] + rest);
      ArgsRun(d, parts[..n], es[..n], tail);
      JoinTail(parts, ", ", rest);
      SpaceIgnored(d, parts[n] + rest);
      assert es == es[..n] + [es[n]];
      assert ArgsNext(d, es[..n], tail) == ArgsLoop(d, es[..n], " " + (parts[n] + rest));
    }
  }

  lemma {:induction false} ListRun(d: Dialect, parts: seq<string>, es: seq<Expr>, rest: string)
    requires |es| > 0 && AllRead(PrimaryLevel, d, parts, es) && StopsExpr(rest)
    ensures ListLoop(d, [], Join(parts, ", ") + rest) == ListNext(d, es, SkipSpaces(rest))
    decreases |es|
  {
    hide ParsePrimary, StopsExpr, SkipSpaces, Join;
    var n := |es| - 1;
    assert Reads(PrimaryLevel, d, parts[n], es[n], rest);
    NextSkips(d, es, rest);
    NextSkips(d, es, ParsePrimary(d, parts[n] + rest).rest);
    if n == 0 {
      JoinOne(parts, ", ");
      assert es == [] + [es[0]];
    } else {
      var tail := ", " + (parts[n] + rest);
      CommaStops(parts[n] + rest);
      ListRun(d, parts[..n], es[..n], tail);
      JoinTail(parts, ", ", rest);
      SpaceIgnored(d, parts[n] + rest);
      assert es == es[..n] + [es[n]];
      assert ListNext(d, es[..n], tail) == ListLoop(d, es[..n], " " + (parts[n] + rest));
    }
  }

  lemma NextSkips(d: Dialect, es: seq<Expr>, s: string)
    ensures ListNext(d, es, SkipSpaces(s)) == ListNext(d, es, s)
    ensures ArgsNext(d, es, SkipSpaces(s)) == ArgsNext(d, es, s)
  {
    hide ListLoop, ArgsLoop, SkipSpaces;
    SkipTwice(s);
  }

  /** No expression starts with a closing parenthesis. */
  lemma CloseIsNoExpr(d: Dialect, s: string)
    requires StartsWith(SkipSpaces(s), ')')
    ensures ParsePrimary(d, s).Err? && ParseOr(d, s).Err?
  {
    var t := SkipSpaces(s);
    SkipTwice(s);
    assert ParseIdent(t).Err?;
    assert ParseWord(d, t).Err?;
    assert ParsePrimary(d, t).Err?;
    assert ParseComparison(d, t).Err?;
    assert ParseNot(d, s).Err?;
    assert ParseAnd(d, s).Err?;
  }

  lemma ArgsRead(d: Dialect, parts: seq<string>, es: seq<Expr>, rest: string)
    requires AllRead(OrLevel, d, parts, es)
    ensures ParseArgs(d, Join(parts, ", ") + ")" + rest) == Ok(es, rest)
  {
    hide ParseOr, SkipSpaces, ArgsLoop;
    var tail := ")" + rest;
    var text := Join(parts, ", ") + tail;
    assert Join(parts, ", ") + ")" + rest == text;
    CommaStops(rest);
    if |es| == 0 {
      assert text == tail;
    } else {
      ArgsRun(d, parts, es, tail);
      assert ArgsNext(d, es, tail) == Ok(es, rest);
      ArgsLoopSkips(d, text);
      if StartsWith(SkipSpaces(text), ')') {
        CloseIsNoExpr(d, text);
        ArgsLoopFails(d, text);
      }
    }
  }

  lemma ArgsLoopSkips(d: Dialect, s: string)
    ensures ArgsLoop(d, [], SkipSpaces(s)) == ArgsLoop(d, [], s)
    ensures ListLoop(d, [], SkipSpaces(s)) == ListLoop(d, [], s)
  {
    hide ParsePrimary, ParseComparison, AtKeyword, SkipSpaces;
    SkipTwice(s);
    PrimarySkips(d, s);
    assert ParseNot(d, SkipSpaces(s)) == ParseNot(d, s);
    assert ParseAnd(d, SkipSpaces(s)) == ParseAnd(d, s);
    assert ParseOr(d, SkipSpaces(s)) == ParseOr(d, s);
  }

  lemma ArgsLoopFails(d: Dialect, s: string)
    requires ParsePrimary(d, s).Err? && ParseOr(d, s).Err?
    ensures ArgsLoop(d, [], s).Err? && ListLoop(d, [], s).Err?
  {
    hide ParsePrimary, ParseOr;
  }

  lemma ListRead(d: Dialect, parts: seq<string>, es: seq<Expr>, rest: string)
    requires AllRead(PrimaryLevel, d, parts, es)
    ensures ParseList(d, "(" + Join(parts, ", ") + ")" + rest) == Ok(es, rest)
  {
    hide ParsePrimary, ListLoop;
    var tail := ")" + rest;
    var text := Join(parts, ", ") + tail;
    var whole := "(" + Join(parts, ", ") + ")" + rest;
    assert whole == "(" + text;
    assert SkipSpaces(whole) == whole && whole[1..] == text;
    CommaStops(rest);
    if |es| == 0 {
      assert text == tail;
    } else {
      ListRun(d, parts, es, tail);
      assert ListNext(d, es, tail) == Ok(es, rest);
      ArgsLoopSkips(d, text);
      if StartsWith(SkipSpaces(text), ')') {
        CloseIsNoExpr(d, text);
        ArgsLoopFails(d, text);
      }
    }
  }
}
