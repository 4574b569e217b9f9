/**
 What may be written differently in a policy without a difference: every white space,
 `!=` and `<>`, and the case of keywords, at any place of any policy text. And what each
 operator and each form of the language must be written like.
 */
module Spellings {
  import opened PolicyAst
  import opened AsciiText
  import opened Lexing
  import opened Grammar
  import opened Tokens

  /** White space of any kind, at least one character. */
  predicate Blank(s: string) {
    s != "" && forall i | 0 <= i < |s| :: s[i] in " \t\n\r\U{000B}\U{000C}"
  }

  /** The text does not end inside a string or a quoted column. */
  predicate Closed(d: Dialect, s: string) {
    Broken !in Tokens.Tokens(Kept, d, s)
  }

  /** The text starts with a character that no token before it can take in. */
  predicate Splits(rest: string) {
    rest != "" && (IsSpace(rest[0]) || rest[0] in "(),-<!")
  }

  /** The same tree, or an error in both cases. */
  predicate SameParse(d: Dialect, s: string, t: string) {
    Parse(d, s) == Parse(d, t) || (Parse(d, s).Failure? && Parse(d, t).Failure?)
  }

  lemma {:induction false} ClosedEither(w: WordCase, d: Dialect, s: string)
    requires Closed(d, s)
    ensures Broken !in Tokens.Tokens(w, d, s)
    decreases |s|
  {
    hide SkipSpaces, IdentSpan, NumberSpan, ScanString, ParseQuoted, Fold, StartsWithText;
    var u := SkipSpaces(s);
    if u != "" {
      var after := First(w, d, u).1;
      assert after == First(Kept, d, u).1 && First(Kept, d, u).0 != Broken;
      ClosedEither(w, d, after);
    }
  }

  lemma {:induction false} BlankSkipped(w: string, q: string)
    requires forall i | 0 <= i < |w| :: IsSpace(w[i])
    ensures SkipSpaces(w + q) == SkipSpaces(q)
  {
    if w == "" {
      assert w + q == q;
    } else {
      assert (w + q)[1..] == w[1..] + q;
      BlankSkipped(w[1..], q);
    }
  }

  lemma {:induction false} NumberInFront(s: string, rest: string, hasDot: bool)
    requires Splits(rest)
    ensures NumberSpan(s + rest, hasDot) == NumberSpan(s, hasDot)
  {
    if s == "" {
      assert s + rest == rest;
    } else {
      assert (s + rest)[1..] == s[1..] + rest;
      NumberInFront(s[1..], rest, hasDot || s[0] == '.');
      NumberInFront(s[1..], rest, hasDot);
    }
  }

  lemma {:induction false} StringInFront(value: string, s: string, rest: string)
    requires Splits(rest)
    requires ScanString(value, s).Ok?
    ensures ScanString(value, s + rest) == Ok(ScanString(value, s).value, ScanString(value, s).rest + rest)
    decreases |s|
  {
    assert (s + rest)[1..] == s[1..] + rest;
    if s[0] != '\'' {
      StringInFront(value + [s[0]], s[1..], rest);
    } else if StartsWith(s[1..], '\'') {
      assert (s + rest)[2..] == s[2..] + rest;
      StringInFront(value + "'", s[2..], rest);
    }
  }

  lemma {:induction false} QuotedInFront(s: string, rest: string)
    requires QuotedSpan(s) < |s|
    ensures QuotedSpan(s + rest) == QuotedSpan(s)
  {
    if s[0] != '"' {
      assert (s + rest)[1..] == s[1..] + rest;
      QuotedInFront(s[1..], rest);
    }
  }

  lemma DotQuoteInFront(after: string, rest: string)
    requires Splits(rest)
    ensures StartsWithText(after + rest, ".\"") == StartsWithText(after, ".\"")
    ensures StartsWithText(after, ".\"") ==> |after| >= 2 && (after + rest)[2..] == after[2..] + rest
  {
    var t := after + rest;
    if |after| >= 2 {
      assert t[0] == after[0] && t[1] == after[1] && t[2..] == after[2..] + rest;
    } else if |after| == 1 {
      assert t[0] == after[0] && t[1] == rest[0];
    } else {
      assert t == rest;
    }
  }

  lemma ColumnInFront(s: string, rest: string)
    requires Splits(rest)
    requires ParseQuoted(s).Ok?
    ensures ParseQuoted(s + rest) == Ok(ParseQuoted(s).value, ParseQuoted(s).rest + rest)
  {
    hide QuotedSpan, StartsWithText, Splits;
    var n := QuotedSpan(s);
    QuotedInFront(s, rest);
    var after := s[n + 1..];
    assert (s + rest)[n + 1..] == after + rest;
    assert (s + rest)[..n] == s[..n];
    DotQuoteInFront(after, rest);
    if StartsWithText(after, ".\"") {
      var inner := after[2..];
      var m := QuotedSpan(inner);
      QuotedInFront(inner, rest);
      assert (inner + rest)[..m] == inner[..m];
      assert (inner + rest)[m + 1..] == inner[m + 1..] + rest;
    }
  }

  lemma SymbolInFront(s: string, rest: string)
    requires s != "" && Splits(rest)
    ensures StartsWithText(s + rest, "<=") == StartsWithText(s, "<=")
    ensures StartsWithText(s + rest, ">=") == StartsWithText(s, ">=")
    ensures StartsWithText(s + rest, "<>") == StartsWithText(s, "<>")
    ensures StartsWithText(s + rest, "!=") == StartsWithText(s, "!=")
    ensures |s| > 1 ==> (s + rest)[2..] == s[2..] + rest
    ensures StartsWithText(s, "<=") || StartsWithText(s, ">=") || StartsWithText(s, "<>") || StartsWithText(s, "!=") ==>
              |s| > 1
  {
    var t := s + rest;
    assert t[0] == s[0];
    assert |s| > 1 ==> t[1] == s[1];
    assert |s| == 1 ==> t[1] == rest[0];
  }

  lemma IdentInFront(s: string, rest: string)
    requires Splits(rest)
    ensures var n := IdentSpan(s);
            IdentSpan(s + rest) == n && (s + rest)[..n] == s[..n] && (s + rest)[n..] == s[n..] + rest
  {
    var n := IdentSpan(s);
    var name, after := s[..n], s[n..] + rest;
    IdentSpanMaximal(s);
    assert s + rest == name + after;
    assert forall i | 0 <= i < |name| :: name[i] == s[i];
    assert EndsIdent(after) by {
      if n < |s| {
        assert after[0] == s[n..][0];
      } else {
        assert after == rest;
      }
    }
    IdentSpanOf(name, after);
  }

  lemma FirstInFront(w: WordCase, d: Dialect, s: string, rest: string)
    requires s != "" && First(w, d, s).0 != Broken
    requires Splits(rest)
    ensures First(w, d, s + rest) == (First(w, d, s).0, First(w, d, s).1 + rest)
  {
    hide IdentSpan, NumberSpan, ScanString, ParseQuoted, Fold, StartsWithText;
    var t := s + rest;
    assert t[0] == s[0] && t[1..] == s[1..] + rest;
    if IsIdentStart(s[0]) {
      IdentInFront(s, rest);
    } else if IsDigit(s[0]) {
      NumberInFront(s, rest, false);
      assert t[..NumberSpan(s, false)] == s[..NumberSpan(s, false)];
      assert t[NumberSpan(s, false)..] == s[NumberSpan(s, false)..] + rest;
    } else if s[0] == '\'' {
      ScansText("", s[1..]);
      StringInFront("", s[1..], rest);
    } else if d.EmittedSql? && s[0] == '"' {
      ColumnInFront(s[1..], rest);
    } else {
      SymbolInFront(s, rest);
    }
  }

  lemma ClosedRest(w: WordCase, d: Dialect, p: string)
    requires Closed(d, p) && SkipSpaces(p) != ""
    ensures Closed(d, First(w, d, SkipSpaces(p)).1)
  {
    hide SkipSpaces, IdentSpan, NumberSpan, ScanString, ParseQuoted, Fold, StartsWithText;
    assert First(w, d, SkipSpaces(p)).1 == First(Kept, d, SkipSpaces(p)).1;
  }

  /** Closed text and the text after it are read token by token, whatever space is between. */
  lemma {:induction false} TokensJoin(w: WordCase, d: Dialect, p: string, rest: string)
    requires Closed(d, p) && Splits(rest)
    ensures Tokens.Tokens(w, d, p + rest) == Tokens.Tokens(w, d, p) + Tokens.Tokens(w, d, rest)
    decreases |p|
  {
    hide First, SkipSpaces;
    var u := SkipSpaces(p);
    SkipInFront(p, rest);
    if u != "" {
      var (token, after) := First(w, d, u);
      ClosedEither(w, d, p);
      assert Tokens.Tokens(w, d, p) == [token] + Tokens.Tokens(w, d, after);
      FirstInFront(w, d, u, rest);
      assert Closed(d, after) by { ClosedRest(w, d, p); }
      TokensJoin(w, d, after, rest);
    }
  }

  function Quotes(s: string): nat {
    if s == "" then 0 else (if s[0] == '\'' then 1 else 0) + Quotes(s[1..])
  }

  lemma {:induction false} QuotesSplit(s: string, n: nat)
    requires n <= |s|
    ensures Quotes(s) == Quotes(s[..n]) + Quotes(s[n..])
  {
    if n == 0 {
      assert s[0..] == s;
    } else {
      QuotesSplit(s[1..], n - 1);
      assert s[1..][..n - 1] == s[..n][1..] && s[1..][n - 1..] == s[n..];
    }
  }

  lemma {:induction false} NoQuotes(s: string)
    requires '\'' !in s
    ensures Quotes(s) == 0
  {
    if s != "" {
      NoQuotes(s[1..]);
    }
  }

  /** A string literal takes in an even number of quotes, counting its first one. */
  lemma {:induction false} QuotesOfString(value: string, s: string)
    ensures match ScanString(value, s)
            case Ok(_, rest) => (Quotes(s) - Quotes(rest)) % 2 == 1
            case Err(_) => Quotes(s) % 2 == 0
    decreases |s|
  {
    if s != "" {
      if s[0] != '\'' {
        QuotesOfString(value + [s[0]], s[1..]);
      } else if StartsWith(s[1..], '\'') {
        assert s[1..][1..] == s[2..];
        QuotesOfString(value + "'", s[2..]);
      }
    }
  }

  lemma {:induction false} QuotesSkipSpaces(s: string)
    ensures Quotes(SkipSpaces(s)) == Quotes(s)
  {
    if s != "" && IsSpace(s[0]) {
      QuotesSkipSpaces(s[1..]);
    }
  }

  lemma PlainToken(s: string)
    requires s != "" && s[0] != '\''
    ensures First(Kept, StoredText, s).0 != Broken
    ensures Quotes(First(Kept, StoredText, s).1) == Quotes(s)
  {
    hide IdentSpan, NumberSpan, ScanString, StartsWithText, Quotes, Fold;
    if IsIdentStart(s[0]) {
      IdentSpanMaximal(s);
      QuotesAfter(s, IdentSpan(s));
    } else if IsDigit(s[0]) {
      QuotesAfter(s, NumberSpan(s, false));
    } else {
      SymbolQuotes(s);
    }
  }

  lemma StringToken(s: string)
    requires StartsWith(s, '\'')
    ensures var (token, rest) := First(Kept, StoredText, s);
            if token == Broken then Quotes(s) % 2 == 1 && rest == ""
            else (Quotes(s) - Quotes(rest)) % 2 == 0
  {
    hide ScanString, Quotes;
    ScansText("", s[1..]);
    QuotesOfString("", s[1..]);
    QuoteCounts(s);
    assert ScanString("", s[1..]).Ok? ==> First(Kept, StoredText, s).0.Quote?;
  }

  lemma QuotesAfter(s: string, n: nat)
    requires n <= |s| && forall i | 0 <= i < n :: s[i] != '\''
    ensures Quotes(s[n..]) == Quotes(s)
  {
    NoQuotes(s[..n]);
    QuotesSplit(s, n);
  }

  lemma QuoteCounts(s: string)
    requires StartsWith(s, '\'')
    ensures Quotes(s) == 1 + Quotes(s[1..])
  {
  }

  lemma SymbolQuotes(s: string)
    requires s != "" && s[0] != '\''
    ensures Quotes(s[1..]) == Quotes(s)
    ensures StartsWithText(s, "<=") || StartsWithText(s, ">=") || StartsWithText(s, "<>") || StartsWithText(s, "!=") ==>
              |s| >= 2 && Quotes(s[2..]) == Quotes(s)
  {
    if |s| >= 2 {
      assert s[1..][1..] == s[2..];
    }
  }

  /** In a policy a text is closed exactly when it has an even number of single quotes. */
  lemma {:induction false} ClosedIffQuotesEven(s: string)
    ensures Closed(StoredText, s) <==> Quotes(s) % 2 == 0
    decreases |s|
  {
    hide First, SkipSpaces;
    var u := SkipSpaces(s);
    QuotesSkipSpaces(s);
    if u != "" {
      if u[0] == '\'' {
        StringToken(u);
      } else {
        PlainToken(u);
      }
      ClosedIffQuotesEven(First(Kept, StoredText, u).1);
    }
  }

  // Keeping the case of words keeps every name, so that trees are compared as they are.

  lemma {:induction false} KeptIsSame(e: Expr)
    ensures Canon(Kept, e) == e
    decreases e
  {
    match e
    case Binary(l, _, r) =>
      KeptIsSame(l);
      KeptIsSame(r);
    case Unary(_, x) => KeptIsSame(x);
    case AuthBuiltin(_, args) => KeptAllSame(args);
    case DomainBuiltin(_, _, args) => KeptAllSame(args);
    case IsNull(x, _) => KeptIsSame(x);
    case InList(x, list, _) =>
      KeptIsSame(x);
      KeptAllSame(list);
    case _ =>
  }

  lemma {:induction false} KeptAllSame(es: seq<Expr>)
    ensures CanonAll(Kept, es) == es
    decreases es
  {
    if es != [] {
      var n := |es| - 1;
      KeptAllSame(es[..n]);
      KeptIsSame(es[n]);
      assert es == es[..n] + [es[n]];
    }
  }

  lemma SameTokensParse(d: Dialect, s: string, t: string)
    requires Tokens.Tokens(Kept, d, s) == Tokens.Tokens(Kept, d, t)
    ensures SameParse(d, s, t)
  {
    hide Parse, Canon, Tokens.Tokens;
    TokensDecide(Kept, d, s, t);
    if Parse(d, s).Success? {
      KeptIsSame(Parse(d, s).expr);
      KeptIsSame(Parse(d, t).expr);
    }
  }

  /** `!=` may stand for `<>` anywhere outside strings, and the other way round. */
  lemma NotEqualSpelled(d: Dialect, p: string, q: string)
    requires Closed(d, p)
    ensures SameParse(d, p + "!=" + q, p + "<>" + q)
  {
    hide Parse, Closed, Tokens.Tokens, SameParse;
    assert p + "!=" + q == p + ("!=" + q) && p + "<>" + q == p + ("<>" + q);
    TokensJoin(Kept, d, p, "!=" + q);
    TokensJoin(Kept, d, p, "<>" + q);
    NotEqualToken(d, q);
    SameTokensParse(d, p + ("!=" + q), p + ("<>" + q));
  }

  lemma NotEqualToken(d: Dialect, q: string)
    ensures Tokens.Tokens(Kept, d, "!=" + q) == [Symbol("<>")] + Tokens.Tokens(Kept, d, q)
    ensures Tokens.Tokens(Kept, d, "<>" + q) == [Symbol("<>")] + Tokens.Tokens(Kept, d, q)
  {
    hide First;
    var s, t := "!=" + q, "<>" + q;
    NotEqualFirst(d, q);
    assert SkipSpaces(s) == s && SkipSpaces(t) == t;
  }

  lemma NotEqualFirst(d: Dialect, q: string)
    ensures First(Kept, d, "!=" + q) == (Symbol("<>"), q)
    ensures First(Kept, d, "<>" + q) == (Symbol("<>"), q)
  {
    hide IdentSpan, NumberSpan, ScanString, ParseQuoted;
    var s, t := "!=" + q, "<>" + q;
    assert s[2..] == q && t[2..] == q;
    assert s[0] == '!' && s[1] == '=' && t[0] == '<' && t[1] == '>';
  }

  /** Outside strings white space of any kind and length may stand for any other. */
  lemma BlankSpelled(d: Dialect, p: string, blank: string, other: string, q: string)
    requires Closed(d, p) && Blank(blank) && Blank(other)
    ensures SameParse(d, p + blank + q, p + other + q)
    ensures SameParse(d, p + blank, p)
    ensures SameParse(d, blank + q, q)
    ensures Splits(q) ==> SameParse(d, p + blank + q, p + q)
  {
    hide Parse, Closed, SameParse, First;
    BlankToken(d, blank, q);
    BlankToken(d, other, q);
    BlankToken(d, blank, "");
    assert p + blank + q == p + (blank + q) && p + other + q == p + (other + q);
    assert p + blank == p + (blank + "");
    TokensJoin(Kept, d, p, blank + q);
    TokensJoin(Kept, d, p, other + q);
    TokensJoin(Kept, d, p, blank + "");
    SameTokensParse(d, p + (blank + q), p + (other + q));
    SameTokensParse(d, p + (blank + ""), p);
    SameTokensParse(d, blank + q, q);
    if Splits(q) {
      TokensJoin(Kept, d, p, q);
      SameTokensParse(d, p + (blank + q), p + q);
    }
  }

  lemma BlankToken(d: Dialect, blank: string, q: string)
    requires Blank(blank)
    ensures Tokens.Tokens(Kept, d, blank + q) == Tokens.Tokens(Kept, d, q)
    ensures Splits(blank + q)
  {
    assert IsSpace(blank[0]);
    BlankSkipped(blank, q);
  }

  /** No space is needed after a punctuation mark, and any may stand there. */
  lemma PunctuationSpaced(d: Dialect, p: string, c: char, blank: string, q: string)
    requires Closed(d, p) && c in "(),-" && Blank(blank)
    ensures SameParse(d, p + [c] + blank + q, p + [c] + q)
  {
    hide Parse, Closed, SameParse, Tokens.Tokens, Blank;
    assert p + [c] + blank + q == p + ([c] + (blank + q)) && p + [c] + q == p + ([c] + q);
    TokensJoin(Kept, d, p, [c] + (blank + q));
    TokensJoin(Kept, d, p, [c] + q);
    MarkToken(d, c, blank + q);
    MarkToken(d, c, q);
    BlankToken(d, blank, q);
    SameTokensParse(d, p + ([c] + (blank + q)), p + ([c] + q));
  }

  lemma MarkToken(d: Dialect, c: char, q: string)
    requires c in "(),-"
    ensures Tokens.Tokens(Kept, d, [c] + q) == [Symbol([c])] + Tokens.Tokens(Kept, d, q)
  {
    hide IdentSpan, NumberSpan, ScanString, ParseQuoted;
    var s := [c] + q;
    assert s[0] == c && s[1..] == q;
    assert SkipSpaces(s) == s;
  }

  // Keywords in any case.

  predicate Reserved(name: string) {
    exists k | k in KEYWORDS :: AnyCase(name, k)
  }

  /** No column, function, domain or property has a name that spells a keyword. */
  predicate KeywordFree(e: Expr) {
    match e
    case Column(name) => !Reserved(name)
    case QualifiedColumn(table, column) => !Reserved(table) && !Reserved(column)
    case Lit(_) => true
    case Binary(l, _, r) => KeywordFree(l) && KeywordFree(r)
    case Unary(_, x) => KeywordFree(x)
    case AuthBuiltin(name, args) => !Reserved(name) && forall i | 0 <= i < |args| :: KeywordFree(args[i])
    case DomainBuiltin(domain, property, args) =>
      !Reserved(domain) && !Reserved(property) && forall i | 0 <= i < |args| :: KeywordFree(args[i])
    case IsNull(x, _) => KeywordFree(x)
    case InList(x, list, _) => KeywordFree(x) && forall i | 0 <= i < |list| :: KeywordFree(list[i])
    case Subquery(_) => true
  }

  lemma AnyCaseLowers(word: string, keyword: string)
    requires Keyword(keyword)
    ensures AnyCase(word, keyword) <==> LowerText(word) == LowerText(keyword)
  {
    KeywordsCapital(keyword);
    AnyCaseIff(word, keyword);
    LowerTextIff(word, keyword);
  }

  lemma KeywordsCapital(keyword: string)
    requires Keyword(keyword)
    ensures forall i | 0 <= i < |keyword| :: 'A' <= keyword[i] <= 'Z'
  {
  }

  lemma ReservedIff(name: string)
    ensures Reserved(name) <==> LowerText(name) in RESERVED
  {
    hide AnyCase, LowerText;
    KeywordOfEach();
    forall k | Keyword(k)
      ensures AnyCase(name, k) <==> LowerText(name) == LowerText(k)
      ensures LowerText(k) in RESERVED
    {
      AnyCaseLowers(name, k);
      KeywordsReserved(k);
    }
  }

  lemma KeywordOfEach()
    ensures forall r | r in RESERVED :: exists k :: Keyword(k) && LowerText(k) == r
  {
    assert Keyword("AND") && LowerText("AND") == "and";
    assert Keyword("OR") && LowerText("OR") == "or";
    assert Keyword("NOT") && LowerText("NOT") == "not";
    assert Keyword("IS") && LowerText("IS") == "is";
    assert Keyword("IN") && LowerText("IN") == "in";
    assert Keyword("NULL") && LowerText("NULL") == "null";
    assert Keyword("LIKE") && LowerText("LIKE") == "like";
    assert Keyword("ILIKE") && LowerText("ILIKE") == "ilike";
    assert Keyword("TRUE") && LowerText("TRUE") == "true";
    assert Keyword("FALSE") && LowerText("FALSE") == "false";
  }

  lemma NameUnique(a: string, b: string)
    requires Fold(Forgotten, a) == Fold(Forgotten, b) && !Reserved(a)
    ensures a == b
  {
    ReservedIff(a);
    LowerTwice(b);
  }

  lemma {:induction false} TreeUnique(e: Expr, f: Expr)
    requires Canon(Forgotten, e) == Canon(Forgotten, f) && KeywordFree(e)
    ensures e == f
    decreases e
  {
    hide Reserved, Fold;
    match e
    case Column(name) => NameUnique(name, f.name);
    case QualifiedColumn(table, column) =>
      NameUnique(table, f.table);
      NameUnique(column, f.column);
    case Binary(l, _, r) =>
      TreeUnique(l, f.left);
      TreeUnique(r, f.right);
    case Unary(_, x) => TreeUnique(x, f.operand);
    case AuthBuiltin(name, args) =>
      NameUnique(name, f.builtin);
      TreesUnique(args, f.args);
    case DomainBuiltin(domain, property, args) =>
      NameUnique(domain, f.domain);
      NameUnique(property, f.property);
      TreesUnique(args, f.args);
    case IsNull(x, _) => TreeUnique(x, f.operand);
    case InList(x, list, _) =>
      TreeUnique(x, f.operand);
      TreesUnique(list, f.list);
    case _ =>
  }

  lemma {:induction false} TreesUnique(es: seq<Expr>, fs: seq<Expr>)
    requires CanonAll(Forgotten, es) == CanonAll(Forgotten, fs)
    requires forall i | 0 <= i < |es| :: KeywordFree(es[i])
    ensures es == fs
    decreases es
  {
    hide KeywordFree;
    if es != [] {
      var n := |es| - 1;
      var a, b := CanonAll(Forgotten, es), CanonAll(Forgotten, fs);
      assert |es| == |a| == |b| == |fs|;
      assert a[..n] == CanonAll(Forgotten, es[..n]) && b[..n] == CanonAll(Forgotten, fs[..n]);
      assert a[n] == Canon(Forgotten, es[n]) && b[n] == Canon(Forgotten, fs[n]);
      TreesUnique(es[..n], fs[..n]);
      TreeUnique(es[n], fs[n]);
      assert es == es[..n] + [es[n]] && fs == fs[..n] + [fs[n]];
    }
  }

  /** Outside strings a keyword may be written in any case; the words of names may not. */
  lemma KeywordSpelled(d: Dialect, p: string, word: string, keyword: string, rest: string)
    requires Closed(d, p) && EndsIdent(rest)
    requires Keyword(keyword) && AnyCase(word, keyword)
    ensures var r, q := Parse(d, p + " " + word + rest), Parse(d, p + " " + keyword + rest);
            && r.Success? == q.Success?
            && (r.Success? && KeywordFree(q.expr) ==> r == q)
  {
    hide Parse, Closed, Keyword, AnyCase, KeywordFree, EndsIdent;
    assert p + " " + word + rest == p + (" " + (word + rest));
    assert p + " " + keyword + rest == p + (" " + (keyword + rest));
    SameKeywordTokens(d, p, word, keyword, rest);
    SameFolded(d, p + (" " + (word + rest)), p + (" " + (keyword + rest)));
  }

  lemma SameFolded(d: Dialect, s: string, t: string)
    requires Tokens.Tokens(Forgotten, d, s) == Tokens.Tokens(Forgotten, d, t)
    ensures var r, q := Parse(d, s), Parse(d, t);
            && r.Success? == q.Success?
            && (r.Success? && KeywordFree(q.expr) ==> r == q)
  {
    hide Parse, Tokens.Tokens, KeywordFree, Canon;
    TokensDecide(Forgotten, d, s, t);
    if Parse(d, s).Success? && KeywordFree(Parse(d, t).expr) {
      TreeUnique(Parse(d, t).expr, Parse(d, s).expr);
    }
  }

  lemma SameKeywordTokens(d: Dialect, p: string, word: string, keyword: string, rest: string)
    requires Closed(d, p) && EndsIdent(rest) && Keyword(keyword) && AnyCase(word, keyword)
    ensures Tokens.Tokens(Forgotten, d, p + (" " + (word + rest))) ==
            Tokens.Tokens(Forgotten, d, p + (" " + (keyword + rest)))
  {
    hide Closed, Tokens.Tokens, Keyword, AnyCase, EndsIdent;
    TokensJoin(Forgotten, d, p, " " + (word + rest));
    TokensJoin(Forgotten, d, p, " " + (keyword + rest));
    WordToken(d, word, keyword, rest);
    AnyCaseItself(keyword);
    WordToken(d, keyword, keyword, rest);
  }

  lemma AnyCaseItself(keyword: string)
    ensures AnyCase(keyword, keyword)
  {
  }

  lemma WordToken(d: Dialect, word: string, keyword: string, rest: string)
    requires Keyword(keyword) && AnyCase(word, keyword) && EndsIdent(rest)
    ensures Tokens.Tokens(Forgotten, d, " " + (word + rest)) ==
            [Word(LowerText(keyword))] + Tokens.Tokens(Forgotten, d, rest)
  {
    hide RESERVED, Keyword, LowerText, IdentSpan;
    KeywordsReserved(keyword);
    KeywordsCapital(keyword);
    AnyCaseLowers(word, keyword);
    LowerTwice(word);
    var s := word + rest;
    assert forall i | 0 <= i < |word| :: IsIdentChar(word[i]);
    assert word[0] == s[0] && IsIdentStart(s[0]);
    IdentSpanOf(word, rest);
    assert s[..|word|] == word && s[|word|..] == rest;
    SkipSpace(s);
    assert SkipSpaces(s) == s;
  }
}
