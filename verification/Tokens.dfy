/**
 Policy text as a sequence of tokens, and the proof that the grammar sees nothing else of
 it: white space between tokens, the two spellings of "not equal" and the case of keywords
 never change what a text means, whatever text it is.
 */
module Tokens {
  import opened PolicyAst
  import opened AsciiText
  import opened Builtins
  import opened Lexing
  import opened Grammar
  import Atoms

  /** Whether tokens keep the case of reserved words or forget it. */
  datatype WordCase = Kept | Forgotten

  /** "Not equal" is always the symbol `<>`, and a string is its value. */
  datatype Token =
    | Word(name: string)
    | Number(text: string)
    | Quote(value: string)
    | QuotedColumn(column: Expr)
    | Symbol(text: string)
    | Broken

  const RESERVED: set<string> :=
    {"and", "or", "not", "is", "in", "null", "like", "ilike", "true", "false"}

  function LowerText(s: string): (t: string)
    ensures |t| == |s|
  {
    seq(|s|, i requires 0 <= i < |s| => Lower(s[i]))
  }

  function Fold(w: WordCase, name: string): string {
    if w == Forgotten && LowerText(name) in RESERVED then LowerText(name) else name
  }

  function First(w: WordCase, d: Dialect, s: string): (r: (Token, string))
    requires s != ""
    ensures |r.1| < |s|
  {
    if IsIdentStart(s[0]) then (Word(Fold(w, s[..IdentSpan(s)])), s[IdentSpan(s)..])
    else if IsDigit(s[0]) then (Number(s[..NumberSpan(s, false)]), s[NumberSpan(s, false)..])
    else if s[0] == '\'' then
      match ScanString("", s[1..])
      case Ok(Lit(String(value)), rest) => (Quote(value), rest)
      case _ => (Broken, "")
    else if d.EmittedSql? && s[0] == '"' then
      match ParseQuoted(s[1..])
      case Ok(column, rest) => (QuotedColumn(column), rest)
      case Err(_) => (Broken, "")
    else if StartsWithText(s, "<=") then (Symbol("<="), s[2..])
    else if StartsWithText(s, ">=") then (Symbol(">="), s[2..])
    else if StartsWithText(s, "<>") || StartsWithText(s, "!=") then (Symbol("<>"), s[2..])
    else (Symbol([s[0]]), s[1..])
  }

  function Tokens(w: WordCase, d: Dialect, s: string): seq<Token>
    decreases |s|
  {
    var t := SkipSpaces(s);
    if t == "" then [] else [First(w, d, t).0] + Tokens(w, d, First(w, d, t).1)
  }

  /** The tree with the case of names that spell reserved words forgotten. */
  function Canon(w: WordCase, e: Expr): Expr {
    match e
    case Column(name) => Column(Fold(w, name))
    case QualifiedColumn(table, column) => QualifiedColumn(Fold(w, table), Fold(w, column))
    case Lit(_) => e
    case Binary(l, op, r) => Binary(Canon(w, l), op, Canon(w, r))
    case Unary(op, x) => Unary(op, Canon(w, x))
    case AuthBuiltin(name, args) => AuthBuiltin(Fold(w, name), CanonAll(w, args))
    case DomainBuiltin(domain, property, args) => DomainBuiltin(Fold(w, domain), Fold(w, property), CanonAll(w, args))
    case IsNull(x, negated) => IsNull(Canon(w, x), negated)
    case InList(x, list, negated) => InList(Canon(w, x), CanonAll(w, list), negated)
    case Subquery(_) => e
  }

  function CanonAll(w: WordCase, es: seq<Expr>): (r: seq<Expr>)
    ensures |r| == |es|
  {
    if es == [] then [] else CanonAll(w, es[..|es| - 1]) + [Canon(w, es[|es| - 1])]
  }

  predicate SameReading(w: WordCase, d: Dialect, r: Reading<Expr>, q: Reading<Expr>) {
    && r.Ok? == q.Ok?
    && (r.Ok? ==> Canon(w, r.value) == Canon(w, q.value) && Tokens(w, d, r.rest) == Tokens(w, d, q.rest))
  }

  predicate SameReadings(w: WordCase, d: Dialect, r: Reading<seq<Expr>>, q: Reading<seq<Expr>>) {
    && r.Ok? == q.Ok?
    && (r.Ok? ==> CanonAll(w, r.value) == CanonAll(w, q.value) && Tokens(w, d, r.rest) == Tokens(w, d, q.rest))
  }

  // What the grammar asks about the front of a text is settled by the first token.

  lemma SpaceSkipped(w: WordCase, d: Dialect, s: string)
    ensures Tokens(w, d, SkipSpaces(s)) == Tokens(w, d, s)
    ensures SkipSpaces(SkipSpaces(s)) == SkipSpaces(s)
  {
  }

  lemma FirstAlike(w: WordCase, d: Dialect, s: string, t: string)
    requires Tokens(w, d, s) == Tokens(w, d, t)
    ensures var u, v := SkipSpaces(s), SkipSpaces(t);
            && (u == "" <==> v == "")
            && Tokens(w, d, u) == Tokens(w, d, v)
            && SkipSpaces(u) == u && SkipSpaces(v) == v
            && (u != "" ==>
                  First(w, d, u).0 == First(w, d, v).0 &&
                  Tokens(w, d, First(w, d, u).1) == Tokens(w, d, First(w, d, v).1))
  {
    hide First;
    SpaceSkipped(w, d, s);
    SpaceSkipped(w, d, t);
    var u, v := SkipSpaces(s), SkipSpaces(t);
    if u != "" && v != "" {
      assert Tokens(w, d, s)[1..] == Tokens(w, d, First(w, d, u).1);
      assert Tokens(w, d, t)[1..] == Tokens(w, d, First(w, d, v).1);
    }
  }

  lemma LowerTextIff(a: string, b: string)
    ensures EqIgnoreCase(a, b) <==> LowerText(a) == LowerText(b)
  {
    if LowerText(a) == LowerText(b) {
      forall i | 0 <= i < |b|
        ensures Lower(a[i]) == Lower(b[i])
      {
        assert LowerText(a)[i] == LowerText(b)[i];
      }
    }
  }

  lemma LowerTwice(a: string)
    ensures LowerText(LowerText(a)) == LowerText(a)
  {
  }

  lemma SameFold(w: WordCase, a: string, b: string)
    requires Fold(w, a) == Fold(w, b)
    ensures LowerText(a) == LowerText(b)
    ensures forall c: string :: EqIgnoreCase(a, c) <==> EqIgnoreCase(b, c)
    ensures forall n: nat :: ValidateCall(a, n).Valid? <==> ValidateCall(b, n).Valid?
  {
    hide RESERVED;
    LowerTwice(a);
    LowerTwice(b);
    forall c: string
      ensures EqIgnoreCase(a, c) <==> EqIgnoreCase(b, c)
    {
      LowerTextIff(a, c);
      LowerTextIff(b, c);
    }
    if a != b {
      BuiltinsNotReserved(a);
      BuiltinsNotReserved(b);
    }
  }

  lemma ReservedStarts(word: string)
    requires word in RESERVED
    ensures 0 < |word| <= 5 && word[0] != 'r' && word[0] != 'e'
  {
  }

  lemma BuiltinsNotReserved(name: string)
    requires LowerText(name) in RESERVED
    ensures name !in BUILTIN_NAMES
  {
    hide RESERVED;
    ReservedStarts(LowerText(name));
    assert LowerText(name)[0] == Lower(name[0]);
    assert |name| <= 5 && name[0] != 'r' && name[0] != 'e';
  }

  /** A reserved word as the grammar spells it in keyword tests. */
  const KEYWORDS: set<string> :=
    {"AND", "OR", "NOT", "IS", "IN", "NULL", "LIKE", "ILIKE", "TRUE", "FALSE"}

  predicate Keyword(keyword: string) {
    keyword in KEYWORDS
  }

  lemma KeywordsReserved(keyword: string)
    requires Keyword(keyword)
    ensures IsIdent(keyword) && LowerText(keyword) in RESERVED
  {
    assert LowerText("AND") == "and" && LowerText("OR") == "or" && LowerText("NOT") == "not";
    assert LowerText("IS") == "is" && LowerText("IN") == "in" && LowerText("NULL") == "null";
    assert LowerText("LIKE") == "like" && LowerText("ILIKE") == "ilike";
    assert LowerText("TRUE") == "true" && LowerText("FALSE") == "false";
  }

  lemma KeywordToken(w: WordCase, d: Dialect, s: string, keyword: string)
    requires Keyword(keyword)
    ensures AtKeyword(s, keyword) <==>
              s != "" && First(w, d, s).0.Word? && LowerText(First(w, d, s).0.name) == LowerText(keyword)
    ensures AtKeyword(s, keyword) ==> |keyword| <= |s| && First(w, d, s).1 == s[|keyword|..]
  {
    hide RESERVED, LowerText, AtKeyword, Keyword;
    KeywordsReserved(keyword);
    if s == "" {
      assert !AtKeyword(s, keyword) by { NoKeywordInNothing(keyword); }
    } else if IsIdentStart(s[0]) {
      var n := IdentSpan(s);
      IdentSpanMaximal(s);
      assert s == s[..n] + s[n..];
      KeywordAtIdent(s[..n], s[n..], keyword);
      LowerTextIff(s[..n], keyword);
      LowerTwice(s[..n]);
    } else {
      assert IsIdentStart(keyword[0]);
      KeywordElsewhere(s, keyword, 0);
    }
  }

  predicate SameAt(w: WordCase, d: Dialect, s: string, t: string, keyword: string) {
    && AtKeyword(s, keyword) == AtKeyword(t, keyword)
    && (AtKeyword(s, keyword) ==>
      |keyword| <= |s| && |keyword| <= |t| && Tokens(w, d, s[|keyword|..]) == Tokens(w, d, t[|keyword|..]))
  }

  /** Texts with the same tokens have the same keywords in front. */
  lemma KeywordAlike(w: WordCase, d: Dialect, s: string, t: string)
    requires Tokens(w, d, s) == Tokens(w, d, t) && SkipSpaces(s) == s && SkipSpaces(t) == t
    ensures SameAt(w, d, s, t, "AND") && SameAt(w, d, s, t, "OR") && SameAt(w, d, s, t, "NOT")
    ensures SameAt(w, d, s, t, "IS") && SameAt(w, d, s, t, "IN") && SameAt(w, d, s, t, "NULL")
    ensures SameAt(w, d, s, t, "TRUE") && SameAt(w, d, s, t, "FALSE")
  {
    hide SameAt;
    forall keyword | Keyword(keyword)
      ensures SameAt(w, d, s, t, keyword)
    {
      SameKeyword(w, d, s, t, keyword);
    }
  }

  lemma SameKeyword(w: WordCase, d: Dialect, s: string, t: string, keyword: string)
    requires Keyword(keyword)
    requires Tokens(w, d, s) == Tokens(w, d, t) && SkipSpaces(s) == s && SkipSpaces(t) == t
    ensures SameAt(w, d, s, t, keyword)
  {
    hide Keyword, First, AtKeyword, LowerText, SkipSpaces;
    FirstAlike(w, d, s, t);
    KeywordToken(w, d, s, keyword);
    KeywordToken(w, d, t, keyword);
  }

  lemma NoKeywordInNothing(keyword: string)
    requires keyword != ""
    ensures !AtKeyword("", keyword)
  {
  }

  lemma SymbolToken(w: WordCase, d: Dialect, s: string, c: char)
    requires c in {'(', ')', ',', '.', '-'}
    ensures StartsWith(s, c) <==> s != "" && First(w, d, s).0 == Symbol([c])
    ensures StartsWith(s, c) ==> First(w, d, s).1 == s[1..]
  {
    hide IdentSpan, NumberSpan, ScanString, ParseQuoted, Fold;
    if s != "" && First(w, d, s).0 == Symbol([c]) {
      assert First(w, d, s).0.text[0] == c;
    }
  }

  lemma OperatorAlike(w: WordCase, d: Dialect, s: string, t: string)
    requires Tokens(w, d, s) == Tokens(w, d, t) && SkipSpaces(s) == s && SkipSpaces(t) == t
    ensures var a, b := ComparisonAt(s), ComparisonAt(t);
            && a.Present? == b.Present?
            && (a.Present? ==> a.op == b.op && Tokens(w, d, s[a.width..]) == Tokens(w, d, t[b.width..]))
  {
    hide First, AtKeyword, Tokens, SkipSpaces, ComparisonAt, OperatorOf;
    FirstAlike(w, d, s, t);
    if s == "" {
      assert ComparisonAt("") == Absent by { NoOperatorInNothing(); }
    } else {
      SpelledOperator(w, d, s);
      SpelledOperator(w, d, t);
    }
  }

  lemma NoOperatorInNothing()
    ensures ComparisonAt("") == Absent
  {
  }

  /** The operator that a token spells. */
  function OperatorOf(token: Token): Comparison {
    match token
    case Symbol("<=") => Present(LtEq, 2)
    case Symbol(">=") => Present(GtEq, 2)
    case Symbol("<>") => Present(NotEq, 2)
    case Symbol("=") => Present(Eq, 1)
    case Symbol("<") => Present(Lt, 1)
    case Symbol(">") => Present(Gt, 1)
    case Word(name) =>
      if LowerText(name) == "like" then Present(Like, 4)
      else if LowerText(name) == "ilike" then Present(ILike, 5)
      else Absent
    case _ => Absent
  }

  lemma SpelledOperator(w: WordCase, d: Dialect, s: string)
    requires s != ""
    ensures ComparisonAt(s) == OperatorOf(First(w, d, s).0)
    ensures ComparisonAt(s).Present? ==> First(w, d, s).1 == s[ComparisonAt(s).width..]
  {
    hide AtKeyword, IdentSpan, NumberSpan, ScanString, ParseQuoted, RESERVED, LowerText;
    KeywordToken(w, d, s, "LIKE");
    KeywordToken(w, d, s, "ILIKE");
    assert LowerText("LIKE") == "like" && LowerText("ILIKE") == "ilike" by { LowerLikes(); }
  }

  lemma LowerLikes()
    ensures LowerText("LIKE") == "like" && LowerText("ILIKE") == "ilike"
  {
  }

  lemma CanonPush(w: WordCase, es: seq<Expr>, e: Expr)
    ensures CanonAll(w, es + [e]) == CanonAll(w, es) + [Canon(w, e)]
  {
    assert (es + [e])[..|es|] == es;
  }

  lemma CanonBinary(w: WordCase, l: Expr, m: Expr, op: BinaryOp, x: Expr, y: Expr)
    requires Canon(w, l) == Canon(w, m) && Canon(w, x) == Canon(w, y)
    ensures Canon(w, Binary(l, op, x)) == Canon(w, Binary(m, op, y))
  {
  }

  // Texts with the same tokens are read alike by every function of the grammar.

  lemma {:induction false} OrAlike(w: WordCase, d: Dialect, s: string, t: string)
    requires Tokens(w, d, s) == Tokens(w, d, t)
    ensures SameReading(w, d, ParseOr(d, s), ParseOr(d, t))
    decreases |s|, 7
  {
    hide ParseAnd, OrLoop, Tokens, Canon;
    AndAlike(w, d, s, t);
    var a, b := ParseAnd(d, s), ParseAnd(d, t);
    if a.Ok? {
      OrLoopAlike(w, d, a.value, b.value, a.rest, b.rest);
    }
  }

  lemma {:induction false} OrLoopAlike(w: WordCase, d: Dialect, l: Expr, m: Expr, s: string, t: string)
    requires Canon(w, l) == Canon(w, m) && Tokens(w, d, s) == Tokens(w, d, t)
    ensures SameReading(w, d, OrLoop(d, l, s), OrLoop(d, m, t))
    decreases |s|, 8
  {
    hide ParseAnd, Tokens, First, AtKeyword, SkipSpaces, Canon;
    FirstAlike(w, d, s, t);
    var u, v := SkipSpaces(s), SkipSpaces(t);
    KeywordAlike(w, d, u, v);
    if AtKeyword(u, "OR") {
      AndAlike(w, d, u[2..], v[2..]);
      var a, b := ParseAnd(d, u[2..]), ParseAnd(d, v[2..]);
      if a.Ok? {
        CanonBinary(w, l, m, Or, a.value, b.value);
        OrLoopAlike(w, d, Binary(l, Or, a.value), Binary(m, Or, b.value), a.rest, b.rest);
      }
    }
  }

  lemma {:induction false} AndAlike(w: WordCase, d: Dialect, s: string, t: string)
    requires Tokens(w, d, s) == Tokens(w, d, t)
    ensures SameReading(w, d, ParseAnd(d, s), ParseAnd(d, t))
    decreases |s|, 6
  {
    hide ParseNot, AndLoop, Tokens, Canon;
    NotAlike(w, d, s, t);
    var a, b := ParseNot(d, s), ParseNot(d, t);
    if a.Ok? {
      AndLoopAlike(w, d, a.value, b.value, a.rest, b.rest);
    }
  }

  lemma {:induction false} AndLoopAlike(w: WordCase, d: Dialect, l: Expr, m: Expr, s: string, t: string)
    requires Canon(w, l) == Canon(w, m) && Tokens(w, d, s) == Tokens(w, d, t)
    ensures SameReading(w, d, AndLoop(d, l, s), AndLoop(d, m, t))
    decreases |s|, 8
  {
    hide ParseNot, Tokens, First, AtKeyword, SkipSpaces, Canon;
    FirstAlike(w, d, s, t);
    var u, v := SkipSpaces(s), SkipSpaces(t);
    KeywordAlike(w, d, u, v);
    if AtKeyword(u, "AND") {
      NotAlike(w, d, u[3..], v[3..]);
      var a, b := ParseNot(d, u[3..]), ParseNot(d, v[3..]);
      if a.Ok? {
        CanonBinary(w, l, m, And, a.value, b.value);
        AndLoopAlike(w, d, Binary(l, And, a.value), Binary(m, And, b.value), a.rest, b.rest);
      }
    }
  }

  lemma {:induction false} NotAlike(w: WordCase, d: Dialect, s: string, t: string)
    requires Tokens(w, d, s) == Tokens(w, d, t)
    ensures SameReading(w, d, ParseNot(d, s), ParseNot(d, t))
    decreases |s|, 5
  {
    hide ParseComparison, Tokens, First, AtKeyword, SkipSpaces;
    FirstAlike(w, d, s, t);
    var u, v := SkipSpaces(s), SkipSpaces(t);
    KeywordAlike(w, d, u, v);
    if AtKeyword(u, "NOT") {
      NotAlike(w, d, u[3..], v[3..]);
    } else {
      ComparisonAlike(w, d, u, v);
    }
  }

  lemma {:induction false} ComparisonAlike(w: WordCase, d: Dialect, s: string, t: string)
    requires Tokens(w, d, s) == Tokens(w, d, t)
    ensures SameReading(w, d, ParseComparison(d, s), ParseComparison(d, t))
    decreases |s|, 4
  {
    hide ParsePrimary, AfterPrimary, Tokens, Canon;
    PrimaryAlike(w, d, s, t);
    var a, b := ParsePrimary(d, s), ParsePrimary(d, t);
    if a.Ok? {
      AfterAlike(w, d, a.value, b.value, a.rest, b.rest);
    }
  }

  /** What the grammar does after a left operand and an optional NOT. */
  function AfterNot(d: Dialect, l: Expr, u: string, negated: bool): Reading<Expr> {
    if AtKeyword(u, "IN") then
      var (list, rest) :- ParseList(d, u[2..]);
      Ok(InList(l, list, negated), rest)
    else if negated then Err(UnexpectedToken("expected IN after NOT"))
    else AfterLeft(d, l, u)
  }

  lemma AfterIsOrNot(d: Dialect, l: Expr, s: string)
    ensures var u := SkipSpaces(s);
            AfterPrimary(d, l, s) ==
              if AtKeyword(u, "IS") then AfterIs(l, u[2..])
              else if AtKeyword(u, "NOT") then AfterNot(d, l, SkipSpaces(u[3..]), true)
              else AfterNot(d, l, u, false)
  {
    hide ParseList, AfterIs, AfterLeft, AtKeyword, SkipSpaces;
  }

  lemma {:induction false} AfterAlike(w: WordCase, d: Dialect, l: Expr, m: Expr, s: string, t: string)
    requires Canon(w, l) == Canon(w, m) && Tokens(w, d, s) == Tokens(w, d, t)
    ensures SameReading(w, d, AfterPrimary(d, l, s), AfterPrimary(d, m, t))
    decreases |s|, 5
  {
    hide AfterPrimary, AfterNot, AfterIs, Tokens, First, AtKeyword, SkipSpaces, Canon, SameReading;
    FirstAlike(w, d, s, t);
    var u, v := SkipSpaces(s), SkipSpaces(t);
    assert SameAt(w, d, u, v, "IS") && SameAt(w, d, u, v, "NOT") by { KeywordAlike(w, d, u, v); }
    AfterIsOrNot(d, l, s);
    AfterIsOrNot(d, m, t);
    if AtKeyword(u, "IS") {
      IsAlike(w, d, l, m, u[2..], v[2..]);
    } else if AtKeyword(u, "NOT") {
      FirstAlike(w, d, u[3..], v[3..]);
      AfterNotAlike(w, d, l, m, SkipSpaces(u[3..]), SkipSpaces(v[3..]), true);
    } else {
      AfterNotAlike(w, d, l, m, u, v, false);
    }
  }

  lemma {:induction false} AfterNotAlike(w: WordCase, d: Dialect, l: Expr, m: Expr, u: string, v: string, negated: bool)
    requires Canon(w, l) == Canon(w, m)
    requires Tokens(w, d, u) == Tokens(w, d, v) && SkipSpaces(u) == u && SkipSpaces(v) == v
    ensures SameReading(w, d, AfterNot(d, l, u, negated), AfterNot(d, m, v, negated))
    decreases |u|, 4, 1
  {
    hide ParseList, AfterLeft, Tokens, First, AtKeyword, SkipSpaces, Canon;
    assert SameAt(w, d, u, v, "IN") by { KeywordAlike(w, d, u, v); }
    if AtKeyword(u, "IN") {
      ListAlike(w, d, u[2..], v[2..]);
      var a, b := ParseList(d, u[2..]), ParseList(d, v[2..]);
      if a.Ok? {
        CanonList(w, l, m, a.value, b.value, negated);
      }
    } else if !negated {
      LeftAlike(w, d, l, m, u, v);
    }
  }

  lemma CanonList(w: WordCase, l: Expr, m: Expr, xs: seq<Expr>, ys: seq<Expr>, negated: bool)
    requires Canon(w, l) == Canon(w, m) && CanonAll(w, xs) == CanonAll(w, ys)
    ensures Canon(w, InList(l, xs, negated)) == Canon(w, InList(m, ys, negated))
  {
  }

  /** What the grammar does after IS and an optional NOT. */
  function NullAfter(l: Expr, x: string, negated: bool): Reading<Expr> {
    if AtKeyword(x, "NULL") then Ok(IsNull(l, negated), x[4..]) else Err(UnexpectedToken("expected NULL"))
  }

  lemma NullOrNotNull(l: Expr, s: string)
    ensures var u := SkipSpaces(s);
            AfterIs(l, s) ==
              if AtKeyword(u, "NOT") then NullAfter(l, SkipSpaces(u[3..]), true) else NullAfter(l, u, false)
  {
    hide AtKeyword, SkipSpaces;
  }

  lemma IsAlike(w: WordCase, d: Dialect, l: Expr, m: Expr, s: string, t: string)
    requires Canon(w, l) == Canon(w, m) && Tokens(w, d, s) == Tokens(w, d, t)
    ensures SameReading(w, d, AfterIs(l, s), AfterIs(m, t))
  {
    hide Tokens, First, AtKeyword, SkipSpaces, Canon, AfterIs, NullAfter, SameReading;
    FirstAlike(w, d, s, t);
    var u, v := SkipSpaces(s), SkipSpaces(t);
    assert SameAt(w, d, u, v, "NOT") by { KeywordAlike(w, d, u, v); }
    NullOrNotNull(l, s);
    NullOrNotNull(m, t);
    if AtKeyword(u, "NOT") {
      FirstAlike(w, d, u[3..], v[3..]);
      NullAlike(w, d, l, m, SkipSpaces(u[3..]), SkipSpaces(v[3..]), true);
    } else {
      NullAlike(w, d, l, m, u, v, false);
    }
  }

  lemma NullAlike(w: WordCase, d: Dialect, l: Expr, m: Expr, x: string, y: string, negated: bool)
    requires Canon(w, l) == Canon(w, m)
    requires Tokens(w, d, x) == Tokens(w, d, y) && SkipSpaces(x) == x && SkipSpaces(y) == y
    ensures SameReading(w, d, NullAfter(l, x, negated), NullAfter(m, y, negated))
  {
    hide Tokens, First, AtKeyword, SkipSpaces, Canon;
    assert SameAt(w, d, x, y, "NULL") by { KeywordAlike(w, d, x, y); }
    CanonNull(w, l, m, negated);
  }

  lemma CanonNull(w: WordCase, l: Expr, m: Expr, negated: bool)
    requires Canon(w, l) == Canon(w, m)
    ensures Canon(w, IsNull(l, negated)) == Canon(w, IsNull(m, negated))
  {
  }

  lemma {:induction false} LeftAlike(w: WordCase, d: Dialect, l: Expr, m: Expr, s: string, t: string)
    requires Canon(w, l) == Canon(w, m) && Tokens(w, d, s) == Tokens(w, d, t)
    ensures SameReading(w, d, AfterLeft(d, l, s), AfterLeft(d, m, t))
    decreases |s|, 4, 0
  {
    hide ParsePrimary, Tokens, First, ComparisonAt, SkipSpaces, Canon;
    FirstAlike(w, d, s, t);
    var u, v := SkipSpaces(s), SkipSpaces(t);
    OperatorAlike(w, d, u, v);
    if ComparisonAt(u).Present? {
      RightAlike(w, d, l, m, ComparisonAt(u).op, u[ComparisonAt(u).width..], v[ComparisonAt(v).width..]);
    }
  }

  /** The right operand of a comparison, joined to its left one. */
  function WithRight(d: Dialect, l: Expr, op: BinaryOp, x: string): Reading<Expr> {
    var (right, rest) :- ParsePrimary(d, x);
    Ok(Binary(l, op, right), rest)
  }

  lemma {:induction false} RightAlike(w: WordCase, d: Dialect, l: Expr, m: Expr, op: BinaryOp, x: string, y: string)
    requires Canon(w, l) == Canon(w, m) && Tokens(w, d, x) == Tokens(w, d, y)
    ensures SameReading(w, d, WithRight(d, l, op, x), WithRight(d, m, op, y))
    decreases |x|, 4
  {
    hide ParsePrimary, Tokens, Canon;
    PrimaryAlike(w, d, x, y);
    var a, b := ParsePrimary(d, x), ParsePrimary(d, y);
    if a.Ok? {
      CanonBinary(w, l, m, op, a.value, b.value);
    }
  }

  lemma {:induction false} PrimaryAlike(w: WordCase, d: Dialect, s: string, t: string)
    requires Tokens(w, d, s) == Tokens(w, d, t)
    ensures SameReading(w, d, ParsePrimary(d, s), ParsePrimary(d, t))
    decreases |s|, 3
  {
    hide ParseOr, Tokens, First, SkipSpaces, ScanString, ParseNumber, ParseQuoted, ParseWord;
    FirstAlike(w, d, s, t);
    var u, v := SkipSpaces(s), SkipSpaces(t);
    SymbolToken(w, d, u, '(');
    SymbolToken(w, d, v, '(');
    SymbolToken(w, d, u, '-');
    SymbolToken(w, d, v, '-');
    if StartsWith(u, '(') {
      OrAlike(w, d, u[1..], v[1..]);
      var a, b := ParseOr(d, u[1..]), ParseOr(d, v[1..]);
      if a.Ok? {
        FirstAlike(w, d, a.rest, b.rest);
        SymbolToken(w, d, SkipSpaces(a.rest), ')');
        SymbolToken(w, d, SkipSpaces(b.rest), ')');
      }
    } else if StartsWith(u, '-') {
      PrimaryAlike(w, d, u[1..], v[1..]);
    } else {
      LeafAlike(w, d, u, v);
    }
  }

  /** Literals, quoted columns, words, and whatever else cannot start an expression. */
  lemma {:induction false} LeafAlike(w: WordCase, d: Dialect, u: string, v: string)
    requires Tokens(w, d, u) == Tokens(w, d, v) && SkipSpaces(u) == u && SkipSpaces(v) == v
    requires !StartsWith(u, '(') && !StartsWith(u, '-') && !StartsWith(v, '(') && !StartsWith(v, '-')
    ensures SameReading(w, d, ParsePrimary(d, u), ParsePrimary(d, v))
    decreases |u|, 2
  {
    hide ParseOr, Tokens, First, SkipSpaces, ScanString, ParseNumber, ParseQuoted, ParseWord;
    FirstAlike(w, d, u, v);
    if u == "" {
    } else {
      var token := First(w, d, u).0;
      TokenKind(w, d, u);
      TokenKind(w, d, v);
      if token.Word? {
        WordAlike(w, d, u, v);
      } else if token.Number? {
        NumberReading(w, d, u);
        NumberReading(w, d, v);
      } else if token.Quote? || token.QuotedColumn? {
      } else {
        NoPrimary(w, d, u);
        NoPrimary(w, d, v);
      }
    }
  }

  lemma TokenKind(w: WordCase, d: Dialect, s: string)
    requires s != "" && SkipSpaces(s) == s && !StartsWith(s, '(') && !StartsWith(s, '-')
    ensures var t := First(w, d, s).0;
            && (t.Word? <==> IsIdentStart(s[0]))
            && (t.Number? <==> IsDigit(s[0]))
            && (t.Quote? ==> ParsePrimary(d, s) == Ok(Lit(String(t.value)), First(w, d, s).1))
            && (t.QuotedColumn? ==> ParsePrimary(d, s) == Ok(t.column, First(w, d, s).1))
  {
    hide ParseOr, IdentSpan, NumberSpan, ScanString, ParseNumber, ParseQuoted, ParseWord, Fold, StartsWithText;
  }

  lemma NumberReading(w: WordCase, d: Dialect, s: string)
    requires s != "" && IsDigit(s[0])
    ensures First(w, d, s).0 == Number(s[..NumberSpan(s, false)])
    ensures ParsePrimary(d, s) == NumberFrom(s[..NumberSpan(s, false)], First(w, d, s).1)
  {
    hide ParseOr, NumberSpan, ScanString, ParseQuoted, ParseWord, NumeralValue;
    assert SkipSpaces(s) == s;
  }

  /** The reading of a number, from its text and the text after it. */
  function NumberFrom(text: string, rest: string): Reading<Expr>
    requires '.' in text || AllDigits(text)
  {
    if '.' in text then Ok(Lit(Float(text)), rest)
    else if NumeralValue(text) <= MAX_I64 then Ok(Lit(Int(NumeralValue(text))), rest)
    else Err(InvalidNumber(text))
  }

  lemma NoPrimary(w: WordCase, d: Dialect, s: string)
    requires s != "" && SkipSpaces(s) == s && !StartsWith(s, '(') && !StartsWith(s, '-')
    requires First(w, d, s).0.Symbol? || First(w, d, s).0.Broken?
    ensures ParsePrimary(d, s).Err?
  {
    hide ParseOr, IdentSpan, NumberSpan, ScanString, ParseNumber, ParseQuoted, Fold, StartsWithText;
    if s[0] == '\'' {
      ScansText("", s[1..]);
      assert ScanString("", s[1..]).Err?;
    } else if IsDigit(s[0]) || IsIdentStart(s[0]) {
      assert false;
    } else if !(d.EmittedSql? && s[0] == '"') {
      NoWord(d, s);
    }
  }

  lemma NoWord(d: Dialect, s: string)
    requires s != "" && SkipSpaces(s) == s && !IsIdentStart(s[0])
    ensures ParseWord(d, s).Err?
  {
    hide ParseQualified, ParseArgs, AtKeyword;
    KeywordElsewhere(s, "TRUE", 0);
    KeywordElsewhere(s, "FALSE", 0);
    KeywordElsewhere(s, "NULL", 0);
    assert ParseIdent(s).Err?;
  }

  lemma {:induction false} ScansText(value: string, s: string)
    ensures var r := ScanString(value, s); r.Ok? ==> r.value.Lit? && r.value.lit.String?
    decreases |s|
  {
    if s != "" {
      if s[0] != '\'' {
        ScansText(value + [s[0]], s[1..]);
      } else if StartsWith(s[1..], '\'') {
        ScansText(value + "'", s[2..]);
      }
    }
  }

  lemma {:induction false} WordAlike(w: WordCase, d: Dialect, u: string, v: string)
    requires Tokens(w, d, u) == Tokens(w, d, v) && SkipSpaces(u) == u && SkipSpaces(v) == v
    requires u != "" && v != "" && IsIdentStart(u[0]) && IsIdentStart(v[0])
    ensures SameReading(w, d, ParsePrimary(d, u), ParsePrimary(d, v))
    decreases |u|, 1, 1
  {
    hide ParsePrimary, ParseIdentOrCall, Tokens, First, SkipSpaces, AtKeyword;
    FirstAlike(w, d, u, v);
    Atoms.WordFirst(d, u);
    Atoms.WordFirst(d, v);
    KeywordAlike(w, d, u, v);
    CallAlike(w, d, u, v);
  }

  lemma IdentAlike(w: WordCase, d: Dialect, s: string, t: string)
    requires Tokens(w, d, s) == Tokens(w, d, t)
    ensures var a, b := ParseIdent(s), ParseIdent(t);
            && a.Ok? == b.Ok?
            && (a.Ok? ==> Fold(w, a.value) == Fold(w, b.value) && Tokens(w, d, a.rest) == Tokens(w, d, b.rest))
  {
    hide Tokens, SkipSpaces, IdentSpan, NumberSpan, ScanString, ParseQuoted, Fold, StartsWithText;
    FirstAlike(w, d, s, t);
  }

  lemma {:induction false} CallAlike(w: WordCase, d: Dialect, s: string, t: string)
    requires Tokens(w, d, s) == Tokens(w, d, t)
    ensures SameReading(w, d, ParseIdentOrCall(d, s), ParseIdentOrCall(d, t))
    decreases |s|, 1, 0
  {
    hide ParseIdent, ParseArgs, ParseQualified, Tokens, First, SkipSpaces, Fold;
    IdentAlike(w, d, s, t);
    var a, b := ParseIdent(s), ParseIdent(t);
    if a.Ok? {
      FirstAlike(w, d, a.rest, b.rest);
      var u, v := SkipSpaces(a.rest), SkipSpaces(b.rest);
      SymbolToken(w, d, u, '.');
      SymbolToken(w, d, v, '.');
      SymbolToken(w, d, u, '(');
      SymbolToken(w, d, v, '(');
      if StartsWith(u, '.') {
        QualifiedAlike(w, d, a.value, b.value, u[1..], v[1..]);
      } else if StartsWith(u, '(') {
        ArgsAlike(w, d, u[1..], v[1..]);
      }
    }
  }

  lemma CanonNamed(w: WordCase, f: string, g: string, a: string, b: string, xs: seq<Expr>, ys: seq<Expr>)
    requires Fold(w, f) == Fold(w, g) && Fold(w, a) == Fold(w, b) && CanonAll(w, xs) == CanonAll(w, ys)
    ensures Canon(w, QualifiedColumn(f, a)) == Canon(w, QualifiedColumn(g, b))
    ensures Canon(w, DomainBuiltin(f, a, xs)) == Canon(w, DomainBuiltin(g, b, ys))
    ensures Canon(w, AuthBuiltin(a, xs)) == Canon(w, AuthBuiltin(b, ys))
  {
  }

  lemma SameQualifier(w: WordCase, f: string, g: string)
    requires Fold(w, f) == Fold(w, g)
    ensures IsAuth(f) == IsAuth(g) && IsDomain(f) == IsDomain(g)
  {
    hide Fold, EqIgnoreCase;
    SameFold(w, f, g);
  }

  lemma {:induction false} QualifiedAlike(w: WordCase, d: Dialect, f: string, g: string, s: string, t: string)
    requires Fold(w, f) == Fold(w, g) && Tokens(w, d, s) == Tokens(w, d, t)
    ensures SameReading(w, d, ParseQualified(d, f, s), ParseQualified(d, g, t))
    decreases |s|, 1
  {
    hide ParseIdent, ParseArgs, Tokens, First, SkipSpaces, Fold, ValidateCall, EqIgnoreCase, IsAuth, IsDomain;
    hide Canon, CanonAll;
    IdentAlike(w, d, s, t);
    SameQualifier(w, f, g);
    var a, b := ParseIdent(s), ParseIdent(t);
    if a.Ok? {
      assert forall n: nat :: ValidateCall(a.value, n).Valid? <==> ValidateCall(b.value, n).Valid? by {
        SameFold(w, a.value, b.value);
      }
      FirstAlike(w, d, a.rest, b.rest);
      var u, v := SkipSpaces(a.rest), SkipSpaces(b.rest);
      SymbolToken(w, d, u, '(');
      SymbolToken(w, d, v, '(');
      SymbolToken(w, d, u, '.');
      SymbolToken(w, d, v, '.');
      CanonNamed(w, f, g, a.value, b.value, [], []);
      if StartsWith(u, '(') {
        ArgsAlike(w, d, u[1..], v[1..]);
        var xs, ys := ParseArgs(d, u[1..]), ParseArgs(d, v[1..]);
        if xs.Ok? {
          SameLength(w, xs.value, ys.value);
          CanonNamed(w, f, g, a.value, b.value, xs.value, ys.value);
        }
      } else if StartsWith(u, '.') {
        IdentAlike(w, d, u[1..], v[1..]);
      }
    }
  }

  lemma SameLength(w: WordCase, xs: seq<Expr>, ys: seq<Expr>)
    requires CanonAll(w, xs) == CanonAll(w, ys)
    ensures |xs| == |ys|
  {
    assert |CanonAll(w, xs)| == |xs| && |CanonAll(w, ys)| == |ys|;
  }

  lemma {:induction false} ArgsAlike(w: WordCase, d: Dialect, s: string, t: string)
    requires Tokens(w, d, s) == Tokens(w, d, t)
    ensures SameReadings(w, d, ParseArgs(d, s), ParseArgs(d, t))
    decreases |s|, 9
  {
    hide ArgsLoop, Tokens, First, SkipSpaces;
    FirstAlike(w, d, s, t);
    SymbolToken(w, d, SkipSpaces(s), ')');
    SymbolToken(w, d, SkipSpaces(t), ')');
    ArgsLoopAlike(w, d, [], [], SkipSpaces(s), SkipSpaces(t));
  }

  lemma {:induction false} ArgsLoopAlike(w: WordCase, d: Dialect, xs: seq<Expr>, ys: seq<Expr>, s: string, t: string)
    requires CanonAll(w, xs) == CanonAll(w, ys) && Tokens(w, d, s) == Tokens(w, d, t)
    ensures SameReadings(w, d, ArgsLoop(d, xs, s), ArgsLoop(d, ys, t))
    decreases |s|, 8
  {
    hide ParseOr, Tokens, First, SkipSpaces, ArgsNext;
    OrAlike(w, d, s, t);
    var a, b := ParseOr(d, s), ParseOr(d, t);
    if a.Ok? {
      CanonPush(w, xs, a.value);
      CanonPush(w, ys, b.value);
      ArgsNextAlike(w, d, xs + [a.value], ys + [b.value], a.rest, b.rest);
    }
  }

  lemma {:induction false} ArgsNextAlike(w: WordCase, d: Dialect, xs: seq<Expr>, ys: seq<Expr>, s: string, t: string)
    requires CanonAll(w, xs) == CanonAll(w, ys) && Tokens(w, d, s) == Tokens(w, d, t)
    ensures SameReadings(w, d, ArgsNext(d, xs, s), ArgsNext(d, ys, t))
    decreases |s|, 8
  {
    hide ArgsLoop, Tokens, First, SkipSpaces;
    FirstAlike(w, d, s, t);
    var u, v := SkipSpaces(s), SkipSpaces(t);
    SymbolToken(w, d, u, ')');
    SymbolToken(w, d, v, ')');
    SymbolToken(w, d, u, ',');
    SymbolToken(w, d, v, ',');
    if StartsWith(u, ',') {
      ArgsLoopAlike(w, d, xs, ys, u[1..], v[1..]);
    }
  }

  lemma {:induction false} ListAlike(w: WordCase, d: Dialect, s: string, t: string)
    requires Tokens(w, d, s) == Tokens(w, d, t)
    ensures SameReadings(w, d, ParseList(d, s), ParseList(d, t))
    decreases |s|, 9
  {
    hide ListLoop, Tokens, First, SkipSpaces;
    FirstAlike(w, d, s, t);
    var u, v := SkipSpaces(s), SkipSpaces(t);
    SymbolToken(w, d, u, '(');
    SymbolToken(w, d, v, '(');
    if StartsWith(u, '(') {
      FirstAlike(w, d, u[1..], v[1..]);
      var x, y := SkipSpaces(u[1..]), SkipSpaces(v[1..]);
      SymbolToken(w, d, x, ')');
      SymbolToken(w, d, y, ')');
      ListLoopAlike(w, d, [], [], x, y);
    }
  }

  lemma {:induction false} ListLoopAlike(w: WordCase, d: Dialect, xs: seq<Expr>, ys: seq<Expr>, s: string, t: string)
    requires CanonAll(w, xs) == CanonAll(w, ys) && Tokens(w, d, s) == Tokens(w, d, t)
    ensures SameReadings(w, d, ListLoop(d, xs, s), ListLoop(d, ys, t))
    decreases |s|, 8
  {
    hide ParsePrimary, Tokens, First, SkipSpaces, ListNext;
    PrimaryAlike(w, d, s, t);
    var a, b := ParsePrimary(d, s), ParsePrimary(d, t);
    if a.Ok? {
      CanonPush(w, xs, a.value);
      CanonPush(w, ys, b.value);
      ListNextAlike(w, d, xs + [a.value], ys + [b.value], a.rest, b.rest);
    }
  }

  lemma {:induction false} ListNextAlike(w: WordCase, d: Dialect, xs: seq<Expr>, ys: seq<Expr>, s: string, t: string)
    requires CanonAll(w, xs) == CanonAll(w, ys) && Tokens(w, d, s) == Tokens(w, d, t)
    ensures SameReadings(w, d, ListNext(d, xs, s), ListNext(d, ys, t))
    decreases |s|, 8
  {
    hide ListLoop, Tokens, First, SkipSpaces;
    FirstAlike(w, d, s, t);
    var u, v := SkipSpaces(s), SkipSpaces(t);
    SymbolToken(w, d, u, ')');
    SymbolToken(w, d, v, ')');
    SymbolToken(w, d, u, ',');
    SymbolToken(w, d, v, ',');
    if StartsWith(u, ',') {
      ListLoopAlike(w, d, xs, ys, u[1..], v[1..]);
    }
  }

  /** A text means what its tokens say: same tokens, same tree up to the case of reserved words used as names. */
  lemma TokensDecide(w: WordCase, d: Dialect, s: string, t: string)
    requires Tokens(w, d, s) == Tokens(w, d, t)
    ensures Parse(d, s).Success? <==> Parse(d, t).Success?
    ensures Parse(d, s).Success? ==> Canon(w, Parse(d, s).expr) == Canon(w, Parse(d, t).expr)
  {
    hide ParseOr, Tokens, SkipSpaces;
    OrAlike(w, d, s, t);
    if ParseOr(d, s).Ok? {
      FirstAlike(w, d, ParseOr(d, s).rest, ParseOr(d, t).rest);
    }
  }
}
