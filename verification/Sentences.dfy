/**
 The policy language as a grammar of its own: which sequences of tokens are sentences, and
 for which tree. The parser is proved to accept exactly these sentences.
 */
module Sentences {
  import opened PolicyAst
  import opened AsciiText
  import opened Builtins
  import opened Lexing
  import opened Grammar
  import opened Tokens
  import Atoms
  import Forms

  /** A word of small letters, in any case. */
  predicate Says(t: Token, word: string) {
    t.Word? && LowerText(t.name) == word
  }

  predicate SaysFirst(ts: seq<Token>, word: string) {
    ts != [] && Says(ts[0], word)
  }

  predicate Marked(ts: seq<Token>, mark: string) {
    ts != [] && ts[0] == Symbol(mark)
  }

  /** The comparison operators as tokens. */
  predicate IsSign(t: Token, op: BinaryOp) {
    match op
    case Eq => t == Symbol("=")
    case NotEq => t == Symbol("<>")
    case Lt => t == Symbol("<")
    case LtEq => t == Symbol("<=")
    case Gt => t == Symbol(">")
    case GtEq => t == Symbol(">=")
    case Like => Says(t, "like")
    case ILike => Says(t, "ilike")
    case And => false
    case Or => false
  }

  /** A conjunction, or a disjunction, OR and a conjunction. */
  predicate Disjunction(ts: seq<Token>, e: Expr)
    decreases |ts|, 7
  {
    Conjunction(ts, e) || exists i | 0 <= i < |ts| :: OrAt(ts, e, i)
  }

  predicate OrAt(ts: seq<Token>, e: Expr, i: nat)
    requires i < |ts|
    decreases |ts|, 6
  {
    && e.Binary? && e.op == Or && Says(ts[i], "or")
    && Disjunction(ts[..i], e.left) && Conjunction(ts[i + 1..], e.right)
  }

  predicate Conjunction(ts: seq<Token>, e: Expr)
    decreases |ts|, 5
  {
    Negation(ts, e) || exists i | 0 <= i < |ts| :: AndAt(ts, e, i)
  }

  predicate AndAt(ts: seq<Token>, e: Expr, i: nat)
    requires i < |ts|
    decreases |ts|, 4
  {
    && e.Binary? && e.op == And && Says(ts[i], "and")
    && Conjunction(ts[..i], e.left) && Negation(ts[i + 1..], e.right)
  }

  /** Any number of NOT before a test. */
  predicate Negation(ts: seq<Token>, e: Expr)
    decreases |ts|, 4
  {
    if SaysFirst(ts, "not") then e.Unary? && e.uop == Not && Negation(ts[1..], e.operand)
    else Test(ts, e)
  }

  /** A primary alone, with a null test, with a list, or two of them with a sign between. */
  predicate Test(ts: seq<Token>, e: Expr)
    decreases |ts|, 3
  {
    || Primary(ts, e)
    || exists i | 0 <= i < |ts| :: TestAt(ts, e, i)
  }

  predicate TestAt(ts: seq<Token>, e: Expr, i: nat)
    requires i < |ts|
    decreases |ts|, 2
  {
    match e
    case IsNull(x, negated) => Primary(ts[..i], x) && NullTest(ts[i..], negated)
    case InList(x, list, false) => Primary(ts[..i], x) && Says(ts[i], "in") && Items(ts[i + 1..], list)
    case InList(x, list, true) =>
      && Primary(ts[..i], x) && Says(ts[i], "not")
      && i + 1 < |ts| && Says(ts[i + 1], "in") && Items(ts[i + 2..], list)
    case Binary(l, op, r) => Primary(ts[..i], l) && IsSign(ts[i], op) && Primary(ts[i + 1..], r)
    case _ => false
  }

  predicate NullTest(ts: seq<Token>, negated: bool) {
    if negated then |ts| == 3 && Says(ts[0], "is") && Says(ts[1], "not") && Says(ts[2], "null")
    else |ts| == 2 && Says(ts[0], "is") && Says(ts[1], "null")
  }

  predicate Primary(ts: seq<Token>, e: Expr)
    decreases |ts|, 1
  {
    ts != [] &&
    match ts[0]
    case Symbol(mark) =>
      if mark == "(" then |ts| > 1 && ts[|ts| - 1] == Symbol(")") && Disjunction(ts[1..|ts| - 1], e)
      else mark == "-" && e.Unary? && e.uop == Minus && Primary(ts[1..], e.operand)
    case Number(text) => |ts| == 1 && NumberIs(text, e)
    case Quote(value) => |ts| == 1 && e == Lit(String(value))
    case QuotedColumn(column) => |ts| == 1 && e == column
    case Word(name) => WordForm(ts, name, e)
    case Broken => false
  }

  predicate NumberIs(text: string, e: Expr) {
    if '.' in text then e == Lit(Float(text))
    else AllDigits(text) && NumeralValue(text) <= 9223372036854775807 && e == Lit(Int(NumeralValue(text)))
  }

  /** What begins with a word: a literal, a column, a call, or something with a dot. */
  predicate WordForm(ts: seq<Token>, name: string, e: Expr)
    requires ts != []
    decreases |ts|, 0, 1
  {
    if LowerText(name) == "true" then |ts| == 1 && e == Lit(Bool(true))
    else if LowerText(name) == "false" then |ts| == 1 && e == Lit(Bool(false))
    else if LowerText(name) == "null" then |ts| == 1 && e == Lit(Null)
    else NameForm(ts, name, e)
  }

  /** A name alone is a column; before a parenthesis it is called; a dot makes it qualified. */
  predicate NameForm(ts: seq<Token>, name: string, e: Expr)
    requires ts != []
    decreases |ts|, 0, 0
  {
    if |ts| == 1 then e == Column(name)
    else if ts[1] == Symbol("(") then e.AuthBuiltin? && e.builtin == name && Arguments(ts[1..], e.args)
    else ts[1] == Symbol(".") && |ts| > 2 && ts[2].Word? && Dotted(name, ts[2].name, ts[3..], e)
  }

  /** What follows a word, a dot and a word. */
  predicate Dotted(first: string, second: string, ts: seq<Token>, e: Expr)
    decreases |ts|, 10
  {
    if AnyCase(first, "AUTH") then
      e.AuthBuiltin? && e.builtin == second && Arguments(ts, e.args) &&
      ((Forms.NoArguments(second) && e.args == []) || (Forms.OneArgument(second) && |e.args| == 1))
    else if Forms.DomainWord(first) then
      && e.DomainBuiltin? && e.domain == first && e.property == second
      && (if ts == [] then e.args == [] else Arguments(ts, e.args))
    else
      && e == QualifiedColumn(first, second)
      && (ts == [] || (|ts| == 2 && ts[0] == Symbol(".") && ts[1].Word?))
  }

  /** Whole expressions between parentheses, with commas between them. */
  predicate Arguments(ts: seq<Token>, es: seq<Expr>)
    decreases |ts|, 9
  {
    && |ts| > 1 && ts[0] == Symbol("(") && ts[|ts| - 1] == Symbol(")")
    && (if es == [] then |ts| == 2 else ArgList(ts[1..|ts| - 1], es))
  }

  predicate ArgList(ts: seq<Token>, es: seq<Expr>)
    requires es != []
    decreases |ts|, 9
  {
    if |es| == 1 then Disjunction(ts, es[0]) else exists i | 0 <= i < |ts| :: ArgAt(ts, es, i)
  }

  predicate ArgAt(ts: seq<Token>, es: seq<Expr>, i: nat)
    requires |es| > 1 && i < |ts|
    decreases |ts|, 8
  {
    ts[i] == Symbol(",") && ArgList(ts[..i], es[..|es| - 1]) && Disjunction(ts[i + 1..], es[|es| - 1])
  }

  /** Primaries between parentheses, with commas between them. */
  predicate Items(ts: seq<Token>, es: seq<Expr>)
    decreases |ts|, 9
  {
    && |ts| > 1 && ts[0] == Symbol("(") && ts[|ts| - 1] == Symbol(")")
    && (if es == [] then |ts| == 2 else ItemList(ts[1..|ts| - 1], es))
  }

  predicate ItemList(ts: seq<Token>, es: seq<Expr>)
    requires es != []
    decreases |ts|, 9
  {
    if |es| == 1 then Primary(ts, es[0]) else exists i | 0 <= i < |ts| :: ItemAt(ts, es, i)
  }

  predicate ItemAt(ts: seq<Token>, es: seq<Expr>, i: nat)
    requires |es| > 1 && i < |ts|
    decreases |ts|, 8
  {
    ts[i] == Symbol(",") && ItemList(ts[..i], es[..|es| - 1]) && Primary(ts[i + 1..], es[|es| - 1])
  }

  function TokensOf(d: Dialect, s: string): seq<Token> {
    Tokens.Tokens(Kept, d, s)
  }

  // What the parser's tests of the front of a text say about its tokens.

  lemma Unspaced(d: Dialect, s: string)
    ensures TokensOf(d, SkipSpaces(s)) == TokensOf(d, s)
    ensures SkipSpaces(SkipSpaces(s)) == SkipSpaces(s)
    ensures SkipSpaces(s) == "" <==> TokensOf(d, s) == []
  {
    SpaceSkipped(Kept, d, s);
  }

  lemma FrontOf(d: Dialect, s: string)
    requires SkipSpaces(s) == s && s != ""
    ensures TokensOf(d, s) == [First(Kept, d, s).0] + TokensOf(d, First(Kept, d, s).1)
  {
    hide First;
  }

  predicate Seen(d: Dialect, s: string, keyword: string, word: string) {
    && (AtKeyword(s, keyword) <==> SaysFirst(TokensOf(d, s), word))
    && (AtKeyword(s, keyword) ==> |keyword| <= |s| && TokensOf(d, s[|keyword|..]) == TokensOf(d, s)[1..])
  }

  lemma KeywordsSeen(d: Dialect, s: string)
    requires SkipSpaces(s) == s
    ensures Seen(d, s, "AND", "and") && Seen(d, s, "OR", "or") && Seen(d, s, "NOT", "not")
    ensures Seen(d, s, "IS", "is") && Seen(d, s, "IN", "in") && Seen(d, s, "NULL", "null")
    ensures Seen(d, s, "TRUE", "true") && Seen(d, s, "FALSE", "false")
  {
    hide Seen;
    forall keyword | Keyword(keyword)
      ensures Seen(d, s, keyword, LowerText(keyword))
    {
      KeywordSeen(d, s, keyword);
    }
    SmallLetters();
  }

  lemma SmallLetters()
    ensures LowerText("AND") == "and" && LowerText("OR") == "or" && LowerText("NOT") == "not"
    ensures LowerText("IS") == "is" && LowerText("IN") == "in" && LowerText("NULL") == "null"
    ensures LowerText("TRUE") == "true" && LowerText("FALSE") == "false"
  {
  }

  lemma KeywordSeen(d: Dialect, s: string, keyword: string)
    requires SkipSpaces(s) == s && Keyword(keyword)
    ensures Seen(d, s, keyword, LowerText(keyword))
  {
    hide Keyword, First, AtKeyword, LowerText, SkipSpaces;
    KeywordToken(Kept, d, s, keyword);
    Unspaced(d, s);
    if s != "" {
      FrontOf(d, s);
    }
  }

  lemma MarkSeen(d: Dialect, s: string, c: char)
    requires SkipSpaces(s) == s && c in {'(', ')', ',', '.', '-'}
    ensures StartsWith(s, c) <==> Marked(TokensOf(d, s), [c])
    ensures StartsWith(s, c) ==> TokensOf(d, s[1..]) == TokensOf(d, s)[1..]
  {
    hide First, SkipSpaces;
    SymbolToken(Kept, d, s, c);
    Unspaced(d, s);
    if s != "" {
      FrontOf(d, s);
    }
  }

  lemma SignSeen(d: Dialect, s: string)
    requires SkipSpaces(s) == s
    ensures var ts, c := TokensOf(d, s), ComparisonAt(s);
            && (c.Present? ==> ts != [] && IsSign(ts[0], c.op) && TokensOf(d, s[c.width..]) == ts[1..])
            && (forall op | ts != [] && IsSign(ts[0], op) :: c.Present? && c.op == op)
  {
    hide First, SkipSpaces, ComparisonAt, LowerText;
    Unspaced(d, s);
    if s == "" {
      NoOperatorInNothing();
    } else {
      FrontOf(d, s);
      SpelledOperator(Kept, d, s);
    }
  }

  lemma IdentSeen(d: Dialect, s: string)
    ensures var ts, r := TokensOf(d, s), ParseIdent(s);
            && (r.Ok? <==> ts != [] && ts[0].Word?)
            && (r.Ok? ==> r.value == ts[0].name && TokensOf(d, r.rest) == ts[1..])
  {
    hide Tokens.Tokens, SkipSpaces, IdentSpan, NumberSpan, ScanString, ParseQuoted, StartsWithText;
    Unspaced(d, s);
    var t := SkipSpaces(s);
    if t != "" {
      FrontOf(d, t);
    }
  }

  // Whatever parses is a sentence.

  predicate Consumed(d: Dialect, s: string, ts: seq<Token>, rest: string) {
    TokensOf(d, s) == ts + TokensOf(d, rest)
  }

  lemma {:induction false} OrSound(d: Dialect, s: string) returns (ts: seq<Token>)
    requires ParseOr(d, s).Ok?
    ensures Consumed(d, s, ts, ParseOr(d, s).rest) && Disjunction(ts, ParseOr(d, s).value)
    decreases |s|, 7
  {
    hide ParseAnd, OrLoop, TokensOf;
    var pre := AndSound(d, s);
    var r := ParseAnd(d, s);
    var more := OrLoopSound(d, r.value, r.rest, pre);
    ts := pre + more;
  }

  lemma {:induction false} OrLoopSound(d: Dialect, left: Expr, s: string, pre: seq<Token>) returns (ts: seq<Token>)
    requires Disjunction(pre, left) && OrLoop(d, left, s).Ok?
    ensures Consumed(d, s, ts, OrLoop(d, left, s).rest) && Disjunction(pre + ts, OrLoop(d, left, s).value)
    decreases |s|, 8
  {
    hide ParseAnd, TokensOf, AtKeyword, SkipSpaces, Disjunction;
    var t := SkipSpaces(s);
    Unspaced(d, s);
    assert Seen(d, t, "OR", "or") by { KeywordsSeen(d, t); }
    if AtKeyword(t, "OR") {
      var right := AndSound(d, t[2..]);
      var r := ParseAnd(d, t[2..]);
      var word := TokensOf(d, t)[0];
      var e := Binary(left, Or, r.value);
      Disjoined(pre, left, word, right, r.value);
      var more := OrLoopSound(d, e, r.rest, pre + [word] + right);
      ts := [word] + right + more;
      assert pre + [word] + right + more == pre + ts;
    } else {
      ts := [];
      assert pre + ts == pre;
    }
  }

  lemma Disjoined(pre: seq<Token>, left: Expr, word: Token, ts: seq<Token>, right: Expr)
    requires Disjunction(pre, left) && Says(word, "or") && Conjunction(ts, right)
    ensures Disjunction(pre + [word] + ts, Binary(left, Or, right))
  {
    var all := pre + [word] + ts;
    assert all[..|pre|] == pre && all[|pre| + 1..] == ts;
    assert OrAt(all, Binary(left, Or, right), |pre|);
  }

  lemma {:induction false} AndSound(d: Dialect, s: string) returns (ts: seq<Token>)
    requires ParseAnd(d, s).Ok?
    ensures Consumed(d, s, ts, ParseAnd(d, s).rest) && Conjunction(ts, ParseAnd(d, s).value)
    decreases |s|, 6
  {
    hide ParseNot, AndLoop, TokensOf;
    var pre := NotSound(d, s);
    var r := ParseNot(d, s);
    var more := AndLoopSound(d, r.value, r.rest, pre);
    ts := pre + more;
  }

  lemma {:induction false} AndLoopSound(d: Dialect, left: Expr, s: string, pre: seq<Token>) returns (ts: seq<Token>)
    requires Conjunction(pre, left) && AndLoop(d, left, s).Ok?
    ensures Consumed(d, s, ts, AndLoop(d, left, s).rest) && Conjunction(pre + ts, AndLoop(d, left, s).value)
    decreases |s|, 8
  {
    hide ParseNot, TokensOf, AtKeyword, SkipSpaces, Conjunction;
    var t := SkipSpaces(s);
    Unspaced(d, s);
    assert Seen(d, t, "AND", "and") by { KeywordsSeen(d, t); }
    if AtKeyword(t, "AND") {
      var right := NotSound(d, t[3..]);
      var r := ParseNot(d, t[3..]);
      var word := TokensOf(d, t)[0];
      var e := Binary(left, And, r.value);
      Conjoined(pre, left, word, right, r.value);
      var more := AndLoopSound(d, e, r.rest, pre + [word] + right);
      ts := [word] + right + more;
      assert pre + [word] + right + more == pre + ts;
    } else {
      ts := [];
      assert pre + ts == pre;
    }
  }

  lemma Conjoined(pre: seq<Token>, left: Expr, word: Token, ts: seq<Token>, right: Expr)
    requires Conjunction(pre, left) && Says(word, "and") && Negation(ts, right)
    ensures Conjunction(pre + [word] + ts, Binary(left, And, right))
  {
    var all := pre + [word] + ts;
    assert all[..|pre|] == pre && all[|pre| + 1..] == ts;
    assert AndAt(all, Binary(left, And, right), |pre|);
  }

  lemma {:induction false} NotSound(d: Dialect, s: string) returns (ts: seq<Token>)
    requires ParseNot(d, s).Ok?
    ensures Consumed(d, s, ts, ParseNot(d, s).rest) && Negation(ts, ParseNot(d, s).value)
    decreases |s|, 5
  {
    hide ParseComparison, TokensOf, AtKeyword, SkipSpaces, Test;
    var t := SkipSpaces(s);
    Unspaced(d, s);
    assert Seen(d, t, "NOT", "not") by { KeywordsSeen(d, t); }
    if AtKeyword(t, "NOT") {
      var more := NotSound(d, t[3..]);
      ts := [TokensOf(d, t)[0]] + more;
      assert ts[1..] == more;
    } else {
      ts := TestSound(d, t);
      assert ts != [] by { TestIsSomething(ts, ParseComparison(d, t).value); }
      assert ts[0] == TokensOf(d, t)[0];
    }
  }

  lemma TestIsSomething(ts: seq<Token>, e: Expr)
    requires Test(ts, e)
    ensures ts != []
  {
  }

  lemma {:induction false} TestSound(d: Dialect, s: string) returns (ts: seq<Token>)
    requires ParseComparison(d, s).Ok?
    ensures Consumed(d, s, ts, ParseComparison(d, s).rest) && Test(ts, ParseComparison(d, s).value)
    decreases |s|, 4
  {
    hide ParsePrimary, AfterPrimary, TokensOf, Test;
    var pre := PrimarySound(d, s);
    var r := ParsePrimary(d, s);
    var more := AfterSound(d, r.value, r.rest, pre);
    ts := pre + more;
  }

  lemma {:induction false} AfterSound(d: Dialect, left: Expr, s: string, pre: seq<Token>) returns (ts: seq<Token>)
    requires Primary(pre, left) && AfterPrimary(d, left, s).Ok?
    ensures Consumed(d, s, ts, AfterPrimary(d, left, s).rest) && Test(pre + ts, AfterPrimary(d, left, s).value)
    decreases |s|, 5
  {
    hide AfterPrimary, AfterNot, AfterIs, TokensOf, AtKeyword, SkipSpaces, Test, Primary;
    var u := SkipSpaces(s);
    Unspaced(d, s);
    AfterIsOrNot(d, left, s);
    assert Seen(d, u, "IS", "is") && Seen(d, u, "NOT", "not") by { KeywordsSeen(d, u); }
    if AtKeyword(u, "IS") {
      ts := NullSound(d, left, u, pre);
    } else if AtKeyword(u, "NOT") {
      var v := SkipSpaces(u[3..]);
      Unspaced(d, u[3..]);
      var list := ListTestSound(d, left, v, pre, [TokensOf(d, u)[0]], true);
      ts := [TokensOf(d, u)[0]] + list;
    } else {
      assert Seen(d, u, "IN", "in") by { KeywordsSeen(d, u); }
      if AtKeyword(u, "IN") {
        ts := ListTestSound(d, left, u, pre, [], false);
        assert [] + ts == ts;
      } else {
        assert AfterNot(d, left, u, false) == AfterLeft(d, left, u) by { OnlySign(d, left, u); }
        ts := SignSound(d, left, u, pre);
      }
    }
  }

  lemma OnlySign(d: Dialect, left: Expr, u: string)
    requires !AtKeyword(u, "IN")
    ensures AfterNot(d, left, u, false) == AfterLeft(d, left, u)
  {
    hide AfterLeft, ParseList;
  }

  lemma NullSound(d: Dialect, left: Expr, u: string, pre: seq<Token>) returns (ts: seq<Token>)
    requires Primary(pre, left) && SkipSpaces(u) == u && AtKeyword(u, "IS") && AfterIs(left, u[2..]).Ok?
    ensures Consumed(d, u, ts, AfterIs(left, u[2..]).rest) && Test(pre + ts, AfterIs(left, u[2..]).value)
  {
    hide AfterIs, TokensOf, AtKeyword, SkipSpaces, Primary, Test;
    assert Seen(d, u, "IS", "is") by { KeywordsSeen(d, u); }
    var word := TokensOf(d, u)[0];
    var v := SkipSpaces(u[2..]);
    Unspaced(d, u[2..]);
    NullOrNotNull(left, u[2..]);
    assert Seen(d, v, "NOT", "not") by { KeywordsSeen(d, v); }
    var negated := AtKeyword(v, "NOT");
    var x := v;
    ts := [word];
    if negated {
      ts := ts + [TokensOf(d, v)[0]];
      x := SkipSpaces(v[3..]);
      Unspaced(d, v[3..]);
    }
    assert Seen(d, x, "NULL", "null") by { KeywordsSeen(d, x); }
    ts := ts + [TokensOf(d, x)[0]];
    NullTested(pre, left, ts, negated);
  }

  lemma NullTested(pre: seq<Token>, left: Expr, ts: seq<Token>, negated: bool)
    requires Primary(pre, left) && NullTest(ts, negated)
    ensures Test(pre + ts, IsNull(left, negated))
  {
    hide Primary;
    var all := pre + ts;
    assert all[..|pre|] == pre && all[|pre|..] == ts;
    assert TestAt(all, IsNull(left, negated), |pre|);
  }

  /** `before` is the NOT, if there is one. */
  lemma {:induction false} ListTestSound(d: Dialect, left: Expr, u: string, pre: seq<Token>, before: seq<Token>,
                                         negated: bool)
    returns (ts: seq<Token>)
    requires Primary(pre, left) && SkipSpaces(u) == u && AfterNot(d, left, u, negated).Ok?
    requires negated || AtKeyword(u, "IN")
    requires if negated then |before| == 1 && Says(before[0], "not") else before == []
    ensures Consumed(d, u, ts, AfterNot(d, left, u, negated).rest)
    ensures Test(pre + (before + ts), AfterNot(d, left, u, negated).value)
    decreases |u|, 4
  {
    hide AfterLeft, ParseList, TokensOf, AtKeyword, SkipSpaces, Primary, Test, Items;
    assert Seen(d, u, "IN", "in") by { KeywordsSeen(d, u); }
    assert AtKeyword(u, "IN");
    var word := TokensOf(d, u)[0];
    var list := ListSound(d, u[2..]);
    ts := [word] + list;
    Listed(pre, left, before, word, list, ParseList(d, u[2..]).value, negated);
  }

  lemma Listed(pre: seq<Token>, left: Expr, before: seq<Token>, word: Token, ts: seq<Token>, list: seq<Expr>,
               negated: bool)
    requires Primary(pre, left) && Says(word, "in") && Items(ts, list)
    requires if negated then |before| == 1 && Says(before[0], "not") else before == []
    ensures Test(pre + (before + ([word] + ts)), InList(left, list, negated))
  {
    hide Primary, Items, LowerText;
    var all := pre + (before + ([word] + ts));
    var i := |pre|;
    assert all[..i] == pre;
    if negated {
      assert all[i] == before[0] && all[i + 1] == word && all[i + 2..] == ts;
    } else {
      assert all[i] == word && all[i + 1..] == ts;
    }
    assert TestAt(all, InList(left, list, negated), i);
  }

  lemma {:induction false} SignSound(d: Dialect, left: Expr, u: string, pre: seq<Token>) returns (ts: seq<Token>)
    requires Primary(pre, left) && SkipSpaces(u) == u && AfterLeft(d, left, u).Ok?
    ensures Consumed(d, u, ts, AfterLeft(d, left, u).rest) && Test(pre + ts, AfterLeft(d, left, u).value)
    decreases |u|, 4
  {
    hide ParsePrimary, TokensOf, ComparisonAt, SkipSpaces, Primary, TestAt, IsSign;
    SignSeen(d, u);
    var c := ComparisonAt(u);
    if c.Present? {
      var right := PrimarySound(d, u[c.width..]);
      var sign := TokensOf(d, u)[0];
      ts := [sign] + right;
      Signed(pre, left, sign, c.op, right, ParsePrimary(d, u[c.width..]).value);
    } else {
      ts := [];
      assert pre + ts == pre;
    }
  }

  lemma Signed(pre: seq<Token>, left: Expr, sign: Token, op: BinaryOp, ts: seq<Token>, right: Expr)
    requires Primary(pre, left) && IsSign(sign, op) && Primary(ts, right)
    ensures Test(pre + ([sign] + ts), Binary(left, op, right))
  {
    hide Primary, IsSign;
    var all := pre + ([sign] + ts);
    assert all[..|pre|] == pre && all[|pre|] == sign && all[|pre| + 1..] == ts;
    assert TestAt(all, Binary(left, op, right), |pre|);
  }

  lemma {:induction false} PrimarySound(d: Dialect, s: string) returns (ts: seq<Token>)
    requires ParsePrimary(d, s).Ok?
    ensures Consumed(d, s, ts, ParsePrimary(d, s).rest) && Primary(ts, ParsePrimary(d, s).value)
    decreases |s|, 3
  {
    hide ParseOr, TokensOf, SkipSpaces, ScanString, ParseNumber, ParseQuoted, ParseWord, Disjunction;
    var t := SkipSpaces(s);
    Unspaced(d, s);
    MarkSeen(d, t, '(');
    MarkSeen(d, t, '-');
    if StartsWith(t, '(') {
      var inner := OrSound(d, t[1..]);
      var r := ParseOr(d, t[1..]);
      var u := SkipSpaces(r.rest);
      Unspaced(d, r.rest);
      MarkSeen(d, u, ')');
      ts := [Symbol("(")] + inner + [Symbol(")")];
      assert ts[1..|ts| - 1] == inner;
      assert TokensOf(d, s) == [Symbol("(")] + (inner + ([Symbol(")")] + TokensOf(d, u[1..])));
      assert TokensOf(d, s) == ts + TokensOf(d, u[1..]);
    } else if StartsWith(t, '-') {
      var inner := PrimarySound(d, t[1..]);
      ts := [Symbol("-")] + inner;
      assert ts[1..] == inner;
    } else {
      ts := LeafSound(d, t);
    }
  }

  lemma {:induction false} LeafSound(d: Dialect, t: string) returns (ts: seq<Token>)
    requires SkipSpaces(t) == t && !StartsWith(t, '(') && !StartsWith(t, '-') && ParsePrimary(d, t).Ok?
    ensures Consumed(d, t, ts, ParsePrimary(d, t).rest) && Primary(ts, ParsePrimary(d, t).value)
    decreases |t|, 2
  {
    hide ParsePrimary, TokensOf, SkipSpaces, First, WordForm;
    if t == "" {
      NothingParses(d);
    }
    FrontOf(d, t);
    TokenKind(Kept, d, t);
    var token := First(Kept, d, t).0;
    if token.Word? {
      ts := WordSound(d, t);
    } else {
      ts := [token];
      if token.Number? {
        NumberReading(Kept, d, t);
      } else if token.Symbol? || token.Broken? {
        NoPrimary(Kept, d, t);
      }
    }
  }

  lemma NothingParses(d: Dialect)
    ensures ParsePrimary(d, "").Err?
  {
  }

  lemma {:induction false} WordSound(d: Dialect, t: string) returns (ts: seq<Token>)
    requires SkipSpaces(t) == t && t != "" && IsIdentStart(t[0]) && ParsePrimary(d, t).Ok?
    ensures Consumed(d, t, ts, ParsePrimary(d, t).rest) && Primary(ts, ParsePrimary(d, t).value)
    decreases |t|, 1, 1
  {
    hide ParsePrimary, ParseIdentOrCall, TokensOf, SkipSpaces, AtKeyword, LowerText, NameForm;
    Atoms.WordFirst(d, t);
    IsWordFirst(d, t);
    assert Seen(d, t, "TRUE", "true") && Seen(d, t, "FALSE", "false") && Seen(d, t, "NULL", "null") by {
      KeywordsSeen(d, t);
    }
    if AtKeyword(t, "TRUE") || AtKeyword(t, "FALSE") || AtKeyword(t, "NULL") {
      ts := [TokensOf(d, t)[0]];
    } else {
      ts := NameSound(d, t);
    }
  }

  lemma IsWordFirst(d: Dialect, t: string)
    requires SkipSpaces(t) == t && t != "" && IsIdentStart(t[0])
    ensures TokensOf(d, t) != [] && TokensOf(d, t)[0].Word?
  {
    FrontOf(d, t);
  }

  lemma {:induction false} NameSound(d: Dialect, s: string) returns (ts: seq<Token>)
    requires ParseIdentOrCall(d, s).Ok?
    ensures Consumed(d, s, ts, ParseIdentOrCall(d, s).rest)
    ensures ts != [] && TokensOf(d, s)[0] == ts[0] && ts[0].Word?
    ensures NameForm(ts, ts[0].name, ParseIdentOrCall(d, s).value)
    decreases |s|, 1, 0
  {
    hide ParseIdent, ParseArgs, ParseQualified, TokensOf, SkipSpaces, Arguments, Dotted;
    IdentSeen(d, s);
    var first := ParseIdent(s);
    var t := SkipSpaces(first.rest);
    Unspaced(d, first.rest);
    var word := TokensOf(d, s)[0];
    MarkSeen(d, t, '.');
    MarkSeen(d, t, '(');
    if StartsWith(t, '.') {
      var name, tail := DottedSound(d, first.value, t[1..]);
      ts := [word, Symbol("."), name] + tail;
      assert ts[3..] == tail;
      assert TokensOf(d, s) == [word] + ([Symbol(".")] + TokensOf(d, t[1..]));
    } else if StartsWith(t, '(') {
      var args := ArgsSound(d, t[1..]);
      ts := [word] + ([Symbol("(")] + args);
      assert ts[1..] == [Symbol("(")] + args;
    } else {
      ts := [word];
    }
  }

  lemma {:induction false} DottedSound(d: Dialect, first: string, s: string) returns (name: Token, ts: seq<Token>)
    requires ParseQualified(d, first, s).Ok?
    ensures Consumed(d, s, [name] + ts, ParseQualified(d, first, s).rest)
    ensures name.Word? && Dotted(first, name.name, ts, ParseQualified(d, first, s).value)
    decreases |s|, 1
  {
    hide ParseIdent, ParseArgs, TokensOf, SkipSpaces, Arguments, ValidateCall, IsAuth, IsDomain, AnyCase;
    hide Forms.DomainWord, Forms.NoArguments, Forms.OneArgument;
    IdentSeen(d, s);
    Forms.AuthIff(first);
    Forms.DomainWordIff(first);
    var second := ParseIdent(s);
    name := TokensOf(d, s)[0];
    var t := SkipSpaces(second.rest);
    Unspaced(d, second.rest);
    MarkSeen(d, t, '(');
    MarkSeen(d, t, '.');
    if StartsWith(t, '(') && (IsAuth(first) || IsDomain(first)) {
      var args := ArgsSound(d, t[1..]);
      ts := [Symbol("(")] + args;
      Forms.BuiltinTable(second.value, |ParseArgs(d, t[1..]).value|);
    } else if StartsWith(t, '.') && !IsAuth(first) && !IsDomain(first) {
      IdentSeen(d, t[1..]);
      ts := [Symbol("."), TokensOf(d, t[1..])[0]];
    } else {
      ts := [];
    }
  }

  lemma {:induction false} ArgsSound(d: Dialect, s: string) returns (ts: seq<Token>)
    requires ParseArgs(d, s).Ok?
    ensures Consumed(d, s, ts, ParseArgs(d, s).rest) && Arguments([Symbol("(")] + ts, ParseArgs(d, s).value)
    decreases |s|, 9
  {
    hide ArgsLoop, TokensOf, SkipSpaces, ArgList;
    var t := SkipSpaces(s);
    Unspaced(d, s);
    MarkSeen(d, t, ')');
    if StartsWith(t, ')') {
      ts := [Symbol(")")];
    } else {
      var none: seq<Token> := [];
      var body := ArgsLoopSound(d, [], t, none);
      assert none + none + body == body;
      ts := body + [Symbol(")")];
      var all := [Symbol("(")] + ts;
      assert all[1..|all| - 1] == body && all[|all| - 1] == Symbol(")");
    }
  }

  lemma {:induction false} ArgsLoopSound(d: Dialect, args: seq<Expr>, s: string, pre: seq<Token>)
    returns (body: seq<Token>)
    requires ArgsLoop(d, args, s).Ok? && (args == [] ==> pre == []) && (args != [] ==> ArgList(pre, args))
    ensures Consumed(d, s, body + [Symbol(")")], ArgsLoop(d, args, s).rest)
    ensures ArgsLoop(d, args, s).value != []
    ensures var comma := if args == [] then [] else [Symbol(",")];
            ArgList(pre + comma + body, ArgsLoop(d, args, s).value)
    decreases |s|, 8
  {
    hide ParseOr, TokensOf, ArgsNext, ArgList;
    var arg := OrSound(d, s);
    var r := ParseOr(d, s);
    var comma := if args == [] then [] else [Symbol(",")];
    OneMoreArg(pre, args, arg, r.value);
    var more := ArgsNextSound(d, args + [r.value], r.rest, pre + comma + arg);
    body := arg + more;
    assert pre + comma + arg + more == pre + comma + body;
    assert arg + (more + [Symbol(")")]) == body + [Symbol(")")];
  }

  lemma OneMoreArg(pre: seq<Token>, args: seq<Expr>, arg: seq<Token>, e: Expr)
    requires (args == [] ==> pre == []) && (args != [] ==> ArgList(pre, args)) && Disjunction(arg, e)
    ensures ArgList(pre + (if args == [] then [] else [Symbol(",")]) + arg, args + [e])
  {
    hide Disjunction;
    var all := pre + (if args == [] then [] else [Symbol(",")]) + arg;
    var es := args + [e];
    assert es[..|es| - 1] == args && es[|es| - 1] == e;
    if args == [] {
      assert all == arg && es == [e];
    } else {
      assert all[..|pre|] == pre && all[|pre|] == Symbol(",") && all[|pre| + 1..] == arg;
      assert ArgAt(all, es, |pre|);
    }
  }

  lemma {:induction false} ArgsNextSound(d: Dialect, args: seq<Expr>, s: string, pre: seq<Token>)
    returns (body: seq<Token>)
    requires ArgsNext(d, args, s).Ok? && args != [] && ArgList(pre, args)
    ensures Consumed(d, s, body + [Symbol(")")], ArgsNext(d, args, s).rest)
    ensures ArgsNext(d, args, s).value != [] && ArgList(pre + body, ArgsNext(d, args, s).value)
    decreases |s|, 8
  {
    hide ArgsLoop, TokensOf, SkipSpaces, ArgList;
    var t := SkipSpaces(s);
    Unspaced(d, s);
    MarkSeen(d, t, ')');
    MarkSeen(d, t, ',');
    if StartsWith(t, ')') {
      body := [];
      assert pre + body == pre;
    } else {
      var more := ArgsLoopSound(d, args, t[1..], pre);
      body := [Symbol(",")] + more;
      assert pre + [Symbol(",")] + more == pre + body;
      assert [Symbol(",")] + (more + [Symbol(")")]) == body + [Symbol(")")];
    }
  }

  lemma {:induction false} ListSound(d: Dialect, s: string) returns (ts: seq<Token>)
    requires ParseList(d, s).Ok?
    ensures Consumed(d, s, ts, ParseList(d, s).rest) && Items(ts, ParseList(d, s).value)
    decreases |s|, 9
  {
    hide ListLoop, TokensOf, SkipSpaces, ItemList;
    var t := SkipSpaces(s);
    Unspaced(d, s);
    MarkSeen(d, t, '(');
    var u := SkipSpaces(t[1..]);
    Unspaced(d, t[1..]);
    MarkSeen(d, u, ')');
    if StartsWith(u, ')') {
      ts := [Symbol("("), Symbol(")")];
    } else {
      var none: seq<Token> := [];
      var body := ListLoopSound(d, [], u, none);
      assert none + none + body == body;
      ts := [Symbol("(")] + (body + [Symbol(")")]);
      assert ts[1..|ts| - 1] == body && ts[|ts| - 1] == Symbol(")");
    }
  }

  lemma {:induction false} ListLoopSound(d: Dialect, items: seq<Expr>, s: string, pre: seq<Token>)
    returns (body: seq<Token>)
    requires ListLoop(d, items, s).Ok? && (items == [] ==> pre == []) && (items != [] ==> ItemList(pre, items))
    ensures Consumed(d, s, body + [Symbol(")")], ListLoop(d, items, s).rest)
    ensures ListLoop(d, items, s).value != []
    ensures var comma := if items == [] then [] else [Symbol(",")];
            ItemList(pre + comma + body, ListLoop(d, items, s).value)
    decreases |s|, 8
  {
    hide ParsePrimary, TokensOf, ListNext, ItemList;
    var item := PrimarySound(d, s);
    var r := ParsePrimary(d, s);
    var comma := if items == [] then [] else [Symbol(",")];
    OneMoreItem(pre, items, item, r.value);
    var more := ListNextSound(d, items + [r.value], r.rest, pre + comma + item);
    body := item + more;
    assert pre + comma + item + more == pre + comma + body;
    assert item + (more + [Symbol(")")]) == body + [Symbol(")")];
  }

  lemma OneMoreItem(pre: seq<Token>, items: seq<Expr>, item: seq<Token>, e: Expr)
    requires (items == [] ==> pre == []) && (items != [] ==> ItemList(pre, items)) && Primary(item, e)
    ensures ItemList(pre + (if items == [] then [] else [Symbol(",")]) + item, items + [e])
  {
    hide Primary;
    var all := pre + (if items == [] then [] else [Symbol(",")]) + item;
    var es := items + [e];
    assert es[..|es| - 1] == items && es[|es| - 1] == e;
    if items == [] {
      assert all == item && es == [e];
    } else {
      assert all[..|pre|] == pre && all[|pre|] == Symbol(",") && all[|pre| + 1..] == item;
      assert ItemAt(all, es, |pre|);
    }
  }

  lemma {:induction false} ListNextSound(d: Dialect, items: seq<Expr>, s: string, pre: seq<Token>)
    returns (body: seq<Token>)
    requires ListNext(d, items, s).Ok? && items != [] && ItemList(pre, items)
    ensures Consumed(d, s, body + [Symbol(")")], ListNext(d, items, s).rest)
    ensures ListNext(d, items, s).value != [] && ItemList(pre + body, ListNext(d, items, s).value)
    decreases |s|, 8
  {
    hide ListLoop, TokensOf, SkipSpaces, ItemList;
    var t := SkipSpaces(s);
    Unspaced(d, s);
    MarkSeen(d, t, ')');
    MarkSeen(d, t, ',');
    if StartsWith(t, ')') {
      body := [];
      assert pre + body == pre;
    } else {
      var more := ListLoopSound(d, items, t[1..], pre);
      body := [Symbol(",")] + more;
      assert pre + [Symbol(",")] + more == pre + body;
      assert [Symbol(",")] + (more + [Symbol(")")]) == body + [Symbol(")")];
    }
  }

  /** A policy text that parses is a sentence for the tree that it is parsed to. */
  lemma ParsedIsSentence(d: Dialect, s: string)
    requires Parse(d, s).Success?
    ensures Disjunction(TokensOf(d, s), Parse(d, s).expr)
  {
    hide ParseOr, Disjunction, TokensOf;
    var ts := OrSound(d, s);
    Unspaced(d, ParseOr(d, s).rest);
    assert ts + [] == ts;
  }
}
