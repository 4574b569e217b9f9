/**
 Why text with a bare minus can never be read back. Every E that a tree needs, in its names,
 strings, constants and operators, has to stand in the text that it is read from. Where
 evaluation writes a bare `-` for a minus on TRUE or FALSE, one E is missing.
 */
module Ink {
  import opened Options
  import opened PolicyAst
  import opened AsciiText
  import opened PolicyContext
  import opened Builtins
  import opened Grammar
  import opened PolicyPrinter
  import opened ParserRange
  import opened PolicyEval
  import opened Pieces
  import opened ResidualText
  import opened PolicyMeaning

  /** How many letters E there are, in either case. */
  function Ink(s: string): nat {
    if s == "" then 0 else (if Lower(s[0]) == 'e' then 1 else 0) + Ink(s[1..])
  }

  lemma {:induction false} InkOfBoth(a: string, b: string)
    ensures Ink(a + b) == Ink(a) + Ink(b)
  {
    if a == "" {
      assert a + b == b;
    } else {
      assert (a + b)[1..] == a[1..] + b;
      InkOfBoth(a[1..], b);
    }
  }

  lemma InkSplits(s: string, k: nat)
    requires k <= |s|
    ensures Ink(s) == Ink(s[..k]) + Ink(s[k..])
  {
    assert s == s[..k] + s[k..];
    InkOfBoth(s[..k], s[k..]);
  }

  lemma {:induction false} InkSkips(s: string)
    ensures Ink(SkipSpaces(s)) == Ink(s)
  {
    if s != "" && IsSpace(s[0]) {
      InkSkips(s[1..]);
    }
  }

  lemma {:induction false} InkIgnoresCase(a: string, b: string)
    requires |a| == |b| && forall i | 0 <= i < |a| :: Lower(a[i]) == Lower(b[i])
    ensures Ink(a) == Ink(b)
  {
    if a != "" {
      InkIgnoresCase(a[1..], b[1..]);
    }
  }

  lemma KeywordInk(s: string, keyword: string)
    requires AtKeyword(s, keyword)
    ensures Ink(s) == Ink(keyword) + Ink(s[|keyword|..])
  {
    InkSplits(s, |keyword|);
    InkIgnoresCase(s[..|keyword|], keyword);
  }

  /** What a tree takes at least to write down. */
  function TreeInk(e: Expr): nat
    decreases e
  {
    match e
    case Column(name) => Ink(name)
    case QualifiedColumn(table, column) => Ink(table) + Ink(column)
    case Lit(Bool(_)) => 1
    case Lit(String(s)) => Ink(s)
    case Lit(_) => 0
    case Binary(l, op, r) => TreeInk(l) + Ink(op.AsSql()) + TreeInk(r)
    case Unary(_, x) => TreeInk(x)
    case AuthBuiltin(name, args) => Ink(name) + ListInk(args)
    case DomainBuiltin(domain, property, args) => Ink(domain) + Ink(property) + ListInk(args)
    case IsNull(x, _) => TreeInk(x)
    case InList(x, list, _) => TreeInk(x) + ListInk(list)
    case Subquery(sql) => Ink(sql)
  }

  function ListInk(es: seq<Expr>): nat
    decreases es
  {
    if es == [] then 0 else ListInk(es[..|es| - 1]) + TreeInk(es[|es| - 1])
  }

  lemma ListInkMore(es: seq<Expr>, e: Expr)
    ensures ListInk(es + [e]) == ListInk(es) + TreeInk(e)
  {
    assert (es + [e])[..|es|] == es;
  }

  // Reading never makes up ink

  lemma {:induction false} OrInk(d: Dialect, s: string)
    requires ParseOr(d, s).Ok?
    ensures TreeInk(ParseOr(d, s).value) + Ink(ParseOr(d, s).rest) <= Ink(s)
    decreases |s|, 7
  {
    hide ParseAnd, OrLoop, TreeInk;
    AndInk(d, s);
    OrLoopInk(d, ParseAnd(d, s).value, ParseAnd(d, s).rest);
  }

  lemma {:induction false} OrLoopInk(d: Dialect, left: Expr, s: string)
    requires OrLoop(d, left, s).Ok?
    ensures TreeInk(OrLoop(d, left, s).value) + Ink(OrLoop(d, left, s).rest) <= TreeInk(left) + Ink(s)
    decreases |s|, 8
  {
    hide ParseAnd, AtKeyword, Ink;
    var t := SkipSpaces(s);
    InkSkips(s);
    if AtKeyword(t, "OR") {
      KeywordLength(t, "OR");
      KeywordInk(t, "OR");
      AndInk(d, t[2..]);
      var right := ParseAnd(d, t[2..]);
      OrLoopInk(d, Binary(left, Or, right.value), right.rest);
      OperatorInk();
    }
  }

  lemma OperatorInk()
    ensures Ink("OR") == Ink("AND") == 0 && Ink("LIKE") == Ink("ILIKE") == 1
    ensures Ink("=") == Ink("<>") == Ink("<") == Ink("<=") == Ink(">") == Ink(">=") == 0
  {
  }

  lemma {:induction false} AndInk(d: Dialect, s: string)
    requires ParseAnd(d, s).Ok?
    ensures TreeInk(ParseAnd(d, s).value) + Ink(ParseAnd(d, s).rest) <= Ink(s)
    decreases |s|, 6
  {
    hide ParseNot, AndLoop, TreeInk;
    NotInk(d, s);
    AndLoopInk(d, ParseNot(d, s).value, ParseNot(d, s).rest);
  }

  lemma {:induction false} AndLoopInk(d: Dialect, left: Expr, s: string)
    requires AndLoop(d, left, s).Ok?
    ensures TreeInk(AndLoop(d, left, s).value) + Ink(AndLoop(d, left, s).rest) <= TreeInk(left) + Ink(s)
    decreases |s|, 8
  {
    hide ParseNot, AtKeyword, Ink;
    var t := SkipSpaces(s);
    InkSkips(s);
    if AtKeyword(t, "AND") {
      KeywordLength(t, "AND");
      KeywordInk(t, "AND");
      NotInk(d, t[3..]);
      var right := ParseNot(d, t[3..]);
      AndLoopInk(d, Binary(left, And, right.value), right.rest);
      OperatorInk();
    }
  }

  lemma {:induction false} NotInk(d: Dialect, s: string)
    requires ParseNot(d, s).Ok?
    ensures TreeInk(ParseNot(d, s).value) + Ink(ParseNot(d, s).rest) <= Ink(s)
    decreases |s|, 5
  {
    hide ParsePrimary, AfterPrimary, AtKeyword, Ink;
    var t := SkipSpaces(s);
    InkSkips(s);
    if AtKeyword(t, "NOT") {
      KeywordLength(t, "NOT");
      KeywordInk(t, "NOT");
      NotInk(d, t[3..]);
    } else {
      PrimaryInk(d, t);
      AfterInk(d, ParsePrimary(d, t).value, ParsePrimary(d, t).rest);
    }
  }

  lemma {:induction false} AfterInk(d: Dialect, left: Expr, s: string)
    requires AfterPrimary(d, left, s).Ok?
    ensures TreeInk(AfterPrimary(d, left, s).value) + Ink(AfterPrimary(d, left, s).rest) <= TreeInk(left) + Ink(s)
    decreases |s|, 5
  {
    hide ParsePrimary, ParseList, AtKeyword, ComparisonAt, AfterLeft, AfterIs, Ink;
    var t := SkipSpaces(s);
    InkSkips(s);
    KeywordLength(t, "IS");
    KeywordLength(t, "NOT");
    if AtKeyword(t, "IS") {
      InkSplits(t, 2);
      AfterIsInk(left, t[2..]);
    } else {
      var negated := AtKeyword(t, "NOT");
      if negated {
        InkSplits(t, 3);
        InkSkips(t[3..]);
      }
      var u := if negated then SkipSpaces(t[3..]) else t;
      KeywordLength(u, "IN");
      if AtKeyword(u, "IN") {
        InkSplits(u, 2);
        ListTextInk(d, u[2..]);
      } else {
        AfterLeftInk(d, left, u);
      }
    }
  }

  lemma AfterIsInk(left: Expr, s: string)
    requires AfterIs(left, s).Ok?
    ensures TreeInk(AfterIs(left, s).value) + Ink(AfterIs(left, s).rest) <= TreeInk(left) + Ink(s)
  {
    hide AtKeyword, Ink;
    var u := SkipSpaces(s);
    InkSkips(s);
    KeywordLength(u, "NOT");
    var negated := AtKeyword(u, "NOT");
    if negated {
      InkSplits(u, 3);
      InkSkips(u[3..]);
    }
    var v := if negated then SkipSpaces(u[3..]) else u;
    KeywordLength(v, "NULL");
    InkSplits(v, 4);
  }

  lemma {:induction false} AfterLeftInk(d: Dialect, left: Expr, s: string)
    requires AfterLeft(d, left, s).Ok?
    ensures TreeInk(AfterLeft(d, left, s).value) + Ink(AfterLeft(d, left, s).rest) <= TreeInk(left) + Ink(s)
    decreases |s|, 4
  {
    hide ParsePrimary, ComparisonAt, Ink;
    var t := SkipSpaces(s);
    InkSkips(s);
    var c := ComparisonAt(t);
    if c.Present? {
      ComparisonInk(t);
      PrimaryInk(d, t[c.width..]);
    }
  }

  lemma ComparisonInk(s: string)
    requires ComparisonAt(s).Present?
    ensures Ink(ComparisonAt(s).op.AsSql()) + Ink(s[ComparisonAt(s).width..]) <= Ink(s)
  {
    hide AtKeyword, Ink;
    OperatorInk();
    var c := ComparisonAt(s);
    InkSplits(s, c.width);
    if c.op.Like? {
      KeywordInk(s, "LIKE");
    } else if c.op.ILike? {
      KeywordInk(s, "ILIKE");
    }
  }

  lemma {:induction false} PrimaryInk(d: Dialect, s: string)
    requires ParsePrimary(d, s).Ok?
    ensures TreeInk(ParsePrimary(d, s).value) + Ink(ParsePrimary(d, s).rest) <= Ink(s)
    decreases |s|, 3
  {
    hide ParseOr, ParseNumber, ParseWord, ScanString, ParseQuoted, Ink;
    var t := SkipSpaces(s);
    InkSkips(s);
    if t != "" {
      InkSplits(t, 1);
    }
    if StartsWith(t, '(') {
      OrInk(d, t[1..]);
      var u := SkipSpaces(ParseOr(d, t[1..]).rest);
      InkSkips(ParseOr(d, t[1..]).rest);
      InkSplits(u, 1);
    } else if StartsWith(t, '-') {
      PrimaryInk(d, t[1..]);
    } else if StartsWith(t, '\'') {
      ScanInk("", t[1..]);
      NoInk();
    } else if t != "" && IsDigit(t[0]) {
      NumberInk(t);
    } else if d.EmittedSql? && StartsWith(t, '"') {
      QuotedInk(t[1..]);
    } else {
      WordInk(d, t);
    }
  }

  lemma NoInk()
    ensures Ink("") == Ink("'") == 0
  {
  }

  lemma {:induction false} ScanInk(value: string, s: string)
    requires ScanString(value, s).Ok?
    ensures var r := ScanString(value, s); TreeInk(r.value) + Ink(r.rest) <= Ink(value) + Ink(s)
    decreases |s|
  {
    hide Ink;
    NoInk();
    InkSplits(s, 1);
    if s[0] != '\'' {
      InkOfBoth(value, [s[0]]);
      assert s[..1] == [s[0]];
      ScanInk(value + [s[0]], s[1..]);
    } else if StartsWith(s[1..], '\'') {
      InkOfBoth(value, "'");
      InkSplits(s, 2);
      ScanInk(value + "'", s[2..]);
    }
  }

  lemma NumberInk(s: string)
    requires s != "" && IsDigit(s[0]) && ParseNumber(s).Ok?
    ensures TreeInk(ParseNumber(s).value) + Ink(ParseNumber(s).rest) <= Ink(s)
  {
    hide Ink;
    InkSplits(s, NumberSpan(s, false));
  }

  lemma QuotedInk(s: string)
    requires ParseQuoted(s).Ok?
    ensures TreeInk(ParseQuoted(s).value) + Ink(ParseQuoted(s).rest) <= Ink(s)
  {
    hide Ink, QuotedSpan;
    var n := QuotedSpan(s);
    InkSplits(s, n);
    InkSplits(s[n..], 1);
    var after := s[n + 1..];
    assert s[n..][1..] == after;
    if StartsWithText(after, ".\"") {
      var m := QuotedSpan(after[2..]);
      InkSplits(after, 2);
      InkSplits(after[2..], m);
      InkSplits(after[2..][m..], 1);
      assert after[2..][m..][1..] == after[2..][m + 1..];
    }
  }

  lemma {:induction false} WordInk(d: Dialect, s: string)
    requires ParseWord(d, s).Ok?
    ensures TreeInk(ParseWord(d, s).value) + Ink(ParseWord(d, s).rest) <= Ink(s)
    decreases |s|, 2
  {
    hide ParseIdentOrCall, AtKeyword, Ink;
    ConstantInk();
    KeywordLength(s, "TRUE");
    KeywordLength(s, "FALSE");
    KeywordLength(s, "NULL");
    if AtKeyword(s, "TRUE") {
      KeywordInk(s, "TRUE");
    } else if AtKeyword(s, "FALSE") {
      KeywordInk(s, "FALSE");
    } else if AtKeyword(s, "NULL") {
      KeywordInk(s, "NULL");
    } else {
      NameInk(d, s);
    }
  }

  lemma ConstantInk()
    ensures Ink("TRUE") == Ink("FALSE") == Ink("false") == 1 && Ink("NULL") == 0
  {
  }

  lemma IdentInk(s: string)
    requires ParseIdent(s).Ok?
    ensures Ink(ParseIdent(s).value) + Ink(ParseIdent(s).rest) == Ink(s)
  {
    hide Ink, ParseIdent;
    IdentRange(s);
    InkSkips(s);
    InkOfBoth(ParseIdent(s).value, ParseIdent(s).rest);
  }

  lemma {:induction false} NameInk(d: Dialect, s: string)
    requires ParseIdentOrCall(d, s).Ok?
    ensures TreeInk(ParseIdentOrCall(d, s).value) + Ink(ParseIdentOrCall(d, s).rest) <= Ink(s)
    decreases |s|, 1
  {
    hide ParseIdent, ParseArgs, ParseQualified, Ink;
    IdentInk(s);
    var name, rest := ParseIdent(s).value, ParseIdent(s).rest;
    var t := SkipSpaces(rest);
    InkSkips(rest);
    if t != "" {
      InkSplits(t, 1);
    }
    if StartsWith(t, '.') {
      QualifiedInk(d, name, t[1..]);
    } else if StartsWith(t, '(') {
      ArgsInk(d, t[1..]);
    }
  }

  lemma {:induction false} QualifiedInk(d: Dialect, first: string, s: string)
    requires ParseQualified(d, first, s).Ok?
    ensures TreeInk(ParseQualified(d, first, s).value) + Ink(ParseQualified(d, first, s).rest) <= Ink(first) + Ink(s)
    decreases |s|, 1
  {
    hide ParseIdent, ParseArgs, IsAuth, IsDomain, ValidateCall, Ink;
    IdentInk(s);
    var t := SkipSpaces(ParseIdent(s).rest);
    InkSkips(ParseIdent(s).rest);
    if t != "" {
      InkSplits(t, 1);
    }
    if IsAuth(first) || (IsDomain(first) && StartsWith(t, '(')) {
      ArgsInk(d, t[1..]);
    } else if !IsDomain(first) && StartsWith(t, '.') {
      IdentInk(t[1..]);
    }
  }

  lemma {:induction false} ArgsInk(d: Dialect, s: string)
    requires ParseArgs(d, s).Ok?
    ensures ListInk(ParseArgs(d, s).value) + Ink(ParseArgs(d, s).rest) <= Ink(s)
    decreases |s|, 9
  {
    hide ArgsLoop, Ink;
    var t := SkipSpaces(s);
    InkSkips(s);
    if StartsWith(t, ')') {
      InkSplits(t, 1);
    } else {
      ArgsLoopInk(d, [], t);
    }
  }

  lemma {:induction false} ArgsLoopInk(d: Dialect, args: seq<Expr>, s: string)
    requires ArgsLoop(d, args, s).Ok?
    ensures ListInk(ArgsLoop(d, args, s).value) + Ink(ArgsLoop(d, args, s).rest) <= ListInk(args) + Ink(s)
    decreases |s|, 8
  {
    hide ParseOr, Ink, TreeInk, ListInk;
    OrInk(d, s);
    var arg := ParseOr(d, s);
    ListInkMore(args, arg.value);
    var t := SkipSpaces(arg.rest);
    InkSkips(arg.rest);
    InkSplits(t, 1);
    if StartsWith(t, ',') {
      ArgsLoopInk(d, args + [arg.value], t[1..]);
    }
  }

  lemma {:induction false} ListTextInk(d: Dialect, s: string)
    requires ParseList(d, s).Ok?
    ensures ListInk(ParseList(d, s).value) + Ink(ParseList(d, s).rest) <= Ink(s)
    decreases |s|, 9
  {
    hide ListLoop, Ink;
    var t := SkipSpaces(s);
    InkSkips(s);
    InkSplits(t, 1);
    var u := SkipSpaces(t[1..]);
    InkSkips(t[1..]);
    if StartsWith(u, ')') {
      InkSplits(u, 1);
    } else {
      ListLoopInk(d, [], u);
    }
  }

  lemma {:induction false} ListLoopInk(d: Dialect, items: seq<Expr>, s: string)
    requires ListLoop(d, items, s).Ok?
    ensures ListInk(ListLoop(d, items, s).value) + Ink(ListLoop(d, items, s).rest) <= ListInk(items) + Ink(s)
    decreases |s|, 8
  {
    hide ParsePrimary, Ink, TreeInk, ListInk;
    PrimaryInk(d, s);
    var item := ParsePrimary(d, s);
    ListInkMore(items, item.value);
    var t := SkipSpaces(item.rest);
    InkSkips(item.rest);
    InkSplits(t, 1);
    if StartsWith(t, ',') {
      ListLoopInk(d, items + [item.value], t[1..]);
    }
  }

  /** Whatever is read from a text needs no more ink than the text has. */
  lemma ParseInk(d: Dialect, s: string)
    requires Parse(d, s).Success?
    ensures TreeInk(Parse(d, s).expr) <= Ink(s)
  {
    hide Ink, TreeInk, ParseOr;
    OrInk(d, s);
  }

  // Evaluation spends exactly what the tree needs, except where it writes a bare minus

  lemma {:induction false} EscapeInk(s: string)
    ensures Ink(Escape(s)) == Ink(s)
  {
    if s != "" {
      EscapeInk(s[1..]);
      InkOfBoth(if s[0] == '\'' then "''" else [s[0]], Escape(s[1..]));
      InkSplits(s, 1);
      assert s[..1] == [s[0]];
    }
  }

  lemma QuotesInk(s: string)
    ensures Ink("'" + s + "'") == Ink("\"" + s + "\"") == Ink("(" + s + ")") == Ink(s)
  {
    hide Ink;
    PunctuationInk();
    InkOfBoth("'", s);
    InkOfBoth("'" + s, "'");
    InkOfBoth("\"", s);
    InkOfBoth("\"" + s, "\"");
    InkOfBoth("(", s);
    InkOfBoth("(" + s, ")");
  }

  predicate Inkless(s: string) {
    forall i | 0 <= i < |s| :: Lower(s[i]) != 'e'
  }

  lemma {:induction false} InklessInk(s: string)
    requires Inkless(s)
    ensures Ink(s) == 0
  {
    if s != "" {
      InklessInk(s[1..]);
    }
  }

  lemma PunctuationInk()
    ensures Ink("'") == Ink("\"") == Ink("(") == Ink(")") == Ink("-") == Ink("(-") == Ink(", ") == Ink(" ") == 0
    ensures Ink("(NOT ") == Ink(" IS NULL)") == Ink(" IS NOT NULL)") == Ink(" IN (") == Ink(" NOT IN (") == 0
    ensures Ink("))") == Ink(".") == Ink("\".\"") == Ink(" = '") == Ink("')") == Ink(Eq.AsSql()) == 0
  {
    hide Ink;
    forall s | Inkless(s)
      ensures Ink(s) == 0
    {
      InklessInk(s);
    }
    assert Inkless("(NOT ") && Inkless(" IS NULL)") && Inkless(" IS NOT NULL)");
    assert Inkless(" IN (") && Inkless(" NOT IN (") && Inkless(", ") && Inkless("(-");
    assert Inkless("'") && Inkless("\"") && Inkless("(") && Inkless(")") && Inkless("-");
    assert Inkless(" ") && Inkless("))") && Inkless(".") && Inkless("\".\"") && Inkless(" = '") && Inkless("')");
    assert Inkless("=");
  }

  lemma {:induction false} DigitsInk(s: string)
    requires AllDigits(s)
    ensures Ink(s) == 0
  {
    if s != "" {
      DigitsInk(s[1..]);
    }
  }

  lemma LiteralInk(lit: Literal)
    requires !lit.Float?
    ensures Ink(EvalLiteral(lit).AsSql()) == TreeInk(Lit(lit))
  {
    hide Ink, Escape;
    ConstantInk();
    match lit
    case Int(n) =>
      DigitsInk(Numeral(if n < 0 then -n else n));
      PunctuationInk();
      InkOfBoth("-", Numeral(if n < 0 then -n else n));
    case String(s) =>
      EscapeInk(s);
      QuotesInk(Escape(s));
    case _ =>
  }

  lemma QuotedIdInk(value: Option<string>)
    ensures Ink(Quoted(value).AsSql()) == TreeInk(TextOrNull(value).Tree())
  {
    hide Ink;
    ConstantInk();
    if value.Some? {
      QuotesInk(value.value);
    }
  }

  lemma BuiltinInk(name: string, args: seq<Expr>, ctx: Context)
    ensures Ink(EvalAuthBuiltin(name, args, ctx).AsSql()) == TreeInk(SpecialBuiltin(name, args, ctx).Tree())
  {
    hide Ink, Escape;
    ConstantInk();
    QuotedIdInk(ctx.userId);
    QuotedIdInk(ctx.orgId);
    QuotedIdInk(ctx.sessionId);
    if ctx.email.Some? {
      LiteralInk(String(ctx.email.value));
    }
  }

  lemma PairInk(a: string, b: string)
    ensures Ink("\"" + a + "\".\"" + b + "\"") == Ink(a + "." + b) == Ink(a) + Ink(b)
  {
    hide Ink;
    PunctuationInk();
    InkOfBoth("\"", a);
    InkOfBoth("\"" + a, "\".\"");
    InkOfBoth("\"" + a + "\".\"", b);
    InkOfBoth("\"" + a + "\".\"" + b, "\"");
    InkOfBoth(a, ".");
    InkOfBoth(a + ".", b);
  }

  lemma InOrgInk(r: EvalResult, ctx: Context)
    ensures Ink(EvalInOrg(r, ctx).AsSql()) ==
            if r.Const? || ctx.orgId.None? then 1 else Ink(r.AsSql()) + Ink(ctx.orgId.value)
  {
    hide Ink;
    ConstantInk();
    PunctuationInk();
    if r.Residual? && ctx.orgId.Some? {
      var org := ctx.orgId.value;
      InkOfBoth("(", r.sql);
      InkOfBoth("(" + r.sql, " = '");
      InkOfBoth("(" + r.sql + " = '", org);
      InkOfBoth("(" + r.sql + " = '" + org, "')");
    }
  }

  lemma CombinedInk(l: EvalResult, op: BinaryOp, r: EvalResult)
    ensures Ink(Combined(l, op, r).AsSql()) == Ink(l.AsSql()) + Ink(op.AsSql()) + Ink(r.AsSql())
  {
    hide Ink, BinaryOp.AsSql;
    PunctuationInk();
    var a, o, b := l.AsSql(), op.AsSql(), r.AsSql();
    InkOfBoth("(", a);
    InkOfBoth("(" + a, " ");
    InkOfBoth("(" + a + " ", o);
    InkOfBoth("(" + a + " " + o, " ");
    InkOfBoth("(" + a + " " + o + " ", b);
    InkOfBoth("(" + a + " " + o + " " + b, ")");
    assert Combined(l, op, r).AsSql() == "(" + a + " " + o + " " + b + ")";
  }

  lemma UnaryInk(op: UnaryOp, x: EvalResult)
    ensures Ink(EvalUnary(op, x).AsSql()) == if x.Residual? then Ink(x.sql) else if op == Not then 1 else 0
  {
    hide Ink;
    ConstantInk();
    PunctuationInk();
    if x.Residual? {
      InkOfBoth("(NOT ", x.sql);
      InkOfBoth("(NOT " + x.sql, ")");
      InkOfBoth("(-", x.sql);
      InkOfBoth("(-" + x.sql, ")");
    }
  }

  lemma NullInk(x: EvalResult, negated: bool)
    ensures Ink(EvalIsNull(x, negated).AsSql()) == if x.Residual? then Ink(x.sql) else 1
  {
    hide Ink;
    ConstantInk();
    PunctuationInk();
    if x.Residual? {
      var end := if negated then " IS NOT NULL)" else " IS NULL)";
      InkOfBoth("(", x.sql);
      InkOfBoth("(" + x.sql, end);
      assert "(" + x.sql + (if negated then " IS NOT NULL" else " IS NULL") + ")" == "(" + x.sql + end;
    }
  }

  function TextsInk(parts: seq<string>): nat {
    if parts == [] then 0 else TextsInk(parts[..|parts| - 1]) + Ink(parts[|parts| - 1])
  }

  lemma {:induction false} JoinInk(parts: seq<string>)
    ensures Ink(Join(parts, ", ")) == TextsInk(parts)
  {
    hide Ink;
    NoInk();
    PunctuationInk();
    if parts != [] {
      var n := |parts| - 1;
      JoinInk(parts[..n]);
      if n > 0 {
        InkOfBoth(Join(parts[..n], ", "), ", ");
        InkOfBoth(Join(parts[..n], ", ") + ", ", parts[n]);
      }
    }
  }

  lemma InInk(x: EvalResult, list: seq<EvalResult>, negated: bool)
    ensures var parts := seq(|list|, i requires 0 <= i < |list| => list[i].AsSql());
            Ink(EvalInList(x, list, negated).AsSql()) == Ink(x.AsSql()) + TextsInk(parts)
  {
    hide Ink, EvalResult.AsSql, TextsInk;
    PunctuationInk();
    var parts := seq(|list|, i requires 0 <= i < |list| => list[i].AsSql());
    var open := if negated then " NOT IN (" else " IN (";
    var items := Join(parts, ", ");
    JoinInk(parts);
    InkOfBoth("(", x.AsSql());
    InkOfBoth("(" + x.AsSql(), open);
    InkOfBoth("(" + x.AsSql() + open, items);
    InkOfBoth("(" + x.AsSql() + open + items, "))");
    TextOf(EvalInList(x, list, negated).sql);
  }

  lemma TextOf(sql: string)
    ensures Residual(sql).AsSql() == sql
  {
  }

  /** The result is the constant that is known, or text with all the ink of its tree exactly when `whole`. */
  predicate Spends(r: EvalResult, s: Special, whole: bool) {
    && (s.Known? <==> r.Const?) && (s.Known? ==> r.b == s.b && whole)
    && if whole then Ink(r.AsSql()) == TreeInk(s.Tree()) else Ink(r.AsSql()) < TreeInk(s.Tree())
  }

  lemma BinarySpends(op: BinaryOp, l: EvalResult, ls: Special, lw: bool, r: EvalResult, rs: Special, rw: bool)
    requires Spends(l, ls, lw) && Spends(r, rs, rw)
    ensures var s := SpecialBinary(op, ls, rs); Spends(EvalBinary(op, l, r), s, s.Known? || (lw && rw))
  {
    hide Ink, BinaryOp.AsSql, Combined;
    ConstantInk();
    CombinedInk(l, op, r);
    CombinedIsResidual(l, op, r);
  }

  lemma CombinedIsResidual(l: EvalResult, op: BinaryOp, r: EvalResult)
    ensures Combined(l, op, r).Residual?
  {
  }

  lemma InOrgSpends(x: EvalResult, s: Special, whole: bool, ctx: Context)
    requires Spends(x, s, whole)
    ensures var t := SpecialInOrg(s, ctx); Spends(EvalInOrg(x, ctx), t, t.Known? || whole)
  {
    hide Ink, BinaryOp.AsSql;
    InOrgInk(x, ctx);
    PunctuationInk();
    if s.Open? && ctx.orgId.Some? {
      var org := Lit(String(ctx.orgId.value));
      assert TreeInk(Binary(s.expr, Eq, org)) == TreeInk(s.expr) + Ink(Eq.AsSql()) + TreeInk(org);
    }
  }

  lemma UnarySpends(op: UnaryOp, x: EvalResult, s: Special, whole: bool)
    requires Spends(x, s, whole)
    ensures var t := if s.Known? && op == Not then Known(!s.b) else Open(Unary(op, s.Tree()));
            Spends(EvalUnary(op, x), t, t.Known? || (whole && (op == Minus ==> s.Open?)))
  {
    hide Ink;
    UnaryInk(op, x);
  }

  lemma NullSpends(x: EvalResult, s: Special, whole: bool, negated: bool)
    requires Spends(x, s, whole)
    ensures var t := if s.Known? then Known(negated) else Open(IsNull(s.expr, negated));
            Spends(EvalIsNull(x, negated), t, t.Known? || whole)
  {
    hide Ink;
    NullInk(x, negated);
  }

  lemma BuiltinSpends(name: string, args: seq<Expr>, ctx: Context)
    ensures Spends(EvalAuthBuiltin(name, args, ctx), SpecialBuiltin(name, args, ctx), true)
  {
    hide Ink;
    BuiltinInk(name, args, ctx);
  }

  /** Emitted text has all the ink of its tree exactly when the policy is emittable. */
  lemma {:induction false} EvaluationSpends(e: Expr, ctx: Context)
    requires FloatFree(e)
    ensures Spends(Evaluate(e, ctx), Specialize(e, ctx), Emittable(e, ctx))
    decreases e
  {
    hide Ink, Spends, EvalAuthBuiltin, SpecialBuiltin, EvalInOrg, SpecialInOrg, EvalUnary, EvalIsNull;
    hide EvalBinary, SpecialBinary, EvalInList;
    match e
    case Lit(lit) =>
      LeafSpends(e, ctx);
    case Column(_) =>
      LeafSpends(e, ctx);
    case QualifiedColumn(_, _) =>
      LeafSpends(e, ctx);
    case DomainBuiltin(_, _, _) =>
      LeafSpends(e, ctx);
    case Subquery(_) =>
      LeafSpends(e, ctx);
    case AuthBuiltin(name, args) =>
      if name == "in_org" && |args| > 0 {
        EvaluationSpends(args[0], ctx);
        InOrgSpends(Evaluate(args[0], ctx), Specialize(args[0], ctx), Emittable(args[0], ctx), ctx);
      } else {
        BuiltinSpends(name, args, ctx);
      }
    case Binary(l, op, r) =>
      EvaluationSpends(l, ctx);
      EvaluationSpends(r, ctx);
      BinarySpends(op, Evaluate(l, ctx), Specialize(l, ctx), Emittable(l, ctx),
                   Evaluate(r, ctx), Specialize(r, ctx), Emittable(r, ctx));
    case Unary(op, x) =>
      EvaluationSpends(x, ctx);
      UnarySpends(op, Evaluate(x, ctx), Specialize(x, ctx), Emittable(x, ctx));
    case IsNull(x, negated) =>
      EvaluationSpends(x, ctx);
      NullSpends(Evaluate(x, ctx), Specialize(x, ctx), Emittable(x, ctx), negated);
    case InList(x, list, negated) =>
      EvaluationSpends(x, ctx);
      ItemsInk(list, ctx);
      InSpends(x, list, negated, ctx);
  }

  lemma LeafSpends(e: Expr, ctx: Context)
    requires e.Lit? || e.Column? || e.QualifiedColumn? || e.DomainBuiltin? || e.Subquery?
    requires FloatFree(e)
    ensures Spends(Evaluate(e, ctx), Specialize(e, ctx), Emittable(e, ctx))
  {
    hide Ink, Escape, Numeral;
    NoInk();
    match e
    case Lit(lit) =>
      LiteralInk(lit);
      assert EvalLiteral(lit).Const? <==> lit.Bool?;
      assert lit.Bool? ==> EvalLiteral(lit) == Const(lit.b);
    case Column(name) =>
      QuotesInk(name);
    case QualifiedColumn(table, column) =>
      PairInk(table, column);
    case DomainBuiltin(domain, property, _) =>
      PairInk(domain, property);
      assert TreeInk(DomainBuiltin(domain, property, [])) == Ink(domain) + Ink(property) + ListInk([]);
    case Subquery(sql) =>
      QuotesInk(sql);
  }

  lemma InSpends(x: Expr, list: seq<Expr>, negated: bool, ctx: Context)
    requires Spends(Evaluate(x, ctx), Specialize(x, ctx), Emittable(x, ctx))
    requires var trees := seq(|list|, i requires 0 <= i < |list| => Specialize(list[i], ctx).Tree());
             if forall i | 0 <= i < |list| :: Emittable(list[i], ctx)
             then TextsInk(Texts(list, ctx)) == ListInk(trees)
             else TextsInk(Texts(list, ctx)) < ListInk(trees)
    ensures var e := InList(x, list, negated); Spends(Evaluate(e, ctx), Specialize(e, ctx), Emittable(e, ctx))
  {
    hide Ink, EvalInList, TextsInk, ListInk, EvalResult.AsSql;
    var results := seq(|list|, i requires 0 <= i < |list| => Evaluate(list[i], ctx));
    InInk(Evaluate(x, ctx), results, negated);
    assert seq(|results|, i requires 0 <= i < |results| => results[i].AsSql()) == Texts(list, ctx);
    InIsResidual(Evaluate(x, ctx), results, negated);
  }

  lemma InIsResidual(x: EvalResult, list: seq<EvalResult>, negated: bool)
    ensures EvalInList(x, list, negated).Residual?
  {
  }

  function Texts(list: seq<Expr>, ctx: Context): seq<string> {
    seq(|list|, i requires 0 <= i < |list| => Evaluate(list[i], ctx).AsSql())
  }

  lemma {:induction false} ItemsInk(list: seq<Expr>, ctx: Context)
    requires forall i | 0 <= i < |list| :: FloatFree(list[i])
    ensures var trees := seq(|list|, i requires 0 <= i < |list| => Specialize(list[i], ctx).Tree());
            if forall i | 0 <= i < |list| :: Emittable(list[i], ctx)
            then TextsInk(Texts(list, ctx)) == ListInk(trees)
            else TextsInk(Texts(list, ctx)) < ListInk(trees)
    decreases list
  {
    hide Ink, Evaluate, Specialize, Emittable, FloatFree, TreeInk, EvalResult.AsSql;
    if list != [] {
      var n := |list| - 1;
      var trees := seq(|list|, i requires 0 <= i < |list| => Specialize(list[i], ctx).Tree());
      ItemsInk(list[..n], ctx);
      EvaluationSpends(list[n], ctx);
      assert Texts(list, ctx)[..n] == Texts(list[..n], ctx);
      assert trees[..n] == seq(n, i requires 0 <= i < n => Specialize(list[..n][i], ctx).Tree());
      assert forall i | 0 <= i < n :: list[..n][i] == list[i];
    }
  }

  /**
   Emitted text can be read back as the specialised policy exactly when no minus on TRUE or
   FALSE is left in it. Elsewhere it may still be read as something else.
   */
  lemma ReadsBackIff(e: Expr, ctx: Context)
    requires Printable(e, true) && FloatFree(e) && ctx.IdsHaveNoQuote()
    requires Evaluate(e, ctx).Residual?
    ensures Parse(EmittedSql, Evaluate(e, ctx).sql) == Success(Specialize(e, ctx).Tree()) <==> Emittable(e, ctx)
  {
    hide Piece;
    var sql := Evaluate(e, ctx).sql;
    if Emittable(e, ctx) {
      EvaluationShows(EmittedSql, e, ctx);
      PieceParses(EmittedSql, sql, Specialize(e, ctx).Tree());
    } else if Parse(EmittedSql, sql).Success? {
      EvaluationSpends(e, ctx);
      ParseInk(EmittedSql, sql);
    }
  }
}
