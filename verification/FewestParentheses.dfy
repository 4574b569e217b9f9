/** The printer writes no parentheses in vain: without them the grammar would read something else. */
module FewestParentheses {
  import opened PolicyAst
  import opened AsciiText
  import opened Lexing
  import opened Grammar
  import opened Reading
  import opened Atoms
  import opened PolicyPrinter

  /** What a level of the grammar reads first from a text. */
  function First(level: Level, d: Dialect, text: string): Grammar.Reading<Expr> {
    match level
    case PrimaryLevel => ParsePrimary(d, text)
    case NotLevel => ParseNot(d, text)
    case AndLevel => ParseAnd(d, text)
    case OrLevel => ParseOr(d, text)
  }

  /** The size of the operators around the leftmost leaf and beside it. */
  function Size(e: Expr): nat {
    match e
    case Binary(l, _, r) => 1 + Size(l) + Size(r)
    case Unary(_, x) => 1 + Size(x)
    case IsNull(x, _) => 1 + Size(x)
    case InList(x, _, _) => 1 + Size(x)
    case _ => 0
  }

  predicate IsNameOrCall(e: Expr) {
    e.Column? || e.QualifiedColumn? || e.AuthBuiltin? || e.DomainBuiltin?
  }

  predicate Falls(r: Grammar.Reading<Expr>, e: Expr) {
    r.Ok? ==> IsNameOrCall(r.value) || Size(r.value) < Size(e)
  }

  /** The operand that an operator's text begins with, and the level it is printed at. */
  function Operand(e: Expr): (Expr, Level)
    requires e.Binary? || e.IsNull? || e.InList?
  {
    match e
    case Binary(l, op, _) => (l, if op == Or then OrLevel else if op == And then AndLevel else PrimaryLevel)
    case _ => (e.operand, PrimaryLevel)
  }

  /** What an operator's text has after its first operand. */
  function Tail(e: Expr): string
    requires e.Binary? || e.IsNull? || e.InList?
  {
    match e
    case Binary(_, Or, r) => " OR " + Print(r, AndLevel)
    case Binary(_, And, r) => " AND " + Print(r, NotLevel)
    case Binary(_, op, r) => " " + op.AsSql() + " " + Print(r, PrimaryLevel)
    case IsNull(_, negated) => if negated then " IS NOT NULL" else " IS NULL"
    case InList(_, list, negated) =>
      (if negated then " NOT IN (" else " IN (") + Join(Args(list, PrimaryLevel), ", ") + ")"
  }

  lemma BodySplits(e: Expr, rest: string)
    requires e.Binary? || e.IsNull? || e.InList?
    ensures Body(e) + rest == Print(Operand(e).0, Operand(e).1) + (Tail(e) + rest)
  {
    hide Print, Args;
    var a := Print(Operand(e).0, Operand(e).1);
    assert Body(e) == a + Tail(e) by {
      if e.Binary? && e.op == Or {
        assert Body(e) == a + " OR " + Print(e.right, AndLevel);
      } else if e.Binary? && e.op == And {
        assert Body(e) == a + " AND " + Print(e.right, NotLevel);
      } else if e.Binary? {
        assert Body(e) == a + " " + e.op.AsSql() + " " + Print(e.right, PrimaryLevel);
      } else if e.InList? {
        var items := Join(Args(e.list, PrimaryLevel), ", ");
        assert Body(e) == a + (if e.negated then " NOT IN (" else " IN (") + items + ")";
      }
    }
  }

  lemma TailStops(e: Expr, level: Level, rest: string)
    requires (e.Binary? || e.IsNull? || e.InList?) && LevelOf(e).Rank() < level.Rank()
    ensures Stops(level, Tail(e) + rest)
    ensures level == AndLevel ==> Stops(OrLevel, Tail(e) + rest)
  {
    hide Print, Args, Stops;
    match e
    case Binary(_, op, r) =>
      if op == Or {
        assert Tail(e) + rest == " OR " + (Print(r, AndLevel) + rest);
        LogicStops(Print(r, AndLevel) + rest);
        StopsWeaken(Tail(e) + rest, OrLevel, level);
      } else if op == And {
        assert Tail(e) + rest == " AND " + (Print(r, NotLevel) + rest);
        LogicStops(Print(r, NotLevel) + rest);
        StopsWeaken(Tail(e) + rest, AndLevel, level);
      } else {
        assert Tail(e) + rest == " " + op.AsSql() + " " + (Print(r, PrimaryLevel) + rest);
        OperatorStops(op.AsSql(), op, Print(r, PrimaryLevel) + rest);
      }
    case IsNull(_, negated) =>
      TestStops(negated, rest);
    case InList(_, list, negated) =>
      var items := Join(Args(list, PrimaryLevel), ", ");
      var open := if negated then " NOT IN (" else " IN (";
      assert Tail(e) + rest == open + (items + ")" + rest);
      TestStops(negated, items + ")" + rest);
  }

  /** Read at a level that it was not printed for, a text gives only something from its beginning. */
  lemma {:induction false} ReadsTooLittle(d: Dialect, e: Expr, level: Level, rest: string)
    requires Printable(e, false) && LevelOf(e).Rank() < level.Rank()
    ensures Falls(First(level, d, Body(e) + rest), e)
    ensures level != PrimaryLevel ==> First(level, d, Body(e) + rest).Ok?
    ensures level == AndLevel || level == NotLevel ==> Size(First(level, d, Body(e) + rest).value) < Size(e)
    decreases e
  {
    hide Print, Body, Stops, First, Reads;
    if e.Unary? {
      NotIsAName(d, e.operand, rest);
    } else {
      var (x, at) := Operand(e);
      var tail := Tail(e) + rest;
      BodySplits(e, rest);
      TailStops(e, level, rest);
      if at.Rank() <= LevelOf(x).Rank() < level.Rank() {
        assert Print(x, at) == Body(x) by { PrintsBare(x, at); }
        ReadsTooLittle(d, x, level, tail);
      } else {
        assert Print(x, at) == Print(x, level) by { PrintsSame(x, at, level); }
        PrintedReads(d, x, level, false, tail);
        FirstIs(level, d, Print(x, level), x, tail);
      }
    }
  }

  lemma PrintsBare(x: Expr, at: Level)
    requires at.Rank() <= LevelOf(x).Rank()
    ensures Print(x, at) == Body(x)
  {
  }

  lemma PrintsSame(x: Expr, at: Level, level: Level)
    requires at.Rank() <= level.Rank() && !(at.Rank() <= LevelOf(x).Rank() < level.Rank())
    ensures Print(x, at) == Print(x, level)
  {
  }

  lemma FirstIs(level: Level, d: Dialect, s: string, x: Expr, rest: string)
    requires level != OrLevel && Reads(level, d, s, x, rest)
    requires level == AndLevel ==> Stops(OrLevel, rest)
    ensures First(level, d, s + rest).Ok? && First(level, d, s + rest).value == x
  {
    hide ParsePrimary, ParseNot, ParseAnd, AndLoop, Stops;
    if level == AndLevel {
      AndStops(d, x, rest);
    }
  }

  /** At a primary, NOT is an ordinary name. */
  lemma NotIsAName(d: Dialect, x: Expr, rest: string)
    ensures var r := First(PrimaryLevel, d, Body(Unary(Not, x)) + rest); r.Ok? ==> IsNameOrCall(r.value)
  {
    hide ParsePrimary, Print, AtKeyword, ParseIdentOrCall;
    var text := Body(Unary(Not, x)) + rest;
    assert text == "NOT " + (Print(x, NotLevel) + rest);
    WordFirst(d, text);
    KeywordElsewhere(text, "TRUE", 0);
    KeywordElsewhere(text, "FALSE", 0);
    KeywordElsewhere(text, "NULL", 1);
    if ParseIdentOrCall(d, text).Ok? {
      CallOrName(d, text);
    }
  }

  lemma CallOrName(d: Dialect, s: string)
    requires ParseIdentOrCall(d, s).Ok?
    ensures IsNameOrCall(ParseIdentOrCall(d, s).value)
  {
    hide ParseIdent, ParseArgs, IsAuth, IsDomain;
  }

  lemma {:induction false} AndLoopGrows(d: Dialect, e: Expr, s: string)
    requires AndLoop(d, e, s).Ok?
    ensures Size(AndLoop(d, e, s).value) >= Size(e)
    decreases |s|
  {
    hide ParseNot, AtKeyword;
    var t := SkipSpaces(s);
    if AtKeyword(t, "AND") {
      assert |t| >= 3 by { WordLength(t); }
      var right := ParseNot(d, t[3..]);
      AndLoopGrows(d, Binary(e, And, right.value), right.rest);
    }
  }

  lemma WordLength(t: string)
    requires AtKeyword(t, "AND")
    ensures |t| >= 3
  {
  }

  /**
   Where the printer puts an expression into parentheses, its text without them is not read as
   the expression by the level that stands there, whatever follows.
   */
  lemma ParenthesesNeeded(d: Dialect, e: Expr, level: Level, rest: string)
    requires Printable(e, false) && Print(e, level) != Body(e)
    ensures !Reads(level, d, Body(e), e, rest)
  {
    hide Print, Body, ParsePrimary, ParseNot, ParseAnd, AndLoop;
    assert LevelOf(e).Rank() < level.Rank() by { OnlyThenParenthesised(e, level); }
    ReadsTooLittle(d, e, level, rest);
    if level == AndLevel && Reads(level, d, Body(e), e, rest) {
      AndLoopGrows(d, e, SkipSpaces(rest));
    }
  }

  lemma OnlyThenParenthesised(e: Expr, level: Level)
    requires Print(e, level) != Body(e)
    ensures LevelOf(e).Rank() < level.Rank()
  {
  }
}
