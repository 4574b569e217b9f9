/**
 How the grammar reads text that is put together from readable pieces.

 `Reads(level, d, s, e, rest)` says that, in front of `rest`, the text `s` is read as `e` by
 the grammar level `level`. The lemmas below build larger readings from smaller ones. They
 serve both the printer of whole policies and the text that evaluation emits.
 */
module Reading {
  import opened PolicyAst
  import opened AsciiText
  import opened Lexing
  import opened Grammar

  /** The four grammar levels that printed text distinguishes. */
  datatype Level = OrLevel | AndLevel | NotLevel | PrimaryLevel {
    function Rank(): nat {
      match this
      case OrLevel => 0
      case AndLevel => 1
      case NotLevel => 2
      case PrimaryLevel => 3
    }
  }

  /** Text that ends a primary: no letter, digit, quote, dot or call can attach to it. */
  predicate EndsPrimary(rest: string) {
    && (rest != "" ==> rest[0] in {' ', ')', ','})
    && var t := SkipSpaces(rest);
       t == "" || (t[0] != '.' && t[0] != '(')
  }

  predicate StopsExpr(rest: string) {
    EndsPrimary(rest) && var t := SkipSpaces(rest); t == "" || t[0] in {')', ','}
  }

  /** What may follow text that was written for a level. */
  predicate Stops(level: Level, rest: string) {
    match level
    case PrimaryLevel => EndsPrimary(rest)
    case OrLevel => StopsExpr(rest) || (EndsPrimary(rest) && AtKeyword(SkipSpaces(rest), "OR"))
    case _ =>
      StopsExpr(rest) ||
      (EndsPrimary(rest) && (AtKeyword(SkipSpaces(rest), "OR") || AtKeyword(SkipSpaces(rest), "AND")))
  }

  /** Same value, and the same text left over once space is skipped. */
  predicate Yields(r: Reading<Expr>, e: Expr, rest: string) {
    r.Ok? && r.value == e && SkipSpaces(r.rest) == SkipSpaces(rest)
  }

  predicate Reads(level: Level, d: Dialect, s: string, e: Expr, rest: string) {
    match level
    case PrimaryLevel => Yields(ParsePrimary(d, s + rest), e, rest)
    case NotLevel => Yields(ParseNot(d, s + rest), e, rest)
    case AndLevel => ParseAnd(d, s + rest) == AndLoop(d, e, SkipSpaces(rest))
    case OrLevel => ParseOr(d, s + rest) == OrLoop(d, e, SkipSpaces(rest))
  }

  /** The text does not begin with the word NOT. */
  predicate NotNegated(s: string) {
    !AtKeyword(SkipSpaces(s), "NOT")
  }

  // Space in front of a piece is never significant.

  lemma PrimarySkips(d: Dialect, s: string)
    ensures ParsePrimary(d, SkipSpaces(s)) == ParsePrimary(d, s)
  {
    hide ParseOr, ParseNumber, ParseQuoted, ParseWord, ScanString;
    SkipTwice(s);
  }

  lemma SkipTwice(s: string)
    ensures SkipSpaces(SkipSpaces(s)) == SkipSpaces(s)
  {
  }

  lemma SpaceIgnored(d: Dialect, s: string)
    ensures ParsePrimary(d, " " + s) == ParsePrimary(d, s)
    ensures ParseNot(d, " " + s) == ParseNot(d, s)
    ensures ParseAnd(d, " " + s) == ParseAnd(d, s)
    ensures ParseOr(d, " " + s) == ParseOr(d, s)
  {
    hide ParseComparison, AtKeyword, SkipSpaces;
    SkipSpace(s);
    PrimarySkips(d, s);
    PrimarySkips(d, " " + s);
  }

  lemma LoopsSkip(d: Dialect, e: Expr, s: string)
    ensures AndLoop(d, e, SkipSpaces(s)) == AndLoop(d, e, s)
    ensures OrLoop(d, e, SkipSpaces(s)) == OrLoop(d, e, s)
  {
    SkipTwice(s);
  }

  // Climbing from one level to the next.

  lemma NothingFollows(d: Dialect, e: Expr, s: string, rest: string)
    requires SkipSpaces(s) == SkipSpaces(rest)
    requires Stops(NotLevel, rest)
    ensures AfterPrimary(d, e, s) == Ok(e, SkipSpaces(rest))
  {
    hide AtKeyword, SkipSpaces, AfterIs, ParseList;
    var t := SkipSpaces(rest);
    SkipTwice(s);
    if t == "" {
      EmptyHasNoWord();
    } else {
      StopStarts(rest);
      KeywordElsewhere(t, "IS", 0);
      KeywordElsewhere(t, "NOT", 0);
      KeywordElsewhere(t, "IN", 0);
      KeywordElsewhere(t, "LIKE", 0);
      KeywordElsewhere(t, "ILIKE", 0);
    }
    SkipTwice(rest);
    assert ComparisonAt(t) == Absent;
  }

  lemma EmptyHasNoWord()
    ensures forall word | word != "" :: !AtKeyword("", word)
  {
  }

  lemma StopStarts(rest: string)
    requires Stops(NotLevel, rest) && SkipSpaces(rest) != ""
    ensures var c := SkipSpaces(rest)[0]; c in {')', ','} || Lower(c) == 'o' || Lower(c) == 'a'
  {
  }

  lemma PrimaryToNot(d: Dialect, s: string, e: Expr, rest: string)
    requires Reads(PrimaryLevel, d, s, e, rest)
    requires Stops(NotLevel, rest) && NotNegated(s + rest)
    ensures Reads(NotLevel, d, s, e, rest)
  {
    hide ParsePrimary, AtKeyword, SkipSpaces, AfterPrimary;
    PrimarySkips(d, s + rest);
    NothingFollows(d, e, ParsePrimary(d, s + rest).rest, rest);
    SkipTwice(rest);
    assert ParseNot(d, s + rest) == ParseComparison(d, SkipSpaces(s + rest));
  }

  lemma NotToAnd(d: Dialect, s: string, e: Expr, rest: string)
    requires Reads(NotLevel, d, s, e, rest)
    ensures Reads(AndLevel, d, s, e, rest)
  {
    hide ParseNot, AndLoop;
    LoopsSkip(d, e, rest);
    LoopsSkip(d, e, ParseNot(d, s + rest).rest);
  }

  lemma AndToOr(d: Dialect, s: string, e: Expr, rest: string)
    requires Reads(AndLevel, d, s, e, rest)
    requires Stops(OrLevel, rest)
    ensures Reads(OrLevel, d, s, e, rest)
  {
    AndStops(d, e, rest);
    LoopsSkip(d, e, rest);
  }

  lemma AndStops(d: Dialect, e: Expr, rest: string)
    requires Stops(OrLevel, rest)
    ensures AndLoop(d, e, SkipSpaces(rest)) == Ok(e, SkipSpaces(rest))
  {
    SkipTwice(rest);
    var t := SkipSpaces(rest);
    assert t != "" ==> t[0] in {')', ','} || Lower(t[0]) == 'o';
  }

  lemma OrStops(d: Dialect, e: Expr, rest: string)
    requires StopsExpr(rest)
    ensures OrLoop(d, e, SkipSpaces(rest)) == Ok(e, SkipSpaces(rest))
  {
    SkipTwice(rest);
  }

  lemma StopsWeaken(rest: string, from: Level, to: Level)
    requires Stops(from, rest) && from.Rank() <= to.Rank()
    ensures Stops(to, rest)
  {
  }

  lemma {:induction false} Climb(d: Dialect, s: string, e: Expr, rest: string, from: Level, to: Level)
    requires Reads(from, d, s, e, rest)
    requires to.Rank() <= from.Rank() && Stops(to, rest)
    requires from == PrimaryLevel && to != PrimaryLevel ==> NotNegated(s + rest)
    ensures Reads(to, d, s, e, rest)
    decreases from.Rank()
  {
    hide Reads, Stops, NotNegated;
    if from != to {
      match from {
        case PrimaryLevel =>
          StopsWeaken(rest, to, NotLevel);
          PrimaryToNot(d, s, e, rest);
          Climb(d, s, e, rest, NotLevel, to);
        case NotLevel =>
          NotToAnd(d, s, e, rest);
          Climb(d, s, e, rest, AndLevel, to);
        case AndLevel =>
          AndToOr(d, s, e, rest);
      }
    }
  }

  // One step for each way of building text.

  /** Parentheses turn an expression into a primary. */
  lemma Parenthesised(d: Dialect, s: string, e: Expr, rest: string)
    requires Reads(OrLevel, d, s, e, ")" + rest)
    ensures Reads(PrimaryLevel, d, "(" + s + ")", e, rest)
    ensures NotNegated("(" + s + ")" + rest)
  {
    hide ParseOr, ParseNumber, ParseQuoted, ParseWord, ScanString, ParsePrimary;
    var tail := ")" + rest;
    var text := "(" + s + ")" + rest;
    assert text[1..] == s + tail;
    assert SkipSpaces(text) == text;
    assert SkipSpaces(tail) == tail;
    OrStops(d, e, tail);
    assert tail[1..] == rest;
    assert ParsePrimary(d, text) == Ok(e, rest) by { OpenParen(d, text, e, tail); }
  }

  lemma OpenParen(d: Dialect, text: string, e: Expr, tail: string)
    requires StartsWith(text, '(') && StartsWith(tail, ')')
    requires ParseOr(d, text[1..]) == Ok(e, tail)
    ensures ParsePrimary(d, text) == Ok(e, tail[1..])
  {
    hide ParseOr;
    assert SkipSpaces(text) == text && SkipSpaces(tail) == tail;
  }

  lemma NegatedWord(d: Dialect, s: string, e: Expr, rest: string)
    requires Reads(NotLevel, d, s, e, rest)
    ensures Reads(NotLevel, d, "NOT " + s, Unary(Not, e), rest)
  {
    hide ParseComparison;
    var text := "NOT " + s + rest;
    assert SkipSpaces(text) == text;
    assert text[3..] == " " + (s + rest);
    assert AtKeyword(text, "NOT");
    SpaceIgnored(d, s + rest);
  }

  lemma Minused(d: Dialect, s: string, e: Expr, rest: string)
    requires Reads(PrimaryLevel, d, s, e, rest)
    ensures Reads(PrimaryLevel, d, "-" + s, Unary(Minus, e), rest)
    ensures NotNegated("-" + s + rest)
  {
    hide ParseOr, ParseNumber, ParseQuoted, ParseWord, ScanString;
    var text := "-" + s + rest;
    assert SkipSpaces(text) == text;
    assert text[1..] == s + rest;
  }

  lemma Ored(d: Dialect, a: string, l: Expr, b: string, r: Expr, rest: string)
    requires Reads(OrLevel, d, a, l, " OR " + b + rest)
    requires Reads(AndLevel, d, b, r, rest) && Stops(OrLevel, rest)
    ensures Reads(OrLevel, d, a + " OR " + b, Binary(l, Or, r), rest)
  {
    hide ParseOr, ParseAnd, AndLoop, Stops, AtKeyword, SkipSpaces;
    var tail := " OR " + b + rest;
    assert a + " OR " + b + rest == a + tail;
    var word := "OR" + (" " + (b + rest));
    assert tail == " " + "OR" + (" " + (b + rest));
    KeywordHere("OR", " " + (b + rest));
    SpaceIgnored(d, b + rest);
    AndStops(d, r, rest);
    assert OrLoop(d, l, word) == OrLoop(d, Binary(l, Or, r), SkipSpaces(rest));
  }

  lemma Anded(d: Dialect, a: string, l: Expr, b: string, r: Expr, rest: string)
    requires Reads(AndLevel, d, a, l, " AND " + b + rest)
    requires Reads(NotLevel, d, b, r, rest)
    ensures Reads(AndLevel, d, a + " AND " + b, Binary(l, And, r), rest)
  {
    hide ParseAnd, ParseNot, AtKeyword, SkipSpaces;
    var tail := " AND " + b + rest;
    assert a + " AND " + b + rest == a + tail;
    var word := "AND" + (" " + (b + rest));
    assert tail == " " + "AND" + (" " + (b + rest));
    KeywordHere("AND", " " + (b + rest));
    SpaceIgnored(d, b + rest);
    var e := Binary(l, And, r);
    assert AndLoop(d, l, word) == AndLoop(d, e, ParseNot(d, b + rest).rest);
    LoopsSkip(d, e, rest);
    LoopsSkip(d, e, ParseNot(d, b + rest).rest);
  }

  /** After a left operand the grammar looks at what follows it. */
  lemma ThenAfter(d: Dialect, a: string, l: Expr, tail: string)
    requires Reads(PrimaryLevel, d, a, l, tail) && NotNegated(a + tail)
    ensures ParseNot(d, a + tail) == AfterPrimary(d, l, SkipSpaces(tail))
  {
    hide ParsePrimary, AtKeyword, SkipSpaces, AfterPrimary;
    PrimarySkips(d, a + tail);
    AfterSkips(d, l, tail);
    AfterSkips(d, l, ParsePrimary(d, a + tail).rest);
    assert ParseNot(d, a + tail) == ParseComparison(d, SkipSpaces(a + tail));
  }

  lemma AfterSkips(d: Dialect, l: Expr, s: string)
    ensures AfterPrimary(d, l, SkipSpaces(s)) == AfterPrimary(d, l, s)
  {
    hide AfterLeft, AfterIs, ParseList, AtKeyword, SkipSpaces;
    SkipTwice(s);
  }

  /** The two-character spellings of "not equal" mean the same; every other operator has one spelling. */
  predicate Signs(sign: string, op: BinaryOp) {
    !op.IsLogical() && (sign == op.AsSql() || (op.NotEq? && sign == "!="))
  }

  lemma OperatorSeen(sign: string, op: BinaryOp, x: string)
    requires Signs(sign, op)
    ensures var t := sign + " " + x;
            && SkipSpaces(t) == t
            && !AtKeyword(t, "IS") && !AtKeyword(t, "NOT") && !AtKeyword(t, "IN")
            && ComparisonAt(t) == Present(op, |sign|)
            && t[|sign|..] == " " + x
  {
    hide AtKeyword, SkipSpaces, StartsWithText;
    if op.Like? || op.ILike? {
      assert sign + " " + x == sign + (" " + x);
      WordOperatorSeen(op, " " + x);
    } else {
      SymbolSeen(sign, op, x);
    }
  }

  lemma SymbolSeen(sign: string, op: BinaryOp, x: string)
    requires Signs(sign, op) && !op.Like? && !op.ILike?
    ensures var t := sign + " " + x;
            && SkipSpaces(t) == t
            && !AtKeyword(t, "IS") && !AtKeyword(t, "NOT") && !AtKeyword(t, "IN")
            && ComparisonAt(t) == Present(op, |sign|)
            && t[|sign|..] == " " + x
  {
    hide AtKeyword;
    var t := sign + " " + x;
    assert t[0] == sign[0] && t[|sign|] == ' ' && (|sign| == 2 ==> t[1] == sign[1]);
    assert Lower(t[0]) == t[0];
    KeywordElsewhere(t, "NOT", 0);
    KeywordElsewhere(t, "IS", 0);
    KeywordElsewhere(t, "IN", 0);
    assert t[|sign|..] == " " + x;
  }

  lemma WordOperatorSeen(op: BinaryOp, x: string)
    requires op.Like? || op.ILike?
    requires EndsIdent(x)
    ensures var t := op.AsSql() + x;
            && SkipSpaces(t) == t
            && !AtKeyword(t, "IS") && !AtKeyword(t, "NOT") && !AtKeyword(t, "IN")
            && ComparisonAt(t) == Present(op, |op.AsSql()|)
            && t[|op.AsSql()|..] == x
  {
    hide AtKeyword, SkipSpaces;
    var sql := op.AsSql();
    var t := sql + x;
    assert t[0] == sql[0] && t[1] == sql[1];
    KeywordElsewhere(t, "NOT", 0);
    KeywordElsewhere(t, "IS", 1);
    KeywordElsewhere(t, "IN", 1);
    KeywordHere(sql, x);
    if op.ILike? {
      KeywordElsewhere(t, "LIKE", 0);
    }
  }

  lemma Compared(d: Dialect, a: string, l: Expr, sign: string, op: BinaryOp, b: string, r: Expr, rest: string)
    requires Signs(sign, op)
    requires Reads(PrimaryLevel, d, a, l, " " + sign + " " + b + rest)
    requires NotNegated(a + (" " + sign + " " + b + rest))
    requires Reads(PrimaryLevel, d, b, r, rest)
    ensures Reads(NotLevel, d, a + " " + sign + " " + b, Binary(l, op, r), rest)
  {
    hide ParsePrimary, ParseNot, AtKeyword, SkipSpaces, ComparisonAt, ParseList, NotNegated, Signs;
    var tail := " " + sign + " " + b + rest;
    var t := sign + " " + (b + rest);
    assert tail == " " + t;
    assert a + " " + sign + " " + b + rest == a + tail;
    ThenAfter(d, a, l, tail);
    SkipSpace(t);
    OperatorSeen(sign, op, b + rest);
    SpaceIgnored(d, b + rest);
    assert AfterPrimary(d, l, t) == AfterLeft(d, l, t);
    assert AfterLeft(d, l, t) == Ok(Binary(l, op, r), ParsePrimary(d, b + rest).rest);
  }

  lemma NullTested(d: Dialect, a: string, l: Expr, negated: bool, rest: string)
    requires Reads(PrimaryLevel, d, a, l, (if negated then " IS NOT NULL" else " IS NULL") + rest)
    requires NotNegated(a + ((if negated then " IS NOT NULL" else " IS NULL") + rest))
    requires EndsPrimary(rest)
    ensures Reads(NotLevel, d, a + (if negated then " IS NOT NULL" else " IS NULL"), IsNull(l, negated), rest)
  {
    hide ParsePrimary, ParseNot, NotNegated, AfterPrimary, AtKeyword, SkipSpaces;
    var test := if negated then " IS NOT NULL" else " IS NULL";
    var tail := test + rest;
    assert a + test + rest == a + tail;
    ThenAfter(d, a, l, tail);
    NullTestSeen(d, l, negated, rest);
  }

  lemma NullTestSeen(d: Dialect, l: Expr, negated: bool, rest: string)
    requires EndsPrimary(rest)
    ensures var tail := (if negated then " IS NOT NULL" else " IS NULL") + rest;
            AfterPrimary(d, l, SkipSpaces(tail)) == Ok(IsNull(l, negated), rest)
  {
    hide AfterLeft, ParseList, AfterIs, AtKeyword, SkipSpaces;
    var afterIs := (if negated then " NOT NULL" else " NULL") + rest;
    assert (if negated then " IS NOT NULL" else " IS NULL") + rest == " " + "IS" + afterIs;
    KeywordHere("IS", afterIs);
    AfterIsSeen(l, negated, rest);
  }

  lemma AfterIsSeen(l: Expr, negated: bool, rest: string)
    requires EndsPrimary(rest)
    ensures AfterIs(l, (if negated then " NOT NULL" else " NULL") + rest) == Ok(IsNull(l, negated), rest)
  {
    hide AtKeyword, SkipSpaces;
    KeywordHere("NULL", rest);
    if negated {
      var afterNot := " NULL" + rest;
      assert " NOT NULL" + rest == " " + "NOT" + afterNot;
      assert afterNot == " " + "NULL" + rest;
      KeywordHere("NOT", afterNot);
    } else {
      assert " NULL" + rest == " " + "NULL" + rest;
      KeywordElsewhere("NULL" + rest, "NOT", 1);
    }
  }

  lemma Listed(d: Dialect, a: string, l: Expr, negated: bool, items: string, list: seq<Expr>, rest: string)
    requires var open := if negated then " NOT IN (" else " IN (";
             Reads(PrimaryLevel, d, a, l, open + items + ")" + rest) && NotNegated(a + (open + items + ")" + rest))
    requires ParseList(d, "(" + items + ")" + rest) == Ok(list, rest)
    ensures Reads(NotLevel, d, a + (if negated then " NOT IN (" else " IN (") + items + ")",
                  InList(l, list, negated), rest)
  {
    hide ParsePrimary, ParseNot, NotNegated, AfterPrimary, AtKeyword, SkipSpaces, ParseList;
    var open := if negated then " NOT IN (" else " IN (";
    var tail := open + items + ")" + rest;
    assert a + open + items + ")" + rest == a + tail;
    ThenAfter(d, a, l, tail);
    var x := "(" + items + ")" + rest;
    assert tail == (if negated then " NOT IN " else " IN ") + x;
    ListSeen(d, l, negated, x, list, rest);
  }

  lemma ListSeen(d: Dialect, l: Expr, negated: bool, x: string, list: seq<Expr>, rest: string)
    requires ParseList(d, x) == Ok(list, rest)
    ensures var tail := (if negated then " NOT IN " else " IN ") + x;
            AfterPrimary(d, l, SkipSpaces(tail)) == Ok(InList(l, list, negated), rest)
  {
    hide AfterLeft, ParseList, AfterIs, AtKeyword, SkipSpaces;
    var afterIn := " " + x;
    var inWord := "IN" + afterIn;
    KeywordHere("IN", afterIn);
    KeywordElsewhere(inWord, "IS", 1);
    ListSkips(d, x);
    if negated {
      var afterNot := " " + "IN" + afterIn;
      var word := "NOT" + afterNot;
      assert " NOT IN " + x == " " + "NOT" + afterNot;
      KeywordHere("NOT", afterNot);
      KeywordElsewhere(word, "IS", 0);
    } else {
      assert " IN " + x == " " + "IN" + afterIn;
      KeywordElsewhere(inWord, "NOT", 0);
    }
  }

  lemma ListSkips(d: Dialect, x: string)
    ensures ParseList(d, " " + x) == ParseList(d, x)
  {
    SkipSpace(x);
  }

  // What may follow a piece of printed text.

  lemma SpacedWord(w: string)
    requires w != "" && !IsSpace(w[0]) && w[0] != '.' && w[0] != '('
    ensures Stops(PrimaryLevel, " " + w) && SkipSpaces(" " + w) == w
  {
    SkipSpace(w);
  }

  lemma LogicStops(rest: string)
    ensures Stops(OrLevel, " OR " + rest) && Stops(AndLevel, " AND " + rest)
  {
    assert " OR " + rest == " " + ("OR" + (" " + rest));
    assert " AND " + rest == " " + ("AND" + (" " + rest));
    SpacedWord("OR" + (" " + rest));
    SpacedWord("AND" + (" " + rest));
    KeywordHere("OR", " " + rest);
    KeywordHere("AND", " " + rest);
  }

  lemma OperatorStops(sign: string, op: BinaryOp, rest: string)
    requires Signs(sign, op)
    ensures Stops(PrimaryLevel, " " + sign + " " + rest)
  {
    hide Stops;
    var w := sign + " " + rest;
    assert " " + sign + " " + rest == " " + w;
    assert w[0] == sign[0];
    SpacedWord(w);
  }

  lemma TestStops(negated: bool, rest: string)
    ensures Stops(PrimaryLevel, (if negated then " IS NOT NULL" else " IS NULL") + rest)
    ensures Stops(PrimaryLevel, (if negated then " NOT IN (" else " IN (") + rest)
  {
    hide Stops;
    var w := (if negated then "IS NOT NULL" else "IS NULL") + rest;
    var v := (if negated then "NOT IN (" else "IN (") + rest;
    assert (if negated then " IS NOT NULL" else " IS NULL") + rest == " " + w;
    assert (if negated then " NOT IN (" else " IN (") + rest == " " + v;
    SpacedWord(w);
    SpacedWord(v);
  }

  lemma StopsEnds(level: Level, rest: string)
    requires Stops(level, rest)
    ensures EndsPrimary(rest) && Stops(PrimaryLevel, rest)
  {
  }
}
