/** Every sentence parses, to the tree that it is a sentence for; so the parser accepts exactly the sentences. */
module SentencesParse {
  import opened PolicyAst
  import opened AsciiText
  import opened Builtins
  import opened Lexing
  import opened Grammar
  import opened Tokens
  import opened Sentences
  import Atoms
  import Forms

  /** Tokens that cannot belong to a primary before them. */
  predicate StopsPrimary(more: seq<Token>) {
    !Marked(more, "(") && !Marked(more, ".")
  }

  /** Nor to a test before them. */
  ghost predicate StopsTest(more: seq<Token>) {
    && StopsPrimary(more)
    && !SaysFirst(more, "is") && !SaysFirst(more, "not") && !SaysFirst(more, "in")
    && (more != [] ==> forall op :: !IsSign(more[0], op))
  }

  predicate Gives(d: Dialect, r: Reading<Expr>, e: Expr, more: seq<Token>) {
    r.Ok? && r.value == e && TokensOf(d, r.rest) == more
  }

  lemma {:induction false} DisjunctionParses(d: Dialect, s: string, ts: seq<Token>, e: Expr, more: seq<Token>)
    requires Disjunction(ts, e) && TokensOf(d, s) == ts + more
    requires StopsTest(more) && !SaysFirst(more, "and") && !SaysFirst(more, "or")
    ensures Gives(d, ParseOr(d, s), e, more)
    decreases |ts|, 8
  {
    hide ParseOr, TokensOf, AtKeyword, SkipSpaces, Disjunction, StopsTest;
    var rest := DisjunctionLoops(d, s, ts, e, more);
    var t := SkipSpaces(rest);
    Unspaced(d, rest);
    assert Seen(d, t, "OR", "or") by { KeywordsSeen(d, t); }
  }

  lemma {:induction false} DisjunctionLoops(d: Dialect, s: string, ts: seq<Token>, e: Expr, more: seq<Token>)
    returns (rest: string)
    requires Disjunction(ts, e) && TokensOf(d, s) == ts + more
    requires StopsTest(more) && !SaysFirst(more, "and")
    ensures TokensOf(d, rest) == more && ParseOr(d, s) == OrLoop(d, e, rest)
    decreases |ts|, 7
  {
    hide ParseAnd, TokensOf, AtKeyword, SkipSpaces, Conjunction, StopsTest;
    if Conjunction(ts, e) {
      ConjunctionParses(d, s, ts, e, more);
      rest := ParseAnd(d, s).rest;
    } else {
      var i :| 0 <= i < |ts| && OrAt(ts, e, i);
      var after := [ts[i]] + (ts[i + 1..] + more);
      assert ts + more == ts[..i] + after;
      WordStops(after, "or");
      var mid := DisjunctionLoops(d, s, ts[..i], e.left, after);
      var t := SkipSpaces(mid);
      Unspaced(d, mid);
      assert Seen(d, t, "OR", "or") by { KeywordsSeen(d, t); }
      ConjunctionParses(d, t[2..], ts[i + 1..], e.right, more);
      rest := ParseAnd(d, t[2..]).rest;
    }
  }

  lemma WordStops(more: seq<Token>, word: string)
    requires SaysFirst(more, word) && (word == "or" || word == "and")
    ensures StopsTest(more)
    ensures word == "or" ==> !SaysFirst(more, "and")
  {
    hide LowerText;
  }

  lemma {:induction false} ConjunctionParses(d: Dialect, s: string, ts: seq<Token>, e: Expr, more: seq<Token>)
    requires Conjunction(ts, e) && TokensOf(d, s) == ts + more
    requires StopsTest(more) && !SaysFirst(more, "and")
    ensures Gives(d, ParseAnd(d, s), e, more)
    decreases |ts|, 6
  {
    hide ParseAnd, TokensOf, AtKeyword, SkipSpaces, Conjunction, StopsTest;
    var rest := ConjunctionLoops(d, s, ts, e, more);
    var t := SkipSpaces(rest);
    Unspaced(d, rest);
    assert Seen(d, t, "AND", "and") by { KeywordsSeen(d, t); }
  }

  lemma {:induction false} ConjunctionLoops(d: Dialect, s: string, ts: seq<Token>, e: Expr, more: seq<Token>)
    returns (rest: string)
    requires Conjunction(ts, e) && TokensOf(d, s) == ts + more && StopsTest(more)
    ensures TokensOf(d, rest) == more && ParseAnd(d, s) == AndLoop(d, e, rest)
    decreases |ts|, 5
  {
    hide ParseNot, TokensOf, AtKeyword, SkipSpaces, Negation, StopsTest;
    if Negation(ts, e) {
      NegationParses(d, s, ts, e, more);
      rest := ParseNot(d, s).rest;
    } else {
      var i :| 0 <= i < |ts| && AndAt(ts, e, i);
      var after := [ts[i]] + (ts[i + 1..] + more);
      assert ts + more == ts[..i] + after;
      WordStops(after, "and");
      var mid := ConjunctionLoops(d, s, ts[..i], e.left, after);
      var t := SkipSpaces(mid);
      Unspaced(d, mid);
      assert Seen(d, t, "AND", "and") by { KeywordsSeen(d, t); }
      NegationParses(d, t[3..], ts[i + 1..], e.right, more);
      rest := ParseNot(d, t[3..]).rest;
    }
  }

  lemma {:induction false} NegationParses(d: Dialect, s: string, ts: seq<Token>, e: Expr, more: seq<Token>)
    requires Negation(ts, e) && TokensOf(d, s) == ts + more && StopsTest(more)
    ensures Gives(d, ParseNot(d, s), e, more)
    decreases |ts|, 4
  {
    hide ParseComparison, TokensOf, AtKeyword, SkipSpaces, Test, StopsTest, LowerText;
    var t := SkipSpaces(s);
    Unspaced(d, s);
    assert Seen(d, t, "NOT", "not") by { KeywordsSeen(d, t); }
    if SaysFirst(ts, "not") {
      assert (ts + more)[1..] == ts[1..] + more;
      NegationParses(d, t[3..], ts[1..], e.operand, more);
    } else {
      TestIsSomething(ts, e);
      assert (ts + more)[0] == ts[0];
      TestParses(d, t, ts, e, more);
    }
  }

  lemma {:induction false} TestParses(d: Dialect, s: string, ts: seq<Token>, e: Expr, more: seq<Token>)
    requires Test(ts, e) && TokensOf(d, s) == ts + more && StopsTest(more)
    ensures Gives(d, ParseComparison(d, s), e, more)
    decreases |ts|, 3
  {
    hide ParsePrimary, AfterPrimary, TokensOf, Primary, StopsTest, TestAt;
    if Primary(ts, e) {
      assert StopsPrimary(more) by { TestStopsPrimary(more); }
      PrimaryParses(d, s, ts, e, more);
      NothingAfter(d, e, ParsePrimary(d, s).rest, more);
    } else {
      var i :| 0 <= i < |ts| && TestAt(ts, e, i);
      var left := Operand(ts, e, i);
      assert ts + more == ts[..i] + (ts[i..] + more);
      TestStarts(ts, e, i, more);
      PrimaryParses(d, s, ts[..i], left, ts[i..] + more);
      RestParses(d, ParsePrimary(d, s).rest, ts, e, i, left, more);
    }
  }

  lemma TestStopsPrimary(more: seq<Token>)
    requires StopsTest(more)
    ensures StopsPrimary(more)
  {
  }

  lemma Operand(ts: seq<Token>, e: Expr, i: nat) returns (left: Expr)
    requires i < |ts| && TestAt(ts, e, i)
    ensures Primary(ts[..i], left)
    ensures (e.IsNull? && left == e.operand) || (e.InList? && left == e.operand) || (e.Binary? && left == e.left)
  {
    hide Primary, Items;
    left := if e.Binary? then e.left else if e.IsNull? then e.operand else e.operand;
  }

  lemma TestStarts(ts: seq<Token>, e: Expr, i: nat, more: seq<Token>)
    requires i < |ts| && TestAt(ts, e, i)
    ensures StopsPrimary(ts[i..] + more)
  {
    hide Primary, Items, LowerText;
    assert (ts[i..] + more)[0] == ts[i];
  }

  /** Nothing that follows belongs to the test. */
  lemma NothingAfter(d: Dialect, e: Expr, s: string, more: seq<Token>)
    requires TokensOf(d, s) == more && StopsTest(more)
    ensures Gives(d, AfterPrimary(d, e, s), e, more)
  {
    hide AfterPrimary, AfterNot, TokensOf, AtKeyword, SkipSpaces, ComparisonAt, LowerText;
    var u := SkipSpaces(s);
    Unspaced(d, s);
    AfterIsOrNot(d, e, s);
    KeywordsSeen(d, u);
    OnlySign(d, e, u);
    SignSeen(d, u);
  }

  /** What follows the left operand: a null test, a list, or a sign and the right operand. */
  lemma {:induction false} RestParses(d: Dialect, s: string, ts: seq<Token>, e: Expr, i: nat, left: Expr,
                                      more: seq<Token>)
    requires i < |ts| && TestAt(ts, e, i) && TokensOf(d, s) == ts[i..] + more && StopsTest(more)
    requires (e.IsNull? && left == e.operand) || (e.InList? && left == e.operand) || (e.Binary? && left == e.left)
    ensures Gives(d, AfterPrimary(d, left, s), e, more)
    decreases |ts|, 2
  {
    hide AfterPrimary, TokensOf, Primary, Items, StopsTest, LowerText;
    match e
    case IsNull(x, negated) => NullParses(d, left, s, ts[i..], negated, more);
    case InList(x, list, negated) =>
      var k := if negated then i + 2 else i + 1;
      assert ts[i..] + more == (if negated then [ts[i], ts[i + 1]] else [ts[i]]) + (ts[k..] + more);
      var inner := ListTestSeen(d, left, s, ts[i..k], negated, ts[k..] + more);
      ItemsParse(d, inner, ts[k..], list, more);
    case Binary(l, op, r) =>
      assert ts[i..] + more == [ts[i]] + (ts[i + 1..] + more);
      var right := SignTestSeen(d, left, s, ts[i], op, ts[i + 1..] + more);
      TestStopsPrimary(more);
      PrimaryParses(d, right, ts[i + 1..], r, more);
  }

  lemma NullParses(d: Dialect, left: Expr, s: string, ts: seq<Token>, negated: bool, more: seq<Token>)
    requires NullTest(ts, negated) && TokensOf(d, s) == ts + more
    ensures Gives(d, AfterPrimary(d, left, s), IsNull(left, negated), more)
  {
    hide AfterPrimary, AfterIs, TokensOf, AtKeyword, SkipSpaces, LowerText;
    var u := SkipSpaces(s);
    Unspaced(d, s);
    AfterIsOrNot(d, left, s);
    assert Seen(d, u, "IS", "is") by { KeywordsSeen(d, u); }
    assert (ts + more)[1..] == ts[1..] + more;
    var v := SkipSpaces(u[2..]);
    Unspaced(d, u[2..]);
    NullOrNotNull(left, u[2..]);
    assert Seen(d, v, "NOT", "not") by { KeywordsSeen(d, v); }
    var x := v;
    if negated {
      assert (ts[1..] + more)[1..] == ts[2..] + more;
      x := SkipSpaces(v[3..]);
      Unspaced(d, v[3..]);
    }
    assert Seen(d, x, "NULL", "null") by { KeywordsSeen(d, x); }
    assert (ts[|ts| - 1..] + more)[1..] == more;
  }

  function WithList(d: Dialect, left: Expr, negated: bool, x: string): Reading<Expr> {
    var (list, rest) :- ParseList(d, x);
    Ok(InList(left, list, negated), rest)
  }

  lemma ListTestSeen(d: Dialect, left: Expr, s: string, ts: seq<Token>, negated: bool, more: seq<Token>)
    returns (inner: string)
    requires TokensOf(d, s) == ts + more
    requires if negated then |ts| == 2 && Says(ts[0], "not") && Says(ts[1], "in") else |ts| == 1 && Says(ts[0], "in")
    ensures TokensOf(d, inner) == more && AfterPrimary(d, left, s) == WithList(d, left, negated, inner)
  {
    hide AfterPrimary, AfterNot, AfterIs, ParseList, TokensOf, AtKeyword, SkipSpaces, LowerText;
    var u := SkipSpaces(s);
    Unspaced(d, s);
    AfterIsOrNot(d, left, s);
    assert Seen(d, u, "IS", "is") && Seen(d, u, "NOT", "not") by { KeywordsSeen(d, u); }
    var v := u;
    if negated {
      assert (ts + more)[1..] == [ts[1]] + more;
      v := SkipSpaces(u[3..]);
      Unspaced(d, u[3..]);
    }
    assert Seen(d, v, "IN", "in") by { KeywordsSeen(d, v); }
    assert TokensOf(d, v)[1..] == more;
    inner := v[2..];
    ListAfter(d, left, v, negated);
  }

  lemma ListAfter(d: Dialect, left: Expr, u: string, negated: bool)
    requires AtKeyword(u, "IN") && |u| >= 2
    ensures AfterNot(d, left, u, negated) == WithList(d, left, negated, u[2..])
  {
    hide ParseList, AfterLeft;
  }

  lemma SignTestSeen(d: Dialect, left: Expr, s: string, sign: Token, op: BinaryOp, more: seq<Token>)
    returns (right: string)
    requires TokensOf(d, s) == [sign] + more && IsSign(sign, op)
    ensures TokensOf(d, right) == more && AfterPrimary(d, left, s) == WithRight(d, left, op, right)
  {
    hide AfterPrimary, AfterNot, AfterIs, AfterLeft, TokensOf, AtKeyword, SkipSpaces, ComparisonAt, LowerText;
    var u := SkipSpaces(s);
    Unspaced(d, s);
    AfterIsOrNot(d, left, s);
    KeywordsSeen(d, u);
    OnlySign(d, left, u);
    SignSeen(d, u);
    right := u[ComparisonAt(u).width..];
    SignAfter(d, left, u);
  }

  lemma SignAfter(d: Dialect, left: Expr, u: string)
    requires SkipSpaces(u) == u && ComparisonAt(u).Present?
    ensures AfterLeft(d, left, u) == WithRight(d, left, ComparisonAt(u).op, u[ComparisonAt(u).width..])
  {
    hide ParsePrimary, ComparisonAt, SkipSpaces;
  }

  lemma {:induction false} PrimaryParses(d: Dialect, s: string, ts: seq<Token>, e: Expr, more: seq<Token>)
    requires Primary(ts, e) && TokensOf(d, s) == ts + more && StopsPrimary(more)
    ensures Gives(d, ParsePrimary(d, s), e, more)
    decreases |ts|, 1
  {
    hide ParseOr, TokensOf, SkipSpaces, ScanString, ParseNumber, ParseQuoted, ParseWord, Disjunction, WordForm;
    var t := SkipSpaces(s);
    Unspaced(d, s);
    MarkSeen(d, t, '(');
    MarkSeen(d, t, '-');
    if ts[0] == Symbol("(") {
      var inner, after := ts[1..|ts| - 1], [Symbol(")")] + more;
      assert ts == [Symbol("(")] + inner + [Symbol(")")];
      assert (ts + more)[1..] == inner + after;
      CloseStops(more);
      DisjunctionParses(d, t[1..], inner, e, after);
      var u := SkipSpaces(ParseOr(d, t[1..]).rest);
      Unspaced(d, ParseOr(d, t[1..]).rest);
      MarkSeen(d, u, ')');
      assert after[1..] == more;
    } else if ts[0] == Symbol("-") {
      assert (ts + more)[1..] == ts[1..] + more;
      PrimaryParses(d, t[1..], ts[1..], e.operand, more);
    } else {
      LeafParses(d, t, ts, e, more);
    }
  }

  lemma CloseStops(more: seq<Token>)
    ensures var after := [Symbol(")")] + more;
            StopsTest(after) && !SaysFirst(after, "and") && !SaysFirst(after, "or")
  {
  }

  lemma CommaStops(more: seq<Token>)
    ensures var after := [Symbol(",")] + more;
            StopsTest(after) && !SaysFirst(after, "and") && !SaysFirst(after, "or")
  {
  }

  lemma {:induction false} LeafParses(d: Dialect, t: string, ts: seq<Token>, e: Expr, more: seq<Token>)
    requires Primary(ts, e) && !Marked(ts, "(") && !Marked(ts, "-")
    requires SkipSpaces(t) == t && TokensOf(d, t) == ts + more && StopsPrimary(more)
    ensures Gives(d, ParsePrimary(d, t), e, more)
    decreases |ts|, 0, 2
  {
    hide ParsePrimary, TokensOf, SkipSpaces, First, WordForm;
    Unspaced(d, t);
    assert (ts + more)[0] == ts[0];
    FrontOf(d, t);
    MarkSeen(d, t, '(');
    MarkSeen(d, t, '-');
    TokenKind(Kept, d, t);
    assert |ts| == 1 ==> (ts + more)[1..] == more;
    assert TokensOf(d, t)[1..] == TokensOf(d, First(Kept, d, t).1);
    if ts[0].Word? {
      WordParses(d, t, ts, e, more);
    } else if ts[0].Number? {
      NumberReading(Kept, d, t);
    }
  }

  lemma {:induction false} WordParses(d: Dialect, t: string, ts: seq<Token>, e: Expr, more: seq<Token>)
    requires ts != [] && ts[0].Word? && WordForm(ts, ts[0].name, e)
    requires SkipSpaces(t) == t && t != "" && IsIdentStart(t[0])
    requires TokensOf(d, t) == ts + more && StopsPrimary(more)
    ensures Gives(d, ParsePrimary(d, t), e, more)
    decreases |ts|, 0, 1
  {
    hide ParsePrimary, ParseIdentOrCall, TokensOf, SkipSpaces, AtKeyword, LowerText, NameForm;
    Atoms.WordFirst(d, t);
    assert (ts + more)[0] == ts[0] && (|ts| == 1 ==> (ts + more)[1..] == more);
    assert Seen(d, t, "TRUE", "true") && Seen(d, t, "FALSE", "false") && Seen(d, t, "NULL", "null") by {
      KeywordsSeen(d, t);
    }
    if !AtKeyword(t, "TRUE") && !AtKeyword(t, "FALSE") && !AtKeyword(t, "NULL") {
      NameParses(d, t, ts, e, more);
    }
  }

  lemma {:induction false} NameParses(d: Dialect, s: string, ts: seq<Token>, e: Expr, more: seq<Token>)
    requires ts != [] && ts[0].Word? && NameForm(ts, ts[0].name, e)
    requires TokensOf(d, s) == ts + more && StopsPrimary(more)
    ensures Gives(d, ParseIdentOrCall(d, s), e, more)
    decreases |ts|, 0, 0
  {
    hide ParseIdent, ParseArgs, ParseQualified, TokensOf, SkipSpaces, Arguments, Dotted;
    IdentSeen(d, s);
    assert (ts + more)[0] == ts[0] && (ts + more)[1..] == ts[1..] + more;
    var first := ParseIdent(s);
    var t := SkipSpaces(first.rest);
    Unspaced(d, first.rest);
    MarkSeen(d, t, '.');
    MarkSeen(d, t, '(');
    if |ts| == 1 {
      assert ts[1..] + more == more;
    } else if ts[1] == Symbol("(") {
      ArgsParse(d, t[1..], ts[1..], e.args, more);
    } else {
      assert (ts[1..] + more)[1..] == [ts[2]] + (ts[3..] + more);
      DottedParses(d, first.value, t[1..], ts[2], ts[3..], e, more);
    }
  }

  lemma {:induction false} DottedParses(d: Dialect, first: string, s: string, name: Token, ts: seq<Token>, e: Expr,
                                        more: seq<Token>)
    requires name.Word? && Dotted(first, name.name, ts, e)
    requires TokensOf(d, s) == [name] + (ts + more) && StopsPrimary(more)
    ensures Gives(d, ParseQualified(d, first, s), e, more)
    decreases |ts|, 10
  {
    hide ParseIdent, ParseArgs, TokensOf, SkipSpaces, Arguments, ValidateCall, IsAuth, IsDomain, AnyCase;
    hide Forms.DomainWord, Forms.NoArguments, Forms.OneArgument;
    IdentSeen(d, s);
    Forms.AuthIff(first);
    Forms.DomainWordIff(first);
    var second := ParseIdent(s);
    var t := SkipSpaces(second.rest);
    Unspaced(d, second.rest);
    MarkSeen(d, t, '(');
    MarkSeen(d, t, '.');
    assert ts == [] ==> ts + more == more;
    if IsAuth(first) {
      assert Marked(ts + more, "(") by { ArgumentsOpen(ts, e.args, more); }
      ArgsParse(d, t[1..], ts, e.args, more);
      RightCount(second.value, |e.args|);
    } else if IsDomain(first) {
      if ts != [] {
        assert Marked(ts + more, "(") by { ArgumentsOpen(ts, e.args, more); }
        ArgsParse(d, t[1..], ts, e.args, more);
      }
    } else if ts != [] {
      assert (ts + more)[1..] == [ts[1]] + more;
      IdentSeen(d, t[1..]);
    }
  }

  lemma RightCount(name: string, count: nat)
    requires (Forms.NoArguments(name) && count == 0) || (Forms.OneArgument(name) && count == 1)
    ensures ValidateCall(name, count) == Valid
  {
    Forms.BuiltinTable(name, count);
  }

  lemma ArgumentsOpen(ts: seq<Token>, es: seq<Expr>, more: seq<Token>)
    requires Arguments(ts, es)
    ensures Marked(ts + more, "(")
  {
    hide ArgList;
    assert (ts + more)[0] == ts[0];
  }

  // No expression starts with a closing parenthesis.

  lemma {:induction false} DisjunctionOpens(ts: seq<Token>, e: Expr)
    requires Disjunction(ts, e)
    ensures ts != [] && !Marked(ts, ")")
    decreases |ts|, 7
  {
    if Conjunction(ts, e) {
      ConjunctionOpens(ts, e);
    } else {
      var i :| 0 <= i < |ts| && OrAt(ts, e, i);
      DisjunctionOpens(ts[..i], e.left);
    }
  }

  lemma {:induction false} ConjunctionOpens(ts: seq<Token>, e: Expr)
    requires Conjunction(ts, e)
    ensures ts != [] && !Marked(ts, ")")
    decreases |ts|, 5
  {
    if Negation(ts, e) {
      NegationOpens(ts, e);
    } else {
      var i :| 0 <= i < |ts| && AndAt(ts, e, i);
      ConjunctionOpens(ts[..i], e.left);
    }
  }

  lemma NegationOpens(ts: seq<Token>, e: Expr)
    requires Negation(ts, e)
    ensures ts != [] && !Marked(ts, ")")
  {
    if !SaysFirst(ts, "not") {
      assert Test(ts, e);
      if !Primary(ts, e) {
        var i :| 0 <= i < |ts| && TestAt(ts, e, i);
        var left := Operand(ts, e, i);
        assert ts[..i][0] == ts[0];
      }
    }
  }

  /** The parser's argument loop, called after the opening parenthesis. */
  lemma {:induction false} ArgsParse(d: Dialect, s: string, ts: seq<Token>, es: seq<Expr>, more: seq<Token>)
    requires Arguments(ts, es) && TokensOf(d, s) == (ts + more)[1..]
    ensures var r := ParseArgs(d, s); r.Ok? && r.value == es && TokensOf(d, r.rest) == more
    decreases |ts|, 9
  {
    hide ArgsLoop, TokensOf, SkipSpaces, ArgList;
    var t := SkipSpaces(s);
    Unspaced(d, s);
    MarkSeen(d, t, ')');
    if es == [] {
      assert (ts + more)[1..] == [Symbol(")")] + more;
    } else {
      var inner, after := ts[1..|ts| - 1], [Symbol(")")] + more;
      assert (ts + more)[1..] == inner + after;
      ArgListOpens(inner, es);
      assert (inner + after)[0] == inner[0];
      var rest := ArgListLoops(d, t, inner, es, after);
      ArgsEnd(d, es, rest, more);
    }
  }

  lemma {:induction false} ArgListOpens(ts: seq<Token>, es: seq<Expr>)
    requires es != [] && ArgList(ts, es)
    ensures ts != [] && !Marked(ts, ")")
    decreases |ts|
  {
    if |es| == 1 {
      DisjunctionOpens(ts, es[0]);
    } else {
      var i :| 0 <= i < |ts| && ArgAt(ts, es, i);
      ArgListOpens(ts[..i], es[..|es| - 1]);
    }
  }

  lemma ArgsEnd(d: Dialect, es: seq<Expr>, rest: string, more: seq<Token>)
    requires TokensOf(d, rest) == [Symbol(")")] + more
    ensures var r := ArgsNext(d, es, rest); r.Ok? && r.value == es && TokensOf(d, r.rest) == more
    ensures var r := ListNext(d, es, rest); r.Ok? && r.value == es && TokensOf(d, r.rest) == more
  {
    hide ArgsLoop, ListLoop, TokensOf, SkipSpaces;
    Unspaced(d, rest);
    MarkSeen(d, SkipSpaces(rest), ')');
  }

  lemma {:induction false} ArgListLoops(d: Dialect, s: string, ts: seq<Token>, es: seq<Expr>, more: seq<Token>)
    returns (rest: string)
    requires es != [] && ArgList(ts, es) && TokensOf(d, s) == ts + more
    requires StopsTest(more) && !SaysFirst(more, "and") && !SaysFirst(more, "or")
    ensures TokensOf(d, rest) == more && ArgsLoop(d, [], s) == ArgsNext(d, es, rest)
    decreases |ts|, 9
  {
    hide ParseOr, TokensOf, SkipSpaces, Disjunction, StopsTest;
    if |es| == 1 {
      DisjunctionParses(d, s, ts, es[0], more);
      rest := ParseOr(d, s).rest;
      assert es == [] + [es[0]];
    } else {
      var n := |es| - 1;
      var i :| 0 <= i < |ts| && ArgAt(ts, es, i);
      var after := ts[i + 1..] + more;
      assert ts + more == ts[..i] + ([Symbol(",")] + after);
      CommaStops(after);
      var mid := ArgListLoops(d, s, ts[..i], es[..n], [Symbol(",")] + after);
      var t := SkipSpaces(mid);
      Unspaced(d, mid);
      MarkSeen(d, t, ',');
      MarkSeen(d, t, ')');
      assert ([Symbol(",")] + after)[1..] == after;
      DisjunctionParses(d, t[1..], ts[i + 1..], es[n], more);
      rest := ParseOr(d, t[1..]).rest;
      assert es == es[..n] + [es[n]];
    }
  }

  lemma {:induction false} ItemsParse(d: Dialect, s: string, ts: seq<Token>, es: seq<Expr>, more: seq<Token>)
    requires Items(ts, es) && TokensOf(d, s) == ts + more
    ensures var r := ParseList(d, s); r.Ok? && r.value == es && TokensOf(d, r.rest) == more
    decreases |ts|, 9
  {
    hide ListLoop, TokensOf, SkipSpaces, ItemList;
    var t := SkipSpaces(s);
    Unspaced(d, s);
    MarkSeen(d, t, '(');
    assert (ts + more)[0] == ts[0];
    var u := SkipSpaces(t[1..]);
    Unspaced(d, t[1..]);
    MarkSeen(d, u, ')');
    if es == [] {
      assert (ts + more)[1..] == [Symbol(")")] + more;
    } else {
      var inner, after := ts[1..|ts| - 1], [Symbol(")")] + more;
      assert (ts + more)[1..] == inner + after;
      ItemListOpens(inner, es);
      assert (inner + after)[0] == inner[0];
      var rest := ItemListLoops(d, u, inner, es, after);
      ArgsEnd(d, es, rest, more);
    }
  }

  lemma {:induction false} ItemListOpens(ts: seq<Token>, es: seq<Expr>)
    requires es != [] && ItemList(ts, es)
    ensures ts != [] && !Marked(ts, ")")
    decreases |ts|
  {
    if |es| > 1 {
      var i :| 0 <= i < |ts| && ItemAt(ts, es, i);
      ItemListOpens(ts[..i], es[..|es| - 1]);
    }
  }

  lemma {:induction false} ItemListLoops(d: Dialect, s: string, ts: seq<Token>, es: seq<Expr>, more: seq<Token>)
    returns (rest: string)
    requires es != [] && ItemList(ts, es) && TokensOf(d, s) == ts + more && StopsPrimary(more)
    ensures TokensOf(d, rest) == more && ListLoop(d, [], s) == ListNext(d, es, rest)
    decreases |ts|, 9
  {
    hide ParsePrimary, TokensOf, SkipSpaces, Primary;
    if |es| == 1 {
      PrimaryParses(d, s, ts, es[0], more);
      rest := ParsePrimary(d, s).rest;
      assert es == [] + [es[0]];
    } else {
      var n := |es| - 1;
      var i :| 0 <= i < |ts| && ItemAt(ts, es, i);
      var after := ts[i + 1..] + more;
      assert ts + more == ts[..i] + ([Symbol(",")] + after);
      var mid := ItemListLoops(d, s, ts[..i], es[..n], [Symbol(",")] + after);
      var t := SkipSpaces(mid);
      Unspaced(d, mid);
      MarkSeen(d, t, ',');
      MarkSeen(d, t, ')');
      assert ([Symbol(",")] + after)[1..] == after;
      PrimaryParses(d, t[1..], ts[i + 1..], es[n], more);
      rest := ParsePrimary(d, t[1..]).rest;
      assert es == es[..n] + [es[n]];
    }
  }

  /**
   The parser accepts exactly the sentences: a text is parsed to a tree if and only if its
   tokens are a sentence for that tree. In particular no text is a sentence for two trees.
   */
  lemma ParsesIff(d: Dialect, s: string, e: Expr)
    ensures Parse(d, s) == Success(e) <==> Disjunction(TokensOf(d, s), e)
  {
    hide ParseOr, Disjunction, TokensOf;
    if Parse(d, s).Success? {
      ParsedIsSentence(d, s);
    }
    if Disjunction(TokensOf(d, s), e) {
      assert TokensOf(d, s) == TokensOf(d, s) + [];
      NothingStops();
      DisjunctionParses(d, s, TokensOf(d, s), e, []);
      Unspaced(d, ParseOr(d, s).rest);
    }
  }

  lemma NothingStops()
    ensures StopsTest([]) && !SaysFirst([], "and") && !SaysFirst([], "or")
  {
  }
}
