/**
 The recursive-descent parser: an object that moves `pos` over its input. Every method
 is proved to compute the grammar function of the same name on the text it has left.
 The lexicographic measure (text left, grammar level) proves that it always terminates.
 */
module PolicyParser {
  import opened Options
  import opened PolicyAst
  import opened AsciiText
  import opened Builtins
  import opened Grammar

  datatype Result<+T> = Good(value: T) | Bad(error: ParseError)

  class Parser {
    const input: string
    var pos: nat

    constructor (input: string)
      ensures this.input == input && pos == 0
    {
      this.input := input;
      pos := 0;
    }

    ghost predicate Valid()
      reads this
    {
      pos <= |input|
    }

    function Left(): string
      requires Valid()
      reads this
    {
      input[pos..]
    }

    /** The method's result and the text left agree with the grammar's reading. */
    ghost predicate Agrees<T>(r: Result<T>, reading: Reading<T>)
      requires Valid()
      reads this
    {
      match reading
      case Ok(value, rest) => r == Good(value) && Left() == rest
      case Err(error) => r == Bad(error)
    }

    function Peek(): (c: Option<char>)
      requires Valid()
      reads this
      ensures c == if Left() == "" then None else Some(Left()[0])
    {
      if pos < |input| then Some(input[pos]) else None
    }

    method Advance()
      requires Valid()
      modifies this
      ensures Valid() && old(pos) <= pos
      ensures Left() == if old(Left()) == "" then "" else old(Left())[1..]
    {
      if Peek().Some? {
        pos := pos + 1;
      }
    }

    method SkipWhitespace()
      requires Valid()
      modifies this
      ensures Valid() && old(pos) <= pos
      ensures Left() == SkipSpaces(old(Left()))
    {
      while Peek().Some? && IsSpace(Peek().value)
        invariant Valid() && old(pos) <= pos
        invariant SkipSpaces(Left()) == SkipSpaces(old(Left()))
        decreases |input| - pos
      {
        Advance();
      }
    }

    method MatchChar(c: char) returns (found: bool)
      requires Valid()
      modifies this
      ensures Valid() && old(pos) <= pos
      ensures found == StartsWith(old(Left()), c)
      ensures Left() == if found then old(Left())[1..] else old(Left())
      ensures found ==> old(pos) < pos
    {
      found := Peek() == Some(c);
      if found {
        Advance();
      }
    }

    method MatchText(text: string) returns (found: bool)
      requires Valid()
      modifies this
      ensures Valid() && old(pos) <= pos
      ensures found == StartsWithText(old(Left()), text)
      ensures Left() == if found then old(Left())[|text|..] else old(Left())
      ensures found ==> |text| <= |old(Left())|
    {
      found := StartsWithText(Left(), text);
      if found {
        pos := pos + |text|;
      }
    }

    method MatchKeyword(keyword: string) returns (found: bool)
      requires Valid()
      modifies this
      ensures Valid() && old(pos) <= pos
      ensures found == AtKeyword(old(Left()), keyword)
      ensures Left() == if found then old(Left())[|keyword|..] else old(Left())
      ensures found ==> |keyword| <= |old(Left())|
    {
      var remaining := Left();
      if |remaining| < |keyword| {
        return false;
      }
      if !EqIgnoreCase(remaining[..|keyword|], keyword) {
        assert !AtKeyword(remaining, keyword) by {
          var i :| 0 <= i < |keyword| && Lower(remaining[..|keyword|][i]) != Lower(keyword[i]);
          assert Lower(remaining[i]) != Lower(keyword[i]);
        }
        return false;
      }
      assert forall i | 0 <= i < |keyword| :: remaining[i] == remaining[..|keyword|][i];
      if |remaining| > |keyword| && IsIdentChar(remaining[|keyword|]) {
        return false;
      }
      pos := pos + |keyword|;
      return true;
    }

    method ParseExpr() returns (r: Result<Expr>)
      requires Valid()
      modifies this
      ensures Valid() && old(pos) <= pos
      ensures Agrees(r, Grammar.ParseOr(StoredText, old(Left())))
      decreases |Left()|, 8
    {
      r := ParseOrExpr();
    }

    method ParseOrExpr() returns (r: Result<Expr>)
      requires Valid()
      modifies this
      ensures Valid() && old(pos) <= pos
      ensures Agrees(r, Grammar.ParseOr(StoredText, old(Left())))
      decreases |Left()|, 7
    {
      hide Left, Valid, Peek, Grammar.ParseAnd, AtKeyword, SkipSpaces;
      var first := ParseAndExpr();
      if first.Bad? {
        return first;
      }
      var left := first.value;
      while true
        invariant Valid() && old(pos) <= pos
        invariant Grammar.ParseOr(StoredText, old(Left())) == OrLoop(StoredText, left, Left())
        invariant |Left()| < |old(Left())|
        decreases |Left()|
      {
        SkipWhitespace();
        var again := MatchKeyword("OR");
        if !again {
          break;
        }
        var right := ParseAndExpr();
        if right.Bad? {
          return right;
        }
        left := Binary(left, Or, right.value);
      }
      return Good(left);
    }

    method ParseAndExpr() returns (r: Result<Expr>)
      requires Valid()
      modifies this
      ensures Valid() && old(pos) <= pos
      ensures Agrees(r, Grammar.ParseAnd(StoredText, old(Left())))
      decreases |Left()|, 6
    {
      hide Left, Valid, Peek, Grammar.ParseNot, AtKeyword, SkipSpaces;
      var first := ParseNotExpr();
      if first.Bad? {
        return first;
      }
      var left := first.value;
      while true
        invariant Valid() && old(pos) <= pos
        invariant Grammar.ParseAnd(StoredText, old(Left())) == AndLoop(StoredText, left, Left())
        invariant |Left()| < |old(Left())|
        decreases |Left()|
      {
        SkipWhitespace();
        var again := MatchKeyword("AND");
        if !again {
          break;
        }
        var right := ParseNotExpr();
        if right.Bad? {
          return right;
        }
        left := Binary(left, And, right.value);
      }
      return Good(left);
    }

    method ParseNotExpr() returns (r: Result<Expr>)
      requires Valid()
      modifies this
      ensures Valid() && old(pos) <= pos
      ensures Agrees(r, Grammar.ParseNot(StoredText, old(Left())))
      decreases |Left()|, 5
    {
      hide Left, Valid, Peek, Grammar.ParseComparison, AtKeyword, SkipSpaces;
      SkipWhitespace();
      var negated := MatchKeyword("NOT");
      if negated {
        r := ParseNotExpr();
        if r.Good? {
          r := Good(Unary(Not, r.value));
        }
      } else {
        r := ParseComparison();
      }
    }

    method ParseComparison() returns (r: Result<Expr>)
      requires Valid()
      modifies this
      ensures Valid() && old(pos) <= pos
      ensures Agrees(r, Grammar.ParseComparison(StoredText, old(Left())))
      decreases |Left()|, 4
    {
      hide Left, Valid, Peek, Grammar.ParsePrimary, Grammar.ParseList, AfterIs, AfterLeft, AtKeyword, SkipSpaces;
      var first := ParsePrimary();
      if first.Bad? {
        return first;
      }
      var left := first.value;
      SkipWhitespace();
      var isTest := MatchKeyword("IS");
      if isTest {
        r := ParseNullTest(left);
        return;
      }
      var negatedIn := MatchKeyword("NOT");
      if negatedIn {
        SkipWhitespace();
      }
      var isIn := MatchKeyword("IN");
      if isIn {
        var list := ParseList();
        return if list.Bad? then Bad(list.error) else Good(InList(left, list.value, negatedIn));
      } else if negatedIn {
        return Bad(UnexpectedToken("expected IN after NOT"));
      }
      r := ParseOperand(left);
    }

    /** The part of ParseComparison after IS. */
    method ParseNullTest(left: Expr) returns (r: Result<Expr>)
      requires Valid()
      modifies this
      ensures Valid() && old(pos) <= pos
      ensures Agrees(r, AfterIs(left, old(Left())))
    {
      hide Left, Valid, Peek, AtKeyword, SkipSpaces;
      SkipWhitespace();
      var negated := MatchKeyword("NOT");
      if negated {
        SkipWhitespace();
      }
      var isNull := MatchKeyword("NULL");
      return if isNull then Good(IsNull(left, negated)) else Bad(UnexpectedToken("expected NULL"));
    }

    /** The part of ParseComparison that looks for an operator and its right operand. */
    method ParseOperand(left: Expr) returns (r: Result<Expr>)
      requires Valid()
      modifies this
      ensures Valid() && old(pos) <= pos
      ensures Agrees(r, AfterLeft(StoredText, left, old(Left())))
      decreases |Left()|, 4
    {
      hide Left, Valid, Peek, Grammar.ParsePrimary, ComparisonAt, SkipSpaces;
      var op := TryParseComparisonOp();
      if op.Some? {
        var right := ParsePrimary();
        return if right.Bad? then right else Good(Binary(left, op.value, right.value));
      }
      return Good(left);
    }

    method TryParseComparisonOp() returns (op: Option<BinaryOp>)
      requires Valid()
      modifies this
      ensures Valid() && old(pos) <= pos
      ensures match ComparisonAt(SkipSpaces(old(Left())))
              case Present(o, width) => op == Some(o) && Left() == SkipSpaces(old(Left()))[width..]
              case Absent => op == None && Left() == SkipSpaces(old(Left()))
      ensures var t := SkipSpaces(old(Left()));
              && ("!=" <= t || "<>" <= t ==> op == Some(NotEq))
              && ("<=" <= t ==> op == Some(LtEq)) && (">=" <= t ==> op == Some(GtEq)) && ("=" <= t ==> op == Some(Eq))
              && ("<" <= t && !("<=" <= t) && !("<>" <= t) ==> op == Some(Lt))
              && (">" <= t && !(">=" <= t) ==> op == Some(Gt))
    {
      hide Left, Valid, Peek, AtKeyword, StartsWithText, SkipSpaces;
      SignsAt(SkipSpaces(Left()));
      SkipWhitespace();
      var found := MatchText("<=");
      if found { return Some(LtEq); }
      found := MatchText(">=");
      if found { return Some(GtEq); }
      found := MatchText("<>");
      if !found { found := MatchText("!="); }
      if found { return Some(NotEq); }
      found := MatchChar('=');
      if found { return Some(Eq); }
      found := MatchChar('<');
      if found { return Some(Lt); }
      found := MatchChar('>');
      if found { return Some(Gt); }
      found := MatchKeyword("LIKE");
      if found { return Some(Like); }
      found := MatchKeyword("ILIKE");
      if found { return Some(ILike); }
      return None;
    }

    method ParsePrimary() returns (r: Result<Expr>)
      requires Valid()
      modifies this
      ensures Valid() && old(pos) <= pos
      ensures Agrees(r, Grammar.ParsePrimary(StoredText, old(Left())))
      decreases |Left()|, 3
    {
      hide Left, Valid, Peek, Grammar.ParseOr, Grammar.ParseNumber, ParseWord, ScanString, SkipSpaces;
      SkipWhitespace();
      var found := MatchChar('(');
      if found {
        r := ParseExpr();
        if r.Good? {
          SkipWhitespace();
          var closed := MatchChar(')');
          if !closed {
            r := Bad(UnclosedParen);
          }
        }
        return;
      }
      found := MatchChar('-');
      if found {
        r := ParsePrimary();
        if r.Good? {
          r := Good(Unary(Minus, r.value));
        }
        return;
      }
      if Peek() == Some('\'') {
        r := ParseStringLiteral();
        return;
      }
      if Peek().Some? && IsDigit(Peek().value) {
        r := ParseNumber();
        return;
      }
      r := ParseLiteralOrName();
    }

    /** The part of ParsePrimary that tries TRUE, FALSE and NULL before a name. */
    method ParseLiteralOrName() returns (r: Result<Expr>)
      requires Valid()
      modifies this
      ensures Valid() && old(pos) <= pos
      ensures Agrees(r, ParseWord(StoredText, old(Left())))
      decreases |Left()|, 2
    {
      hide Left, Valid, Peek, ParseIdentOrCall, AtKeyword;
      var found := MatchKeyword("TRUE");
      if found { return Good(Lit(Bool(true))); }
      found := MatchKeyword("FALSE");
      if found { return Good(Lit(Bool(false))); }
      found := MatchKeyword("NULL");
      if found { return Good(Lit(Null)); }
      r := ParseIdentifierOrCall();
    }

    method ParseStringLiteral() returns (r: Result<Expr>)
      requires Valid() && StartsWith(Left(), '\'')
      modifies this
      ensures Valid() && old(pos) <= pos
      ensures Agrees(r, ScanString("", old(Left())[1..]))
    {
      Advance();
      var value := "";
      while true
        invariant Valid() && old(pos) <= pos
        invariant ScanString("", old(Left())[1..]) == ScanString(value, Left())
        decreases |input| - pos
      {
        var c := Peek();
        if c.None? {
          return Bad(UnclosedString);
        }
        Advance();
        if c.value == '\'' {
          if Peek() == Some('\'') {
            Advance();
            value := value + "'";
          } else {
            break;
          }
        } else {
          value := value + [c.value];
        }
      }
      return Good(Lit(String(value)));
    }

    method ParseNumber() returns (r: Result<Expr>)
      requires Valid() && Left() != "" && IsDigit(Left()[0])
      modifies this
      ensures Valid() && old(pos) <= pos
      ensures Agrees(r, Grammar.ParseNumber(old(Left())))
    {
      hide Left, Valid, NumberSpan, NumeralValue;
      var text, hasDot := ScanDigits();
      if hasDot {
        r := Good(Lit(Float(text)));
      } else if NumeralValue(text) <= MAX_I64 {
        r := Good(Lit(Int(NumeralValue(text))));
      } else {
        r := Bad(InvalidNumber(text));
      }
    }

    /** The text read so far belongs to the number, and has a dot or else only digits. */
    static predicate Scanning(input: string, start: nat, end: nat, hasDot: bool)
      requires start <= end <= |input|
    {
      var text := input[start..end];
      && NumberSpan(input[start..], false) == end - start + NumberSpan(input[end..], hasDot)
      && (hasDot <==> '.' in text) && (!hasDot ==> AllDigits(text))
    }

    static lemma ScanningStarts(input: string, at: nat)
      requires at <= |input|
      ensures Scanning(input, at, at, false)
    {
    }

    static lemma ScanningGoesOn(input: string, start: nat, end: nat, hasDot: bool)
      requires start <= end < |input| && Scanning(input, start, end, hasDot)
      ensures IsDigit(input[end]) ==> Scanning(input, start, end + 1, hasDot)
      ensures input[end] == '.' && !hasDot ==> Scanning(input, start, end + 1, true)
    {
      hide NumberSpan;
      NumberSpanStep(input, end, hasDot);
      assert input[start..end + 1] == input[start..end] + [input[end]];
    }

    static lemma ScanningEnds(input: string, start: nat, end: nat, hasDot: bool)
      requires start <= end <= |input| && Scanning(input, start, end, hasDot)
      requires end < |input| ==> !IsDigit(input[end]) && (input[end] != '.' || hasDot)
      ensures var t, n := input[start..], NumberSpan(input[start..], false);
              input[start..end] == t[..n] && input[end..] == t[n..]
      ensures hasDot <==> '.' in input[start..end]
      ensures !hasDot ==> AllDigits(input[start..end])
    {
      if end < |input| {
        NumberSpanStep(input, end, hasDot);
      }
      TakenText(input, start, end);
    }

    /** The loop of ParseNumber: digits, with at most one dot among them. */
    method ScanDigits() returns (text: string, hasDot: bool)
      requires Valid()
      modifies this
      ensures Valid() && old(pos) <= pos
      ensures var n := NumberSpan(old(Left()), false);
              text == old(Left())[..n] && Left() == old(Left())[n..]
      ensures hasDot <==> '.' in text
      ensures !hasDot ==> AllDigits(text)
    {
      hide NumberSpan, AllDigits, Scanning;
      var start := pos;
      hasDot := false;
      ScanningStarts(input, pos);
      while true
        invariant Valid() && start <= pos && Scanning(input, start, pos, hasDot)
        decreases |input| - pos
      {
        var c := Peek();
        if c.None? {
          break;
        }
        ScanningGoesOn(input, start, pos, hasDot);
        if IsDigit(c.value) {
          Advance();
        } else if c.value == '.' && !hasDot {
          hasDot := true;
          Advance();
        } else {
          break;
        }
      }
      text := input[start..pos];
      ScanningEnds(input, start, pos, hasDot);
    }

    method ParseIdentifierOrCall() returns (r: Result<Expr>)
      requires Valid()
      modifies this
      ensures Valid() && old(pos) <= pos
      ensures Agrees(r, ParseIdentOrCall(StoredText, old(Left())))
      decreases |Left()|, 1
    {
      hide Left, Valid, Peek, Grammar.ParseArgs, ParseIdent, IsAuth, IsDomain, ValidateCall, SkipSpaces;
      var first := ParseIdentifier();
      if first.Bad? {
        return Bad(first.error);
      }
      SkipWhitespace();
      var dotted := MatchChar('.');
      if dotted {
        var second := ParseIdentifier();
        if second.Bad? {
          return Bad(second.error);
        }
        SkipWhitespace();
        if IsAuth(first.value) {
          var open := MatchChar('(');
          if !open {
            return Bad(UnexpectedToken("expected ( for auth builtin"));
          }
          var args := ParseArgs();
          if args.Bad? {
            return Bad(args.error);
          }
          match ValidateCall(second.value, |args.value|)
          case Invalid(error) => return Bad(InvalidBuiltin(error));
          case Valid => return Good(AuthBuiltin(second.value, args.value));
        }
        if IsDomain(first.value) {
          var args := Good([]);
          var open := MatchChar('(');
          if open {
            args := ParseArgs();
          }
          return if args.Bad? then Bad(args.error) else Good(DomainBuiltin(first.value, second.value, args.value));
        }
        if Peek() == Some('.') {
          Advance();
          var third := ParseIdentifier();
          if third.Bad? {
            return Bad(third.error);
          }
          return Good(QualifiedColumn(first.value, second.value));
        }
        return Good(QualifiedColumn(first.value, second.value));
      }
      if Peek() == Some('(') {
        Advance();
        var args := ParseArgs();
        return if args.Bad? then Bad(args.error) else Good(AuthBuiltin(first.value, args.value));
      }
      return Good(Column(first.value));
    }

    method ParseIdentifier() returns (r: Result<string>)
      requires Valid()
      modifies this
      ensures Valid() && old(pos) <= pos
      ensures Agrees(r, ParseIdent(old(Left())))
    {
      hide IdentSpan, SkipSpaces, ParseIdent, IsIdentStart, IsIdentChar;
      IdentifierAt(Left());
      SkipWhitespace();
      var start := pos;
      var c := Peek();
      if c.None? || !IsIdentStart(c.value) {
        return Bad(UnexpectedToken("expected identifier"));
      }
      StartIsChar(c.value);
      IdentSpanStep(input, pos);
      Advance();
      while Peek().Some? && IsIdentChar(Peek().value)
        invariant Valid() && start < pos
        invariant IdentSpan(input[start..]) == pos - start + IdentSpan(input[pos..])
        decreases |input| - pos
      {
        IdentSpanStep(input, pos);
        Advance();
      }
      if pos < |input| {
        IdentSpanStep(input, pos);
      }
      TakenText(input, start, pos);
      return Good(input[start..pos]);
    }

    static lemma StartIsChar(c: char)
      requires IsIdentStart(c)
      ensures IsIdentChar(c)
    {
    }

    static lemma TakenText(input: string, start: nat, end: nat)
      requires start <= end <= |input|
      ensures input[start..end] == input[start..][..end - start]
      ensures input[end..] == input[start..][end - start..]
    {
    }

    /** The identifier that comes after space, if one does. */
    static lemma IdentifierAt(s: string)
      ensures var t := SkipSpaces(s);
              ParseIdent(s) ==
              if t != "" && IsIdentStart(t[0]) then Ok(t[..IdentSpan(t)], t[IdentSpan(t)..])
              else Err(UnexpectedToken("expected identifier"))
    {
    }

    method ParseArgs() returns (r: Result<seq<Expr>>)
      requires Valid()
      modifies this
      ensures Valid() && old(pos) <= pos
      ensures Agrees(r, Grammar.ParseArgs(StoredText, old(Left())))
      decreases |Left()|, 9
    {
      hide Left, Valid, Peek, Grammar.ParseOr, SkipSpaces;
      var args: seq<Expr> := [];
      SkipWhitespace();
      if Peek() == Some(')') {
        Advance();
        return Good(args);
      }
      while true
        invariant Valid() && old(pos) <= pos
        invariant Grammar.ParseArgs(StoredText, old(Left())) == ArgsLoop(StoredText, args, Left())
        decreases |Left()|
      {
        var arg := ParseExpr();
        if arg.Bad? {
          return Bad(arg.error);
        }
        args := args + [arg.value];
        SkipWhitespace();
        var closed := MatchChar(')');
        if closed {
          break;
        }
        var more := MatchChar(',');
        if !more {
          return Bad(UnexpectedToken("expected , or )"));
        }
      }
      return Good(args);
    }

    method ParseList() returns (r: Result<seq<Expr>>)
      requires Valid()
      modifies this
      ensures Valid() && old(pos) <= pos
      ensures Agrees(r, Grammar.ParseList(StoredText, old(Left())))
      decreases |Left()|, 9
    {
      hide Left, Valid, Peek, Grammar.ParsePrimary, SkipSpaces;
      SkipWhitespace();
      var open := MatchChar('(');
      if !open {
        return Bad(UnexpectedToken("expected ( for IN list"));
      }
      var items: seq<Expr> := [];
      SkipWhitespace();
      if Peek() == Some(')') {
        Advance();
        return Good(items);
      }
      while true
        invariant Valid() && old(pos) <= pos
        invariant Grammar.ParseList(StoredText, old(Left())) == ListLoop(StoredText, items, Left())
        decreases |Left()|
      {
        var item := ParsePrimary();
        if item.Bad? {
          return Bad(item.error);
        }
        items := items + [item.value];
        SkipWhitespace();
        var closed := MatchChar(')');
        if closed {
          break;
        }
        var more := MatchChar(',');
        if !more {
          return Bad(UnexpectedToken("expected , or )"));
        }
      }
      return Good(items);
    }
  }

  /** Parses a whole policy; success means that nothing but space was left over. */
  method ParsePolicyExpr(input: string) returns (r: ParseResult)
    ensures r == Parse(StoredText, input)
  {
    var parser := new Parser(input);
    assert parser.Left() == input;
    var parsed := parser.ParseExpr();
    if parsed.Bad? {
      return Failure(parsed.error);
    }
    parser.SkipWhitespace();
    if parser.pos < |parser.input| {
      return Failure(UnexpectedToken(Preview(parser.Left())));
    }
    return Success(parsed.value);
  }
}
