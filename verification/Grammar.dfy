/**
 The policy grammar as functions from text to an expression and the text that follows it.
 `Parser` in PolicyParser.dfy is the imperative form and is proved to compute these functions.

 A `Dialect` selects who is reading. `StoredText` is the language of stored policies.
 `EmittedSql` reads the WHERE fragments that evaluation writes: the same grammar, in which
 a primary may also be a double-quoted column.
 */
module Grammar {
  import opened PolicyAst
  import opened AsciiText
  import opened Builtins

  datatype Dialect = StoredText | EmittedSql

  datatype ParseError =
    | UnexpectedToken(text: string)
    | InvalidNumber(text: string)
    | UnclosedParen
    | UnclosedString
    | InvalidBuiltin(error: BuiltinError)

  datatype Reading<+T> = Ok(value: T, rest: string) | Err(error: ParseError) {
    predicate IsFailure() { Err? }
    function PropagateFailure<U>(): Reading<U>
      requires Err?
    {
      Err(error)
    }
    function Extract(): (T, string)
      requires Ok?
    {
      (value, rest)
    }
  }

  datatype ParseResult = Success(expr: Expr) | Failure(error: ParseError)

  const MAX_I64: int := 0x7FFF_FFFF_FFFF_FFFF
  const DOMAINS: seq<string> := ["object", "bucket", "row", "table", "connect"]

  predicate IsDomain(name: string) {
    exists i | 0 <= i < |DOMAINS| :: EqIgnoreCase(name, DOMAINS[i])
  }

  predicate IsAuth(name: string) {
    EqIgnoreCase(name, "auth")
  }

  function Preview(s: string): string {
    if |s| <= 20 then s else s[..20]
  }

  /** The whole text as one expression: nothing but space may follow it. */
  function Parse(d: Dialect, s: string): ParseResult {
    match ParseOr(d, s)
    case Err(error) => Failure(error)
    case Ok(e, rest) =>
      if SkipSpaces(rest) == "" then Success(e) else Failure(UnexpectedToken(Preview(SkipSpaces(rest))))
  }

  function ParseOr(d: Dialect, s: string): (r: Reading<Expr>)
    ensures r.Ok? ==> |r.rest| < |s|
    decreases |s|, 7
  {
    var (left, rest) :- ParseAnd(d, s);
    OrLoop(d, left, rest)
  }

  function OrLoop(d: Dialect, left: Expr, s: string): (r: Reading<Expr>)
    ensures r.Ok? ==> |r.rest| <= |s|
    decreases |s|, 8
  {
    var t := SkipSpaces(s);
    if AtKeyword(t, "OR") then
      var (right, rest) :- ParseAnd(d, t[2..]);
      OrLoop(d, Binary(left, Or, right), rest)
    else
      Ok(left, t)
  }

  function ParseAnd(d: Dialect, s: string): (r: Reading<Expr>)
    ensures r.Ok? ==> |r.rest| < |s|
    decreases |s|, 6
  {
    var (left, rest) :- ParseNot(d, s);
    AndLoop(d, left, rest)
  }

  function AndLoop(d: Dialect, left: Expr, s: string): (r: Reading<Expr>)
    ensures r.Ok? ==> |r.rest| <= |s|
    decreases |s|, 8
  {
    var t := SkipSpaces(s);
    if AtKeyword(t, "AND") then
      var (right, rest) :- ParseNot(d, t[3..]);
      AndLoop(d, Binary(left, And, right), rest)
    else
      Ok(left, t)
  }

  function ParseNot(d: Dialect, s: string): (r: Reading<Expr>)
    ensures r.Ok? ==> |r.rest| < |s|
    decreases |s|, 5
  {
    var t := SkipSpaces(s);
    if AtKeyword(t, "NOT") then
      var (e, rest) :- ParseNot(d, t[3..]);
      Ok(Unary(Not, e), rest)
    else
      ParseComparison(d, t)
  }

  function ParseComparison(d: Dialect, s: string): (r: Reading<Expr>)
    ensures r.Ok? ==> |r.rest| < |s|
    decreases |s|, 4
  {
    var (left, rest) :- ParsePrimary(d, s);
    AfterPrimary(d, left, rest)
  }

  /** What may follow the left operand: IS [NOT] NULL, [NOT] IN, an operator, or nothing. */
  function AfterPrimary(d: Dialect, left: Expr, s: string): (r: Reading<Expr>)
    ensures r.Ok? ==> |r.rest| <= |s|
    decreases |s|, 5
  {
    var t := SkipSpaces(s);
    if AtKeyword(t, "IS") then
      AfterIs(left, t[2..])
    else
      var negated := AtKeyword(t, "NOT");
      var u := if negated then SkipSpaces(t[3..]) else t;
      if AtKeyword(u, "IN") then
        var (list, rest) :- ParseList(d, u[2..]);
        Ok(InList(left, list, negated), rest)
      else if negated then
        Err(UnexpectedToken("expected IN after NOT"))
      else
        AfterLeft(d, left, u)
  }

  function AfterIs(left: Expr, s: string): (r: Reading<Expr>)
    ensures r.Ok? ==> |r.rest| <= |s|
  {
    var u := SkipSpaces(s);
    var negated := AtKeyword(u, "NOT");
    var v := if negated then SkipSpaces(u[3..]) else u;
    if AtKeyword(v, "NULL") then Ok(IsNull(left, negated), v[4..]) else Err(UnexpectedToken("expected NULL"))
  }

  function AfterLeft(d: Dialect, left: Expr, s: string): (r: Reading<Expr>)
    ensures r.Ok? ==> |r.rest| <= |s|
    decreases |s|, 4
  {
    var t := SkipSpaces(s);
    match ComparisonAt(t)
    case Absent => Ok(left, t)
    case Present(op, width) =>
      var (right, rest) :- ParsePrimary(d, t[width..]);
      Ok(Binary(left, op, right), rest)
  }

  datatype Comparison = Absent | Present(op: BinaryOp, width: nat)

  /** The comparison operator at the front of the text, two-character spellings first. */
  function ComparisonAt(s: string): (c: Comparison)
    ensures c.Present? ==> 0 < c.width <= |s| && !c.op.IsLogical()
  {
    if StartsWithText(s, "<=") then Present(LtEq, 2)
    else if StartsWithText(s, ">=") then Present(GtEq, 2)
    else if StartsWithText(s, "<>") || StartsWithText(s, "!=") then Present(NotEq, 2)
    else if StartsWith(s, '=') then Present(Eq, 1)
    else if StartsWith(s, '<') then Present(Lt, 1)
    else if StartsWith(s, '>') then Present(Gt, 1)
    else if AtKeyword(s, "LIKE") then Present(Like, 4)
    else if AtKeyword(s, "ILIKE") then Present(ILike, 5)
    else Absent
  }

  /** The operators that are written with signs. */
  lemma SignsAt(s: string)
    ensures "!=" <= s || "<>" <= s ==> ComparisonAt(s) == Present(NotEq, 2)
    ensures "<=" <= s ==> ComparisonAt(s) == Present(LtEq, 2)
    ensures ">=" <= s ==> ComparisonAt(s) == Present(GtEq, 2)
    ensures "=" <= s ==> ComparisonAt(s) == Present(Eq, 1)
    ensures "<" <= s && !("<=" <= s) && !("<>" <= s) ==> ComparisonAt(s) == Present(Lt, 1)
    ensures ">" <= s && !(">=" <= s) ==> ComparisonAt(s) == Present(Gt, 1)
  {
    hide AtKeyword;
    assert |s| >= 2 ==> s[..2] == [s[0], s[1]];
  }

  function ParsePrimary(d: Dialect, s: string): (r: Reading<Expr>)
    ensures r.Ok? ==> |r.rest| < |s|
    decreases |s|, 3
  {
    var t := SkipSpaces(s);
    if StartsWith(t, '(') then
      var (e, rest) :- ParseOr(d, t[1..]);
      var u := SkipSpaces(rest);
      if StartsWith(u, ')') then Ok(e, u[1..]) else Err(UnclosedParen)
    else if StartsWith(t, '-') then
      var (e, rest) :- ParsePrimary(d, t[1..]);
      Ok(Unary(Minus, e), rest)
    else if StartsWith(t, '\'') then
      ScanString("", t[1..])
    else if t != "" && IsDigit(t[0]) then
      ParseNumber(t)
    else if d.EmittedSql? && StartsWith(t, '"') then
      ParseQuoted(t[1..])
    else
      ParseWord(d, t)
  }

  /** A keyword literal, a name or a call. */
  function ParseWord(d: Dialect, s: string): (r: Reading<Expr>)
    ensures r.Ok? ==> |r.rest| < |s|
    decreases |s|, 2
  {
    if AtKeyword(s, "TRUE") then Ok(Lit(Bool(true)), s[4..])
    else if AtKeyword(s, "FALSE") then Ok(Lit(Bool(false)), s[5..])
    else if AtKeyword(s, "NULL") then Ok(Lit(Null), s[4..])
    else ParseIdentOrCall(d, s)
  }

  /** The string body after its opening quote; `value` is what was read so far. */
  function ScanString(value: string, s: string): (r: Reading<Expr>)
    ensures r.Ok? ==> |r.rest| < |s|
    decreases |s|
  {
    if s == "" then Err(UnclosedString)
    else if s[0] != '\'' then ScanString(value + [s[0]], s[1..])
    else if StartsWith(s[1..], '\'') then ScanString(value + "'", s[2..])
    else Ok(Lit(String(value)), s[1..])
  }

  function ParseNumber(s: string): (r: Reading<Expr>)
    requires s != "" && IsDigit(s[0])
    ensures r.Ok? ==> |r.rest| < |s|
  {
    var n := NumberSpan(s, false);
    var text := s[..n];
    if '.' in text then Ok(Lit(Float(text)), s[n..])
    else if NumeralValue(text) <= MAX_I64 then Ok(Lit(Int(NumeralValue(text))), s[n..])
    else Err(InvalidNumber(text))
  }

  /** A double-quoted column or table.column, after the first opening quote. */
  function ParseQuoted(s: string): (r: Reading<Expr>)
    ensures r.Ok? ==> |r.rest| < |s|
  {
    var n := QuotedSpan(s);
    if n == |s| then Err(UnclosedString)
    else
      var after := s[n + 1..];
      if StartsWithText(after, ".\"") then
        var m := QuotedSpan(after[2..]);
        if m == |after| - 2 then Err(UnclosedString)
        else Ok(QualifiedColumn(s[..n], after[2..][..m]), after[2..][m + 1..])
      else Ok(Column(s[..n]), after)
  }

  function QuotedSpan(s: string): (n: nat)
    ensures n <= |s|
    ensures forall i | 0 <= i < n :: s[i] != '"'
    ensures n < |s| ==> s[n] == '"'
  {
    if s != "" && s[0] != '"' then 1 + QuotedSpan(s[1..]) else 0
  }

  function ParseIdent(s: string): (r: Reading<string>)
    ensures r.Ok? ==> |r.rest| < |s|
  {
    var t := SkipSpaces(s);
    if t != "" && IsIdentStart(t[0]) then
      var n := IdentSpan(t);
      Ok(t[..n], t[n..])
    else
      Err(UnexpectedToken("expected identifier"))
  }

  function ParseIdentOrCall(d: Dialect, s: string): (r: Reading<Expr>)
    ensures r.Ok? ==> |r.rest| < |s|
    decreases |s|, 1
  {
    var (first, rest) :- ParseIdent(s);
    var t := SkipSpaces(rest);
    if StartsWith(t, '.') then
      ParseQualified(d, first, t[1..])
    else if StartsWith(t, '(') then
      var (args, rest2) :- ParseArgs(d, t[1..]);
      Ok(AuthBuiltin(first, args), rest2)
    else
      Ok(Column(first), t)
  }

  /** What follows `first.`: an auth builtin, a domain builtin or a column. */
  function ParseQualified(d: Dialect, first: string, s: string): (r: Reading<Expr>)
    ensures r.Ok? ==> |r.rest| < |s|
    decreases |s|, 1
  {
    var (second, rest) :- ParseIdent(s);
    var t := SkipSpaces(rest);
    if IsAuth(first) then
      if !StartsWith(t, '(') then Err(UnexpectedToken("expected ( for auth builtin"))
      else
        var (args, rest2) :- ParseArgs(d, t[1..]);
        match ValidateCall(second, |args|)
        case Invalid(error) => Err(InvalidBuiltin(error))
        case Valid => Ok(AuthBuiltin(second, args), rest2)
    else if IsDomain(first) then
      if StartsWith(t, '(') then
        var (args, rest2) :- ParseArgs(d, t[1..]);
        Ok(DomainBuiltin(first, second, args), rest2)
      else Ok(DomainBuiltin(first, second, []), t)
    else if StartsWith(t, '.') then
      var (_, rest2) :- ParseIdent(t[1..]);
      Ok(QualifiedColumn(first, second), rest2)
    else
      Ok(QualifiedColumn(first, second), t)
  }

  function ParseArgs(d: Dialect, s: string): (r: Reading<seq<Expr>>)
    ensures r.Ok? ==> |r.rest| < |s|
    decreases |s|, 9
  {
    var t := SkipSpaces(s);
    if StartsWith(t, ')') then Ok([], t[1..]) else ArgsLoop(d, [], t)
  }

  function ArgsLoop(d: Dialect, args: seq<Expr>, s: string): (r: Reading<seq<Expr>>)
    ensures r.Ok? ==> |r.rest| < |s|
    decreases |s|, 8
  {
    var (arg, rest) :- ParseOr(d, s);
    ArgsNext(d, args + [arg], rest)
  }

  function ArgsNext(d: Dialect, args: seq<Expr>, s: string): (r: Reading<seq<Expr>>)
    ensures r.Ok? ==> |r.rest| < |s|
    decreases |s|, 8
  {
    var t := SkipSpaces(s);
    if StartsWith(t, ')') then Ok(args, t[1..])
    else if StartsWith(t, ',') then ArgsLoop(d, args, t[1..])
    else Err(UnexpectedToken("expected , or )"))
  }

  function ParseList(d: Dialect, s: string): (r: Reading<seq<Expr>>)
    ensures r.Ok? ==> |r.rest| < |s|
    decreases |s|, 9
  {
    var t := SkipSpaces(s);
    if !StartsWith(t, '(') then Err(UnexpectedToken("expected ( for IN list"))
    else
      var u := SkipSpaces(t[1..]);
      if StartsWith(u, ')') then Ok([], u[1..]) else ListLoop(d, [], u)
  }

  function ListLoop(d: Dialect, items: seq<Expr>, s: string): (r: Reading<seq<Expr>>)
    ensures r.Ok? ==> |r.rest| < |s|
    decreases |s|, 8
  {
    var (item, rest) :- ParsePrimary(d, s);
    ListNext(d, items + [item], rest)
  }

  function ListNext(d: Dialect, items: seq<Expr>, s: string): (r: Reading<seq<Expr>>)
    ensures r.Ok? ==> |r.rest| < |s|
    decreases |s|, 8
  {
    var t := SkipSpaces(s);
    if StartsWith(t, ')') then Ok(items, t[1..])
    else if StartsWith(t, ',') then ListLoop(d, items, t[1..])
    else Err(UnexpectedToken("expected , or )"))
  }
}
