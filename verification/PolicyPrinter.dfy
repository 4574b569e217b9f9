/**
 A printer for policy expressions that writes parentheses only where the grammar needs
 them, and the proof that reading printed text gives back the very same tree.
 */
module PolicyPrinter {
  import opened PolicyAst
  import opened AsciiText
  import opened Builtins
  import opened Lexing
  import opened Grammar
  import opened Reading
  import opened Atoms

  /** A word that can stand first in a primary; NOT only where no negation is looked for. */
  predicate IsName(name: string, operand: bool) {
    IsIdent(name) && !IsLiteralWord(name) && (operand || !IsNot(name))
  }

  /**
   The trees that policy text can denote. `operand` marks a place that is reached without
   passing the NOT level: the right of a comparison, an IN item, under a minus.
   */
  predicate Printable(e: Expr, operand: bool) {
    match e
    case Column(name) => IsName(name, operand)
    case QualifiedColumn(table, column) =>
      IsName(table, operand) && !IsAuth(table) && !IsDomain(table) && IsIdent(column)
    case Lit(lit) => PrintableLiteral(lit)
    case Binary(l, op, r) => Printable(l, false) && Printable(r, !op.IsLogical())
    case Unary(op, x) => Printable(x, op == Minus)
    case AuthBuiltin(name, args) =>
      && (forall i | 0 <= i < |args| :: Printable(args[i], false))
      && IsIdent(name)
      && (ValidateCall(name, |args|).Valid? || IsName(name, operand))
    case DomainBuiltin(domain, property, args) =>
      && (forall i | 0 <= i < |args| :: Printable(args[i], false))
      && IsIdent(domain) && IsDomain(domain) && IsIdent(property)
    case IsNull(x, _) => Printable(x, false)
    case InList(x, list, _) => Printable(x, false) && forall i | 0 <= i < |list| :: Printable(list[i], true)
    case Subquery(_) => false
  }

  predicate PrintableLiteral(lit: Literal) {
    match lit
    case Int(n) => 0 <= n <= MAX_I64
    case Float(spelling) => IsDecimal(spelling)
    case _ => true
  }

  function LevelOf(e: Expr): Level {
    match e
    case Binary(_, Or, _) => OrLevel
    case Binary(_, And, _) => AndLevel
    case Binary(_, _, _) => NotLevel
    case Unary(Not, _) => NotLevel
    case IsNull(_, _) => NotLevel
    case InList(_, _, _) => NotLevel
    case _ => PrimaryLevel
  }

  function Print(e: Expr, level: Level): string
    decreases e, 1
  {
    if LevelOf(e).Rank() < level.Rank() then "(" + Body(e) + ")" else Body(e)
  }

  function Body(e: Expr): string
    decreases e, 0
  {
    match e
    case Column(name) => name
    case QualifiedColumn(table, column) => table + "." + column
    case Lit(lit) => PrintLiteral(lit)
    case Binary(l, Or, r) => Print(l, OrLevel) + " OR " + Print(r, AndLevel)
    case Binary(l, And, r) => Print(l, AndLevel) + " AND " + Print(r, NotLevel)
    case Binary(l, op, r) => Print(l, PrimaryLevel) + " " + op.AsSql() + " " + Print(r, PrimaryLevel)
    case Unary(Not, x) => "NOT " + Print(x, NotLevel)
    case Unary(Minus, x) => "-" + Print(x, PrimaryLevel)
    case AuthBuiltin(name, args) =>
      if ValidateCall(name, |args|).Valid? then "auth." + name + "(" + Join(Args(args, OrLevel), ", ") + ")"
      else name + "(" + Join(Args(args, OrLevel), ", ") + ")"
    case DomainBuiltin(domain, property, args) =>
      if args == [] then domain + "." + property
      else domain + "." + property + "(" + Join(Args(args, OrLevel), ", ") + ")"
    case IsNull(x, negated) => Print(x, PrimaryLevel) + if negated then " IS NOT NULL" else " IS NULL"
    case InList(x, list, negated) =>
      Print(x, PrimaryLevel) + (if negated then " NOT IN (" else " IN (") + Join(Args(list, PrimaryLevel), ", ") + ")"
    case Subquery(sql) => "(" + sql + ")"
  }

  function Args(es: seq<Expr>, level: Level): seq<string>
    decreases es, 2
  {
    seq(|es|, i requires 0 <= i < |es| => Print(es[i], level))
  }

  function PrintLiteral(lit: Literal): string {
    match lit
    case Null => "NULL"
    case Bool(b) => if b then "TRUE" else "FALSE"
    case Int(n) => if n < 0 then "-" + Numeral(-n) else Numeral(n)
    case Float(spelling) => spelling
    case String(s) => "'" + Escape(s) + "'"
  }

  /** Printed at any level, an expression is read back by that level of the grammar. */
  lemma {:induction false} PrintedReads(d: Dialect, e: Expr, level: Level, operand: bool, rest: string)
    requires Printable(e, operand) && Stops(level, rest)
    requires operand ==> level == PrimaryLevel
    ensures Reads(level, d, Print(e, level), e, rest)
    ensures level == PrimaryLevel && !operand ==> NotNegated(Print(e, level) + rest)
    decreases e, 1
  {
    hide Reads, Stops, NotNegated, Body;
    var own := LevelOf(e);
    if own.Rank() < level.Rank() {
      CloseStops(rest, own);
      CloseStops(rest, OrLevel);
      BodyReads(d, e, false, ")" + rest);
      Climb(d, Body(e), e, ")" + rest, own, OrLevel);
      Parenthesised(d, Body(e), e, rest);
      Climb(d, "(" + Body(e) + ")", e, rest, PrimaryLevel, level);
    } else {
      StopsWeaken(rest, level, own);
      BodyReads(d, e, operand, rest);
      Climb(d, Body(e), e, rest, own, level);
    }
  }

  lemma CloseStops(rest: string, level: Level)
    ensures Stops(level, ")" + rest)
  {
    CommaStops(rest);
  }

  lemma {:induction false} BodyReads(d: Dialect, e: Expr, operand: bool, rest: string)
    requires Printable(e, operand) && Stops(LevelOf(e), rest)
    requires operand ==> LevelOf(e) == PrimaryLevel
    ensures Reads(LevelOf(e), d, Body(e), e, rest)
    ensures LevelOf(e) == PrimaryLevel && !operand ==> NotNegated(Body(e) + rest)
    decreases e, 0
  {
    hide Reads, NotNegated, Print, SkipSpaces, AtKeyword, Stops, StopsExpr, EndsPrimary;
    StopsEnds(LevelOf(e), rest);
    match e
    case Column(name) =>
      ColumnReads(d, name, rest);
    case QualifiedColumn(table, column) =>
      QualifiedReads(d, table, column, rest);
    case Lit(lit) =>
      LiteralReads(d, lit, rest);
    case Binary(l, op, r) =>
      BinaryReads(d, l, op, r, rest);
    case Unary(Not, x) =>
      PrintedReads(d, x, NotLevel, false, rest);
      NegatedWord(d, Print(x, NotLevel), x, rest);
    case Unary(Minus, x) =>
      PrintedReads(d, x, PrimaryLevel, true, rest);
      Minused(d, Print(x, PrimaryLevel), x, rest);
    case AuthBuiltin(name, args) =>
      PrintedArgs(d, args, OrLevel);
      var text := Join(Args(args, OrLevel), ", ");
      ArgsRead(d, Args(args, OrLevel), args, rest);
      if ValidateCall(name, |args|).Valid? {
        AuthCallReads(d, name, text, args, rest);
      } else {
        CallReads(d, name, text, args, rest);
      }
    case DomainBuiltin(domain, property, args) =>
      if args == [] {
        DomainReads(d, domain, property, rest);
      } else {
        PrintedArgs(d, args, OrLevel);
        ArgsRead(d, Args(args, OrLevel), args, rest);
        DomainCallReads(d, domain, property, Join(Args(args, OrLevel), ", "), args, rest);
      }
    case IsNull(x, negated) =>
      var test := if negated then " IS NOT NULL" else " IS NULL";
      TestStops(negated, rest);
      PrintedReads(d, x, PrimaryLevel, false, test + rest);
      NullTested(d, Print(x, PrimaryLevel), x, negated, rest);
    case InList(x, list, negated) =>
      var open := if negated then " NOT IN (" else " IN (";
      PrintedArgs(d, list, PrimaryLevel);
      var items := Join(Args(list, PrimaryLevel), ", ");
      ListRead(d, Args(list, PrimaryLevel), list, rest);
      TestStops(negated, items + ")" + rest);
      assert open + items + ")" + rest == open + (items + ")" + rest);
      PrintedReads(d, x, PrimaryLevel, false, open + items + ")" + rest);
      Listed(d, Print(x, PrimaryLevel), x, negated, items, list, rest);
  }

  lemma LiteralReads(d: Dialect, lit: Literal, rest: string)
    requires PrintableLiteral(lit) && EndsPrimary(rest)
    ensures Reads(PrimaryLevel, d, PrintLiteral(lit), Lit(lit), rest)
    ensures NotNegated(PrintLiteral(lit) + rest)
  {
    hide Reads, NotNegated, EndsPrimary;
    match lit
    case Null => NullReads(d, rest);
    case Bool(b) => BoolReads(d, b, rest);
    case Int(n) => IntReads(d, n, rest);
    case Float(spelling) => FloatReads(d, spelling, rest);
    case String(s) => StringReads(d, s, rest);
  }

  lemma {:induction false} BinaryReads(d: Dialect, l: Expr, op: BinaryOp, r: Expr, rest: string)
    requires Printable(Binary(l, op, r), false) && Stops(LevelOf(Binary(l, op, r)), rest)
    ensures Reads(LevelOf(Binary(l, op, r)), d, Body(Binary(l, op, r)), Binary(l, op, r), rest)
    decreases Binary(l, op, r), 0, 0
  {
    hide Reads, NotNegated, Print, SkipSpaces, AtKeyword, Stops, StopsExpr, EndsPrimary;
    if op == Or {
      var b := Print(r, AndLevel);
      LogicStops(b + rest);
      assert " OR " + b + rest == " OR " + (b + rest);
      PrintedReads(d, l, OrLevel, false, " OR " + b + rest);
      StopsWeaken(rest, OrLevel, AndLevel);
      PrintedReads(d, r, AndLevel, false, rest);
      Ored(d, Print(l, OrLevel), l, b, r, rest);
    } else if op == And {
      var b := Print(r, NotLevel);
      LogicStops(b + rest);
      assert " AND " + b + rest == " AND " + (b + rest);
      PrintedReads(d, l, AndLevel, false, " AND " + b + rest);
      StopsWeaken(rest, AndLevel, NotLevel);
      PrintedReads(d, r, NotLevel, false, rest);
      Anded(d, Print(l, AndLevel), l, b, r, rest);
    } else {
      var b := Print(r, PrimaryLevel);
      OperatorStops(op.AsSql(), op, b + rest);
      assert " " + op.AsSql() + " " + b + rest == " " + op.AsSql() + " " + (b + rest);
      PrintedReads(d, l, PrimaryLevel, false, " " + op.AsSql() + " " + b + rest);
      StopsWeaken(rest, NotLevel, PrimaryLevel);
      PrintedReads(d, r, PrimaryLevel, true, rest);
      Compared(d, Print(l, PrimaryLevel), l, op.AsSql(), op, b, r, rest);
    }
  }

  lemma {:induction false} PrintedArgs(d: Dialect, es: seq<Expr>, level: Level)
    requires level == OrLevel || level == PrimaryLevel
    requires forall i | 0 <= i < |es| :: Printable(es[i], level == PrimaryLevel)
    ensures AllRead(level, d, Args(es, level), es)
    decreases es, 2
  {
    forall i, rest | 0 <= i < |es| && StopsExpr(rest)
      ensures Reads(level, d, Args(es, level)[i], es[i], rest)
    {
      PrintedReads(d, es[i], level, level == PrimaryLevel, rest);
    }
  }

  /** Reading a printed policy gives back exactly the tree that was printed. */
  lemma RoundTrip(d: Dialect, e: Expr)
    requires Printable(e, false)
    ensures Parse(d, Print(e, OrLevel)) == Success(e)
  {
    var text := Print(e, OrLevel);
    PrintedReads(d, e, OrLevel, false, "");
    OrStops(d, e, "");
    assert text + "" == text;
  }
}
