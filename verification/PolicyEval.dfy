/** Evaluation of a policy against a context: a constant, or SQL text for the rest. */
module PolicyEval {
  import opened Options
  import opened PolicyAst
  import opened AsciiText
  import opened PolicyContext

  datatype EvalResult = Const(b: bool) | Residual(sql: string) {
    /** The result as a piece of a larger SQL text. */
    function AsSql(): string {
      match this
      case Const(b) => if b then "TRUE" else "FALSE"
      case Residual(sql) => sql
    }
  }

  function Evaluate(e: Expr, ctx: Context): EvalResult
    decreases e
  {
    match e
    case Lit(lit) => EvalLiteral(lit)
    case Column(name) => Residual("\"" + name + "\"")
    case QualifiedColumn(table, column) => Residual("\"" + table + "\".\"" + column + "\"")
    case AuthBuiltin(name, args) =>
      if name == "in_org" && |args| > 0 then EvalInOrg(Evaluate(args[0], ctx), ctx)
      else EvalAuthBuiltin(name, args, ctx)
    case DomainBuiltin(domain, property, _) => Residual(domain + "." + property)
    case Binary(l, op, r) => EvalBinary(op, Evaluate(l, ctx), Evaluate(r, ctx))
    case Unary(op, x) => EvalUnary(op, Evaluate(x, ctx))
    case IsNull(x, negated) => EvalIsNull(Evaluate(x, ctx), negated)
    case InList(x, list, negated) =>
      EvalInList(Evaluate(x, ctx), seq(|list|, i requires 0 <= i < |list| => Evaluate(list[i], ctx)), negated)
    case Subquery(sql) => Residual("(" + sql + ")")
  }

  function EvalLiteral(lit: Literal): EvalResult {
    match lit
    case Bool(b) => Const(b)
    case Null => Residual("NULL")
    case String(s) => Residual("'" + Escape(s) + "'")
    case Int(n) => Residual(if n < 0 then "-" + Numeral(-n) else Numeral(n))
    case Float(spelling) => Residual(FloatText(spelling))
  }

  /** A decimal without its trailing zeros: 1.50 is shown as 1.5 and 2.0 as 2. */
  function FloatText(s: string): string {
    if s == "" then ""
    else if s[|s| - 1] == '0' && '.' in s then FloatText(s[..|s| - 1])
    else if s[|s| - 1] == '.' then s[..|s| - 1]
    else s
  }

  function Quoted(value: Option<string>): EvalResult {
    match value
    case Some(s) => Residual("'" + s + "'")
    case None => Residual("NULL")
  }

  /** Every builtin except a call of in_org with an argument. */
  function EvalAuthBuiltin(name: string, args: seq<Expr>, ctx: Context): EvalResult {
    if name == "user_id" then Quoted(ctx.userId)
    else if name == "org_id" then Quoted(ctx.orgId)
    else if name == "has_permission" then
      if |args| > 0 && args[0].Lit? && args[0].lit.String? then Const(ctx.HasPermission(args[0].lit.s))
      else Residual("false")
    else if name == "in_org" then Const(false)
    else if name == "email" then
      match ctx.email
      case Some(s) => Residual("'" + Escape(s) + "'")
      case None => Residual("NULL")
    else if name == "session_id" then Quoted(ctx.sessionId)
    else if name == "is_authenticated" then Const(ctx.IsAuthenticated())
    else Residual("NULL")
  }

  function EvalInOrg(arg: EvalResult, ctx: Context): EvalResult {
    match arg
    case Residual(sql) =>
      (match ctx.orgId
       case Some(org) => Residual("(" + sql + " = '" + org + "')")
       case None => Const(false))
    case Const(_) => Const(false)
  }

  function EvalBinary(op: BinaryOp, l: EvalResult, r: EvalResult): EvalResult {
    if op == And then
      if l == Const(false) || r == Const(false) then Const(false)
      else if l == Const(true) then r
      else if r == Const(true) then l
      else Combined(l, op, r)
    else if op == Or then
      if l == Const(true) || r == Const(true) then Const(true)
      else if l == Const(false) then r
      else if r == Const(false) then l
      else Combined(l, op, r)
    else Combined(l, op, r)
  }

  function Combined(l: EvalResult, op: BinaryOp, r: EvalResult): EvalResult {
    Residual("(" + l.AsSql() + " " + op.AsSql() + " " + r.AsSql() + ")")
  }

  function EvalUnary(op: UnaryOp, x: EvalResult): EvalResult {
    match op
    case Not => (match x
                 case Const(b) => Const(!b)
                 case Residual(sql) => Residual("(NOT " + sql + ")"))
    case Minus => (match x
                   case Const(_) => Residual("-")
                   case Residual(sql) => Residual("(-" + sql + ")"))
  }

  function EvalIsNull(x: EvalResult, negated: bool): EvalResult {
    match x
    case Residual(sql) => Residual("(" + sql + (if negated then " IS NOT NULL" else " IS NULL") + ")")
    case Const(_) => Const(negated)
  }

  function EvalInList(x: EvalResult, list: seq<EvalResult>, negated: bool): EvalResult {
    var items := Join(seq(|list|, i requires 0 <= i < |list| => list[i].AsSql()), ", ");
    Residual("(" + x.AsSql() + (if negated then " NOT IN (" else " IN (") + items + "))")
  }
}
