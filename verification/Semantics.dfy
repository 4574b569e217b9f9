/**
 What policies mean: a reference interpreter in SQL's three-valued logic.

 A boolean is TRUE, FALSE or NULL (unknown). What the database itself decides (column
 values, functions, comparison, pattern matching, negation of numbers) is a parameter, so
 that the theorems hold for every database. `None` is a type error: a non-boolean under
 AND, OR or NOT, a boolean under minus, or a boolean given to in_org.

 The parser gives `auth.name(...)` and `name(...)` the same node. Where the auth builtins
 have a function of that name and number of arguments the node means the builtin. Any
 other call means the database's function of that name.
 */
module Semantics {
  import opened Options
  import opened PolicyAst
  import opened Builtins
  import opened PolicyContext

  datatype Value = Unknown | Truth(b: bool) | Number(n: int) | Text(s: string) {
    predicate IsLogical() {
      Unknown? || Truth?
    }
    /** A WHERE clause keeps a row only when its condition is TRUE. */
    predicate IsTrue() {
      this == Truth(true)
    }
  }

  datatype Row = Row(
    column: string -> Value,
    qualified: (string, string) -> Value,
    builtin: (string, string, seq<Value>) -> Value,
    call: (string, seq<Value>) -> Value,
    compare: (BinaryOp, Value, Value) -> bool,
    negate: Value -> Value,
    float: string -> Value,
    subquery: string -> Value)

  type Meaning = Option<Value>

  function And3(a: Value, b: Value): Value
    requires a.IsLogical() && b.IsLogical()
  {
    if a == Truth(false) || b == Truth(false) then Truth(false)
    else if a.Unknown? || b.Unknown? then Unknown
    else Truth(true)
  }

  function Or3(a: Value, b: Value): Value
    requires a.IsLogical() && b.IsLogical()
  {
    if a == Truth(true) || b == Truth(true) then Truth(true)
    else if a.Unknown? || b.Unknown? then Unknown
    else Truth(false)
  }

  function Not3(a: Value): Value
    requires a.IsLogical()
  {
    if a.Unknown? then Unknown else Truth(!a.b)
  }

  function Compare3(row: Row, op: BinaryOp, a: Value, b: Value): Value {
    if a.Unknown? || b.Unknown? then Unknown else Truth(row.compare(op, a, b))
  }

  /** x IN (v1, ..., vn) is x = v1 OR ... OR x = vn. */
  function In3(row: Row, x: Value, vs: seq<Value>): (v: Value)
    ensures v.IsLogical()
  {
    if vs == [] then Truth(false)
    else Or3(In3(row, x, vs[..|vs| - 1]), Compare3(row, Eq, x, vs[|vs| - 1]))
  }

  function LiteralValue(lit: Literal, row: Row): Value {
    match lit
    case Null => Unknown
    case Bool(b) => Truth(b)
    case Int(n) => Number(n)
    case Float(spelling) => row.float(spelling)
    case String(s) => Text(s)
  }

  function OptionalText(value: Option<string>): Value {
    match value
    case Some(s) => Text(s)
    case None => Unknown
  }

  /** has_permission asks the context about the text its argument denotes. */
  function PermissionValue(arg: Value, ctx: Context): Meaning {
    match arg
    case Unknown => Some(Unknown)
    case Text(s) => Some(Truth(ctx.HasPermission(s)))
    case _ => None
  }

  function InOrgValue(arg: Value, ctx: Context, row: Row): Meaning {
    if arg.Truth? then None
    else if ctx.orgId.None? then Some(Truth(false))
    else Some(Compare3(row, Eq, arg, Text(ctx.orgId.value)))
  }

  /** The builtins without arguments. */
  function BuiltinValue(name: string, ctx: Context): Value
    requires ValidateCall(name, 0).Valid?
  {
    if name == "user_id" then OptionalText(ctx.userId)
    else if name == "org_id" then OptionalText(ctx.orgId)
    else if name == "email" then OptionalText(ctx.email)
    else if name == "session_id" then OptionalText(ctx.sessionId)
    else if name == "is_authenticated" then Truth(ctx.IsAuthenticated())
    else OptionalText(ctx.role)
  }

  function BinaryValue(op: BinaryOp, a: Value, b: Value, row: Row): Meaning {
    if op.IsLogical() then
      if !a.IsLogical() || !b.IsLogical() then None
      else Some(if op == And then And3(a, b) else Or3(a, b))
    else Some(Compare3(row, op, a, b))
  }

  function UnaryValue(op: UnaryOp, a: Value, row: Row): Meaning {
    match op
    case Not => if a.IsLogical() then Some(Not3(a)) else None
    case Minus => if a.Truth? then None else if a.Unknown? then Some(Unknown) else Some(row.negate(a))
  }

  function NullTest(a: Value, negated: bool): Value {
    Truth(a.Unknown? != negated)
  }

  function Membership(x: Value, vs: seq<Value>, negated: bool, row: Row): Value {
    if negated then Not3(In3(row, x, vs)) else In3(row, x, vs)
  }

  function Denote(e: Expr, ctx: Context, row: Row): Meaning
    decreases e
  {
    match e
    case Column(name) => Some(row.column(name))
    case QualifiedColumn(table, column) => Some(row.qualified(table, column))
    case Lit(lit) => Some(LiteralValue(lit, row))
    case Binary(l, op, r) =>
      var a, b := Denote(l, ctx, row), Denote(r, ctx, row);
      if a.None? || b.None? then None else BinaryValue(op, a.value, b.value, row)
    case Unary(op, x) =>
      var a := Denote(x, ctx, row);
      if a.None? then None else UnaryValue(op, a.value, row)
    case AuthBuiltin(name, args) =>
      if ValidateCall(name, |args|).Invalid? then
        var vs := DenoteAll(args, ctx, row);
        if vs.None? then None else Some(row.call(name, vs.value))
      else if |args| == 1 then
        var a := Denote(args[0], ctx, row);
        if a.None? then None
        else if name == "has_permission" then PermissionValue(a.value, ctx)
        else InOrgValue(a.value, ctx, row)
      else Some(BuiltinValue(name, ctx))
    case DomainBuiltin(domain, property, args) =>
      var vs := DenoteAll(args, ctx, row);
      if vs.None? then None else Some(row.builtin(domain, property, vs.value))
    case IsNull(x, negated) =>
      var a := Denote(x, ctx, row);
      if a.None? then None else Some(NullTest(a.value, negated))
    case InList(x, list, negated) =>
      var a, vs := Denote(x, ctx, row), DenoteAll(list, ctx, row);
      if a.None? || vs.None? then None else Some(Membership(a.value, vs.value, negated, row))
    case Subquery(sql) => Some(row.subquery(sql))
  }

  function DenoteAll(es: seq<Expr>, ctx: Context, row: Row): (r: Option<seq<Value>>)
    ensures r.Some? ==> |r.value| == |es|
    ensures r.Some? ==> forall i | 0 <= i < |es| :: Denote(es[i], ctx, row) == Some(r.value[i])
    ensures r.None? ==> exists i | 0 <= i < |es| :: Denote(es[i], ctx, row).None?
    decreases es
  {
    if es == [] then Some([])
    else
      var n := |es| - 1;
      var init, last := DenoteAll(es[..n], ctx, row), Denote(es[n], ctx, row);
      if init.None? || last.None? then None else Some(init.value + [last.value])
  }
}
