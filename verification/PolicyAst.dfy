/** The policy expression tree and its operators. */
module PolicyAst {

  datatype BinaryOp = Eq | NotEq | Lt | LtEq | Gt | GtEq | And | Or | Like | ILike {

    /** The spelling of the operator, in policy text and in emitted SQL alike. */
    function AsSql(): string {
      match this
      case Eq => "="
      case NotEq => "<>"
      case Lt => "<"
      case LtEq => "<="
      case Gt => ">"
      case GtEq => ">="
      case And => "AND"
      case Or => "OR"
      case Like => "LIKE"
      case ILike => "ILIKE"
    }

    predicate IsLogical() {
      And? || Or?
    }
  }

  datatype UnaryOp = Not | Minus

  /** A float is carried by its spelling: the model has no binary floating point. */
  datatype Literal = Null | Bool(b: bool) | Int(n: int) | Float(spelling: string) | String(s: string)

  datatype Expr =
    | Column(name: string)
    | QualifiedColumn(table: string, column: string)
    | Lit(lit: Literal)
    | Binary(left: Expr, op: BinaryOp, right: Expr)
    | Unary(uop: UnaryOp, operand: Expr)
    | AuthBuiltin(builtin: string, args: seq<Expr>)
    | DomainBuiltin(domain: string, property: string, args: seq<Expr>)
    | IsNull(operand: Expr, negated: bool)
    | InList(operand: Expr, list: seq<Expr>, negated: bool)
    | Subquery(sql: string)
}
