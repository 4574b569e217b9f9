/**
 Evaluation is a correct partial evaluator. The SQL text that it leaves behind is uniquely
 readable, means what the policy meant, and cannot be evaluated any further.
 */
module ResidualText {
  import opened Options
  import opened PolicyAst
  import opened AsciiText
  import opened PolicyContext
  import opened Grammar
  import opened Reading
  import opened Atoms
  import opened PolicyPrinter
  import opened ParserRange
  import opened PolicyEval
  import opened Pieces

  /** What is left of a policy once the context is known. */
  datatype Special = Known(b: bool) | Open(expr: Expr) {
    function Tree(): Expr {
      match this
      case Known(b) => Lit(Literal.Bool(b))
      case Open(e) => e
    }
  }

  function TextOrNull(value: Option<string>): Special {
    match value
    case Some(s) => Open(Lit(String(s)))
    case None => Open(Lit(Literal.Null))
  }

  /** The policy with its context-dependent parts replaced by their values. */
  function Specialize(e: Expr, ctx: Context): Special
    decreases e
  {
    match e
    case Lit(Bool(b)) => Known(b)
    case Lit(_) => Open(e)
    case Column(_) => Open(e)
    case QualifiedColumn(_, _) => Open(e)
    case AuthBuiltin(name, args) =>
      if name == "in_org" && |args| > 0 then SpecialInOrg(Specialize(args[0], ctx), ctx)
      else SpecialBuiltin(name, args, ctx)
    case DomainBuiltin(domain, property, _) => Open(DomainBuiltin(domain, property, []))
    case Binary(l, op, r) => SpecialBinary(op, Specialize(l, ctx), Specialize(r, ctx))
    case Unary(op, x) =>
      var s := Specialize(x, ctx);
      if s.Known? && op == Not then Known(!s.b) else Open(Unary(op, s.Tree()))
    case IsNull(x, negated) =>
      var s := Specialize(x, ctx);
      if s.Known? then Known(negated) else Open(IsNull(s.expr, negated))
    case InList(x, list, negated) =>
      Open(InList(Specialize(x, ctx).Tree(),
                  seq(|list|, i requires 0 <= i < |list| => Specialize(list[i], ctx).Tree()), negated))
    case Subquery(_) => Open(e)
  }

  function SpecialInOrg(arg: Special, ctx: Context): Special {
    if arg.Known? || ctx.orgId.None? then Known(false)
    else Open(Binary(arg.expr, Eq, Lit(String(ctx.orgId.value))))
  }

  function SpecialBuiltin(name: string, args: seq<Expr>, ctx: Context): Special {
    if name == "user_id" then TextOrNull(ctx.userId)
    else if name == "org_id" then TextOrNull(ctx.orgId)
    else if name == "has_permission" then
      if |args| > 0 && args[0].Lit? && args[0].lit.String? then Known(ctx.HasPermission(args[0].lit.s))
      else Open(Lit(Literal.Bool(false)))
    else if name == "in_org" then Known(false)
    else if name == "email" then TextOrNull(ctx.email)
    else if name == "session_id" then TextOrNull(ctx.sessionId)
    else if name == "is_authenticated" then Known(ctx.IsAuthenticated())
    else Open(Lit(Literal.Null))
  }

  function SpecialBinary(op: BinaryOp, l: Special, r: Special): Special {
    if op == And then
      if l == Known(false) || r == Known(false) then Known(false)
      else if l == Known(true) then r
      else if r == Known(true) then l
      else Open(Binary(l.Tree(), op, r.Tree()))
    else if op == Or then
      if l == Known(true) || r == Known(true) then Known(true)
      else if l == Known(false) then r
      else if r == Known(false) then l
      else Open(Binary(l.Tree(), op, r.Tree()))
    else Open(Binary(l.Tree(), op, r.Tree()))
  }

  /**
   Where folding leaves something to emit, it leaves no float, and no minus on a folded
   boolean: evaluation writes a bare `-` there. `Ink.ReadsBackIff` shows that without floats
   this is exactly when the emitted text can be read back.
   */
  predicate Emittable(e: Expr, ctx: Context)
    decreases e
  {
    Specialize(e, ctx).Known? ||
    match e
    case Lit(lit) => !lit.Float?
    case AuthBuiltin(name, args) => name == "in_org" && |args| > 0 ==> Emittable(args[0], ctx)
    case Binary(l, _, r) => Emittable(l, ctx) && Emittable(r, ctx)
    case Unary(op, x) => Emittable(x, ctx) && (op == Minus ==> Specialize(x, ctx).Open?)
    case IsNull(x, _) => Emittable(x, ctx)
    case InList(x, list, _) => Emittable(x, ctx) && forall i | 0 <= i < |list| :: Emittable(list[i], ctx)
    case _ => true
  }

  /** No column occurs where evaluation would emit it; columns are quoted, which policy text cannot be. */
  predicate ColumnFree(e: Expr)
    decreases e
  {
    match e
    case Column(_) => false
    case QualifiedColumn(_, _) => false
    case AuthBuiltin(name, args) => name == "in_org" && |args| > 0 ==> ColumnFree(args[0])
    case Binary(l, _, r) => ColumnFree(l) && ColumnFree(r)
    case Unary(_, x) => ColumnFree(x)
    case IsNull(x, _) => ColumnFree(x)
    case InList(x, list, _) => ColumnFree(x) && forall i | 0 <= i < |list| :: ColumnFree(list[i])
    case _ => true
  }

  // The text is readable

  /** The result and what it stands for: a constant, or text read as one expression. */
  ghost predicate Shows(d: Dialect, r: EvalResult, s: Special) {
    match r
    case Const(b) => s == Known(b)
    case Residual(sql) => s.Open? && Piece(d, sql, s.expr)
  }

  lemma BoolPiece(d: Dialect, b: bool)
    ensures Piece(d, if b then "TRUE" else "FALSE", Lit(Literal.Bool(b)))
  {
    hide Reads, NotNegated, EndsPrimary;
    forall rest | EndsPrimary(rest)
      ensures Reads(PrimaryLevel, d, if b then "TRUE" else "FALSE", Lit(Literal.Bool(b)), rest)
      ensures NotNegated((if b then "TRUE" else "FALSE") + rest)
    {
      BoolReads(d, b, rest);
    }
  }

  lemma ShownPiece(d: Dialect, r: EvalResult, s: Special)
    requires Shows(d, r, s)
    ensures Piece(d, r.AsSql(), s.Tree())
  {
    hide Piece;
    if r.Const? {
      BoolPiece(d, r.b);
    }
  }

  lemma LiteralPiece(d: Dialect, lit: Literal)
    requires PrintableLiteral(lit) && !lit.Float?
    ensures Piece(d, PrintLiteral(lit), Lit(lit))
  {
    hide Reads, NotNegated, EndsPrimary, PrintLiteral;
    forall rest | EndsPrimary(rest)
      ensures Reads(PrimaryLevel, d, PrintLiteral(lit), Lit(lit), rest)
      ensures NotNegated(PrintLiteral(lit) + rest)
    {
      LiteralReads(d, lit, rest);
    }
  }

  lemma {:induction false} EscapeUnquoted(s: string)
    requires '\'' !in s
    ensures Escape(s) == s
  {
    if s != "" {
      EscapeUnquoted(s[1..]);
    }
  }

  lemma QuotedShows(d: Dialect, value: Option<string>)
    requires value.Some? ==> '\'' !in value.value
    ensures Shows(d, Quoted(value), TextOrNull(value))
  {
    hide Piece;
    match value
    case Some(s) =>
      EscapeUnquoted(s);
      LiteralPiece(d, String(s));
    case None =>
      LiteralPiece(d, Literal.Null);
  }

  lemma BuiltinShows(d: Dialect, name: string, args: seq<Expr>, ctx: Context)
    requires ctx.IdsHaveNoQuote()
    ensures Shows(d, EvalAuthBuiltin(name, args, ctx), SpecialBuiltin(name, args, ctx))
  {
    hide Piece;
    QuotedShows(d, ctx.userId);
    QuotedShows(d, ctx.orgId);
    QuotedShows(d, ctx.sessionId);
    LiteralPiece(d, Literal.Null);
    if ctx.email.Some? {
      LiteralPiece(d, String(ctx.email.value));
    }
    LowerFalsePiece(d);
  }

  lemma LowerFalsePiece(d: Dialect)
    ensures Piece(d, "false", Lit(Literal.Bool(false)))
  {
    hide Reads, NotNegated, EndsPrimary;
    forall rest | EndsPrimary(rest)
      ensures Reads(PrimaryLevel, d, "false", Lit(Literal.Bool(false)), rest) && NotNegated("false" + rest)
    {
      LowerFalseReads(d, rest);
    }
  }

  lemma ColumnPiece(d: Dialect, name: string)
    requires d.EmittedSql? && IsIdent(name)
    ensures Piece(d, "\"" + name + "\"", Column(name))
  {
    hide Reads, NotNegated, EndsPrimary;
    forall rest | EndsPrimary(rest)
      ensures Reads(PrimaryLevel, d, "\"" + name + "\"", Column(name), rest)
      ensures NotNegated("\"" + name + "\"" + rest)
    {
      QuotedColumnReads(name, rest);
    }
  }

  lemma PairPiece(d: Dialect, table: string, column: string)
    requires d.EmittedSql? && IsIdent(table) && IsIdent(column)
    ensures Piece(d, "\"" + table + "\".\"" + column + "\"", QualifiedColumn(table, column))
  {
    hide Reads, NotNegated, EndsPrimary;
    forall rest | EndsPrimary(rest)
      ensures Reads(PrimaryLevel, d, "\"" + table + "\".\"" + column + "\"", QualifiedColumn(table, column), rest)
      ensures NotNegated("\"" + table + "\".\"" + column + "\"" + rest)
    {
      QuotedPairReads(table, column, rest);
    }
  }

  lemma DomainPiece(d: Dialect, domain: string, property: string)
    requires IsIdent(domain) && IsDomain(domain) && IsIdent(property)
    ensures Piece(d, domain + "." + property, DomainBuiltin(domain, property, []))
  {
    hide Reads, NotNegated, EndsPrimary, IsIdent, IsDomain;
    forall rest | EndsPrimary(rest)
      ensures Reads(PrimaryLevel, d, domain + "." + property, DomainBuiltin(domain, property, []), rest)
      ensures NotNegated(domain + "." + property + rest)
    {
      DomainReads(d, domain, property, rest);
    }
  }

  lemma InOrgShows(d: Dialect, r: EvalResult, s: Special, ctx: Context)
    requires Shows(d, r, s) && ctx.IdsHaveNoQuote()
    ensures Shows(d, EvalInOrg(r, ctx), SpecialInOrg(s, ctx))
  {
    hide Piece;
    if r.Residual? && ctx.orgId.Some? {
      var org := ctx.orgId.value;
      QuotedShows(d, ctx.orgId);
      BinaryPiece(d, r.sql, s.expr, Eq, "'" + org + "'", Lit(String(org)));
      assert "(" + r.sql + " " + Eq.AsSql() + " " + ("'" + org + "'") + ")" == "(" + r.sql + " = '" + org + "')";
    }
  }

  lemma BinaryShows(d: Dialect, op: BinaryOp, l: EvalResult, ls: Special, r: EvalResult, rs: Special)
    requires Shows(d, l, ls) && Shows(d, r, rs)
    ensures Shows(d, EvalBinary(op, l, r), SpecialBinary(op, ls, rs))
  {
    hide Piece, BinaryOp.AsSql, EvalResult.AsSql;
    ShownPiece(d, l, ls);
    ShownPiece(d, r, rs);
    BinaryPiece(d, l.AsSql(), ls.Tree(), op, r.AsSql(), rs.Tree());
  }

  lemma UnaryShows(d: Dialect, op: UnaryOp, x: EvalResult, s: Special)
    requires Shows(d, x, s) && (op == Minus ==> s.Open?)
    ensures Shows(d, EvalUnary(op, x), if s.Known? && op == Not then Known(!s.b) else Open(Unary(op, s.Tree())))
  {
    hide Piece;
    if x.Residual? {
      NotPiece(d, x.sql, s.expr);
      MinusPiece(d, x.sql, s.expr);
    }
  }

  lemma NullShows(d: Dialect, x: EvalResult, s: Special, negated: bool)
    requires Shows(d, x, s)
    ensures Shows(d, EvalIsNull(x, negated), if s.Known? then Known(negated) else Open(IsNull(s.expr, negated)))
  {
    hide Piece;
    if x.Residual? {
      NullPiece(d, x.sql, s.expr, negated);
      var test := if negated then " IS NOT NULL" else " IS NULL";
      assert "(" + (x.sql + test) + ")" == "(" + x.sql + test + ")";
    }
  }

  lemma InShows(d: Dialect, x: EvalResult, s: Special, list: seq<EvalResult>, trees: seq<Expr>, negated: bool)
    requires Shows(d, x, s) && |list| == |trees|
    requires forall i | 0 <= i < |list| :: Piece(d, list[i].AsSql(), trees[i])
    ensures Shows(d, EvalInList(x, list, negated), Open(InList(s.Tree(), trees, negated)))
  {
    hide Piece, EvalResult.AsSql;
    ShownPiece(d, x, s);
    var parts := seq(|list|, i requires 0 <= i < |list| => list[i].AsSql());
    InPiece(d, x.AsSql(), s.Tree(), parts, trees, negated);
    var open := if negated then " NOT IN (" else " IN (";
    var items := Join(parts, ", ");
    assert "(" + (x.AsSql() + open + items + ")") + ")" == "(" + x.AsSql() + open + items + "))";
  }

  /** Evaluation and specialisation fold the same expressions, to the same constants. */
  lemma {:induction false} KnownIsConst(e: Expr, ctx: Context)
    ensures Specialize(e, ctx).Known? <==> Evaluate(e, ctx).Const?
    ensures Specialize(e, ctx).Known? ==> Evaluate(e, ctx) == Const(Specialize(e, ctx).b)
    decreases e
  {
    match e
    case AuthBuiltin(name, args) =>
      if name == "in_org" && |args| > 0 {
        KnownIsConst(args[0], ctx);
      }
    case Binary(l, _, r) =>
      KnownIsConst(l, ctx);
      KnownIsConst(r, ctx);
    case Unary(_, x) =>
      KnownIsConst(x, ctx);
    case IsNull(x, _) =>
      KnownIsConst(x, ctx);
    case _ =>
  }

  /** Evaluation shows the specialised policy: as a constant, or as text read as its tree. */
  lemma {:induction false} EvaluationShows(d: Dialect, e: Expr, ctx: Context)
    requires Printable(e, true) && Emittable(e, ctx) && ctx.IdsHaveNoQuote()
    requires d.EmittedSql? || ColumnFree(e)
    ensures Shows(d, Evaluate(e, ctx), Specialize(e, ctx))
    decreases e
  {
    hide Piece, IsIdent, IsDomain, EvalAuthBuiltin, SpecialBuiltin, EvalInOrg, SpecialInOrg;
    hide EvalBinary, SpecialBinary, EvalInList;
    KnownIsConst(e, ctx);
    if Specialize(e, ctx).Known? {
      return;
    }
    match e
    case Lit(lit) =>
      LiteralPiece(d, lit);
    case Column(name) =>
      ColumnPiece(d, name);
    case QualifiedColumn(table, column) =>
      PairPiece(d, table, column);
    case AuthBuiltin(name, args) =>
      if name == "in_org" && |args| > 0 {
        FlagIrrelevant(args[0]);
        EvaluationShows(d, args[0], ctx);
        InOrgShows(d, Evaluate(args[0], ctx), Specialize(args[0], ctx), ctx);
      } else {
        BuiltinShows(d, name, args, ctx);
      }
    case DomainBuiltin(domain, property, args) =>
      DomainPiece(d, domain, property);
    case Binary(l, op, r) =>
      FlagIrrelevant(l);
      if op.IsLogical() { FlagIrrelevant(r); }
      EvaluationShows(d, l, ctx);
      EvaluationShows(d, r, ctx);
      BinaryShows(d, op, Evaluate(l, ctx), Specialize(l, ctx), Evaluate(r, ctx), Specialize(r, ctx));
    case Unary(op, x) =>
      if op == Not { FlagIrrelevant(x); }
      EvaluationShows(d, x, ctx);
      UnaryShows(d, op, Evaluate(x, ctx), Specialize(x, ctx));
    case IsNull(x, negated) =>
      FlagIrrelevant(x);
      EvaluationShows(d, x, ctx);
      NullShows(d, Evaluate(x, ctx), Specialize(x, ctx), negated);
    case InList(x, list, negated) =>
      FlagIrrelevant(x);
      EvaluationShows(d, x, ctx);
      var results := seq(|list|, i requires 0 <= i < |list| => Evaluate(list[i], ctx));
      var trees := seq(|list|, i requires 0 <= i < |list| => Specialize(list[i], ctx).Tree());
      forall i | 0 <= i < |list|
        ensures Piece(d, results[i].AsSql(), trees[i])
      {
        EvaluationShows(d, list[i], ctx);
        ShownPiece(d, Evaluate(list[i], ctx), Specialize(list[i], ctx));
      }
      InShows(d, Evaluate(x, ctx), Specialize(x, ctx), results, trees, negated);
  }

  /**
   Without columns the emitted text is itself a policy: the policy parser reads it as the
   specialised tree, quotes inside strings included.
   */
  lemma EmittedTextIsPolicyText(e: Expr, ctx: Context)
    requires Printable(e, true) && Emittable(e, ctx) && ctx.IdsHaveNoQuote() && ColumnFree(e)
    requires Evaluate(e, ctx).Residual?
    ensures Specialize(e, ctx).Open? && Parse(StoredText, Evaluate(e, ctx).sql) == Success(Specialize(e, ctx).expr)
  {
    hide Piece;
    EvaluationShows(StoredText, e, ctx);
    PieceParses(StoredText, Evaluate(e, ctx).sql, Specialize(e, ctx).expr);
  }
}
