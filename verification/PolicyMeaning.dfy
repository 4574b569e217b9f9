/** The meaning of a policy survives evaluation, in three-valued logic and for every row. */
module PolicyMeaning {
  import opened Options
  import opened PolicyAst
  import opened PolicyContext
  import opened Builtins
  import opened Grammar
  import opened PolicyPrinter
  import opened ParserRange
  import opened PolicyEval
  import opened Semantics
  import opened Pieces
  import opened ResidualText

  // What evaluation cannot do justice to

  /** A call that evaluation replaces by its value; it answers any other call with a constant of its own. */
  predicate Decided(name: string, args: seq<Expr>, ctx: Context) {
    && ValidateCall(name, |args|).Valid?
    && (name == "role" ==> ctx.role.None?)
    && (name == "has_permission" ==> args[0].Lit? && args[0].lit.String?)
  }

  /** The policy folded as evaluation folds it, but with everything that it cannot decide left in place. */
  function Fold(e: Expr, ctx: Context): Special
    decreases e
  {
    match e
    case Lit(Bool(b)) => Known(b)
    case AuthBuiltin(name, args) =>
      if !Decided(name, args, ctx) then Open(e)
      else if name == "in_org" then SpecialInOrg(Fold(args[0], ctx), ctx)
      else SpecialBuiltin(name, args, ctx)
    case Binary(l, op, r) => SpecialBinary(op, Fold(l, ctx), Fold(r, ctx))
    case Unary(op, x) =>
      var s := Fold(x, ctx);
      if s.Known? && op == Not then Known(!s.b) else Open(Unary(op, s.Tree()))
    case IsNull(x, negated) =>
      var s := Fold(x, ctx);
      if s.Known? then Known(negated) else Open(IsNull(s.expr, negated))
    case InList(x, list, negated) =>
      Open(InList(Fold(x, ctx).Tree(), FoldAll(list, ctx), negated))
    case _ => Open(e)
  }

  function FoldAll(es: seq<Expr>, ctx: Context): seq<Expr>
    decreases es
  {
    seq(|es|, i requires 0 <= i < |es| => Fold(es[i], ctx).Tree())
  }

  /** No call is left, and no domain builtin has arguments: these are what evaluation drops. */
  predicate CallFree(e: Expr)
    decreases e
  {
    match e
    case AuthBuiltin(_, _) => false
    case DomainBuiltin(_, _, args) => args == []
    case Binary(l, _, r) => CallFree(l) && CallFree(r)
    case Unary(_, x) => CallFree(x)
    case IsNull(x, _) => CallFree(x)
    case InList(x, list, _) => CallFree(x) && forall i | 0 <= i < |list| :: CallFree(list[i])
    case _ => true
  }

  /**
   Evaluation reaches nothing that it has to drop: what it cannot decide stands only where
   folding makes it irrelevant. A caller can compute this before evaluating.
   */
  predicate NothingLost(e: Expr, ctx: Context) {
    CallFree(Fold(e, ctx).Tree())
  }

  lemma InOrgCallFree(arg: Special, ctx: Context)
    requires CallFree(arg.Tree())
    ensures CallFree(SpecialInOrg(arg, ctx).Tree())
  {
  }

  lemma {:induction false} SpecializedIsCallFree(e: Expr, ctx: Context)
    ensures CallFree(Specialize(e, ctx).Tree())
    decreases e
  {
    match e
    case AuthBuiltin(name, args) =>
      if name == "in_org" && |args| > 0 {
        SpecializedIsCallFree(args[0], ctx);
        InOrgCallFree(Specialize(args[0], ctx), ctx);
      }
    case Binary(l, _, r) =>
      SpecializedIsCallFree(l, ctx);
      SpecializedIsCallFree(r, ctx);
    case Unary(_, x) =>
      SpecializedIsCallFree(x, ctx);
    case IsNull(x, _) =>
      SpecializedIsCallFree(x, ctx);
    case InList(x, list, _) =>
      SpecializedIsCallFree(x, ctx);
      forall i | 0 <= i < |list|
        ensures CallFree(Specialize(list[i], ctx).Tree())
      {
        SpecializedIsCallFree(list[i], ctx);
      }
    case _ =>
  }

  lemma {:induction false} NothingLostSame(e: Expr, ctx: Context)
    requires NothingLost(e, ctx)
    ensures Specialize(e, ctx) == Fold(e, ctx)
    decreases e
  {
    hide ValidateCall, SpecialBuiltin;
    match e
    case AuthBuiltin(name, args) =>
      if Decided(name, args, ctx) && name == "in_org" {
        assert |args| > 0 by { OneArgument(name, args); }
        if ctx.orgId.Some? {
          NothingLostSame(args[0], ctx);
        }
      }
    case Binary(l, op, r) =>
      if CallFree(Fold(l, ctx).Tree()) { NothingLostSame(l, ctx); }
      if CallFree(Fold(r, ctx).Tree()) { NothingLostSame(r, ctx); }
    case Unary(_, x) =>
      NothingLostSame(x, ctx);
    case IsNull(x, _) =>
      NothingLostSame(x, ctx);
    case InList(x, list, negated) =>
      NothingLostSame(x, ctx);
      forall i | 0 <= i < |list|
        ensures Specialize(list[i], ctx) == Fold(list[i], ctx)
      {
        assert FoldAll(list, ctx)[i] == Fold(list[i], ctx).Tree();
        NothingLostSame(list[i], ctx);
      }
      assert seq(|list|, i requires 0 <= i < |list| => Specialize(list[i], ctx).Tree()) == FoldAll(list, ctx);
    case _ =>
  }

  lemma OneArgument(name: string, args: seq<Expr>)
    requires ValidateCall(name, |args|).Valid? && (name == "in_org" || name == "has_permission")
    ensures |args| == 1
  {
  }

  /** What evaluation leaves is the folded policy exactly when it reaches nothing that it has to drop. */
  lemma NothingLostIff(e: Expr, ctx: Context)
    ensures Specialize(e, ctx) == Fold(e, ctx) <==> NothingLost(e, ctx)
  {
    SpecializedIsCallFree(e, ctx);
    if NothingLost(e, ctx) {
      NothingLostSame(e, ctx);
    }
  }

  // The policies for which this holds in every context

  /** Only auth builtins that evaluation decides are called, and domain builtins have no arguments. */
  predicate Faithful(e: Expr)
    decreases e
  {
    match e
    case AuthBuiltin(name, args) =>
      && ValidateCall(name, |args|).Valid? && name != "role"
      && (name == "has_permission" ==> args[0].Lit? && args[0].lit.String?)
      && (name == "in_org" ==> Faithful(args[0]))
    case DomainBuiltin(_, _, args) => args == []
    case Binary(l, _, r) => Faithful(l) && Faithful(r)
    case Unary(_, x) => Faithful(x)
    case IsNull(x, _) => Faithful(x)
    case InList(x, list, _) => Faithful(x) && forall i | 0 <= i < |list| :: Faithful(list[i])
    case _ => true
  }

  lemma {:induction false} FaithfulLosesNothing(e: Expr, ctx: Context)
    requires Faithful(e)
    ensures NothingLost(e, ctx)
    decreases e
  {
    hide ValidateCall;
    match e
    case AuthBuiltin(name, args) =>
      if name == "in_org" || name == "has_permission" {
        OneArgument(name, args);
      }
      assert Decided(name, args, ctx);
      if name == "in_org" {
        FaithfulLosesNothing(args[0], ctx);
        InOrgCallFree(Fold(args[0], ctx), ctx);
      }
    case Binary(l, _, r) =>
      FaithfulLosesNothing(l, ctx);
      FaithfulLosesNothing(r, ctx);
    case Unary(_, x) =>
      FaithfulLosesNothing(x, ctx);
    case IsNull(x, _) =>
      FaithfulLosesNothing(x, ctx);
    case InList(x, list, _) =>
      FaithfulLosesNothing(x, ctx);
      forall i | 0 <= i < |list|
        ensures CallFree(FoldAll(list, ctx)[i])
      {
        FaithfulLosesNothing(list[i], ctx);
      }
    case _ =>
  }

  predicate FloatFree(e: Expr)
    decreases e
  {
    match e
    case Lit(lit) => !lit.Float?
    case AuthBuiltin(name, args) => name == "in_org" && |args| > 0 ==> FloatFree(args[0])
    case Binary(l, _, r) => FloatFree(l) && FloatFree(r)
    case Unary(_, x) => FloatFree(x)
    case IsNull(x, _) => FloatFree(x)
    case InList(x, list, _) => FloatFree(x) && forall i | 0 <= i < |list| :: FloatFree(list[i])
    case _ => true
  }

  // Folding keeps meaning

  /** `s` stands for a policy of value `v` for whoever reads it. */
  predicate Means(s: Special, v: Value, reader: Context, row: Row) {
    match s
    case Known(b) => v == Truth(b)
    case Open(t) => Denote(t, reader, row) == Some(v)
  }

  lemma TreeMeans(s: Special, v: Value, reader: Context, row: Row)
    requires Means(s, v, reader, row)
    ensures Denote(s.Tree(), reader, row) == Some(v)
  {
  }

  lemma BinaryMeans(op: BinaryOp, l: Special, a: Value, r: Special, b: Value, reader: Context, row: Row)
    requires Means(l, a, reader, row) && Means(r, b, reader, row)
    requires BinaryValue(op, a, b, row).Some?
    ensures Means(SpecialBinary(op, l, r), BinaryValue(op, a, b, row).value, reader, row)
  {
    TreeMeans(l, a, reader, row);
    TreeMeans(r, b, reader, row);
  }

  lemma InOrgMeans(s: Special, a: Value, ctx: Context, reader: Context, row: Row)
    requires Means(s, a, reader, row) && InOrgValue(a, ctx, row).Some?
    ensures Means(SpecialInOrg(s, ctx), InOrgValue(a, ctx, row).value, reader, row)
  {
  }

  lemma BuiltinMeans(name: string, args: seq<Expr>, ctx: Context, row: Row)
    requires Decided(name, args, ctx) && name != "in_org"
    requires Denote(AuthBuiltin(name, args), ctx, row).Some?
    ensures Means(SpecialBuiltin(name, args, ctx), Denote(AuthBuiltin(name, args), ctx, row).value, ctx, row)
  {
  }

  /** Folding that forgets nothing keeps the value of every policy. */
  lemma {:induction false} FoldMeans(e: Expr, ctx: Context, row: Row)
    requires Denote(e, ctx, row).Some?
    ensures Means(Fold(e, ctx), Denote(e, ctx, row).value, ctx, row)
    decreases e
  {
    hide ValidateCall;
    match e
    case AuthBuiltin(name, args) =>
      if Decided(name, args, ctx) {
        if name == "in_org" {
          OneArgument(name, args);
          FoldMeans(args[0], ctx, row);
          InOrgMeans(Fold(args[0], ctx), Denote(args[0], ctx, row).value, ctx, ctx, row);
        } else {
          BuiltinMeans(name, args, ctx, row);
        }
      }
    case Binary(l, op, r) =>
      FoldMeans(l, ctx, row);
      FoldMeans(r, ctx, row);
      BinaryMeans(op, Fold(l, ctx), Denote(l, ctx, row).value, Fold(r, ctx), Denote(r, ctx, row).value, ctx, row);
    case Unary(op, x) =>
      FoldMeans(x, ctx, row);
      TreeMeans(Fold(x, ctx), Denote(x, ctx, row).value, ctx, row);
    case IsNull(x, negated) =>
      FoldMeans(x, ctx, row);
    case InList(x, list, negated) =>
      FoldMeans(x, ctx, row);
      TreeMeans(Fold(x, ctx), Denote(x, ctx, row).value, ctx, row);
      forall i | 0 <= i < |list|
        ensures Denote(FoldAll(list, ctx)[i], ctx, row) == Denote(list[i], ctx, row)
      {
        FoldMeans(list[i], ctx, row);
        TreeMeans(Fold(list[i], ctx), Denote(list[i], ctx, row).value, ctx, row);
      }
      SameValues(list, ctx, row, FoldAll(list, ctx), ctx, row);
    case _ =>
  }

  /** Expressions that agree one by one agree as lists. */
  lemma SameValues(es: seq<Expr>, ctx: Context, row: Row, ts: seq<Expr>, reader: Context, other: Row)
    requires |es| == |ts|
    requires forall i | 0 <= i < |es| :: Denote(ts[i], reader, other) == Denote(es[i], ctx, row)
    ensures DenoteAll(ts, reader, other) == DenoteAll(es, ctx, row)
  {
    var was, now := DenoteAll(es, ctx, row), DenoteAll(ts, reader, other);
    if was.Some? {
      assert now.Some?;
      forall i | 0 <= i < |es|
        ensures was.value[i] == now.value[i]
      {
        assert Denote(es[i], ctx, row) == Some(was.value[i]);
        assert Denote(ts[i], reader, other) == Some(now.value[i]);
      }
      assert was.value == now.value;
    }
  }

  /** Without calls the context no longer matters. */
  lemma {:induction false} CallFreeSame(t: Expr, ctx: Context, later: Context, row: Row)
    requires CallFree(t)
    ensures Denote(t, later, row) == Denote(t, ctx, row)
    decreases t
  {
    match t
    case Binary(l, _, r) =>
      CallFreeSame(l, ctx, later, row);
      CallFreeSame(r, ctx, later, row);
    case Unary(_, x) =>
      CallFreeSame(x, ctx, later, row);
    case IsNull(x, _) =>
      CallFreeSame(x, ctx, later, row);
    case InList(x, list, _) =>
      CallFreeSame(x, ctx, later, row);
      forall i | 0 <= i < |list|
        ensures Denote(list[i], later, row) == Denote(list[i], ctx, row)
      {
        CallFreeSame(list[i], ctx, later, row);
      }
      SameValues(list, ctx, row, list, later, row);
    case _ =>
  }

  /** The value of what evaluation leaves of a policy, for whoever reads it. */
  function Result(e: Expr, ctx: Context, reader: Context, row: Row): Meaning {
    Denote(Specialize(e, ctx).Tree(), reader, row)
  }

  /** A result that has a value can be emitted: it never has a minus on a folded boolean. */
  lemma {:induction false} ResultIsEmittable(e: Expr, ctx: Context, reader: Context, row: Row)
    requires Result(e, ctx, reader, row).Some? && FloatFree(e)
    ensures Emittable(e, ctx)
    decreases e
  {
    hide ValidateCall, SpecialBuiltin, In3;
    if Specialize(e, ctx).Open? {
      match e
      case AuthBuiltin(name, args) =>
        if name == "in_org" && |args| > 0 {
          ResultIsEmittable(args[0], ctx, reader, row);
        }
      case Binary(l, _, r) =>
        ResultIsEmittable(l, ctx, reader, row);
        ResultIsEmittable(r, ctx, reader, row);
      case Unary(_, x) =>
        ResultIsEmittable(x, ctx, reader, row);
      case IsNull(x, _) =>
        ResultIsEmittable(x, ctx, reader, row);
      case InList(x, list, _) =>
        ResultIsEmittable(x, ctx, reader, row);
        var trees := seq(|list|, i requires 0 <= i < |list| => Specialize(list[i], ctx).Tree());
        forall i | 0 <= i < |list|
          ensures Emittable(list[i], ctx)
        {
          assert Denote(trees[i], reader, row).Some?;
          ResultIsEmittable(list[i], ctx, reader, row);
        }
      case _ =>
    }
  }

  /** Specialising keeps the value of a policy, whoever reads the result, and the result can be emitted. */
  lemma SpecializeMeans(e: Expr, ctx: Context, later: Context, row: Row)
    requires NothingLost(e, ctx) && Denote(e, ctx, row).Some?
    ensures Means(Specialize(e, ctx), Denote(e, ctx, row).value, later, row)
    ensures FloatFree(e) ==> Emittable(e, ctx)
  {
    NothingLostSame(e, ctx);
    FoldMeans(e, ctx, row);
    CallFreeSame(Fold(e, ctx).Tree(), ctx, later, row);
    if FloatFree(e) {
      TreeMeans(Fold(e, ctx), Denote(e, ctx, row).value, ctx, row);
      ResultIsEmittable(e, ctx, ctx, row);
    }
  }

  /** The value of a policy's result: of its constant, or of its text as SQL reads it. */
  function ResultValue(r: EvalResult, later: Context, row: Row): Meaning {
    match r
    case Const(b) => Some(Truth(b))
    case Residual(sql) =>
      match Parse(EmittedSql, sql)
      case Failure(_) => None
      case Success(t) => Denote(t, later, row)
  }

  predicate MeaningKept(e: Expr, ctx: Context, later: Context, row: Row) {
    ResultValue(Evaluate(e, ctx), later, row) == Denote(e, ctx, row)
  }

  lemma ShownValue(r: EvalResult, s: Special, later: Context, row: Row)
    requires Shows(EmittedSql, r, s)
    ensures ResultValue(r, later, row) == if s.Known? then Some(Truth(s.b)) else Denote(s.expr, later, row)
  {
    hide Piece;
    if r.Residual? {
      PieceParses(EmittedSql, r.sql, s.expr);
    }
  }

  /**
   Main theorem: for every policy, context and row on which the policy is well typed, the
   constant or the emitted SQL text has exactly the value of the policy (TRUE, FALSE,
   unknown or other), no matter which context reads the text, provided that evaluation
   loses nothing (`NothingLost`; `MeaningLimits` shows what happens elsewhere).
   */
  lemma EvaluationKeepsMeaning(e: Expr, ctx: Context, later: Context, row: Row)
    requires Printable(e, true) && NothingLost(e, ctx) && FloatFree(e) && ctx.IdsHaveNoQuote()
    requires Denote(e, ctx, row).Some?
    ensures MeaningKept(e, ctx, later, row)
  {
    SpecializeMeans(e, ctx, later, row);
    EvaluationShows(EmittedSql, e, ctx);
    ShownValue(Evaluate(e, ctx), Specialize(e, ctx), later, row);
  }

  /** The same from the text of a stored policy, parsed and then evaluated. */
  lemma StoredPolicyKeepsMeaning(policy: string, e: Expr, ctx: Context, later: Context, row: Row)
    requires Parse(StoredText, policy) == Success(e)
    requires NothingLost(e, ctx) && FloatFree(e) && ctx.IdsHaveNoQuote()
    requires Denote(e, ctx, row).Some?
    ensures MeaningKept(e, ctx, later, row)
  {
    ParsePrintParse(policy, e);
    FlagIrrelevant(e);
    EvaluationKeepsMeaning(e, ctx, later, row);
  }

  // Evaluation is complete: what it emits cannot be evaluated any further.

  /** Every has_permission is asked about a string literal. */
  predicate LiteralPermissions(e: Expr)
    decreases e
  {
    match e
    case AuthBuiltin(name, args) =>
      && (name == "has_permission" ==> |args| > 0 && args[0].Lit? && args[0].lit.String?)
      && (name == "in_org" && |args| > 0 ==> LiteralPermissions(args[0]))
    case Binary(l, _, r) => LiteralPermissions(l) && LiteralPermissions(r)
    case Unary(_, x) => LiteralPermissions(x)
    case IsNull(x, _) => LiteralPermissions(x)
    case InList(x, list, _) => LiteralPermissions(x) && forall i | 0 <= i < |list| :: LiteralPermissions(list[i])
    case _ => true
  }

  lemma QuotedStays(value: Option<string>, later: Context)
    requires value.Some? ==> '\'' !in value.value
    ensures Evaluate(TextOrNull(value).Tree(), later) == Quoted(value)
  {
    if value.Some? {
      EscapeUnquoted(value.value);
    }
  }

  lemma {:induction false} SpecializedStays(e: Expr, ctx: Context, later: Context)
    requires LiteralPermissions(e) && Emittable(e, ctx) && ctx.IdsHaveNoQuote()
    ensures Evaluate(Specialize(e, ctx).Tree(), later) == Evaluate(e, ctx)
    ensures Specialize(e, ctx).Open? <==> Evaluate(e, ctx).Residual?
    decreases e
  {
    hide EvalInList, EvalBinary, SpecialBinary;
    KnownIsConst(e, ctx);
    if Specialize(e, ctx).Known? {
      return;
    }
    match e
    case AuthBuiltin(name, args) =>
      if name == "in_org" && |args| > 0 {
        SpecializedStays(args[0], ctx, later);
        InOrgStays(Specialize(args[0], ctx), Evaluate(args[0], ctx), ctx, later);
      } else {
        BuiltinStays(name, args, ctx, later);
      }
    case Binary(l, op, r) =>
      SpecializedStays(l, ctx, later);
      SpecializedStays(r, ctx, later);
      BinaryStays(op, Specialize(l, ctx), Evaluate(l, ctx), Specialize(r, ctx), Evaluate(r, ctx), later);
    case Unary(op, x) =>
      SpecializedStays(x, ctx, later);
    case IsNull(x, negated) =>
      SpecializedStays(x, ctx, later);
    case InList(x, list, negated) =>
      SpecializedStays(x, ctx, later);
      var trees := seq(|list|, i requires 0 <= i < |list| => Specialize(list[i], ctx).Tree());
      var was := seq(|list|, i requires 0 <= i < |list| => Evaluate(list[i], ctx));
      var now := seq(|trees|, i requires 0 <= i < |trees| => Evaluate(trees[i], later));
      forall i | 0 <= i < |list|
        ensures now[i] == was[i]
      {
        SpecializedStays(list[i], ctx, later);
      }
      assert now == was;
      StaysResidual(Evaluate(x, ctx), was, negated);
    case DomainBuiltin(_, _, _) =>
    case Lit(_) =>
    case Column(_) =>
    case QualifiedColumn(_, _) =>
    case Subquery(_) =>
  }

  lemma StaysResidual(x: EvalResult, list: seq<EvalResult>, negated: bool)
    ensures EvalInList(x, list, negated).Residual?
  {
  }

  /** `s` evaluates again to the result `r` that it was taken from. */
  predicate Stays(s: Special, r: EvalResult, later: Context) {
    Evaluate(s.Tree(), later) == r && (s.Open? <==> r.Residual?)
  }

  lemma InOrgStays(s: Special, r: EvalResult, ctx: Context, later: Context)
    requires Stays(s, r, later) && ctx.IdsHaveNoQuote()
    ensures Stays(SpecialInOrg(s, ctx), EvalInOrg(r, ctx), later)
  {
    if s.Open? && ctx.orgId.Some? {
      var org := ctx.orgId.value;
      EscapeUnquoted(org);
      assert "(" + r.sql + " " + Eq.AsSql() + " " + ("'" + org + "'") + ")" == "(" + r.sql + " = '" + org + "')";
    }
  }

  lemma BuiltinStays(name: string, args: seq<Expr>, ctx: Context, later: Context)
    requires LiteralPermissions(AuthBuiltin(name, args)) && ctx.IdsHaveNoQuote()
    ensures Stays(SpecialBuiltin(name, args, ctx), EvalAuthBuiltin(name, args, ctx), later)
  {
    QuotedStays(ctx.userId, later);
    QuotedStays(ctx.orgId, later);
    QuotedStays(ctx.sessionId, later);
  }

  lemma BinaryStays(op: BinaryOp, l: Special, lr: EvalResult, r: Special, rr: EvalResult, later: Context)
    requires Stays(l, lr, later) && Stays(r, rr, later)
    ensures Stays(SpecialBinary(op, l, r), EvalBinary(op, lr, rr), later)
  {
  }

  /**
   Emitted text is a fixed point: read back and evaluated again, under any context, it
   comes out unchanged. So nothing that could be folded is left inside it.
   */
  lemma EmittedTextIsFinal(e: Expr, ctx: Context, later: Context)
    requires Printable(e, true) && LiteralPermissions(e) && Emittable(e, ctx) && ctx.IdsHaveNoQuote()
    requires Evaluate(e, ctx).Residual?
    ensures var sql := Evaluate(e, ctx).sql;
            Parse(EmittedSql, sql).Success? && Evaluate(Parse(EmittedSql, sql).expr, later) == Residual(sql)
  {
    hide Piece;
    EvaluationShows(EmittedSql, e, ctx);
    SpecializedStays(e, ctx, later);
    PieceParses(EmittedSql, Evaluate(e, ctx).sql, Specialize(e, ctx).expr);
  }
}
