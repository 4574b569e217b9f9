/** A static check that rules out type errors, so that a caller can know a policy has a value. */
module PolicyTyping {
  import opened Options
  import opened PolicyAst
  import opened PolicyContext
  import opened Builtins
  import opened Semantics
  import opened ResidualText
  import opened PolicyMeaning

  /** `Anything` is the kind of expressions that are always NULL. */
  datatype Kind = Logical | Scalar | Anything

  datatype Schema = Schema(
    column: string -> Kind,
    qualified: (string, string) -> Kind,
    builtin: (string, string) -> Kind,
    call: string -> Kind)

  predicate HasKind(v: Value, k: Kind) {
    match k
    case Logical => v.IsLogical()
    case Scalar => !v.Truth?
    case Anything => v.Unknown?
  }

  function KindOf(e: Expr, schema: Schema): Option<Kind>
    decreases e
  {
    match e
    case Column(name) => Some(schema.column(name))
    case QualifiedColumn(table, column) => Some(schema.qualified(table, column))
    case Lit(Null) => Some(Anything)
    case Lit(Bool(_)) => Some(Logical)
    case Lit(_) => Some(Scalar)
    case Binary(l, op, r) =>
      var a, b := KindOf(l, schema), KindOf(r, schema);
      if a.None? || b.None? then None
      else if op.IsLogical() && (a.value.Scalar? || b.value.Scalar?) then None
      else Some(Logical)
    case Unary(Not, x) =>
      var a := KindOf(x, schema);
      if a.None? || a.value.Scalar? then None else Some(Logical)
    case Unary(Minus, x) =>
      var a := KindOf(x, schema);
      if a.None? || a.value.Logical? then None else a
    case AuthBuiltin(name, args) =>
      if ValidateCall(name, |args|).Invalid? then
        if AllTyped(args, schema) then Some(schema.call(name)) else None
      else if name == "has_permission" then
        if args[0].Lit? && args[0].lit.String? then Some(Logical) else None
      else if name == "in_org" then
        var a := KindOf(args[0], schema);
        if a.None? || a.value.Logical? then None else Some(Logical)
      else if name == "is_authenticated" then Some(Logical)
      else Some(Scalar)
    case DomainBuiltin(domain, property, args) =>
      if AllTyped(args, schema) then Some(schema.builtin(domain, property)) else None
    case IsNull(x, _) =>
      if KindOf(x, schema).None? then None else Some(Logical)
    case InList(x, list, _) =>
      if KindOf(x, schema).Some? && AllTyped(list, schema) then Some(Logical) else None
    case Subquery(_) => None
  }

  predicate AllTyped(es: seq<Expr>, schema: Schema)
    decreases es
  {
    forall i | 0 <= i < |es| :: KindOf(es[i], schema).Some?
  }

  ghost predicate Conforms(row: Row, schema: Schema) {
    && (forall name :: HasKind(row.column(name), schema.column(name)))
    && (forall table, column :: HasKind(row.qualified(table, column), schema.qualified(table, column)))
    && (forall domain, property, vs :: HasKind(row.builtin(domain, property, vs), schema.builtin(domain, property)))
    && (forall name, vs :: HasKind(row.call(name, vs), schema.call(name)))
    && (forall v: Value :: !row.negate(v).Truth?)
    && (forall spelling :: !row.float(spelling).Truth?)
  }

  /** A policy with a kind never meets a type error, and its value is of that kind. */
  lemma {:induction false} TypedPoliciesHaveValues(e: Expr, schema: Schema, ctx: Context, row: Row)
    requires KindOf(e, schema).Some? && Conforms(row, schema)
    ensures Denote(e, ctx, row).Some?
    ensures HasKind(Denote(e, ctx, row).value, KindOf(e, schema).value)
    decreases e
  {
    hide HasKind;
    match e
    case Lit(lit) =>
      LiteralKind(lit, schema, ctx, row);
    case Binary(l, op, r) =>
      TypedPoliciesHaveValues(l, schema, ctx, row);
      TypedPoliciesHaveValues(r, schema, ctx, row);
      BinaryKind(op, Denote(l, ctx, row).value, KindOf(l, schema).value,
                 Denote(r, ctx, row).value, KindOf(r, schema).value, row);
    case Unary(op, x) =>
      TypedPoliciesHaveValues(x, schema, ctx, row);
      UnaryKind(op, Denote(x, ctx, row).value, KindOf(x, schema).value, row, schema);
    case AuthBuiltin(name, args) =>
      if ValidateCall(name, |args|).Invalid? {
        TypedListsHaveValues(args, schema, ctx, row);
      } else if name == "in_org" {
        TypedPoliciesHaveValues(args[0], schema, ctx, row);
        InOrgKind(Denote(args[0], ctx, row).value, KindOf(args[0], schema).value, ctx, row);
      } else {
        BuiltinKind(name, args, schema, ctx, row);
      }
    case DomainBuiltin(domain, property, args) =>
      TypedListsHaveValues(args, schema, ctx, row);
    case IsNull(x, negated) =>
      TypedPoliciesHaveValues(x, schema, ctx, row);
      assert HasKind(NullTest(Denote(x, ctx, row).value, negated), Logical) by { TruthKind(); }
    case InList(x, list, negated) =>
      TypedPoliciesHaveValues(x, schema, ctx, row);
      TypedListsHaveValues(list, schema, ctx, row);
      MembershipKind(Denote(x, ctx, row).value, DenoteAll(list, ctx, row).value, negated, row);
    case Column(_) =>
    case QualifiedColumn(_, _) =>
  }

  lemma {:induction false} TypedListsHaveValues(es: seq<Expr>, schema: Schema, ctx: Context, row: Row)
    requires AllTyped(es, schema) && Conforms(row, schema)
    ensures DenoteAll(es, ctx, row).Some?
    decreases es
  {
    hide HasKind;
    forall i | 0 <= i < |es|
      ensures Denote(es[i], ctx, row).Some?
    {
      TypedPoliciesHaveValues(es[i], schema, ctx, row);
    }
  }

  lemma TruthKind()
    ensures forall b :: HasKind(Truth(b), Logical)
  {
  }

  lemma LiteralKind(lit: Literal, schema: Schema, ctx: Context, row: Row)
    requires Conforms(row, schema)
    ensures HasKind(LiteralValue(lit, row), KindOf(Lit(lit), schema).value)
  {
  }

  lemma BinaryKind(op: BinaryOp, a: Value, ka: Kind, b: Value, kb: Kind, row: Row)
    requires HasKind(a, ka) && HasKind(b, kb)
    requires op.IsLogical() ==> !ka.Scalar? && !kb.Scalar?
    ensures BinaryValue(op, a, b, row).Some? && HasKind(BinaryValue(op, a, b, row).value, Logical)
  {
  }

  lemma UnaryKind(op: UnaryOp, a: Value, ka: Kind, row: Row, schema: Schema)
    requires HasKind(a, ka) && Conforms(row, schema)
    requires if op == Not then !ka.Scalar? else !ka.Logical?
    ensures UnaryValue(op, a, row).Some?
    ensures HasKind(UnaryValue(op, a, row).value, if op == Not then Logical else ka)
  {
  }

  lemma InOrgKind(a: Value, ka: Kind, ctx: Context, row: Row)
    requires HasKind(a, ka) && !ka.Logical?
    ensures InOrgValue(a, ctx, row).Some? && HasKind(InOrgValue(a, ctx, row).value, Logical)
  {
  }

  lemma BuiltinKind(name: string, args: seq<Expr>, schema: Schema, ctx: Context, row: Row)
    requires ValidateCall(name, |args|).Valid? && name != "in_org" && KindOf(AuthBuiltin(name, args), schema).Some?
    ensures Denote(AuthBuiltin(name, args), ctx, row).Some?
    ensures HasKind(Denote(AuthBuiltin(name, args), ctx, row).value, KindOf(AuthBuiltin(name, args), schema).value)
  {
  }

  lemma MembershipKind(x: Value, vs: seq<Value>, negated: bool, row: Row)
    ensures HasKind(Membership(x, vs, negated, row), Logical)
  {
  }

  // The kind of what evaluation leaves

  /**
   The kind of the result of evaluation. What evaluation drops needs no kind of its own: a
   function of the database and the role become NULL, and has_permission is always decided.
   */
  function ResultKind(e: Expr, schema: Schema): Option<Kind>
    decreases e
  {
    match e
    case Column(name) => Some(schema.column(name))
    case QualifiedColumn(table, column) => Some(schema.qualified(table, column))
    case Lit(Null) => Some(Anything)
    case Lit(Bool(_)) => Some(Logical)
    case Lit(_) => Some(Scalar)
    case Binary(l, op, r) =>
      var a, b := ResultKind(l, schema), ResultKind(r, schema);
      if a.None? || b.None? then None
      else if op.IsLogical() && (a.value.Scalar? || b.value.Scalar?) then None
      else Some(Logical)
    case Unary(Not, x) =>
      var a := ResultKind(x, schema);
      if a.None? || a.value.Scalar? then None else Some(Logical)
    case Unary(Minus, x) =>
      var a := ResultKind(x, schema);
      if a.None? || a.value.Logical? then None else a
    case AuthBuiltin(name, args) =>
      if name == "has_permission" || name == "is_authenticated" then Some(Logical)
      else if name == "in_org" then
        if |args| == 0 || ResultKind(args[0], schema).Some? then Some(Logical) else None
      else if name == "user_id" || name == "org_id" || name == "email" || name == "session_id" then Some(Scalar)
      else Some(Anything)
    case DomainBuiltin(domain, property, _) => Some(schema.builtin(domain, property))
    case IsNull(x, _) =>
      if ResultKind(x, schema).Some? then Some(Logical) else None
    case InList(x, list, _) =>
      if ResultKind(x, schema).Some? && AllResults(list, schema) then Some(Logical) else None
    case Subquery(_) => None
  }

  predicate AllResults(es: seq<Expr>, schema: Schema)
    decreases es
  {
    forall i | 0 <= i < |es| :: ResultKind(es[i], schema).Some?
  }

  /** No function of the database is called by the name of an auth builtin. */
  predicate OwnNames(e: Expr)
    decreases e
  {
    match e
    case AuthBuiltin(name, args) =>
      && (name in BUILTIN_NAMES ==> ValidateCall(name, |args|).Valid?)
      && (name == "in_org" && |args| > 0 ==> OwnNames(args[0]))
    case Binary(l, _, r) => OwnNames(l) && OwnNames(r)
    case Unary(_, x) => OwnNames(x)
    case IsNull(x, _) => OwnNames(x)
    case InList(x, list, _) => OwnNames(x) && forall i | 0 <= i < |list| :: OwnNames(list[i])
    case _ => true
  }

  /** A policy that passes the kind check has a result of its kind, or one that is always NULL. */
  lemma {:induction false} TypedPoliciesHaveResults(e: Expr, schema: Schema)
    requires KindOf(e, schema).Some? && OwnNames(e)
    ensures ResultKind(e, schema).Some?
    ensures ResultKind(e, schema) == KindOf(e, schema) || ResultKind(e, schema).value.Anything?
    decreases e
  {
    match e
    case Binary(l, _, r) =>
      TypedPoliciesHaveResults(l, schema);
      TypedPoliciesHaveResults(r, schema);
    case Unary(_, x) =>
      TypedPoliciesHaveResults(x, schema);
    case AuthBuiltin(name, args) =>
      if name == "in_org" && |args| > 0 {
        TypedPoliciesHaveResults(args[0], schema);
      }
    case IsNull(x, _) =>
      TypedPoliciesHaveResults(x, schema);
    case InList(x, list, _) =>
      TypedPoliciesHaveResults(x, schema);
      forall i | 0 <= i < |list|
        ensures ResultKind(list[i], schema).Some?
      {
        TypedPoliciesHaveResults(list[i], schema);
      }
    case _ =>
  }

  lemma BinaryResult(l: Expr, op: BinaryOp, r: Expr, ctx: Context, later: Context, row: Row)
    requires Result(l, ctx, later, row).Some? && Result(r, ctx, later, row).Some?
    requires BinaryValue(op, Result(l, ctx, later, row).value, Result(r, ctx, later, row).value, row).Some?
    ensures Result(Binary(l, op, r), ctx, later, row) ==
            BinaryValue(op, Result(l, ctx, later, row).value, Result(r, ctx, later, row).value, row)
  {
    hide SpecialBinary, BinaryValue;
    var a, b := Result(l, ctx, later, row).value, Result(r, ctx, later, row).value;
    BinaryMeans(op, Specialize(l, ctx), a, Specialize(r, ctx), b, later, row);
    TreeMeans(SpecialBinary(op, Specialize(l, ctx), Specialize(r, ctx)), BinaryValue(op, a, b, row).value, later, row);
  }

  lemma UnaryResult(op: UnaryOp, x: Expr, ctx: Context, later: Context, row: Row)
    requires Result(x, ctx, later, row).Some? && UnaryValue(op, Result(x, ctx, later, row).value, row).Some?
    ensures Result(Unary(op, x), ctx, later, row) == UnaryValue(op, Result(x, ctx, later, row).value, row)
  {
  }

  lemma NullResult(x: Expr, negated: bool, ctx: Context, later: Context, row: Row)
    requires Result(x, ctx, later, row).Some?
    ensures Result(IsNull(x, negated), ctx, later, row) == Some(NullTest(Result(x, ctx, later, row).value, negated))
  {
  }

  function Results(es: seq<Expr>, ctx: Context): seq<Expr>
    decreases es
  {
    seq(|es|, i requires 0 <= i < |es| => Specialize(es[i], ctx).Tree())
  }

  lemma InResult(x: Expr, list: seq<Expr>, negated: bool, ctx: Context, later: Context, row: Row)
    requires Result(x, ctx, later, row).Some?
    requires forall i | 0 <= i < |list| :: Result(list[i], ctx, later, row).Some?
    ensures DenoteAll(Results(list, ctx), later, row).Some?
    ensures var v, vs := Result(x, ctx, later, row).value, DenoteAll(Results(list, ctx), later, row).value;
            Result(InList(x, list, negated), ctx, later, row) == Some(Membership(v, vs, negated, row))
  {
    var trees := Results(list, ctx);
    assert forall i | 0 <= i < |trees| :: Denote(trees[i], later, row) == Result(list[i], ctx, later, row);
    assert Specialize(InList(x, list, negated), ctx) == Open(InList(Specialize(x, ctx).Tree(), trees, negated));
  }

  lemma InOrgResult(arg: Expr, ctx: Context, later: Context, row: Row)
    requires Result(arg, ctx, later, row).Some?
    ensures var r := Result(AuthBuiltin("in_org", [arg]), ctx, later, row); r.Some? && HasKind(r.value, Logical)
  {
    var s := Specialize(arg, ctx);
    assert Specialize(AuthBuiltin("in_org", [arg]), ctx) == SpecialInOrg(s, ctx);
    if s.Open? && ctx.orgId.Some? {
      var org := Lit(String(ctx.orgId.value));
      assert Denote(Binary(s.expr, Eq, org), later, row) ==
             Some(Compare3(row, Eq, Denote(s.expr, later, row).value, Text(ctx.orgId.value)));
    }
  }

  lemma BuiltinResult(name: string, args: seq<Expr>, schema: Schema, ctx: Context, later: Context, row: Row)
    requires !(name == "in_org" && |args| > 0)
    ensures var r := Denote(SpecialBuiltin(name, args, ctx).Tree(), later, row);
            r.Some? && HasKind(r.value, ResultKind(AuthBuiltin(name, args), schema).value)
  {
  }

  /** The result of a policy with a result kind is of that kind, for whoever reads it. */
  lemma {:induction false} ResultsHaveKinds(e: Expr, schema: Schema, ctx: Context, later: Context, row: Row)
    requires ResultKind(e, schema).Some? && Conforms(row, schema)
    ensures Result(e, ctx, later, row).Some?
    ensures HasKind(Result(e, ctx, later, row).value, ResultKind(e, schema).value)
    decreases e
  {
    hide HasKind, SpecialBinary, SpecialInOrg, SpecialBuiltin, Membership;
    match e
    case Lit(lit) =>
      LiteralKind(lit, schema, ctx, row);
      assert KindOf(e, schema) == ResultKind(e, schema);
    case Binary(l, op, r) =>
      ResultsHaveKinds(l, schema, ctx, later, row);
      ResultsHaveKinds(r, schema, ctx, later, row);
      BinaryKind(op, Result(l, ctx, later, row).value, ResultKind(l, schema).value,
                 Result(r, ctx, later, row).value, ResultKind(r, schema).value, row);
      BinaryResult(l, op, r, ctx, later, row);
    case Unary(op, x) =>
      ResultsHaveKinds(x, schema, ctx, later, row);
      UnaryKind(op, Result(x, ctx, later, row).value, ResultKind(x, schema).value, row, schema);
      UnaryResult(op, x, ctx, later, row);
    case AuthBuiltin(name, args) =>
      if name == "in_org" && |args| > 0 {
        ResultsHaveKinds(args[0], schema, ctx, later, row);
        InOrgResult(args[0], ctx, later, row);
        assert Specialize(AuthBuiltin("in_org", [args[0]]), ctx) == Specialize(e, ctx);
      } else {
        BuiltinResult(name, args, schema, ctx, later, row);
      }
    case IsNull(x, negated) =>
      ResultsHaveKinds(x, schema, ctx, later, row);
      NullResult(x, negated, ctx, later, row);
      TruthKind();
    case InList(x, list, negated) =>
      ResultsHaveKinds(x, schema, ctx, later, row);
      forall i | 0 <= i < |list|
        ensures Result(list[i], ctx, later, row).Some?
      {
        ResultsHaveKinds(list[i], schema, ctx, later, row);
      }
      InResult(x, list, negated, ctx, later, row);
      MembershipKind(Result(x, ctx, later, row).value, DenoteAll(Results(list, ctx), later, row).value, negated, row);
    case Column(_) =>
    case QualifiedColumn(_, _) =>
    case DomainBuiltin(_, _, _) =>
  }
}
