/** Where evaluation does not keep a policy's meaning, and exactly when it does. */
module MeaningLimits {
  import opened Options
  import opened PolicyAst
  import opened AsciiText
  import opened PolicyContext
  import opened Builtins
  import opened Lexing
  import opened Grammar
  import opened Reading
  import opened Atoms
  import opened PolicyPrinter
  import opened ParserRange
  import opened PolicyEval
  import opened Semantics
  import opened Pieces
  import opened ResidualText
  import opened PolicyMeaning
  import opened Ink

  // The text that evaluation leaves, against the policy folded without forgetting anything

  /** The result is the constant, or text that is read as the tree. */
  predicate ReadsAs(r: EvalResult, s: Special) {
    match r
    case Const(b) => s == Known(b)
    case Residual(sql) => s.Open? && Parse(EmittedSql, sql) == Success(s.expr)
  }

  /**
   The result of evaluation is the policy, folded, exactly when nothing is lost: no function
   call, no auth.role() of a known role, no permission that is not a literal and no argument
   of a domain builtin is left once the context has decided what it can.
   */
  lemma ReadsAsPolicyIff(e: Expr, ctx: Context)
    requires Printable(e, true) && FloatFree(e) && ctx.IdsHaveNoQuote()
    ensures Emittable(e, ctx) ==> (ReadsAs(Evaluate(e, ctx), Fold(e, ctx)) <==> NothingLost(e, ctx))
    ensures NothingLost(e, ctx) ==> (ReadsAs(Evaluate(e, ctx), Fold(e, ctx)) <==> Emittable(e, ctx))
  {
    hide Piece;
    KnownIsConst(e, ctx);
    NothingLostIff(e, ctx);
    if Evaluate(e, ctx).Residual? {
      ReadsBackIff(e, ctx);
    }
  }

  // Single calls, over all rows

  /** A function of the row: one of the database, a domain builtin, or the minus sign. */
  datatype Target = Function(name: string) | Property(domain: string, property: string) | Negation

  function Override(row: Row, target: Target, f: seq<Value> -> Value): Row {
    match target
    case Function(name) => row.(call := (n, vs) => if n == name then f(vs) else row.call(n, vs))
    case Property(domain, property) =>
      row.(builtin := (d, p, vs) => if d == domain && p == property then f(vs) else row.builtin(d, p, vs))
    case Negation => row.(negate := v => f([v]))
  }

  predicate Avoids(e: Expr, target: Target)
    decreases e
  {
    match e
    case AuthBuiltin(name, args) => target != Function(name) && AllAvoid(args, target)
    case DomainBuiltin(domain, property, args) => target != Property(domain, property) && AllAvoid(args, target)
    case Binary(l, _, r) => Avoids(l, target) && Avoids(r, target)
    case Unary(op, x) => Avoids(x, target) && (op == Minus ==> target != Negation)
    case IsNull(x, _) => Avoids(x, target)
    case InList(x, list, _) => Avoids(x, target) && AllAvoid(list, target)
    case _ => true
  }

  predicate AllAvoid(es: seq<Expr>, target: Target)
    decreases es
  {
    forall i | 0 <= i < |es| :: Avoids(es[i], target)
  }

  lemma {:induction false} InSame(row: Row, other: Row, x: Value, vs: seq<Value>)
    requires row.compare == other.compare
    ensures In3(row, x, vs) == In3(other, x, vs)
  {
    if vs != [] {
      InSame(row, other, x, vs[..|vs| - 1]);
    }
  }

  lemma {:induction false} AvoidsSame(e: Expr, target: Target, f: seq<Value> -> Value, ctx: Context, row: Row)
    requires Avoids(e, target)
    ensures Denote(e, ctx, Override(row, target, f)) == Denote(e, ctx, row)
    decreases e
  {
    hide ValidateCall, In3;
    var other := Override(row, target, f);
    match e
    case AuthBuiltin(name, args) =>
      AllSame(args, target, f, ctx, row);
    case DomainBuiltin(_, _, args) =>
      AllSame(args, target, f, ctx, row);
    case Binary(l, _, r) =>
      AvoidsSame(l, target, f, ctx, row);
      AvoidsSame(r, target, f, ctx, row);
    case Unary(_, x) =>
      AvoidsSame(x, target, f, ctx, row);
    case IsNull(x, _) =>
      AvoidsSame(x, target, f, ctx, row);
    case InList(x, list, _) =>
      AvoidsSame(x, target, f, ctx, row);
      AllSame(list, target, f, ctx, row);
      if Denote(x, ctx, row).Some? && DenoteAll(list, ctx, row).Some? {
        InSame(row, other, Denote(x, ctx, row).value, DenoteAll(list, ctx, row).value);
      }
    case _ =>
  }

  lemma {:induction false} AllSame(es: seq<Expr>, target: Target, f: seq<Value> -> Value, ctx: Context, row: Row)
    requires AllAvoid(es, target)
    ensures DenoteAll(es, ctx, Override(row, target, f)) == DenoteAll(es, ctx, row)
    ensures es != [] ==> Denote(es[0], ctx, Override(row, target, f)) == Denote(es[0], ctx, row)
    decreases es
  {
    hide Denote, Override;
    forall i | 0 <= i < |es|
      ensures Denote(es[i], ctx, Override(row, target, f)) == Denote(es[i], ctx, row)
    {
      AvoidsSame(es[i], target, f, ctx, row);
    }
    SameValues(es, ctx, row, es, ctx, Override(row, target, f));
  }

  /** What is outermost does not occur again inside its own arguments. */
  predicate OutermostOnce(e: Expr) {
    match e
    case AuthBuiltin(name, args) => ValidateCall(name, |args|).Invalid? ==> AllAvoid(args, Function(name))
    case DomainBuiltin(domain, property, args) => AllAvoid(args, Property(domain, property))
    case Unary(Minus, x) => Avoids(x, Negation)
    case _ => true
  }

  /** On every row on which the policy has a value, evaluation keeps it. */
  ghost predicate AlwaysKept(e: Expr, ctx: Context, later: Context) {
    forall row: Row | Denote(e, ctx, row).Some? :: MeaningKept(e, ctx, later, row)
  }

  /** Answers every call with one value. */
  function Always(v: Value): seq<Value> -> Value {
    vs => v
  }

  /** The arguments of a domain builtin are dropped: right for all rows exactly when there are none. */
  lemma DomainArgumentsKeptIff(domain: string, property: string, args: seq<Expr>,
                               ctx: Context, later: Context, row: Row)
    requires var e := DomainBuiltin(domain, property, args); Printable(e, true) && OutermostOnce(e)
    requires DenoteAll(args, ctx, row).Some?
    ensures AlwaysKept(DomainBuiltin(domain, property, args), ctx, later) <==> args == []
  {
    hide Piece, Parse, IsIdent, IsDomain;
    var e := DomainBuiltin(domain, property, args);
    DomainPiece(EmittedSql, domain, property);
    PieceParses(EmittedSql, domain + "." + property, DomainBuiltin(domain, property, []));
    assert forall other: Row ::
        ResultValue(Evaluate(e, ctx), later, other) == Some(other.builtin(domain, property, []));
    if args != [] {
      var target := Property(domain, property);
      var f: seq<Value> -> Value := vs => if vs == [] then Unknown else Number(0);
      AllSame(args, target, f, ctx, row);
      assert !MeaningKept(e, ctx, later, Override(row, target, f));
    }
  }

  /**
   Any other call keeps its meaning for all rows exactly when evaluation decides it: it is an
   auth builtin with the right number of arguments, and not the role of a user who has one.
   A function of the database never does; evaluation emits NULL for it, or takes it for the
   auth builtin of the same name.
   */
  lemma CallKeptIff(name: string, args: seq<Expr>, ctx: Context, later: Context, row: Row)
    requires var e := AuthBuiltin(name, args);
             && Printable(e, true) && Emittable(e, ctx) && OutermostOnce(e) && ctx.IdsHaveNoQuote()
             && Denote(e, ctx, row).Some?
    requires ValidateCall(name, |args|).Valid? ==> name != "in_org" && name != "has_permission"
    ensures AlwaysKept(AuthBuiltin(name, args), ctx, later) <==> Decided(name, args, ctx)
  {
    hide Piece, Parse, ValidateCall, SpecialBuiltin, EvalAuthBuiltin;
    var e := AuthBuiltin(name, args);
    if Decided(name, args, ctx) {
      assert NothingLost(e, ctx) by { BuiltinCallFree(name, args, ctx); }
      forall other: Row | Denote(e, ctx, other).Some?
        ensures MeaningKept(e, ctx, later, other)
      {
        SpecializeMeans(e, ctx, later, other);
        EvaluationShows(EmittedSql, e, ctx);
        ShownValue(Evaluate(e, ctx), Specialize(e, ctx), later, other);
      }
    } else if ValidateCall(name, |args|).Invalid? {
      var other := Override(row, Function(name), Always(Number(0)));
      AllSame(args, Function(name), Always(Number(0)), ctx, row);
      assert Denote(e, ctx, other) == Some(Number(0));
      EvaluationShows(EmittedSql, e, ctx);
      ShownValue(Evaluate(e, ctx), Specialize(e, ctx), later, other);
      NeverANumber(name, args, ctx, later, other);
      assert !MeaningKept(e, ctx, later, other);
    } else {
      RoleEmitted(args, ctx, later, row);
      assert !MeaningKept(e, ctx, later, row);
    }
  }

  lemma BuiltinCallFree(name: string, args: seq<Expr>, ctx: Context)
    ensures CallFree(SpecialBuiltin(name, args, ctx).Tree())
  {
  }

  /** What evaluation puts in the place of a call is a truth value, a text or NULL. */
  lemma NeverANumber(name: string, args: seq<Expr>, ctx: Context, later: Context, row: Row)
    ensures var s := Specialize(AuthBuiltin(name, args), ctx);
            s.Known? || Denote(s.expr, later, row).None? || !Denote(s.expr, later, row).value.Number?
  {
  }

  lemma RoleEmitted(args: seq<Expr>, ctx: Context, later: Context, row: Row)
    requires ValidateCall("role", |args|).Valid? && ctx.role.Some?
    ensures !MeaningKept(AuthBuiltin("role", args), ctx, later, row)
  {
    hide Piece, Parse;
    LiteralPiece(EmittedSql, Literal.Null);
    PieceParses(EmittedSql, "NULL", Lit(Literal.Null));
    assert args == [];
  }

  // in_org

  /** A single value: a column, a literal, a domain builtin or a call other than has_permission and in_org. */
  predicate IsValue(e: Expr) {
    match e
    case Column(_) => true
    case QualifiedColumn(_, _) => true
    case Lit(lit) => !lit.Float?
    case DomainBuiltin(_, _, _) => true
    case AuthBuiltin(name, args) => ValidateCall(name, |args|).Valid? ==> name != "in_org" && name != "has_permission"
    case _ => false
  }

  /** Two rows on which the policy differs, while its result does not: one of them shows a loss. */
  lemma OneIsLost(e: Expr, ctx: Context, later: Context, row: Row, other: Row)
    requires Denote(e, ctx, row).Some? && Denote(e, ctx, other).Some?
    requires Denote(e, ctx, row) != Denote(e, ctx, other)
    requires ResultValue(Evaluate(e, ctx), later, row) == ResultValue(Evaluate(e, ctx), later, other)
    ensures !AlwaysKept(e, ctx, later)
  {
    hide Parse, Evaluate, Denote;
    assert !MeaningKept(e, ctx, later, row) || !MeaningKept(e, ctx, later, other);
  }

  lemma {:induction false} CallFreeAvoids(t: Expr, name: string)
    requires CallFree(t)
    ensures Avoids(t, Function(name))
    decreases t
  {
    match t
    case Binary(l, _, r) =>
      CallFreeAvoids(l, name);
      CallFreeAvoids(r, name);
    case Unary(_, x) =>
      CallFreeAvoids(x, name);
    case IsNull(x, _) =>
      CallFreeAvoids(x, name);
    case InList(x, list, _) =>
      CallFreeAvoids(x, name);
      forall i | 0 <= i < |list|
        ensures Avoids(list[i], Function(name))
      {
        CallFreeAvoids(list[i], name);
      }
    case _ =>
  }

  /** No result depends on what the functions of the database answer. */
  lemma ResultIgnoresFunctions(e: Expr, name: string, f: seq<Value> -> Value, ctx: Context, later: Context, row: Row)
    requires Printable(e, true) && Emittable(e, ctx) && ctx.IdsHaveNoQuote()
    ensures ResultValue(Evaluate(e, ctx), later, Override(row, Function(name), f)) ==
            ResultValue(Evaluate(e, ctx), later, row)
  {
    hide Parse, Evaluate, Printable, Shows;
    var other := Override(row, Function(name), f);
    EvaluationShows(EmittedSql, e, ctx);
    ShownValue(Evaluate(e, ctx), Specialize(e, ctx), later, row);
    ShownValue(Evaluate(e, ctx), Specialize(e, ctx), later, other);
    SpecializedIsCallFree(e, ctx);
    CallFreeAvoids(Specialize(e, ctx).Tree(), name);
    AvoidsSame(Specialize(e, ctx).Tree(), Function(name), f, later, row);
  }

  /**
   in_org keeps its meaning for all rows exactly when there is no active organisation or its
   argument is not dropped: nothing is lost.
   */
  lemma InOrgKeptIff(arg: Expr, ctx: Context, later: Context, row: Row)
    requires var e := AuthBuiltin("in_org", [arg]);
             && Printable(e, true) && Emittable(e, ctx) && ctx.IdsHaveNoQuote() && Denote(e, ctx, row).Some?
    requires IsValue(arg) && OutermostOnce(arg)
    ensures AlwaysKept(AuthBuiltin("in_org", [arg]), ctx, later) <==> NothingLost(AuthBuiltin("in_org", [arg]), ctx)
  {
    hide Piece, Parse, Evaluate, Printable, Shows, MeaningKept, ResultValue;
    var e := AuthBuiltin("in_org", [arg]);
    if NothingLost(e, ctx) {
      forall other: Row | Denote(e, ctx, other).Some?
        ensures MeaningKept(e, ctx, later, other)
      {
        NothingLostIsKept(e, ctx, later, other);
      }
    } else {
      InOrgLoses(arg, ctx, later, row);
    }
  }

  lemma NothingLostIsKept(e: Expr, ctx: Context, later: Context, row: Row)
    requires Printable(e, true) && Emittable(e, ctx) && ctx.IdsHaveNoQuote()
    requires NothingLost(e, ctx) && Denote(e, ctx, row).Some?
    ensures MeaningKept(e, ctx, later, row)
  {
    hide Piece, Parse, Printable, Evaluate;
    SpecializeMeans(e, ctx, later, row);
    EvaluationShows(EmittedSql, e, ctx);
    ShownValue(Evaluate(e, ctx), Specialize(e, ctx), later, row);
  }

  lemma InOrgDenotes(arg: Expr, ctx: Context, row: Row)
    requires Denote(arg, ctx, row).Some?
    ensures Denote(AuthBuiltin("in_org", [arg]), ctx, row) == InOrgValue(Denote(arg, ctx, row).value, ctx, row)
    ensures NothingLost(AuthBuiltin("in_org", [arg]), ctx) <==> ctx.orgId.None? || CallFree(Fold(arg, ctx).Tree())
  {
    assert Fold(AuthBuiltin("in_org", [arg]), ctx) == SpecialInOrg(Fold(arg, ctx), ctx);
    if ctx.orgId.Some? && Fold(arg, ctx).Open? {
      var org := Lit(String(ctx.orgId.value));
      assert CallFree(Binary(Fold(arg, ctx).expr, Eq, org)) <==> CallFree(Fold(arg, ctx).expr) && CallFree(org);
    }
  }

  lemma InOrgLoses(arg: Expr, ctx: Context, later: Context, row: Row)
    requires var e := AuthBuiltin("in_org", [arg]);
             && Printable(e, true) && Emittable(e, ctx) && ctx.IdsHaveNoQuote() && Denote(e, ctx, row).Some?
    requires IsValue(arg) && OutermostOnce(arg) && !NothingLost(AuthBuiltin("in_org", [arg]), ctx)
    ensures !AlwaysKept(AuthBuiltin("in_org", [arg]), ctx, later)
  {
    hide Piece, Parse, Evaluate, Printable, Shows, Emittable, ValidateCall, SpecialBuiltin, BuiltinValue, AlwaysKept;
    var e := AuthBuiltin("in_org", [arg]);
    ArgumentHasValue(arg, ctx, row);
    InOrgDenotes(arg, ctx, row);
    match arg
    case AuthBuiltin(name, args) =>
      if ValidateCall(name, |args|).Invalid? {
        var unknown := Override(row, Function(name), Always(Unknown));
        var number := Override(row, Function(name), Always(Number(0)));
        AllSame(args, Function(name), Always(Unknown), ctx, row);
        AllSame(args, Function(name), Always(Number(0)), ctx, row);
        InOrgDenotes(arg, ctx, unknown);
        InOrgDenotes(arg, ctx, number);
        ResultIgnoresFunctions(e, name, Always(Unknown), ctx, later, row);
        ResultIgnoresFunctions(e, name, Always(Number(0)), ctx, later, row);
        OneIsLost(e, ctx, later, unknown, number);
      } else {
        RoleInOrg(args, name, ctx, later, row);
      }
    case DomainBuiltin(domain, property, args) =>
      DomainInOrg(domain, property, args, ctx, later, row);
  }

  lemma ArgumentHasValue(arg: Expr, ctx: Context, row: Row)
    requires Denote(AuthBuiltin("in_org", [arg]), ctx, row).Some?
    ensures Denote(arg, ctx, row).Some?
  {
  }

  /** A known role is dropped: the comparison with the organisation becomes NULL. */
  lemma RoleInOrg(args: seq<Expr>, name: string, ctx: Context, later: Context, row: Row)
    requires var e := AuthBuiltin("in_org", [AuthBuiltin(name, args)]);
             && Printable(e, true) && Emittable(e, ctx) && ctx.IdsHaveNoQuote() && Denote(e, ctx, row).Some?
    requires ValidateCall(name, |args|).Valid? && name != "in_org" && name != "has_permission"
    requires !NothingLost(AuthBuiltin("in_org", [AuthBuiltin(name, args)]), ctx)
    ensures !AlwaysKept(AuthBuiltin("in_org", [AuthBuiltin(name, args)]), ctx, later)
  {
    hide Piece, Parse, Evaluate, Printable, Shows;
    var arg := AuthBuiltin(name, args);
    var e := AuthBuiltin("in_org", [arg]);
    ArgumentHasValue(arg, ctx, row);
    InOrgDenotes(arg, ctx, row);
    BuiltinCallFree(name, args, ctx);
    assert name == "role" && ctx.role.Some? && args == [];
    assert Specialize(arg, ctx) == Open(Lit(Literal.Null));
    EvaluationShows(EmittedSql, e, ctx);
    ShownValue(Evaluate(e, ctx), Specialize(e, ctx), later, row);
    assert !MeaningKept(e, ctx, later, row);
  }

  lemma DomainInOrg(domain: string, property: string, args: seq<Expr>, ctx: Context, later: Context, row: Row)
    requires var e := AuthBuiltin("in_org", [DomainBuiltin(domain, property, args)]);
             && Printable(e, true) && Emittable(e, ctx) && ctx.IdsHaveNoQuote() && Denote(e, ctx, row).Some?
    requires OutermostOnce(DomainBuiltin(domain, property, args)) && args != [] && ctx.orgId.Some?
    ensures !AlwaysKept(AuthBuiltin("in_org", [DomainBuiltin(domain, property, args)]), ctx, later)
  {
    hide Piece, Parse, Evaluate, Printable, Shows, ValidateCall;
    var arg := DomainBuiltin(domain, property, args);
    var e := AuthBuiltin("in_org", [arg]);
    var f: seq<Value> -> Value := vs => if vs == [] then Unknown else Number(0);
    var other := Override(row, Property(domain, property), f);
    ArgumentHasValue(arg, ctx, row);
    AllSame(args, Property(domain, property), f, ctx, row);
    assert Denote(arg, ctx, other) == Some(Number(0));
    InOrgDenotes(arg, ctx, other);
    var bare := DomainBuiltin(domain, property, []);
    assert Specialize(e, ctx) == Open(Binary(bare, Eq, Lit(String(ctx.orgId.value))));
    BareIsUnknown(domain, property, later, other);
    EvaluationShows(EmittedSql, e, ctx);
    ShownValue(Evaluate(e, ctx), Specialize(e, ctx), later, other);
    assert !MeaningKept(e, ctx, later, other);
  }

  lemma BareIsUnknown(domain: string, property: string, later: Context, row: Row)
    requires row.builtin(domain, property, []).Unknown?
    ensures Denote(DomainBuiltin(domain, property, []), later, row) == Some(Unknown)
  {
  }

  // has_permission

  /** The text of a builtin that has one. */
  function ContextText(e: Expr, ctx: Context): Option<string> {
    match e
    case AuthBuiltin(name, args) =>
      if args != [] then None
      else if name == "user_id" then ctx.userId
      else if name == "org_id" then ctx.orgId
      else if name == "email" then ctx.email
      else if name == "session_id" then ctx.sessionId
      else if name == "role" then ctx.role
      else None
    case _ => None
  }

  /** Asked about anything but a string literal, has_permission is emitted as `false`. */
  lemma PermissionKeptOn(arg: Expr, ctx: Context, later: Context, row: Row)
    requires Denote(AuthBuiltin("has_permission", [arg]), ctx, row).Some?
    ensures MeaningKept(AuthBuiltin("has_permission", [arg]), ctx, later, row) <==>
            (arg.Lit? && arg.lit.String?) ||
            (Denote(arg, ctx, row).value.Text? && !ctx.HasPermission(Denote(arg, ctx, row).value.s))
  {
    hide Piece, ParseOr;
    LowerFalsePiece(EmittedSql);
    PieceParses(EmittedSql, "false", Lit(Literal.Bool(false)));
  }

  /** Unless it is a literal or comes from the context alone, an argument that has a text may also be NULL. */
  lemma MayBeNull(arg: Expr, ctx: Context, row: Row) returns (other: Row)
    requires Denote(arg, ctx, row).Some? && !Denote(arg, ctx, row).value.Truth? && OutermostOnce(arg)
    requires !(arg.Lit? && !arg.lit.Float?)
    requires arg.AuthBuiltin? ==> ValidateCall(arg.builtin, |arg.args|).Invalid?
    ensures Denote(arg, ctx, other) == Some(Unknown)
  {
    hide ValidateCall;
    match arg
    case Column(_) =>
      other := row.(column := name => Unknown);
    case QualifiedColumn(_, _) =>
      other := row.(qualified := (table, column) => Unknown);
    case Lit(_) =>
      other := row.(float := spelling => Unknown);
    case AuthBuiltin(name, args) =>
      other := Override(row, Function(name), Always(Unknown));
      AllSame(args, Function(name), Always(Unknown), ctx, row);
    case DomainBuiltin(domain, property, args) =>
      other := Override(row, Property(domain, property), Always(Unknown));
      AllSame(args, Property(domain, property), Always(Unknown), ctx, row);
    case Unary(op, x) =>
      other := Override(row, Negation, Always(Unknown));
      if op == Minus {
        AvoidsSame(x, Negation, Always(Unknown), ctx, row);
      } else {
        other := row;
      }
    case Subquery(_) =>
      other := row.(subquery := sql => Unknown);
    case _ =>
      other := row;
  }

  /**
   has_permission keeps its meaning for all rows exactly when it asks about a string literal,
   or about a text of the context that happens not to be granted. Asking about a column, a
   function or a domain builtin is never right: such a value may be NULL.
   */
  lemma PermissionKeptIff(arg: Expr, ctx: Context, later: Context, row: Row)
    requires Denote(AuthBuiltin("has_permission", [arg]), ctx, row).Some? && OutermostOnce(arg)
    ensures AlwaysKept(AuthBuiltin("has_permission", [arg]), ctx, later) <==>
            (arg.Lit? && arg.lit.String?) ||
            (ContextText(arg, ctx).Some? && !ctx.HasPermission(ContextText(arg, ctx).value))
  {
    hide MeaningKept, Context.HasPermission;
    var e := AuthBuiltin("has_permission", [arg]);
    forall other: Row | Denote(e, ctx, other).Some?
      ensures MeaningKept(e, ctx, later, other) <==>
              (arg.Lit? && arg.lit.String?) ||
              (Denote(arg, ctx, other).value.Text? && !ctx.HasPermission(Denote(arg, ctx, other).value.s))
    {
      PermissionKeptOn(arg, ctx, later, other);
    }
    if arg.AuthBuiltin? && ValidateCall(arg.builtin, |arg.args|).Valid? {
      ContextValue(arg, ctx);
    } else if !arg.Lit? || arg.lit.Float? {
      var other := MayBeNull(arg, ctx, row);
      assert Denote(e, ctx, other) == Some(Unknown);
      NoContextText(arg, ctx);
    }
  }

  lemma ContextValue(e: Expr, ctx: Context)
    requires e.AuthBuiltin? && ValidateCall(e.builtin, |e.args|).Valid?
    ensures forall row: Row | Denote(e, ctx, row).Some? && !Denote(e, ctx, row).value.Truth? ::
              Denote(e, ctx, row).value == OptionalText(ContextText(e, ctx))
  {
  }

  lemma NoContextText(e: Expr, ctx: Context)
    requires e.AuthBuiltin? ==> ValidateCall(e.builtin, |e.args|).Invalid?
    ensures ContextText(e, ctx).None?
  {
  }

  /** A policy that grants by email loses its meaning: this user holds the permission, but is denied. */
  lemma PermissionOfEmailDenied(row: Row)
    ensures var e := AuthBuiltin("has_permission", [AuthBuiltin("email", [])]);
            var ctx := Context(None, None, ["*"], Some("ann"), None, None);
            Denote(e, ctx, row) == Some(Truth(true)) && !MeaningKept(e, ctx, ctx, row)
  {
    var arg := AuthBuiltin("email", []);
    var ctx := Context(None, None, ["*"], Some("ann"), None, None);
    assert Grants(ctx.permissions[0], "ann");
    PermissionKeptOn(arg, ctx, ctx, row);
  }

  // Witnesses

  lemma DatabaseCallDropped(name: string, args: seq<Expr>, ctx: Context)
    requires name !in BUILTIN_NAMES
    ensures Evaluate(AuthBuiltin(name, args), ctx) == Residual("NULL")
    ensures Specialize(AuthBuiltin(name, args), ctx) == Open(Lit(Literal.Null))
    ensures Fold(AuthBuiltin(name, args), ctx) == Open(AuthBuiltin(name, args))
    ensures ValidateCall(name, |args|).Invalid?
  {
  }

  const LOWER_NAME: Expr := AuthBuiltin("lower", [Column("name")])

  lemma LowerPrints()
    ensures Printable(LOWER_NAME, false) && Body(LOWER_NAME) == "lower(name)" && LevelOf(LOWER_NAME) == PrimaryLevel
  {
    hide IsAuth, IsDomain, BUILTIN_NAMES;
    var args := [Column("name")];
    ArgumentPrints();
    assert IsIdent("lower") && !IsLiteralWord("lower") && !IsNot("lower");
    assert Printable(LOWER_NAME, false);
    LowerIsNoBuiltin();
    assert ValidateCall("lower", 1).Invalid?;
    assert Body(LOWER_NAME) == "lower" + "(" + Join(Args(args, OrLevel), ", ") + ")";
    assert "lower" + "(" + "name" + ")" == "lower(name)";
  }

  lemma ArgumentPrints()
    ensures Printable(Column("name"), false) && Join(Args([Column("name")], OrLevel), ", ") == "name"
  {
    var name := "name";
    assert Lower(name[0]) != Lower("TRUE"[0]) && Lower(name[1]) != Lower("NULL"[1]);
    assert IsIdent(name) && !IsLiteralWord(name) && !IsNot(name);
    assert Print(Column(name), OrLevel) == name;
    assert Args([Column(name)], OrLevel) == [Print(Column(name), OrLevel)];
  }

  lemma TestPrints(l: Expr, text: string, word: string)
    requires LevelOf(l) == PrimaryLevel && Body(l) == text && Printable(l, false) && '\'' !in word
    ensures var e := Binary(l, Eq, Lit(String(word)));
            Printable(e, false) && Print(e, OrLevel) == text + " = '" + word + "'"
  {
    hide Escape;
    EscapeUnquoted(word);
    var e := Binary(l, Eq, Lit(String(word)));
    assert Body(e) == text + " " + "=" + " " + ("'" + word + "'");
    assert text + " " + "=" + " " + ("'" + word + "'") == text + " = '" + word + "'";
  }

  /** A policy about a function of the database loses its test: whatever the row, it compares with NULL. */
  lemma FunctionIsForgotten(ctx: Context, later: Context, row: Row)
    requires ctx.IdsHaveNoQuote()
    ensures var e := Binary(LOWER_NAME, Eq, Lit(String("ann")));
            && Parse(StoredText, "lower(name) = 'ann'") == Success(e)
            && Evaluate(e, ctx) == Residual("(NULL = 'ann')")
            && ResultValue(Evaluate(e, ctx), later, row) == Some(Unknown)
            && (!row.call("lower", [row.column("name")]).Unknown? ==> !MeaningKept(e, ctx, later, row))
  {
    hide Piece, Parse, Print, Evaluate, Escape, ValidateCall, Printable;
    var e := Binary(LOWER_NAME, Eq, Lit(String("ann")));
    LowerPrints();
    TestPrints(LOWER_NAME, "lower(name)", "ann");
    RoundTrip(StoredText, e);
    assert "lower(name)" + " = '" + "ann" + "'" == "lower(name) = 'ann'";
    FlagIrrelevant(e);
    ForgottenTest("lower", [Column("name")], "ann", ctx, later, row);
    assert "(" + "NULL" + " " + "=" + " " + ("'" + "ann" + "'") + ")" == "(NULL = 'ann')";
    LowerDenotes(ctx, row);
  }

  lemma LowerDenotes(ctx: Context, row: Row)
    ensures Denote(LOWER_NAME, ctx, row) == Some(row.call("lower", [row.column("name")]))
  {
    var args := [Column("name")];
    assert forall i | 0 <= i < |args| :: Denote(args[i], ctx, row) == Some(row.column("name"));
    var vs := DenoteAll(args, ctx, row);
    assert vs.Some? && Denote(args[0], ctx, row) == Some(vs.value[0]);
    assert vs.value == [row.column("name")];
  }

  lemma ForgottenTest(name: string, args: seq<Expr>, word: string, ctx: Context, later: Context, row: Row)
    requires var e := Binary(AuthBuiltin(name, args), Eq, Lit(String(word))); Printable(e, true)
    requires name !in BUILTIN_NAMES && ctx.IdsHaveNoQuote() && '\'' !in word
    ensures var e := Binary(AuthBuiltin(name, args), Eq, Lit(String(word)));
            Evaluate(e, ctx) == Residual("(" + "NULL" + " " + "=" + " " + ("'" + word + "'") + ")") &&
            ResultValue(Evaluate(e, ctx), later, row) == Some(Unknown)
  {
    hide Piece, Parse, Escape, Printable, ValidateCall;
    var e := Binary(AuthBuiltin(name, args), Eq, Lit(String(word)));
    DatabaseCallDropped(name, args, ctx);
    EscapeUnquoted(word);
    EvaluationShows(EmittedSql, e, ctx);
    ShownValue(Evaluate(e, ctx), Specialize(e, ctx), later, row);
  }

  /** A call can be dropped and the policy still be right, when what stands around it does not care. */
  lemma DroppedButKept(ctx: Context, later: Context, row: Row)
    requires ctx.IdsHaveNoQuote()
    ensures var e := Binary(IsNull(LOWER_NAME, false), Or, IsNull(LOWER_NAME, true));
            !NothingLost(e, ctx) && MeaningKept(e, ctx, later, row)
  {
    hide Piece, Parse, ValidateCall, Evaluate, Printable, BUILTIN_NAMES, Print, Body;
    LowerPrints();
    NullTestsPrintable(LOWER_NAME);
    LowerIsNoBuiltin();
    DatabaseCallDropped("lower", [Column("name")], ctx);
    LowerDenotes(ctx, row);
    NullTestsKept(LOWER_NAME, ctx, later, row);
  }

  lemma NullTestsKept(call: Expr, ctx: Context, later: Context, row: Row)
    requires var e := Binary(IsNull(call, false), Or, IsNull(call, true)); Printable(e, true) && ctx.IdsHaveNoQuote()
    requires Specialize(call, ctx) == Open(Lit(Literal.Null)) && call.AuthBuiltin? && Emittable(call, ctx)
    requires Fold(call, ctx) == Open(call) && Denote(call, ctx, row).Some?
    ensures var e := Binary(IsNull(call, false), Or, IsNull(call, true));
            !NothingLost(e, ctx) && MeaningKept(e, ctx, later, row)
  {
    hide Piece, Parse, Evaluate, Printable;
    var e := Binary(IsNull(call, false), Or, IsNull(call, true));
    assert Specialize(e.left, ctx) == Open(IsNull(Lit(Literal.Null), false));
    assert Specialize(e.right, ctx) == Open(IsNull(Lit(Literal.Null), true));
    assert Fold(e.left, ctx) == Open(e.left) && Fold(e.right, ctx) == Open(e.right);
    assert !CallFree(e.left);
    assert Emittable(e.left, ctx) && Emittable(e.right, ctx);
    assert Denote(IsNull(Lit(Literal.Null), false), later, row) == Some(Truth(true));
    assert Denote(IsNull(Lit(Literal.Null), true), later, row) == Some(Truth(false));
    EvaluationShows(EmittedSql, e, ctx);
    ShownValue(Evaluate(e, ctx), Specialize(e, ctx), later, row);
    assert ResultValue(Evaluate(e, ctx), later, row) == Some(Truth(true));
    var v := Denote(call, ctx, row).value;
    assert Denote(e.left, ctx, row) == Some(NullTest(v, false)) && Denote(e.right, ctx, row) == Some(NullTest(v, true));
    assert Denote(e, ctx, row) == Some(Truth(true));
  }

  lemma LowerIsNoBuiltin()
    ensures "lower" !in BUILTIN_NAMES
  {
  }

  lemma NullTestsPrintable(x: Expr)
    requires Printable(x, false)
    ensures Printable(Binary(IsNull(x, false), Or, IsNull(x, true)), true)
  {
  }

  /** Alone, a minus on a folded boolean is emitted as a bare `-`, which does not parse. */
  lemma BareMinusAlone(x: Expr, ctx: Context)
    requires Evaluate(x, ctx).Const?
    ensures Evaluate(Unary(Minus, x), ctx) == Residual("-")
    ensures Parse(EmittedSql, "-").Failure?
  {
    assert ParseIdent("").Err?;
    assert ParsePrimary(EmittedSql, "").Err?;
    assert "-"[1..] == "";
    assert SkipSpaces("-") == "-";
    assert ParsePrimary(EmittedSql, "-").Err?;
    assert ParseComparison(EmittedSql, "-").Err?;
    assert !AtKeyword("-", "NOT");
    assert ParseNot(EmittedSql, "-").Err?;
    assert ParseAnd(EmittedSql, "-").Err?;
  }

  /** Inside a larger policy the bare `-` can be misread: here IN becomes the name of a function. */
  lemma BareMinusMisread(ctx: Context)
    ensures var e := InList(Unary(Minus, Lit(Bool(true))), [Lit(Int(1))], false);
            && Parse(StoredText, "-TRUE IN (1)") == Success(e)
            && Evaluate(e, ctx) == Residual("(- IN (1))")
            && Parse(EmittedSql, "(- IN (1))") == Success(Unary(Minus, AuthBuiltin("IN", [Lit(Int(1))])))
  {
    hide Piece, Parse, Print, Evaluate;
    var e := InList(Unary(Minus, Lit(Bool(true))), [Lit(Int(1))], false);
    MinusTrueInPrints(e);
    RoundTrip(StoredText, e);
    MinusTrueInEvaluates(e, ctx);
    InAsCall(EmittedSql);
    MinusPiece(EmittedSql, " IN (1)", AuthBuiltin("IN", [Lit(Int(1))]));
    assert "(-" + " IN (1)" + ")" == "(- IN (1))";
    PieceParses(EmittedSql, "(- IN (1))", Unary(Minus, AuthBuiltin("IN", [Lit(Int(1))])));
  }

  lemma MinusTrueInPrints(e: Expr)
    requires e == InList(Unary(Minus, Lit(Bool(true))), [Lit(Int(1))], false)
    ensures Printable(e, false) && Print(e, OrLevel) == "-TRUE IN (1)"
  {
    assert Print(Lit(Int(1)), PrimaryLevel) == Numeral(1) == "1";
    assert Args([Lit(Int(1))], PrimaryLevel) == ["1"];
    assert Print(e.operand, PrimaryLevel) == "-" + "TRUE";
    assert Body(e) == "-" + "TRUE" + " IN (" + "1" + ")";
  }

  lemma MinusTrueInEvaluates(e: Expr, ctx: Context)
    requires e == InList(Unary(Minus, Lit(Bool(true))), [Lit(Int(1))], false)
    ensures Evaluate(e, ctx) == Residual("(- IN (1))")
  {
    var list := [Lit(Int(1))];
    var results := seq(1, i requires 0 <= i < 1 => Evaluate(list[i], ctx));
    assert results == [Residual("1")];
    assert Evaluate(e, ctx) == EvalInList(Residual("-"), results, false);
    assert seq(1, i requires 0 <= i < 1 => results[i].AsSql()) == ["1"];
    assert "(" + "-" + " IN (" + "1" + "))" == "(- IN (1))";
  }

  lemma InAsCall(d: Dialect)
    ensures Piece(d, " IN (1)", AuthBuiltin("IN", [Lit(Int(1))]))
  {
    hide Reads, NotNegated, EndsPrimary, StopsExpr;
    var list := [Lit(Int(1))];
    LiteralPiece(d, Int(1));
    assert PrintLiteral(Int(1)) == Numeral(1) == "1";
    forall i, rest | 0 <= i < 1 && StopsExpr(rest)
      ensures Reads(OrLevel, d, ["1"][i], list[i], rest)
    {
      ExprStops(rest);
      PieceAt(d, "1", Lit(Int(1)), OrLevel, rest);
    }
    forall rest | EndsPrimary(rest)
      ensures Reads(PrimaryLevel, d, " IN (1)", AuthBuiltin("IN", list), rest) && NotNegated(" IN (1)" + rest)
    {
      ArgsRead(d, ["1"], list, rest);
      assert Join(["1"], ", ") == "1";
      InAsCallReads(d, list, rest);
    }
  }

  lemma InAsCallReads(d: Dialect, list: seq<Expr>, rest: string)
    requires ParseArgs(d, "1" + ")" + rest) == Ok(list, rest)
    ensures Reads(PrimaryLevel, d, " IN (1)", AuthBuiltin("IN", list), rest) && NotNegated(" IN (1)" + rest)
  {
    var call := "(" + ("1" + ")" + rest);
    assert " IN (1)" + rest == " " + ("IN" + (" " + call));
    assert IsIdent("IN") && !IsLiteralWord("IN") && !IsNot("IN");
    assert call[0] == '(' && call[1..] == "1" + ")" + rest;
    SpacedCallReads(d, "IN", call, list, rest);
  }

  /** A call with a space before it and one between its name and its arguments. */
  lemma SpacedCallReads(d: Dialect, name: string, call: string, list: seq<Expr>, rest: string)
    requires IsIdent(name) && !IsLiteralWord(name) && !IsNot(name)
    requires StartsWith(call, '(') && ParseArgs(d, call[1..]) == Ok(list, rest)
    ensures ParsePrimary(d, " " + (name + (" " + call))) == Ok(AuthBuiltin(name, list), rest)
    ensures NotNegated(" " + (name + (" " + call)))
  {
    hide ParsePrimary, ParseArgs, ParseIdent, ParseNot, ParseAnd, ParseOr, AtKeyword, IsIdent, IsLiteralWord, IsNot;
    var tail := " " + call;
    SpaceIgnored(d, name + tail);
    NameFirst(d, name, tail);
    SkipSpace(name + tail);
    SkipSpace(call);
    assert SkipSpaces(call) == call;
  }

  /**
   An id is put between quotes without escaping. The text reads back as the id exactly
   when the id holds no quote: UUIDs never do, a session id must not.
   */
  lemma {:induction false} ScanConsumes(value: string, s: string)
    requires ScanString(value, s).Ok?
    ensures var r := ScanString(value, s);
            r.value.Lit? && r.value.lit.String? && value <= r.value.lit.s &&
            s == Escape(r.value.lit.s[|value|..]) + "'" + r.rest
    decreases |s|
  {
    var r := ScanString(value, s);
    if s[0] != '\'' {
      ScanConsumes(value + [s[0]], s[1..]);
      var more := r.value.lit.s[|value| + 1..];
      assert r.value.lit.s[|value|..] == [s[0]] + more;
      assert s == [s[0]] + s[1..];
    } else if StartsWith(s[1..], '\'') {
      ScanConsumes(value + "'", s[2..]);
      var more := r.value.lit.s[|value| + 1..];
      assert r.value.lit.s[|value|..] == ['\''] + more;
      assert s == "''" + s[2..];
    } else {
      assert r.value.lit.s[|value|..] == "";
      assert s == "'" + s[1..];
    }
  }

  lemma {:induction false} EscapeGrows(s: string)
    ensures |Escape(s)| >= |s|
    ensures '\'' in s ==> |Escape(s)| > |s|
  {
    if s != "" {
      EscapeGrows(s[1..]);
      assert s == [s[0]] + s[1..];
    }
  }

  lemma UnescapedReadsBackIff(d: Dialect, id: string)
    ensures Parse(d, "'" + id + "'") == Success(Lit(String(id))) <==> '\'' !in id
  {
    var text := "'" + id + "'";
    if '\'' !in id {
      EscapeUnquoted(id);
      StringPiece(d, id);
      PieceParses(d, text, Lit(String(id)));
    } else if Parse(d, text) == Success(Lit(String(id))) {
      ReadBackUnquoted(d, id);
    }
  }

  lemma ReadBackUnquoted(d: Dialect, id: string)
    requires Parse(d, "'" + id + "'") == Success(Lit(String(id)))
    ensures '\'' !in id
  {
    var text := "'" + id + "'";
    QuotedStartScans(d, text);
    ScanConsumes("", text[1..]);
    EscapeGrows(id);
    assert id[0..] == id;
    assert |text[1..]| == |id| + 1;
  }

  lemma StringPiece(d: Dialect, s: string)
    ensures Piece(d, "'" + Escape(s) + "'", Lit(String(s)))
  {
    hide Reads, NotNegated, EndsPrimary;
    forall rest | EndsPrimary(rest)
      ensures Reads(PrimaryLevel, d, "'" + Escape(s) + "'", Lit(String(s)), rest)
      ensures NotNegated("'" + Escape(s) + "'" + rest)
    {
      StringReads(d, s, rest);
    }
  }

  /** If text that opens with a quote denotes a string literal, that string comes first in it. */
  lemma QuotedStartScans(d: Dialect, text: string)
    requires StartsWith(text, '\'')
    requires Parse(d, text).Success? && Parse(d, text).expr.Lit?
    ensures ScanString("", text[1..]) .Ok? && ScanString("", text[1..]).value == Parse(d, text).expr
  {
    hide AtKeyword, AfterPrimary, ScanString, OrLoop, AndLoop;
    assert SkipSpaces(text) == text;
    KeywordElsewhere(text, "NOT", 0);
    var p := ParsePrimary(d, text);
    assert p == ScanString("", text[1..]);
    assert ParseNot(d, text) == ParseComparison(d, text);
    assert ParseOr(d, text).Ok? && ParseAnd(d, text).Ok? && ParseNot(d, text).Ok? && p.Ok?;
    AfterKeepsLeaf(d, p.value, p.rest);
    var n := ParseNot(d, text);
    var a := ParseAnd(d, text);
    var o := ParseOr(d, text);
    OrLoopKeepsLeaf(d, a.value, a.rest);
    AndLoopKeepsLeaf(d, n.value, n.rest);
  }

  lemma AfterKeepsLeaf(d: Dialect, e: Expr, s: string)
    requires AfterPrimary(d, e, s).Ok?
    ensures AfterPrimary(d, e, s).value.Lit? ==> AfterPrimary(d, e, s).value == e
  {
    hide AtKeyword, ParseList, ComparisonAt;
    KeywordLength(SkipSpaces(s), "NOT");
  }

  lemma {:induction false} OrLoopKeepsLeaf(d: Dialect, e: Expr, s: string)
    requires OrLoop(d, e, s).Ok?
    ensures OrLoop(d, e, s).value.Lit? ==> OrLoop(d, e, s).value == e
    decreases |s|
  {
    hide ParseAnd, AtKeyword;
    var t := SkipSpaces(s);
    if AtKeyword(t, "OR") {
      KeywordLength(t, "OR");
      var right := ParseAnd(d, t[2..]);
      OrLoopKeepsLeaf(d, Binary(e, Or, right.value), right.rest);
    }
  }

  lemma {:induction false} AndLoopKeepsLeaf(d: Dialect, e: Expr, s: string)
    requires AndLoop(d, e, s).Ok?
    ensures AndLoop(d, e, s).value.Lit? ==> AndLoop(d, e, s).value == e
    decreases |s|
  {
    hide ParseNot, AtKeyword;
    var t := SkipSpaces(s);
    if AtKeyword(t, "AND") {
      KeywordLength(t, "AND");
      var right := ParseNot(d, t[3..]);
      AndLoopKeepsLeaf(d, Binary(e, And, right.value), right.rest);
    }
  }
}
