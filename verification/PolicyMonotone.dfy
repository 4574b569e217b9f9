/** Granting a permission never takes a row away, provided permissions are not negated. */
module PolicyMonotone {
  import opened Options
  import opened PolicyAst
  import opened PolicyContext
  import opened PolicyPrinter
  import opened Semantics
  import opened ResidualText
  import opened PolicyMeaning
  import opened PolicyTyping
  import opened PolicyCompile

  /** has_permission does not occur at all. */
  predicate PermissionFree(e: Expr)
    decreases e
  {
    match e
    case AuthBuiltin(name, args) =>
      name != "has_permission" && forall i | 0 <= i < |args| :: PermissionFree(args[i])
    case DomainBuiltin(_, _, args) => forall i | 0 <= i < |args| :: PermissionFree(args[i])
    case Binary(l, _, r) => PermissionFree(l) && PermissionFree(r)
    case Unary(_, x) => PermissionFree(x)
    case IsNull(x, _) => PermissionFree(x)
    case InList(x, list, _) => PermissionFree(x) && forall i | 0 <= i < |list| :: PermissionFree(list[i])
    case _ => true
  }

  /** has_permission occurs only directly under AND and OR. */
  predicate Positive(e: Expr)
    decreases e
  {
    PermissionFree(e)
    || (e.AuthBuiltin? && e.builtin == "has_permission")
    || (e.Binary? && e.op.IsLogical() && Positive(e.left) && Positive(e.right))
  }

  /** FALSE is below unknown, unknown below TRUE. */
  predicate Below(a: Value, b: Value) {
    a == b || (a.IsLogical() && b.IsLogical() && (a == Truth(false) || b == Truth(true)))
  }

  /** What evaluation leaves of a policy that does not ask for permissions is the same for both users. */
  lemma {:induction false} PermissionFreeSame(e: Expr, more: Context, less: Context)
    requires PermissionFree(e) && Extends(more, less)
    ensures Specialize(e, more) == Specialize(e, less)
    decreases e
  {
    match e
    case AuthBuiltin(name, args) =>
      if name == "in_org" && |args| > 0 {
        PermissionFreeSame(args[0], more, less);
      }
    case Binary(l, _, r) =>
      PermissionFreeSame(l, more, less);
      PermissionFreeSame(r, more, less);
    case Unary(_, x) =>
      PermissionFreeSame(x, more, less);
    case IsNull(x, _) =>
      PermissionFreeSame(x, more, less);
    case InList(x, list, _) =>
      PermissionFreeSame(x, more, less);
      forall i | 0 <= i < |list|
        ensures Specialize(list[i], more) == Specialize(list[i], less)
      {
        PermissionFreeSame(list[i], more, less);
      }
      assert Results(list, more) == Results(list, less);
    case _ =>
  }

  lemma BelowJoined(op: BinaryOp, a: Value, b: Value, a': Value, b': Value, row: Row)
    requires op.IsLogical() && Below(a, a') && Below(b, b')
    requires a.IsLogical() && b.IsLogical()
    ensures a'.IsLogical() && b'.IsLogical()
    ensures Below(BinaryValue(op, a, b, row).value, BinaryValue(op, a', b', row).value)
  {
  }

  /** What is joined by AND and OR around permissions has a truth value on the row, once evaluated. */
  predicate HasTruthParts(e: Expr, ctx: Context, later: Context, row: Row)
    decreases e
  {
    && Result(e, ctx, later, row).Some? && Result(e, ctx, later, row).value.IsLogical()
    && (PermissionFree(e) || e.AuthBuiltin? ||
        (e.Binary? && HasTruthParts(e.left, ctx, later, row) && HasTruthParts(e.right, ctx, later, row)))
  }

  /**
   The result of a policy only grows with the permissions of the user, from FALSE over NULL to
   TRUE. What evaluation drops is dropped for both users alike.
   */
  lemma {:induction false} ResultGrows(e: Expr, more: Context, less: Context, later: Context, row: Row)
    requires Positive(e) && LiteralPermissions(e) && Extends(more, less) && HasTruthParts(e, less, later, row)
    ensures Result(e, more, later, row).Some?
    ensures Below(Result(e, less, later, row).value, Result(e, more, later, row).value)
    decreases e
  {
    hide SpecialBinary, BinaryValue, Context.HasPermission;
    if PermissionFree(e) {
      PermissionFreeSame(e, more, less);
    } else if e.AuthBuiltin? {
      if less.HasPermission(e.args[0].lit.s) {
        PermissionsGrow(more, less, e.args[0].lit.s);
      }
    } else {
      ResultGrows(e.left, more, less, later, row);
      ResultGrows(e.right, more, less, later, row);
      JoinGrows(e.left, e.op, e.right, more, less, later, row);
    }
  }

  lemma JoinGrows(l: Expr, op: BinaryOp, r: Expr, more: Context, less: Context, later: Context, row: Row)
    requires op.IsLogical()
    requires Result(l, less, later, row).Some? && Result(r, less, later, row).Some?
    requires Result(l, more, later, row).Some? && Result(r, more, later, row).Some?
    requires Result(l, less, later, row).value.IsLogical() && Result(r, less, later, row).value.IsLogical()
    requires Below(Result(l, less, later, row).value, Result(l, more, later, row).value)
    requires Below(Result(r, less, later, row).value, Result(r, more, later, row).value)
    ensures Result(Binary(l, op, r), less, later, row).Some? && Result(Binary(l, op, r), more, later, row).Some?
    ensures Below(Result(Binary(l, op, r), less, later, row).value, Result(Binary(l, op, r), more, later, row).value)
  {
    hide Result;
    var a, b := Result(l, less, later, row).value, Result(r, less, later, row).value;
    var a', b' := Result(l, more, later, row).value, Result(r, more, later, row).value;
    BelowJoined(op, a, b, a', b', row);
    BinaryResult(l, op, r, less, later, row);
    BinaryResult(l, op, r, more, later, row);
  }

  /** What the theorem asks of a policy on a row. */
  predicate Grantable(e: Expr, ctx: Context, later: Context, row: Row) {
    && Printable(e, true) && FloatFree(e) && Positive(e) && LiteralPermissions(e)
    && HasTruthParts(e, ctx, later, row)
  }

  lemma GrantablePasses(e: Expr, more: Context, less: Context, later: Context, row: Row)
    requires Grantable(e, less, later, row) && Extends(more, less)
    ensures Readable(e, less, later, row) && Readable(e, more, later, row)
    ensures Passes(e, less, later, row) ==> Passes(e, more, later, row)
  {
    hide Printable, Positive, Result, Emittable;
    ResultGrows(e, more, less, later, row);
    ResultIsEmittable(e, less, later, row);
    ResultIsEmittable(e, more, later, row);
  }

  /**
   More permissions only ever admit more rows, through evaluation, compilation and the bypass,
   also where evaluation drops a function call, the role or an argument.
   */
  lemma PermissionsNeverRevoke(ps: seq<Policy>, more: Context, less: Context, superuserBypass: bool,
                               later: Context, row: Row)
    requires Extends(more, less) && less.IdsHaveNoQuote()
    requires forall i | 0 <= i < |UsingExprs(ps)| :: Grantable(UsingExprs(ps)[i], less, later, row)
    requires forall i | 0 <= i < |CheckExprs(ps)| :: Grantable(CheckExprs(ps)[i], less, later, row)
    requires Admits(Decide(ps, less, superuserBypass), later, row)
    ensures Admits(Decide(ps, more, superuserBypass), later, row)
  {
    hide Readable, Passes, Grantable, Decide, Admits;
    forall i | 0 <= i < |UsingExprs(ps)|
      ensures Readable(UsingExprs(ps)[i], less, later, row) && Readable(UsingExprs(ps)[i], more, later, row)
      ensures Passes(UsingExprs(ps)[i], less, later, row) ==> Passes(UsingExprs(ps)[i], more, later, row)
    {
      GrantablePasses(UsingExprs(ps)[i], more, less, later, row);
    }
    forall i | 0 <= i < |CheckExprs(ps)|
      ensures Readable(CheckExprs(ps)[i], less, later, row) && Readable(CheckExprs(ps)[i], more, later, row)
      ensures Passes(CheckExprs(ps)[i], less, later, row) ==> Passes(CheckExprs(ps)[i], more, later, row)
    {
      GrantablePasses(CheckExprs(ps)[i], more, less, later, row);
    }
    DecisionReadsBack(ps, less, superuserBypass, later, row);
    DecisionReadsBack(ps, more, superuserBypass, later, row);
    if superuserBypass && less.HasPermission("*") {
      PermissionsGrow(more, less, "*");
    }
  }

  /** The premise about the row, from a static check: for every user, reader and row at once. */
  lemma {:induction false} TypedPoliciesHaveTruthParts(e: Expr, schema: Schema, ctx: Context, later: Context, row: Row)
    requires Positive(e) && Conforms(row, schema)
    requires ResultKind(e, schema).Some? && !ResultKind(e, schema).value.Scalar?
    ensures HasTruthParts(e, ctx, later, row)
    decreases e
  {
    hide Conforms, Result;
    ResultsHaveKinds(e, schema, ctx, later, row);
    if !PermissionFree(e) && e.Binary? {
      TypedPoliciesHaveTruthParts(e.left, schema, ctx, later, row);
      TypedPoliciesHaveTruthParts(e.right, schema, ctx, later, row);
    }
  }

  /** So for policies that pass the static checks the theorem holds of all rows. */
  lemma TypedPermissionsNeverRevoke(ps: seq<Policy>, schema: Schema, more: Context, less: Context,
                                    superuserBypass: bool, later: Context, row: Row)
    requires Extends(more, less) && less.IdsHaveNoQuote() && Conforms(row, schema)
    requires forall e | e in UsingExprs(ps) || e in CheckExprs(ps) ::
               && Printable(e, true) && FloatFree(e) && Positive(e) && LiteralPermissions(e)
               && ResultKind(e, schema).Some? && !ResultKind(e, schema).value.Scalar?
    ensures Admits(Decide(ps, less, superuserBypass), later, row) ==>
            Admits(Decide(ps, more, superuserBypass), later, row)
  {
    hide Conforms, Printable, Positive, HasTruthParts, Decide, Admits;
    forall e | e in UsingExprs(ps) || e in CheckExprs(ps)
      ensures Grantable(e, less, later, row)
    {
      TypedPoliciesHaveTruthParts(e, schema, less, later, row);
    }
    if Admits(Decide(ps, less, superuserBypass), later, row) {
      PermissionsNeverRevoke(ps, more, less, superuserBypass, later, row);
    }
  }

  /** And from the premises of the main theorem on decisions, for a policy that loses nothing in any context. */
  lemma {:induction false} SoundPoliciesHaveTruthParts(e: Expr, ctx: Context, later: Context, row: Row)
    requires Positive(e) && Faithful(e)
    requires Denote(e, ctx, row).Some? && Denote(e, ctx, row).value.IsLogical()
    ensures HasTruthParts(e, ctx, later, row)
    decreases e
  {
    FaithfulLosesNothing(e, ctx);
    SpecializeMeans(e, ctx, later, row);
    TreeMeans(Specialize(e, ctx), Denote(e, ctx, row).value, later, row);
    if !PermissionFree(e) && e.Binary? {
      SoundPoliciesHaveTruthParts(e.left, ctx, later, row);
      SoundPoliciesHaveTruthParts(e.right, ctx, later, row);
    }
  }

  /** Under NOT a granted permission does take rows away. */
  lemma NegatedPermissionRevokes(row: Row)
    ensures var e := Unary(Not, AuthBuiltin("has_permission", [Lit(String("a"))]));
            var less := Context(None, None, [], None, None, None);
            var more := Context(None, None, ["a"], None, None, None);
            Extends(more, less) && Holds(e, less, row) && !Holds(e, more, row)
  {
    assert Grants(["a"][0], "a");
  }

  /** The premise of the theorems about decisions, from static checks alone. */
  lemma TypedPoliciesAreSound(e: Expr, schema: Schema, ctx: Context, row: Row)
    requires Printable(e, true) && NothingLost(e, ctx) && FloatFree(e)
    requires KindOf(e, schema).Some? && !KindOf(e, schema).value.Scalar? && Conforms(row, schema)
    ensures Sound(e, ctx, row)
  {
    hide Conforms;
    TypedPoliciesHaveValues(e, schema, ctx, row);
  }
}
