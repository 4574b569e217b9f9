/**
 What a loss can do. Evaluation puts NULL in the place of what it drops. Unless NULL itself is
 tested for, the decision can then lose rows but never gain any.
 */
module FailSafe {
  import opened Options
  import opened PolicyAst
  import opened PolicyContext
  import opened Builtins
  import opened Grammar
  import opened PolicyPrinter
  import opened PolicyEval
  import opened Semantics
  import opened ResidualText
  import opened PolicyMeaning
  import opened PolicyTyping
  import opened PolicyCompile
  import opened MeaningLimits

  /**
   The policies of which evaluation drops only functions of the database and the role, and
   those not under IS NULL. Both parts can be computed before evaluating.
   */
  predicate Cautious(e: Expr, ctx: Context)
    decreases e
  {
    match e
    case AuthBuiltin(name, args) =>
      name in BUILTIN_NAMES ==>
        && ValidateCall(name, |args|).Valid?
        && (name == "has_permission" ==> args[0].Lit? && args[0].lit.String?)
        && (name == "in_org" ==> Cautious(args[0], ctx))
    case DomainBuiltin(_, _, args) => args == []
    case Binary(l, _, r) => Cautious(l, ctx) && Cautious(r, ctx)
    case Unary(_, x) => Cautious(x, ctx)
    case IsNull(x, _) => NothingLost(x, ctx)
    case InList(x, list, _) => Cautious(x, ctx) && forall i | 0 <= i < |list| :: Cautious(list[i], ctx)
    case _ => true
  }

  /** `r` is the value, or NULL in its place. */
  predicate IsOrNull(r: Meaning, v: Value) {
    r == Some(v) || r == Some(Unknown)
  }

  lemma BinaryOrNull(op: BinaryOp, a: Value, b: Value, a': Value, b': Value, row: Row)
    requires IsOrNull(Some(a'), a) && IsOrNull(Some(b'), b) && BinaryValue(op, a, b, row).Some?
    ensures BinaryValue(op, a', b', row).Some?
    ensures IsOrNull(BinaryValue(op, a', b', row), BinaryValue(op, a, b, row).value)
  {
  }

  lemma UnaryOrNull(op: UnaryOp, a: Value, a': Value, row: Row)
    requires IsOrNull(Some(a'), a) && UnaryValue(op, a, row).Some?
    ensures IsOrNull(UnaryValue(op, a', row), UnaryValue(op, a, row).value)
  {
  }

  lemma InOrgOrNull(a: Value, a': Value, ctx: Context, row: Row)
    requires IsOrNull(Some(a'), a) && InOrgValue(a, ctx, row).Some?
    ensures IsOrNull(InOrgValue(a', ctx, row), InOrgValue(a, ctx, row).value)
  {
  }

  lemma {:induction false} InOrNull(row: Row, x: Value, x': Value, vs: seq<Value>, vs': seq<Value>)
    requires IsOrNull(Some(x'), x) && |vs| == |vs'|
    requires forall i | 0 <= i < |vs| :: IsOrNull(Some(vs'[i]), vs[i])
    ensures IsOrNull(Some(In3(row, x', vs')), In3(row, x, vs))
    decreases |vs|
  {
    if vs != [] {
      var n := |vs| - 1;
      InOrNull(row, x, x', vs[..n], vs'[..n]);
      BinaryOrNull(Or, In3(row, x, vs[..n]), Compare3(row, Eq, x, vs[n]),
                   In3(row, x', vs'[..n]), Compare3(row, Eq, x', vs'[n]), row);
    }
  }

  lemma MembershipOrNull(x: Value, vs: seq<Value>, x': Value, vs': seq<Value>, negated: bool, row: Row)
    requires IsOrNull(Some(x'), x) && |vs| == |vs'|
    requires forall i | 0 <= i < |vs| :: IsOrNull(Some(vs'[i]), vs[i])
    ensures IsOrNull(Some(Membership(x', vs', negated, row)), Membership(x, vs, negated, row))
  {
    InOrNull(row, x, x', vs, vs');
  }

  /** One call: a function of the database and the role become NULL, everything else keeps its value. */
  lemma CallOrNull(name: string, args: seq<Expr>, ctx: Context, later: Context, row: Row)
    requires var e := AuthBuiltin(name, args); Cautious(e, ctx) && Denote(e, ctx, row).Some?
    requires !(name == "in_org" && |args| > 0)
    ensures var e := AuthBuiltin(name, args); IsOrNull(Result(e, ctx, later, row), Denote(e, ctx, row).value)
  {
    if name !in BUILTIN_NAMES {
      DatabaseCallDropped(name, args, ctx);
    }
  }

  lemma InOrgCase(arg: Expr, ctx: Context, later: Context, row: Row)
    requires Denote(arg, ctx, row).Some? && InOrgValue(Denote(arg, ctx, row).value, ctx, row).Some?
    requires IsOrNull(Result(arg, ctx, later, row), Denote(arg, ctx, row).value)
    ensures var e := AuthBuiltin("in_org", [arg]);
            IsOrNull(Result(e, ctx, later, row), InOrgValue(Denote(arg, ctx, row).value, ctx, row).value)
  {
    var a' := Result(arg, ctx, later, row).value;
    InOrgOrNull(Denote(arg, ctx, row).value, a', ctx, row);
    InOrgMeans(Specialize(arg, ctx), a', ctx, later, row);
    TreeMeans(SpecialInOrg(Specialize(arg, ctx), ctx), InOrgValue(a', ctx, row).value, later, row);
  }

  /** What evaluation leaves of a cautious policy has the policy's value, or none. */
  lemma {:induction false} ResultIsValueOrNull(e: Expr, ctx: Context, later: Context, row: Row)
    requires Cautious(e, ctx) && Denote(e, ctx, row).Some?
    ensures IsOrNull(Result(e, ctx, later, row), Denote(e, ctx, row).value)
    decreases e
  {
    hide ValidateCall, SpecialBuiltin, SpecialBinary, SpecialInOrg, BinaryValue, UnaryValue, Membership, InOrgValue;
    match e
    case AuthBuiltin(name, args) =>
      if name == "in_org" && |args| > 0 {
        InOrgIsBuiltin();
        OneArgument(name, args);
        ResultIsValueOrNull(args[0], ctx, later, row);
        assert args == [args[0]];
        InOrgCase(args[0], ctx, later, row);
      } else {
        CallOrNull(name, args, ctx, later, row);
      }
    case Binary(l, op, r) =>
      ResultIsValueOrNull(l, ctx, later, row);
      ResultIsValueOrNull(r, ctx, later, row);
      BinaryOrNull(op, Denote(l, ctx, row).value, Denote(r, ctx, row).value,
                   Result(l, ctx, later, row).value, Result(r, ctx, later, row).value, row);
      BinaryResult(l, op, r, ctx, later, row);
    case Unary(op, x) =>
      ResultIsValueOrNull(x, ctx, later, row);
      UnaryOrNull(op, Denote(x, ctx, row).value, Result(x, ctx, later, row).value, row);
      UnaryResult(op, x, ctx, later, row);
    case IsNull(x, negated) =>
      SpecializeMeans(x, ctx, later, row);
      TreeMeans(Specialize(x, ctx), Denote(x, ctx, row).value, later, row);
      NullResult(x, negated, ctx, later, row);
    case InList(x, list, negated) =>
      ResultIsValueOrNull(x, ctx, later, row);
      forall i | 0 <= i < |list|
        ensures IsOrNull(Result(list[i], ctx, later, row), Denote(list[i], ctx, row).value)
      {
        ResultIsValueOrNull(list[i], ctx, later, row);
      }
      InResult(x, list, negated, ctx, later, row);
      ListOrNull(list, ctx, later, row);
      MembershipOrNull(Denote(x, ctx, row).value, DenoteAll(list, ctx, row).value, Result(x, ctx, later, row).value,
                       DenoteAll(Results(list, ctx), later, row).value, negated, row);
    case _ =>
  }

  lemma InOrgIsBuiltin()
    ensures "in_org" in BUILTIN_NAMES
  {
  }

  lemma ListOrNull(list: seq<Expr>, ctx: Context, later: Context, row: Row)
    requires DenoteAll(list, ctx, row).Some? && DenoteAll(Results(list, ctx), later, row).Some?
    requires forall i | 0 <= i < |list| :: IsOrNull(Result(list[i], ctx, later, row), Denote(list[i], ctx, row).value)
    ensures var vs, vs' := DenoteAll(list, ctx, row).value, DenoteAll(Results(list, ctx), later, row).value;
            forall i | 0 <= i < |list| :: IsOrNull(Some(vs'[i]), vs[i])
  {
    var vs, vs' := DenoteAll(list, ctx, row).value, DenoteAll(Results(list, ctx), later, row).value;
    forall i | 0 <= i < |list|
      ensures IsOrNull(Some(vs'[i]), vs[i])
    {
      assert Denote(list[i], ctx, row) == Some(vs[i]);
      assert Denote(Results(list, ctx)[i], later, row) == Some(vs'[i]);
    }
  }

  predicate AllCautious(es: seq<Expr>, ctx: Context, row: Row) {
    forall i | 0 <= i < |es| ::
      && Printable(es[i], true) && FloatFree(es[i]) && Cautious(es[i], ctx)
      && Denote(es[i], ctx, row).Some? && Denote(es[i], ctx, row).value.IsLogical()
  }

  lemma CautiousPasses(es: seq<Expr>, ctx: Context, later: Context, row: Row)
    requires AllCautious(es, ctx, row)
    ensures AllReadable(es, ctx, later, row)
    ensures SomePass(es, ctx, later, row) ==> SomeHolds(es, ctx, row)
    ensures AllPass(es, ctx, later, row) ==> AllHold(es, ctx, row)
  {
    hide Printable, Cautious, FloatFree, Result;
    forall i | 0 <= i < |es|
      ensures Readable(es[i], ctx, later, row)
      ensures Passes(es[i], ctx, later, row) ==> Holds(es[i], ctx, row)
    {
      ResultIsValueOrNull(es[i], ctx, later, row);
      ResultIsEmittable(es[i], ctx, later, row);
    }
  }

  /**
   A decision on cautious policies never admits a row that the policies reject, whatever
   evaluation dropped from them.
   */
  lemma NeverAdmitsMore(ps: seq<Policy>, ctx: Context, superuserBypass: bool, later: Context, row: Row)
    requires AllCautious(UsingExprs(ps), ctx, row) && AllCautious(CheckExprs(ps), ctx, row) && ctx.IdsHaveNoQuote()
    requires Admits(Decide(ps, ctx, superuserBypass), later, row)
    ensures (superuserBypass && ctx.HasPermission("*")) || Allowed(ps, ctx, row)
  {
    hide AllCautious, AllReadable, SomePass, AllPass, SomeHolds, AllHold, Decide, Allowed, Admits;
    CautiousPasses(UsingExprs(ps), ctx, later, row);
    CautiousPasses(CheckExprs(ps), ctx, later, row);
    DecisionReadsBack(ps, ctx, superuserBypass, later, row);
    AllowedByExprs(ps, ctx, row);
  }

  /** Under IS NULL a dropped call does admit rows: this test is TRUE on every row, whatever the function says. */
  lemma NullTestAdmits(ctx: Context, later: Context, row: Row)
    requires ctx.IdsHaveNoQuote()
    ensures var ps := [Policy("p", Some(IsNull(LOWER_NAME, false)), None)];
            && Admits(Decide(ps, ctx, false), later, row)
            && (Allowed(ps, ctx, row) <==> row.call("lower", [row.column("name")]).Unknown?)
  {
    hide Printable, Parse, Evaluate, Admits, Decide, BUILTIN_NAMES, ValidateCall, Print, Body;
    var test := IsNull(LOWER_NAME, false);
    var ps := [Policy("p", Some(test), None)];
    LowerPrints();
    LowerIsNoBuiltin();
    DatabaseCallDropped("lower", [Column("name")], ctx);
    LowerDenotes(ctx, row);
    assert ps[..0] == [];
    assert UsingExprs(ps) == [test] && CheckExprs(ps) == [];
    assert Printable(test, true) by { NullTestPrintable(LOWER_NAME); }
    assert Specialize(test, ctx) == Open(IsNull(Lit(Literal.Null), false));
    assert Result(test, ctx, later, row) == Some(Truth(true));
    assert [test][0] == test;
    assert Passes([test][0], ctx, later, row) && Readable([test][0], ctx, later, row);
    DecisionReadsBack(ps, ctx, false, later, row);
    assert Holds(ps[0].using.value, ctx, row) <==> row.call("lower", [row.column("name")]).Unknown?;
  }

  lemma NullTestPrintable(x: Expr)
    requires Printable(x, false)
    ensures Printable(IsNull(x, false), true)
  {
  }
}
