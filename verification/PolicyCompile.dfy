/** Joining many USING and CHECK policies into one decision. */
module PolicyCompile {
  import opened Options
  import opened PolicyAst
  import opened AsciiText
  import opened PolicyContext
  import opened Grammar
  import opened PolicyPrinter
  import opened PolicyEval
  import opened Semantics
  import opened Pieces
  import opened ResidualText
  import opened PolicyMeaning

  datatype Policy = Policy(name: string, using: Option<Expr>, check: Option<Expr>)

  datatype Decision =
    | AlwaysAllow
    | AlwaysDeny(reason: string)
    | Conditional(sql: string)

  // What the loops compute, from left to right.

  function UsingExprs(ps: seq<Policy>): seq<Expr> {
    if ps == [] then []
    else
      var n := |ps| - 1;
      var init := UsingExprs(ps[..n]);
      if ps[n].using.Some? then init + [ps[n].using.value] else init
  }

  function CheckExprs(ps: seq<Policy>): seq<Expr> {
    if ps == [] then []
    else
      var n := |ps| - 1;
      var init := CheckExprs(ps[..n]);
      if ps[n].check.Some? then init + [ps[n].check.value] else init
  }

  function Residuals(es: seq<Expr>, ctx: Context): seq<string> {
    if es == [] then []
    else
      var n := |es| - 1;
      var init := Residuals(es[..n], ctx);
      if Evaluate(es[n], ctx).Residual? then init + [Evaluate(es[n], ctx).sql] else init
  }

  predicate SomeConst(es: seq<Expr>, ctx: Context, b: bool) {
    exists i | 0 <= i < |es| :: Evaluate(es[i], ctx) == Const(b)
  }

  /** The first policy whose CHECK is constantly false. */
  function FirstFailing(ps: seq<Policy>, ctx: Context): Option<Policy> {
    if ps == [] then None
    else
      var n := |ps| - 1;
      var f := FirstFailing(ps[..n], ctx);
      if f.Some? then f
      else if ps[n].check.Some? && Evaluate(ps[n].check.value, ctx) == Const(false) then Some(ps[n])
      else None
  }

  function Joined(parts: seq<string>, op: BinaryOp): string
    requires |parts| > 0
  {
    if |parts| == 1 then parts[0] else "(" + Join(parts, " " + op.AsSql() + " ") + ")"
  }

  function UsingDecision(ps: seq<Policy>, ctx: Context): Decision {
    var residuals := Residuals(UsingExprs(ps), ctx);
    if SomeConst(UsingExprs(ps), ctx, true) then AlwaysAllow
    else if residuals == [] then AlwaysDeny("no matching policy")
    else Conditional(Joined(residuals, Or))
  }

  function CheckDecision(ps: seq<Policy>, ctx: Context): Decision {
    var residuals := Residuals(CheckExprs(ps), ctx);
    match FirstFailing(ps, ctx)
    case Some(p) => AlwaysDeny("check policy '" + p.name + "' failed")
    case None => if residuals == [] then AlwaysAllow else Conditional(Joined(residuals, And))
  }

  function CombineDecisions(using: Decision, check: Decision): Decision {
    match (using, check)
    case (AlwaysDeny(_), _) => using
    case (_, AlwaysDeny(_)) => check
    case (AlwaysAllow, _) => check
    case (_, AlwaysAllow) => using
    case (Conditional(a), Conditional(b)) => Conditional("(" + a + " AND " + b + ")")
  }

  function Decide(ps: seq<Policy>, ctx: Context, superuserBypass: bool): Decision {
    if superuserBypass && ctx.HasPermission("*") then AlwaysAllow
    else
      CombineDecisions(
        if UsingExprs(ps) == [] then AlwaysAllow else UsingDecision(ps, ctx),
        if CheckExprs(ps) == [] then AlwaysAllow else CheckDecision(ps, ctx))
  }

  // The loops

  lemma UsingMember(ps: seq<Policy>, i: nat)
    requires i < |ps| && ps[i].using.Some?
    ensures ps[i].using.value in UsingExprs(ps)
  {
    var n := |ps| - 1;
    if i < n {
      UsingMember(ps[..n], i);
    }
  }

  lemma {:induction false} FirstFailingStays(ps: seq<Policy>, i: nat, ctx: Context)
    requires i <= |ps| && FirstFailing(ps[..i], ctx).Some?
    ensures FirstFailing(ps, ctx) == FirstFailing(ps[..i], ctx)
  {
    if i < |ps| {
      var n := |ps| - 1;
      assert ps[..n][..i] == ps[..i];
      FirstFailingStays(ps[..n], i, ctx);
    } else {
      assert ps[..i] == ps;
    }
  }

  lemma ResidualsMore(es: seq<Expr>, e: Expr, ctx: Context)
    ensures var r := Evaluate(e, ctx);
            Residuals(es + [e], ctx) == if r.Residual? then Residuals(es, ctx) + [r.sql] else Residuals(es, ctx)
  {
    assert (es + [e])[..|es|] == es;
  }

  lemma PrefixStep(ps: seq<Policy>, i: nat, ctx: Context)
    requires i < |ps|
    ensures UsingExprs(ps[..i + 1]) ==
            if ps[i].using.Some? then UsingExprs(ps[..i]) + [ps[i].using.value] else UsingExprs(ps[..i])
    ensures CheckExprs(ps[..i + 1]) ==
            if ps[i].check.Some? then CheckExprs(ps[..i]) + [ps[i].check.value] else CheckExprs(ps[..i])
    ensures FirstFailing(ps[..i], ctx).None? ==>
            FirstFailing(ps[..i + 1], ctx) ==
            if ps[i].check.Some? && Evaluate(ps[i].check.value, ctx) == Const(false) then Some(ps[i]) else None
  {
    assert ps[..i + 1][..i] == ps[..i];
  }

  lemma SomeConstMore(es: seq<Expr>, e: Expr, ctx: Context, b: bool)
    ensures SomeConst(es + [e], ctx, b) <==> SomeConst(es, ctx, b) || Evaluate(e, ctx) == Const(b)
  {
    var more := es + [e];
    if SomeConst(es, ctx, b) {
      var i :| 0 <= i < |es| && Evaluate(es[i], ctx) == Const(b);
      assert more[i] == es[i];
    }
    assert more[|es|] == e;
  }

  method CompileUsingPolicies(policies: seq<Policy>, ctx: Context) returns (d: Decision)
    ensures d == UsingDecision(policies, ctx)
  {
    hide Evaluate;
    var residuals: seq<string> := [];
    var anyAlwaysAllow := false;
    for i := 0 to |policies|
      invariant !SomeConst(UsingExprs(policies[..i]), ctx, true)
      invariant residuals == Residuals(UsingExprs(policies[..i]), ctx)
    {
      PrefixStep(policies, i, ctx);
      if policies[i].using.Some? {
        var e := policies[i].using.value;
        SomeConstMore(UsingExprs(policies[..i]), e, ctx, true);
        ResidualsMore(UsingExprs(policies[..i]), e, ctx);
        var result := Evaluate(e, ctx);
        match result
        case Const(true) =>
          anyAlwaysAllow := true;
          UsingMember(policies, i);
          break;
        case Const(false) =>
        case Residual(sql) =>
          residuals := residuals + [sql];
      }
    }
    if anyAlwaysAllow {
      return AlwaysAllow;
    }
    assert policies[..|policies|] == policies;
    if |residuals| == 0 {
      return AlwaysDeny("no matching policy");
    }
    assert " " + Or.AsSql() + " " == " OR ";
    var combined := if |residuals| == 1 then residuals[0] else "(" + Join(residuals, " OR ") + ")";
    return Conditional(combined);
  }

  method CompileCheckPolicies(policies: seq<Policy>, ctx: Context) returns (d: Decision)
    ensures d == CheckDecision(policies, ctx)
  {
    hide Evaluate;
    var residuals: seq<string> := [];
    for i := 0 to |policies|
      invariant FirstFailing(policies[..i], ctx).None?
      invariant residuals == Residuals(CheckExprs(policies[..i]), ctx)
    {
      PrefixStep(policies, i, ctx);
      if policies[i].check.Some? {
        var e := policies[i].check.value;
        ResidualsMore(CheckExprs(policies[..i]), e, ctx);
        var result := Evaluate(e, ctx);
        match result
        case Const(true) =>
        case Const(false) =>
          FirstFailingStays(policies, i + 1, ctx);
          return AlwaysDeny("check policy '" + policies[i].name + "' failed");
        case Residual(sql) =>
          residuals := residuals + [sql];
      }
    }
    assert policies[..|policies|] == policies;
    if |residuals| == 0 {
      return AlwaysAllow;
    }
    assert " " + And.AsSql() + " " == " AND ";
    var combined := if |residuals| == 1 then residuals[0] else "(" + Join(residuals, " AND ") + ")";
    return Conditional(combined);
  }

  function WithUsing(ps: seq<Policy>): (r: seq<Policy>)
    ensures UsingExprs(r) == UsingExprs(ps)
    ensures r == [] <==> UsingExprs(ps) == []
  {
    if ps == [] then []
    else
      var n := |ps| - 1;
      var init := WithUsing(ps[..n]);
      assert (init + [ps[n]])[..|init|] == init;
      if ps[n].using.Some? then init + [ps[n]] else init
  }

  function WithCheck(ps: seq<Policy>, ctx: Context): (r: seq<Policy>)
    ensures CheckExprs(r) == CheckExprs(ps)
    ensures FirstFailing(r, ctx) == FirstFailing(ps, ctx)
    ensures r == [] <==> CheckExprs(ps) == []
  {
    if ps == [] then []
    else
      var n := |ps| - 1;
      var init := WithCheck(ps[..n], ctx);
      assert (init + [ps[n]])[..|init|] == init;
      if ps[n].check.Some? then init + [ps[n]] else init
  }

  lemma NoPolicies(ctx: Context)
    ensures UsingExprs([]) == [] && CheckExprs([]) == []
  {
  }

  method CompilePolicies(policies: seq<Policy>, ctx: Context, superuserBypass: bool) returns (d: Decision)
    ensures d == Decide(policies, ctx, superuserBypass)
  {
    hide Evaluate, SomeConst, Residuals, Joined, FirstFailing, UsingExprs, CheckExprs, Grants;
    NoPolicies(ctx);
    if superuserBypass {
      var bypass := HasPermission(ctx, "*");
      if bypass {
        return AlwaysAllow;
      }
    }
    if |policies| == 0 {
      return AlwaysAllow;
    }
    var usingPolicies := WithUsing(policies);
    var checkPolicies := WithCheck(policies, ctx);
    var using, check := AlwaysAllow, AlwaysAllow;
    if |usingPolicies| > 0 {
      using := CompileUsingPolicies(usingPolicies, ctx);
    }
    if |checkPolicies| > 0 {
      check := CompileCheckPolicies(checkPolicies, ctx);
    }
    return CombineDecisions(using, check);
  }

  // What the decision means for a row.

  /** Whether the decision lets the row through; a fragment is read as SQL and must be TRUE. */
  predicate Admits(d: Decision, later: Context, row: Row) {
    match d
    case AlwaysAllow => true
    case AlwaysDeny(_) => false
    case Conditional(sql) =>
      (match Parse(EmittedSql, sql)
       case Failure(_) => false
       case Success(t) => Denote(t, later, row) == Some(Truth(true)))
  }

  predicate Holds(e: Expr, ctx: Context, row: Row) {
    Denote(e, ctx, row) == Some(Truth(true))
  }

  predicate SomeHolds(es: seq<Expr>, ctx: Context, row: Row) {
    exists i | 0 <= i < |es| :: Holds(es[i], ctx, row)
  }

  predicate AllHold(es: seq<Expr>, ctx: Context, row: Row) {
    forall i | 0 <= i < |es| :: Holds(es[i], ctx, row)
  }

  /** The reference rule: some USING is TRUE (if there are any) and every CHECK is TRUE. */
  predicate Allowed(ps: seq<Policy>, ctx: Context, row: Row) {
    && ((forall i | 0 <= i < |ps| :: ps[i].using.None?) ||
        exists i | 0 <= i < |ps| :: ps[i].using.Some? && Holds(ps[i].using.value, ctx, row))
    && (forall i | 0 <= i < |ps| :: ps[i].check.Some? ==> Holds(ps[i].check.value, ctx, row))
  }

  /** A policy expression that evaluation handles, with a truth value on this row. */
  predicate Sound(e: Expr, ctx: Context, row: Row) {
    && Printable(e, true) && NothingLost(e, ctx) && FloatFree(e)
    && Denote(e, ctx, row).Some? && Denote(e, ctx, row).value.IsLogical()
  }

  predicate AllSound(es: seq<Expr>, ctx: Context, row: Row) {
    forall i | 0 <= i < |es| :: Sound(es[i], ctx, row)
  }

  // The same, from what evaluation leaves of the policies.

  /** What evaluation leaves of the policy is TRUE on the row. */
  predicate Passes(e: Expr, ctx: Context, later: Context, row: Row) {
    Result(e, ctx, later, row) == Some(Truth(true))
  }

  predicate SomePass(es: seq<Expr>, ctx: Context, later: Context, row: Row) {
    exists i | 0 <= i < |es| :: Passes(es[i], ctx, later, row)
  }

  predicate AllPass(es: seq<Expr>, ctx: Context, later: Context, row: Row) {
    forall i | 0 <= i < |es| :: Passes(es[i], ctx, later, row)
  }

  /** What evaluation leaves can be emitted and has a truth value on the row, whether or not something was lost. */
  predicate Readable(e: Expr, ctx: Context, later: Context, row: Row) {
    && Printable(e, true) && Emittable(e, ctx)
    && Result(e, ctx, later, row).Some? && Result(e, ctx, later, row).value.IsLogical()
  }

  predicate AllReadable(es: seq<Expr>, ctx: Context, later: Context, row: Row) {
    forall i | 0 <= i < |es| :: Readable(es[i], ctx, later, row)
  }

  /** `sql` is a piece of text whose truth value is TRUE exactly when `cond` holds. */
  ghost predicate Tests(sql: string, cond: bool, later: Context, row: Row) {
    exists t :: Piece(EmittedSql, sql, t) && TreeTests(t, cond, later, row)
  }

  predicate TreeTests(t: Expr, cond: bool, later: Context, row: Row) {
    var v := Denote(t, later, row);
    v.Some? && v.value.IsLogical() && (v.value.IsTrue() <==> cond)
  }

  ghost predicate Stands(d: Decision, cond: bool, later: Context, row: Row) {
    match d
    case AlwaysAllow => cond
    case AlwaysDeny(_) => !cond
    case Conditional(sql) => Tests(sql, cond, later, row)
  }

  lemma StandsAdmits(d: Decision, cond: bool, later: Context, row: Row)
    requires Stands(d, cond, later, row)
    ensures Admits(d, later, row) <==> cond
  {
    hide Piece;
    if d.Conditional? {
      var t :| Piece(EmittedSql, d.sql, t) && TreeTests(t, cond, later, row);
      PieceParses(EmittedSql, d.sql, t);
    }
  }

  /** One policy: its constant or its text stands for "the policy passes". */
  lemma ResultTests(e: Expr, ctx: Context, later: Context, row: Row)
    requires Readable(e, ctx, later, row) && ctx.IdsHaveNoQuote()
    ensures match Evaluate(e, ctx)
            case Const(b) => Passes(e, ctx, later, row) <==> b
            case Residual(sql) => Tests(sql, Passes(e, ctx, later, row), later, row)
  {
    hide Piece, Evaluate, Specialize;
    EvaluationShows(EmittedSql, e, ctx);
    if Evaluate(e, ctx).Residual? {
      assert TreeTests(Specialize(e, ctx).expr, Passes(e, ctx, later, row), later, row);
    }
  }

  /** The residuals, tested one by one, against the policies they came from. */
  lemma {:induction false} ResidualsTest(es: seq<Expr>, ctx: Context, later: Context, row: Row)
    returns (conds: seq<bool>)
    requires AllReadable(es, ctx, later, row) && ctx.IdsHaveNoQuote()
    ensures |conds| == |Residuals(es, ctx)|
    ensures forall i | 0 <= i < |conds| :: Tests(Residuals(es, ctx)[i], conds[i], later, row)
    ensures SomePass(es, ctx, later, row) <==> SomeConst(es, ctx, true) || true in conds
    ensures AllPass(es, ctx, later, row) <==> !SomeConst(es, ctx, false) && false !in conds
    decreases |es|
  {
    hide Tests, Evaluate, Passes, Readable;
    if es == [] {
      conds := [];
    } else {
      var n := |es| - 1;
      var init := ResidualsTest(es[..n], ctx, later, row);
      ResultTests(es[n], ctx, later, row);
      var r := Evaluate(es[n], ctx);
      conds := init + if r.Residual? then [Passes(es[n], ctx, later, row)] else [];
      SomeConstMore(es[..n], es[n], ctx, true);
      SomeConstMore(es[..n], es[n], ctx, false);
      assert es == es[..n] + [es[n]];
      LastPasses(es, ctx, later, row);
      MemberSplits(init, Passes(es[n], ctx, later, row));
    }
  }

  lemma LastPasses(es: seq<Expr>, ctx: Context, later: Context, row: Row)
    requires |es| > 0
    ensures var n := |es| - 1;
            && (SomePass(es, ctx, later, row) <==> SomePass(es[..n], ctx, later, row) || Passes(es[n], ctx, later, row))
            && (AllPass(es, ctx, later, row) <==> AllPass(es[..n], ctx, later, row) && Passes(es[n], ctx, later, row))
  {
    hide Passes;
    var n := |es| - 1;
    assert forall i | 0 <= i < n :: es[..n][i] == es[i];
  }

  lemma LastSplits(es: seq<Expr>, ctx: Context, row: Row)
    requires |es| > 0
    ensures var n := |es| - 1;
            SomeHolds(es, ctx, row) <==>
            SomeHolds(es[..n], ctx, row) || Holds(es[n], ctx, row)
    ensures var n := |es| - 1;
            AllHold(es, ctx, row) <==>
            AllHold(es[..n], ctx, row) && Holds(es[n], ctx, row)
  {
    hide Holds;
    var n := |es| - 1;
    assert forall i | 0 <= i < n :: es[..n][i] == es[i];
  }

  lemma MemberSplits(conds: seq<bool>, c: bool)
    ensures true in conds + [c] <==> true in conds || c
    ensures false in conds + [c] <==> false in conds || !c
  {
    assert (conds + [c])[|conds|] == c;
    assert forall i | 0 <= i < |conds| :: (conds + [c])[i] == conds[i];
  }

  /** A chain of tests joined by OR is TRUE when one of them is, by AND when all are. */
  lemma {:induction false} ChainTests(ts: seq<Expr>, conds: seq<bool>, op: BinaryOp, later: Context, row: Row)
    requires |ts| == |conds| > 0 && op.IsLogical()
    requires forall i | 0 <= i < |ts| :: TreeTests(ts[i], conds[i], later, row)
    ensures TreeTests(Chain(ts, op), if op == Or then true in conds else false !in conds, later, row)
    decreases |ts|
  {
    var n := |ts| - 1;
    if n > 0 {
      assert Chain(ts, op) == Binary(Chain(ts[..n], op), op, ts[n]);
      ChainTests(ts[..n], conds[..n], op, later, row);
      assert conds == conds[..n] + [conds[n]];
      MemberSplits(conds[..n], conds[n]);
    } else {
      assert conds == [conds[0]];
    }
  }

  lemma JoinedTests(parts: seq<string>, conds: seq<bool>, op: BinaryOp, later: Context, row: Row)
    requires |parts| == |conds| > 0 && op.IsLogical()
    requires forall i | 0 <= i < |parts| :: Tests(parts[i], conds[i], later, row)
    ensures Tests(Joined(parts, op), if op == Or then true in conds else false !in conds, later, row)
  {
    hide Piece, TreeTests;
    if |parts| == 1 {
      assert conds == [conds[0]];
    } else {
      var ts := TreesOf(parts, conds, later, row);
      ChainTests(ts, conds, op, later, row);
      ChainPiece(EmittedSql, parts, ts, op);
    }
  }

  lemma {:induction false} TreesOf(parts: seq<string>, conds: seq<bool>, later: Context, row: Row)
    returns (ts: seq<Expr>)
    requires |parts| == |conds|
    requires forall i | 0 <= i < |parts| :: Tests(parts[i], conds[i], later, row)
    ensures |ts| == |parts|
    ensures forall i | 0 <= i < |parts| :: Piece(EmittedSql, parts[i], ts[i]) && TreeTests(ts[i], conds[i], later, row)
    decreases |parts|
  {
    hide Piece, TreeTests;
    if parts == [] {
      ts := [];
    } else {
      var n := |parts| - 1;
      var init := TreesOf(parts[..n], conds[..n], later, row);
      assert Tests(parts[n], conds[n], later, row);
      var t :| Piece(EmittedSql, parts[n], t) && TreeTests(t, conds[n], later, row);
      ts := init + [t];
      forall i | 0 <= i < |parts|
        ensures Piece(EmittedSql, parts[i], ts[i]) && TreeTests(ts[i], conds[i], later, row)
      {
        if i < n {
          assert parts[..n][i] == parts[i] && conds[..n][i] == conds[i];
        }
      }
    }
  }

  lemma UsingStands(ps: seq<Policy>, ctx: Context, later: Context, row: Row)
    requires AllReadable(UsingExprs(ps), ctx, later, row) && ctx.IdsHaveNoQuote()
    ensures Stands(UsingDecision(ps, ctx), SomePass(UsingExprs(ps), ctx, later, row), later, row)
  {
    hide Tests, Passes, Readable, Evaluate, Joined;
    var es := UsingExprs(ps);
    var conds := ResidualsTest(es, ctx, later, row);
    if !SomeConst(es, ctx, true) && Residuals(es, ctx) != [] {
      JoinedTests(Residuals(es, ctx), conds, Or, later, row);
    }
  }

  lemma {:induction false} FirstFailingIff(ps: seq<Policy>, ctx: Context)
    ensures FirstFailing(ps, ctx).Some? <==> SomeConst(CheckExprs(ps), ctx, false)
  {
    hide Evaluate;
    if ps != [] {
      var n := |ps| - 1;
      FirstFailingIff(ps[..n], ctx);
      if ps[n].check.Some? {
        SomeConstMore(CheckExprs(ps[..n]), ps[n].check.value, ctx, false);
      }
    }
  }

  lemma ChecksStand(ps: seq<Policy>, ctx: Context, later: Context, row: Row)
    requires AllReadable(CheckExprs(ps), ctx, later, row) && ctx.IdsHaveNoQuote()
    ensures Stands(CheckDecision(ps, ctx), AllPass(CheckExprs(ps), ctx, later, row), later, row)
  {
    hide Tests, Passes, Readable, Evaluate, Joined;
    var es := CheckExprs(ps);
    FirstFailingIff(ps, ctx);
    var conds := ResidualsTest(es, ctx, later, row);
    if !SomeConst(es, ctx, false) && Residuals(es, ctx) != [] {
      JoinedTests(Residuals(es, ctx), conds, And, later, row);
    }
  }

  /** Both halves of a combined decision keep their grouping and their truth value. */
  lemma CombinedStands(using: Decision, u: bool, check: Decision, c: bool, later: Context, row: Row)
    requires Stands(using, u, later, row) && Stands(check, c, later, row)
    ensures Stands(CombineDecisions(using, check), u && c, later, row)
  {
    hide Piece;
    if using.Conditional? && check.Conditional? {
      var a :| Piece(EmittedSql, using.sql, a) && TreeTests(a, u, later, row);
      var b :| Piece(EmittedSql, check.sql, b) && TreeTests(b, c, later, row);
      AndPiece(EmittedSql, using.sql, a, check.sql, b);
      var t := Binary(a, And, b);
      assert TreeTests(t, u && c, later, row);
      assert "(" + (using.sql + " AND " + check.sql) + ")" == "(" + using.sql + " AND " + check.sql + ")";
    } else if using.Conditional? {
      var a :| Piece(EmittedSql, using.sql, a) && TreeTests(a, u, later, row);
      assert check.AlwaysAllow? ==> TreeTests(a, u && c, later, row);
    } else if check.Conditional? {
      var b :| Piece(EmittedSql, check.sql, b) && TreeTests(b, c, later, row);
      assert using.AlwaysAllow? ==> TreeTests(b, u && c, later, row);
    }
  }

  lemma {:induction false} UsingExprsAre(ps: seq<Policy>, ctx: Context, row: Row)
    ensures SomeHolds(UsingExprs(ps), ctx, row) <==>
            exists i | 0 <= i < |ps| :: ps[i].using.Some? && Holds(ps[i].using.value, ctx, row)
    ensures UsingExprs(ps) == [] <==> forall i | 0 <= i < |ps| :: ps[i].using.None?
    decreases |ps|
  {
    hide Holds;
    if ps != [] {
      var n := |ps| - 1;
      UsingExprsAre(ps[..n], ctx, row);
      assert forall i | 0 <= i < n :: ps[..n][i] == ps[i];
      if ps[n].using.Some? {
        var es := UsingExprs(ps);
        assert es[..|es| - 1] == UsingExprs(ps[..n]);
        LastSplits(es, ctx, row);
      }
    }
  }

  lemma {:induction false} CheckExprsAre(ps: seq<Policy>, ctx: Context, row: Row)
    ensures AllHold(CheckExprs(ps), ctx, row) <==>
            forall i | 0 <= i < |ps| :: ps[i].check.Some? ==> Holds(ps[i].check.value, ctx, row)
    decreases |ps|
  {
    hide Holds;
    if ps != [] {
      var n := |ps| - 1;
      CheckExprsAre(ps[..n], ctx, row);
      assert forall i | 0 <= i < n :: ps[..n][i] == ps[i];
      if ps[n].check.Some? {
        var es := CheckExprs(ps);
        assert es[..|es| - 1] == CheckExprs(ps[..n]);
        LastSplits(es, ctx, row);
      }
    }
  }

  /** The rule on what evaluation leaves: some USING passes (if there are any) and every CHECK passes. */
  predicate Passed(ps: seq<Policy>, ctx: Context, later: Context, row: Row) {
    (UsingExprs(ps) == [] || SomePass(UsingExprs(ps), ctx, later, row)) && AllPass(CheckExprs(ps), ctx, later, row)
  }

  /**
   Without the superuser's bypass the decision lets a row through exactly when what evaluation
   leaves of the policies does. The fragment is taken as text and read back, so this covers
   how fragments are joined.
   */
  lemma DecisionReadsBack(ps: seq<Policy>, ctx: Context, superuserBypass: bool, later: Context, row: Row)
    requires AllReadable(UsingExprs(ps), ctx, later, row) && AllReadable(CheckExprs(ps), ctx, later, row)
    requires ctx.IdsHaveNoQuote()
    ensures Admits(Decide(ps, ctx, superuserBypass), later, row) <==>
            (superuserBypass && ctx.HasPermission("*")) || Passed(ps, ctx, later, row)
  {
    hide Stands, SomePass, AllPass, AllReadable, UsingDecision, CheckDecision, CombineDecisions;
    UsingStands(ps, ctx, later, row);
    ChecksStand(ps, ctx, later, row);
    AllowStands(later, row);
    NothingToPass(ctx, later, row);
    var using := if UsingExprs(ps) == [] then AlwaysAllow else UsingDecision(ps, ctx);
    var check := if CheckExprs(ps) == [] then AlwaysAllow else CheckDecision(ps, ctx);
    var u := UsingExprs(ps) == [] || SomePass(UsingExprs(ps), ctx, later, row);
    var c := AllPass(CheckExprs(ps), ctx, later, row);
    CombinedStands(using, u, check, c, later, row);
    StandsAdmits(CombineDecisions(using, check), u && c, later, row);
  }

  lemma NothingToPass(ctx: Context, later: Context, row: Row)
    ensures AllPass([], ctx, later, row)
  {
  }

  lemma SoundPasses(e: Expr, ctx: Context, later: Context, row: Row)
    requires Sound(e, ctx, row)
    ensures Readable(e, ctx, later, row)
    ensures Passes(e, ctx, later, row) <==> Holds(e, ctx, row)
  {
    hide Specialize;
    SpecializeMeans(e, ctx, later, row);
  }

  lemma AllowedByExprs(ps: seq<Policy>, ctx: Context, row: Row)
    ensures Allowed(ps, ctx, row) <==>
            (UsingExprs(ps) == [] || SomeHolds(UsingExprs(ps), ctx, row)) && AllHold(CheckExprs(ps), ctx, row)
  {
    hide Holds;
    UsingExprsAre(ps, ctx, row);
    CheckExprsAre(ps, ctx, row);
  }

  /**
   Main theorem: without the superuser's bypass the decision lets a row through exactly
   when some USING is TRUE on it, or there is none, and every CHECK is TRUE on it.
   */
  lemma DecisionIsCorrect(ps: seq<Policy>, ctx: Context, superuserBypass: bool, later: Context, row: Row)
    requires AllSound(UsingExprs(ps), ctx, row) && AllSound(CheckExprs(ps), ctx, row) && ctx.IdsHaveNoQuote()
    ensures Admits(Decide(ps, ctx, superuserBypass), later, row) <==>
            (superuserBypass && ctx.HasPermission("*")) || Allowed(ps, ctx, row)
  {
    hide Passes, Readable, Holds, Sound, Decide, Allowed, Admits;
    forall i | 0 <= i < |UsingExprs(ps)|
      ensures Readable(UsingExprs(ps)[i], ctx, later, row)
      ensures Passes(UsingExprs(ps)[i], ctx, later, row) <==> Holds(UsingExprs(ps)[i], ctx, row)
    {
      SoundPasses(UsingExprs(ps)[i], ctx, later, row);
    }
    forall i | 0 <= i < |CheckExprs(ps)|
      ensures Readable(CheckExprs(ps)[i], ctx, later, row)
      ensures Passes(CheckExprs(ps)[i], ctx, later, row) <==> Holds(CheckExprs(ps)[i], ctx, row)
    {
      SoundPasses(CheckExprs(ps)[i], ctx, later, row);
    }
    DecisionReadsBack(ps, ctx, superuserBypass, later, row);
    AllowedByExprs(ps, ctx, row);
  }

  lemma AllowStands(later: Context, row: Row)
    ensures Stands(AlwaysAllow, true, later, row)
  {
  }
}
