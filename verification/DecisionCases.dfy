/** How a decision on many policies comes out, told from the results of the single policies. */
module DecisionCases {
  import opened Options
  import opened PolicyContext
  import opened PolicyEval
  import opened PolicyCompile

  predicate UsingIs(p: Policy, ctx: Context, b: bool) {
    p.using.Some? && Evaluate(p.using.value, ctx) == Const(b)
  }

  predicate CheckIs(p: Policy, ctx: Context, b: bool) {
    p.check.Some? && Evaluate(p.check.value, ctx) == Const(b)
  }

  /** There are USING policies, and all of them are constantly false. */
  predicate NoneMatches(ps: seq<Policy>, ctx: Context) {
    && (exists i :: 0 <= i < |ps| && ps[i].using.Some?)
    && forall i | 0 <= i < |ps| && ps[i].using.Some? :: UsingIs(ps[i], ctx, false)
  }

  /** Policy `i` is the first whose CHECK is constantly false. */
  predicate FirstFails(ps: seq<Policy>, ctx: Context, i: nat) {
    i < |ps| && CheckIs(ps[i], ctx, false) && forall j | 0 <= j < i :: !CheckIs(ps[j], ctx, false)
  }

  lemma {:induction false} UsingsAre(ps: seq<Policy>, ctx: Context)
    ensures UsingExprs(ps) == [] <==> forall i | 0 <= i < |ps| :: ps[i].using.None?
    ensures SomeConst(UsingExprs(ps), ctx, true) <==> exists i :: 0 <= i < |ps| && UsingIs(ps[i], ctx, true)
    ensures Residuals(UsingExprs(ps), ctx) == [] <==>
            forall i | 0 <= i < |ps| && ps[i].using.Some? :: UsingIs(ps[i], ctx, true) || UsingIs(ps[i], ctx, false)
    decreases |ps|
  {
    hide Evaluate, UsingIs, SomeConst, Residuals;
    if ps == [] {
      NothingConst(ctx, true);
    } else {
      var n := |ps| - 1;
      UsingsAre(ps[..n], ctx);
      assert forall i | 0 <= i < n :: ps[..n][i] == ps[i];
      if ps[n].using.Some? {
        SomeConstMore(UsingExprs(ps[..n]), ps[n].using.value, ctx, true);
        ResidualsMore(UsingExprs(ps[..n]), ps[n].using.value, ctx);
      }
      UsingResult(ps[n], ctx);
      if exists i :: 0 <= i < |ps| && UsingIs(ps[i], ctx, true) {
        var i :| 0 <= i < |ps| && UsingIs(ps[i], ctx, true);
        assert i < n ==> UsingIs(ps[..n][i], ctx, true);
      }
    }
  }

  lemma NothingConst(ctx: Context, b: bool)
    ensures !SomeConst([], ctx, b) && Residuals([], ctx) == []
  {
  }

  lemma UsingResult(p: Policy, ctx: Context)
    ensures UsingIs(p, ctx, true) <==> p.using.Some? && Evaluate(p.using.value, ctx) == Const(true)
    ensures UsingIs(p, ctx, true) || UsingIs(p, ctx, false) <==>
            p.using.Some? && !Evaluate(p.using.value, ctx).Residual?
  {
    hide Evaluate;
  }

  lemma CheckResult(p: Policy, ctx: Context)
    ensures CheckIs(p, ctx, false) <==> p.check.Some? && Evaluate(p.check.value, ctx) == Const(false)
    ensures CheckIs(p, ctx, true) || CheckIs(p, ctx, false) <==>
            p.check.Some? && !Evaluate(p.check.value, ctx).Residual?
    ensures !(CheckIs(p, ctx, true) && CheckIs(p, ctx, false))
  {
    hide Evaluate;
  }

  lemma {:induction false} ChecksAre(ps: seq<Policy>, ctx: Context)
    ensures CheckExprs(ps) == [] <==> forall i | 0 <= i < |ps| :: ps[i].check.None?
    ensures Residuals(CheckExprs(ps), ctx) == [] <==>
            forall i | 0 <= i < |ps| && ps[i].check.Some? :: CheckIs(ps[i], ctx, true) || CheckIs(ps[i], ctx, false)
    ensures FirstFailing(ps, ctx).None? <==> forall i | 0 <= i < |ps| :: !CheckIs(ps[i], ctx, false)
    decreases |ps|
  {
    hide Evaluate, CheckIs, Residuals;
    if ps == [] {
      NothingConst(ctx, true);
    } else {
      var n := |ps| - 1;
      ChecksAre(ps[..n], ctx);
      assert forall i | 0 <= i < n :: ps[..n][i] == ps[i];
      if ps[n].check.Some? {
        ResidualsMore(CheckExprs(ps[..n]), ps[n].check.value, ctx);
      }
      CheckResult(ps[n], ctx);
    }
  }

  lemma FirstFailureIs(ps: seq<Policy>, ctx: Context, i: nat)
    requires FirstFails(ps, ctx, i)
    ensures FirstFailing(ps, ctx) == Some(ps[i])
  {
    hide Evaluate, CheckIs;
    assert forall j | 0 <= j < i :: ps[..i][j] == ps[j];
    ChecksAre(ps[..i], ctx);
    CheckResult(ps[i], ctx);
    assert ps[..i + 1][..i] == ps[..i];
    FirstFailingStays(ps, i + 1, ctx);
  }

  lemma UsingPart(ps: seq<Policy>, ctx: Context)
    ensures var u := if UsingExprs(ps) == [] then AlwaysAllow else UsingDecision(ps, ctx);
            && (if NoneMatches(ps, ctx) then u == AlwaysDeny("no matching policy") else !u.AlwaysDeny?)
            && (u.AlwaysAllow? <==> (forall i | 0 <= i < |ps| :: ps[i].using.None?) ||
                                    exists i :: 0 <= i < |ps| && UsingIs(ps[i], ctx, true))
  {
    hide UsingIs, SomeConst, Residuals, UsingExprs, Joined;
    UsingsAre(ps, ctx);
    forall i | 0 <= i < |ps|
      ensures !(UsingIs(ps[i], ctx, true) && UsingIs(ps[i], ctx, false))
    {
      UsingOnce(ps[i], ctx);
    }
    if UsingExprs(ps) != [] {
      var k :| 0 <= k < |ps| && !ps[k].using.None?;
      assert ps[k].using.Some?;
      if NoneMatches(ps, ctx) {
        assert forall i | 0 <= i < |ps| :: !UsingIs(ps[i], ctx, true) by {
          forall i | 0 <= i < |ps|
            ensures !UsingIs(ps[i], ctx, true)
          {
            UsingOnce(ps[i], ctx);
          }
        }
      }
    }
  }

  lemma UsingOnce(p: Policy, ctx: Context)
    ensures !(UsingIs(p, ctx, true) && UsingIs(p, ctx, false))
    ensures UsingIs(p, ctx, true) || UsingIs(p, ctx, false) ==> p.using.Some?
  {
    hide Evaluate;
  }

  lemma CheckKinds(ps: seq<Policy>, ctx: Context)
    ensures forall i | 0 <= i < |ps| :: !(CheckIs(ps[i], ctx, true) && CheckIs(ps[i], ctx, false))
  {
    hide Evaluate;
  }

  lemma CheckPart(ps: seq<Policy>, ctx: Context)
    ensures var c := if CheckExprs(ps) == [] then AlwaysAllow else CheckDecision(ps, ctx);
            && (c.AlwaysDeny? <==> exists i :: 0 <= i < |ps| && CheckIs(ps[i], ctx, false))
            && (forall i: nat | i < |ps| && FirstFails(ps, ctx, i) ::
                  c == AlwaysDeny("check policy '" + ps[i].name + "' failed"))
            && (c.AlwaysAllow? <==> forall i | 0 <= i < |ps| && ps[i].check.Some? :: CheckIs(ps[i], ctx, true))
  {
    hide Evaluate, Residuals, CheckExprs, FirstFailing, FirstFails, Joined;
    ChecksAre(ps, ctx);
    forall i: nat | i < |ps| && FirstFails(ps, ctx, i)
      ensures FirstFailing(ps, ctx) == Some(ps[i])
    {
      FirstFailureIs(ps, ctx, i);
    }
    CheckKinds(ps, ctx);
  }

  /**
   Unless the bypass applies: the policies deny exactly if no USING can match or some CHECK
   fails, a missing match being reported first and else the first failing CHECK by name; they
   allow everything exactly if some USING holds (or there is none) and every CHECK holds.
   */
  lemma DecisionIs(ps: seq<Policy>, ctx: Context, superuserBypass: bool)
    requires !(superuserBypass && ctx.HasPermission("*"))
    ensures var d := Decide(ps, ctx, superuserBypass);
            && (d.AlwaysDeny? <==> NoneMatches(ps, ctx) || exists i :: 0 <= i < |ps| && CheckIs(ps[i], ctx, false))
            && (NoneMatches(ps, ctx) ==> d == AlwaysDeny("no matching policy"))
            && (forall i: nat | i < |ps| && !NoneMatches(ps, ctx) && FirstFails(ps, ctx, i) ::
                  d == AlwaysDeny("check policy '" + ps[i].name + "' failed"))
            && (d.AlwaysAllow? <==>
                  && ((forall i | 0 <= i < |ps| :: ps[i].using.None?) ||
                      exists i :: 0 <= i < |ps| && UsingIs(ps[i], ctx, true))
                  && forall i | 0 <= i < |ps| && ps[i].check.Some? :: CheckIs(ps[i], ctx, true))
  {
    hide NoneMatches, FirstFails, UsingIs, CheckIs, UsingExprs, CheckExprs, UsingDecision, CheckDecision;
    UsingPart(ps, ctx);
    CheckPart(ps, ctx);
  }
}
