/**
 Policies in which every test counts: tests of columns and of functions of the database,
 joined by AND, OR and NOT, no column or function tested twice. For these, losing nothing is
 not only enough to keep the meaning on all rows, it is also necessary.
 */
module ReadOnce {
  import opened Options
  import opened PolicyAst
  import opened PolicyContext
  import opened Builtins
  import opened Grammar
  import opened PolicyPrinter
  import opened PolicyEval
  import opened Semantics
  import opened ResidualText
  import opened PolicyMeaning
  import opened MeaningLimits

  /** Where a tested value comes from. */
  datatype Source = OfColumn(name: string) | OfFunction(name: string)

  predicate IsOperand(x: Expr) {
    match x
    case Column(_) => true
    case AuthBuiltin(name, args) =>
      name !in BUILTIN_NAMES && forall i | 0 <= i < |args| :: args[i].Column? || (args[i].Lit? && !args[i].lit.Float?)
    case _ => false
  }

  function SourceOf(x: Expr): Source
    requires IsOperand(x)
  {
    match x
    case Column(name) => OfColumn(name)
    case AuthBuiltin(name, _) => OfFunction(name)
  }

  /** A literal, or a text of the context, that is not NULL. */
  predicate HasValue(y: Expr, ctx: Context) {
    match y
    case Lit(lit) => lit.Int? || lit.String?
    case AuthBuiltin(name, args) => name != "role" && ContextText(y, ctx).Some?
    case _ => false
  }

  /** What the context decides: has_permission of a literal, or is_authenticated. */
  predicate IsSwitch(name: string, args: seq<Expr>) {
    || (name == "is_authenticated" && args == [])
    || (name == "has_permission" && |args| == 1 && args[0].Lit? && args[0].lit.String?)
  }

  predicate IsReadOnce(e: Expr, ctx: Context)
    decreases e
  {
    match e
    case Lit(lit) => lit.Bool?
    case AuthBuiltin(name, args) => IsSwitch(name, args)
    case Unary(op, x) => op == Not && IsReadOnce(x, ctx)
    case Binary(l, op, r) =>
      if op.IsLogical() then IsReadOnce(l, ctx) && IsReadOnce(r, ctx) && Sources(l) !! Sources(r)
      else IsOperand(l) && HasValue(r, ctx)
    case _ => false
  }

  function Sources(e: Expr): set<Source>
    decreases e
  {
    match e
    case Unary(_, x) => Sources(x)
    case Binary(l, op, r) =>
      if op.IsLogical() then Sources(l) + Sources(r) else if IsOperand(l) then {SourceOf(l)} else {}
    case _ => {}
  }

  /** A row on which a test holds exactly if its source is chosen. */
  function RowOf(chosen: set<Source>): Row {
    Row(name => Number(if OfColumn(name) in chosen then 1 else 0),
        (table, column) => Unknown,
        (domain, property, vs) => Unknown,
        (name, vs) => Number(if OfFunction(name) in chosen then 1 else 0),
        (op, a, b) => a == Number(1),
        v => Unknown,
        spelling => Unknown,
        sql => Unknown)
  }

  /**
   What to choose for the policy to have the truth value `b` in such a way that a loss shows.
   Beside a subexpression that loses something the other one stands aside.
   */
  function Choice(e: Expr, ctx: Context, b: bool): set<Source>
    decreases e
  {
    match e
    case Unary(_, x) => Choice(x, ctx, !b)
    case Binary(l, op, r) =>
      if !op.IsLogical() then if IsOperand(l) && b then {SourceOf(l)} else {}
      else if Fold(l, ctx).Known? then Choice(r, ctx, b)
      else if Fold(r, ctx).Known? then Choice(l, ctx, b)
      else if !NothingLost(l, ctx) then Choice(l, ctx, b) + Choice(r, ctx, op == And)
      else Choice(l, ctx, op == And) + Choice(r, ctx, b)
    case _ => {}
  }

  lemma {:induction false} ChoiceFrom(e: Expr, ctx: Context, b: bool)
    ensures Choice(e, ctx, b) <= Sources(e)
    decreases e
  {
    hide Fold, NothingLost, IsOperand, SourceOf;
    match e
    case Unary(_, x) =>
      ChoiceFrom(x, ctx, !b);
    case Binary(l, op, r) =>
      ChoiceFrom(l, ctx, b);
      ChoiceFrom(r, ctx, b);
      ChoiceFrom(l, ctx, op == And);
      ChoiceFrom(r, ctx, op == And);
    case _ =>
  }

  /** The simplest facts about these policies: they have a truth value and can be evaluated and emitted. */
  lemma {:induction false} ReadOnceIsTyped(e: Expr, ctx: Context, chosen: set<Source>)
    requires IsReadOnce(e, ctx)
    ensures Denote(e, ctx, RowOf(chosen)).Some? && Denote(e, ctx, RowOf(chosen)).value.IsLogical()
    ensures FloatFree(e)
    decreases e
  {
    hide IsOperand, HasValue, IsSwitch, Sources;
    match e
    case Lit(_) =>
    case AuthBuiltin(name, args) =>
      SwitchValue(name, args, ctx, RowOf(chosen));
    case Unary(_, x) =>
      ReadOnceIsTyped(x, ctx, chosen);
    case Binary(l, op, r) =>
      if op.IsLogical() {
        ReadOnceIsTyped(l, ctx, chosen);
        ReadOnceIsTyped(r, ctx, chosen);
      } else {
        OperandValue(l, ctx, chosen);
        HasOne(r, ctx, RowOf(chosen));
      }
  }

  lemma SwitchValue(name: string, args: seq<Expr>, ctx: Context, row: Row)
    requires IsSwitch(name, args)
    ensures var e := AuthBuiltin(name, args);
            && Denote(e, ctx, row).Some? && Denote(e, ctx, row).value.IsLogical()
            && Fold(e, ctx).Known? && FloatFree(e)
  {
  }

  lemma OperandValue(x: Expr, ctx: Context, chosen: set<Source>)
    requires IsOperand(x)
    ensures Denote(x, ctx, RowOf(chosen)) == Some(Number(if SourceOf(x) in chosen then 1 else 0))
    ensures FloatFree(x) && Fold(x, ctx) == Open(x) && (CallFree(x) <==> x.Column?)
    ensures Specialize(x, ctx) == Open(if x.Column? then x else Lit(Literal.Null))
  {
    hide BUILTIN_NAMES;
    match x
    case Column(_) =>
    case AuthBuiltin(name, args) =>
      assert DenoteAll(args, ctx, RowOf(chosen)).Some? by { FlatArguments(args, ctx, RowOf(chosen)); }
      Unvalidated(name, |args|);
      DropsCall(name, args, ctx);
  }

  lemma FlatArguments(args: seq<Expr>, ctx: Context, row: Row)
    requires forall i | 0 <= i < |args| :: args[i].Column? || (args[i].Lit? && !args[i].lit.Float?)
    ensures DenoteAll(args, ctx, row).Some?
  {
  }

  lemma Unvalidated(name: string, n: nat)
    requires name !in BUILTIN_NAMES
    ensures ValidateCall(name, n).Invalid? && name != "in_org"
  {
  }

  lemma DropsCall(name: string, args: seq<Expr>, ctx: Context)
    requires name !in BUILTIN_NAMES
    ensures Specialize(AuthBuiltin(name, args), ctx) == Open(Lit(Literal.Null))
  {
    DatabaseCallDropped(name, args, ctx);
  }

  lemma HasOne(y: Expr, ctx: Context, row: Row)
    requires HasValue(y, ctx)
    ensures Denote(y, ctx, row).Some? && !Denote(y, ctx, row).value.Unknown? && FloatFree(y)
    ensures Fold(y, ctx) == Specialize(y, ctx) && Fold(y, ctx).Open? && CallFree(Fold(y, ctx).expr)
    ensures forall later :: Denote(Fold(y, ctx).expr, later, row) == Denote(y, ctx, row)
  {
  }

  /** The policy is TRUE (or FALSE) on the row, and its result is too unless something was lost: then it is NULL. */
  predicate Shown(e: Expr, ctx: Context, later: Context, b: bool, chosen: set<Source>) {
    && Denote(e, ctx, RowOf(chosen)) == Some(Truth(b))
    && Specialize(e, ctx).Open?
    && Denote(Specialize(e, ctx).expr, later, RowOf(chosen)) == Some(if NothingLost(e, ctx) then Truth(b) else Unknown)
  }

  lemma {:induction false} LossShows(e: Expr, ctx: Context, later: Context, b: bool, chosen: set<Source>)
    requires IsReadOnce(e, ctx) && Fold(e, ctx).Open? && chosen * Sources(e) == Choice(e, ctx, b)
    ensures Shown(e, ctx, later, b, chosen)
    decreases e
  {
    hide IsOperand, HasValue, IsSwitch, RowOf;
    match e
    case AuthBuiltin(name, args) =>
      SwitchValue(name, args, ctx, RowOf(chosen));
    case Unary(_, x) =>
      LossShows(x, ctx, later, !b, chosen);
    case Binary(l, op, r) =>
      if op.IsLogical() {
        JoinShows(l, op, r, ctx, later, b, chosen);
      } else {
        TestShows(l, op, r, ctx, later, b, chosen);
      }
  }

  lemma TestShows(l: Expr, op: BinaryOp, r: Expr, ctx: Context, later: Context, b: bool, chosen: set<Source>)
    requires !op.IsLogical() && IsOperand(l) && HasValue(r, ctx)
    requires chosen * {SourceOf(l)} == if b then {SourceOf(l)} else {}
    ensures Shown(Binary(l, op, r), ctx, later, b, chosen)
  {
    hide IsOperand, HasValue, SourceOf, RowOf, ValidateCall, SpecialBuiltin, BuiltinValue, Membership, DenoteAll;
    var row := RowOf(chosen);
    OperandValue(l, ctx, chosen);
    HasOne(r, ctx, row);
    assert SourceOf(l) in chosen <==> SourceOf(l) in chosen * {SourceOf(l)};
    var e := Binary(l, op, r);
    var shown := if l.Column? then l else Lit(Literal.Null);
    assert Fold(e, ctx) == Open(Binary(l, op, Fold(r, ctx).expr));
    assert Specialize(e, ctx) == Open(Binary(shown, op, Fold(r, ctx).expr));
    assert l.Column? ==> Denote(l, later, row) == Denote(l, ctx, row);
    TestValue(l, shown, op, r, Fold(r, ctx).expr, ctx, later, b, chosen);
  }

  lemma TestValue(l: Expr, shown: Expr, op: BinaryOp, r: Expr, folded: Expr, ctx: Context, later: Context, b: bool,
                  chosen: set<Source>)
    requires !op.IsLogical() && shown == if l.Column? then l else Lit(Literal.Null)
    requires var row := RowOf(chosen);
             && Denote(l, ctx, row) == Some(Number(if b then 1 else 0))
             && (l.Column? ==> Denote(l, later, row) == Denote(l, ctx, row))
             && Denote(r, ctx, row).Some? && !Denote(r, ctx, row).value.Unknown?
             && Denote(folded, later, row) == Denote(r, ctx, row)
    ensures Denote(Binary(l, op, r), ctx, RowOf(chosen)) == Some(Truth(b))
    ensures Denote(Binary(shown, op, folded), later, RowOf(chosen)) == Some(if l.Column? then Truth(b) else Unknown)
  {
    hide RowOf, DenoteAll, PermissionValue, InOrgValue, Membership, BuiltinValue, ValidateCall;
    var v := Denote(r, ctx, RowOf(chosen)).value;
    ComparesChosen(chosen, op, Number(if b then 1 else 0), v);
  }

  lemma ComparesChosen(chosen: set<Source>, op: BinaryOp, a: Value, b: Value)
    ensures RowOf(chosen).compare(op, a, b) <==> a == Number(1)
  {
  }

  lemma SplitSets<T>(chosen: set<T>, sl: set<T>, sr: set<T>, cl: set<T>, cr: set<T>)
    requires sl !! sr && cl <= sl && cr <= sr && chosen * (sl + sr) == cl + cr
    ensures chosen * sl == cl && chosen * sr == cr
  {
    assert forall x | x in chosen * sl :: x in cl + cr;
    assert forall x | x in chosen * sr :: x in cl + cr;
    assert forall x | x in cl :: x in chosen * (sl + sr);
    assert forall x | x in cr :: x in chosen * (sl + sr);
  }

  lemma KnownPart(e: Expr, ctx: Context, chosen: set<Source>)
    requires IsReadOnce(e, ctx) && Fold(e, ctx).Known?
    ensures Specialize(e, ctx) == Fold(e, ctx)
    ensures Denote(e, ctx, RowOf(chosen)) == Some(Truth(Fold(e, ctx).b))
  {
    hide IsReadOnce, Fold, Specialize, Denote, RowOf;
    ReadOnceIsTyped(e, ctx, chosen);
    FoldMeans(e, ctx, RowOf(chosen));
    NothingLostSame(e, ctx);
  }

  /** The value of a join whose two sides are TRUE or FALSE, or NULL where something was lost. */
  lemma JoinedValue(op: BinaryOp, lb: bool, ll: bool, rb: bool, rl: bool, b: bool, row: Row)
    requires op.IsLogical()
    requires if ll then lb == b && rb == (op == And) else lb == (op == And) && rb == b
    ensures BinaryValue(op, Truth(lb), Truth(rb), row) == Some(Truth(b))
    ensures BinaryValue(op, if ll then Unknown else Truth(lb), if rl then Unknown else Truth(rb), row) ==
            Some(if ll || rl then Unknown else Truth(b))
  {
  }

  lemma {:induction false} JoinShows(l: Expr, op: BinaryOp, r: Expr, ctx: Context, later: Context, b: bool,
                                     chosen: set<Source>)
    requires op.IsLogical() && IsReadOnce(Binary(l, op, r), ctx) && Fold(Binary(l, op, r), ctx).Open?
    requires chosen * Sources(Binary(l, op, r)) == Choice(Binary(l, op, r), ctx, b)
    ensures Shown(Binary(l, op, r), ctx, later, b, chosen)
    decreases Binary(l, op, r), 0
  {
    hide RowOf, IsOperand, HasValue, IsSwitch, Shown, NothingLost, Denote;
    if Fold(l, ctx).Known? {
      ChoiceFrom(r, ctx, b);
      SplitSets(chosen, Sources(l), Sources(r), {}, Choice(r, ctx, b));
      LossShows(r, ctx, later, b, chosen);
      OneKnown(l, op, r, ctx, later, b, chosen);
    } else if Fold(r, ctx).Known? {
      ChoiceFrom(l, ctx, b);
      SplitSets(chosen, Sources(l), Sources(r), Choice(l, ctx, b), {});
      LossShows(l, ctx, later, b, chosen);
      OneKnown(l, op, r, ctx, later, b, chosen);
    } else {
      var lost := !NothingLost(l, ctx);
      var lb, rb := if lost then b else op == And, if lost then op == And else b;
      ChoiceFrom(l, ctx, lb);
      ChoiceFrom(r, ctx, rb);
      SplitSets(chosen, Sources(l), Sources(r), Choice(l, ctx, lb), Choice(r, ctx, rb));
      LossShows(l, ctx, later, lb, chosen);
      LossShows(r, ctx, later, rb, chosen);
      BothOpen(l, op, r, ctx, later, lb, rb, b, chosen);
    }
  }

  lemma OneKnown(l: Expr, op: BinaryOp, r: Expr, ctx: Context, later: Context, b: bool, chosen: set<Source>)
    requires op.IsLogical() && IsReadOnce(l, ctx) && IsReadOnce(r, ctx) && Fold(Binary(l, op, r), ctx).Open?
    requires if Fold(l, ctx).Known? then Shown(r, ctx, later, b, chosen)
             else Fold(r, ctx).Known? && Shown(l, ctx, later, b, chosen)
    ensures Shown(Binary(l, op, r), ctx, later, b, chosen)
  {
    hide RowOf, IsReadOnce, ValidateCall, SpecialBuiltin, BuiltinValue, Membership, DenoteAll;
    if Fold(l, ctx).Known? {
      KnownPart(l, ctx, chosen);
    } else {
      KnownPart(r, ctx, chosen);
    }
  }

  lemma BothOpen(l: Expr, op: BinaryOp, r: Expr, ctx: Context, later: Context, lb: bool, rb: bool, b: bool,
                 chosen: set<Source>)
    requires op.IsLogical() && Fold(l, ctx).Open? && Fold(r, ctx).Open?
    requires Shown(l, ctx, later, lb, chosen) && Shown(r, ctx, later, rb, chosen)
    requires if NothingLost(l, ctx) then lb == (op == And) && rb == b else lb == b && rb == (op == And)
    ensures Shown(Binary(l, op, r), ctx, later, b, chosen)
  {
    hide RowOf;
    JoinedValue(op, lb, !NothingLost(l, ctx), rb, !NothingLost(r, ctx), b, RowOf(chosen));
    var e := Binary(l, op, r);
    assert Fold(e, ctx) == Open(Binary(Fold(l, ctx).expr, op, Fold(r, ctx).expr));
    assert Specialize(e, ctx) == Open(Binary(Specialize(l, ctx).expr, op, Specialize(r, ctx).expr));
    assert NothingLost(e, ctx) <==> NothingLost(l, ctx) && NothingLost(r, ctx);
  }

  lemma {:induction false} ReadOnceIsEmittable(e: Expr, ctx: Context)
    requires IsReadOnce(e, ctx)
    ensures Emittable(e, ctx)
    decreases e
  {
    hide HasValue, IsOperand, IsSwitch, Sources, Specialize;
    match e
    case Unary(_, x) =>
      ReadOnceIsEmittable(x, ctx);
    case Binary(l, op, r) =>
      if op.IsLogical() {
        ReadOnceIsEmittable(l, ctx);
        ReadOnceIsEmittable(r, ctx);
      } else {
        LeavesEmittable(l, r, ctx);
      }
    case AuthBuiltin(name, args) =>
      SwitchEmittable(name, args, ctx);
    case Lit(_) =>
  }

  lemma LeavesEmittable(l: Expr, r: Expr, ctx: Context)
    requires IsOperand(l) && HasValue(r, ctx)
    ensures Emittable(l, ctx) && Emittable(r, ctx)
  {
    hide BUILTIN_NAMES;
    if l.AuthBuiltin? {
      Unvalidated(l.builtin, |l.args|);
    }
  }

  lemma SwitchEmittable(name: string, args: seq<Expr>, ctx: Context)
    requires IsSwitch(name, args)
    ensures Emittable(AuthBuiltin(name, args), ctx)
  {
  }

  /**
   A policy in which every test counts keeps its meaning on all rows exactly when evaluation
   reaches no function of the database. Otherwise there is a row on which the policy is TRUE
   and its result is NULL, so that the row is lost.
   */
  lemma ReadOnceKeptIff(e: Expr, ctx: Context, later: Context)
    requires Printable(e, true) && IsReadOnce(e, ctx) && ctx.IdsHaveNoQuote()
    ensures AlwaysKept(e, ctx, later) <==> NothingLost(e, ctx)
    ensures !NothingLost(e, ctx) ==>
            exists row: Row :: Denote(e, ctx, row) == Some(Truth(true)) &&
                               ResultValue(Evaluate(e, ctx), later, row) == Some(Unknown)
  {
    hide Printable, IsReadOnce, Fold, Specialize, Evaluate, RowOf, Parse;
    var chosen := Choice(e, ctx, true);
    ReadOnceIsTyped(e, ctx, chosen);
    if NothingLost(e, ctx) {
      forall row: Row | Denote(e, ctx, row).Some?
        ensures MeaningKept(e, ctx, later, row)
      {
        EvaluationKeepsMeaning(e, ctx, later, row);
      }
    } else {
      ChoiceFrom(e, ctx, true);
      assert chosen * Sources(e) == chosen;
      LossShows(e, ctx, later, true, chosen);
      ReadOnceIsEmittable(e, ctx);
      EvaluationShows(EmittedSql, e, ctx);
      ShownValue(Evaluate(e, ctx), Specialize(e, ctx), later, RowOf(chosen));
      assert ResultValue(Evaluate(e, ctx), later, RowOf(chosen)) == Some(Unknown);
      assert !MeaningKept(e, ctx, later, RowOf(chosen));
    }
  }
}
