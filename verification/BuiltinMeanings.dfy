/**
 What the single constructs mean and what is emitted for them, spelled out: the auth
 builtins, the truth tables of three-valued logic, and the texts of leaves.
 */
module BuiltinMeanings {
  import opened Options
  import opened PolicyAst
  import opened AsciiText
  import opened Builtins
  import opened PolicyContext
  import opened PolicyEval
  import opened Semantics
  import opened Grammar
  import Pieces
  import Forms

  function Call(name: string): Expr {
    AuthBuiltin(name, [])
  }

  // The auth builtins

  /** Each builtin without arguments: an id between quotes, NULL where the request has none; the role is not known. */
  lemma EmittedForBuiltins(ctx: Context)
    ensures Evaluate(Call("user_id"), ctx) ==
            Residual(match ctx.userId case Some(id) => "'" + id + "'" case None => "NULL")
    ensures Evaluate(Call("org_id"), ctx) ==
            Residual(match ctx.orgId case Some(id) => "'" + id + "'" case None => "NULL")
    ensures Evaluate(Call("session_id"), ctx) ==
            Residual(match ctx.sessionId case Some(id) => "'" + id + "'" case None => "NULL")
    ensures Evaluate(Call("role"), ctx) == Residual("NULL")
    ensures Evaluate(Call("is_authenticated"), ctx) == Const(ctx.userId.Some?)
  {
    hide Quoted;
    QuotedText(ctx.userId);
    QuotedText(ctx.orgId);
    QuotedText(ctx.sessionId);
  }

  lemma QuotedText(value: Option<string>)
    ensures Quoted(value) == Residual(match value case Some(s) => "'" + s + "'" case None => "NULL")
  {
  }

  /** An email is the one text of the request whose quotes are doubled. */
  lemma EmittedForEmail(ctx: Context, start: string, end: string)
    requires '\'' !in start && '\'' !in end
    ensures ctx.email == None ==> Evaluate(Call("email"), ctx) == Residual("NULL")
    ensures ctx.email == Some(start) ==> Evaluate(Call("email"), ctx) == Residual("'" + start + "'")
    ensures ctx.email == Some(start + "'" + end) ==>
              Evaluate(Call("email"), ctx) == Residual("'" + start + "''" + end + "'")
  {
    hide Escape;
    Forms.EscapeForm(start, end);
    Forms.EscapeForm(end, "");
    assert start + "'" + end == start + ("'" + end);
    assert "'" + (start + ("''" + end)) + "'" == "'" + start + "''" + end + "'";
  }

  /** What each builtin means: the request's own text, or NULL where it has none. */
  lemma MeantByBuiltins(ctx: Context, row: Row)
    ensures Denote(Call("user_id"), ctx, row) ==
            Some(match ctx.userId case Some(id) => Text(id) case None => Unknown)
    ensures Denote(Call("org_id"), ctx, row) ==
            Some(match ctx.orgId case Some(id) => Text(id) case None => Unknown)
    ensures Denote(Call("session_id"), ctx, row) ==
            Some(match ctx.sessionId case Some(id) => Text(id) case None => Unknown)
    ensures Denote(Call("email"), ctx, row) ==
            Some(match ctx.email case Some(address) => Text(address) case None => Unknown)
    ensures Denote(Call("role"), ctx, row) ==
            Some(match ctx.role case Some(name) => Text(name) case None => Unknown)
    ensures Denote(Call("is_authenticated"), ctx, row) == Some(Truth(ctx.userId.Some?))
  {
  }

  /** The request's value of an id builtin. */
  predicate IdOf(name: string, ctx: Context, id: Option<string>) {
    || (name == "user_id" && id == ctx.userId)
    || (name == "org_id" && id == ctx.orgId)
    || (name == "session_id" && id == ctx.sessionId)
  }

  /**
   An id builtin from policy text to its value: the text is the call, what is emitted is the
   id between quotes, this is read back as the id, and the id is what the call means. A
   request without the id gets NULL all the way.
   */
  lemma IdsEndToEnd(name: string, ctx: Context, id: Option<string>, later: Context, row: Row)
    requires IdOf(name, ctx, id) && (id.Some? ==> '\'' !in id.value)
    ensures Parse(StoredText, "auth." + name + "()") == Success(Call(name))
    ensures var sql := if id.Some? then "'" + id.value + "'" else "NULL";
            && Evaluate(Call(name), ctx) == Residual(sql)
            && Parse(EmittedSql, sql).Success?
            && Denote(Parse(EmittedSql, sql).expr, later, row) == Denote(Call(name), ctx, row)
            && Denote(Call(name), ctx, row) == Some(if id.Some? then Text(id.value) else Unknown)
  {
    hide Parse, Pieces.Piece;
    IdCall(name, ctx, id);
    EmittedForBuiltins(ctx);
    MeantByBuiltins(ctx, row);
    if id.Some? {
      Forms.StringForms(EmittedSql, id.value, "");
      Pieces.PieceParses(EmittedSql, "'" + id.value + "'", Lit(String(id.value)));
    } else {
      Forms.LiteralForms(EmittedSql);
      Pieces.PieceParses(EmittedSql, "NULL", Lit(Null));
    }
  }

  lemma IdCall(name: string, ctx: Context, id: Option<string>)
    requires IdOf(name, ctx, id)
    ensures Parse(StoredText, "auth." + name + "()") == Success(Call(name))
  {
    hide Parse, Pieces.Piece;
    assert Forms.Name(name) && Forms.NoArguments(name);
    Forms.AuthForms(StoredText, "auth", name, [], []);
    assert "auth" + "." + name + "(" + Join([], ", ") + ")" == "auth." + name + "()";
    Pieces.PieceParses(StoredText, "auth." + name + "()", Call(name));
  }

  /** A request is authenticated exactly when it has a user: the two tests have one value in every context. */
  lemma AuthenticatedIffUser(ctx: Context, row: Row)
    ensures Denote(Call("is_authenticated"), ctx, row) == Denote(IsNull(Call("user_id"), true), ctx, row)
    ensures Denote(Unary(Not, Call("is_authenticated")), ctx, row) == Denote(IsNull(Call("user_id"), false), ctx, row)
  {
  }

  /** has_permission on a literal is decided at once, by what is held. */
  lemma PermissionDecided(ctx: Context, row: Row, words: seq<string>)
    requires ColonFree(words)
    ensures var ask := AuthBuiltin("has_permission", [Lit(String(Unsegment(words)))]);
            var granted := "*" in ctx.permissions ||
                           exists p :: Generalises(p, words) && Unsegment(p) in ctx.permissions;
            Evaluate(ask, ctx) == Const(granted) && Denote(ask, ctx, row) == Some(Truth(granted))
  {
    hide Unsegment, ColonFree, Generalises, Grants;
    GrantedIff(ctx, words);
    var ask := AuthBuiltin("has_permission", [Lit(String(Unsegment(words)))]);
    assert ValidateCall("has_permission", 1).Valid?;
    assert Denote(ask.args[0], ctx, row) == Some(Text(Unsegment(words)));
  }

  /** in_org compares a column with the active organisation; without one it is false. */
  lemma InOrgDecided(ctx: Context, row: Row, column: string)
    ensures var ask := AuthBuiltin("in_org", [Column(column)]);
            match ctx.orgId
            case None =>
              && Evaluate(ask, ctx) == Const(false)
              && (!row.column(column).Truth? ==> Denote(ask, ctx, row) == Some(Truth(false)))
            case Some(org) =>
              && Evaluate(ask, ctx) == Residual("(" + "\"" + column + "\"" + " = '" + org + "')")
              && (Denote(ask, ctx, row) == Some(Truth(true)) <==>
                  row.column(column) != Unknown && !row.column(column).Truth? &&
                  row.compare(Eq, row.column(column), Text(org)))
  {
    assert ValidateCall("in_org", 1).Valid?;
    var ask := AuthBuiltin("in_org", [Column(column)]);
    assert Denote(ask.args[0], ctx, row) == Some(row.column(column));
  }

  // The texts of leaves

  lemma EmittedForLeaves(ctx: Context, table: string, column: string)
    ensures Evaluate(Column(column), ctx) == Residual("\"" + column + "\"")
    ensures Evaluate(QualifiedColumn(table, column), ctx) == Residual("\"" + table + "\".\"" + column + "\"")
    ensures Evaluate(DomainBuiltin(table, column, []), ctx) == Residual(table + "." + column)
    ensures Evaluate(Lit(Null), ctx) == Residual("NULL")
    ensures Evaluate(Lit(Bool(true)), ctx) == Const(true) && Evaluate(Lit(Bool(false)), ctx) == Const(false)
  {
  }

  /** Numbers are emitted in decimal, most significant digit first, with a minus sign if negative. */
  lemma EmittedForNumbers(ctx: Context, n: nat, k: nat, negative: int)
    requires n > 0 && k < 10 && negative < 0
    ensures Evaluate(Lit(Int(k)), ctx) == Residual(["0123456789"[k]])
    ensures Evaluate(Lit(Int(10 * n + k)), ctx) == Residual(Evaluate(Lit(Int(n)), ctx).sql + ["0123456789"[k]])
    ensures Evaluate(Lit(Int(negative)), ctx) == Residual("-" + Evaluate(Lit(Int(-negative)), ctx).sql)
  {
    hide Numeral;
    assert DigitChar(k) == "0123456789"[k];
    NumeralForms(n, k);
  }

  lemma NumeralForms(n: nat, k: nat)
    requires n > 0 && k < 10
    ensures Numeral(k) == [DigitChar(k)]
    ensures Numeral(10 * n + k) == Numeral(n) + [DigitChar(k)]
  {
    hide NumeralValue, AllDigits, DigitChar;
    assert (10 * n + k) / 10 == n && (10 * n + k) % 10 == k;
  }

  /** A float is shown without trailing zeros, and without a trailing dot. */
  lemma EmittedForFloats(ctx: Context, whole: string, fraction: string)
    requires '.' !in whole && '.' !in fraction && fraction != "" && fraction[|fraction| - 1] != '0'
    ensures Evaluate(Lit(Float(whole + "." + fraction)), ctx) == Residual(whole + "." + fraction)
    ensures Evaluate(Lit(Float(whole + "." + fraction + "0")), ctx) == Residual(whole + "." + fraction)
    ensures Evaluate(Lit(Float(whole + ".0")), ctx) == Residual(whole)
  {
    hide FloatText;
    var s := whole + "." + fraction;
    assert s[|s| - 1] == fraction[|fraction| - 1] && s[|whole|] == '.';
    assert fraction[|fraction| - 1] in fraction;
    FloatKept(s);
    ZeroDropped(s);
    assert whole + ".0" == whole + "." + "0";
    DotDropped(whole);
    assert (whole + ".")[|whole|] == '.';
    ZeroDropped(whole + ".");
  }

  lemma FloatKept(s: string)
    requires s != "" && s[|s| - 1] != '0' && s[|s| - 1] != '.'
    ensures FloatText(s) == s
  {
  }

  lemma ZeroDropped(s: string)
    requires '.' in s
    ensures FloatText(s + "0") == FloatText(s)
  {
    assert (s + "0")[..|s|] == s;
    var i :| 0 <= i < |s| && s[i] == '.';
    assert (s + "0")[i] == '.';
  }

  lemma DotDropped(s: string)
    ensures FloatText(s + ".") == s
  {
    assert (s + ".")[..|s|] == s;
  }

  // Three-valued logic

  /** AND is TRUE if both are, FALSE if either is, and else unknown; OR the other way round. */
  lemma AndOrTable(l: Expr, r: Expr, ctx: Context, row: Row)
    requires Denote(l, ctx, row).Some? && Denote(l, ctx, row).value.IsLogical()
    requires Denote(r, ctx, row).Some? && Denote(r, ctx, row).value.IsLogical()
    ensures var a, b := Denote(l, ctx, row), Denote(r, ctx, row);
            var both, either := Denote(Binary(l, And, r), ctx, row), Denote(Binary(l, Or, r), ctx, row);
            var T, F, U := Some(Truth(true)), Some(Truth(false)), Some(Unknown);
            && (both == T <==> a == T && b == T)
            && (both == F <==> a == F || b == F)
            && (both == U <==> (a == U && b != F) || (b == U && a != F))
            && (either == T <==> a == T || b == T)
            && (either == F <==> a == F && b == F)
            && (either == U <==> (a == U && b != T) || (b == U && a != T))
  {
  }

  lemma NotTable(e: Expr, ctx: Context, row: Row)
    requires Denote(e, ctx, row).Some? && Denote(e, ctx, row).value.IsLogical()
    ensures var a, negated := Denote(e, ctx, row), Denote(Unary(Not, e), ctx, row);
            && (negated == Some(Truth(true)) <==> a == Some(Truth(false)))
            && (negated == Some(Truth(false)) <==> a == Some(Truth(true)))
            && (negated == Some(Unknown) <==> a == Some(Unknown))
  {
  }

  /** A test for NULL is never unknown; any other comparison with NULL is. */
  lemma NullTable(l: Expr, op: BinaryOp, r: Expr, ctx: Context, row: Row)
    requires Denote(l, ctx, row).Some? && Denote(r, ctx, row).Some? && !op.IsLogical()
    ensures var a, b := Denote(l, ctx, row).value, Denote(r, ctx, row).value;
            && Denote(IsNull(l, false), ctx, row) == Some(Truth(a == Unknown))
            && Denote(IsNull(l, true), ctx, row) == Some(Truth(a != Unknown))
            && Denote(Binary(l, op, r), ctx, row) ==
               Some(if a == Unknown || b == Unknown then Unknown else Truth(row.compare(op, a, b)))
  {
  }

  /** IN is TRUE if some item equals the value, FALSE if all differ, and else unknown; NOT IN is its negation. */
  lemma InTable(x: Expr, list: seq<Expr>, ctx: Context, row: Row)
    requires Denote(x, ctx, row).Some?
    requires forall i | 0 <= i < |list| :: Denote(list[i], ctx, row).Some?
    ensures var isIn, notIn := Denote(InList(x, list, false), ctx, row), Denote(InList(x, list, true), ctx, row);
            && (isIn == Some(Truth(true)) <==> exists i :: 0 <= i < |list| && ComparesTo(x, list[i], true, ctx, row))
            && (isIn == Some(Truth(false)) <==> forall i | 0 <= i < |list| :: ComparesTo(x, list[i], false, ctx, row))
            && (isIn != Some(Truth(true)) && isIn != Some(Truth(false)) ==>
                  isIn == Some(Unknown) && notIn == Some(Unknown))
            && (notIn == Some(Truth(true)) <==> isIn == Some(Truth(false)))
            && (notIn == Some(Truth(false)) <==> isIn == Some(Truth(true)))
  {
    hide In3, Compares;
    var a, vs := Denote(x, ctx, row).value, DenoteAll(list, ctx, row).value;
    assert Denote(InList(x, list, false), ctx, row) == Some(In3(row, a, vs));
    assert Denote(InList(x, list, true), ctx, row) == Some(Not3(In3(row, a, vs)));
    InIs(a, vs, row);
    SameItems(x, list, ctx, row);
  }

  lemma SameItems(x: Expr, list: seq<Expr>, ctx: Context, row: Row)
    requires Denote(x, ctx, row).Some?
    requires forall i | 0 <= i < |list| :: Denote(list[i], ctx, row).Some?
    ensures DenoteAll(list, ctx, row).Some?
    ensures forall i, b | 0 <= i < |list| ::
              ComparesTo(x, list[i], b, ctx, row) <==>
              Compares(Denote(x, ctx, row).value, DenoteAll(list, ctx, row).value[i], b, row)
  {
    hide Denote, DenoteAll, Compares;
  }

  /** Both values are known, and the database says that they are equal, or that they are not. */
  predicate ComparesTo(x: Expr, item: Expr, equal: bool, ctx: Context, row: Row)
    requires Denote(x, ctx, row).Some? && Denote(item, ctx, row).Some?
  {
    Compares(Denote(x, ctx, row).value, Denote(item, ctx, row).value, equal, row)
  }

  predicate Compares(a: Value, b: Value, equal: bool, row: Row) {
    a != Unknown && b != Unknown && row.compare(Eq, a, b) == equal
  }

  lemma {:induction false} InIs(a: Value, vs: seq<Value>, row: Row)
    ensures In3(row, a, vs) == Truth(true) <==> exists i :: 0 <= i < |vs| && Compares(a, vs[i], true, row)
    ensures In3(row, a, vs) == Truth(false) <==> forall i | 0 <= i < |vs| :: Compares(a, vs[i], false, row)
    decreases |vs|
  {
    if vs != [] {
      var n := |vs| - 1;
      InIs(a, vs[..n], row);
      assert forall i | 0 <= i < n :: vs[..n][i] == vs[i];
      assert (exists i :: 0 <= i < n && Compares(a, vs[..n][i], true, row)) ==>
        exists i :: 0 <= i < |vs| && Compares(a, vs[i], true, row);
      assert Compares(a, vs[n], true, row) ==> exists i :: 0 <= i < |vs| && Compares(a, vs[i], true, row);
    }
  }
}
