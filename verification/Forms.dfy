/**
 What policy text must look like, form by form and letter by letter. Each lemma gives the
 text and the tree it is read as, whatever text of the same level follows.
 */
module Forms {
  import opened PolicyAst
  import opened AsciiText
  import opened Builtins
  import opened Lexing
  import opened Grammar
  import opened Reading
  import opened Atoms
  import opened Pieces

  /** The text is read as the tree by its level of the grammar, in front of all text that may follow that level. */
  ghost predicate At(level: Level, d: Dialect, s: string, e: Expr) {
    forall rest | Stops(level, rest) :: Reads(level, d, s, e, rest)
  }

  lemma WholeParses(d: Dialect, s: string, e: Expr)
    requires At(OrLevel, d, s, e)
    ensures Parse(d, s) == Success(e)
  {
    assert Stops(OrLevel, "");
    assert Reads(OrLevel, d, s, e, "");
    OrStops(d, e, "");
    assert s + "" == s;
  }

  lemma PieceAnywhere(d: Dialect, s: string, e: Expr, level: Level)
    requires Piece(d, s, e)
    ensures At(level, d, s, e)
  {
    hide Reads, Piece, Stops;
    forall rest | Stops(level, rest)
      ensures Reads(level, d, s, e, rest)
    {
      PieceAt(d, s, e, level, rest);
    }
  }

  lemma Lift(d: Dialect, s: string, e: Expr, from: Level, to: Level)
    requires At(from, d, s, e) && from != PrimaryLevel && to.Rank() <= from.Rank()
    ensures At(to, d, s, e)
  {
    hide Reads, Stops;
    forall rest | Stops(to, rest)
      ensures Reads(to, d, s, e, rest)
    {
      StopsWeaken(rest, to, from);
      Climb(d, s, e, rest, from, to);
    }
  }

  /** OR groups to the left and binds weakest. */
  lemma OrForm(d: Dialect, a: string, l: Expr, b: string, r: Expr)
    requires At(OrLevel, d, a, l) && At(AndLevel, d, b, r)
    ensures At(OrLevel, d, a + " OR " + b, Binary(l, Or, r))
  {
    hide Reads, Stops;
    forall rest | Stops(OrLevel, rest)
      ensures Reads(OrLevel, d, a + " OR " + b, Binary(l, Or, r), rest)
    {
      LogicStops(b + rest);
      assert " OR " + b + rest == " OR " + (b + rest);
      StopsWeaken(rest, OrLevel, AndLevel);
      assert Reads(OrLevel, d, a, l, " OR " + b + rest);
      Ored(d, a, l, b, r, rest);
    }
  }

  /** AND groups to the left and binds more strongly than OR. */
  lemma AndForm(d: Dialect, a: string, l: Expr, b: string, r: Expr)
    requires At(AndLevel, d, a, l) && At(NotLevel, d, b, r)
    ensures At(AndLevel, d, a + " AND " + b, Binary(l, And, r))
  {
    hide Reads, Stops;
    forall rest | Stops(AndLevel, rest)
      ensures Reads(AndLevel, d, a + " AND " + b, Binary(l, And, r), rest)
    {
      LogicStops(b + rest);
      assert " AND " + b + rest == " AND " + (b + rest);
      StopsWeaken(rest, AndLevel, NotLevel);
      assert Reads(AndLevel, d, a, l, " AND " + b + rest);
      Anded(d, a, l, b, r, rest);
    }
  }

  /** NOT binds more strongly than AND and takes in a whole comparison. */
  lemma NotForm(d: Dialect, a: string, x: Expr)
    requires At(NotLevel, d, a, x)
    ensures At(NotLevel, d, "NOT " + a, Unary(Not, x))
  {
    hide Reads, Stops;
    forall rest | Stops(NotLevel, rest)
      ensures Reads(NotLevel, d, "NOT " + a, Unary(Not, x), rest)
    {
      NegatedWord(d, a, x, rest);
    }
  }

  lemma CompareForm(d: Dialect, a: string, l: Expr, sign: string, op: BinaryOp, b: string, r: Expr)
    requires Piece(d, a, l) && Piece(d, b, r) && Signs(sign, op)
    ensures At(NotLevel, d, a + " " + sign + " " + b, Binary(l, op, r))
  {
    hide Reads, Piece, Stops, NotNegated, Signs;
    forall rest | Stops(NotLevel, rest)
      ensures Reads(NotLevel, d, a + " " + sign + " " + b, Binary(l, op, r), rest)
    {
      OperatorStops(sign, op, b + rest);
      var tail := " " + sign + " " + b + rest;
      assert tail == " " + sign + " " + (b + rest);
      StopsWeaken(rest, NotLevel, PrimaryLevel);
      PieceAt(d, a, l, PrimaryLevel, tail);
      PieceAt(d, b, r, PrimaryLevel, rest);
      Compared(d, a, l, sign, op, b, r, rest);
    }
  }

  /** The comparison operators between any two primaries. */
  lemma ComparisonForms(d: Dialect, a: string, l: Expr, b: string, r: Expr)
    requires Piece(d, a, l) && Piece(d, b, r)
    ensures At(NotLevel, d, a + " = " + b, Binary(l, Eq, r))
    ensures At(NotLevel, d, a + " <> " + b, Binary(l, NotEq, r))
    ensures At(NotLevel, d, a + " != " + b, Binary(l, NotEq, r))
    ensures At(NotLevel, d, a + " < " + b, Binary(l, Lt, r))
    ensures At(NotLevel, d, a + " <= " + b, Binary(l, LtEq, r))
    ensures At(NotLevel, d, a + " > " + b, Binary(l, Gt, r))
    ensures At(NotLevel, d, a + " >= " + b, Binary(l, GtEq, r))
    ensures At(NotLevel, d, a + " LIKE " + b, Binary(l, Like, r))
    ensures At(NotLevel, d, a + " ILIKE " + b, Binary(l, ILike, r))
  {
    hide Piece, At;
    SignForm(d, a, l, "=", " = ", Eq, b, r);
    SignForm(d, a, l, "<>", " <> ", NotEq, b, r);
    SignForm(d, a, l, "!=", " != ", NotEq, b, r);
    SignForm(d, a, l, "<", " < ", Lt, b, r);
    SignForm(d, a, l, "<=", " <= ", LtEq, b, r);
    SignForm(d, a, l, ">", " > ", Gt, b, r);
    SignForm(d, a, l, ">=", " >= ", GtEq, b, r);
    SignForm(d, a, l, "LIKE", " LIKE ", Like, b, r);
    SignForm(d, a, l, "ILIKE", " ILIKE ", ILike, b, r);
  }

  lemma SignForm(d: Dialect, a: string, l: Expr, sign: string, spaced: string, op: BinaryOp, b: string, r: Expr)
    requires Piece(d, a, l) && Piece(d, b, r) && Signs(sign, op) && spaced == " " + sign + " "
    ensures At(NotLevel, d, a + spaced + b, Binary(l, op, r))
  {
    hide Piece, At, Signs;
    CompareForm(d, a, l, sign, op, b, r);
    assert a + spaced + b == a + " " + sign + " " + b;
  }

  /** Tests on a primary, a minus, and parentheses. */
  lemma TestForms(d: Dialect, a: string, x: Expr)
    requires Piece(d, a, x)
    ensures At(NotLevel, d, a + " IS NULL", IsNull(x, false))
    ensures At(NotLevel, d, a + " IS NOT NULL", IsNull(x, true))
    ensures Piece(d, "-" + a, Unary(Minus, x))
    ensures Piece(d, "(" + a + ")", x)
  {
    NullForm(d, a, x, false);
    NullForm(d, a, x, true);
    MinusForm(d, a, x);
    GroupForm(d, a, x, PrimaryLevel);
  }

  lemma NullForm(d: Dialect, a: string, x: Expr, negated: bool)
    requires Piece(d, a, x)
    ensures At(NotLevel, d, a + (if negated then " IS NOT NULL" else " IS NULL"), IsNull(x, negated))
  {
    hide Reads, Piece, Stops, NotNegated;
    var test := if negated then " IS NOT NULL" else " IS NULL";
    forall rest | Stops(NotLevel, rest)
      ensures Reads(NotLevel, d, a + test, IsNull(x, negated), rest)
    {
      StopsEnds(NotLevel, rest);
      TestStops(negated, rest);
      PieceAt(d, a, x, PrimaryLevel, test + rest);
      NullTested(d, a, x, negated, rest);
    }
  }

  lemma MinusForm(d: Dialect, a: string, x: Expr)
    requires Piece(d, a, x)
    ensures Piece(d, "-" + a, Unary(Minus, x))
  {
    hide Reads, NotNegated, EndsPrimary;
    forall rest | EndsPrimary(rest)
      ensures Reads(PrimaryLevel, d, "-" + a, Unary(Minus, x), rest) && NotNegated("-" + a + rest)
    {
      Minused(d, a, x, rest);
    }
  }

  lemma GroupForm(d: Dialect, s: string, e: Expr, level: Level)
    requires if level == PrimaryLevel then Piece(d, s, e) else At(level, d, s, e)
    ensures Piece(d, "(" + s + ")", e)
  {
    hide Reads, Piece, Stops, StopsExpr;
    if level == PrimaryLevel {
      PieceAnywhere(d, s, e, OrLevel);
    } else {
      Lift(d, s, e, level, OrLevel);
    }
    forall rest | StopsExpr(rest)
      ensures Reads(OrLevel, d, s, e, rest)
    {
      ExprStops(rest);
    }
    Enclosed(d, s, e);
  }

  // Lists and calls

  /** The separator stands between neighbours, and the order is kept. */
  lemma {:induction false} JoinFront(parts: seq<string>, separator: string)
    requires |parts| > 1
    ensures Join(parts, separator) == parts[0] + separator + Join(parts[1..], separator)
    decreases |parts|
  {
    var n := |parts| - 1;
    if n > 1 {
      JoinFront(parts[..n], separator);
      assert parts[..n][1..] == parts[1..][..n - 1];
      assert Join(parts[1..], separator) == Join(parts[1..][..n - 1], separator) + separator + parts[n];
    }
  }

  lemma ListForm(d: Dialect, a: string, x: Expr, parts: seq<string>, list: seq<Expr>, negated: bool)
    requires Piece(d, a, x) && |parts| == |list|
    requires forall i | 0 <= i < |list| :: Piece(d, parts[i], list[i])
    ensures At(NotLevel, d, a + (if negated then " NOT IN (" else " IN (") + Join(parts, ", ") + ")",
               InList(x, list, negated))
  {
    hide Reads, Piece, Stops, StopsExpr, NotNegated;
    var open := if negated then " NOT IN (" else " IN (";
    var items := Join(parts, ", ");
    PiecesRead(d, parts, list);
    forall rest | Stops(NotLevel, rest)
      ensures Reads(NotLevel, d, a + open + items + ")", InList(x, list, negated), rest)
    {
      TestStops(negated, items + ")" + rest);
      assert open + items + ")" + rest == open + (items + ")" + rest);
      PieceAt(d, a, x, PrimaryLevel, open + items + ")" + rest);
      ListRead(d, parts, list, rest);
      Listed(d, a, x, negated, items, list, rest);
    }
  }

  /** Lists of no, one and two items; `ListForm` and `JoinFront` give longer ones. */
  lemma ListForms(d: Dialect, a: string, x: Expr, b: string, r: Expr, c: string, s: Expr)
    requires Piece(d, a, x) && Piece(d, b, r) && Piece(d, c, s)
    ensures At(NotLevel, d, a + " IN ()", InList(x, [], false))
    ensures At(NotLevel, d, a + " IN (" + b + ")", InList(x, [r], false))
    ensures At(NotLevel, d, a + " IN (" + b + ", " + c + ")", InList(x, [r, s], false))
    ensures At(NotLevel, d, a + " NOT IN (" + b + ", " + c + ")", InList(x, [r, s], true))
  {
    hide Piece, At;
    ListForm(d, a, x, [], [], false);
    ListForm(d, a, x, [b], [r], false);
    ListForm(d, a, x, [b, c], [r, s], false);
    ListForm(d, a, x, [b, c], [r, s], true);
    assert a + " IN (" + Join([], ", ") + ")" == a + " IN ()";
    JoinTwo(b, c);
    assert a + " IN (" + Join([b, c], ", ") + ")" == a + " IN (" + b + ", " + c + ")";
    assert a + " NOT IN (" + Join([b, c], ", ") + ")" == a + " NOT IN (" + b + ", " + c + ")";
  }

  lemma JoinTwo(b: string, c: string)
    ensures Join([b, c], ", ") == b + ", " + c
  {
    assert [b, c][..1] == [b];
  }

  /** A letter or underscore, then letters, underscores and digits. */
  predicate Name(s: string) {
    && s != ""
    && !('0' <= s[0] <= '9')
    && forall i | 0 <= i < |s| ::
         'a' <= s[i] <= 'z' || 'A' <= s[i] <= 'Z' || s[i] == '_' || '0' <= s[i] <= '9'
  }

  lemma NameIsIdent(s: string)
    ensures Name(s) <==> IsIdent(s)
  {
  }

  lemma ArgumentsRead(d: Dialect, parts: seq<string>, args: seq<Expr>, rest: string)
    requires |parts| == |args|
    requires forall i | 0 <= i < |args| :: At(OrLevel, d, parts[i], args[i])
    ensures ParseArgs(d, Join(parts, ", ") + ")" + rest) == Ok(args, rest)
  {
    hide Reads, StopsExpr, Stops;
    forall i, after | 0 <= i < |args| && StopsExpr(after)
      ensures Reads(OrLevel, d, parts[i], args[i], after)
    {
      ExprStops(after);
      assert At(OrLevel, d, parts[i], args[i]);
    }
    ArgsRead(d, parts, args, rest);
  }

  /** The words that are never the name of a column. */
  predicate Taken(name: string) {
    AnyCase(name, "TRUE") || AnyCase(name, "FALSE") || AnyCase(name, "NULL") || AnyCase(name, "NOT")
  }

  lemma TakenIff(name: string)
    ensures Taken(name) <==> IsLiteralWord(name) || IsNot(name)
  {
    hide AnyCase, EqIgnoreCase;
    AnyCaseIff(name, "TRUE");
    AnyCaseIff(name, "FALSE");
    AnyCaseIff(name, "NULL");
    AnyCaseIff(name, "NOT");
  }

  /** A name is a column, unless it is a literal or NOT, in any case. */
  lemma ColumnForm(d: Dialect, name: string)
    requires Name(name) && !Taken(name)
    ensures Piece(d, name, Column(name))
  {
    hide Reads, NotNegated, EndsPrimary, Taken, Name, IsIdent, IsLiteralWord, IsNot;
    NameIsIdent(name);
    TakenIff(name);
    forall rest | EndsPrimary(rest)
      ensures Reads(PrimaryLevel, d, name, Column(name), rest) && NotNegated(name + rest)
    {
      ColumnReads(d, name, rest);
    }
  }

  /** The words before a dot that start a domain builtin, in any case. */
  predicate DomainWord(name: string) {
    || AnyCase(name, "OBJECT") || AnyCase(name, "BUCKET") || AnyCase(name, "ROW")
    || AnyCase(name, "TABLE") || AnyCase(name, "CONNECT")
  }

  lemma SameLower(a: string, b: string, c: string)
    requires EqIgnoreCase(b, c)
    ensures EqIgnoreCase(a, b) <==> EqIgnoreCase(a, c)
  {
  }

  lemma DomainWordIff(name: string)
    ensures DomainWord(name) <==> IsDomain(name)
  {
    hide AnyCase;
    AnyCaseIff(name, "OBJECT");
    AnyCaseIff(name, "BUCKET");
    AnyCaseIff(name, "ROW");
    AnyCaseIff(name, "TABLE");
    AnyCaseIff(name, "CONNECT");
    DomainsInCapitals();
    SameLower(name, "OBJECT", DOMAINS[0]);
    SameLower(name, "BUCKET", DOMAINS[1]);
    SameLower(name, "ROW", DOMAINS[2]);
    SameLower(name, "TABLE", DOMAINS[3]);
    SameLower(name, "CONNECT", DOMAINS[4]);
    hide EqIgnoreCase;
    if IsDomain(name) {
      var i :| 0 <= i < |DOMAINS| && EqIgnoreCase(name, DOMAINS[i]);
      assert i == 0 || i == 1 || i == 2 || i == 3 || i == 4;
    }
  }

  lemma DomainsInCapitals()
    ensures |DOMAINS| == 5
    ensures EqIgnoreCase("OBJECT", DOMAINS[0]) && EqIgnoreCase("BUCKET", DOMAINS[1])
    ensures EqIgnoreCase("ROW", DOMAINS[2]) && EqIgnoreCase("TABLE", DOMAINS[3])
    ensures EqIgnoreCase("CONNECT", DOMAINS[4])
  {
  }

  lemma AuthIff(name: string)
    ensures AnyCase(name, "AUTH") <==> IsAuth(name)
  {
    hide AnyCase;
    AnyCaseIff(name, "AUTH");
    SameLower(name, "AUTH", "auth");
  }

  /** Two names with a dot between them: a domain builtin or a column of a table. */
  lemma DottedForms(d: Dialect, first: string, second: string)
    requires Name(first) && Name(second) && !Taken(first) && !AnyCase(first, "AUTH")
    ensures DomainWord(first) ==> Piece(d, first + "." + second, DomainBuiltin(first, second, []))
    ensures !DomainWord(first) ==> Piece(d, first + "." + second, QualifiedColumn(first, second))
  {
    hide Reads, NotNegated, EndsPrimary, Taken, Name, IsIdent, IsLiteralWord, IsNot;
    hide DomainWord, AnyCase, IsDomain, IsAuth;
    NameIsIdent(first);
    NameIsIdent(second);
    TakenIff(first);
    DomainWordIff(first);
    AuthIff(first);
    var e := if DomainWord(first) then DomainBuiltin(first, second, []) else QualifiedColumn(first, second);
    forall rest | EndsPrimary(rest)
      ensures Reads(PrimaryLevel, d, first + "." + second, e, rest) && NotNegated(first + "." + second + rest)
    {
      if DomainWord(first) {
        DomainReads(d, first, second, rest);
      } else {
        QualifiedReads(d, first, second, rest);
      }
    }
  }

  /** A third part after a column of a table is read and forgotten. */
  lemma ThirdPartForgotten(d: Dialect, table: string, column: string, field: string)
    requires Name(table) && Name(column) && Name(field)
    requires !Taken(table) && !AnyCase(table, "AUTH") && !DomainWord(table)
    ensures Piece(d, table + "." + column + "." + field, QualifiedColumn(table, column))
  {
    hide Reads, NotNegated, EndsPrimary, Taken, Name, IsIdent, IsLiteralWord, IsNot;
    hide DomainWord, AnyCase, IsDomain, IsAuth;
    NameIsIdent(table);
    NameIsIdent(column);
    NameIsIdent(field);
    TakenIff(table);
    DomainWordIff(table);
    AuthIff(table);
    var text := table + "." + column + "." + field;
    forall rest | EndsPrimary(rest)
      ensures Reads(PrimaryLevel, d, text, QualifiedColumn(table, column), rest) && NotNegated(text + rest)
    {
      ThirdPartReads(d, table, column, field, rest);
    }
  }

  lemma ThirdPartReads(d: Dialect, table: string, column: string, field: string, rest: string)
    requires IsIdent(table) && !IsLiteralWord(table) && !IsAuth(table) && !IsDomain(table) && !IsNot(table)
    requires IsIdent(column) && IsIdent(field) && EndsPrimary(rest)
    ensures Reads(PrimaryLevel, d, table + "." + column + "." + field, QualifiedColumn(table, column), rest)
    ensures NotNegated(table + "." + column + "." + field + rest)
  {
    hide ParsePrimary, ParseIdent, IsIdent, IsLiteralWord, NotNegated, IsNot, IsAuth, IsDomain, ParseArgs;
    var tail := "." + (field + rest);
    assert table + "." + column + "." + field + rest == table + "." + (column + tail);
    DotRead(d, table, column + tail);
    IdentReads(column, tail);
    IdentReads(field, rest);
    assert SkipSpaces(tail) == tail && tail[1..] == field + rest;
  }

  // Calls

  /** A name with arguments, each a whole expression. */
  lemma CallForm(d: Dialect, name: string, parts: seq<string>, args: seq<Expr>)
    requires Name(name) && !Taken(name) && |parts| == |args|
    requires forall i | 0 <= i < |args| :: At(OrLevel, d, parts[i], args[i])
    ensures Piece(d, name + "(" + Join(parts, ", ") + ")", AuthBuiltin(name, args))
  {
    hide Reads, NotNegated, EndsPrimary, Taken, Name, IsIdent, IsLiteralWord, IsNot, At;
    NameIsIdent(name);
    TakenIff(name);
    var text := name + "(" + Join(parts, ", ") + ")";
    forall rest | EndsPrimary(rest)
      ensures Reads(PrimaryLevel, d, text, AuthBuiltin(name, args), rest) && NotNegated(text + rest)
    {
      ArgumentsRead(d, parts, args, rest);
      CallReads(d, name, Join(parts, ", "), args, rest);
    }
  }

  lemma DomainCallForm(d: Dialect, domain: string, property: string, parts: seq<string>, args: seq<Expr>)
    requires Name(domain) && DomainWord(domain) && Name(property) && |parts| == |args|
    requires forall i | 0 <= i < |args| :: At(OrLevel, d, parts[i], args[i])
    ensures Piece(d, domain + "." + property + "(" + Join(parts, ", ") + ")", DomainBuiltin(domain, property, args))
  {
    hide Reads, NotNegated, EndsPrimary, Name, IsIdent, At, DomainWord, IsDomain;
    NameIsIdent(domain);
    NameIsIdent(property);
    DomainWordIff(domain);
    var text := domain + "." + property + "(" + Join(parts, ", ") + ")";
    forall rest | EndsPrimary(rest)
      ensures Reads(PrimaryLevel, d, text, DomainBuiltin(domain, property, args), rest) && NotNegated(text + rest)
    {
      ArgumentsRead(d, parts, args, rest);
      DomainCallReads(d, domain, property, Join(parts, ", "), args, rest);
    }
  }

  lemma AuthIsNoWord(name: string)
    requires IsAuth(name)
    ensures !IsLiteralWord(name) && !IsNot(name)
  {
    assert |name| == 4 && Lower(name[0]) == 'a';
  }

  lemma AuthOutcome(d: Dialect, auth: string, name: string, args: string, es: seq<Expr>, rest: string)
    requires IsIdent(auth) && IsAuth(auth) && IsIdent(name)
    requires ParseArgs(d, args + ")" + rest) == Ok(es, rest)
    ensures var text := auth + "." + name + "(" + args + ")" + rest;
            && NotNegated(text)
            && ParsePrimary(d, text) ==
               match ValidateCall(name, |es|)
               case Valid => Ok(AuthBuiltin(name, es), rest)
               case Invalid(error) => Err(InvalidBuiltin(error))
  {
    hide ParsePrimary, ParseIdent, IsIdent, NotNegated, IsLiteralWord, IsNot, IsDomain, ParseArgs, ValidateCall, IsAuth;
    var call := "(" + (args + ")" + rest);
    assert auth + "." + name + "(" + args + ")" + rest == auth + "." + (name + call);
    AuthIsNoWord(auth);
    DotRead(d, auth, name + call);
    IdentReads(name, call);
    assert SkipSpaces(call) == call && call[1..] == args + ")" + rest;
  }

  /** Where a primary fails the whole text fails. */
  lemma PrimaryFails(d: Dialect, s: string, error: ParseError)
    requires ParsePrimary(d, s) == Err(error) && NotNegated(s)
    ensures Parse(d, s) == Failure(error)
  {
    hide ParsePrimary, SkipSpaces, AtKeyword;
    PrimarySkips(d, s);
    assert ParseNot(d, s) == Err(error);
    assert ParseAnd(d, s) == Err(error);
    assert ParseOr(d, s) == Err(error);
  }

  predicate NoArguments(name: string) {
    name in {"user_id", "org_id", "role", "email", "session_id", "is_authenticated"}
  }

  predicate OneArgument(name: string) {
    name in {"has_permission", "in_org"}
  }

  /** The auth builtins: six without arguments, two with one; anything else is an error of its own. */
  lemma AuthForms(d: Dialect, auth: string, name: string, parts: seq<string>, args: seq<Expr>)
    requires Name(auth) && AnyCase(auth, "AUTH") && Name(name) && |parts| == |args|
    requires forall i | 0 <= i < |args| :: At(OrLevel, d, parts[i], args[i])
    ensures var text := auth + "." + name + "(" + Join(parts, ", ") + ")";
            if NoArguments(name) then
              if |args| == 0 then Piece(d, text, AuthBuiltin(name, args))
              else Parse(d, text) == Failure(InvalidBuiltin(ArityMismatch(name, 0, |args|)))
            else if OneArgument(name) then
              if |args| == 1 then Piece(d, text, AuthBuiltin(name, args))
              else Parse(d, text) == Failure(InvalidBuiltin(ArityMismatch(name, 1, |args|)))
            else Parse(d, text) == Failure(InvalidBuiltin(UnknownBuiltin(name)))
  {
    hide Reads, NotNegated, EndsPrimary, Name, IsIdent, IsAuth, AnyCase, At, Parse;
    hide ValidateCall, NoArguments, OneArgument;
    NameIsIdent(auth);
    NameIsIdent(name);
    AuthIff(auth);
    BuiltinTable(name, |args|);
    var items := Join(parts, ", ");
    var text := auth + "." + name + "(" + items + ")";
    if ValidateCall(name, |args|).Valid? {
      forall rest | EndsPrimary(rest)
        ensures Reads(PrimaryLevel, d, text, AuthBuiltin(name, args), rest) && NotNegated(text + rest)
      {
        ArgumentsRead(d, parts, args, rest);
        AuthOutcome(d, auth, name, items, args, rest);
        OkReads(d, text, AuthBuiltin(name, args), rest);
      }
    } else {
      ArgumentsRead(d, parts, args, "");
      AuthOutcome(d, auth, name, items, args, "");
      assert text + "" == text;
      PrimaryFails(d, text, InvalidBuiltin(ValidateCall(name, |args|).error));
    }
  }

  lemma OkReads(d: Dialect, s: string, e: Expr, rest: string)
    requires ParsePrimary(d, s + rest) == Ok(e, rest)
    ensures Reads(PrimaryLevel, d, s, e, rest)
  {
  }

  lemma BuiltinTable(name: string, count: nat)
    ensures ValidateCall(name, count) ==
            if NoArguments(name) then if count == 0 then Valid else Invalid(ArityMismatch(name, 0, count))
            else if OneArgument(name) then if count == 1 then Valid else Invalid(ArityMismatch(name, 1, count))
            else Invalid(UnknownBuiltin(name))
  {
  }

  // Literals

  lemma LiteralForms(d: Dialect)
    ensures Piece(d, "NULL", Lit(Null))
    ensures Piece(d, "TRUE", Lit(Bool(true)))
    ensures Piece(d, "FALSE", Lit(Bool(false)))
  {
    hide Reads, NotNegated, EndsPrimary;
    forall rest | EndsPrimary(rest)
      ensures Reads(PrimaryLevel, d, "NULL", Lit(Null), rest) && NotNegated("NULL" + rest)
      ensures Reads(PrimaryLevel, d, "TRUE", Lit(Bool(true)), rest) && NotNegated("TRUE" + rest)
      ensures Reads(PrimaryLevel, d, "FALSE", Lit(Bool(false)), rest) && NotNegated("FALSE" + rest)
    {
      NullReads(d, rest);
      BoolReads(d, true, rest);
      BoolReads(d, false, rest);
    }
  }

  lemma EscapeStep(c: char, s: string)
    ensures Escape([c] + s) == (if c == '\'' then "''" else [c]) + Escape(s)
  {
    assert ([c] + s)[1..] == s;
  }

  lemma {:induction false} EscapeForm(s: string, t: string)
    requires '\'' !in s
    ensures Escape(s) == s
    ensures Escape(s + ("'" + t)) == s + ("''" + Escape(t))
  {
    hide Escape;
    if s == "" {
      EscapeNothing();
      EscapeStep('\'', t);
      assert "" + ("'" + t) == ['\''] + t && "" + ("''" + Escape(t)) == "''" + Escape(t);
    } else {
      var c, rest := s[0], s[1..];
      assert c != '\'' && s == [c] + rest;
      EscapeForm(rest, t);
      EscapeStep(c, rest);
      EscapeStep(c, rest + ("'" + t));
      assert s + ("'" + t) == [c] + (rest + ("'" + t));
      assert s + ("''" + Escape(t)) == [c] + (rest + ("''" + Escape(t)));
    }
  }

  lemma EscapeNothing()
    ensures Escape("") == ""
  {
  }

  /** A string between quotes; a quote inside is written twice. `EscapeForm` gives any number of quotes. */
  lemma StringForms(d: Dialect, s: string, t: string)
    requires '\'' !in s && '\'' !in t
    ensures Piece(d, "'" + s + "'", Lit(String(s)))
    ensures Piece(d, "'" + s + "''" + t + "'", Lit(String(s + "'" + t)))
  {
    hide Piece, Escape;
    EscapeForm(s, t);
    EscapeForm(t, "");
    StringForm(d, s);
    StringForm(d, s + "'" + t);
    assert s + "'" + t == s + ("'" + t);
    assert "'" + (s + ("''" + t)) + "'" == "'" + s + "''" + t + "'";
  }

  lemma StringForm(d: Dialect, s: string)
    ensures Piece(d, "'" + Escape(s) + "'", Lit(String(s)))
  {
    hide Reads, NotNegated, EndsPrimary, Escape;
    forall rest | EndsPrimary(rest)
      ensures Reads(PrimaryLevel, d, "'" + Escape(s) + "'", Lit(String(s)), rest)
      ensures NotNegated("'" + Escape(s) + "'" + rest)
    {
      StringReads(d, s, rest);
    }
  }

  predicate Digits(s: string) {
    s != "" && forall i | 0 <= i < |s| :: '0' <= s[i] <= '9'
  }

  lemma NumberText(d: Dialect, s: string)
    requires Digits(s)
    ensures AllDigits(s)
    ensures NumeralValue(s) <= 9223372036854775807 ==> Piece(d, s, Lit(Int(NumeralValue(s))))
    ensures NumeralValue(s) > 9223372036854775807 ==> Parse(d, s) == Failure(InvalidNumber(s))
  {
    hide Reads, NotNegated, EndsPrimary, Parse, NumeralValue, ParsePrimary;
    forall rest | EndsPrimary(rest)
      ensures ParsePrimary(d, s + rest) ==
              if NumeralValue(s) <= 9223372036854775807 then Ok(Lit(Int(NumeralValue(s))), rest)
              else Err(InvalidNumber(s))
      ensures NotNegated(s + rest)
    {
      NumberAt(d, s, rest);
    }
    if NumeralValue(s) <= 9223372036854775807 {
      forall rest | EndsPrimary(rest)
        ensures Reads(PrimaryLevel, d, s, Lit(Int(NumeralValue(s))), rest)
      {
        OkReads(d, s, Lit(Int(NumeralValue(s))), rest);
      }
    } else {
      assert EndsPrimary("") by { NothingEnds(); }
      assert s + "" == s;
      PrimaryFails(d, s, InvalidNumber(s));
    }
  }

  lemma NothingEnds()
    ensures EndsPrimary("")
  {
  }

  lemma NumberAt(d: Dialect, s: string, rest: string)
    requires Digits(s) && EndsPrimary(rest)
    ensures AllDigits(s)
    ensures ParsePrimary(d, s + rest) ==
            if NumeralValue(s) <= 9223372036854775807 then Ok(Lit(Int(NumeralValue(s))), rest)
            else Err(InvalidNumber(s))
    ensures NotNegated(s + rest)
  {
    hide ParseOr, ParseQuoted, ParseWord, ScanString, NumeralValue, NumberSpan;
    var text := s + rest;
    assert text[0] == s[0];
    assert SkipSpaces(text) == text;
    NumberSpanOf(s, rest, false);
    assert text[..|s|] == s && text[|s|..] == rest;
    assert '.' !in s;
  }

  /** Numbers are decimal, most significant digit first, up to the largest 64-bit integer. */
  lemma NumberForms(d: Dialect, s: string, k: nat, n: int)
    requires k < 10
    ensures Parse(d, ["0123456789"[k]]) == Success(Lit(Int(k)))
    ensures Digits(s) && Parse(d, s) == Success(Lit(Int(n))) ==>
              Parse(d, s + ["0123456789"[k]]) ==
              if 10 * n + k <= 9223372036854775807 then Success(Lit(Int(10 * n + k)))
              else Failure(InvalidNumber(s + ["0123456789"[k]]))
  {
    hide Parse, Piece, NumeralValue;
    var c := "0123456789"[k];
    assert IsDigit(c) && DigitValue(c) == k;
    DigitAppended("", c);
    assert "" + [c] == [c];
    NumberText(d, [c]);
    if Digits(s) && Parse(d, s) == Success(Lit(Int(n))) {
      NumberText(d, s);
      if NumeralValue(s) <= 9223372036854775807 {
        PieceParses(d, s, Lit(Int(NumeralValue(s))));
      }
      DigitAppended(s, c);
      NumberText(d, s + [c]);
      if 10 * n + k <= 9223372036854775807 {
        PieceParses(d, s + [c], Lit(Int(10 * n + k)));
      }
    }
    PieceParses(d, [c], Lit(Int(k)));
  }

  lemma DigitAppended(s: string, c: char)
    requires AllDigits(s) && IsDigit(c)
    ensures AllDigits(s + [c])
    ensures NumeralValue(s + [c]) == (if s == "" then 0 else 10 * NumeralValue(s)) + DigitValue(c)
  {
    assert (s + [c])[..|s|] == s;
  }

  /** A decimal keeps its spelling. */
  lemma DecimalForm(d: Dialect, whole: string, fraction: string)
    requires Digits(whole) && (fraction == "" || Digits(fraction))
    ensures Piece(d, whole + "." + fraction, Lit(Float(whole + "." + fraction)))
  {
    hide Reads, NotNegated, EndsPrimary, IsDecimal;
    var s := whole + "." + fraction;
    assert s == whole + ("." + fraction);
    DecimalSpan(whole, fraction);
    assert s[|whole|] == ("." + fraction)[0] == '.';
    assert s[0] == whole[0];
    assert IsDecimal(s) by { DecimalIs(s); }
    forall rest | EndsPrimary(rest)
      ensures Reads(PrimaryLevel, d, s, Lit(Float(s)), rest) && NotNegated(s + rest)
    {
      FloatReads(d, s, rest);
    }
  }

  lemma DecimalIs(s: string)
    requires s != "" && IsDigit(s[0]) && '.' in s && NumberSpan(s, false) == |s|
    ensures IsDecimal(s)
  {
  }

  lemma {:induction false} DecimalSpan(whole: string, fraction: string)
    requires AllDigits(whole) && AllDigits(fraction)
    ensures NumberSpan(whole + ("." + fraction), false) == |whole| + 1 + |fraction|
  {
    var s := whole + ("." + fraction);
    if whole == "" {
      NumberSpanOf(fraction, "", true);
      assert fraction + "" == fraction;
      assert s == "." + fraction && s[1..] == fraction;
    } else {
      assert s[1..] == whole[1..] + ("." + fraction);
      DecimalSpan(whole[1..], fraction);
    }
  }

  // Text that is no policy, and what is reported.

  lemma NotFails(d: Dialect, s: string, error: ParseError)
    requires ParseNot(d, s) == Err(error)
    ensures Parse(d, s) == Failure(error)
  {
    hide ParseNot;
    assert ParseAnd(d, s) == Err(error);
    assert ParseOr(d, s) == Err(error);
  }

  /** Something is wrong after a complete primary. */
  lemma ErrorsAfter(d: Dialect, a: string, e: Expr, x: string)
    requires Piece(d, a, e)
    ensures Parse(d, "(" + a) == Failure(UnclosedParen)
    ensures Parse(d, a + " IS TRUE" + x) == Failure(UnexpectedToken("expected NULL"))
    ensures Parse(d, a + " NOT LIKE " + x) == Failure(UnexpectedToken("expected IN after NOT"))
    ensures Parse(d, a + ")" + x) == Failure(UnexpectedToken(if |x| < 20 then ")" + x else ")" + x[..19]))
  {
    hide Parse, Piece;
    Unclosed(d, a, e);
    NotNull(d, a, e, x);
    NotIn(d, a, e, x);
    Trailing(d, a, e, x);
  }

  lemma Unclosed(d: Dialect, a: string, e: Expr)
    requires Piece(d, a, e)
    ensures Parse(d, "(" + a) == Failure(UnclosedParen)
  {
    hide Piece, NotNegated, AtKeyword;
    PieceAt(d, a, e, OrLevel, "");
    OrStops(d, e, "");
    assert a + "" == a;
    var text := "(" + a;
    assert text[1..] == a && SkipSpaces(text) == text;
    assert ParsePrimary(d, text) == Err(UnclosedParen) by { hide ParseOr; }
    assert NotNegated(text) by { KeywordElsewhere(text, "NOT", 0); NotAt(text); }
    PrimaryFails(d, text, UnclosedParen);
  }

  lemma NotAt(text: string)
    requires SkipSpaces(text) == text && !AtKeyword(text, "NOT")
    ensures NotNegated(text)
  {
  }

  lemma NotNull(d: Dialect, a: string, e: Expr, x: string)
    requires Piece(d, a, e)
    ensures Parse(d, a + " IS TRUE" + x) == Failure(UnexpectedToken("expected NULL"))
  {
    hide Reads, Piece, NotNegated, AtKeyword, SkipSpaces, AfterLeft, ParseList;
    var after := " " + ("TRUE" + x);
    var tail := " " + "IS" + after;
    assert a + " IS TRUE" + x == a + tail;
    SpacedWord("IS" + after);
    assert tail == " " + ("IS" + after);
    PieceAt(d, a, e, PrimaryLevel, tail);
    ThenAfter(d, a, e, tail);
    KeywordHere("IS", after);
    SkipSpace("TRUE" + x);
    assert SkipSpaces("TRUE" + x) == "TRUE" + x by { WordFirst(d, "TRUE" + x); }
    KeywordElsewhere("TRUE" + x, "NOT", 0);
    KeywordElsewhere("TRUE" + x, "NULL", 0);
    assert AfterIs(e, after) == Err(UnexpectedToken("expected NULL"));
    NotFails(d, a + tail, UnexpectedToken("expected NULL"));
  }

  lemma NotIn(d: Dialect, a: string, e: Expr, x: string)
    requires Piece(d, a, e)
    ensures Parse(d, a + " NOT LIKE " + x) == Failure(UnexpectedToken("expected IN after NOT"))
  {
    hide Reads, Piece, NotNegated, AtKeyword, SkipSpaces, AfterLeft, ParseList, AfterIs;
    var like := "LIKE" + (" " + x);
    var after := " " + like;
    var tail := " " + "NOT" + after;
    assert a + " NOT LIKE " + x == a + tail;
    SpacedWord("NOT" + after);
    assert tail == " " + ("NOT" + after);
    PieceAt(d, a, e, PrimaryLevel, tail);
    ThenAfter(d, a, e, tail);
    KeywordHere("NOT", after);
    KeywordElsewhere("NOT" + after, "IS", 0);
    SkipSpace(like);
    assert SkipSpaces(like) == like by { WordFirst(d, like); }
    KeywordElsewhere(like, "IN", 0);
    NotFails(d, a + tail, UnexpectedToken("expected IN after NOT"));
  }

  lemma Trailing(d: Dialect, a: string, e: Expr, x: string)
    requires Piece(d, a, e)
    ensures Parse(d, a + ")" + x) == Failure(UnexpectedToken(if |x| < 20 then ")" + x else ")" + x[..19]))
  {
    hide Piece, NotNegated, ParseOr, OrLoop;
    var tail := ")" + x;
    CommaStops(x);
    ExprStops(tail);
    PieceAt(d, a, e, OrLevel, tail);
    OrStops(d, e, tail);
    assert a + tail == a + ")" + x;
    assert tail[..if |x| < 20 then |x| + 1 else 20] == if |x| < 20 then tail else ")" + x[..19];
  }

  /** A string that is not closed, an auth builtin that is not called, and nothing at all. */
  lemma ErrorsAtStart(d: Dialect, s: string, auth: string, name: string)
    requires '\'' !in s && Name(auth) && AnyCase(auth, "AUTH") && Name(name)
    ensures Parse(d, "'" + s) == Failure(UnclosedString)
    ensures Parse(d, auth + "." + name) == Failure(UnexpectedToken("expected ( for auth builtin"))
    ensures Parse(d, "") == Failure(UnexpectedToken("expected identifier"))
  {
    hide Parse, AnyCase, Name;
    UnclosedQuote(d, s);
    AuthUncalled(d, auth, name);
    Nothing(d);
  }

  lemma UnclosedQuote(d: Dialect, s: string)
    requires '\'' !in s
    ensures Parse(d, "'" + s) == Failure(UnclosedString)
  {
    hide ParseOr, ParseNumber, ParseQuoted, ParseWord, AtKeyword, Parse;
    var text := "'" + s;
    assert text[1..] == s && SkipSpaces(text) == text;
    NeverClosed("", s);
    KeywordElsewhere(text, "NOT", 0);
    PrimaryFails(d, text, UnclosedString);
  }

  lemma {:induction false} NeverClosed(value: string, s: string)
    requires '\'' !in s
    ensures ScanString(value, s) == Err(UnclosedString)
    decreases |s|
  {
    if s != "" {
      NeverClosed(value + [s[0]], s[1..]);
    }
  }

  lemma AuthUncalled(d: Dialect, auth: string, name: string)
    requires Name(auth) && AnyCase(auth, "AUTH") && Name(name)
    ensures Parse(d, auth + "." + name) == Failure(UnexpectedToken("expected ( for auth builtin"))
  {
    hide ParsePrimary, ParseIdent, IsIdent, NotNegated, IsLiteralWord, IsNot, IsDomain, ParseArgs, ValidateCall, IsAuth;
    hide AnyCase, Name, Parse;
    NameIsIdent(auth);
    NameIsIdent(name);
    AuthIff(auth);
    AuthIsNoWord(auth);
    DotRead(d, auth, name);
    IdentReads(name, "");
    assert name + "" == name;
    PrimaryFails(d, auth + "." + name, UnexpectedToken("expected ( for auth builtin"));
  }

  lemma Nothing(d: Dialect)
    ensures Parse(d, "") == Failure(UnexpectedToken("expected identifier"))
  {
    hide Parse;
    assert ParseWord(d, "") == Err(UnexpectedToken("expected identifier")) by { hide ParseArgs, ParseQualified; }
    assert ParsePrimary(d, "") == Err(UnexpectedToken("expected identifier")) by { hide ParseOr, ParseWord; }
    PrimaryFails(d, "", UnexpectedToken("expected identifier"));
  }

  /** How tests without parentheses are grouped: NOT first, then AND, then OR, each to the left. */
  lemma Precedence(d: Dialect, a: string, x: Expr, b: string, y: Expr, c: string, z: Expr)
    requires At(NotLevel, d, a, x) && At(NotLevel, d, b, y) && At(NotLevel, d, c, z)
    ensures Parse(d, a + " AND " + b + " OR " + c) == Success(Binary(Binary(x, And, y), Or, z))
    ensures Parse(d, a + " OR " + (b + " AND " + c)) == Success(Binary(x, Or, Binary(y, And, z)))
    ensures Parse(d, a + " OR " + b + " OR " + c) == Success(Binary(Binary(x, Or, y), Or, z))
    ensures Parse(d, a + " AND " + b + " AND " + c) == Success(Binary(Binary(x, And, y), And, z))
    ensures Parse(d, "NOT " + a + " AND " + b) == Success(Binary(Unary(Not, x), And, y))
  {
    hide At, Parse;
    Lift(d, a, x, NotLevel, AndLevel);
    Lift(d, b, y, NotLevel, AndLevel);
    Lift(d, c, z, NotLevel, AndLevel);
    Lift(d, a, x, NotLevel, OrLevel);
    AndForm(d, a, x, b, y);
    AndForm(d, b, y, c, z);
    Lift(d, a + " AND " + b, Binary(x, And, y), AndLevel, OrLevel);
    OrForm(d, a + " AND " + b, Binary(x, And, y), c, z);
    WholeParses(d, a + " AND " + b + " OR " + c, Binary(Binary(x, And, y), Or, z));
    OrForm(d, a, x, b + " AND " + c, Binary(y, And, z));
    WholeParses(d, a + " OR " + (b + " AND " + c), Binary(x, Or, Binary(y, And, z)));
    OrForm(d, a, x, b, y);
    OrForm(d, a + " OR " + b, Binary(x, Or, y), c, z);
    WholeParses(d, a + " OR " + b + " OR " + c, Binary(Binary(x, Or, y), Or, z));
    AndForm(d, a + " AND " + b, Binary(x, And, y), c, z);
    Lift(d, a + " AND " + b + " AND " + c, Binary(Binary(x, And, y), And, z), AndLevel, OrLevel);
    WholeParses(d, a + " AND " + b + " AND " + c, Binary(Binary(x, And, y), And, z));
    NotForm(d, a, x);
    Lift(d, "NOT " + a, Unary(Not, x), NotLevel, AndLevel);
    AndForm(d, "NOT " + a, Unary(Not, x), b, y);
    Lift(d, "NOT " + a + " AND " + b, Binary(Unary(Not, x), And, y), AndLevel, OrLevel);
    WholeParses(d, "NOT " + a + " AND " + b, Binary(Unary(Not, x), And, y));
  }
}
