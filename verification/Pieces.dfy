/**
 Self-contained pieces of SQL text. A piece is read as the same expression whatever comes
 after it, so joining pieces with operators, commas or parentheses never changes how they
 are grouped. Everything that evaluation and compilation emit is a piece.
 */
module Pieces {
  import opened PolicyAst
  import opened AsciiText
  import opened Lexing
  import opened Grammar
  import opened Reading
  import opened Atoms

  ghost predicate Piece(d: Dialect, s: string, e: Expr) {
    forall rest | EndsPrimary(rest) :: Reads(PrimaryLevel, d, s, e, rest) && NotNegated(s + rest)
  }

  lemma PieceAt(d: Dialect, s: string, e: Expr, level: Level, rest: string)
    requires Piece(d, s, e) && Stops(level, rest)
    ensures Reads(level, d, s, e, rest) && NotNegated(s + rest)
  {
    hide Reads, NotNegated;
    StopsEnds(level, rest);
    Climb(d, s, e, rest, PrimaryLevel, level);
  }

  lemma PieceParses(d: Dialect, s: string, e: Expr)
    requires Piece(d, s, e)
    ensures Parse(d, s) == Success(e)
  {
    PieceAt(d, s, e, OrLevel, "");
    OrStops(d, e, "");
    assert s + "" == s;
  }

  /** Any text that the OR level reads becomes a piece inside parentheses. */
  lemma Enclosed(d: Dialect, s: string, e: Expr)
    requires forall rest | StopsExpr(rest) :: Reads(OrLevel, d, s, e, rest)
    ensures Piece(d, "(" + s + ")", e)
  {
    hide Reads, NotNegated, StopsExpr, EndsPrimary;
    forall rest | EndsPrimary(rest)
      ensures Reads(PrimaryLevel, d, "(" + s + ")", e, rest) && NotNegated("(" + s + ")" + rest)
    {
      CommaStops(rest);
      Parenthesised(d, s, e, rest);
    }
  }

  lemma AtOr(d: Dialect, s: string, e: Expr, from: Level, rest: string)
    requires StopsExpr(rest) && from != PrimaryLevel && Reads(from, d, s, e, rest)
    ensures Reads(OrLevel, d, s, e, rest)
  {
    hide Reads;
    Climb(d, s, e, rest, from, OrLevel);
  }

  lemma AndPiece(d: Dialect, a: string, l: Expr, b: string, r: Expr)
    requires Piece(d, a, l) && Piece(d, b, r)
    ensures Piece(d, "(" + (a + " AND " + b) + ")", Binary(l, And, r))
  {
    hide Reads, Piece, StopsExpr;
    forall rest | StopsExpr(rest)
      ensures Reads(OrLevel, d, a + " AND " + b, Binary(l, And, r), rest)
    {
      ExprStops(rest);
      LogicStops(b + rest);
      assert " AND " + b + rest == " AND " + (b + rest);
      PieceAt(d, a, l, AndLevel, " AND " + b + rest);
      PieceAt(d, b, r, NotLevel, rest);
      Anded(d, a, l, b, r, rest);
      AtOr(d, a + " AND " + b, Binary(l, And, r), AndLevel, rest);
    }
    Enclosed(d, a + " AND " + b, Binary(l, And, r));
  }

  lemma OrPiece(d: Dialect, a: string, l: Expr, b: string, r: Expr)
    requires Piece(d, a, l) && Piece(d, b, r)
    ensures Piece(d, "(" + (a + " OR " + b) + ")", Binary(l, Or, r))
  {
    hide Reads, Piece, StopsExpr;
    forall rest | StopsExpr(rest)
      ensures Reads(OrLevel, d, a + " OR " + b, Binary(l, Or, r), rest)
    {
      ExprStops(rest);
      LogicStops(b + rest);
      assert " OR " + b + rest == " OR " + (b + rest);
      PieceAt(d, a, l, OrLevel, " OR " + b + rest);
      PieceAt(d, b, r, AndLevel, rest);
      Ored(d, a, l, b, r, rest);
    }
    Enclosed(d, a + " OR " + b, Binary(l, Or, r));
  }

  lemma ComparePiece(d: Dialect, a: string, l: Expr, sign: string, op: BinaryOp, b: string, r: Expr)
    requires Piece(d, a, l) && Piece(d, b, r) && Signs(sign, op)
    ensures Piece(d, "(" + (a + " " + sign + " " + b) + ")", Binary(l, op, r))
  {
    hide Reads, Piece, StopsExpr, NotNegated, Signs;
    forall rest | StopsExpr(rest)
      ensures Reads(OrLevel, d, a + " " + sign + " " + b, Binary(l, op, r), rest)
    {
      ExprStops(rest);
      OperatorStops(sign, op, b + rest);
      var tail := " " + sign + " " + b + rest;
      assert tail == " " + sign + " " + (b + rest);
      PieceAt(d, a, l, PrimaryLevel, tail);
      PieceAt(d, b, r, PrimaryLevel, rest);
      Compared(d, a, l, sign, op, b, r, rest);
      AtOr(d, a + " " + sign + " " + b, Binary(l, op, r), NotLevel, rest);
    }
    Enclosed(d, a + " " + sign + " " + b, Binary(l, op, r));
  }

  lemma BinaryPiece(d: Dialect, a: string, l: Expr, op: BinaryOp, b: string, r: Expr)
    requires Piece(d, a, l) && Piece(d, b, r)
    ensures Piece(d, "(" + a + " " + op.AsSql() + " " + b + ")", Binary(l, op, r))
  {
    hide Piece;
    assert "(" + a + " " + op.AsSql() + " " + b + ")" == "(" + (a + " " + op.AsSql() + " " + b) + ")";
    if op == And {
      assert a + " " + op.AsSql() + " " + b == a + " AND " + b;
      AndPiece(d, a, l, b, r);
    } else if op == Or {
      assert a + " " + op.AsSql() + " " + b == a + " OR " + b;
      OrPiece(d, a, l, b, r);
    } else {
      ComparePiece(d, a, l, op.AsSql(), op, b, r);
    }
  }

  lemma NotPiece(d: Dialect, a: string, x: Expr)
    requires Piece(d, a, x)
    ensures Piece(d, "(NOT " + a + ")", Unary(Not, x))
  {
    hide Reads, Piece, StopsExpr;
    forall rest | StopsExpr(rest)
      ensures Reads(OrLevel, d, "NOT " + a, Unary(Not, x), rest)
    {
      ExprStops(rest);
      PieceAt(d, a, x, NotLevel, rest);
      NegatedWord(d, a, x, rest);
      AtOr(d, "NOT " + a, Unary(Not, x), NotLevel, rest);
    }
    Enclosed(d, "NOT " + a, Unary(Not, x));
    assert "(" + ("NOT " + a) + ")" == "(NOT " + a + ")";
  }

  lemma MinusPiece(d: Dialect, a: string, x: Expr)
    requires Piece(d, a, x)
    ensures Piece(d, "(-" + a + ")", Unary(Minus, x))
  {
    hide Reads, Piece, StopsExpr, NotNegated;
    forall rest | StopsExpr(rest)
      ensures Reads(OrLevel, d, "-" + a, Unary(Minus, x), rest)
    {
      ExprStops(rest);
      PieceAt(d, a, x, PrimaryLevel, rest);
      Minused(d, a, x, rest);
      Climb(d, "-" + a, Unary(Minus, x), rest, PrimaryLevel, OrLevel);
    }
    Enclosed(d, "-" + a, Unary(Minus, x));
    assert "(" + ("-" + a) + ")" == "(-" + a + ")";
  }

  lemma NullPiece(d: Dialect, a: string, x: Expr, negated: bool)
    requires Piece(d, a, x)
    ensures Piece(d, "(" + (a + (if negated then " IS NOT NULL" else " IS NULL")) + ")", IsNull(x, negated))
  {
    hide Reads, Piece, StopsExpr, NotNegated;
    var test := if negated then " IS NOT NULL" else " IS NULL";
    forall rest | StopsExpr(rest)
      ensures Reads(OrLevel, d, a + test, IsNull(x, negated), rest)
    {
      ExprStops(rest);
      StopsEnds(OrLevel, rest);
      TestStops(negated, rest);
      PieceAt(d, a, x, PrimaryLevel, test + rest);
      NullTested(d, a, x, negated, rest);
      AtOr(d, a + test, IsNull(x, negated), NotLevel, rest);
    }
    Enclosed(d, a + test, IsNull(x, negated));
  }

  lemma InPiece(d: Dialect, a: string, x: Expr, parts: seq<string>, list: seq<Expr>, negated: bool)
    requires Piece(d, a, x) && |parts| == |list|
    requires forall i | 0 <= i < |list| :: Piece(d, parts[i], list[i])
    ensures var open := if negated then " NOT IN (" else " IN (";
            Piece(d, "(" + (a + open + Join(parts, ", ") + ")") + ")", InList(x, list, negated))
  {
    hide Reads, Piece, StopsExpr, NotNegated;
    var open := if negated then " NOT IN (" else " IN (";
    var items := Join(parts, ", ");
    var text := a + open + items + ")";
    PiecesRead(d, parts, list);
    forall rest | StopsExpr(rest)
      ensures Reads(OrLevel, d, text, InList(x, list, negated), rest)
    {
      TestStops(negated, items + ")" + rest);
      assert open + items + ")" + rest == open + (items + ")" + rest);
      PieceAt(d, a, x, PrimaryLevel, open + items + ")" + rest);
      ListRead(d, parts, list, rest);
      Listed(d, a, x, negated, items, list, rest);
      AtOr(d, text, InList(x, list, negated), NotLevel, rest);
    }
    Enclosed(d, text, InList(x, list, negated));
  }

  lemma PiecesRead(d: Dialect, parts: seq<string>, es: seq<Expr>)
    requires |parts| == |es|
    requires forall i | 0 <= i < |es| :: Piece(d, parts[i], es[i])
    ensures AllRead(PrimaryLevel, d, parts, es)
  {
    hide Reads, Piece, StopsExpr, NotNegated;
    forall i, rest | 0 <= i < |es| && StopsExpr(rest)
      ensures Reads(PrimaryLevel, d, parts[i], es[i], rest)
    {
      ExprStops(rest);
      PieceAt(d, parts[i], es[i], PrimaryLevel, rest);
    }
  }

  /** The tree of e1 OR e2 OR ... OR en, grouped from the left. */
  function Chain(es: seq<Expr>, op: BinaryOp): Expr
    requires |es| > 0
  {
    if |es| == 1 then es[0] else Binary(Chain(es[..|es| - 1], op), op, es[|es| - 1])
  }

  lemma {:induction false} ChainReads(d: Dialect, parts: seq<string>, es: seq<Expr>, op: BinaryOp, rest: string)
    requires |parts| == |es| > 0 && op.IsLogical()
    requires forall i | 0 <= i < |es| :: Piece(d, parts[i], es[i])
    requires Stops(if op == Or then OrLevel else AndLevel, rest)
    ensures Reads(if op == Or then OrLevel else AndLevel, d, Join(parts, " " + op.AsSql() + " "), Chain(es, op), rest)
    decreases |es|
  {
    hide Reads, Piece, Stops, NotNegated, Join;
    var level := if op == Or then OrLevel else AndLevel;
    var sep := " " + op.AsSql() + " ";
    var n := |es| - 1;
    if n == 0 {
      JoinOne(parts, sep);
      PieceAt(d, parts[0], es[0], level, rest);
    } else {
      JoinTail(parts, sep, "");
      var a := Join(parts[..n], sep);
      assert Join(parts, sep) == a + sep + parts[n] by {
        assert Join(parts, sep) + "" == Join(parts, sep);
        assert a + (sep + (parts[n] + "")) == a + sep + parts[n];
      }
      LogicStops(parts[n] + rest);
      assert sep == if op == Or then " OR " else " AND ";
      assert sep + parts[n] + rest == sep + (parts[n] + rest);
      ChainReads(d, parts[..n], es[..n], op, sep + parts[n] + rest);
      if op == Or {
        StopsWeaken(rest, OrLevel, AndLevel);
        PieceAt(d, parts[n], es[n], AndLevel, rest);
        Ored(d, a, Chain(es[..n], op), parts[n], es[n], rest);
      } else {
        StopsWeaken(rest, AndLevel, NotLevel);
        PieceAt(d, parts[n], es[n], NotLevel, rest);
        Anded(d, a, Chain(es[..n], op), parts[n], es[n], rest);
      }
    }
  }

  lemma ChainPiece(d: Dialect, parts: seq<string>, es: seq<Expr>, op: BinaryOp)
    requires |parts| == |es| > 0 && op.IsLogical()
    requires forall i | 0 <= i < |es| :: Piece(d, parts[i], es[i])
    ensures Piece(d, "(" + Join(parts, " " + op.AsSql() + " ") + ")", Chain(es, op))
  {
    hide Reads, Piece, StopsExpr, NotNegated;
    var text := Join(parts, " " + op.AsSql() + " ");
    forall rest | StopsExpr(rest)
      ensures Reads(OrLevel, d, text, Chain(es, op), rest)
    {
      ExprStops(rest);
      ChainReads(d, parts, es, op, rest);
      if op == And {
        AtOr(d, text, Chain(es, op), AndLevel, rest);
      }
    }
    Enclosed(d, text, Chain(es, op));
  }

  lemma ExprStops(rest: string)
    requires StopsExpr(rest)
    ensures Stops(OrLevel, rest) && Stops(AndLevel, rest) && Stops(NotLevel, rest) && Stops(PrimaryLevel, rest)
  {
  }
}
