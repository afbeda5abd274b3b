/**
 Parsing undoes printing: the tokens of a printed expression parse to that
 expression, and the parser stops after them.
 */
module ParsePrinted {
  import Ast
  import opened Syntax
  import opened Tokens
  import opened Grammar
  import opened Printer
  import opened Wrappers

  // An expression ends here: no index, operator or conditional goes on.
  predicate Ends(rest: seq<Token>) {
    Peek(rest) != Sym(LBracket) && BindingPower(Peek(rest)) == 0 && Peek(rest) != Sym(Question)
  }

  // Every printed expression is a unary expression.
  lemma {:induction false} UnaryParses(e: Expr, rest: seq<Token>)
    requires Peek(rest) != Sym(LBracket)
    ensures ParseUnary(SpellExpr(e, rest)) == Some(Parsed(e, rest))
    decreases e, 1
  {
    hide ParseUnary, ParseConditional, ParseExpr, SpellOperand, BindingPower;
    match e
    case IntLit(v) => LiteralParses(v, rest);
    case NameRef(name) => NameParses(name, rest);
    case Index(a, i) =>
      ConditionalParses(i, [Sym(RBracket)] + rest);
      IndexParses(a, SpellExpr(i, [Sym(RBracket)] + rest), i, rest);
    case Cast(t, x) =>
      ConditionalParses(x, [Sym(RParen)] + rest);
      CastParses(t, SpellExpr(x, [Sym(RParen)] + rest), x, rest);
    case Unary(op, x) => UnaryOperator(op, x, rest);
    case Binary(op, l, r) => ParenthesisedBinary(op, l, r, rest);
    case Ternary(c, x, y) => ParenthesisedTernary(c, x, y, rest);
  }

  lemma Strip(t: Token, ts: seq<Token>)
    ensures ([t] + ts)[1..] == ts && Peek([t] + ts) == t
  {
  }

  lemma Strip2(t: Token, u: Token, ts: seq<Token>)
    ensures ([t] + ([u] + ts))[1..] == [u] + ts && ([t] + ([u] + ts))[2..] == ts && ([u] + ts)[1..] == ts
    ensures Peek([t] + ([u] + ts)) == t && Peek([u] + ts) == u
  {
  }

  // ( e )
  lemma {:induction false} ParenthesisedParses(inner: seq<Token>, e: Expr, rest: seq<Token>)
    requires ParseConditional(inner) == Some(Parsed(e, [Sym(RParen)] + rest))
    ensures ParseUnary([Sym(LParen)] + inner) == Some(Parsed(e, rest))
  {
    hide ParseConditional;
    var ts := [Sym(LParen)] + inner;
    Strip(Sym(LParen), inner);
    Strip(Sym(RParen), rest);
    assert Expect([Sym(RParen)] + rest, RParen) == Some(rest);
    assert ParsePrimary(ts) == Some(Parsed(e, rest));
    assert ParsePostfix(ts) == ParsePrimary(ts);
  }

  lemma LiteralParses(v: nat, rest: seq<Token>)
    ensures ParseUnary([Literal(v)] + rest) == Some(Parsed(IntLit(v), rest))
  {
    var ts := [Literal(v)] + rest;
    Strip(Literal(v), rest);
    assert ParsePrimary(ts) == Some(Parsed(IntLit(v), rest));
    assert ParsePostfix(ts) == ParsePrimary(ts);
  }

  lemma IndexParses(a: string, inner: seq<Token>, i: Expr, rest: seq<Token>)
    requires ParseConditional(inner) == Some(Parsed(i, [Sym(RBracket)] + rest))
    ensures ParseUnary([Identifier(a)] + ([Sym(LBracket)] + inner)) == Some(Parsed(Index(a, i), rest))
  {
    hide ParseConditional, ParsePrimary;
    var ts := [Identifier(a)] + ([Sym(LBracket)] + inner);
    Strip2(Identifier(a), Sym(LBracket), inner);
    Strip(Sym(RBracket), rest);
    assert ParsePostfix(ts) == Some(Parsed(Index(a, i), rest));
  }

  lemma CastParses(t: Type, inner: seq<Token>, x: Expr, rest: seq<Token>)
    requires ParseConditional(inner) == Some(Parsed(x, [Sym(RParen)] + rest))
    ensures ParseUnary([TypeName(t)] + ([Sym(LParen)] + inner)) == Some(Parsed(Cast(t, x), rest))
  {
    hide ParseConditional;
    var ts := [TypeName(t)] + ([Sym(LParen)] + inner);
    Strip2(TypeName(t), Sym(LParen), inner);
    Strip(Sym(RParen), rest);
    assert ParsePrimary(ts) == Some(Parsed(Cast(t, x), rest));
    assert ParsePostfix(ts) == ParsePrimary(ts);
  }

  lemma NameParses(name: string, rest: seq<Token>)
    requires Peek(rest) != Sym(LBracket)
    ensures ParseUnary([Identifier(name)] + rest) == Some(Parsed(NameRef(name), rest))
  {
    var ts := [Identifier(name)] + rest;
    Strip(Identifier(name), rest);
    assert ParsePrimary(ts) == Some(Parsed(NameRef(name), rest));
    assert ParsePostfix(ts) == ParsePrimary(ts);
  }

  // An expression with nothing tighter than m after it.
  lemma {:induction false} ExprParses(e: Expr, rest: seq<Token>, m: nat)
    requires Peek(rest) != Sym(LBracket)
    requires BindingPower(Peek(rest)) == 0 || BindingPower(Peek(rest)) < m
    ensures ParseExpr(SpellExpr(e, rest), m) == Some(Parsed(e, rest))
    decreases e, 2
  {
    hide SpellExpr, ParseUnary, BindingPower;
    UnaryParses(e, rest);
  }

  lemma {:induction false} ConditionalParses(e: Expr, rest: seq<Token>)
    requires Ends(rest)
    ensures ParseConditional(SpellExpr(e, rest)) == Some(Parsed(e, rest))
    decreases e, 3
  {
    hide SpellExpr, ParseExpr, BindingPower;
    ExprParses(e, rest, 0);
  }

  lemma {:induction false} OperandParses(e: Expr, rest: seq<Token>)
    requires Peek(rest) != Sym(LBracket)
    ensures ParseUnary(SpellOperand(e, rest)) == Some(Parsed(e, rest))
    decreases e, 4
  {
    if Wrapped(e) {
      ConditionalParses(e, [Sym(RParen)] + rest);
      ParenthesisedParses(SpellExpr(e, [Sym(RParen)] + rest), e, rest);
    } else {
      UnaryParses(e, rest);
    }
  }

  // op e
  lemma {:induction false} Negation(op: Ast.UnOp, inner: seq<Token>, x: Expr, rest: seq<Token>)
    requires ParseUnary(inner) == Some(Parsed(x, rest))
    ensures ParseUnary([Sym(UnarySymbol(op))] + inner) == Some(Parsed(Unary(op, x), rest))
  {
    OperatorsRead();
    Strip(Sym(UnarySymbol(op)), inner);
  }

  lemma {:induction false} UnaryOperator(op: Ast.UnOp, x: Expr, rest: seq<Token>)
    requires Peek(rest) != Sym(LBracket)
    ensures ParseUnary(SpellExpr(Unary(op, x), rest)) == Some(Parsed(Unary(op, x), rest))
    decreases x, 5
  {
    hide ParseUnary, ParseConditional;
    if x.Unary? {
      var outer := [Sym(RParen)] + rest;
      var inner := SpellExpr(x, [Sym(RParen)] + outer);
      ConditionalParses(x, [Sym(RParen)] + outer);
      ParenthesisedParses(inner, x, outer);
      Negation(op, [Sym(LParen)] + inner, x, outer);
      AloneParses([Sym(UnarySymbol(op))] + ([Sym(LParen)] + inner), Unary(op, x), outer);
      ParenthesisedParses([Sym(UnarySymbol(op))] + ([Sym(LParen)] + inner), Unary(op, x), rest);
    } else {
      UnaryParses(x, rest);
      Negation(op, SpellExpr(x, rest), x, rest);
    }
  }

  // A unary expression before the end is the whole expression.
  lemma AloneParses(ts: seq<Token>, e: Expr, rest: seq<Token>)
    requires ParseUnary(ts) == Some(Parsed(e, rest)) && Ends(rest)
    ensures ParseExpr(ts, 0) == ParseConditional(ts) == Some(Parsed(e, rest))
  {
    hide ParseUnary, BindingPower;
  }

  // l op r, between parentheses
  lemma {:induction false} ParenthesisedBinary(op: Ast.BinOp, l: Expr, r: Expr, rest: seq<Token>)
    ensures ParseUnary(SpellExpr(Binary(op, l, r), rest)) == Some(Parsed(Binary(op, l, r), rest))
    decreases Binary(op, l, r), 0
  {
    hide ParseUnary, SpellOperand, BindingPower;
    OperatorsRead();
    var close := [Sym(RParen)] + rest;
    var right := SpellOperand(r, close);
    var middle := [Sym(BinarySymbol(op))] + right;
    var ts := SpellOperand(l, middle);
    OperandParses(l, middle);
    OperandParses(r, close);
    Strip(Sym(BinarySymbol(op)), right);
    var bp := BindingPower(Sym(BinarySymbol(op)));
    CloseStops(rest);
    assert ParseExpr(right, bp + 1) == Some(Parsed(r, close));
    assert ParseMore(l, middle, 0) == Some(Parsed(Binary(op, l, r), close));
    assert ParseConditional(ts) == Some(Parsed(Binary(op, l, r), close));
    ParenthesisedParses(ts, Binary(op, l, r), rest);
  }

  lemma CloseStops(rest: seq<Token>)
    ensures BindingPower(Peek([Sym(RParen)] + rest)) == 0 && Peek([Sym(RParen)] + rest) == Sym(RParen)
  {
  }

  // c ? x : y, between parentheses
  lemma {:induction false} ParenthesisedTernary(c: Expr, x: Expr, y: Expr, rest: seq<Token>)
    ensures ParseUnary(SpellExpr(Ternary(c, x, y), rest)) == Some(Parsed(Ternary(c, x, y), rest))
    decreases Ternary(c, x, y), 0
  {
    hide ParseUnary, ParseExpr;
    var close := [Sym(RParen)] + rest;
    var third := SpellExpr(y, close);
    var second := SpellExpr(x, [Sym(Colon)] + third);
    ConditionalParses(y, close);
    ExprParses(x, [Sym(Colon)] + third, 0);
    ExprParses(c, [Sym(Question)] + second, 0);
    Strip(Sym(Colon), third);
    Strip(Sym(Question), second);
    ParenthesisedParses(SpellExpr(c, [Sym(Question)] + second), Ternary(c, x, y), rest);
  }
}
