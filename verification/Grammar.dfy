/**
 The expression parser (src/frontend/parser.cpp:28-132) on a token sequence, and
 the grammar it stands for (LANGUAGE.md:753-779), one function per level.
 */
module Grammar {
  import Ast
  import FixedWidth
  import opened Syntax
  import opened Tokens
  import opened Wrappers

  // An expression and the tokens after it.
  datatype Parsed = Parsed(e: Expr, rest: seq<Token>)

  // The rest after a token that must come next.
  function Expect(ts: seq<Token>, s: Symbol): (r: Option<seq<Token>>)
    ensures r.Some? ==> |r.value| < |ts|
  {
    if Peek(ts) == Sym(s) then Some(ts[1..]) else None
  }

  // ------------------------------------------------------------ precedence climbing

  function ParseConditional(ts: seq<Token>): (r: Option<Parsed>)
    ensures r.Some? ==> |r.value.rest| < |ts|
    decreases |ts|, 5
  {
    var c :- ParseExpr(ts, 0);
    if Peek(c.rest) != Sym(Question) then Some(c)
    else
      var t :- ParseExpr(c.rest[1..], 0);
      var ts1 :- Expect(t.rest, Colon);
      var f :- ParseConditional(ts1);
      Some(Parsed(Ternary(c.e, t.e, f.e), f.rest))
  }

  function ParseExpr(ts: seq<Token>, minBP: nat): (r: Option<Parsed>)
    ensures r.Some? ==> |r.value.rest| < |ts|
    decreases |ts|, 4
  {
    var l :- ParseUnary(ts);
    ParseMore(l.e, l.rest, minBP)
  }

  // The loop of parseExpr, its left operand so far in hand.
  function ParseMore(lhs: Expr, ts: seq<Token>, minBP: nat): (r: Option<Parsed>)
    ensures r.Some? ==> |r.value.rest| <= |ts|
    decreases |ts|, 3
  {
    var bp := BindingPower(Peek(ts));
    if bp == 0 || bp < minBP then Some(Parsed(lhs, ts))
    else
      var r :- ParseExpr(ts[1..], bp + 1);
      ParseMore(Binary(BinaryOf(ts[0]).value, lhs, r.e), r.rest, minBP)
  }

  function ParseUnary(ts: seq<Token>): (r: Option<Parsed>)
    ensures r.Some? ==> |r.value.rest| < |ts|
    decreases |ts|, 2
  {
    if UnaryOf(Peek(ts)).Some? then
      var x :- ParseUnary(ts[1..]);
      Some(Parsed(Unary(UnaryOf(ts[0]).value, x.e), x.rest))
    else ParsePostfix(ts)
  }

  function ParsePostfix(ts: seq<Token>): (r: Option<Parsed>)
    ensures r.Some? ==> |r.value.rest| < |ts|
    decreases |ts|, 1
  {
    if Peek(ts).Identifier? && Peek(ts[1..]) == Sym(LBracket) then
      var i :- ParseConditional(ts[2..]);
      var rest :- Expect(i.rest, RBracket);
      Some(Parsed(Index(ts[0].text, i.e), rest))
    else ParsePrimary(ts)
  }

  function ParsePrimary(ts: seq<Token>): (r: Option<Parsed>)
    ensures r.Some? ==> |r.value.rest| < |ts|
    decreases |ts|, 0
  {
    match Peek(ts)
    case Literal(v) => Some(Parsed(IntLit(v), ts[1..]))
    case Identifier(name) => Some(Parsed(NameRef(name), ts[1..]))
    case TypeName(t) =>
      var ts1 :- Expect(ts[1..], LParen);
      var x :- ParseConditional(ts1);
      var rest :- Expect(x.rest, RParen);
      Some(Parsed(Cast(t, x.e), rest))
    case Sym(LParen) =>
      var x :- ParseConditional(ts[1..]);
      var rest :- Expect(x.rest, RParen);
      Some(Parsed(x.e, rest))
    case _ => None
  }

  // --------------------------------------------------------------- layered grammar

  // The operators of each level, loosest first (LANGUAGE.md:758-764).
  function LevelOperator(k: nat, t: Token): Option<Ast.BinOp> {
    if !t.Sym? then None
    else if k == 1 then (if t.sym == PipePipeT then Some(Ast.PipePipe) else None)
    else if k == 2 then (if t.sym == AmpAmpT then Some(Ast.AmpAmp) else None)
    else if k == 3 then
      match t.sym
      case LtT => Some(Ast.Rel(FixedWidth.Lt))
      case LeT => Some(Ast.Rel(FixedWidth.Le))
      case GtT => Some(Ast.Rel(FixedWidth.Gt))
      case GeT => Some(Ast.Rel(FixedWidth.Ge))
      case EqEqT => Some(Ast.Rel(FixedWidth.Eq))
      case BangEqT => Some(Ast.Rel(FixedWidth.Ne))
      case _ => None
    else if k == 4 then
      match t.sym
      case PlusT => Some(Ast.Plus)
      case MinusT => Some(Ast.Minus)
      case PipeT => Some(Ast.Pipe)
      case CaretT => Some(Ast.Caret)
      case _ => None
    else if k == 5 then
      match t.sym
      case StarT => Some(Ast.Star)
      case SlashT => Some(Ast.Slash)
      case PercentT => Some(Ast.Percent)
      case ShlT => Some(Ast.Shl)
      case ShrT => Some(Ast.Shr)
      case AmpT => Some(Ast.Amp)
      case _ => None
    else None
  }

  // The prefix operators (LANGUAGE.md:765).
  function PrefixOperator(t: Token): Option<Ast.UnOp> {
    if t == Sym(PlusT) then Some(Ast.UPlus)
    else if t == Sym(MinusT) then Some(Ast.UMinus)
    else if t == Sym(TildeT) then Some(Ast.UTilde)
    else if t == Sym(BangT) then Some(Ast.UBang)
    else None
  }

  // With `nested`, the middle of a conditional is any expression, as the grammar
  // has it; without, a logical_or, as the parser reads it.
  function Conditional(ts: seq<Token>, nested: bool): (r: Option<Parsed>)
    ensures r.Some? ==> |r.value.rest| < |ts|
    decreases |ts|, 9
  {
    var c :- Level(ts, 1, nested);
    if Peek(c.rest) != Sym(Question) then Some(c)
    else
      var t :- if nested then Conditional(c.rest[1..], nested) else Level(c.rest[1..], 1, nested);
      var ts1 :- Expect(t.rest, Colon);
      var f :- Conditional(ts1, nested);
      Some(Parsed(Ternary(c.e, t.e, f.e), f.rest))
  }

  // Level 1 is logical_or, level 5 multiplicative, level 6 unary: each is the next
  // level, and then any number of its own operators and next-level operands.
  function Level(ts: seq<Token>, k: nat, nested: bool): (r: Option<Parsed>)
    requires 1 <= k <= 6
    ensures r.Some? ==> |r.value.rest| < |ts|
    decreases |ts|, 9 - k
  {
    if k == 6 then UnaryLevel(ts, nested)
    else
      var l :- Level(ts, k + 1, nested);
      LevelMore(l.e, l.rest, k, nested)
  }

  function LevelMore(lhs: Expr, ts: seq<Token>, k: nat, nested: bool): (r: Option<Parsed>)
    requires 1 <= k <= 5
    ensures r.Some? ==> |r.value.rest| <= |ts|
    decreases |ts|, 9
  {
    match LevelOperator(k, Peek(ts))
    case None => Some(Parsed(lhs, ts))
    case Some(op) =>
      var r :- Level(ts[1..], k + 1, nested);
      LevelMore(Binary(op, lhs, r.e), r.rest, k, nested)
  }

  function UnaryLevel(ts: seq<Token>, nested: bool): (r: Option<Parsed>)
    ensures r.Some? ==> |r.value.rest| < |ts|
    decreases |ts|, 2
  {
    match PrefixOperator(Peek(ts))
    case Some(op) =>
      var x :- UnaryLevel(ts[1..], nested);
      Some(Parsed(Unary(op, x.e), x.rest))
    case None => PostfixLevel(ts, nested)
  }

  function PostfixLevel(ts: seq<Token>, nested: bool): (r: Option<Parsed>)
    ensures r.Some? ==> |r.value.rest| < |ts|
    decreases |ts|, 1
  {
    if Peek(ts).Identifier? && Peek(ts[1..]) == Sym(LBracket) then
      var i :- Conditional(ts[2..], nested);
      var rest :- Expect(i.rest, RBracket);
      Some(Parsed(Index(ts[0].text, i.e), rest))
    else PrimaryLevel(ts, nested)
  }

  function PrimaryLevel(ts: seq<Token>, nested: bool): (r: Option<Parsed>)
    ensures r.Some? ==> |r.value.rest| < |ts|
    decreases |ts|, 0
  {
    match Peek(ts)
    case Literal(v) => Some(Parsed(IntLit(v), ts[1..]))
    case Identifier(name) => Some(Parsed(NameRef(name), ts[1..]))
    case TypeName(t) =>
      var ts1 :- Expect(ts[1..], LParen);
      var x :- Conditional(ts1, nested);
      var rest :- Expect(x.rest, RParen);
      Some(Parsed(Cast(t, x.e), rest))
    case Sym(LParen) =>
      var x :- Conditional(ts[1..], nested);
      var rest :- Expect(x.rest, RParen);
      Some(Parsed(x.e, rest))
    case _ => None
  }

  // --------------------------------------------------------- climbing is the grammar

  // Binding powers are the grammar's levels, and the tokens its operators.
  lemma PowerIsLevel(t: Token)
    ensures forall k | 1 <= k <= 5 :: LevelOperator(k, t) == if BindingPower(t) == k then BinaryOf(t) else None
    ensures PrefixOperator(t) == UnaryOf(t)
  {
  }

  // The loop ends at an operator too weak for it.
  lemma {:induction false} MoreStops(lhs: Expr, ts: seq<Token>, m: nat)
    requires ParseMore(lhs, ts, m).Some?
    ensures var bp := BindingPower(Peek(ParseMore(lhs, ts, m).value.rest)); bp == 0 || bp < m
    decreases |ts|
  {
    var bp := BindingPower(Peek(ts));
    if !(bp == 0 || bp < m) {
      var r := ParseExpr(ts[1..], bp + 1).value;
      MoreStops(Binary(BinaryOf(ts[0]).value, lhs, r.e), r.rest, m);
    }
  }

  // Climbing from a level is climbing from the next, and going on from there.
  lemma {:induction false} MoreSplits(lhs: Expr, ts: seq<Token>, m: nat)
    ensures ParseMore(lhs, ts, m) ==
            match ParseMore(lhs, ts, m + 1)
            case None => None
            case Some(p) => ParseMore(p.e, p.rest, m)
    decreases |ts|
  {
    var bp := BindingPower(Peek(ts));
    if bp >= m + 1 {
      var r := ParseExpr(ts[1..], bp + 1);
      if r.Some? {
        MoreSplits(Binary(BinaryOf(ts[0]).value, lhs, r.value.e), r.value.rest, m);
      }
    }
  }

  lemma {:induction false} MoreIsLevel(lhs: Expr, ts: seq<Token>, m: nat)
    requires 1 <= m <= 5 && BindingPower(Peek(ts)) <= m
    ensures ParseMore(lhs, ts, m) == LevelMore(lhs, ts, m, false)
    decreases |ts|, 9
  {
    PowerIsLevel(Peek(ts));
    if BindingPower(Peek(ts)) == m {
      ExprIsLevel(ts[1..], m + 1);
      var r := ParseExpr(ts[1..], m + 1);
      if r.Some? {
        var u := ParseUnary(ts[1..]).value;
        MoreStops(u.e, u.rest, m + 1);
        MoreIsLevel(Binary(BinaryOf(ts[0]).value, lhs, r.value.e), r.value.rest, m);
      }
    }
  }

  lemma {:induction false} ExprIsLevel(ts: seq<Token>, m: nat)
    requires 1 <= m <= 6
    ensures ParseExpr(ts, m) == Level(ts, m, false)
    decreases |ts|, 9 - m
  {
    if m == 6 {
      UnaryIsLevel(ts);
      var u := ParseUnary(ts);
      if u.Some? {
        assert ParseMore(u.value.e, u.value.rest, 6) == u;
      }
    } else {
      ExprIsLevel(ts, m + 1);
      var u := ParseUnary(ts);
      if u.Some? {
        MoreSplits(u.value.e, u.value.rest, m);
        var p := ParseMore(u.value.e, u.value.rest, m + 1);
        if p.Some? {
          MoreStops(u.value.e, u.value.rest, m + 1);
          MoreIsLevel(p.value.e, p.value.rest, m);
        }
      }
    }
  }

  lemma {:induction false} UnaryIsLevel(ts: seq<Token>)
    ensures ParseUnary(ts) == UnaryLevel(ts, false)
    decreases |ts|, 2
  {
    PowerIsLevel(Peek(ts));
    if UnaryOf(Peek(ts)).Some? {
      UnaryIsLevel(ts[1..]);
    } else {
      PostfixIsLevel(ts);
    }
  }

  lemma {:induction false} PostfixIsLevel(ts: seq<Token>)
    ensures ParsePostfix(ts) == PostfixLevel(ts, false)
    decreases |ts|, 1
  {
    if Peek(ts).Identifier? && Peek(ts[1..]) == Sym(LBracket) {
      ConditionalIsLevel(ts[2..]);
    } else {
      match Peek(ts)
      case TypeName(_) =>
        if Expect(ts[1..], LParen).Some? {
          ConditionalIsLevel(ts[2..]);
        }
      case Sym(LParen) => ConditionalIsLevel(ts[1..]);
      case _ =>
    }
  }

  lemma ZeroIsOne(lhs: Expr, ts: seq<Token>)
    ensures ParseMore(lhs, ts, 0) == ParseMore(lhs, ts, 1)
    decreases |ts|
  {
    var bp := BindingPower(Peek(ts));
    if bp != 0 {
      var r := ParseExpr(ts[1..], bp + 1);
      if r.Some? {
        ZeroIsOne(Binary(BinaryOf(ts[0]).value, lhs, r.value.e), r.value.rest);
      }
    }
  }

  // parseExpr(0) reads a logical_or.
  lemma {:induction false} ClimbingIsLayered(ts: seq<Token>)
    ensures ParseExpr(ts, 0) == Level(ts, 1, false)
    decreases |ts|, 9
  {
    var u := ParseUnary(ts);
    if u.Some? {
      ZeroIsOne(u.value.e, u.value.rest);
    }
    ExprIsLevel(ts, 1);
  }

  // On every token sequence, well formed or not, the parser builds the tree of the
  // layered grammar, and stops where it stops.
  lemma {:induction false} ConditionalIsLevel(ts: seq<Token>)
    ensures ParseConditional(ts) == Conditional(ts, false)
    decreases |ts|, 10
  {
    ClimbingIsLayered(ts);
    var c := ParseExpr(ts, 0);
    if c.Some? && Peek(c.value.rest) == Sym(Question) {
      ClimbingIsLayered(c.value.rest[1..]);
      var t := ParseExpr(c.value.rest[1..], 0);
      if t.Some? && Expect(t.value.rest, Colon).Some? {
        ConditionalIsLevel(t.value.rest[1..]);
      }
    }
  }

  // ------------------------------------------------------ the documented grammar

  lemma {:induction false} NestedLevel(ts: seq<Token>, k: nat)
    requires 1 <= k <= 6 && Level(ts, k, false).Some?
    ensures Level(ts, k, true) == Level(ts, k, false)
    decreases |ts|, 9 - k
  {
    if k == 6 {
      NestedUnary(ts);
    } else {
      NestedLevel(ts, k + 1);
      var l := Level(ts, k + 1, false).value;
      NestedMore(l.e, l.rest, k);
    }
  }

  lemma {:induction false} NestedMore(lhs: Expr, ts: seq<Token>, k: nat)
    requires 1 <= k <= 5 && LevelMore(lhs, ts, k, false).Some?
    ensures LevelMore(lhs, ts, k, true) == LevelMore(lhs, ts, k, false)
    decreases |ts|, 9
  {
    var op := LevelOperator(k, Peek(ts));
    if op.Some? {
      NestedLevel(ts[1..], k + 1);
      var r := Level(ts[1..], k + 1, false).value;
      NestedMore(Binary(op.value, lhs, r.e), r.rest, k);
    }
  }

  lemma {:induction false} NestedUnary(ts: seq<Token>)
    requires UnaryLevel(ts, false).Some?
    ensures UnaryLevel(ts, true) == UnaryLevel(ts, false)
    decreases |ts|, 2
  {
    if PrefixOperator(Peek(ts)).Some? {
      NestedUnary(ts[1..]);
    } else {
      NestedPostfix(ts);
    }
  }

  lemma {:induction false} NestedPostfix(ts: seq<Token>)
    requires PostfixLevel(ts, false).Some?
    ensures PostfixLevel(ts, true) == PostfixLevel(ts, false)
    decreases |ts|, 1
  {
    if Peek(ts).Identifier? && Peek(ts[1..]) == Sym(LBracket) {
      NestedConditional(ts[2..]);
    } else {
      match Peek(ts)
      case TypeName(_) => NestedConditional(ts[2..]);
      case Sym(LParen) => NestedConditional(ts[1..]);
      case _ =>
    }
  }

  // Whatever the parser accepts, the documented grammar reads as the same tree.
  lemma {:induction false} NestedConditional(ts: seq<Token>)
    requires Conditional(ts, false).Some?
    ensures Conditional(ts, true) == Conditional(ts, false)
    decreases |ts|, 10
  {
    NestedLevel(ts, 1);
    var c := Level(ts, 1, false).value;
    if Peek(c.rest) == Sym(Question) {
      NestedLevel(c.rest[1..], 1);
      var t := Level(c.rest[1..], 1, false).value;
      assert Conditional(c.rest[1..], true) == Some(t);
      NestedConditional(t.rest[1..]);
    }
  }

  lemma ParserFollowsGrammar(ts: seq<Token>)
    requires ParseConditional(ts).Some?
    ensures Conditional(ts, true) == ParseConditional(ts)
  {
    ConditionalIsLevel(ts);
    NestedConditional(ts);
  }

  // The converse fails: `1 ? 2 ? 3 : 4 : 5` is in the grammar, and refused.
  lemma NestedThenArm()
    ensures var ts := Then(1, Question, Then(2, Question, Then(3, Colon, Then(4, Colon, [Literal(5)]))));
            && ParseConditional(ts) == None
            && Conditional(ts, true) ==
               Some(Parsed(Ternary(IntLit(1), Ternary(IntLit(2), IntLit(3), IntLit(4)), IntLit(5)), []))
  {
    hide ParseExpr, Level;
    var e := [Literal(5)];
    var d := Then(4, Colon, e);
    var c := Then(3, Colon, d);
    var b := Then(2, Question, c);
    LiteralAlone(e);
    LiteralThen(4, Colon, e);
    LiteralThen(3, Colon, d);
    LiteralThen(2, Question, c);
    LiteralThen(1, Question, b);
    assert Conditional(e, true) == Some(Parsed(IntLit(5), []));
    assert Conditional(d, true) == Some(Parsed(IntLit(4), [Sym(Colon)] + e));
    assert Conditional(c, true) == Some(Parsed(IntLit(3), [Sym(Colon)] + d));
    assert Conditional(b, true) == Some(Parsed(Ternary(IntLit(2), IntLit(3), IntLit(4)), [Sym(Colon)] + e));
  }

  function Then(v: nat, s: Symbol, rest: seq<Token>): seq<Token> {
    [Literal(v)] + ([Sym(s)] + rest)
  }

  lemma LiteralThen(v: nat, s: Symbol, rest: seq<Token>)
    requires s == Question || s == Colon
    ensures var ts := Then(v, s, rest); var after := [Sym(s)] + rest;
            && ParseExpr(ts, 0) == Some(Parsed(IntLit(v), after))
            && Level(ts, 1, true) == Some(Parsed(IntLit(v), after))
            && after[1..] == rest && Peek(after) == Sym(s)
  {
    var ts := Then(v, s, rest);
    assert ts[1..] == [Sym(s)] + rest;
    LiteralAlone(ts);
  }

  lemma LiteralAlone(ts: seq<Token>)
    requires Peek(ts).Literal? && BindingPower(Peek(ts[1..])) == 0
    ensures ParseExpr(ts, 0) == Some(Parsed(IntLit(ts[0].value), ts[1..]))
    ensures Level(ts, 1, true) == Some(Parsed(IntLit(ts[0].value), ts[1..]))
  {
    assert ParsePrimary(ts) == ParseUnary(ts);
    assert ParseExpr(ts, 0) == Some(Parsed(IntLit(ts[0].value), ts[1..]));
    ClimbingIsLayered(ts);
    NestedLevel(ts, 1);
  }
}
