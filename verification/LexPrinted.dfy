/**
 Lexing undoes printing: the printed text of an expression is read as its tokens,
 whatever follows it.
 */
module LexPrinted {
  import Ast
  import opened FixedWidth
  import opened Syntax
  import opened Tokens
  import opened Lex
  import opened Printer
  import opened Wrappers

  // The text s is read as ts.
  predicate Reads(s: string, ts: seq<Token>) {
    Tokenize(s) == Some(ts)
  }

  // ----------------------------------------------------------------- single tokens

  // A text that starts a token, and the token.
  lemma TokenReads(s: string, tok: Token, rest: string, ts: seq<Token>)
    requires s != [] && SkipTrivia(s) == Some(s) && LexToken(s) == Some(Lexed(tok, rest)) && Reads(rest, ts)
    ensures Reads(s, [tok] + ts)
  {
    hide SkipTrivia, LexToken;
  }

  lemma SpaceReads(c: char, rest: string, ts: seq<Token>)
    requires Space(c) && Reads(rest, ts)
    ensures Reads([c] + rest, ts)
  {
    hide LexToken;
    assert ([c] + rest)[1..] == rest;
    assert SkipTrivia([c] + rest) == SkipTrivia(rest);
  }

  lemma GapReads(rest: string, ts: seq<Token>)
    requires Reads(rest, ts)
    ensures Reads(Gap(rest), ts)
  {
    SpaceReads(' ', rest, ts);
  }

  // The symbol does not merge with the character after it, into an operator or a
  // comment.
  predicate Apart(sym: Symbol, rest: string) {
    var s := SymbolText(sym);
    |s| == 1 && rest != [] ==> TwoChars(s[0], rest[0]).None? && !(s[0] == '/' && (rest[0] == '/' || rest[0] == '*'))
  }

  lemma SymbolReads(sym: Symbol, rest: string, ts: seq<Token>)
    requires Apart(sym, rest) && Reads(rest, ts)
    ensures Reads(Put(sym, rest), [Sym(sym)] + ts)
  {
    hide Tokenize;
    var s := Put(sym, rest);
    var t := SymbolText(sym);
    SymbolStart(sym);
    assert s[|t|..] == rest;
    TokenReads(s, Sym(sym), rest, ts);
  }

  lemma SymbolStart(sym: Symbol)
    ensures var t := SymbolText(sym);
            && 1 <= |t| <= 2
            && !IdentStart(t[0]) && !Digit(t[0]) && t[0] != '#' && !Space(t[0])
            && (|t| == 1 ==> OneChar(t[0]) == Some(sym))
            && (|t| == 2 ==> TwoChars(t[0], t[1]) == Some(sym) && t[0] != '/')
  {
  }

  // Most symbols never merge, and none merges with a space.
  predicate Solid(sym: Symbol) {
    sym == LParen || sym == RParen || sym == LBracket || sym == RBracket || sym == LBrace || sym == RBrace
    || sym == Question || sym == Colon || sym == Comma || sym == Semi
    || sym == PlusT || sym == MinusT || sym == TildeT
  }

  lemma SolidApart(sym: Symbol, rest: string)
    ensures Solid(sym) ==> Apart(sym, rest)
    ensures Apart(sym, Gap(rest))
  {
  }

  lemma SolidReads(sym: Symbol, rest: string, ts: seq<Token>)
    requires Solid(sym) && Reads(rest, ts)
    ensures Reads(Put(sym, rest), [Sym(sym)] + ts)
  {
    SolidApart(sym, rest);
    SymbolReads(sym, rest, ts);
  }

  // ------------------------------------------------------------------- words

  predicate Word(w: string) {
    w != [] && IdentStart(w[0]) && forall i | 0 <= i < |w| :: IdentChar(w[i])
  }

  lemma {:induction false} WordEnds(w: string, rest: string)
    requires (forall i | 0 <= i < |w| :: IdentChar(w[i])) && Breaks(rest)
    ensures WordLength(w + rest) == |w|
    decreases |w|
  {
    if w == [] {
      assert w + rest == rest;
    } else {
      assert (w + rest)[1..] == w[1..] + rest;
      WordEnds(w[1..], rest);
    }
  }

  lemma WordReads(w: string, tok: Token, rest: string, ts: seq<Token>)
    requires Word(w) && Breaks(rest) && WordToken(w) == Some(tok) && Reads(rest, ts)
    ensures Reads(w + rest, [tok] + ts)
  {
    hide Tokenize, WordToken;
    var s := w + rest;
    WordEnds(w, rest);
    assert s[..|w|] == w && s[|w|..] == rest;
    assert s[0] == w[0];
    TokenReads(s, tok, rest, ts);
  }

  // A name a program may declare.
  predicate LegalName(w: string) {
    Word(w) && KeywordOf(w).None? && !TypeShape(w)
  }

  lemma NameReads(w: string, rest: string, ts: seq<Token>)
    requires LegalName(w) && Breaks(rest) && Reads(rest, ts)
    ensures Reads(w + rest, [Identifier(w)] + ts)
  {
    WordReads(w, Identifier(w), rest, ts);
  }

  lemma KeywordReads(k: Keyword, rest: string, ts: seq<Token>)
    requires Breaks(rest) && Reads(rest, ts)
    ensures Reads(KeywordText(k) + rest, [Key(k)] + ts)
  {
    hide Tokenize;
    KeywordWord(k);
    WordReads(KeywordText(k), Key(k), rest, ts);
  }

  lemma KeywordWord(k: Keyword)
    ensures Word(KeywordText(k)) && WordToken(KeywordText(k)) == Some(Key(k))
  {
  }

  // ------------------------------------------------------------------ numbers

  lemma {:induction false} NumberDigits(v: nat)
    ensures forall i | 0 <= i < |NumberText(v)| :: Digit(NumberText(v)[i])
    ensures v > 0 ==> NumberText(v)[0] != '0'
    ensures Decimal(NumberText(v)) == v
  {
    if v >= 10 {
      NumberDigits(v / 10);
      var s := NumberText(v / 10);
      assert NumberText(v)[..|s|] == s;
    } else {
      assert Decimal([]) == 0;
      assert NumberText(v)[..0] == [];
    }
  }

  lemma {:induction false} PositionalIsDecimal(s: string)
    requires forall i | 0 <= i < |s| :: Digit(s[i])
    ensures Positional(s, 10, 0) == Decimal(s)
    decreases |s|
  {
    if s != [] {
      var init, last := s[..|s| - 1], s[|s| - 1];
      PositionalIsDecimal(init);
      PositionalSnoc(init, last, 10, 0);
      assert s == init + [last];
    }
  }

  lemma {:induction false} PositionalSnoc(s: string, c: char, base: nat, v: nat)
    requires c != '_'
    ensures Positional(s + [c], base, v) == Positional(s, base, v) * base + DigitValue(c)
    decreases |s|
  {
    if s == [] {
      assert s + [c] == [c] && [c][1..] == [];
    } else {
      assert (s + [c])[1..] == s[1..] + [c];
      PositionalSnoc(s[1..], c, base, if s[0] == '_' then v else v * base + DigitValue(s[0]));
    }
  }

  lemma LiteralReads(v: nat, rest: string, ts: seq<Token>)
    requires v <= MAX_LITERAL && Breaks(rest) && Reads(rest, ts)
    ensures Reads(NumberText(v) + rest, [Literal(v)] + ts)
  {
    hide Tokenize, LexNumber, NumberText, MAX_LITERAL;
    var s := NumberText(v);
    NumberDigits(v);
    PositionalIsDecimal(s);
    assert Continues(s, 10);
    DecimalIff(s, rest);
    assert (s + rest)[0] == s[0] && Digit(s[0]);
    TokenReads(s + rest, Literal(v), rest, ts);
  }

  // A type the lexer knows.
  predicate LegalType(t: Type) {
    1 <= t.width <= MAX_TYPE_WIDTH
  }

  lemma TypeReads(t: Type, rest: string, ts: seq<Token>)
    requires LegalType(t) && Breaks(rest) && Reads(rest, ts)
    ensures Reads(TypeText(t) + rest, [TypeName(t)] + ts)
  {
    hide Tokenize;
    TypeWord(t);
    WordReads(TypeText(t), TypeName(t), rest, ts);
  }

  lemma TypeWord(t: Type)
    requires LegalType(t)
    ensures Word(TypeText(t)) && WordToken(TypeText(t)) == Some(TypeName(t))
  {
    hide NumberText;
    var d := NumberText(t.width);
    NumberDigits(t.width);
    var w := TypeText(t);
    assert w[1..] == d;
    forall i | 0 <= i < |w| ensures IdentChar(w[i]) && (i > 0 ==> Digit(w[i])) {
      if i > 0 {
        assert w[i] == d[i - 1];
      }
    }
    assert w[1] == d[0];
    NoKeyword(w);
  }

  // No keyword has a digit.
  lemma NoKeyword(w: string)
    requires |w| >= 2 && Digit(w[1])
    ensures KeywordOf(w).None?
  {
  }

  // -------------------------------------------------------------- expressions

  // An expression the language can spell.
  predicate LegalExpr(e: Expr) {
    match e
    case IntLit(v) => v <= MAX_LITERAL
    case NameRef(name) => LegalName(name)
    case Index(a, i) => LegalName(a) && LegalExpr(i)
    case Cast(t, x) => LegalType(t) && LegalExpr(x)
    case Unary(_, x) => LegalExpr(x)
    case Binary(_, l, r) => LegalExpr(l) && LegalExpr(r)
    case Ternary(c, x, y) => LegalExpr(c) && LegalExpr(x) && LegalExpr(y)
  }

  // What is printed first is a word, a digit, a parenthesis or an operator, never
  // something `!` would merge with.
  lemma ExprStart(e: Expr, rest: string)
    requires LegalExpr(e)
    ensures PrintExpr(e, rest) != [] && PrintExpr(e, rest)[0] != '='
  {
    match e
    case IntLit(v) => NumberDigits(v);
    case _ =>
  }

  lemma OperatorReads(op: Ast.UnOp, rest: string, ts: seq<Token>)
    requires rest != [] && rest[0] != '=' && Reads(rest, ts)
    ensures Reads(Put(UnarySymbol(op), rest), [Sym(UnarySymbol(op))] + ts)
  {
    SymbolReads(UnarySymbol(op), rest, ts);
  }

  lemma BinaryOperatorReads(op: Ast.BinOp, rest: string, ts: seq<Token>)
    requires Reads(rest, ts)
    ensures Reads(Gap(Put(BinarySymbol(op), Gap(rest))), [Sym(BinarySymbol(op))] + ts)
    ensures Breaks(Gap(Put(BinarySymbol(op), Gap(rest))))
  {
    hide Tokenize;
    GapReads(rest, ts);
    SolidApart(BinarySymbol(op), rest);
    SymbolReads(BinarySymbol(op), Gap(rest), ts);
    GapReads(Put(BinarySymbol(op), Gap(rest)), [Sym(BinarySymbol(op))] + ts);
  }

  lemma {:induction false} ExprReads(e: Expr, rest: string, ts: seq<Token>)
    requires LegalExpr(e) && Breaks(rest) && Reads(rest, ts)
    ensures Reads(PrintExpr(e, rest), SpellExpr(e, ts))
    decreases e, 1
  {
    hide Tokenize, NumberText, LegalName, MAX_LITERAL, Apart, TypeText;
    match e
    case IntLit(v) => LiteralReads(v, rest, ts);
    case NameRef(name) => NameReads(name, rest, ts);
    case Index(a, i) =>
      SolidReads(RBracket, rest, ts);
      ExprReads(i, Put(RBracket, rest), [Sym(RBracket)] + ts);
      IndexReads(a, PrintExpr(i, Put(RBracket, rest)), SpellExpr(i, [Sym(RBracket)] + ts));
    case Cast(t, x) =>
      ParenthesisedReads(x, rest, ts);
      TypeReads(t, Put(LParen, PrintExpr(x, Put(RParen, rest))), [Sym(LParen)] + SpellExpr(x, [Sym(RParen)] + ts));
    case Unary(op, x) => UnaryReads(op, x, rest, ts);
    case Binary(op, l, r) => BinaryReads(op, l, r, rest, ts);
    case Ternary(c, x, y) => TernaryReads(c, x, y, rest, ts);
  }

  // a [ ...
  lemma IndexReads(a: string, inner: string, ts: seq<Token>)
    requires LegalName(a) && Reads(inner, ts)
    ensures Reads(a + Put(LBracket, inner), [Identifier(a)] + ([Sym(LBracket)] + ts))
  {
    hide Reads, LegalName;
    SolidReads(LBracket, inner, ts);
    NameReads(a, Put(LBracket, inner), [Sym(LBracket)] + ts);
  }

  // l op r, between parentheses
  lemma {:induction false} BinaryReads(op: Ast.BinOp, l: Expr, r: Expr, rest: string, ts: seq<Token>)
    requires LegalExpr(l) && LegalExpr(r) && Reads(rest, ts)
    ensures Reads(PrintExpr(Binary(op, l, r), rest), SpellExpr(Binary(op, l, r), ts))
    decreases Binary(op, l, r), 0
  {
    hide Reads, Put, Gap, PrintOperand, SpellOperand, LegalExpr, BinarySymbol;
    SolidReads(RParen, rest, ts);
    CloseBreaks(rest);
    var close, closeTs := Put(RParen, rest), [Sym(RParen)] + ts;
    OperandReads(r, close, closeTs);
    var right, rightTs := PrintOperand(r, close), SpellOperand(r, closeTs);
    BinaryOperatorReads(op, right, rightTs);
    var tail, tailTs := Gap(Put(BinarySymbol(op), Gap(right))), [Sym(BinarySymbol(op))] + rightTs;
    OperandReads(l, tail, tailTs);
    SolidReads(LParen, PrintOperand(l, tail), SpellOperand(l, tailTs));
  }

  // ( e )
  lemma {:induction false} ParenthesisedReads(e: Expr, rest: string, ts: seq<Token>)
    requires LegalExpr(e) && Reads(rest, ts)
    ensures Reads(Put(LParen, PrintExpr(e, Put(RParen, rest))), [Sym(LParen)] + SpellExpr(e, [Sym(RParen)] + ts))
    decreases e, 2
  {
    hide Tokenize, PrintExpr, SpellExpr;
    SolidReads(RParen, rest, ts);
    ExprReads(e, Put(RParen, rest), [Sym(RParen)] + ts);
    SolidReads(LParen, PrintExpr(e, Put(RParen, rest)), SpellExpr(e, [Sym(RParen)] + ts));
  }

  lemma {:induction false} OperandReads(e: Expr, rest: string, ts: seq<Token>)
    requires LegalExpr(e) && Breaks(rest) && Reads(rest, ts)
    ensures Reads(PrintOperand(e, rest), SpellOperand(e, ts))
    decreases e, 3
  {
    hide Tokenize, PrintExpr, SpellExpr;
    if Wrapped(e) {
      ParenthesisedReads(e, rest, ts);
    } else {
      ExprReads(e, rest, ts);
    }
  }

  lemma {:induction false} UnaryReads(op: Ast.UnOp, x: Expr, rest: string, ts: seq<Token>)
    requires LegalExpr(x) && Breaks(rest) && Reads(rest, ts)
    ensures Reads(PrintExpr(Unary(op, x), rest), SpellExpr(Unary(op, x), ts))
    decreases x, 4
  {
    hide Tokenize;
    if x.Unary? {
      SolidReads(RParen, rest, ts);
      var outer, close := Put(RParen, rest), [Sym(RParen)] + ts;
      ParenthesisedReads(x, outer, close);
      var inner, spelled := Put(LParen, PrintExpr(x, Put(RParen, outer))), [Sym(LParen)] + SpellExpr(x, [Sym(RParen)] + close);
      OperatorReads(op, inner, spelled);
      SolidReads(LParen, Put(UnarySymbol(op), inner), [Sym(UnarySymbol(op))] + spelled);
    } else {
      ExprReads(x, rest, ts);
      ExprStart(x, rest);
      OperatorReads(op, PrintExpr(x, rest), SpellExpr(x, ts));
    }
  }

  // A spaced `?` or `:`
  lemma MarkReads(mark: Symbol, rest: string, ts: seq<Token>)
    requires Solid(mark) && Reads(rest, ts)
    ensures Reads(Gap(Put(mark, Gap(rest))), [Sym(mark)] + ts)
    ensures Breaks(Gap(Put(mark, Gap(rest))))
  {
    hide Tokenize;
    GapReads(rest, ts);
    SolidReads(mark, Gap(rest), ts);
    GapReads(Put(mark, Gap(rest)), [Sym(mark)] + ts);
  }

  lemma {:induction false} TernaryReads(c: Expr, x: Expr, y: Expr, rest: string, ts: seq<Token>)
    requires LegalExpr(c) && LegalExpr(x) && LegalExpr(y) && Reads(rest, ts)
    ensures Reads(PrintExpr(Ternary(c, x, y), rest), SpellExpr(Ternary(c, x, y), ts))
    decreases Ternary(c, x, y), 0
  {
    hide Tokenize, Put, Gap, PrintExpr, SpellExpr;
    var close, closeTs := Put(RParen, rest), [Sym(RParen)] + ts;
    SolidReads(RParen, rest, ts);
    CloseBreaks(rest);
    ExprReads(y, close, closeTs);
    var colon, colonTs := Gap(Put(Colon, Gap(PrintExpr(y, close)))), [Sym(Colon)] + SpellExpr(y, closeTs);
    MarkReads(Colon, PrintExpr(y, close), SpellExpr(y, closeTs));
    ExprReads(x, colon, colonTs);
    var question, questionTs := Gap(Put(Question, Gap(PrintExpr(x, colon)))), [Sym(Question)] + SpellExpr(x, colonTs);
    MarkReads(Question, PrintExpr(x, colon), SpellExpr(x, colonTs));
    ExprReads(c, question, questionTs);
    SolidReads(LParen, PrintExpr(c, question), SpellExpr(c, questionTs));
    TernaryText(c, x, y, rest);
    TernarySpelling(c, x, y, ts);
  }

  lemma CloseBreaks(rest: string)
    ensures Breaks(Put(RParen, rest))
  {
  }

  lemma TernaryText(c: Expr, x: Expr, y: Expr, rest: string)
    ensures var colon := Gap(Put(Colon, Gap(PrintExpr(y, Put(RParen, rest)))));
            var question := Gap(Put(Question, Gap(PrintExpr(x, colon))));
            PrintExpr(Ternary(c, x, y), rest) == Put(LParen, PrintExpr(c, question))
  {
    hide Put, Gap;
  }

  lemma TernarySpelling(c: Expr, x: Expr, y: Expr, ts: seq<Token>)
    ensures var colonTs := [Sym(Colon)] + SpellExpr(y, [Sym(RParen)] + ts);
            var questionTs := [Sym(Question)] + SpellExpr(x, colonTs);
            SpellExpr(Ternary(c, x, y), ts) == [Sym(LParen)] + SpellExpr(c, questionTs)
  {
  }
}
