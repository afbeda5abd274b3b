/**
 The layout of printed programs: every line is indented by two blanks for each block
 open at it, and nowhere else does a blank follow a blank or end a line.
 */
module Layout {
  import Ast
  import opened FixedWidth
  import opened Syntax
  import opened Tokens
  import opened Printer
  import opened LexPrinted
  import opened LexProgramPrinted
  import opened ParseProgramPrinted
  import Lex
  import opened Wrappers

  function Blanks(s: string): (k: nat)
    ensures k <= |s|
  {
    if s != [] && s[0] == ' ' then 1 + Blanks(s[1..]) else 0
  }

  predicate Solid(s: string) {
    s != [] && s[0] != ' ' && s[0] != '\n'
  }

  // The rest of a line, and the lines after it, with `open` braces open.
  predicate Tidy(s: string, open: nat)
    decreases |s|, 0
  {
    if s == [] then true
    else if s[0] == '\n' then Line(s[1..], open)
    else
      && (s[0] == ' ' ==> Solid(s[1..]))
      && (if s[0] == '{' then Tidy(s[1..], open + 1)
          else if s[0] == '}' then open > 0 && Tidy(s[1..], open - 1)
          else Tidy(s[1..], open))
  }

  // Whole lines; a brace that closes a block stands where the block's line does.
  predicate Line(s: string, open: nat)
    decreases |s|, 1
  {
    s == [] ||
    (var t := s[Blanks(s)..];
     Solid(t) && (t[0] == '}' ==> open > 0) && Blanks(s) == 2 * (if t[0] == '}' then open - 1 else open) && Tidy(t, open))
  }

  // ----------------------------------------------------------------------- small pieces

  // No blanks, line ends or braces.
  predicate Flat(w: string) {
    forall i | 0 <= i < |w| :: w[i] != ' ' && w[i] != '\n' && w[i] != '{' && w[i] != '}'
  }

  lemma {:induction false} FlatTidy(w: string, rest: string, open: nat)
    requires Flat(w) && Tidy(rest, open)
    ensures Tidy(w + rest, open) && (w != [] ==> Solid(w + rest))
    decreases |w|
  {
    if w == [] {
      assert w + rest == rest;
    } else {
      assert (w + rest)[1..] == w[1..] + rest;
      FlatTidy(w[1..], rest, open);
    }
  }

  lemma PutTidy(s: Symbol, rest: string, open: nat)
    requires s != LBrace && s != RBrace && Tidy(rest, open)
    ensures Tidy(Put(s, rest), open) && Solid(Put(s, rest))
  {
    FlatTidy(SymbolText(s), rest, open);
  }

  lemma OpenTidy(rest: string, open: nat)
    requires Tidy(rest, open + 1)
    ensures Tidy(Put(LBrace, rest), open) && Solid(Put(LBrace, rest))
  {
    assert Put(LBrace, rest)[1..] == rest;
  }

  lemma CloseTidy(rest: string, open: nat)
    requires Tidy(rest, open)
    ensures Tidy(Put(RBrace, rest), open + 1) && Solid(Put(RBrace, rest)) && Put(RBrace, rest)[0] == '}'
  {
    assert Put(RBrace, rest)[1..] == rest;
  }

  lemma GapTidy(rest: string, open: nat)
    requires Tidy(rest, open) && Solid(rest)
    ensures Tidy(Gap(rest), open)
  {
    assert Gap(rest)[1..] == rest;
  }

  lemma NewLineTidy(rest: string, open: nat)
    requires Line(rest, open)
    ensures Tidy(NewLine(rest), open)
  {
    assert NewLine(rest)[1..] == rest;
  }

  lemma EndTidy(rest: string, open: nat)
    requires Line(rest, open)
    ensures Tidy(EndLine(rest), open) && Solid(EndLine(rest))
  {
    NewLineTidy(rest, open);
    PutTidy(Semi, NewLine(rest), open);
  }

  lemma {:induction false} IndentBlanks(depth: nat, t: string)
    requires Solid(t)
    ensures var s := Indent(depth, t); Blanks(s) == 2 * depth && s[2 * depth..] == t
    decreases depth
  {
    var s := Indent(depth, t);
    if depth > 0 {
      IndentBlanks(depth - 1, t);
      assert s[1..][1..] == Indent(depth - 1, t);
      assert s[2..] == Indent(depth - 1, t) && s[2 * depth..] == s[2..][2 * (depth - 1)..];
    } else {
      assert s[0..] == t;
    }
  }

  lemma IndentLine(depth: nat, t: string, open: nat)
    requires Solid(t) && Tidy(t, open) && open == if t[0] == '}' then depth + 1 else depth
    ensures Line(Indent(depth, t), open)
  {
    IndentBlanks(depth, t);
  }

  lemma NumberFlat(v: nat)
    ensures Flat(NumberText(v))
  {
    hide NumberText, Lex.Decimal;
    NumberDigits(v);
  }

  lemma TypeFlat(t: Type)
    ensures Flat(TypeText(t))
  {
    NumberFlat(t.width);
  }

  lemma NameFlat(w: string)
    requires LegalName(w)
    ensures Flat(w) && w != []
  {
    hide Lex.KeywordOf, Lex.TypeShape;
  }

  lemma TypeTidy(t: Type, rest: string, open: nat)
    requires Tidy(rest, open)
    ensures Tidy(PrintType(t, rest), open) && Solid(PrintType(t, rest)) && PrintType(t, rest)[0] != '}'
  {
    TypeFlat(t);
    FlatTidy(TypeText(t), rest, open);
  }

  lemma NameTidy(w: string, rest: string, open: nat)
    requires LegalName(w) && Tidy(rest, open)
    ensures Tidy(w + rest, open) && Solid(w + rest) && (w + rest)[0] != '}'
  {
    hide LegalName;
    NameFlat(w);
    FlatTidy(w, rest, open);
  }

  lemma KeyTidy(k: Keyword, rest: string, open: nat)
    requires Tidy(rest, open)
    ensures Tidy(PrintKey(k, rest), open) && Solid(PrintKey(k, rest)) && PrintKey(k, rest)[0] != '}'
  {
    FlatTidy(KeywordText(k), rest, open);
  }

  lemma AssignTidy(rest: string, open: nat)
    requires Tidy(rest, open) && Solid(rest)
    ensures Tidy(PrintAssign(rest), open)
  {
    hide Tidy, Solid;
    GapTidy(rest, open);
    PutTidy(AssignT, Gap(rest), open);
    GapTidy(Put(AssignT, Gap(rest)), open);
  }

  // ------------------------------------------------------------------------ expressions

  lemma {:induction false} ExprTidy(e: Expr, rest: string, open: nat)
    requires LegalExpr(e) && Tidy(rest, open)
    ensures Tidy(PrintExpr(e, rest), open) && Solid(PrintExpr(e, rest))
    decreases e, 0
  {
    hide Tidy, Solid, LegalName, LegalType, NumberText, Put, Gap;
    match e
    case IntLit(v) =>
      NumberFlat(v);
      FlatTidy(NumberText(v), rest, open);
    case NameRef(name) => NameTidy(name, rest, open);
    case Index(a, i) =>
      PutTidy(RBracket, rest, open);
      ExprTidy(i, Put(RBracket, rest), open);
      PutTidy(LBracket, PrintExpr(i, Put(RBracket, rest)), open);
      NameTidy(a, Put(LBracket, PrintExpr(i, Put(RBracket, rest))), open);
    case Cast(t, x) =>
      PutTidy(RParen, rest, open);
      ExprTidy(x, Put(RParen, rest), open);
      PutTidy(LParen, PrintExpr(x, Put(RParen, rest)), open);
      TypeTidy(t, Put(LParen, PrintExpr(x, Put(RParen, rest))), open);
    case Unary(op, x) => UnaryTidy(op, x, rest, open);
    case Binary(op, l, r) =>
      PutTidy(RParen, rest, open);
      OperandTidy(r, Put(RParen, rest), open);
      var right := PrintOperand(r, Put(RParen, rest));
      GapTidy(right, open);
      PutTidy(BinarySymbol(op), Gap(right), open);
      GapTidy(Put(BinarySymbol(op), Gap(right)), open);
      OperandTidy(l, Gap(Put(BinarySymbol(op), Gap(right))), open);
      PutTidy(LParen, PrintOperand(l, Gap(Put(BinarySymbol(op), Gap(right)))), open);
    case Ternary(c, x, y) =>
      PutTidy(RParen, rest, open);
      ExprTidy(y, Put(RParen, rest), open);
      var third := PrintExpr(y, Put(RParen, rest));
      GapTidy(third, open);
      PutTidy(Colon, Gap(third), open);
      GapTidy(Put(Colon, Gap(third)), open);
      ExprTidy(x, Gap(Put(Colon, Gap(third))), open);
      var second := PrintExpr(x, Gap(Put(Colon, Gap(third))));
      GapTidy(second, open);
      PutTidy(Question, Gap(second), open);
      GapTidy(Put(Question, Gap(second)), open);
      ExprTidy(c, Gap(Put(Question, Gap(second))), open);
      PutTidy(LParen, PrintExpr(c, Gap(Put(Question, Gap(second)))), open);
  }

  lemma {:induction false} UnaryTidy(op: Ast.UnOp, x: Expr, rest: string, open: nat)
    requires LegalExpr(x) && Tidy(rest, open)
    ensures Tidy(PrintExpr(Unary(op, x), rest), open) && Solid(PrintExpr(Unary(op, x), rest))
    decreases x, 2
  {
    hide Tidy, Solid, LegalExpr, Put;
    if x.Unary? {
      PutTidy(RParen, rest, open);
      PutTidy(RParen, Put(RParen, rest), open);
      var inner := Put(RParen, Put(RParen, rest));
      ExprTidy(x, inner, open);
      PutTidy(LParen, PrintExpr(x, inner), open);
      PutTidy(UnarySymbol(op), Put(LParen, PrintExpr(x, inner)), open);
      PutTidy(LParen, Put(UnarySymbol(op), Put(LParen, PrintExpr(x, inner))), open);
    } else {
      ExprTidy(x, rest, open);
      PutTidy(UnarySymbol(op), PrintExpr(x, rest), open);
    }
  }

  lemma {:induction false} OperandTidy(e: Expr, rest: string, open: nat)
    requires LegalExpr(e) && Tidy(rest, open)
    ensures Tidy(PrintOperand(e, rest), open) && Solid(PrintOperand(e, rest))
    decreases e, 1
  {
    hide Tidy, Solid, LegalExpr, Put, PrintExpr;
    if Wrapped(e) {
      PutTidy(RParen, rest, open);
      ExprTidy(e, Put(RParen, rest), open);
      PutTidy(LParen, PrintExpr(e, Put(RParen, rest)), open);
    } else {
      ExprTidy(e, rest, open);
    }
  }

  // An operand that is neither a literal, a name nor a binary is parenthesised; those
  // stand as they are.
  lemma OperandText(e: Expr, rest: string)
    ensures PrintOperand(e, rest) ==
            if e.IntLit? || e.NameRef? || e.Binary? then PrintExpr(e, rest) else "(" + PrintExpr(e, ")" + rest)
  {
    hide PrintExpr;
  }

  // ------------------------------------------------------------------------- statements

  lemma SourceTidy(v: Source, rest: string, open: nat)
    requires LegalSource(v) && Tidy(rest, open)
    ensures Tidy(PrintSource(v, rest), open) && Solid(PrintSource(v, rest))
  {
    hide Tidy, Solid, LegalExpr, LegalName, Put, PrintExpr, PrintKey;
    match v
    case Value(e) => ExprTidy(e, rest, open);
    case Read(s) =>
      PutTidy(RParen, rest, open);
      NameTidy(s, Put(RParen, rest), open);
      PutTidy(LParen, s + Put(RParen, rest), open);
      KeyTidy(KwRead, Put(LParen, s + Put(RParen, rest)), open);
  }

  lemma {:induction false} ListTidy(es: seq<Expr>, rest: string, open: nat)
    requires LegalList(es) && Tidy(rest, open) && (es == [] ==> Solid(rest))
    ensures Tidy(PrintList(es, rest), open) && Solid(PrintList(es, rest))
    decreases |es|
  {
    hide Tidy, Solid, LegalExpr, Put, Gap, PrintExpr;
    if es != [] {
      if |es| == 1 {
        ExprTidy(es[0], rest, open);
      } else {
        ListTidy(es[1..], rest, open);
        GapTidy(PrintList(es[1..], rest), open);
        PutTidy(Comma, Gap(PrintList(es[1..], rest)), open);
        ExprTidy(es[0], Put(Comma, Gap(PrintList(es[1..], rest))), open);
      }
    }
  }

  lemma ElemsTidy(es: seq<Expr>, rest: string, open: nat)
    requires LegalList(es) && es != [] && Tidy(rest, open)
    ensures Tidy(PrintElems(es, rest), open)
  {
    hide Tidy, Solid, LegalList, Put, Gap, PrintList, PrintAssign;
    CloseTidy(rest, open);
    GapTidy(Put(RBrace, rest), open + 1);
    ListTidy(es, Gap(Put(RBrace, rest)), open + 1);
    var list := PrintList(es, Gap(Put(RBrace, rest)));
    GapTidy(list, open + 1);
    OpenTidy(Gap(list), open);
    AssignTidy(Put(LBrace, Gap(list)), open);
  }

  lemma BracketTidy(e: Expr, tail: string, open: nat)
    requires LegalExpr(e) && Tidy(tail, open)
    ensures Tidy(Put(LBracket, PrintExpr(e, Put(RBracket, tail))), open)
  {
    hide Tidy, Solid, LegalExpr, Put, PrintExpr;
    PutTidy(RBracket, tail, open);
    ExprTidy(e, Put(RBracket, tail), open);
    PutTidy(LBracket, PrintExpr(e, Put(RBracket, tail)), open);
  }

  lemma ParenTidy(e: Expr, tail: string, open: nat)
    requires LegalExpr(e) && Tidy(tail, open)
    ensures Tidy(PrintParen(e, tail), open) && Solid(PrintParen(e, tail))
  {
    hide Tidy, Solid, LegalExpr, Put, PrintExpr;
    PutTidy(RParen, tail, open);
    ExprTidy(e, Put(RParen, tail), open);
    PutTidy(LParen, PrintExpr(e, Put(RParen, tail)), open);
  }

  // What a statement is printed as, after its indentation.
  predicate Starts(s: string, open: nat) {
    Tidy(s, open) && Solid(s) && s[0] != '}'
  }

  lemma DeclTidy(s: Stmt, depth: nat, rest: string)
    requires (s.VarDecl? || s.ArrayDecl?) && LegalStmt(s) && Line(rest, depth)
    ensures Starts(PrintBare(s, depth, rest), depth)
  {
    hide Tidy, Line, Solid, LegalExpr, LegalName, LegalType, LegalList, LegalSource, Put, Gap, PrintExpr, PrintSource, PrintElems, PrintType, PrintAssign, EndLine;
    EndTidy(rest, depth);
    match s
    case VarDecl(t, name, init) =>
      SourceTidy(init, EndLine(rest), depth);
      AssignTidy(PrintSource(init, EndLine(rest)), depth);
      NameTidy(name, PrintAssign(PrintSource(init, EndLine(rest))), depth);
      GapTidy(name + PrintAssign(PrintSource(init, EndLine(rest))), depth);
      TypeTidy(t, Gap(name + PrintAssign(PrintSource(init, EndLine(rest)))), depth);
    case ArrayDecl(t, name, size, elems) =>
      var tail := if elems == [] then EndLine(rest) else PrintElems(elems, EndLine(rest));
      if elems != [] {
        ElemsTidy(elems, EndLine(rest), depth);
      }
      BracketTidy(size, tail, depth);
      var text := Put(LBracket, PrintExpr(size, Put(RBracket, tail)));
      NameTidy(name, text, depth);
      GapTidy(name + text, depth);
      TypeTidy(t, Gap(name + text), depth);
  }

  lemma SimpleTidy(s: Stmt, depth: nat, rest: string)
    requires (s.Assign? || s.Write? || s.Return?) && LegalStmt(s) && Line(rest, depth)
    ensures Starts(PrintBare(s, depth, rest), depth)
  {
    hide Tidy, Line, Solid, LegalExpr, LegalName, LegalSource, Put, Gap, PrintExpr, PrintSource, PrintKey, PrintAssign, EndLine;
    EndTidy(rest, depth);
    match s
    case Assign(name, index, value) =>
      SourceTidy(value, EndLine(rest), depth);
      AssignTidy(PrintSource(value, EndLine(rest)), depth);
      var tail := PrintAssign(PrintSource(value, EndLine(rest)));
      if index.Some? {
        BracketTidy(index.value, tail, depth);
      }
      NameTidy(name, if index.Some? then Put(LBracket, PrintExpr(index.value, Put(RBracket, tail))) else tail, depth);
    case Write(stream, e) =>
      PutTidy(RParen, EndLine(rest), depth);
      ExprTidy(e, Put(RParen, EndLine(rest)), depth);
      var text := PrintExpr(e, Put(RParen, EndLine(rest)));
      GapTidy(text, depth);
      PutTidy(Comma, Gap(text), depth);
      NameTidy(stream, Put(Comma, Gap(text)), depth);
      PutTidy(LParen, stream + Put(Comma, Gap(text)), depth);
      KeyTidy(KwWrite, Put(LParen, stream + Put(Comma, Gap(text))), depth);
    case Return(e) =>
      ExprTidy(e, EndLine(rest), depth);
      GapTidy(PrintExpr(e, EndLine(rest)), depth);
      KeyTidy(KwReturn, Gap(PrintExpr(e, EndLine(rest))), depth);
  }

  lemma {:induction false} BlockTidy(b: seq<Stmt>, depth: nat, rest: string)
    requires LegalBlock(b) && Tidy(rest, depth)
    ensures Starts(PrintBlock(b, depth, rest), depth)
    decreases b, 1
  {
    hide Tidy, Line, Solid, LegalBlock, PrintStmts, Put, Indent, NewLine;
    CloseTidy(rest, depth);
    IndentLine(depth, Put(RBrace, rest), depth + 1);
    StmtsTidy(b, depth + 1, Indent(depth, Put(RBrace, rest)));
    var lines := PrintStmts(b, depth + 1, Indent(depth, Put(RBrace, rest)));
    NewLineTidy(lines, depth + 1);
    OpenTidy(NewLine(lines), depth);
    OpenStarts(NewLine(lines));
  }

  lemma OpenStarts(rest: string)
    ensures Put(LBrace, rest) != [] && Put(LBrace, rest)[0] == '{'
  {
  }

  lemma {:induction false} StmtsTidy(b: seq<Stmt>, depth: nat, rest: string)
    requires LegalBlock(b) && Line(rest, depth)
    ensures Line(PrintStmts(b, depth, rest), depth)
    decreases b, 0
  {
    hide Tidy, Line, LegalStmt, PrintStmt;
    if b != [] {
      StmtsTidy(b[1..], depth, rest);
      StmtTidy(b[0], depth, PrintStmts(b[1..], depth, rest));
    }
  }

  lemma {:induction false} StmtTidy(s: Stmt, depth: nat, rest: string)
    requires LegalStmt(s) && Line(rest, depth)
    ensures Line(PrintStmt(s, depth, rest), depth)
    decreases s, 2
  {
    hide Tidy, Line, Solid, LegalStmt, PrintBare, Indent;
    BareTidy(s, depth, rest);
    IndentLine(depth, PrintBare(s, depth, rest), depth);
  }

  lemma {:induction false} BareTidy(s: Stmt, depth: nat, rest: string)
    requires LegalStmt(s) && Line(rest, depth)
    ensures Starts(PrintBare(s, depth, rest), depth)
    decreases s, 1
  {
    hide Tidy, Line, Solid, Starts, LegalExpr, LegalName, LegalType, LegalBlock, LegalElse, PrintBlock, PrintFor, PrintKey, PrintParen, PrintElse, NewLine, Gap;
    NewLineTidy(rest, depth);
    match s
    case If(c, t, e) => IfTidy(s, depth, rest);
    case For(p, _, _, _, _, _, _, _, _) =>
      ForTidy(s, depth, rest);
      PragmaTidy(p, depth, PrintFor(s, depth, rest));
    case Block(b) => BlockTidy(b, depth, NewLine(rest));
    case VarDecl(_, _, _) => DeclTidy(s, depth, rest);
    case ArrayDecl(_, _, _, _) => DeclTidy(s, depth, rest);
    case _ => SimpleTidy(s, depth, rest);
  }

  lemma {:induction false} IfTidy(s: Stmt, depth: nat, rest: string)
    requires s.If? && LegalStmt(s) && Line(rest, depth)
    ensures Starts(PrintBare(s, depth, rest), depth)
    decreases s, 0
  {
    hide Tidy, Line, Solid, LegalExpr, LegalBlock, LegalElse, PrintBlock, PrintKey, PrintParen, PrintElse, NewLine, Gap;
    NewLineTidy(rest, depth);
    ElseTidy(s.elseS, depth, NewLine(rest));
    BlockTidy(s.thenB, depth, PrintElse(s.elseS, depth, NewLine(rest)));
    var block := PrintBlock(s.thenB, depth, PrintElse(s.elseS, depth, NewLine(rest)));
    GapTidy(block, depth);
    ParenTidy(s.cond, Gap(block), depth);
    GapTidy(PrintParen(s.cond, Gap(block)), depth);
    KeyTidy(KwIf, Gap(PrintParen(s.cond, Gap(block))), depth);
  }

  lemma {:induction false} ElseTidy(e: Else, depth: nat, rest: string)
    requires LegalElse(e) && Tidy(rest, depth)
    ensures Tidy(PrintElse(e, depth, rest), depth)
    decreases e, 0
  {
    hide Tidy, Solid, LegalExpr, LegalBlock, PrintBlock, PrintKey, PrintParen, Gap;
    match e
    case NoElse =>
    case ElseDo(If(c, t, _)) =>
      BlockTidy(t, depth, rest);
      GapTidy(PrintBlock(t, depth, rest), depth);
      ParenTidy(c, Gap(PrintBlock(t, depth, rest)), depth);
      var text := PrintParen(c, Gap(PrintBlock(t, depth, rest)));
      GapTidy(text, depth);
      KeyTidy(KwIf, Gap(text), depth);
      GapTidy(PrintKey(KwIf, Gap(text)), depth);
      KeyTidy(KwElse, Gap(PrintKey(KwIf, Gap(text))), depth);
      GapTidy(PrintKey(KwElse, Gap(PrintKey(KwIf, Gap(text)))), depth);
    case ElseDo(Block(b)) =>
      BlockTidy(b, depth, rest);
      GapTidy(PrintBlock(b, depth, rest), depth);
      KeyTidy(KwElse, Gap(PrintBlock(b, depth, rest)), depth);
      GapTidy(PrintKey(KwElse, Gap(PrintBlock(b, depth, rest))), depth);
    case ElseDo(_) =>
  }

  // A `#pragma` line may hold blanks, but never two in a row.
  lemma {:induction false} PragmaTidy(p: Pragma, depth: nat, text: string)
    requires Starts(text, depth)
    ensures Starts(PrintPragma(p, depth, text), depth)
  {
    hide Tidy, Line, Solid, NumberText, Indent, NewLine;
    if p != NoPragma {
      IndentLine(depth, text, depth);
      NewLineTidy(Indent(depth, text), depth);
      PragmaWords(p, NewLine(Indent(depth, text)), depth);
    }
  }

  lemma PragmaWords(p: Pragma, rest: string, depth: nat)
    requires p != NoPragma && Tidy(rest, depth)
    ensures Starts(PragmaText(p) + rest, depth)
  {
    hide Tidy, Solid, NumberText, Starts;
    match p
    case Unroll =>
      FlatTidy("unroll", rest, depth);
      TwoWords("unroll" + rest, depth);
      assert UNROLL == "#pragma" + " " + "unroll";
      Joined("#pragma", " ", "unroll", rest);
    case UnrollBy(n) =>
      ValueTidy("unroll", "factor=", n, rest, depth);
      assert UNROLL_BY == "#pragma" + " " + ("unroll" + " " + "factor=");
      Spaced("unroll", "factor=", NumberText(n), rest);
    case Pipeline(n) =>
      ValueTidy("pipeline", "II=", n, rest, depth);
      assert PIPELINE == "#pragma" + " " + ("pipeline" + " " + "II=");
      Spaced("pipeline", "II=", NumberText(n), rest);
  }

  lemma Joined(a: string, b: string, c: string, rest: string)
    ensures a + b + c + rest == a + (b + (c + rest))
  {
  }

  lemma Spaced(a: string, b: string, n: string, rest: string)
    ensures "#pragma" + " " + (a + " " + b) + n + rest == "#pragma" + (" " + (a + Gap(b + (n + rest))))
  {
    Joined("#pragma", " ", a + " " + b, n);
    Joined("#pragma", " ", a + " " + b + n, rest);
    Joined(a, " ", b, n + rest);
    Joined(a, " ", b, n);
  }

  lemma ValueTidy(a: string, b: string, n: nat, rest: string, depth: nat)
    requires Flat(a) && a != [] && Flat(b) && b != [] && Tidy(rest, depth)
    ensures Starts("#pragma" + (" " + (a + Gap(b + (NumberText(n) + rest)))), depth)
  {
    hide Tidy, Solid, NumberText, Starts;
    NumberFlat(n);
    FlatTidy(NumberText(n), rest, depth);
    FlatTidy(b, NumberText(n) + rest, depth);
    GapTidy(b + (NumberText(n) + rest), depth);
    FlatTidy(a, Gap(b + (NumberText(n) + rest)), depth);
    TwoWords(a + Gap(b + (NumberText(n) + rest)), depth);
  }

  lemma TwoWords(text: string, depth: nat)
    requires Tidy(text, depth) && Solid(text)
    ensures Starts("#pragma" + (" " + text), depth)
  {
    hide Tidy;
    GapTidy(text, depth);
    FlatTidy("#pragma", Gap(text), depth);
  }

  lemma InitTidy(s: Stmt, rest: string, depth: nat)
    requires s.For? && LegalStmt(s) && Tidy(rest, depth) && Solid(rest)
    ensures Tidy(PrintInit(s, rest), depth) && Solid(PrintInit(s, rest))
  {
    hide Tidy, Solid, LegalExpr, LegalName, LegalType, LegalBlock, PrintType, PrintAssign, Put, Gap, PrintExpr;
    GapTidy(rest, depth);
    PutTidy(Semi, Gap(rest), depth);
    ExprTidy(s.start, Put(Semi, Gap(rest)), depth);
    var value := PrintExpr(s.start, Put(Semi, Gap(rest)));
    AssignTidy(value, depth);
    NameTidy(s.iv, PrintAssign(value), depth);
    GapTidy(PrintName(s.iv, PrintAssign(value)), depth);
    TypeTidy(s.ivType, Gap(PrintName(s.iv, PrintAssign(value))), depth);
  }

  lemma TestTidy(s: Stmt, rest: string, depth: nat)
    requires s.For? && LegalStmt(s) && Tidy(rest, depth) && Solid(rest)
    ensures Tidy(PrintTest(s, rest), depth) && Solid(PrintTest(s, rest))
  {
    hide Tidy, Solid, LegalExpr, LegalName, LegalType, LegalBlock, Put, Gap, PrintExpr;
    GapTidy(rest, depth);
    PutTidy(Semi, Gap(rest), depth);
    ExprTidy(s.limit, Put(Semi, Gap(rest)), depth);
    var limit := PrintExpr(s.limit, Put(Semi, Gap(rest)));
    GapTidy(limit, depth);
    PutTidy(RelSymbol(s.rel), Gap(limit), depth);
    GapTidy(Put(RelSymbol(s.rel), Gap(limit)), depth);
    NameTidy(s.iv, Gap(Put(RelSymbol(s.rel), Gap(limit))), depth);
  }

  lemma StepTidy(s: Stmt, rest: string, depth: nat)
    requires s.For? && LegalStmt(s) && Tidy(rest, depth)
    ensures Tidy(PrintStep(s, rest), depth) && Solid(PrintStep(s, rest))
  {
    hide Tidy, Solid, LegalExpr, LegalName, LegalType, LegalBlock, Put, Gap, PrintExpr, PrintAssign;
    PutTidy(RParen, rest, depth);
    ExprTidy(s.step, Put(RParen, rest), depth);
    var step := PrintExpr(s.step, Put(RParen, rest));
    GapTidy(step, depth);
    var sign := if s.stepIsAdd then PlusT else MinusT;
    PutTidy(sign, Gap(step), depth);
    GapTidy(Put(sign, Gap(step)), depth);
    NameTidy(s.iv, Gap(Put(sign, Gap(step))), depth);
    var sum := PrintName(s.iv, Gap(Put(sign, Gap(step))));
    AssignTidy(sum, depth);
    NameTidy(s.iv, PrintAssign(sum), depth);
  }

  lemma {:induction false} ForTidy(s: Stmt, depth: nat, rest: string)
    requires s.For? && LegalStmt(s) && Line(rest, depth)
    ensures Starts(PrintFor(s, depth, rest), depth)
    decreases s, 0
  {
    hide Tidy, Line, Solid, LegalExpr, LegalName, LegalType, LegalBlock, PrintBlock, PrintKey, PrintInit, PrintTest, PrintStep, Put, Gap, NewLine;
    NewLineTidy(rest, depth);
    BlockTidy(s.body, depth, NewLine(rest));
    var body := PrintBlock(s.body, depth, NewLine(rest));
    GapTidy(body, depth);
    StepTidy(s, Gap(body), depth);
    TestTidy(s, PrintStep(s, Gap(body)), depth);
    InitTidy(s, PrintTest(s, PrintStep(s, Gap(body))), depth);
    var head := PrintInit(s, PrintTest(s, PrintStep(s, Gap(body))));
    PutTidy(LParen, head, depth);
    GapTidy(Put(LParen, head), depth);
    KeyTidy(KwFor, Gap(Put(LParen, head)), depth);
  }

  // --------------------------------------------------------------------------- programs

  lemma ParamTidy(p: Param, rest: string)
    requires LegalParam(p) && Tidy(rest, 0)
    ensures Tidy(PrintParam(p, rest), 0) && Solid(PrintParam(p, rest))
  {
    hide Tidy, Solid, LegalExpr, LegalName, LegalType, Put, Gap, PrintExpr, PrintType, PrintKey;
    match p
    case Scalar(t, name) =>
      NameTidy(name, rest, 0);
      GapTidy(name + rest, 0);
      TypeTidy(t, Gap(name + rest), 0);
    case Array(t, name, size) =>
      BracketTidy(size, rest, 0);
      var text := Put(LBracket, PrintExpr(size, Put(RBracket, rest)));
      NameTidy(name, text, 0);
      GapTidy(name + text, 0);
      TypeTidy(t, Gap(name + text), 0);
    case StreamIn(t, name) => StreamTidy(KwIn, t, name, rest);
    case StreamOut(t, name) => StreamTidy(KwOut, t, name, rest);
  }

  lemma StreamTidy(way: Keyword, t: Type, name: string, rest: string)
    requires LegalName(name) && Tidy(rest, 0)
    ensures Tidy(PrintStream(way, t, name, rest), 0) && Solid(PrintStream(way, t, name, rest))
  {
    hide Tidy, Solid, LegalName, Put, Gap, PrintType, PrintKey;
    NameTidy(name, rest, 0);
    GapTidy(name + rest, 0);
    PutTidy(GtT, Gap(name + rest), 0);
    TypeTidy(t, Put(GtT, Gap(name + rest)), 0);
    var text := PrintType(t, Put(GtT, Gap(name + rest)));
    PutTidy(LtT, text, 0);
    KeyTidy(KwStream, Put(LtT, text), 0);
    GapTidy(PrintKey(KwStream, Put(LtT, text)), 0);
    KeyTidy(way, Gap(PrintKey(KwStream, Put(LtT, text))), 0);
  }

  lemma {:induction false} ParamsTidy(ps: seq<Param>, rest: string)
    requires (forall i | 0 <= i < |ps| :: LegalParam(ps[i])) && Tidy(rest, 0) && Solid(rest)
    ensures Tidy(PrintParams(ps, rest), 0) && Solid(PrintParams(ps, rest))
    decreases |ps|
  {
    hide Tidy, Solid, LegalParam, Put, Gap, PrintParam;
    if ps != [] {
      if |ps| == 1 {
        ParamTidy(ps[0], rest);
      } else {
        ParamsTidy(ps[1..], rest);
        GapTidy(PrintParams(ps[1..], rest), 0);
        PutTidy(Comma, Gap(PrintParams(ps[1..], rest)), 0);
        ParamTidy(ps[0], Put(Comma, Gap(PrintParams(ps[1..], rest))));
      }
    }
  }

  lemma ConstTidy(c: ConstDecl, rest: string)
    requires LegalConst(c) && (c.ArrayConst? ==> c.elems != []) && Line(rest, 0)
    ensures Starts(PrintConst(c, rest), 0)
  {
    hide Tidy, Line, Solid, LegalExpr, LegalName, LegalType, LegalList, Put, Gap, PrintExpr, PrintType, PrintKey, PrintAssign, PrintElems, EndLine;
    EndTidy(rest, 0);
    var tail :=
      match c
      case ScalarConst(_, _, init) => PrintAssign(PrintExpr(init, EndLine(rest)))
      case ArrayConst(_, _, size, elems) => Put(LBracket, PrintExpr(size, Put(RBracket, PrintElems(elems, EndLine(rest)))));
    if c.ScalarConst? {
      ExprTidy(c.init, EndLine(rest), 0);
      AssignTidy(PrintExpr(c.init, EndLine(rest)), 0);
    } else {
      ElemsTidy(c.elems, EndLine(rest), 0);
      BracketTidy(c.size, PrintElems(c.elems, EndLine(rest)), 0);
    }
    NameTidy(c.name, tail, 0);
    GapTidy(c.name + tail, 0);
    TypeTidy(c.ty, Gap(c.name + tail), 0);
    GapTidy(PrintType(c.ty, Gap(c.name + tail)), 0);
    KeyTidy(KwConst, Gap(PrintType(c.ty, Gap(c.name + tail))), 0);
  }

  lemma StartsLine(s: string)
    requires Starts(s, 0)
    ensures Line(s, 0)
  {
    assert Indent(0, s) == s;
    IndentLine(0, s, 0);
  }

  lemma {:induction false} ConstsTidy(cs: seq<ConstDecl>, rest: string)
    requires forall i | 0 <= i < |cs| :: LegalConst(cs[i]) && (cs[i].ArrayConst? ==> cs[i].elems != [])
    requires Line(rest, 0)
    ensures Line(PrintConsts(cs, rest), 0)
    decreases |cs|
  {
    hide Tidy, Line, Solid, Starts, LegalConst, PrintConst;
    if cs != [] {
      ConstsTidy(cs[1..], rest);
      ConstTidy(cs[0], PrintConsts(cs[1..], rest));
      StartsLine(PrintConst(cs[0], PrintConsts(cs[1..], rest)));
    }
  }

  // An array of constants without elements is printed with two blanks between its
  // braces; every other program is laid out as above.
  lemma ProgramTidy(p: Program)
    requires LegalProgram(p) && forall i | 0 <= i < |p.consts| :: p.consts[i].ArrayConst? ==> p.consts[i].elems != []
    ensures Line(PrintProgram(p), 0)
  {
    hide Tidy, Line, Solid, LegalConst, LegalName, LegalType, LegalParam, LegalBlock, PrintBlock, PrintType, PrintParams, PrintConsts, Put, Gap, NewLine;
    LastLine();
    NewLineTidy("", 0);
    BlockTidy(p.fn.body, 0, NewLine(""));
    var block := PrintBlock(p.fn.body, 0, NewLine(""));
    GapTidy(block, 0);
    PutTidy(RParen, Gap(block), 0);
    ParamsTidy(p.fn.params, Put(RParen, Gap(block)));
    var params := PrintParams(p.fn.params, Put(RParen, Gap(block)));
    PutTidy(LParen, params, 0);
    NameTidy(p.fn.name, Put(LParen, params), 0);
    GapTidy(p.fn.name + Put(LParen, params), 0);
    TypeTidy(p.fn.returnType, Gap(p.fn.name + Put(LParen, params)), 0);
    StartsLine(PrintType(p.fn.returnType, Gap(p.fn.name + Put(LParen, params))));
    ConstsTidy(p.consts, PrintType(p.fn.returnType, Gap(p.fn.name + Put(LParen, params))));
  }

  lemma LastLine()
    ensures Line("", 0)
  {
  }
}
