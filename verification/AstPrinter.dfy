/**
 The printer as the source has it (src/frontend/ast_printer.cpp): expressions
 become strings, statements are appended to a stream.  Whatever is written later,
 what is written here is the text of Printer's functions in front of it.
 */
module AstPrinter {
  import Ast
  import opened FixedWidth
  import opened Syntax
  import opened Tokens
  import opened Printer
  import opened Wrappers

  lemma Glue(a: string, b: string)
    ensures forall r: string :: (a + b) + r == a + (b + r)
  {
    forall r: string ensures (a + b) + r == a + (b + r) {
    }
  }

  lemma Mark(s: Symbol)
    ensures forall r: string :: SymbolText(s) + r == Put(s, r)
    ensures forall r: string :: (" " + SymbolText(s) + " ") + r == Gap(Put(s, Gap(r)))
  {
    forall r: string ensures (" " + SymbolText(s) + " ") + r == Gap(Put(s, Gap(r))) {
      assert (" " + SymbolText(s) + " ") + r == " " + (SymbolText(s) + (" " + r));
    }
  }

  // -------------------------------------------------------------------- expressions

  method Expression(e: Expr) returns (s: string)
    ensures forall r: string :: s + r == PrintExpr(e, r)
    decreases e, 1
  {
    match e
    case IntLit(v) =>
      s := Number(v);
    case NameRef(name) =>
      s := name;
    case Index(a, i) =>
      var x := Expression(i);
      s := Surround(a, LBracket, x, RBracket);
      forall r: string ensures s + r == PrintExpr(e, r) {
        assert s + r == a + Put(LBracket, x + Put(RBracket, r));
      }
    case Cast(t, x) =>
      var inner := Expression(x);
      s := Surround(TypeText(t), LParen, inner, RParen);
      forall r: string ensures s + r == PrintExpr(e, r) {
        assert s + r == TypeText(t) + Put(LParen, inner + Put(RParen, r));
      }
    case Unary(op, x) =>
      s := UnaryText(op, x);
    case Binary(op, l, r) =>
      s := BinaryText(op, l, r);
    case Ternary(c, x, y) =>
      s := TernaryText(c, x, y);
  }

  // prefix ( inner )
  method Surround(prefix: string, open: Symbol, inner: string, close: Symbol) returns (s: string)
    ensures forall r: string :: s + r == prefix + Put(open, inner + Put(close, r))
  {
    Glue(prefix, SymbolText(open));
    Glue(prefix + SymbolText(open), inner);
    Glue(prefix + SymbolText(open) + inner, SymbolText(close));
    s := prefix + SymbolText(open) + inner + SymbolText(close);
    forall r: string ensures s + r == prefix + Put(open, inner + Put(close, r)) {
      assert s + r == (prefix + SymbolText(open) + inner) + (SymbolText(close) + r);
    }
  }

  // ( s )
  method Parenthesised(inner: string) returns (s: string)
    ensures forall r: string :: s + r == Put(LParen, inner + Put(RParen, r))
  {
    s := Surround("", LParen, inner, RParen);
    forall r: string ensures s + r == Put(LParen, inner + Put(RParen, r)) {
      assert "" + Put(LParen, inner + Put(RParen, r)) == Put(LParen, inner + Put(RParen, r));
    }
  }

  method UnaryText(op: Ast.UnOp, x: Expr) returns (s: string)
    ensures forall r: string :: s + r == PrintExpr(Unary(op, x), r)
    decreases x, 2
  {
    var operand := Expression(x);
    var sign := SymbolText(UnarySymbol(op));
    if x.Unary? {
      var wrapped := Parenthesised(operand);
      Glue(sign, wrapped);
      s := Parenthesised(sign + wrapped);
      forall r: string ensures s + r == PrintExpr(Unary(op, x), r) {
        var close := Put(RParen, r);
        assert (sign + wrapped) + close == sign + (wrapped + close);
        assert wrapped + close == Put(LParen, operand + Put(RParen, close));
      }
    } else {
      Glue(sign, operand);
      s := sign + operand;
      forall r: string ensures s + r == PrintExpr(Unary(op, x), r) {
        assert s + r == sign + (operand + r);
      }
    }
  }

  // binaryOperand
  method Operand(e: Expr) returns (s: string)
    ensures forall r: string :: s + r == PrintOperand(e, r)
    decreases e, 2
  {
    s := Expression(e);
    if Wrapped(e) {
      var inner := s;
      s := Parenthesised(inner);
      forall r: string ensures s + r == PrintOperand(e, r) {
        assert s + r == Put(LParen, inner + Put(RParen, r));
      }
    }
  }

  // a, a spaced mark, b
  method Spaced(a: string, mark: Symbol, b: string) returns (s: string)
    ensures forall r: string :: s + r == a + Gap(Put(mark, Gap(b + r)))
  {
    var m := " " + SymbolText(mark) + " ";
    Mark(mark);
    Glue(a, m);
    Glue(a + m, b);
    s := a + m + b;
    forall r: string ensures s + r == a + Gap(Put(mark, Gap(b + r))) {
      assert s + r == (a + m) + (b + r);
      assert (a + m) + (b + r) == a + (m + (b + r));
    }
  }

  method BinaryText(op: Ast.BinOp, l: Expr, r: Expr) returns (s: string)
    ensures forall rest: string :: s + rest == PrintExpr(Binary(op, l, r), rest)
    decreases Binary(op, l, r), 0
  {
    hide Put, Gap, PrintOperand, BinarySymbol;
    var a := Operand(l);
    var b := Operand(r);
    var inner := Spaced(a, BinarySymbol(op), b);
    s := Parenthesised(inner);
    forall rest: string ensures s + rest == PrintExpr(Binary(op, l, r), rest) {
      var close := Put(RParen, rest);
      assert inner + close == a + Gap(Put(BinarySymbol(op), Gap(b + close)));
      assert b + close == PrintOperand(r, close);
    }
  }

  method TernaryText(c: Expr, x: Expr, y: Expr) returns (s: string)
    ensures forall rest: string :: s + rest == PrintExpr(Ternary(c, x, y), rest)
    decreases Ternary(c, x, y), 0
  {
    hide Put, Gap, PrintExpr;
    var a := Expression(c);
    var b := Expression(x);
    var d := Expression(y);
    var arms := Spaced(b, Colon, d);
    var inner := Spaced(a, Question, arms);
    s := Parenthesised(inner);
    forall rest: string ensures s + rest == PrintExpr(Ternary(c, x, y), rest) {
      var close := Put(RParen, rest);
      var colon := Gap(Put(Colon, Gap(d + close)));
      assert arms + close == b + colon;
      assert inner + close == a + Gap(Put(Question, Gap(b + colon)));
      TernaryShape(c, x, y, rest);
    }
  }

  lemma TernaryShape(c: Expr, x: Expr, y: Expr, rest: string)
    ensures var colon := Gap(Put(Colon, Gap(PrintExpr(y, Put(RParen, rest)))));
            PrintExpr(Ternary(c, x, y), rest) == Put(LParen, PrintExpr(c, Gap(Put(Question, Gap(PrintExpr(x, colon))))))
  {
    hide Put, Gap;
  }

  // --------------------------------------------------------------------- statements

  class AstPrinter {
    var out: string

    constructor ()
      ensures out == ""
    {
      out := "";
    }

    method Write(s: string)
      modifies this
      ensures forall r: string :: out + r == old(out) + (s + r)
    {
      Glue(out, s);
      out := out + s;
    }

    method WriteSymbol(s: Symbol)
      modifies this
      ensures forall r: string :: out + r == old(out) + Put(s, r)
    {
      Mark(s);
      Write(SymbolText(s));
    }

    method WriteExpr(e: Expr)
      modifies this
      ensures forall r: string :: out + r == old(out) + PrintExpr(e, r)
    {
      var s := Expression(e);
      Write(s);
    }

    method WriteType(t: Type)
      modifies this
      ensures forall r: string :: out + r == old(out) + PrintType(t, r)
    {
      Write(TypeText(t));
    }

    method WriteKey(k: Keyword)
      modifies this
      ensures forall r: string :: out + r == old(out) + PrintKey(k, r)
    {
      Write(KeywordText(k));
    }

    method WriteName(name: string)
      modifies this
      ensures forall r: string :: out + r == old(out) + (name + r)
    {
      Write(name);
    }

    method WriteGap()
      modifies this
      ensures forall r: string :: out + r == old(out) + Gap(r)
    {
      Write(" ");
    }

    method WriteLine()
      modifies this
      ensures forall r: string :: out + r == old(out) + NewLine(r)
    {
      Write("\n");
    }

    method WriteAssign()
      modifies this
      ensures forall r: string :: out + r == old(out) + PrintAssign(r)
    {
      WriteGap();
      WriteSymbol(AssignT);
      WriteGap();
    }

    method EndStatement()
      modifies this
      ensures forall r: string :: out + r == old(out) + EndLine(r)
    {
      WriteSymbol(Semi);
      WriteLine();
    }

    method WriteIndent(depth: nat)
      modifies this
      ensures forall r: string :: out + r == old(out) + Indent(depth, r)
    {
      var i := 0;
      while i < depth
        invariant 0 <= i <= depth
        invariant forall r: string :: out + Indent(depth - i, r) == old(out) + Indent(depth, r)
      {
        ghost var before := out;
        Write("  ");
        i := i + 1;
        forall r: string ensures out + Indent(depth - i, r) == old(out) + Indent(depth, r) {
          assert Indent(depth - i + 1, r) == "  " + Indent(depth - i, r);
          assert out + Indent(depth - i, r) == before + ("  " + Indent(depth - i, r));
        }
      }
      forall r: string ensures out + r == old(out) + Indent(depth, r) {
        assert Indent(0, r) == r;
      }
    }

    method WriteSource(s: Source)
      modifies this
      ensures forall r: string :: out + r == old(out) + PrintSource(s, r)
    {
      hide Put, PrintKey, PrintExpr;
      match s
      case Value(e) =>
        WriteExpr(e);
      case Read(stream) =>
        WriteOpen(KwRead, stream);
        WriteSymbol(RParen);
    }

    // key(name
    method WriteOpen(k: Keyword, name: string)
      modifies this
      ensures forall r: string :: out + r == old(out) + PrintKey(k, Put(LParen, name + r))
    {
      hide Put, PrintKey;
      WriteKey(k);
      WriteSymbol(LParen);
      WriteName(name);
    }

    method WriteBracket(e: Expr)
      modifies this
      ensures forall r: string :: out + r == old(out) + Put(LBracket, PrintExpr(e, Put(RBracket, r)))
    {
      WriteSymbol(LBracket);
      WriteExpr(e);
      WriteSymbol(RBracket);
    }

    method WriteParen(e: Expr)
      modifies this
      ensures forall r: string :: out + r == old(out) + PrintParen(e, r)
    {
      WriteSymbol(LParen);
      WriteExpr(e);
      WriteSymbol(RParen);
    }

    // Elements after the i-th are still to be written.
    method WriteList(es: seq<Expr>)
      modifies this
      ensures forall r: string :: out + r == old(out) + PrintList(es, r)
    {
      var i := 0;
      assert es[0..] == es;
      while i < |es|
        invariant 0 <= i <= |es|
        invariant forall r: string :: out + PrintTail(es, i, r) == old(out) + PrintList(es, r)
      {
        ghost var before := out;
        if i > 0 {
          WriteSymbol(Comma);
          WriteGap();
        }
        WriteExpr(es[i]);
        i := i + 1;
        forall r: string ensures out + PrintTail(es, i, r) == old(out) + PrintList(es, r) {
          TailStep(es, i - 1, r);
          assert before + PrintTail(es, i - 1, r) == old(out) + PrintList(es, r);
        }
      }
    }

    // A type, a space and a name
    method WriteTyped(t: Type, name: string)
      modifies this
      ensures forall r: string :: out + r == old(out) + PrintType(t, Gap(name + r))
    {
      WriteType(t);
      WriteGap();
      WriteName(name);
    }

    // = { ... }
    method WriteElems(es: seq<Expr>)
      modifies this
      ensures forall r: string :: out + r == old(out) + PrintElems(es, r)
    {
      hide Put, Gap, PrintAssign, PrintList;
      WriteAssign();
      WriteSymbol(LBrace);
      WriteGap();
      WriteList(es);
      WriteGap();
      WriteSymbol(RBrace);
    }

    // printStmt
    method PrintStmt(s: Stmt, depth: nat)
      modifies this
      ensures forall r: string :: out + r == old(out) + Printer.PrintStmt(s, depth, r)
      decreases s, 3
    {
      hide PrintBare, Indent;
      WriteIndent(depth);
      PrintBareStmt(s, depth);
    }

    method PrintBareStmt(s: Stmt, depth: nat)
      modifies this
      ensures forall r: string :: out + r == old(out) + PrintBare(s, depth, r)
      decreases s, 2
    {
      hide PrintBare;
      match s
      case VarDecl(_, _, _) =>
        PrintVarDecl(s, depth);
      case ArrayDecl(_, _, _, _) =>
        PrintArrayDecl(s, depth);
      case Assign(_, _, _) =>
        PrintAssignment(s, depth);
      case Write(_, _) =>
        PrintWrite(s, depth);
      case If(_, _, _) =>
        PrintIf(s, depth);
      case For(_, _, _, _, _, _, _, _, _) =>
        PrintForStmt(s, depth);
      case Return(_) =>
        PrintReturn(s, depth);
      case Block(_) =>
        PrintBlockStmt(s, depth);
    }

    method PrintVarDecl(s: Stmt, depth: nat)
      requires s.VarDecl?
      modifies this
      ensures forall r: string :: out + r == old(out) + PrintBare(s, depth, r)
    {
      hide PrintExpr, Put, Gap, PrintAssign, PrintSource, EndLine, PrintKey, PrintType, PrintElems, PrintParen, PrintFor;
      hide PrintPragma, Printer.PrintBlock, Printer.PrintElse, NewLine;
      WriteTyped(s.ty, s.name);
      WriteAssign();
      WriteSource(s.init);
      EndStatement();
    }

    method PrintArrayDecl(s: Stmt, depth: nat)
      requires s.ArrayDecl?
      modifies this
      ensures forall r: string :: out + r == old(out) + PrintBare(s, depth, r)
    {
      hide PrintExpr, Put, Gap, PrintAssign, PrintSource, EndLine, PrintKey, PrintType, PrintElems, PrintParen, PrintFor;
      hide PrintPragma, Printer.PrintBlock, Printer.PrintElse, NewLine;
      WriteTyped(s.elem, s.name);
      WriteBracket(s.size);
      if s.elems != [] {
        WriteElems(s.elems);
      }
      EndStatement();
    }

    method PrintAssignment(s: Stmt, depth: nat)
      requires s.Assign?
      modifies this
      ensures forall r: string :: out + r == old(out) + PrintBare(s, depth, r)
    {
      hide PrintExpr, Put, Gap, PrintAssign, PrintSource, EndLine, PrintKey, PrintType, PrintElems, PrintParen, PrintFor;
      hide PrintPragma, Printer.PrintBlock, Printer.PrintElse, NewLine;
      WriteName(s.name);
      if s.index.Some? {
        WriteBracket(s.index.value);
      }
      WriteAssign();
      WriteSource(s.value);
      EndStatement();
    }

    // write(stream,
    method WriteCall(stream: string)
      modifies this
      ensures forall r: string :: out + r == old(out) + PrintKey(KwWrite, Put(LParen, stream + Put(Comma, Gap(r))))
    {
      hide Put, Gap, PrintKey;
      WriteOpen(KwWrite, stream);
      WriteSymbol(Comma);
      WriteGap();
    }

    method PrintWrite(s: Stmt, depth: nat)
      requires s.Write?
      modifies this
      ensures forall r: string :: out + r == old(out) + PrintBare(s, depth, r)
    {
      hide PrintExpr, Put, Gap, PrintAssign, PrintSource, EndLine, PrintKey, PrintType, PrintElems, PrintParen, PrintFor;
      hide PrintPragma, Printer.PrintBlock, Printer.PrintElse, NewLine;
      WriteCall(s.stream);
      WriteExpr(s.e);
      WriteSymbol(RParen);
      EndStatement();
    }

    // if (c)
    method WriteIfHead(c: Expr)
      modifies this
      ensures forall r: string :: out + r == old(out) + PrintKey(KwIf, Gap(PrintParen(c, Gap(r))))
    {
      hide Gap, PrintKey, PrintParen;
      WriteKey(KwIf);
      WriteGap();
      WriteParen(c);
      WriteGap();
    }

    method PrintIf(s: Stmt, depth: nat)
      requires s.If?
      modifies this
      ensures forall r: string :: out + r == old(out) + PrintBare(s, depth, r)
      decreases s, 1
    {
      hide PrintExpr, Put, Gap, PrintAssign, PrintSource, EndLine, PrintKey, PrintType, PrintElems, PrintParen, PrintFor;
      hide PrintPragma, Printer.PrintBlock, Printer.PrintElse, NewLine;
      WriteIfHead(s.cond);
      PrintBlock(s.thenB, depth);
      PrintElse(s.elseS, depth);
      WriteLine();
    }

    method PrintForStmt(s: Stmt, depth: nat)
      requires s.For?
      modifies this
      ensures forall r: string :: out + r == old(out) + PrintBare(s, depth, r)
      decreases s, 1
    {
      hide PrintExpr, Put, Gap, PrintAssign, PrintSource, EndLine, PrintKey, PrintType, PrintElems, PrintParen, PrintFor;
      hide PrintPragma, Printer.PrintBlock, Printer.PrintElse, NewLine;
      WritePragma(s.pragma, depth);
      PrintLoop(s, depth);
    }

    method PrintReturn(s: Stmt, depth: nat)
      requires s.Return?
      modifies this
      ensures forall r: string :: out + r == old(out) + PrintBare(s, depth, r)
    {
      hide PrintExpr, Put, Gap, PrintAssign, PrintSource, EndLine, PrintKey, PrintType, PrintElems, PrintParen, PrintFor;
      hide PrintPragma, Printer.PrintBlock, Printer.PrintElse, NewLine;
      WriteKey(KwReturn);
      WriteGap();
      WriteExpr(s.result);
      EndStatement();
    }

    method PrintBlockStmt(s: Stmt, depth: nat)
      requires s.Block?
      modifies this
      ensures forall r: string :: out + r == old(out) + PrintBare(s, depth, r)
      decreases s, 1
    {
      hide PrintExpr, Put, Gap, PrintAssign, PrintSource, EndLine, PrintKey, PrintType, PrintElems, PrintParen, PrintFor;
      hide PrintPragma, Printer.PrintBlock, Printer.PrintElse, NewLine;
      PrintBlock(s.stmts, depth);
      WriteLine();
    }

    method WritePragma(p: Pragma, depth: nat)
      modifies this
      ensures forall r: string :: out + r == old(out) + PrintPragma(p, depth, r)
    {
      hide PragmaText, NewLine, Indent;
      if p == NoPragma {
        return;
      }
      var text := PragmaString(p);
      Write(text);
      WriteLine();
      WriteIndent(depth);
    }

    method PragmaString(p: Pragma) returns (s: string)
      requires p != NoPragma
      ensures s == PragmaText(p)
    {
      match p
      case Unroll =>
        s := UNROLL;
      case UnrollBy(n) =>
        var v := Number(n);
        s := UNROLL_BY + v;
      case Pipeline(n) =>
        var v := Number(n);
        s := PIPELINE + v;
    }

    method PrintLoop(s: Stmt, depth: nat)
      requires s.For?
      modifies this
      ensures forall r: string :: out + r == old(out) + PrintFor(s, depth, r)
      decreases s, 0
    {
      hide PrintInit, PrintTest, PrintStep, Printer.PrintBlock, PrintKey, Gap, Put, NewLine;
      WriteKey(KwFor);
      WriteGap();
      WriteSymbol(LParen);
      WriteInit(s);
      WriteTest(s);
      WriteStep(s);
      WriteGap();
      PrintBlock(s.body, depth);
      WriteLine();
    }

    method WriteInit(s: Stmt)
      requires s.For?
      modifies this
      ensures forall r: string :: out + r == old(out) + PrintInit(s, r)
    {
      hide PrintExpr, Put, Gap, PrintAssign, PrintType;
      WriteTyped(s.ivType, s.iv);
      WriteAssign();
      WriteExpr(s.start);
      WriteSymbol(Semi);
      WriteGap();
    }

    method WriteTest(s: Stmt)
      requires s.For?
      modifies this
      ensures forall r: string :: out + r == old(out) + PrintTest(s, r)
    {
      hide PrintExpr, Put, Gap;
      WriteName(s.iv);
      WriteGap();
      WriteSymbol(RelSymbol(s.rel));
      WriteGap();
      WriteExpr(s.limit);
      WriteSymbol(Semi);
      WriteGap();
    }

    method WriteStep(s: Stmt)
      requires s.For?
      modifies this
      ensures forall r: string :: out + r == old(out) + PrintStep(s, r)
    {
      hide PrintExpr, Put, Gap, PrintAssign;
      WriteName(s.iv);
      WriteAssign();
      WriteName(s.iv);
      WriteGap();
      WriteSymbol(if s.stepIsAdd then PlusT else MinusT);
      WriteGap();
      WriteExpr(s.step);
      WriteSymbol(RParen);
    }

    method WriteElseKey()
      modifies this
      ensures forall r: string :: out + r == old(out) + Gap(PrintKey(KwElse, Gap(r)))
    {
      hide Gap, PrintKey;
      WriteGap();
      WriteKeyGap(KwElse);
    }

    method PrintElse(e: Else, depth: nat)
      modifies this
      ensures forall r: string :: out + r == old(out) + Printer.PrintElse(e, depth, r)
      decreases e, 0
    {
      hide Gap, PrintKey, PrintParen, Printer.PrintBlock;
      match e
      case NoElse =>
      case ElseDo(If(c, t, _)) =>
        PrintElseIf(c, t, depth);
      case ElseDo(Block(b)) =>
        WriteElseKey();
        PrintBlock(b, depth);
      case ElseDo(_) =>
    }

    method PrintElseIf(c: Expr, t: seq<Stmt>, depth: nat)
      modifies this
      ensures forall r: string ::
                out + r == old(out) + Gap(PrintKey(KwElse, Gap(PrintKey(KwIf, Gap(PrintParen(c, Gap(Printer.PrintBlock(t, depth, r))))))))
      decreases t, 2
    {
      hide Gap, PrintKey, PrintParen, Printer.PrintBlock;
      WriteElseKey();
      WriteIfHead(c);
      PrintBlock(t, depth);
    }

    method PrintBlock(b: seq<Stmt>, depth: nat)
      modifies this
      ensures forall r: string :: out + r == old(out) + Printer.PrintBlock(b, depth, r)
      decreases b, 1
    {
      hide Put, NewLine, Indent, PrintStmts;
      WriteSymbol(LBrace);
      WriteLine();
      PrintStatements(b, depth + 1);
      WriteIndent(depth);
      WriteSymbol(RBrace);
    }

    method PrintStatements(b: seq<Stmt>, depth: nat)
      modifies this
      ensures forall r: string :: out + r == old(out) + PrintStmts(b, depth, r)
      decreases b, 0
    {
      hide Printer.PrintStmt;
      var i := 0;
      assert b[0..] == b;
      while i < |b|
        invariant 0 <= i <= |b|
        invariant forall r: string :: out + PrintStmts(b[i..], depth, r) == old(out) + PrintStmts(b, depth, r)
      {
        ghost var before := out;
        PrintStmt(b[i], depth);
        i := i + 1;
        forall r: string ensures out + PrintStmts(b[i..], depth, r) == old(out) + PrintStmts(b, depth, r) {
          assert b[i - 1..][1..] == b[i..];
          assert before + PrintStmts(b[i - 1..], depth, r) == old(out) + PrintStmts(b, depth, r);
        }
      }
      assert b[i..] == [];
    }

    // -------------------------------------------------------------------- programs

    method WriteConst(c: ConstDecl)
      modifies this
      ensures forall r: string :: out + r == old(out) + PrintConst(c, r)
    {
      hide PrintExpr, Put, Gap, PrintAssign, EndLine, PrintKey, PrintType, PrintElems;
      WriteKey(KwConst);
      WriteGap();
      WriteTyped(c.ty, c.name);
      match c
      case ScalarConst(_, _, init) =>
        WriteAssign();
        WriteExpr(init);
        EndStatement();
      case ArrayConst(_, _, size, elems) =>
        WriteBracket(size);
        WriteElems(elems);
        EndStatement();
    }

    method WriteParam(p: Param)
      modifies this
      ensures forall r: string :: out + r == old(out) + PrintParam(p, r)
    {
      hide PrintExpr, Put, Gap, PrintKey, PrintType;
      match p
      case Scalar(t, name) =>
        WriteTyped(t, name);
      case Array(t, name, size) =>
        WriteTyped(t, name);
        WriteBracket(size);
      case StreamIn(t, name) =>
        WriteStream(KwIn, t, name);
      case StreamOut(t, name) =>
        WriteStream(KwOut, t, name);
    }

    method WriteStream(way: Keyword, t: Type, name: string)
      modifies this
      ensures forall r: string :: out + r == old(out) + PrintStream(way, t, name, r)
    {
      hide Put, Gap, PrintKey, PrintType;
      WriteKeyGap(way);
      WriteStreamType(t, name);
    }

    method WriteKeyGap(k: Keyword)
      modifies this
      ensures forall r: string :: out + r == old(out) + PrintKey(k, Gap(r))
    {
      hide Gap, PrintKey;
      WriteKey(k);
      WriteGap();
    }

    // stream<T> name
    method WriteStreamType(t: Type, name: string)
      modifies this
      ensures forall r: string ::
                out + r == old(out) + PrintKey(KwStream, Put(LtT, PrintType(t, Put(GtT, Gap(name + r)))))
    {
      hide Put, Gap, PrintKey, PrintType;
      ghost var before := out;
      WriteElement(t);
      ghost var middle := out;
      WriteSpaced(name);
      forall r: string
        ensures out + r == before + PrintKey(KwStream, Put(LtT, PrintType(t, Put(GtT, Gap(name + r)))))
      {
        assert out + r == middle + Gap(name + r);
      }
    }

    method WriteSpaced(name: string)
      modifies this
      ensures forall r: string :: out + r == old(out) + Gap(name + r)
    {
      hide Gap;
      WriteGap();
      WriteName(name);
    }

    // stream<T>
    method WriteElement(t: Type)
      modifies this
      ensures forall r: string :: out + r == old(out) + PrintKey(KwStream, Put(LtT, PrintType(t, Put(GtT, r))))
    {
      hide Put, PrintKey, PrintType;
      WriteKey(KwStream);
      WriteSymbol(LtT);
      WriteType(t);
      WriteSymbol(GtT);
    }

    // printProgram
    method PrintProgram(p: Program)
      requires out == ""
      modifies this
      ensures out == Printer.PrintProgram(p)
    {
      hide Put, Gap, PrintKey, PrintType, PrintConsts, PrintParams, Printer.PrintBlock, NewLine;
      WriteConsts(p.consts);
      WriteTyped(p.fn.returnType, p.fn.name);
      WriteSymbol(LParen);
      WriteParams(p.fn.params);
      WriteSymbol(RParen);
      WriteGap();
      PrintBlock(p.fn.body, 0);
      WriteLine();
      Nothing(out);
      Nothing(Printer.PrintProgram(p));
      assert out + "" == "" + Printer.PrintProgram(p);
    }

    method WriteConsts(cs: seq<ConstDecl>)
      modifies this
      ensures forall r: string :: out + r == old(out) + PrintConsts(cs, r)
    {
      hide PrintConst;
      var i := 0;
      assert cs[0..] == cs;
      while i < |cs|
        invariant 0 <= i <= |cs|
        invariant forall r: string :: out + PrintConsts(cs[i..], r) == old(out) + PrintConsts(cs, r)
      {
        ghost var before := out;
        WriteConst(cs[i]);
        i := i + 1;
        forall r: string ensures out + PrintConsts(cs[i..], r) == old(out) + PrintConsts(cs, r) {
          assert cs[i - 1..][1..] == cs[i..];
          assert before + PrintConsts(cs[i - 1..], r) == old(out) + PrintConsts(cs, r);
        }
      }
      assert cs[i..] == [];
    }

    method WriteParams(ps: seq<Param>)
      modifies this
      ensures forall r: string :: out + r == old(out) + PrintParams(ps, r)
    {
      hide PrintParam;
      var i := 0;
      assert ps[0..] == ps;
      while i < |ps|
        invariant 0 <= i <= |ps|
        invariant forall r: string :: out + ParamsTail(ps, i, r) == old(out) + PrintParams(ps, r)
      {
        ghost var before := out;
        if i > 0 {
          WriteSymbol(Comma);
          WriteGap();
        }
        WriteParam(ps[i]);
        i := i + 1;
        forall r: string ensures out + ParamsTail(ps, i, r) == old(out) + PrintParams(ps, r) {
          ParamsStep(ps, i - 1, r);
          assert before + ParamsTail(ps, i - 1, r) == old(out) + PrintParams(ps, r);
        }
      }
    }
  }

  lemma Nothing(s: string)
    ensures s + "" == s && "" + s == s
  {
  }

  // What is written of the parameters once the first i are.
  function ParamsTail(ps: seq<Param>, i: nat, r: string): string
    requires i <= |ps|
  {
    if i == 0 then PrintParams(ps, r)
    else if i == |ps| then r
    else Put(Comma, Gap(PrintParams(ps[i..], r)))
  }

  lemma ParamsStep(ps: seq<Param>, i: nat, r: string)
    requires i < |ps|
    ensures ParamsTail(ps, i, r) ==
            var p := PrintParam(ps[i], ParamsTail(ps, i + 1, r)); if i == 0 then p else Put(Comma, Gap(p))
  {
    assert ps[i..][1..] == ps[i + 1..];
    assert ps[0..] == ps;
    if i + 1 == |ps| {
      assert |ps[i..]| == 1;
    }
  }

  // What is written of a list once its first i elements are.
  function PrintTail(es: seq<Expr>, i: nat, r: string): string
    requires i <= |es|
  {
    if i == 0 then PrintList(es, r)
    else if i == |es| then r
    else Put(Comma, Gap(PrintList(es[i..], r)))
  }

  lemma TailStep(es: seq<Expr>, i: nat, r: string)
    requires i < |es|
    ensures PrintTail(es, i, r) ==
            var e := PrintExpr(es[i], PrintTail(es, i + 1, r)); if i == 0 then e else Put(Comma, Gap(e))
  {
    assert es[i..][1..] == es[i + 1..];
    assert es[0..] == es;
    if i + 1 == |es| {
      assert |es[i..]| == 1;
    }
  }
}
