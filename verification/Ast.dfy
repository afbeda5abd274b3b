/**
 The resolved, typed program (src/frontend/ast.hpp): names are symbols, every
 expression carries the type semantic analysis gave it.  Scalar part only.
 */
module Ast {
  import opened FixedWidth

  datatype Type = Type(width: nat, signed: bool)

  // One per declaration; its identity is what tells shadowed names apart.
  datatype Symbol = Symbol(id: nat, ty: Type)

  datatype UnOp = UPlus | UMinus | UTilde | UBang

  datatype BinOp =
    | Plus | Minus | Star | Slash | Percent
    | Amp | Pipe | Caret
    | Shl | Shr
    | Rel(cmp: Cmp)
    | AmpAmp | PipePipe

  datatype Expr =
    | IntLit(value: nat, ty: Type)
    | NameRef(sym: Symbol, ty: Type)
    | Cast(target: Type, operand: Expr, ty: Type)
    | Unary(uop: UnOp, operand: Expr, ty: Type)
    | Binary(op: BinOp, lhs: Expr, rhs: Expr, ty: Type)
    | Ternary(cond: Expr, thenE: Expr, elseE: Expr, ty: Type)

  datatype Else = NoElse | ElseDo(stmt: Stmt)

  datatype Stmt =
    | VarDecl(sym: Symbol, init: Expr)
    | Assign(sym: Symbol, value: Expr)
    | If(cond: Expr, thenB: seq<Stmt>, elseS: Else)
    | For(iv: Symbol, init: Expr, rel: Cmp, limit: Expr, stepIsAdd: bool, step: Expr,
          trip: nat, tripKnown: bool, body: seq<Stmt>)
    | Return(value: Expr)
    | Block(stmts: seq<Stmt>)

  // A file-scope scalar constant with the value constant folding gave it.
  datatype Const = Const(sym: Symbol, value: Bits)

  datatype Program = Program(consts: seq<Const>, params: seq<Symbol>, returnType: Type, body: seq<Stmt>)

  const U1 := Type(1, false)

  // widthRule, src/sema/type_check.cpp:33-56
  function WidthRule(op: BinOp, l: Type, r: Type): Type {
    match op
    case Plus => Type(Max(l.width, r.width) + 1, l.signed)
    case Minus => Type(Max(l.width, r.width) + 1, true)
    case Star => Type(l.width + r.width, l.signed)
    case Slash => if l.signed then Type(l.width + 1, true) else Type(l.width, false)
    case Percent => Type(Min(l.width, r.width), l.signed)
    case Amp | Pipe | Caret => Type(Max(l.width, r.width), l.signed)
    case Shl | Shr => l
    case Rel(_) | AmpAmp | PipePipe => U1
  }

  // src/sema/type_check.cpp:84-91
  function UnaryRule(op: UnOp, t: Type): Type {
    if op == UMinus then Type(t.width + 1, true) else t
  }

  // ------------------------------------------------- symbols of a statement

  // The symbols a statement declares.
  function Decls(s: Stmt): set<Symbol>
    decreases s, 0
  {
    match s
    case VarDecl(sym, _) => {sym}
    case If(_, t, e) => BlockDecls(t) + ElseDecls(e)
    case For(iv, _, _, _, _, _, _, _, body) => {iv} + BlockDecls(body)
    case Block(b) => BlockDecls(b)
    case _ => {}
  }

  function ElseDecls(e: Else): set<Symbol>
    decreases e, 1
  {
    match e
    case NoElse => {}
    case ElseDo(s) => Decls(s)
  }

  function BlockDecls(b: seq<Stmt>): set<Symbol>
    decreases b, 0
  {
    if b == [] then {} else Decls(b[0]) + BlockDecls(b[1..])
  }

  // The symbols a statement assigns, as a plain set.
  function Assigned(s: Stmt): set<Symbol>
    decreases s, 0
  {
    match s
    case Assign(sym, _) => {sym}
    case Block(b) => BlockAssigned(b)
    case If(_, t, e) => BlockAssigned(t) + ElseAssigned(e)
    case For(_, _, _, _, _, _, _, _, body) => BlockAssigned(body)
    case _ => {}
  }

  function ElseAssigned(e: Else): set<Symbol>
    decreases e, 1
  {
    match e
    case NoElse => {}
    case ElseDo(s) => Assigned(s)
  }

  function BlockAssigned(b: seq<Stmt>): set<Symbol>
    decreases b, 0
  {
    if b == [] then {} else Assigned(b[0]) + BlockAssigned(b[1..])
  }

  // Every declaration owns a fresh symbol (src/sema/resolver.cpp:5-10), and no
  // symbol is assigned before its declaration.
  predicate UniqueDecls(s: Stmt)
    decreases s, 0
  {
    match s
    case If(_, t, e) => BlockUnique(t) && ElseUnique(e) && BlockDecls(t) !! ElseDecls(e)
    case For(iv, _, _, _, _, _, _, _, body) => BlockUnique(body) && iv !in BlockDecls(body)
    case Block(b) => BlockUnique(b)
    case _ => true
  }

  predicate ElseUnique(e: Else)
    decreases e, 1
  {
    match e
    case NoElse => true
    case ElseDo(s) => UniqueDecls(s)
  }

  predicate BlockUnique(b: seq<Stmt>)
    decreases b, 0
  {
    b == [] || (UniqueDecls(b[0]) && BlockUnique(b[1..]) && Decls(b[0]) + Assigned(b[0]) !! BlockDecls(b[1..]))
  }

  // An insertion-ordered set (llvm::SetVector).
  function Insert(out: seq<Symbol>, sym: Symbol): seq<Symbol> {
    if sym in out then out else out + [sym]
  }

  // collectAssigned, src/mlirgen/mlirgen.cpp:509-536
  function CollectAssigned(s: Stmt, out: seq<Symbol>): seq<Symbol>
    decreases s, 0
  {
    match s
    case Assign(sym, _) => Insert(out, sym)
    case Block(b) => CollectBlock(b, out)
    case If(_, t, e) => CollectElse(e, CollectBlock(t, out))
    case For(_, _, _, _, _, _, _, _, body) => CollectBlock(body, out)
    case _ => out
  }

  function CollectElse(e: Else, out: seq<Symbol>): seq<Symbol>
    decreases e, 1
  {
    match e
    case NoElse => out
    case ElseDo(s) => CollectAssigned(s, out)
  }

  function CollectBlock(b: seq<Stmt>, out: seq<Symbol>): seq<Symbol>
    decreases b, 0
  {
    if b == [] then out else CollectBlock(b[1..], CollectAssigned(b[0], out))
  }

  // The number of `return` statements; a loop that never runs has none that count.
  function Returns(s: Stmt): nat
    decreases s, 0
  {
    match s
    case Return(_) => 1
    case If(_, t, e) => BlockReturns(t) + ElseReturns(e)
    case For(_, _, _, _, _, _, trip, _, body) => if trip > 0 then BlockReturns(body) else 0
    case Block(b) => BlockReturns(b)
    case _ => 0
  }

  function ElseReturns(e: Else): nat
    decreases e, 1
  {
    match e
    case NoElse => 0
    case ElseDo(s) => Returns(s)
  }

  function BlockReturns(b: seq<Stmt>): nat
    decreases b, 0
  {
    if b == [] then 0 else Returns(b[0]) + BlockReturns(b[1..])
  }
}
