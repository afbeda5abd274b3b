/**
 The program as parsed (src/frontend/ast.hpp): names are still text, and nothing
 has a type beyond those the source spells out.
 */
module Syntax {
  import Ast
  import opened FixedWidth
  import opened Wrappers

  type Type = Ast.Type

  datatype Expr =
    | IntLit(value: nat)
    | NameRef(name: string)
    | Index(array: string, index: Expr)
    | Cast(target: Type, operand: Expr)
    | Unary(uop: Ast.UnOp, operand: Expr)
    | Binary(op: Ast.BinOp, lhs: Expr, rhs: Expr)
    | Ternary(cond: Expr, thenE: Expr, elseE: Expr)

  // A right-hand side: an expression, or `read(stream)`.
  datatype Source = Value(e: Expr) | Read(stream: string)

  datatype Pragma = NoPragma | Unroll | UnrollBy(factor: nat) | Pipeline(ii: nat)

  datatype Else = NoElse | ElseDo(stmt: Stmt)

  datatype Stmt =
    | VarDecl(ty: Type, name: string, init: Source)
    | ArrayDecl(elem: Type, name: string, size: Expr, elems: seq<Expr>)
    | Assign(name: string, index: Option<Expr>, value: Source)
    | Write(stream: string, e: Expr)
    | If(cond: Expr, thenB: seq<Stmt>, elseS: Else)
    | For(pragma: Pragma, ivType: Type, iv: string, start: Expr, rel: Cmp, limit: Expr,
          stepIsAdd: bool, step: Expr, body: seq<Stmt>)
    | Return(result: Expr)
    | Block(stmts: seq<Stmt>)

  datatype Param =
    | Scalar(ty: Type, name: string)
    | Array(ty: Type, name: string, size: Expr)
    | StreamIn(ty: Type, name: string)
    | StreamOut(ty: Type, name: string)

  datatype ConstDecl =
    | ScalarConst(ty: Type, name: string, init: Expr)
    | ArrayConst(ty: Type, name: string, size: Expr, elems: seq<Expr>)

  datatype Function = Function(returnType: Type, name: string, params: seq<Param>, body: seq<Stmt>)

  datatype Program = Program(consts: seq<ConstDecl>, fn: Function)
}
