/**
 * The typed syntax tree the lowering engine consumes (produced by the
 * parser, which is not part of this model) and the symbol-table entry it
 * reads and writes.
 */
module Ast {

  /** A basic literal. A float arrives already split into its integer and fractional parts. */
  datatype Literal =
    | BoolLit(b: bool)
    | IntLit(i: int)
    | FloatLit(ipart: int, frac: int)
    | StringLit(s: string)
    | OtherLit  // any other value type: no lowering rule

  datatype UnaryOp = Plus | Minus | Not | Tilde | OtherOp

  datatype Expr =
    | Lit(lit: Literal)
    | Ident(name: string)
    | Unary(op: UnaryOp, x: Expr)
    | OtherExpr  // any other expression kind: no lowering rule

  datatype Decl = VarDecl(name: string, init: Expr) | OtherDecl

  datatype Stmt = PrintStmt(x: Expr) | DeclStmt(decl: Decl) | OtherStmt

  /** The value types a declaration can give a symbol. */
  datatype ValueType = BoolType | IntType | FloatType | StringType

  /**
   * What the lowering engine needs from a symbol: its type, the first heap
   * address of its slot and, for a string, its length.
   */
  datatype Symbol = Symbol(ty: ValueType, addr: int, len: nat)
}
