/**
 * The cattail syntax tree (src/ast.rs). The payload structs of the source (`Identifier`,
 * `Binary`, `Assignment`, ...) are the named fields of the constructors here; `HashMap` fields
 * are maps, so field and parameter names are unique within a node by construction.
 */
module Ast {
  import opened Wrappers
  import opened LexerSpec

  /** A signed 64-bit integer, the width of an integer literal's value. */
  newtype i64 = x: int | -0x8000_0000_0000_0000 <= x < 0x8000_0000_0000_0000

  /** Type annotations; matrix dimensions are unsigned and function parameters are positional. */
  datatype Type =
    | Any
    | Interface(name: string)
    | Object
    | Function(parameters: seq<Type>, returnType: Type)
    | Matrix(width: nat, height: nat)
    | String
    | Null
    | Integer
    | Float

  datatype Stat =
    | Expression(expr: Expr)
    | Assignment(target: Expr, value: Expr)
    | Return(result: Option<Expr>)

  datatype Expr =
    | Identifier(ident: (string, Span))
    | IntegerLiteral(tok: Token, number: i64)
    | FloatLiteral(tok: Token)
    | SubAccess(target: Expr, name: Token)
    | Call(target: Expr, arguments: seq<Expr>)
    | NewObject(basis: Expr, extensions: map<string, Expr>)
    | FunctionLiteral(parameters: map<string, Type>, returnType: Type, body: seq<Stat>)
    | Binary(lhs: Expr, rhs: Expr, op: Token)

  /** `Identifier::new_expr`: a variable reference carrying its text and span unchanged. */
  function NewIdentifierExpr(tok: (string, Span)): (e: Expr)
    ensures e.Identifier? && e.ident == tok
  {
    Identifier(tok)
  }

  /** `Binary::new_expr`: the operands and the operator, kept in their places. */
  function NewBinaryExpr(lhs: Expr, rhs: Expr, op: Token): (e: Expr)
    ensures e.Binary? && e.lhs == lhs && e.rhs == rhs && BinaryOp(e) == op
  {
    Binary(lhs, rhs, op)
  }

  /** `Binary::op`: the stored operator token. */
  function BinaryOp(e: Expr): Token
    requires e.Binary?
  {
    e.op
  }

  /** `Assignment::new_stat`: an assignment of `value` to `target`, in that order. */
  function NewAssignmentStat(target: Expr, value: Expr): (s: Stat)
    ensures s.Assignment? && s.target == target && s.value == value
  {
    Assignment(target, value)
  }
}
