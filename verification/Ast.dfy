/** The syntax tree of a VTL template (internal/vtl/ast.go). */
module Ast {
  import opened Common

  /** A literal value. A float keeps the digits it was written with. */
  datatype Lit = LNull | LBool(b: bool) | LInt(i: int) | LFloat(text: string) | LStr(s: string)

  datatype BinOp = Or | And | Eq | Ne | Le | Ge | Lt | Gt | Add | Sub | Mul | Div | Mod

  datatype UnOp = Not | Neg

  /** One step of a reference: .name, .name(args) or [index]. */
  datatype Accessor = Property(name: string) | Method(name: string, args: seq<Expr>) | Index(index: Expr)

  /** $name followed by its accessor chain. */
  datatype RefExpr = RefExpr(name: string, chain: seq<Accessor>)

  datatype Entry = Entry(key: Expr, val: Expr)

  datatype Expr =
    | Literal(value: Lit)
    | Interpolated(body: seq<Node>)
    | Ref(ref: RefExpr)
    | ListExpr(items: seq<Expr>)
    | RangeExpr(from: Expr, to: Expr)
    | MapExpr(entries: seq<Entry>)
    | Unary(uop: UnOp, x: Expr)
    | Binary(op: BinOp, l: Expr, r: Expr)

  datatype Branch = Branch(cond: Expr, body: seq<Node>)

  /** The #else of an #if, if it has one. */
  datatype ElsePart = NoElse | Else(body: seq<Node>)

  /** Template nodes. */
  datatype Node =
    | Text(parts: seq<string>)
    | RefNode(ref: RefExpr, quiet: bool)
    | SetNode(target: RefExpr, value: Expr)
    | IfNode(branches: seq<Branch>, elsePart: ElsePart)
    | ForeachNode(varName: string, iter: Expr, body: seq<Node>)
    | BreakNode
    | StopNode
    | ReturnNode(result: Option<Expr>)
}
