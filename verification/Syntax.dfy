/** Tokens and trees of the modelled subset: i32, bool and None values, locals, operators, blocks, loops and match. */
module Syntax {
  import opened Base

  type Name = string

  const I32_MIN: int := -0x8000_0000
  const I32_MAX: int := 0x7fff_ffff

  type I32 = n: int | -0x8000_0000 <= n <= 0x7fff_ffff
  // What the scanner labels token_i32: an unsigned literal no larger than INT32_MAX.
  type Literal = n: int | 0 <= n <= 0x7fff_ffff

  datatype Value = I32(n: I32) | Bool(b: bool) | Nil

  datatype UnOp = Neg | Not | BitNot

  datatype BinOp =
    | Add | Sub | Mul | Div | Mod
    | Eq | Neq | Lt | Le | Gt | Ge
    | BitAnd | BitOr | BitXor | Shl | Shr

  datatype Expr =
    | Int(n: Literal)
    | BoolLit(b: bool)
    | NoneLit
    | Var(x: Name)
    | Assign(x: Name, e: Expr)
    | Unary(uop: UnOp, e: Expr)
    | Binary(op: BinOp, l: Expr, r: Expr)
    | And(l: Expr, r: Expr)
    | Or(l: Expr, r: Expr)
    | Cond(c: Expr, t: Expr, f: Expr)

  /** `var` binds for the rest of its list; a `for` header's initialiser is the front of the list. */
  datatype Decls =
    | End
    | VarD(x: Name, init: Expr, rest: Decls)
    | StmtD(s: Stmt, rest: Decls)

  datatype Stmt =
    | ExprS(e: Expr)
    | Block(ds: Decls)
    | If(c: Expr, t: Stmt, f: Stmt)
    | While(c: Expr, body: Stmt)
    | Loop(body: Stmt)
    | ForLoop(cond: Option<Expr>, inc: Expr, body: Stmt)
    | Match(e: Expr, arms: Arms)
    | Break
    | Continue

  datatype Arms =
    | NoMore
    | Default(body: Stmt)
    | Arm(pattern: Expr, body: Stmt, rest: Arms)

  /** Token kinds; Op(Sub) is the '-' token, which is both a prefix and an infix. */
  datatype Token =
    | NumT(n: Literal) | IdT(x: Name) | TrueT | FalseT | NoneT
    | Op(op: BinOp) | BangT | TildeT | AndT | OrT | QuestionT | ColonT
    | LParen | RParen | LBrace | RBrace | AssignT | Semi | Comma | FatArrow | Underscore
    | VarT | IfT | ElseT | WhileT | ForT | LoopT | MatchT | BreakT | ContinueT
}
