/** The syntax tree the parser builds and the checker and interpreter read.
    The program spreads it over one enum per expression level (`TopExpr`,
    `ControlExpr`, `MathExpr`, `ComparisonExpr`, `ShortExpr`) and one struct
    per node; here it is one datatype holding every variant of every level,
    and the level a node belongs to is a predicate on its constructor. The
    five `binary_operator!` structs share one `Binary` node. */
module Ast {
  import opened Wrappers
  import opened Int32
  import opened Lexer
  import Tokens

  datatype Literal = Int(value: i32) | Bool(truth: bool) | Char(ch: char) | String(text: string)

  /** `Type`: a name, or a name with type parameters (`Array<Int>`). */
  datatype Type = Simple(name: string) | Generic(name: string, params: seq<Type>)

  /** `Spanned<Ident>`: a name and where it was written. */
  datatype SpannedIdent = SpannedIdent(span: Span, name: string)

  /** The operators built by `binary_operator!`, one per struct. */
  datatype BinaryOp = Range | Sub | Add | Mul | Div | LessThan | MoreThan | And | Or

  datatype Expr =
    // ControlExpr
    | If(cond: Expr, body: seq<Expr>, elseBranch: seq<Expr>)
    | For(variable: string, iterable: Expr, body: seq<Expr>)
    | While(cond: Expr, body: seq<Expr>)
    | Return(result: Option<Expr>)
    // the rest of TopExpr; `Binding` holds the fields of its `Set`, and
    // `SetByIndex` those of its `GetByIndex`
    | Binding(isMut: bool, name: SpannedIdent, value: Expr)
    | Set(name: SpannedIdent, value: Expr)
    | Call(name: SpannedIdent, args: seq<Expr>)
    | SetByIndex(target: SpannedIdent, index: Expr, value: Expr)
    // MathExpr and ComparisonExpr
    | Neg(operand: Expr)
    | BoolNeg(operand: Expr)
    | Binary(op: BinaryOp, left: Expr, right: Expr)
    | Parens(inner: Expr)
    // ShortExpr
    | Ident(ident: string)
    | GetByIndex(target: SpannedIdent, index: Expr)
    | Literal(literal: Literal)
    // `Spanned<E>`: a node and the span of source it was parsed from
    | Spanned(span: Span, expr: Expr)
  {
    predicate IsControl() { If? || For? || While? || Return? }
    predicate IsTop() { IsControl() || Binding? || Set? || Call? || SetByIndex? }
    predicate IsComparison() { Binary? && op in {LessThan, MoreThan, And, Or} }
    predicate IsMath() { Neg? || BoolNeg? || Parens? || (Binary? && !IsComparison()) }
    predicate IsShort() { Ident? || GetByIndex? || Literal? }
  }

  /** `Fun`: name, declared argument names and types, optional return type
      and the statements of its body. */
  datatype Fun = Fun(name: string, args: seq<(string, Type)>, retType: Option<Type>, body: seq<Expr>)

  datatype Program = Program(functions: seq<Fun>)

  /** `ParseError`. The program's uses disagree on what `WrongExprType`
      carries (the pair at which a level failed, or only the level's name);
      here it carries both, the pair being optional. */
  datatype ParseError =
    | UnexpectedEndOfInput
    | NotImplementedYet
    | WrongExprType(at: Option<Pair>, level: string)
    | UnexpectedToken(actual: Pair, expected: Tokens.Token)

  /** The tree with every `Spanned` wrapper removed: what the interpreter
      sees, since it evaluates `Spanned<E>` as `E`. */
  function Erase(e: Expr): (r: Expr)
    ensures !r.Spanned?
  {
    match e
    case If(c, b, eb) => If(Erase(c), EraseAll(b), EraseAll(eb))
    case For(v, it, b) => For(v, Erase(it), EraseAll(b))
    case While(c, b) => While(Erase(c), EraseAll(b))
    case Return(v) => Return(if v.Some? then Some(Erase(v.value)) else None)
    case Binding(m, n, v) => Binding(m, n, Erase(v))
    case Set(n, v) => Set(n, Erase(v))
    case Call(n, args) => Call(n, EraseAll(args))
    case SetByIndex(t, i, v) => SetByIndex(t, Erase(i), Erase(v))
    case Neg(x) => Neg(Erase(x))
    case BoolNeg(x) => BoolNeg(Erase(x))
    case Binary(op, l, r) => Binary(op, Erase(l), Erase(r))
    case Parens(x) => Parens(Erase(x))
    case Ident(n) => e
    case GetByIndex(id, i) => GetByIndex(id, Erase(i))
    case Literal(l) => e
    case Spanned(_, x) => Erase(x)
  }

  function EraseAll(es: seq<Expr>): (r: seq<Expr>)
    ensures |r| == |es|
    decreases es
  {
    if |es| == 0 then [] else [Erase(es[0])] + EraseAll(es[1..])
  }

  /** A size for the tree that decreases from a node to its children; a
      `SetByIndex` counts one more than its parts, so that the `GetByIndex`
      node the checker builds from its target and index is smaller than it. */
  function Size(e: Expr): (n: nat)
    ensures n >= 1
  {
    match e
    case If(c, b, eb) => 1 + Size(c) + SizeAll(b) + SizeAll(eb)
    case For(_, it, b) => 1 + Size(it) + SizeAll(b)
    case While(c, b) => 1 + Size(c) + SizeAll(b)
    case Return(v) => 1 + (if v.Some? then Size(v.value) else 0)
    case Binding(_, _, v) => 1 + Size(v)
    case Set(_, v) => 1 + Size(v)
    case Call(_, args) => 1 + SizeAll(args)
    case SetByIndex(_, i, v) => 2 + Size(i) + Size(v)
    case Neg(x) => 1 + Size(x)
    case BoolNeg(x) => 1 + Size(x)
    case Binary(_, l, r) => 1 + Size(l) + Size(r)
    case Parens(x) => 1 + Size(x)
    case Ident(_) => 1
    case GetByIndex(_, i) => 1 + Size(i)
    case Literal(_) => 1
    case Spanned(_, x) => 1 + Size(x)
  }

  function SizeAll(es: seq<Expr>): (n: nat)
    ensures forall i | 0 <= i < |es| :: Size(es[i]) <= n
    decreases es
  {
    if |es| == 0 then 0 else Size(es[0]) + SizeAll(es[1..])
  }
}
