/** A declarative typing table for the expressions that neither bind nor
    call nor branch: literals, identifiers, indexing, negations, parentheses
    and the binary operators, with or without `Spanned` wrappers. It states
    the type each rule of the checker gives such an expression, without the
    checker's state, and is the reference the three revisions of the rules
    are compared with. */
module Typing {
  import opened Wrappers
  import opened CheckerTypes
  import opened TypeScopes
  import Ast

  /** The expressions the table covers. */
  predicate Pure(e: Ast.Expr) {
    match e
    case Literal(_) => true
    case Ident(_) => true
    case GetByIndex(_, index) => Pure(index)
    case Neg(x) => Pure(x)
    case BoolNeg(x) => Pure(x)
    case Parens(x) => Pure(x)
    case Binary(_, l, r) => Pure(l) && Pure(r)
    case Spanned(_, x) => Pure(x)
    case _ => false
  }

  /** Every identifier the expression reads, and every name it indexes, is
      bound somewhere in the scopes. */
  predicate Bound(scopes: Scopes, e: Ast.Expr) {
    match e
    case Ident(name) => FindVar(scopes, name).Some?
    case GetByIndex(target, index) => FindVar(scopes, target.name).Some? && Bound(scopes, index)
    case Neg(x) => Bound(scopes, x)
    case BoolNeg(x) => Bound(scopes, x)
    case Parens(x) => Bound(scopes, x)
    case Binary(_, l, r) => Bound(scopes, l) && Bound(scopes, r)
    case Spanned(_, x) => Bound(scopes, x)
    case _ => true
  }

  /** The type of a literal. */
  function LiteralType(l: Ast.Literal): (r: ExprType)
    ensures r.Primitive?
    ensures l.Int? <==> r == INT
    ensures l.Bool? <==> r == BOOLEAN
    ensures l.Char? <==> r == CHAR
    ensures l.String? <==> r == STRING
  {
    match l
    case Int(_) => INT
    case Bool(_) => BOOLEAN
    case Char(_) => CHAR
    case String(_) => STRING
  }

  /** Two operand types agree: the common type, if both are known and equal. */
  function Same(a: Option<ExprType>, b: Option<ExprType>): (r: Option<ExprType>)
    ensures r.Some? <==> a.Some? && a == b
    ensures r.Some? ==> r == a
  {
    if a.Some? && a == b then a else None
  }

  /** Indexing: an `Int` index into an array of `T` gives `T`, into a string
      gives `Char`; nothing else has a type. */
  function IndexedType(base: Option<ExprType>, index: Option<ExprType>): (r: Option<ExprType>)
    ensures r.Some? <==> index == Some(INT) && base.Some? && (base.value.Array? || base.value == STRING)
    ensures r.Some? && base.value.Array? ==> r.value == base.value.elem
    ensures r.Some? && base.value == STRING ==> r.value == CHAR
  {
    if index != Some(INT) || base.None? then None
    else if base.value.Array? then Some(base.value.elem)
    else if base.value == STRING then Some(CHAR)
    else None
  }

  /** `+`: no unit operand; a string on either side makes a string; otherwise
      the operands must agree. */
  function AddType(l: Option<ExprType>, r: Option<ExprType>): (t: Option<ExprType>)
    ensures t.Some? ==> l.Some? && r.Some? && l.value != Unit && r.value != Unit
    ensures t.Some? && (l == Some(STRING) || r == Some(STRING)) ==> t == Some(STRING)
    ensures t.Some? && l != Some(STRING) && r != Some(STRING) ==> t == l == r
    ensures l.Some? && r.Some? && l.value != Unit && r.value != Unit && (l == Some(STRING) || r == Some(STRING) || l == r) ==> t.Some?
  {
    if l.None? || r.None? || l.value == Unit || r.value == Unit then None
    else if l.value == STRING || r.value == STRING then Some(STRING)
    else Same(l, r)
  }

  /** `<`, `>`, `&&` and `||` over operands of the common type `t`: the
      logical operators need booleans, the orderings any primitive but a
      boolean; each gives a boolean. */
  function ComparisonType(op: Ast.BinaryOp, t: Option<ExprType>): (r: Option<ExprType>)
    requires op in {Ast.LessThan, Ast.MoreThan, Ast.And, Ast.Or}
    ensures r.Some? ==> r == Some(BOOLEAN)
    ensures op in {Ast.And, Ast.Or} ==> (r.Some? <==> t == Some(BOOLEAN))
    ensures op in {Ast.LessThan, Ast.MoreThan} ==> (r.Some? <==> t == Some(INT) || t == Some(STRING) || t == Some(CHAR))
  {
    if op in {Ast.And, Ast.Or} then
      if t == Some(BOOLEAN) then t else None
    else
      match t
      case Some(Primitive(p)) =>
        assert p == Int ==> t == Some(INT);
        if p != Boolean then Some(BOOLEAN) else None
      case _ => None
  }

  /** The type of a covered expression in the given scopes, if it has one. */
  function TypeOf(scopes: Scopes, e: Ast.Expr): (r: Option<ExprType>)
    requires Pure(e)
  {
    match e
    case Literal(l) => Some(LiteralType(l))
    case Ident(name) => FindVar(scopes, name)
    case GetByIndex(target, index) => IndexedType(FindVar(scopes, target.name), TypeOf(scopes, index))
    case Neg(x) => if TypeOf(scopes, x) == Some(INT) then Some(INT) else None
    case BoolNeg(x) => if TypeOf(scopes, x) == Some(BOOLEAN) then Some(BOOLEAN) else None
    case Parens(x) => TypeOf(scopes, x)
    case Binary(op, l, r) =>
      var lt := TypeOf(scopes, l);
      var rt := TypeOf(scopes, r);
      (match op
      case Range => if Same(lt, rt).Some? then Some(Range(lt.value)) else None
      case Add => AddType(lt, rt)
      case LessThan => ComparisonType(op, Same(lt, rt))
      case MoreThan => ComparisonType(op, Same(lt, rt))
      case And => ComparisonType(op, Same(lt, rt))
      case Or => ComparisonType(op, Same(lt, rt))
      case _ => Same(lt, rt))
    case Spanned(_, x) => TypeOf(scopes, x)
  }

  /** Spans play no part in typing: a covered expression has the type of
      the same expression with every `Spanned` wrapper removed. */
  lemma {:induction false} TypeOfErase(scopes: Scopes, e: Ast.Expr)
    requires Pure(e)
    ensures Pure(Ast.Erase(e)) && TypeOf(scopes, Ast.Erase(e)) == TypeOf(scopes, e)
  {
    match e
    case Literal(_) =>
    case Ident(_) =>
    case GetByIndex(_, index) => TypeOfErase(scopes, index);
    case Neg(x) => TypeOfErase(scopes, x);
    case BoolNeg(x) => TypeOfErase(scopes, x);
    case Parens(x) => TypeOfErase(scopes, x);
    case Binary(_, l, r) => TypeOfErase(scopes, l); TypeOfErase(scopes, r);
    case Spanned(_, x) => TypeOfErase(scopes, x);
  }

  /** What a covered expression's type can be, by its outermost operator:
      comparisons are boolean, negation keeps `Int` or `Boolean`, `-`, `*`
      and `/` keep the common type of their operands, and a range is a
      range of that type. */
  lemma {:induction false} TypeOfShape(scopes: Scopes, e: Ast.Expr)
    requires Pure(e) && TypeOf(scopes, e).Some?
    ensures e.IsComparison() ==> TypeOf(scopes, e) == Some(BOOLEAN)
    ensures e.Neg? ==> TypeOf(scopes, e) == Some(INT) == TypeOf(scopes, e.operand)
    ensures e.BoolNeg? ==> TypeOf(scopes, e) == Some(BOOLEAN) == TypeOf(scopes, e.operand)
    ensures e.Binary? && e.op in {Ast.Sub, Ast.Mul, Ast.Div} ==>
      TypeOf(scopes, e) == TypeOf(scopes, e.left) == TypeOf(scopes, e.right)
    ensures e.Binary? && e.op == Ast.Range ==>
      TypeOf(scopes, e) == Some(Range(TypeOf(scopes, e.left).value)) && TypeOf(scopes, e.left) == TypeOf(scopes, e.right)
  {
  }

  /** `filter_map` over the arguments of a call: the types of those that
      have one, in order. */
  function TypedArgs(scopes: Scopes, args: seq<Ast.Expr>): (r: seq<ExprType>)
    requires forall a | a in args :: Pure(a)
    ensures |r| <= |args|
    ensures |r| == |args| <==> forall i | 0 <= i < |args| :: TypeOf(scopes, args[i]).Some?
    ensures |r| == |args| ==> forall i | 0 <= i < |args| :: r[i] == TypeOf(scopes, args[i]).value
  {
    if |args| == 0 then []
    else
      var t := TypeOf(scopes, args[0]);
      var rest := TypedArgs(scopes, args[1..]);
      assert forall i | 1 <= i < |args| :: args[i] == args[1..][i - 1];
      if t.Some? then [t.value] + rest else rest
  }

  /** The key a call looks its callee up with: the argument types when every
      argument has one, nothing otherwise. */
  function CallKey(types: seq<ExprType>, arity: nat): (r: Option<seq<ExprType>>)
    ensures r.Some? <==> |types| == arity
  {
    if |types| == arity then Some(types) else None
  }
}
