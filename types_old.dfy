/** The oldest revision of the checker's rules (`src/analyzer/types.rs`),
    the one the checker's `Context` of `src/analyzer/mod.rs` runs. Its
    state is the function table, which it only reads, and the scope stack,
    to which only a binding writes. It reports nothing: a rule that fails
    gives no type. It checks calls by name only, passes `-x` through with
    the type of `x`, gives `<` and `>` the type of their operands, leaves
    every statement other than a call and a binding unchecked, and stops
    with `todo!()` on `+`. */
module TypesOld {
  import opened Wrappers
  import opened CheckerTypes
  import opened TypeScopes
  import opened Typing
  import Ast

  /** The function table of the checker's `Context`. */
  type Functions = map<string, FunType>

  /** The trees this revision can check without stopping: no `+` in a
      position it validates, and none of the later revisions' nodes
      (spans, boolean negation, `&&`, `||`, indexing) anywhere it looks. */
  predicate Handled(e: Ast.Expr) {
    match e
    case Call(_, _) => true
    case Binding(_, _, v) => Handled(v)
    case If(_, _, _) => true
    case For(_, _, _) => true
    case While(_, _) => true
    case Return(_) => true
    case Set(_, _) => true
    case SetByIndex(_, _, _) => true
    case Neg(x) => Handled(x)
    case Parens(x) => Handled(x)
    case Binary(op, l, r) => op in {Ast.Range, Ast.Sub, Ast.Mul, Ast.Div, Ast.LessThan, Ast.MoreThan} && Handled(l) && Handled(r)
    case Ident(_) => true
    case Literal(_) => true
    case _ => false
  }

  /** `Validate for Expr` and the impls it dispatches to: the type, if the
      rules give one, and the scope stack afterwards. Only the innermost
      scope is ever written, and the statements the rules leave unchecked
      are `Unit` and change nothing. */
  function Validate(e: Ast.Expr, scopes: Scopes, functions: Functions): (r: (Option<ExprType>, Scopes))
    requires Handled(e) && |scopes| > 0
    ensures |r.1| == |scopes| && r.1[..|scopes| - 1] == scopes[..|scopes| - 1]
    ensures e.If? || e.For? || e.While? || e.Return? || e.Set? || e.SetByIndex? ==> r == (Some(Unit), scopes)
    ensures e.Binding? && r.0.Some? ==> e.name.name in r.1[|scopes| - 1]
    decreases Ast.Size(e), 1
  {
    match e
    case Call(name, _) =>
      (if name.name in functions then Some(functions[name.name].retType) else None, scopes)
    case Binding(_, name, value) =>
      var (ty, s1) := Validate(value, scopes, functions);
      if ty.None? then (None, s1) else (ty, AddVar(s1, name.name, ty.value))
    case Neg(x) => Validate(x, scopes, functions)
    case Parens(x) => Validate(x, scopes, functions)
    case Binary(op, l, r) =>
      var (ty, s1) := EnsureTypeEquality(l, r, scopes, functions);
      if op == Ast.Range then (if ty.Some? then Some(Range(ty.value)) else None, s1)
      else if op in {Ast.LessThan, Ast.MoreThan} then (if ty.Some? && ty.value.Primitive? then ty else None, s1)
      else (ty, s1)
    case Ident(name) => (FindVar(scopes, name), scopes)
    case Literal(l) => (Some(LiteralType(l)), scopes)
    case _ => (Some(Unit), scopes)
  }

  /** `ensure_type_equality`: both operands in turn, stopping at the first
      that fails; their type when they agree. */
  function EnsureTypeEquality(left: Ast.Expr, right: Ast.Expr, scopes: Scopes, functions: Functions): (r: (Option<ExprType>, Scopes))
    requires Handled(left) && Handled(right) && |scopes| > 0
    ensures |r.1| == |scopes| && r.1[..|scopes| - 1] == scopes[..|scopes| - 1]
    ensures r.0.Some? ==> Validate(left, scopes, functions).0 == r.0
    decreases Ast.Size(left) + Ast.Size(right), 0
  {
    var (l, s1) := Validate(left, scopes, functions);
    if l.None? then (None, s1)
    else
      var (r, s2) := Validate(right, s1, functions);
      if r.None? then (None, s2)
      else if l == r then (r, s2)
      else (None, s2)
  }

  /** The arithmetic this revision types as the declarative table does:
      literals, names, parentheses, ranges and `-`, `*`, `/`. */
  predicate Arith(e: Ast.Expr)
    ensures Arith(e) ==> Pure(e) && Handled(e)
  {
    match e
    case Literal(_) => true
    case Ident(_) => true
    case Parens(x) => Arith(x)
    case Binary(op, l, r) => op in {Ast.Range, Ast.Sub, Ast.Mul, Ast.Div} && Arith(l) && Arith(r)
    case _ => false
  }

  /** On arithmetic, this revision gives the table's type and leaves the
      scopes as they were. */
  lemma {:induction false} ArithAgrees(e: Ast.Expr, scopes: Scopes, functions: Functions)
    requires Arith(e) && |scopes| > 0
    ensures Validate(e, scopes, functions) == (TypeOf(scopes, e), scopes)
  {
    match e
    case Literal(_) =>
    case Ident(_) =>
    case Parens(x) => ArithAgrees(x, scopes, functions);
    case Binary(_, l, r) =>
      ArithAgrees(l, scopes, functions);
      ArithAgrees(r, scopes, functions);
  }

  /** `<` and `>` on operands of one primitive type have that type, where
      the table gives a boolean, or no type for two booleans. */
  lemma ComparisonHasOperandType(op: Ast.BinaryOp, l: Ast.Expr, r: Ast.Expr, p: Primitive, scopes: Scopes, functions: Functions)
    requires op in {Ast.LessThan, Ast.MoreThan} && Arith(l) && Arith(r) && |scopes| > 0
    requires TypeOf(scopes, l) == TypeOf(scopes, r) == Some(Primitive(p))
    ensures Handled(Ast.Binary(op, l, r)) && Pure(Ast.Binary(op, l, r))
    ensures Validate(Ast.Binary(op, l, r), scopes, functions).0 == Some(Primitive(p))
    ensures TypeOf(scopes, Ast.Binary(op, l, r)) == if p == Boolean then None else Some(BOOLEAN)
  {
    ArithAgrees(l, scopes, functions);
    ArithAgrees(r, scopes, functions);
  }

  /** `-x` has the type of `x`, whatever it is; the table types only the
      negation of an `Int`. */
  lemma NegKeepsOperandType(x: Ast.Expr, t: ExprType, scopes: Scopes, functions: Functions)
    requires Arith(x) && |scopes| > 0 && TypeOf(scopes, x) == Some(t)
    ensures Handled(Ast.Neg(x)) && Pure(Ast.Neg(x))
    ensures Validate(Ast.Neg(x), scopes, functions).0 == Some(t)
    ensures TypeOf(scopes, Ast.Neg(x)).Some? <==> t == INT
  {
    ArithAgrees(x, scopes, functions);
  }

  /** A call has the declared return type of the function of that name, if
      there is one, whatever and however many its arguments are. */
  lemma CallByName(name: Ast.SpannedIdent, args: seq<Ast.Expr>, scopes: Scopes, functions: Functions)
    requires |scopes| > 0
    ensures Validate(Ast.Call(name, args), scopes, functions) == Validate(Ast.Call(name, []), scopes, functions)
    ensures Validate(Ast.Call(name, args), scopes, functions).0.Some? <==> name.name in functions
    ensures name.name in functions ==> Validate(Ast.Call(name, args), scopes, functions).0 == Some(functions[name.name].retType)
    ensures Validate(Ast.Call(name, args), scopes, functions).1 == scopes
  {
  }

  /** A binding of arithmetic that types binds the name in the innermost
      scope, unless that scope binds it already, and leaves every other
      name as it was. */
  lemma BindingBinds(isMut: bool, name: Ast.SpannedIdent, value: Ast.Expr, t: ExprType, other: string, scopes: Scopes, functions: Functions)
    requires Arith(value) && |scopes| > 0 && TypeOf(scopes, value) == Some(t)
    ensures Handled(Ast.Binding(isMut, name, value))
    ensures var (ty, s) := Validate(Ast.Binding(isMut, name, value), scopes, functions);
      var last := scopes[|scopes| - 1];
      ty == Some(t) && FindVar(s, name.name) == Some(if name.name in last then last[name.name] else t)
      && (other != name.name ==> FindVar(s, other) == FindVar(scopes, other))
  {
    ArithAgrees(value, scopes, functions);
    FindAfterAddVar(scopes, name.name, t, other);
  }
}
