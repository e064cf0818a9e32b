/** The middle revision of the checker's rules (`src/analyzer/validation.rs`),
    as functions from an expression and the checker's state to a type and
    the new state. It differs from the newest revision in four places: a
    `Spanned` node sets the current span and leaves it set, the equality
    check stops at a left operand that fails, `<` and `>` have the type of
    their operands, and `-x` has the type of `x`. It has no boolean
    negation, no `&&` or `||` and no indexing, and it panics on an
    assignment through an index. */
module ValidationMid {
  import opened Wrappers
  import opened CheckerTypes
  import opened TypeScopes
  import opened Typing
  import Ast
  import Lexer
  import Validation

  /** The fields of the checker's context this revision reads and writes. */
  datatype State = State(scopes: Scopes, retType: Option<ExprType>, lastSpan: Option<Lexer.Span>, errors: seq<Validation.Diagnostic>)

  /** `find_fun_ret_type`: the return type of the named function called
      with the given argument types. */
  type FunLookup = (string, seq<ExprType>) -> Option<ExprType>

  predicate Ready(st: State) {
    st.retType.Some? && |st.scopes| > 0
  }

  /** What every rule keeps: the return type is as it was, diagnostics are
      only appended and the scope stack is at least as high. */
  predicate Grows(before: State, after: State) {
    after.retType == before.retType && |before.scopes| <= |after.scopes|
    && |before.errors| <= |after.errors| && after.errors[..|before.errors|] == before.errors
  }

  function Error(st: State, message: string): (r: State)
    ensures r == st.(errors := st.errors + [Validation.Diagnostic(st.lastSpan, message)])
  {
    st.(errors := st.errors + [Validation.Diagnostic(st.lastSpan, message)])
  }

  /** The trees this revision has rules for: no boolean negation, no `&&`
      or `||`, no indexing and no assignment through an index, anywhere. */
  predicate Handled(e: Ast.Expr) {
    match e
    case If(c, b, eb) =>
      Handled(c) && (forall i | 0 <= i < |b| :: Handled(b[i])) && (forall i | 0 <= i < |eb| :: Handled(eb[i]))
    case For(_, it, b) => Handled(it) && forall i | 0 <= i < |b| :: Handled(b[i])
    case While(c, b) => Handled(c) && forall i | 0 <= i < |b| :: Handled(b[i])
    case Return(v) => v.Some? ==> Handled(v.value)
    case Binding(_, _, v) => Handled(v)
    case Set(_, v) => Handled(v)
    case Call(_, args) => forall i | 0 <= i < |args| :: Handled(args[i])
    case SetByIndex(_, _, _) => false
    case Neg(x) => Handled(x)
    case BoolNeg(_) => false
    case Binary(op, l, r) => op !in {Ast.And, Ast.Or} && Handled(l) && Handled(r)
    case Parens(x) => Handled(x)
    case Ident(_) => true
    case GetByIndex(_, _) => false
    case Literal(_) => true
    case Spanned(_, x) => Handled(x)
  }

  predicate AllHandled(es: seq<Ast.Expr>) {
    forall i | 0 <= i < |es| :: Handled(es[i])
  }

  /** `Validate for Expr` and the impls it dispatches to. */
  function Validate(e: Ast.Expr, st: State, find: FunLookup): (r: (Option<ExprType>, State))
    requires Handled(e) && Ready(st)
    ensures Ready(r.1) && Grows(st, r.1)
    decreases Ast.Size(e), 3
  {
    match e
    case Spanned(span, x) => Validate(x, st.(lastSpan := Some(span)), find)
    case Literal(l) => (Some(LiteralType(l)), st)
    case Ident(name) => (FindVar(st.scopes, name), st)
    case Neg(x) => Validate(x, st, find)
    case Parens(x) => Validate(x, st, find)
    case Binary(op, l, r) =>
      if op == Ast.Add then ValidateAdd(l, r, st, find)
      else BinaryType(op, EnsureTypeEquality(l, r, st, find))
    case Call(_, _) | Binding(_, _, _) | Set(_, _) | Return(_) => ValidateStatement(e, st, find)
    case If(_, _, _) | For(_, _, _) | While(_, _) => ValidateControl(e, st, find)
  }

  /** Calls, bindings, assignments and `return` among the cases of
      `Validate`. */
  function ValidateStatement(e: Ast.Expr, st: State, find: FunLookup): (r: (Option<ExprType>, State))
    requires (e.Call? || e.Binding? || e.Set? || e.Return?) && Handled(e) && Ready(st)
    ensures Ready(r.1) && Grows(st, r.1)
    decreases Ast.Size(e), 2
  {
    match e
    case Call(name, args) =>
      var (types, st1) := ValidateArgs(args, st, find);
      (if |types| == |args| then find(name.name, types) else None, st1)
    case Binding(_, name, value) => ValidateBinding(name, value, st, find)
    case Set(name, value) => ValidateSet(name, value, st, find)
    case Return(result) => ValidateReturn(result, st, find)
  }

  /** `if`, `for` and `while` among the cases of `Validate`. */
  function ValidateControl(e: Ast.Expr, st: State, find: FunLookup): (r: (Option<ExprType>, State))
    requires (e.If? || e.For? || e.While?) && Handled(e) && Ready(st)
    ensures Ready(r.1) && Grows(st, r.1)
    decreases Ast.Size(e), 2
  {
    match e
    case If(cond, body, elseBranch) => ValidateIf(cond, body, elseBranch, st, find)
    case For(variable, iterable, body) => ValidateFor(variable, iterable, body, st, find)
    case While(cond, body) => ValidateWhile(cond, body, st, find)
  }

  /** `Range`, `-`, `*`, `/`, `<` and `>` once their operands agree on `ty`:
      a range of it, an ordering only of primitives, which keeps their type. */
  function BinaryType(op: Ast.BinaryOp, operands: (Option<ExprType>, State)): (r: (Option<ExprType>, State))
    ensures r.1 == operands.1 || r.1 == Error(operands.1, "can't compare types")
    ensures r.0.Some? ==> operands.0.Some?
    ensures op in {Ast.LessThan, Ast.MoreThan} && r.0.Some? ==> r.0 == operands.0 && r.0.value.Primitive?
    ensures op == Ast.Range && r.0.Some? ==> r.0 == Some(Range(operands.0.value))
  {
    var (ty, st1) := operands;
    if op == Ast.Range then
      (if ty.Some? then Some(Range(ty.value)) else None, st1)
    else if op in {Ast.LessThan, Ast.MoreThan} then
      if ty.Some? && ty.value.Primitive? then (ty, st1) else (None, Error(st1, "can't compare types"))
    else (ty, st1)
  }

  function ValidateBinding(name: Ast.SpannedIdent, value: Ast.Expr, st: State, find: FunLookup): (r: (Option<ExprType>, State))
    requires Handled(value) && Ready(st)
    ensures Ready(r.1) && Grows(st, r.1)
    decreases Ast.Size(value) + 1, 1
  {
    var (ty, st1) := Validate(value, st, find);
    if ty.None? then (None, st1)
    else (ty, st1.(scopes := AddVar(st1.scopes, name.name, ty.value)))
  }

  /** `Set`: a value that fails ends the check before the name is looked
      up; a missing name and a name of another type are reported at the
      current span. */
  function ValidateSet(name: Ast.SpannedIdent, value: Ast.Expr, st: State, find: FunLookup): (r: (Option<ExprType>, State))
    requires Handled(value) && Ready(st)
    ensures Ready(r.1) && Grows(st, r.1)
    decreases Ast.Size(value) + 1, 1
  {
    var (ty, st1) := Validate(value, st, find);
    if ty.None? then (None, st1)
    else
      var expected := FindVar(st1.scopes, name.name);
      if expected.None? then (None, Error(st1, "variable " + name.name + " not found in scope"))
      else if expected != ty then (None, Error(st1, "variable " + name.name + " found but it has different type"))
      else (Some(Unit), st1)
  }

  function ValidateIf(cond: Ast.Expr, body: seq<Ast.Expr>, elseBranch: seq<Ast.Expr>, st: State, find: FunLookup): (r: (Option<ExprType>, State))
    requires Handled(cond) && AllHandled(body) && AllHandled(elseBranch) && Ready(st)
    ensures Ready(r.1) && Grows(st, r.1)
    decreases Ast.Size(cond) + Ast.SizeAll(body) + Ast.SizeAll(elseBranch) + 1, 1
  {
    var (ty, st1) := Validate(cond, st, find);
    if ty.None? then (None, st1)
    else if ty.value != BOOLEAN then (None, Error(st1, "condition must have boolean type"))
    else
      var (ok, st2) := ValidateBody(body, st1.(scopes := PushScope(st1.scopes)), find);
      if !ok then (None, st2)
      else
        var (ok2, st3) := ValidateBody(elseBranch, st2.(scopes := PushScope(PopScope(st2.scopes))), find);
        if !ok2 then (None, st3) else (Some(Unit), st3.(scopes := PopScope(st3.scopes)))
  }

  function ValidateFor(variable: string, iterable: Ast.Expr, body: seq<Ast.Expr>, st: State, find: FunLookup): (r: (Option<ExprType>, State))
    requires Handled(iterable) && AllHandled(body) && Ready(st)
    ensures Ready(r.1) && Grows(st, r.1)
    decreases Ast.Size(iterable) + Ast.SizeAll(body) + 1, 1
  {
    var (ty, st1) := Validate(iterable, st, find);
    if ty.None? then (None, st1)
    else if !ty.value.Array? && !ty.value.Range? then (None, Error(st1, "only array and range are iterable types"))
    else
      var pushed := AddVar(PushScope(st1.scopes), variable, ty.value.elem);
      var (ok, st2) := ValidateBody(body, st1.(scopes := pushed), find);
      if !ok then (None, st2) else (Some(Unit), st2.(scopes := PopScope(st2.scopes)))
  }

  function ValidateWhile(cond: Ast.Expr, body: seq<Ast.Expr>, st: State, find: FunLookup): (r: (Option<ExprType>, State))
    requires Handled(cond) && AllHandled(body) && Ready(st)
    ensures Ready(r.1) && Grows(st, r.1)
    decreases Ast.Size(cond) + Ast.SizeAll(body) + 1, 1
  {
    var (ty, st1) := Validate(cond, st, find);
    if ty.None? then (None, st1)
    else if ty.value != BOOLEAN then (None, Error(st1, "condition must have boolean type"))
    else
      var (ok, st2) := ValidateBody(body, st1.(scopes := PushScope(st1.scopes)), find);
      if !ok then (None, st2) else (Some(Unit), st2.(scopes := PopScope(st2.scopes)))
  }

  /** `Return`: a mismatch with the function's return type is reported,
      and the statement still types as `Unit`. */
  function ValidateReturn(result: Option<Ast.Expr>, st: State, find: FunLookup): (r: (Option<ExprType>, State))
    requires (result.Some? ==> Handled(result.value)) && Ready(st)
    ensures Ready(r.1) && Grows(st, r.1)
    ensures r.0.Some? ==> r.0 == Some(Unit)
    decreases if result.Some? then Ast.Size(result.value) + 1 else 1, 1
  {
    var expected := st.retType.value;
    if result.Some? then
      var (actual, st1) := Validate(result.value, st, find);
      if actual.None? then (None, st1)
      else (Some(Unit), if actual.value != expected then Error(st1, "wrong return type") else st1)
    else (Some(Unit), if expected != Unit then Error(st, "wrong return type") else st)
  }

  /** `ensure_type_equality` of this revision: a left operand that fails
      ends the check before the right one is looked at. */
  function EnsureTypeEquality(left: Ast.Expr, right: Ast.Expr, st: State, find: FunLookup): (r: (Option<ExprType>, State))
    requires Handled(left) && Handled(right) && Ready(st)
    ensures Ready(r.1) && Grows(st, r.1)
    decreases Ast.Size(left) + Ast.Size(right), 0
  {
    var (l, st1) := Validate(left, st, find);
    if l.None? then (None, st1)
    else
      var (r, st2) := Validate(right, st1, find);
      if r.None? then (None, st2)
      else if l == r then (r, st2)
      else (None, Error(st2, "wrong operands"))
  }

  /** `Add`, as in the newest revision: both operands must type, and then
      `AddTyped` decides. */
  function ValidateAdd(left: Ast.Expr, right: Ast.Expr, st: State, find: FunLookup): (r: (Option<ExprType>, State))
    requires Handled(left) && Handled(right) && Ready(st)
    ensures Ready(r.1) && Grows(st, r.1)
    decreases Ast.Size(left) + Ast.Size(right), 2
  {
    var (l, st1) := Validate(left, st, find);
    if l.None? then (None, st1)
    else
      var (r, st2) := Validate(right, st1, find);
      if r.None? then (None, st2)
      else AddTyped(left, right, l.value, r.value, st2, find)
  }

  /** A unit operand is an error, a string on either side makes a string,
      and otherwise the operands are validated a second time and must
      agree. */
  function AddTyped(left: Ast.Expr, right: Ast.Expr, l: ExprType, r: ExprType, st: State, find: FunLookup): (res: (Option<ExprType>, State))
    requires Handled(left) && Handled(right) && Ready(st)
    ensures Ready(res.1) && Grows(st, res.1)
    decreases Ast.Size(left) + Ast.Size(right), 1
  {
    if l == Unit || r == Unit then (None, Error(st, "it isn't possible to add items of unit type"))
    else if l == STRING || r == STRING then (Some(STRING), st)
    else EnsureTypeEquality(left, right, st, find)
  }

  /** The `filter_map` over the arguments of a call. */
  function ValidateArgs(args: seq<Ast.Expr>, st: State, find: FunLookup): (r: (seq<ExprType>, State))
    requires AllHandled(args) && Ready(st)
    ensures Ready(r.1) && Grows(st, r.1) && |r.0| <= |args|
    decreases Ast.SizeAll(args), 4
  {
    if |args| == 0 then ([], st)
    else
      var (ty, st1) := Validate(args[0], st, find);
      assert AllHandled(args[1..]) by {
        forall i | 0 <= i < |args[1..]| ensures Handled(args[1..][i]) { assert args[1..][i] == args[i + 1]; }
      }
      var (rest, st2) := ValidateArgs(args[1..], st1, find);
      (if ty.Some? then [ty.value] + rest else rest, st2)
  }

  /** The loop over a body: stops at the first statement that fails. */
  function ValidateBody(body: seq<Ast.Expr>, st: State, find: FunLookup): (r: (bool, State))
    requires AllHandled(body) && Ready(st)
    ensures Ready(r.1) && Grows(st, r.1)
    decreases Ast.SizeAll(body), 4
  {
    if |body| == 0 then (true, st)
    else
      var (ty, st1) := Validate(body[0], st, find);
      if ty.None? then (false, st1)
      else
        assert AllHandled(body[1..]) by {
          forall i | 0 <= i < |body[1..]| ensures Handled(body[1..][i]) { assert body[1..][i] == body[i + 1]; }
        }
        ValidateBody(body[1..], st1, find)
  }

  /** The arithmetic this revision types as the newest one does: literals,
      names, parentheses, ranges and `+`, `-`, `*`, `/`. */
  predicate Arith(e: Ast.Expr)
    ensures Arith(e) ==> Pure(e) && Handled(e)
  {
    match e
    case Literal(_) => true
    case Ident(_) => true
    case Parens(x) => Arith(x)
    case Spanned(_, x) => Arith(x)
    case Binary(op, l, r) => op in {Ast.Range, Ast.Sub, Ast.Add, Ast.Mul, Ast.Div} && Arith(l) && Arith(r)
    case _ => false
  }

  /** On arithmetic `e`, validating from `st` gives the type of the table,
      leaves the scopes alone, reports nothing when it succeeds, and moves
      the current span only when the tree holds a `Spanned` node. */
  predicate Agrees(e: Ast.Expr, st: State, find: FunLookup)
    requires Arith(e) && Ready(st)
  {
    var (ty, st1) := Validate(e, st, find);
    ty == TypeOf(st.scopes, e) && st1.scopes == st.scopes
    && (ty.Some? ==> st1.errors == st.errors)
    && (Ast.Erase(e) == e ==> st1.lastSpan == st.lastSpan)
  }

  /** Every arithmetic expression agrees with the table, from every state. */
  lemma {:induction false} ArithAgrees(e: Ast.Expr, st: State, find: FunLookup)
    requires Arith(e) && Ready(st)
    ensures Agrees(e, st, find)
    decreases Ast.Size(e), 1
  {
    match e
    case Literal(_) =>
    case Ident(_) =>
    case Parens(x) => ArithAgrees(x, st, find);
    case Spanned(span, x) => ArithAgrees(x, st.(lastSpan := Some(span)), find);
    case Binary(op, l, r) =>
      if op == Ast.Add {
        AddAgrees(l, r, st, find);
      } else {
        EqualityAgrees(op, l, r, st, find);
      }
  }

  /** Both operands agree, so their common type is the table's. */
  lemma {:induction false} OperandsAgree(l: Ast.Expr, r: Ast.Expr, st: State, find: FunLookup)
    requires Arith(l) && Arith(r) && Ready(st)
    ensures var (ty, st1) := EnsureTypeEquality(l, r, st, find);
      ty == Same(TypeOf(st.scopes, l), TypeOf(st.scopes, r)) && st1.scopes == st.scopes
      && (ty.Some? ==> st1.errors == st.errors)
      && (Ast.Erase(l) == l && Ast.Erase(r) == r ==> st1.lastSpan == st.lastSpan)
    decreases Ast.Size(l) + Ast.Size(r), 0
  {
    ArithAgrees(l, st, find);
    var (lt, st1) := Validate(l, st, find);
    if lt.Some? {
      ArithAgrees(r, st1, find);
    }
  }

  lemma {:induction false} EqualityAgrees(op: Ast.BinaryOp, l: Ast.Expr, r: Ast.Expr, st: State, find: FunLookup)
    requires op in {Ast.Range, Ast.Sub, Ast.Mul, Ast.Div} && Arith(l) && Arith(r) && Ready(st)
    ensures Agrees(Ast.Binary(op, l, r), st, find)
    decreases Ast.Size(l) + Ast.Size(r), 1
  {
    OperandsAgree(l, r, st, find);
    var e := Ast.Binary(op, l, r);
    var operands := EnsureTypeEquality(l, r, st, find);
    var same := Same(TypeOf(st.scopes, l), TypeOf(st.scopes, r));
    assert operands.0 == same;
    assert Validate(e, st, find) == BinaryType(op, operands);
    assert TypeOf(st.scopes, e) == if op == Ast.Range then (if same.Some? then Some(Range(same.value)) else None) else same;
    assert BinaryType(op, operands) == (TypeOf(st.scopes, e), operands.1);
    assert Ast.Erase(e) == e ==> Ast.Erase(l) == l && Ast.Erase(r) == r;
  }

  lemma {:induction false} AddAgrees(l: Ast.Expr, r: Ast.Expr, st: State, find: FunLookup)
    requires Arith(l) && Arith(r) && Ready(st)
    ensures Agrees(Ast.Binary(Ast.Add, l, r), st, find)
    decreases Ast.Size(l) + Ast.Size(r), 3
  {
    AddRuleAgrees(l, r, st, find);
    var e := Ast.Binary(Ast.Add, l, r);
    assert Ast.Erase(e) == e ==> Ast.Erase(l) == l && Ast.Erase(r) == r;
  }

  lemma {:induction false} AddRuleAgrees(l: Ast.Expr, r: Ast.Expr, st: State, find: FunLookup)
    requires Arith(l) && Arith(r) && Ready(st)
    ensures var (ty, st1) := ValidateAdd(l, r, st, find);
      ty == AddType(TypeOf(st.scopes, l), TypeOf(st.scopes, r)) && st1.scopes == st.scopes
      && (ty.Some? ==> st1.errors == st.errors)
      && (Ast.Erase(l) == l && Ast.Erase(r) == r ==> st1.lastSpan == st.lastSpan)
    decreases Ast.Size(l) + Ast.Size(r), 2
  {
    ArithAgrees(l, st, find);
    var (lt, st1) := Validate(l, st, find);
    if lt.Some? {
      ArithAgrees(r, st1, find);
      var (rt, st2) := Validate(r, st1, find);
      if rt.Some? {
        AddTypedAgrees(l, r, lt.value, rt.value, st2, find);
      }
    }
  }

  lemma {:induction false} AddTypedAgrees(l: Ast.Expr, r: Ast.Expr, lt: ExprType, rt: ExprType, st: State, find: FunLookup)
    requires Arith(l) && Arith(r) && Ready(st)
    requires TypeOf(st.scopes, l) == Some(lt) && TypeOf(st.scopes, r) == Some(rt)
    ensures var (ty, st1) := AddTyped(l, r, lt, rt, st, find);
      ty == AddType(Some(lt), Some(rt)) && st1.scopes == st.scopes
      && (ty.Some? ==> st1.errors == st.errors)
      && (Ast.Erase(l) == l && Ast.Erase(r) == r ==> st1.lastSpan == st.lastSpan)
    decreases Ast.Size(l) + Ast.Size(r), 1
  {
    if lt != Unit && rt != Unit && lt != STRING && rt != STRING {
      OperandsAgree(l, r, st, find);
    }
  }

  /** `<` and `>` on operands of one primitive type have that type here,
      where the table (and the newest revision) gives a boolean, or an
      error for two booleans. */
  lemma {:induction false} ComparisonHasOperandType(op: Ast.BinaryOp, l: Ast.Expr, r: Ast.Expr, p: Primitive, st: State, find: FunLookup)
    requires op in {Ast.LessThan, Ast.MoreThan} && Arith(l) && Arith(r) && Ready(st)
    requires TypeOf(st.scopes, l) == TypeOf(st.scopes, r) == Some(Primitive(p))
    ensures Handled(Ast.Binary(op, l, r)) && Pure(Ast.Binary(op, l, r))
    ensures Validate(Ast.Binary(op, l, r), st, find).0 == Some(Primitive(p))
    ensures TypeOf(st.scopes, Ast.Binary(op, l, r)) == if p == Boolean then None else Some(BOOLEAN)
  {
    OperandsAgree(l, r, st, find);
  }

  /** A `Spanned` node around arithmetic without spans leaves its span as
      the current one, whatever it was before; the newest revision restores
      it. */
  lemma {:induction false} SpanNotRestored(span: Lexer.Span, x: Ast.Expr, st: State, find: FunLookup)
    requires Arith(x) && Ast.Erase(x) == x && Ready(st)
    ensures Handled(Ast.Spanned(span, x))
    ensures Validate(Ast.Spanned(span, x), st, find).1.lastSpan == Some(span)
  {
    ArithAgrees(x, st.(lastSpan := Some(span)), find);
  }

  /** A left operand that fails ends `ensure_type_equality` before the right
      one is validated: there is no type, and the state, diagnostics
      included, is the one the left operand left, whatever the right
      operand is. `+` stops there too, and `<` and `>` add only their own
      "can't compare types". */
  lemma LeftFailureStops(op: Ast.BinaryOp, left: Ast.Expr, right: Ast.Expr, st: State, find: FunLookup)
    requires op !in {Ast.And, Ast.Or} && Handled(left) && Handled(right) && Ready(st)
    requires Validate(left, st, find).0.None?
    ensures EnsureTypeEquality(left, right, st, find) == (None, Validate(left, st, find).1)
    ensures Handled(Ast.Binary(op, left, right))
    ensures Validate(Ast.Binary(op, left, right), st, find) ==
      if op in {Ast.LessThan, Ast.MoreThan} then (None, Error(Validate(left, st, find).1, "can't compare types"))
      else (None, Validate(left, st, find).1)
  {
  }

  /** `-x` has the type of `x`, whatever it is, and reports nothing; the
      table types only the negation of an `Int`. */
  lemma {:induction false} NegKeepsOperandType(x: Ast.Expr, t: ExprType, st: State, find: FunLookup)
    requires Arith(x) && Ready(st) && TypeOf(st.scopes, x) == Some(t)
    ensures Handled(Ast.Neg(x)) && Pure(Ast.Neg(x))
    ensures Validate(Ast.Neg(x), st, find).0 == Some(t)
    ensures Validate(Ast.Neg(x), st, find).1.errors == st.errors
    ensures TypeOf(st.scopes, Ast.Neg(x)).Some? <==> t == INT
  {
    ArithAgrees(x, st, find);
  }
}
