/** The newest revision of the checker's rules (the `Validate` impls under
    `src/analyzer/validation/`): one method per rule on a `Checker` that
    holds the fields of the checker's context the rules read and update.
    Every rule keeps the return type and the current span, only appends
    diagnostics and never lowers the scope stack; on the expressions the
    table in `Typing` covers, each computes the table's type, leaves the
    scopes alone, and fails only with a diagnostic when every name is
    bound. */
module Validation {
  import opened Wrappers
  import opened CheckerTypes
  import opened TypeScopes
  import opened Typing
  import Ast
  import Lexer

  /** A message and the span it is reported at, if one is known. */
  datatype Diagnostic = Diagnostic(span: Option<Lexer.Span>, message: string)

  /** `find_fun_ret_type`: the return type of the named function called with
      the given argument types (or with arguments that did not all type). */
  type FunLookup = (Ast.SpannedIdent, Option<seq<ExprType>>) -> Option<ExprType>

  /** No `if`, `for` or `while` occurs inside the argument of a call: the
      only place where a failed statement does not fail its parent. */
  predicate NoControl(e: Ast.Expr) {
    match e
    case If(_, _, _) => false
    case For(_, _, _) => false
    case While(_, _) => false
    case Return(v) => v.Some? ==> NoControl(v.value)
    case Binding(_, _, v) => NoControl(v)
    case Set(_, v) => NoControl(v)
    case Call(_, args) => forall i | 0 <= i < |args| :: NoControl(args[i])
    case SetByIndex(_, i, v) => NoControl(i) && NoControl(v)
    case Neg(x) => NoControl(x)
    case BoolNeg(x) => NoControl(x)
    case Binary(_, l, r) => NoControl(l) && NoControl(r)
    case Parens(x) => NoControl(x)
    case GetByIndex(_, i) => NoControl(i)
    case Spanned(_, x) => NoControl(x)
    case _ => true
  }

  predicate Structured(e: Ast.Expr) {
    match e
    case If(c, b, eb) =>
      Structured(c) && (forall i | 0 <= i < |b| :: Structured(b[i]))
      && (forall i | 0 <= i < |eb| :: Structured(eb[i]))
    case For(_, it, b) => Structured(it) && forall i | 0 <= i < |b| :: Structured(b[i])
    case While(c, b) => Structured(c) && forall i | 0 <= i < |b| :: Structured(b[i])
    case Return(v) => v.Some? ==> Structured(v.value)
    case Binding(_, _, v) => Structured(v)
    case Set(_, v) => Structured(v)
    case Call(_, args) => forall i | 0 <= i < |args| :: NoControl(args[i])
    case SetByIndex(_, i, v) => Structured(i) && Structured(v)
    case Neg(x) => Structured(x)
    case BoolNeg(x) => Structured(x)
    case Binary(_, l, r) => Structured(l) && Structured(r)
    case Parens(x) => Structured(x)
    case GetByIndex(_, i) => Structured(i)
    case Spanned(_, x) => Structured(x)
    case _ => true
  }

  /** Every statement of a body is one the table covers. */
  predicate AllPure(body: seq<Ast.Expr>) {
    forall i | 0 <= i < |body| :: Pure(body[i])
  }

  /** Every statement of a body has a type in the table, read from the
      last statement back. */
  predicate AllTyped(scopes: Scopes, body: seq<Ast.Expr>)
    decreases |body|
  {
    |body| == 0
    || (AllTyped(scopes, body[..|body| - 1]) && Pure(body[|body| - 1]) && TypeOf(scopes, body[|body| - 1]).Some?)
  }

  /** In a body where every statement has a type, each one does. */
  lemma {:induction false} TypedAt(scopes: Scopes, body: seq<Ast.Expr>, i: nat)
    requires AllTyped(scopes, body) && i < |body|
    ensures Pure(body[i]) && TypeOf(scopes, body[i]).Some?
    decreases |body|
  {
    if i < |body| - 1 {
      TypedAt(scopes, body[..|body| - 1], i);
    }
  }

  /** A statement with a type extends a typed prefix of a body by one. */
  lemma TypedPrefixGrows(scopes: Scopes, body: seq<Ast.Expr>, k: nat)
    requires k < |body| && AllTyped(scopes, body[..k])
    requires Pure(body[k]) && TypeOf(scopes, body[k]).Some?
    ensures AllTyped(scopes, body[..k + 1])
  {
    assert body[..k + 1][..k] == body[..k];
  }

  /** Every name a statement of a body uses is bound. */
  predicate AllBound(scopes: Scopes, body: seq<Ast.Expr>) {
    forall i | 0 <= i < |body| :: Bound(scopes, body[i])
  }

  /** The scopes a block's statements are checked in: a new innermost
      scope, binding the loop variable when the block is a `for` body.
      Dropping that scope gives back the scopes the block started in. */
  function BlockScopes(scopes: Scopes, binding: Option<(string, ExprType)>): (r: Scopes)
    ensures |r| == |scopes| + 1 && PopScope(r) == scopes
  {
    var pushed := PushScope(scopes);
    if binding.Some? then AddVar(pushed, binding.value.0, binding.value.1) else pushed
  }

  /** A known type that `for` cannot iterate over. */
  predicate NotIterable(t: Option<ExprType>) {
    t.Some? && !t.value.Array? && !t.value.Range?
  }

  class Checker {
    var scopes: Scopes
    var currentRetType: Option<ExprType>
    var lastSpan: Option<Lexer.Span>
    var errors: seq<Diagnostic>
    const findFunRetType: FunLookup

    /** The state in which a function's body is checked: its return type
        and one empty scope. */
    constructor (retType: ExprType, find: FunLookup)
      ensures scopes == [map[]] && currentRetType == Some(retType)
      ensures lastSpan == None && errors == [] && findFunRetType == find
    {
      scopes := [map[]];
      currentRetType := Some(retType);
      lastSpan := None;
      errors := [];
      findFunRetType := find;
    }

    /** What `Return` and `Binding` rely on: a return type to compare with
        and a scope to bind in. */
    predicate Ready()
      reads this
    {
      currentRetType.Some? && |scopes| > 0
    }

    /** What every rule keeps: the return type and the current span are as
        they were, diagnostics are only appended, and the scope stack is at
        least as high. */
    twostate predicate Keeps()
      reads this
    {
      currentRetType == old(currentRetType) && lastSpan == old(lastSpan)
      && |old(errors)| <= |errors| && errors[..|old(errors)|] == old(errors) && |old(scopes)| <= |scopes|
    }

    /** `error`: a diagnostic at the current span. */
    method Error(message: string)
      modifies this
      ensures errors == old(errors) + [Diagnostic(lastSpan, message)]
      ensures scopes == old(scopes) && currentRetType == old(currentRetType) && lastSpan == old(lastSpan)
    {
      errors := errors + [Diagnostic(lastSpan, message)];
    }

    /** `error_with_span`: a diagnostic at the given span. */
    method ErrorWithSpan(message: string, span: Lexer.Span)
      modifies this
      ensures errors == old(errors) + [Diagnostic(Some(span), message)]
      ensures scopes == old(scopes) && currentRetType == old(currentRetType) && lastSpan == old(lastSpan)
    {
      errors := errors + [Diagnostic(Some(span), message)];
    }

    /** `Validate for Expr`, with `Validate for Spanned<E>` (which sets the
        current span for the inner node and restores it afterwards), the
        rules for literals and identifiers (`Validate for ShortExpr`) and
        the dispatch to the other levels. */
    method Validate(e: Ast.Expr) returns (ty: Option<ExprType>)
      requires Ready()
      modifies this
      ensures Ready() && Keeps()
      ensures Pure(e) ==> ty == TypeOf(old(scopes), e) && scopes == old(scopes)
      ensures Pure(e) && ty.Some? ==> errors == old(errors)
      ensures Pure(e) && ty.None? && Bound(old(scopes), e) ==> |errors| > |old(errors)|
      ensures NoControl(e) ==> |scopes| == |old(scopes)|
      ensures ty.Some? && Structured(e) ==> |scopes| == |old(scopes)|
      decreases Ast.Size(e), 3
    {
      match e
      case Spanned(span, inner) =>
        var saved := lastSpan;
        lastSpan := Some(span);
        ty := Validate(inner);
        lastSpan := saved;
      case Literal(l) =>
        ty := Some(LiteralType(l));
      case Ident(name) =>
        ty := FindVar(scopes, name);
      case GetByIndex(target, index) =>
        ty := ValidateGetByIndex(target, index);
      case Binary(op, l, r) =>
        if e.IsComparison() {
          ty := ValidateComparison(op, l, r);
        } else {
          ty := ValidateMath(e);
        }
      case Neg(_) =>
        ty := ValidateMath(e);
      case BoolNeg(_) =>
        ty := ValidateMath(e);
      case Parens(_) =>
        ty := ValidateMath(e);
      case _ =>
        ty := ValidateTop(e);
    }

    /** `Validate for MathExpr`. */
    method ValidateMath(e: Ast.Expr) returns (ty: Option<ExprType>)
      requires Ready() && e.IsMath()
      modifies this
      ensures Ready() && Keeps()
      ensures Pure(e) ==> ty == TypeOf(old(scopes), e) && scopes == old(scopes)
      ensures Pure(e) && ty.Some? ==> errors == old(errors)
      ensures Pure(e) && ty.None? && Bound(old(scopes), e) ==> |errors| > |old(errors)|
      ensures NoControl(e) ==> |scopes| == |old(scopes)|
      ensures ty.Some? && Structured(e) ==> |scopes| == |old(scopes)|
      decreases Ast.Size(e), 2
    {
      match e
      case Neg(x) =>
        ty := ValidateNeg(x, INT, "negation only applicable to Int type");
      case BoolNeg(x) =>
        ty := ValidateNeg(x, BOOLEAN, "boolean negation only applicable to Boolean type");
      case Parens(x) =>
        ty := Validate(x);
      case Binary(op, l, r) =>
        if op == Ast.Add {
          ty := ValidateAdd(l, r);
        } else {
          ty := EnsureTypeEquality(l, r);
          if op == Ast.Range && ty.Some? {
            ty := Some(Range(ty.value));
          }
        }
    }

    /** `Validate for TopExpr` and `Validate for ControlExpr`. */
    method ValidateTop(e: Ast.Expr) returns (ty: Option<ExprType>)
      requires Ready() && e.IsTop()
      modifies this
      ensures Ready() && Keeps()
      ensures NoControl(e) ==> |scopes| == |old(scopes)|
      ensures ty.Some? && Structured(e) ==> |scopes| == |old(scopes)|
      decreases Ast.Size(e), 2
    {
      match e
      case Call(name, args) =>
        ty := ValidateCall(name, args);
      case Binding(_, name, value) =>
        ty := ValidateBinding(name, value);
      case Set(name, value) =>
        ty := ValidateSet(name, value);
      case SetByIndex(target, index, value) =>
        ty := EnsureTypeEquality(Ast.GetByIndex(target, index), value);
      case If(cond, body, elseBranch) =>
        ty := ValidateIf(cond, body, elseBranch);
      case For(variable, iterable, body) =>
        ty := ValidateFor(variable, iterable, body);
      case While(cond, body) =>
        ty := ValidateWhile(cond, body);
      case Return(result) =>
        ty := ValidateReturn(result);
    }

    /** `Neg` and `BoolNeg`: the operand must have the expected type. */
    method ValidateNeg(x: Ast.Expr, expected: ExprType, message: string) returns (ty: Option<ExprType>)
      requires Ready()
      modifies this
      ensures Ready() && Keeps()
      ensures ty.Some? ==> ty == Some(expected)
      ensures Pure(x) ==> scopes == old(scopes)
      ensures Pure(x) && TypeOf(old(scopes), x).Some? ==>
        errors == old(errors) + (if ty.None? then [Diagnostic(lastSpan, message)] else [])
      ensures Pure(x) ==> (ty.Some? <==> TypeOf(old(scopes), x) == Some(expected))
      ensures Pure(x) && ty.None? && Bound(old(scopes), x) ==> |errors| > |old(errors)|
      ensures ty.Some? && Structured(x) ==> |scopes| == |old(scopes)|
      ensures NoControl(x) ==> |scopes| == |old(scopes)|
      decreases Ast.Size(x) + 1, 1
    {
      ty := Validate(x);
      if ty.None? {
        return;
      }
      if ty.value != expected {
        Error(message);
        ty := None;
      }
    }

    /** `ensure_type_equality`: both operands are validated, the right one
        even when the left one fails; the result is their common type, and
        two known types that differ are reported as wrong operands. */
    method EnsureTypeEquality(left: Ast.Expr, right: Ast.Expr) returns (ty: Option<ExprType>)
      requires Ready()
      modifies this
      ensures Ready() && Keeps()
      ensures Pure(left) && Pure(right) ==>
        ty == Same(TypeOf(old(scopes), left), TypeOf(old(scopes), right)) && scopes == old(scopes)
      ensures Pure(left) && Pure(right) && TypeOf(old(scopes), left).Some? && TypeOf(old(scopes), right).Some? ==>
        errors == old(errors) + (if ty.None? then [Diagnostic(lastSpan, "wrong operands")] else [])
      ensures Pure(left) && Pure(right) && ty.None? && Bound(old(scopes), left) && Bound(old(scopes), right) ==>
        |errors| > |old(errors)|
      ensures ty.Some? && Structured(left) && Structured(right) ==> |scopes| == |old(scopes)|
      ensures NoControl(left) && NoControl(right) ==> |scopes| == |old(scopes)|
      decreases Ast.Size(left) + Ast.Size(right), 0
    {
      var l := Validate(left);
      var r := Validate(right);
      if r.None? || l.None? {
        return None;
      }
      if l == r {
        ty := r;
      } else {
        Error("wrong operands");
        ty := None;
      }
    }

    /** `Add`: both operands must type; a unit operand is an error, a string
        on either side makes a string, and otherwise the operands are
        validated a second time and must agree. */
    method ValidateAdd(left: Ast.Expr, right: Ast.Expr) returns (ty: Option<ExprType>)
      requires Ready()
      modifies this
      ensures Ready() && Keeps()
      ensures Pure(left) && Pure(right) ==>
        ty == AddType(TypeOf(old(scopes), left), TypeOf(old(scopes), right)) && scopes == old(scopes)
      ensures Pure(left) && Pure(right) && ty.Some? ==> errors == old(errors)
      ensures Pure(left) && Pure(right) && ty.None? && Bound(old(scopes), left) && Bound(old(scopes), right) ==>
        |errors| > |old(errors)|
      ensures ty.Some? && Structured(left) && Structured(right) ==> |scopes| == |old(scopes)|
      ensures NoControl(left) && NoControl(right) ==> |scopes| == |old(scopes)|
      decreases Ast.Size(left) + Ast.Size(right), 2
    {
      var l := Validate(left);
      if l.None? {
        return None;
      }
      var r := Validate(right);
      if r.None? {
        return None;
      }
      ty := AddOperands(left, right, l.value, r.value);
    }

    /** `Add` once both operands have typed as `lt` and `rt`. */
    method AddOperands(left: Ast.Expr, right: Ast.Expr, lt: ExprType, rt: ExprType) returns (ty: Option<ExprType>)
      requires Ready()
      requires Pure(left) && Pure(right) ==> TypeOf(scopes, left) == Some(lt) && TypeOf(scopes, right) == Some(rt)
      modifies this
      ensures Ready() && Keeps()
      ensures Pure(left) && Pure(right) ==> ty == AddType(Some(lt), Some(rt)) && scopes == old(scopes)
      ensures Pure(left) && Pure(right) && ty.Some? ==> errors == old(errors)
      ensures Pure(left) && Pure(right) && ty.None? ==> |errors| > |old(errors)|
      ensures ty.Some? && Structured(left) && Structured(right) ==> |scopes| == |old(scopes)|
      ensures NoControl(left) && NoControl(right) ==> |scopes| == |old(scopes)|
      decreases Ast.Size(left) + Ast.Size(right), 1
    {
      if lt == Unit || rt == Unit {
        Error("it isn't possible to add items of unit type");
        ty := None;
      } else if lt == STRING || rt == STRING {
        ty := Some(STRING);
      } else {
        ty := EnsureTypeEquality(left, right);
      }
    }

    /** `ComparisonExpr`: the operands must agree; `&&` and `||` then need
        booleans, and `<` and `>` a primitive other than a boolean. A failed
        operand of `<` or `>` is reported once more as incomparable. */
    method ValidateComparison(op: Ast.BinaryOp, left: Ast.Expr, right: Ast.Expr) returns (ty: Option<ExprType>)
      requires Ready() && op in {Ast.LessThan, Ast.MoreThan, Ast.And, Ast.Or}
      modifies this
      ensures Ready() && Keeps()
      ensures ty.Some? ==> ty == Some(BOOLEAN)
      ensures Pure(left) && Pure(right) ==>
        ty == ComparisonType(op, Same(TypeOf(old(scopes), left), TypeOf(old(scopes), right))) && scopes == old(scopes)
      ensures Pure(left) && Pure(right) && ty.Some? ==> errors == old(errors)
      ensures Pure(left) && Pure(right) && ty.None? && Bound(old(scopes), left) && Bound(old(scopes), right) ==>
        |errors| > |old(errors)|
      ensures ty.Some? && Structured(left) && Structured(right) ==> |scopes| == |old(scopes)|
      ensures NoControl(left) && NoControl(right) ==> |scopes| == |old(scopes)|
      decreases Ast.Size(left) + Ast.Size(right), 1
    {
      var common := EnsureTypeEquality(left, right);
      if op in {Ast.And, Ast.Or} {
        if common.None? {
          return None;
        }
        if common.value != BOOLEAN {
          Error("boolean operators only applicable to booleans");
          return None;
        }
        return Some(BOOLEAN);
      }
      match common
      case Some(Primitive(p)) =>
        if p == Boolean {
          Error("can't compare booleans");
          ty := None;
        } else {
          ty := Some(BOOLEAN);
        }
      case _ =>
        Error("can't compare types");
        ty := None;
    }

    /** Indexing `target[index]`, the rule `SetByIndex` compares its value
        with: the index must be an `Int` and the target an array or a
        string; a bad index and a bad target are each reported. */
    method ValidateGetByIndex(target: Ast.SpannedIdent, index: Ast.Expr) returns (ty: Option<ExprType>)
      requires Ready()
      modifies this
      ensures Ready() && Keeps()
      ensures Pure(index) ==>
        ty == IndexedType(FindVar(old(scopes), target.name), TypeOf(old(scopes), index)) && scopes == old(scopes)
      ensures Pure(index) && ty.Some? ==> errors == old(errors)
      ensures Pure(index) && ty.None? && Bound(old(scopes), index) ==> |errors| > |old(errors)|
      ensures ty.Some? && Structured(index) ==> |scopes| == |old(scopes)|
      ensures NoControl(index) ==> |scopes| == |old(scopes)|
      decreases Ast.Size(index) + 1, 1
    {
      var indexType := Validate(index);
      if indexType.Some? && indexType.value != INT {
        Error("index must have Int type");
      }
      var elem := IndexTarget(target.name);
      ty := if indexType == Some(INT) then elem else None;
    }

    /** The target of an index: an array gives its element type and a
        string gives `Char`; anything else, or no such variable, is
        reported. */
    method IndexTarget(name: string) returns (elem: Option<ExprType>)
      requires Ready()
      modifies this
      ensures Ready() && Keeps() && scopes == old(scopes)
      ensures elem == IndexedType(FindVar(scopes, name), Some(INT))
      ensures elem.Some? ==> errors == old(errors)
      ensures elem.None? ==> |errors| > |old(errors)|
    {
      var base := FindVar(scopes, name);
      elem := None;
      if base.Some? && base.value.Array? {
        elem := Some(base.value.elem);
      } else if base == Some(STRING) {
        elem := Some(CHAR);
      } else {
        Error("only arrays and strings can be indexed");
      }
    }

    /** `Call`: every argument is validated (`filter_map`); the callee is
        looked up with the argument types when all of them typed, and
        without them otherwise. */
    method ValidateCall(name: Ast.SpannedIdent, args: seq<Ast.Expr>) returns (ty: Option<ExprType>)
      requires Ready()
      modifies this
      ensures Ready() && Keeps()
      ensures (forall a | a in args :: Pure(a)) ==>
        scopes == old(scopes) && ty == findFunRetType(name, CallKey(TypedArgs(old(scopes), args), |args|))
      ensures (forall i | 0 <= i < |args| :: NoControl(args[i])) ==> |scopes| == |old(scopes)|
      decreases Ast.SizeAll(args) + 1, 1
    {
      var types := ValidateArgs(args);
      if |types| == |args| {
        ty := findFunRetType(name, Some(types));
      } else {
        ty := findFunRetType(name, None);
      }
    }

    /** The `filter_map` over the arguments of a call: each argument in
        turn, keeping the types of those that have one. */
    method ValidateArgs(args: seq<Ast.Expr>) returns (types: seq<ExprType>)
      requires Ready()
      modifies this
      ensures Ready() && Keeps()
      ensures (forall a | a in args :: Pure(a)) ==>
        scopes == old(scopes) && types == TypedArgs(old(scopes), args)
      ensures (forall i | 0 <= i < |args| :: NoControl(args[i])) ==> |scopes| == |old(scopes)|
      decreases Ast.SizeAll(args), 4
    {
      if |args| == 0 {
        return [];
      }
      var t := Validate(args[0]);
      assert forall a | a in args[1..] :: a in args;
      assert forall i | 0 <= i < |args[1..]| :: args[1..][i] == args[i + 1];
      var rest := ValidateArgs(args[1..]);
      types := if t.Some? then [t.value] + rest else rest;
    }

    /** `Binding`: the value must type; its type is bound in the innermost
        scope (unless that scope already binds the name) and is also the
        type of the binding. */
    method ValidateBinding(name: Ast.SpannedIdent, value: Ast.Expr) returns (ty: Option<ExprType>)
      requires Ready()
      modifies this
      ensures Ready() && Keeps()
      ensures ty.Some? ==> name.name in scopes[|scopes| - 1]
      ensures Pure(value) ==> ty == TypeOf(old(scopes), value)
      ensures Pure(value) ==> scopes == if ty.Some? then AddVar(old(scopes), name.name, ty.value) else old(scopes)
      ensures ty.Some? && Structured(value) ==> |scopes| == |old(scopes)|
      ensures NoControl(value) ==> |scopes| == |old(scopes)|
      decreases Ast.Size(value) + 1, 1
    {
      ty := Validate(value);
      if ty.Some? {
        scopes := AddVar(scopes, name.name, ty.value);
      }
    }

    /** `Set`: the value is always validated; a name bound nowhere is
        reported at the name's own span, a bound name of another type is
        reported at the current span, and a good assignment is `Unit`. */
    method ValidateSet(name: Ast.SpannedIdent, value: Ast.Expr) returns (ty: Option<ExprType>)
      requires Ready()
      modifies this
      ensures Ready() && Keeps()
      ensures ty.Some? ==> ty == Some(Unit)
      ensures Pure(value) ==> scopes == old(scopes)
      ensures Pure(value) && FindVar(old(scopes), name.name).None? ==>
        ty.None? && |errors| > 0
        && errors[|errors| - 1] == Diagnostic(Some(name.span), "variable " + name.name + " not found in scope")
      ensures Pure(value) && TypeOf(old(scopes), value).Some? && FindVar(old(scopes), name.name).Some? ==>
        (ty.Some? <==> FindVar(old(scopes), name.name) == TypeOf(old(scopes), value))
        && errors == old(errors) + (if ty.Some? then [] else
          [Diagnostic(lastSpan, "variable " + name.name + " found but it has different type")])
      ensures ty.Some? && Structured(value) ==> |scopes| == |old(scopes)|
      ensures NoControl(value) ==> |scopes| == |old(scopes)|
      decreases Ast.Size(value) + 1, 1
    {
      var valueType := Validate(value);
      var expected := FindVar(scopes, name.name);
      if expected.Some? {
        if valueType.None? {
          return None;
        }
        if expected != valueType {
          Error("variable " + name.name + " found but it has different type");
          ty := None;
        } else {
          ty := Some(Unit);
        }
      } else {
        ErrorWithSpan("variable " + name.name + " not found in scope", name.span);
        ty := None;
      }
    }

    /** One statement of a body, `expr.validate(context)?`: whether it has a
        type. On a statement the table covers, it passes exactly when the
        table gives it a type, leaves the scopes alone, reports nothing when
        it passes and something when it fails with every name bound. */
    method ValidateStatement(e: Ast.Expr) returns (ok: bool)
      requires Ready()
      modifies this
      ensures Ready() && Keeps()
      ensures ok && Structured(e) ==> |scopes| == |old(scopes)|
      ensures Pure(e) ==> scopes == old(scopes) && (ok <==> TypeOf(old(scopes), e).Some?)
      ensures Pure(e) && ok ==> errors == old(errors)
      ensures Pure(e) && !ok && Bound(old(scopes), e) ==> |errors| > |old(errors)|
      decreases Ast.Size(e), 4
    {
      var t := Validate(e);
      ok := t.Some?;
    }

    /** The loop `for expr in body { expr.validate(context)?; }`: stops at
        the first statement that fails. On statements the table covers, the
        body passes exactly when every statement has a type, the scopes are
        left alone, nothing is reported when it passes, and something is
        when it fails with every name bound. */
    method ValidateBody(body: seq<Ast.Expr>) returns (ok: bool)
      requires Ready()
      modifies this
      ensures Ready() && Keeps()
      ensures ok && (forall i | 0 <= i < |body| :: Structured(body[i])) ==> |scopes| == |old(scopes)|
      ensures AllPure(body) ==> scopes == old(scopes) && (ok <==> AllTyped(old(scopes), body))
      ensures ok && AllPure(body) ==> errors == old(errors)
      ensures !ok && AllPure(body) && AllBound(old(scopes), body) ==> |errors| > |old(errors)|
      decreases Ast.SizeAll(body), 5
    {
      ghost var pure := AllPure(body);
      ghost var structured := forall i | 0 <= i < |body| :: Structured(body[i]);
      ghost var before := scopes;
      var k := 0;
      while k < |body|
        invariant 0 <= k <= |body|
        invariant Ready() && Keeps()
        invariant structured ==> |scopes| == |old(scopes)|
        invariant pure ==> scopes == before && errors == old(errors)
        invariant pure ==> AllTyped(before, body[..k])
      {
        var e := body[k];
        assert pure ==> Pure(e);
        assert structured ==> Structured(e);
        var passed := ValidateStatement(e);
        if !passed {
          if pure && AllTyped(before, body) {
            TypedAt(before, body, k);
          }
          assert pure && AllBound(before, body) ==> |errors| > |old(errors)| by {
            if pure && AllBound(before, body) {
              assert Bound(before, e);
            }
          }
          return false;
        }
        if pure {
          TypedPrefixGrows(before, body, k);
        }
        k := k + 1;
      }
      assert body[..k] == body;
      return true;
    }

    /** A block in a scope of its own: the scope is pushed, the loop
        variable of a `for` bound in it, the statements checked, and the
        scope popped once they all pass. A failing statement leaves the
        scope pushed. On statements the table covers, the block passes
        exactly when each has a type in the block's scopes, and then the
        scopes are as before and nothing is reported. */
    method ValidateBlock(body: seq<Ast.Expr>, binding: Option<(string, ExprType)>) returns (ok: bool)
      requires Ready()
      modifies this
      ensures Ready() && Keeps()
      ensures ok && (forall i | 0 <= i < |body| :: Structured(body[i])) ==> |scopes| == |old(scopes)|
      ensures !ok ==> |scopes| > |old(scopes)|
      ensures AllPure(body) ==> (ok <==> AllTyped(BlockScopes(old(scopes), binding), body))
      ensures ok && AllPure(body) ==> scopes == old(scopes) && errors == old(errors)
      decreases Ast.SizeAll(body), 6
    {
      scopes := PushScope(scopes);
      if binding.Some? {
        scopes := AddVar(scopes, binding.value.0, binding.value.1);
      }
      ok := ValidateBody(body);
      if ok {
        scopes := PopScope(scopes);
      }
    }

    /** `If`: the condition must be a boolean; each branch is checked in a
        scope of its own. A failing statement ends the check with its scope
        still pushed. With a boolean condition and branches the table
        covers, the `if` types as `Unit` exactly when every statement of
        both branches has a type in a new scope. */
    method ValidateIf(cond: Ast.Expr, body: seq<Ast.Expr>, elseBranch: seq<Ast.Expr>) returns (ty: Option<ExprType>)
      requires Ready()
      modifies this
      ensures Ready() && Keeps()
      ensures ty.Some? ==> ty == Some(Unit)
      ensures Pure(cond) && TypeOf(old(scopes), cond).Some? && TypeOf(old(scopes), cond) != Some(BOOLEAN) ==>
        ty.None? && scopes == old(scopes)
        && errors == old(errors) + [Diagnostic(lastSpan, "condition must have boolean type")]
      ensures Pure(cond) && TypeOf(old(scopes), cond) == Some(BOOLEAN) && ty.None? ==> |scopes| > |old(scopes)|
      ensures ty.Some? && Structured(Ast.If(cond, body, elseBranch)) ==> |scopes| == |old(scopes)|
      ensures Pure(cond) && TypeOf(old(scopes), cond).None? ==> ty.None?
      ensures Pure(cond) && TypeOf(old(scopes), cond) == Some(BOOLEAN) && AllPure(body) && AllPure(elseBranch) ==>
        (ty.Some? <==> AllTyped(PushScope(old(scopes)), body) && AllTyped(PushScope(old(scopes)), elseBranch))
      ensures ty.Some? && Pure(cond) && AllPure(body) && AllPure(elseBranch) ==> scopes == old(scopes) && errors == old(errors)
      decreases Ast.Size(cond) + Ast.SizeAll(body) + Ast.SizeAll(elseBranch) + 1, 1
    {
      var condType := Validate(cond);
      assert Pure(cond) && TypeOf(old(scopes), cond).Some? ==>
        condType == TypeOf(old(scopes), cond) && scopes == old(scopes) && errors == old(errors);
      if condType.None? {
        return None;
      }
      if condType.value != BOOLEAN {
        Error("condition must have boolean type");
        return None;
      }
      var ok := ValidateBranches(body, elseBranch);
      ty := if ok then Some(Unit) else None;
    }

    /** The two branches of an `if`, each a block; the second is checked
        only when the first passes. On branches the table covers, they pass
        exactly when every statement of each has a type in a new scope. */
    method ValidateBranches(body: seq<Ast.Expr>, elseBranch: seq<Ast.Expr>) returns (ok: bool)
      requires Ready()
      modifies this
      ensures Ready() && Keeps()
      ensures ok && (forall i | 0 <= i < |body| :: Structured(body[i])) && (forall i | 0 <= i < |elseBranch| :: Structured(elseBranch[i]))
        ==> |scopes| == |old(scopes)|
      ensures !ok ==> |scopes| > |old(scopes)|
      ensures AllPure(body) && AllPure(elseBranch) ==>
        (ok <==> AllTyped(PushScope(old(scopes)), body) && AllTyped(PushScope(old(scopes)), elseBranch))
      ensures ok && AllPure(body) && AllPure(elseBranch) ==> scopes == old(scopes) && errors == old(errors)
      decreases Ast.SizeAll(body) + Ast.SizeAll(elseBranch), 7
    {
      ok := ValidateBlock(body, None);
      if ok {
        ok := ValidateBlock(elseBranch, None);
      }
    }

    /** `For`: the iterable must be an array or a range of `T`; the loop
        variable is bound to `T` in a new scope around the body. With such
        an iterable and a body the table covers, the `for` types as `Unit`
        exactly when every statement of the body has a type in that
        scope. */
    method ValidateFor(variable: string, iterable: Ast.Expr, body: seq<Ast.Expr>) returns (ty: Option<ExprType>)
      requires Ready()
      modifies this
      ensures Ready() && Keeps()
      ensures ty.Some? ==> ty == Some(Unit)
      ensures Pure(iterable) && NotIterable(TypeOf(old(scopes), iterable)) ==>
        ty.None? && scopes == old(scopes)
        && errors == old(errors) + [Diagnostic(lastSpan, "only array and range are iterable types")]
      ensures ty.Some? && Structured(Ast.For(variable, iterable, body)) ==> |scopes| == |old(scopes)|
      ensures Pure(iterable) && TypeOf(old(scopes), iterable).None? ==> ty.None?
      ensures Pure(iterable) && AllPure(body) ==>
        var t := TypeOf(old(scopes), iterable);
        t.Some? && (t.value.Array? || t.value.Range?) ==>
          (ty.Some? <==> AllTyped(BlockScopes(old(scopes), Some((variable, t.value.elem))), body))
      ensures ty.Some? && Pure(iterable) && AllPure(body) ==> scopes == old(scopes) && errors == old(errors)
      decreases Ast.Size(iterable) + Ast.SizeAll(body) + 1, 1
    {
      var iterType := Validate(iterable);
      assert Pure(iterable) && NotIterable(TypeOf(old(scopes), iterable)) ==>
        NotIterable(iterType) && scopes == old(scopes) && errors == old(errors);
      if iterType.None? {
        return None;
      }
      if !iterType.value.Array? && !iterType.value.Range? {
        Error("only array and range are iterable types");
        return None;
      }
      assert !(Pure(iterable) && NotIterable(TypeOf(old(scopes), iterable)));
      var ok := ValidateBlock(body, Some((variable, iterType.value.elem)));
      if !ok {
        return None;
      }
      ty := Some(Unit);
    }

    /** `While`: the condition must be a boolean; the body is checked in a
        scope of its own. With a boolean condition and a body the table
        covers, the `while` types as `Unit` exactly when every statement of
        the body has a type in a new scope. */
    method ValidateWhile(cond: Ast.Expr, body: seq<Ast.Expr>) returns (ty: Option<ExprType>)
      requires Ready()
      modifies this
      ensures Ready() && Keeps()
      ensures ty.Some? ==> ty == Some(Unit)
      ensures Pure(cond) && TypeOf(old(scopes), cond).Some? && TypeOf(old(scopes), cond) != Some(BOOLEAN) ==>
        ty.None? && scopes == old(scopes)
        && errors == old(errors) + [Diagnostic(lastSpan, "condition must have boolean type")]
      ensures Pure(cond) && TypeOf(old(scopes), cond) == Some(BOOLEAN) && ty.None? ==> |scopes| > |old(scopes)|
      ensures ty.Some? && Structured(Ast.While(cond, body)) ==> |scopes| == |old(scopes)|
      ensures Pure(cond) && TypeOf(old(scopes), cond).None? ==> ty.None?
      ensures Pure(cond) && TypeOf(old(scopes), cond) == Some(BOOLEAN) && AllPure(body) ==>
        (ty.Some? <==> AllTyped(PushScope(old(scopes)), body))
      ensures ty.Some? && Pure(cond) && AllPure(body) ==> scopes == old(scopes) && errors == old(errors)
      decreases Ast.Size(cond) + Ast.SizeAll(body) + 1, 1
    {
      var condType := Validate(cond);
      assert Pure(cond) && TypeOf(old(scopes), cond).Some? ==>
        condType == TypeOf(old(scopes), cond) && scopes == old(scopes) && errors == old(errors);
      if condType.None? {
        return None;
      }
      if condType.value != BOOLEAN {
        Error("condition must have boolean type");
        return None;
      }
      var ok := ValidateBlock(body, None);
      if !ok {
        return None;
      }
      ty := Some(Unit);
    }

    /** `Return`: the returned type (`Unit` without a value) must be the
        function's return type; a mismatch is reported, but the statement
        still types as `Unit`. */
    method ValidateReturn(result: Option<Ast.Expr>) returns (ty: Option<ExprType>)
      requires Ready()
      modifies this
      ensures Ready() && Keeps()
      ensures ty.Some? ==> ty == Some(Unit)
      ensures result.None? ==>
        ty == Some(Unit) && scopes == old(scopes)
        && errors == old(errors) + (if currentRetType.value == Unit then [] else [Diagnostic(lastSpan, "wrong return type")])
      ensures result.Some? && Pure(result.value) && TypeOf(old(scopes), result.value).Some? ==>
        ty == Some(Unit) && scopes == old(scopes)
        && errors == old(errors)
          + (if TypeOf(old(scopes), result.value) == currentRetType then [] else [Diagnostic(lastSpan, "wrong return type")])
      ensures ty.Some? && Structured(Ast.Return(result)) ==> |scopes| == |old(scopes)|
      ensures (result.Some? ==> NoControl(result.value)) ==> |scopes| == |old(scopes)|
      decreases if result.Some? then Ast.Size(result.value) + 1 else 1, 1
    {
      var expected := currentRetType.value;
      if result.Some? {
        var actual := Validate(result.value);
        if actual.None? {
          return None;
        }
        if actual.value != expected {
          Error("wrong return type");
        }
      } else if expected != Unit {
        Error("wrong return type");
      }
      ty := Some(Unit);
    }
  }
}
