/** Properties of the evaluator: the operators, evaluation order, indexing,
    the built-ins, calls, loops and the return slot. */
module EvalProps {
  import opened Wrappers
  import opened Int32
  import TypeScopes
  import opened Objects
  import opened RuntimeScopes
  import opened Eval
  import Ast

  /** `+` with a string on either side writes the text of the left operand
      followed by the text of the right one; between integers it wraps. */
  lemma AddConcatenates(l: Object, r: Object)
    requires (l.String? || r.String?) && Printable(l) && Printable(r)
    ensures Apply(Ast.Add, l, r) == Ok(String(ToString(l) + ToString(r)))
  {
  }

  /** Integer `+`, `-`, `*` and `/` are exact when the result fits in an
      `i32` and wrap around otherwise; dividing by zero panics. */
  lemma ArithmeticWraps(a: i32, b: i32)
    ensures Apply(Ast.Add, Int(a), Int(b)) == Ok(Int(Wrap(a + b)))
    ensures Apply(Ast.Sub, Int(a), Int(b)) == Ok(Int(Wrap(a - b)))
    ensures Apply(Ast.Mul, Int(a), Int(b)) == Ok(Int(Wrap(a * b)))
    ensures b != 0 ==> Apply(Ast.Div, Int(a), Int(b)) == Ok(Int(Wrap(TruncDiv(a, b))))
    ensures b == 0 ==> Apply(Ast.Div, Int(a), Int(b)) == Err(DIVIDE_BY_ZERO)
    ensures Apply(Ast.Add, Int(MAX as i32), Int(1)) == Ok(Int(MIN as i32))
    ensures Apply(Ast.Div, Int(MIN as i32), Int(-1)) == Ok(Int(MIN as i32))
  {
    AddWrapsAround();
    DivWrapsAround();
  }

  /** `<` and `>` are defined on the same pairs, never both true, false on
      equal operands, and `l < r` is `r > l`. */
  lemma ComparisonsAgree(l: Object, r: Object)
    ensures Apply(Ast.LessThan, l, r).Ok? <==> Compare(l, r).Some?
    ensures Apply(Ast.MoreThan, l, r).Ok? <==> Compare(l, r).Some?
    ensures Compare(l, r).Some? ==>
      Apply(Ast.LessThan, l, r) == Apply(Ast.MoreThan, r, l)
      && !(Apply(Ast.LessThan, l, r).value.truth && Apply(Ast.MoreThan, l, r).value.truth)
      && (l == r ==> Apply(Ast.LessThan, l, r) == Apply(Ast.MoreThan, l, r) == Ok(Boolean(false)))
  {
    if Compare(l, r).Some? {
      CompareOrder(l, r);
    }
  }

  /** Operands are evaluated from left to right: when the left one halts,
      the operation halts the same way whatever the right one is. */
  lemma LeftOperandFirst(op: Ast.BinaryOp, left: Ast.Expr, right: Ast.Expr, env: Env, code: Code, fuel: nat)
    requires op !in {Ast.And, Ast.Or} && Runnable(left) && Runnable(right) && Ready(env, code) && fuel > 0
    requires Eval.Eval(left, env, code, fuel - 1).Halted?
    ensures Runnable(Ast.Binary(op, left, right))
    ensures Eval.Eval(Ast.Binary(op, left, right), env, code, fuel) == Eval.Eval(left, env, code, fuel - 1)
  {
  }

  /** An indexed assignment evaluates the value before the index: when the
      value halts, the assignment halts the same way whatever the index. */
  lemma ValueBeforeIndex(target: Ast.SpannedIdent, index: Ast.Expr, value: Ast.Expr, env: Env, code: Code, fuel: nat)
    requires Runnable(index) && Runnable(value) && Ready(env, code) && fuel > 0
    requires Eval.Eval(value, env, code, fuel - 1).Halted?
    ensures Runnable(Ast.SetByIndex(target, index, value))
    ensures Eval.Eval(Ast.SetByIndex(target, index, value), env, code, fuel) == Eval.Eval(value, env, code, fuel - 1)
  {
    var e := Ast.SetByIndex(target, index, value);
    assert Eval.Eval(e, env, code, fuel) == EvalStatement(e, env, code, fuel - 1);
    assert EvalStatement(e, env, code, fuel - 1) == EvalSetByIndex(target.name, index, value, env, code, fuel - 1);
  }

  /** A literal is its own value and changes nothing. */
  lemma LiteralValue(l: Ast.Literal, env: Env, code: Code, fuel: nat)
    requires Ready(env, code) && fuel > 0
    ensures Runnable(Ast.Literal(l))
    ensures Eval.Eval(Ast.Literal(l), env, code, fuel) == Done(LiteralObject(l), env)
  {
  }

  /** `a[i]` on an array bound to `a`: element `i`, with nothing changed,
      when `0 <= i < |a|`, and the exception "Index out of range"
      otherwise. */
  lemma IndexChecksBounds(target: Ast.SpannedIdent, i: i32, items: seq<Object>, env: Env, code: Code, fuel: nat)
    requires Ready(env, code) && fuel >= 2
    requires TypeScopes.FindVar(env.scopes, target.name) == Some(Array(items))
    ensures var r := Eval.Eval(Ast.GetByIndex(target, Ast.Literal(Ast.Int(i))), env, code, fuel);
      (0 <= i < |items| ==> r == Done(items[i], env))
      && (i < 0 || i >= |items| ==> r == Halted(Exception(INDEX_OUT_OF_RANGE), env.output))
  {
    var index := Ast.Literal(Ast.Int(i));
    LiteralValue(Ast.Int(i), env, code, fuel - 1);
    assert Eval.Eval(Ast.GetByIndex(target, index), env, code, fuel) == EvalGetByIndex(target.name, index, env, code, fuel - 1);
  }

  /** `a[i] = v` on an array bound to `a`: when `0 <= i < |a|`, the
      innermost scope binding `a` now binds it to the array with element
      `i` replaced and every other element as it was, and no other scope
      and no other name changes; otherwise the exception "Index out of
      range". */
  lemma IndexedAssignment(target: Ast.SpannedIdent, i: i32, v: Ast.Literal, items: seq<Object>, other: string, env: Env, code: Code, fuel: nat)
    requires Ready(env, code) && fuel >= 2
    requires TypeScopes.FindVar(env.scopes, target.name) == Some(Array(items))
    ensures Runnable(Ast.SetByIndex(target, Ast.Literal(Ast.Int(i)), Ast.Literal(v)))
    ensures var r := Eval.Eval(Ast.SetByIndex(target, Ast.Literal(Ast.Int(i)), Ast.Literal(v)), env, code, fuel);
      (i < 0 || i >= |items| ==> r == Halted(Exception(INDEX_OUT_OF_RANGE), env.output))
      && (0 <= i < |items| ==>
        r.Done? && r.value == Unit && r.env.retItem == env.retItem && r.env.output == env.output
        && TypeScopes.FindVar(r.env.scopes, target.name) == Some(Array(items[i := LiteralObject(v)]))
        && (other != target.name ==> TypeScopes.FindVar(r.env.scopes, other) == TypeScopes.FindVar(env.scopes, other))
        && exists k | Innermost(env.scopes, target.name, k) :: r.env.scopes == env.scopes[k := env.scopes[k][target.name := Array(items[i := LiteralObject(v)])]])
  {
    var e := Ast.SetByIndex(target, Ast.Literal(Ast.Int(i)), Ast.Literal(v));
    LiteralValue(Ast.Int(i), env, code, fuel - 1);
    LiteralValue(v, env, code, fuel - 1);
    assert Eval.Eval(e, env, code, fuel) == EvalStatement(e, env, code, fuel - 1);
    assert EvalStatement(e, env, code, fuel - 1) == EvalSetByIndex(target.name, Ast.Literal(Ast.Int(i)), Ast.Literal(v), env, code, fuel - 1);
    if 0 <= i < |items| {
      var updated := Array(items[i := LiteralObject(v)]);
      SetThenGet(env.scopes, target.name, updated, other);
      var k := SetChangesOneScope(env.scopes, target.name, updated);
    }
  }

  /** The built-ins are found before the program's functions: calling one
      does not depend on the function table or the fuel. `arrayOf` makes
      an array of its arguments in order; `println` writes their text and
      a line break. */
  lemma BuiltinsFirst(name: string, args: seq<Object>, env: Env, code: Code, code2: Code, fuel: nat, fuel2: nat)
    requires IsBuiltin(name) && CodeRunnable(code) && CodeRunnable(code2)
    ensures CallFunction(name, args, env, code, fuel) == CallFunction(name, args, env, code2, fuel2)
    ensures name == "arrayOf" ==> CallFunction(name, args, env, code, fuel) == Done(Array(args), env)
    ensures name == "println" && PrintText(args).Ok? ==>
      CallFunction(name, args, env, code, fuel) == Done(Unit, env.(output := env.output + PrintText(args).value + "\n"))
  {
  }

  /** `print` succeeds exactly when every argument has a text. */
  lemma {:induction false} PrintTextOk(args: seq<Object>)
    ensures PrintText(args).Ok? <==> forall i | 0 <= i < |args| :: Printable(args[i])
    decreases |args|
  {
    if |args| > 0 {
      PrintTextOk(args[1..]);
      assert forall i | 1 <= i < |args| :: args[1..][i - 1] == args[i];
    }
  }

  /** `print` writes the texts of the arguments one after the other: one
      more argument adds its text at the end. */
  lemma {:induction false} PrintTextAppends(args: seq<Object>, a: Object)
    requires PrintText(args).Ok? && Printable(a)
    ensures PrintText(args + [a]) == Ok(PrintText(args).value + ToString(a))
    decreases |args|
  {
    var all := args + [a];
    if |args| == 0 {
      assert all == [a];
      assert all[1..] == [];
      assert PrintText(all) == Ok(ToString(a) + "");
      assert ToString(a) + "" == "" + ToString(a);
    } else {
      var rest := args[1..];
      var head := ToString(args[0]);
      assert all[0] == args[0] && all[1..] == rest + [a];
      PrintTextAppends(rest, a);
      var t := PrintText(rest).value;
      assert PrintText(args) == Ok(head + t);
      assert PrintText(all) == Ok(head + (t + ToString(a)));
      assert head + (t + ToString(a)) == (head + t) + ToString(a);
    }
  }

  /** A user function called with the wrong number of arguments panics. */
  lemma ArityChecked(name: string, args: seq<Object>, env: Env, code: Code, fuel: nat)
    requires CodeRunnable(code) && !IsBuiltin(name) && name in code.functions
    requires |code.functions[name].args| != |args|
    ensures CallFunction(name, args, env, code, fuel) == Halted(Panic(ARITY), env.output)
  {
  }

  /** `return` stores its value, or `Unit`, in the return slot and is
      itself `Unit`. */
  lemma ReturnFillsSlot(l: Ast.Literal, env: Env, code: Code, fuel: nat)
    requires Ready(env, code) && fuel >= 2
    ensures Eval.Eval(Ast.Return(Some(Ast.Literal(l))), env, code, fuel) == Done(Unit, env.(retItem := Some(LiteralObject(l))))
    ensures Eval.Eval(Ast.Return(None), env, code, fuel) == Done(Unit, env.(retItem := Some(Unit)))
  {
    var e := Ast.Return(Some(Ast.Literal(l)));
    LiteralValue(l, env, code, fuel - 1);
    assert Eval.Eval(e, env, code, fuel) == EvalStatement(e, env, code, fuel - 1) == EvalReturn(e.result, env, code, fuel - 1);
    assert Eval.Eval(Ast.Return(None), env, code, fuel) == EvalStatement(Ast.Return(None), env, code, fuel - 1)
      == EvalReturn(None, env, code, fuel - 1);
  }

  /** `if` runs only the chosen branch: the other one does not matter. */
  lemma IfRunsOneBranch(b: bool, body: seq<Ast.Expr>, other: seq<Ast.Expr>, env: Env, code: Code, fuel: nat)
    requires AllRunnable(body) && AllRunnable(other) && Ready(env, code) && fuel >= 2
    ensures Runnable(Ast.If(Ast.Literal(Ast.Bool(b)), if b then body else other, if b then other else body))
    ensures Runnable(Ast.If(Ast.Literal(Ast.Bool(b)), if b then body else [], if b then [] else body))
    ensures Eval.Eval(Ast.If(Ast.Literal(Ast.Bool(b)), if b then body else other, if b then other else body), env, code, fuel)
      == Eval.Eval(Ast.If(Ast.Literal(Ast.Bool(b)), if b then body else [], if b then [] else body), env, code, fuel)
  {
    var cond := Ast.Literal(Ast.Bool(b));
    var e1 := Ast.If(cond, if b then body else other, if b then other else body);
    var e2 := Ast.If(cond, if b then body else [], if b then [] else body);
    LiteralValue(Ast.Bool(b), env, code, fuel - 1);
    assert Eval.Eval(e1, env, code, fuel) == EvalStatement(e1, env, code, fuel - 1) == EvalIf(cond, e1.body, e1.elseBranch, env, code, fuel - 1);
    assert Eval.Eval(e2, env, code, fuel) == EvalStatement(e2, env, code, fuel - 1) == EvalIf(cond, e2.body, e2.elseBranch, env, code, fuel - 1);
  }

  /** A `for` over a range whose start is past its end does nothing. */
  lemma EmptyRangeLoop(variable: string, l: i32, r: i32, body: seq<Ast.Expr>, env: Env, code: Code, fuel: nat)
    requires l > r && AllRunnable(body) && Ready(env, code) && fuel >= 3
    ensures Runnable(Ast.For(variable, Ast.Binary(Ast.Range, Ast.Literal(Ast.Int(l)), Ast.Literal(Ast.Int(r))), body))
    ensures Eval.Eval(Ast.For(variable, Ast.Binary(Ast.Range, Ast.Literal(Ast.Int(l)), Ast.Literal(Ast.Int(r))), body), env, code, fuel) == Done(Unit, env)
  {
    var iterable := Ast.Binary(Ast.Range, Ast.Literal(Ast.Int(l)), Ast.Literal(Ast.Int(r)));
    var e := Ast.For(variable, iterable, body);
    LiteralValue(Ast.Int(l), env, code, fuel - 2);
    LiteralValue(Ast.Int(r), env, code, fuel - 2);
    assert Eval.Eval(iterable, env, code, fuel - 1) == EvalBinary(Ast.Range, iterable.left, iterable.right, env, code, fuel - 2);
    assert Eval.Eval(iterable, env, code, fuel - 1) == Done(Range(Int(l), Int(r)), env);
    assert Items(Range(Int(l), Int(r))) == Some([]);
    var pushed := env.(scopes := Push(env.scopes));
    assert ForItems(variable, [], body, pushed, code, fuel - 1) == Done((), pushed);
    assert Eval.Eval(e, env, code, fuel) == EvalStatement(e, env, code, fuel - 1) == EvalFor(variable, iterable, body, env, code, fuel - 1);
    assert Pop(Push(env.scopes)) == env.scopes;
  }

  /** A `while` whose condition is false does nothing. */
  lemma FalseWhileLoop(body: seq<Ast.Expr>, env: Env, code: Code, fuel: nat)
    requires AllRunnable(body) && Ready(env, code) && fuel >= 2
    ensures Runnable(Ast.While(Ast.Literal(Ast.Bool(false)), body))
    ensures Eval.Eval(Ast.While(Ast.Literal(Ast.Bool(false)), body), env, code, fuel) == Done(Unit, env)
  {
    var e := Ast.While(Ast.Literal(Ast.Bool(false)), body);
    LiteralValue(Ast.Bool(false), env, code, fuel - 1);
    assert Eval.Eval(e, env, code, fuel) == EvalStatement(e, env, code, fuel - 1) == EvalWhile(e.cond, body, env, code, fuel - 1);
  }
}
