/** A `return` inside the body of an `if`, `for` or `while`. As written, the
    statements of such a block do not look at the return slot: after a
    `return` the block goes on, a loop keeps iterating, and a later
    `return` overwrites the value. Only the body loop of `call_function`
    takes the slot, once the whole statement has ended. The corrected
    evaluator (`Code.stopOnReturn`) ends the block and the loop at the
    `return`. */
module ReturnInBlock {
  import opened Wrappers
  import opened Int32
  import TypeScopes
  import opened Objects
  import opened RuntimeScopes
  import opened Eval
  import Ast

  /** As written, a block runs on after a `return`, with the slot filled. */
  lemma BlockRunsOn(rest: seq<Ast.Expr>, env: Env, code: Code, fuel: nat)
    requires !code.stopOnReturn && AllRunnable(rest) && Ready(env, code) && fuel > 0
    ensures AllRunnable([Ast.Return(None)] + rest)
    ensures EvalBlock([Ast.Return(None)] + rest, env, code, fuel) == EvalBlock(rest, env.(retItem := Some(Unit)), code, fuel)
  {
    var body := [Ast.Return(None)] + rest;
    assert body[0] == Ast.Return(None) && body[1..] == rest;
    assert Eval.Eval(body[0], env, code, fuel) == EvalStatement(body[0], env, code, fuel - 1)
      == EvalReturn(None, env, code, fuel - 1);
  }

  /** Corrected, a block ends at a `return`: the rest does not run. */
  lemma BlockStopsAtReturn(rest: seq<Ast.Expr>, env: Env, code: Code, fuel: nat)
    requires code.stopOnReturn && AllRunnable(rest) && Ready(env, code) && fuel > 0
    ensures AllRunnable([Ast.Return(None)] + rest)
    ensures EvalBlock([Ast.Return(None)] + rest, env, code, fuel) == Done((), env.(retItem := Some(Unit)))
  {
    var body := [Ast.Return(None)] + rest;
    assert body[0] == Ast.Return(None);
    assert Eval.Eval(body[0], env, code, fuel) == EvalStatement(body[0], env, code, fuel - 1)
      == EvalReturn(None, env, code, fuel - 1);
  }

  /** `1..3`. */
  function OneToThreeRange(): (e: Ast.Expr)
    ensures Runnable(e) && e.Binary? && e.op == Ast.Range
    ensures e.left == Ast.Literal(Ast.Int(1)) && e.right == Ast.Literal(Ast.Int(3))
  {
    Ast.Binary(Ast.Range, Ast.Literal(Ast.Int(1)), Ast.Literal(Ast.Int(3)))
  }

  /** `{ return i }`. */
  function ReturnI(): (body: seq<Ast.Expr>)
    ensures AllRunnable(body) && body == [Ast.Return(Some(Ast.Ident("i")))]
  {
    [Ast.Return(Some(Ast.Ident("i")))]
  }

  /** `for (i in 1..3) { return i }`. */
  function Loop(): (e: Ast.Expr)
    ensures Runnable(e) && e == Ast.For("i", OneToThreeRange(), ReturnI())
  {
    var e := Ast.For("i", OneToThreeRange(), ReturnI());
    assert Runnable(e.iterable) && AllRunnable(e.body);
    e
  }

  /** The iterable of the loop evaluates to the range object 1..3, whose
      items are 1, 2 and 3. */
  lemma RangeValue(env: Env, code: Code, fuel: nat)
    requires Ready(env, code) && fuel >= 2
    ensures Eval.Eval(OneToThreeRange(), env, code, fuel) == Done(Range(Int(1), Int(3)), env)
    ensures Items(Range(Int(1), Int(3))) == Some(RangeItems(1, 3))
  {
    var it := OneToThreeRange();
    assert Eval.Eval(it.left, env, code, fuel - 1) == Done(Int(1), env);
    assert Eval.Eval(it.right, env, code, fuel - 1) == Done(Int(3), env);
    assert Eval.Eval(it, env, code, fuel) == EvalBinary(Ast.Range, it.left, it.right, env, code, fuel - 1);
  }

  /** `fun f(): Int {`, then `for (i in 1..3) { return i }` and `return 0`
      on lines of their own, then `}`; it is meant to return 1. */
  function F(name: string): (f: Ast.Fun)
    ensures AllRunnable(f.body) && f.args == [] && f.name == name
    ensures f.body == FBody()
  {
    Ast.Fun(name, [], Some(Ast.Simple("Int")), FBody())
  }

  function FBody(): (body: seq<Ast.Expr>)
    ensures AllRunnable(body) && |body| == 2 && body[0] == Loop()
  {
    [Loop(), Ast.Return(Some(Ast.Literal(Ast.Int(0))))]
  }

  function CodeOf(stopOnReturn: bool): (code: Code)
    ensures CodeRunnable(code) && "f" in code.functions && code.stopOnReturn == stopOnReturn
  {
    Code(map["f" := F("f")], stopOnReturn)
  }

  /** One run of the loop body binds `i` to `k` and fills the slot with it. */
  lemma OneIteration(k: i32, env: Env, code: Code, fuel: nat)
    requires Ready(env, code) && fuel >= 2
    ensures AllRunnable(Loop().body)
    ensures EvalBlock(Loop().body, env.(scopes := Var(env.scopes, "i", Int(k))), code, fuel)
      == Done((), env.(scopes := Var(env.scopes, "i", Int(k)), retItem := Some(Int(k))))
  {
    var e1 := env.(scopes := Var(env.scopes, "i", Int(k)));
    var ret := Ast.Return(Some(Ast.Ident("i")));
    VarThenGet(env.scopes, "i", Int(k), "i");
    assert Eval.Eval(Ast.Ident("i"), e1, code, fuel - 1) == Done(Int(k), e1);
    assert Eval.Eval(ret, e1, code, fuel) == EvalStatement(ret, e1, code, fuel - 1)
      == EvalReturn(ret.result, e1, code, fuel - 1) == Done(Unit, e1.(retItem := Some(Int(k))));
    assert Loop().body == [ret] && Loop().body[1..] == [];
  }

  /** The items of `1..3`. */
  lemma OneToThree()
    ensures RangeItems(1, 3) == [Int(1), Int(2), Int(3)]
  {
  }

  /** As written, the loop runs all three times and the slot ends up
      holding 3. */
  lemma {:induction false} LoopRunsOn(env: Env, code: Code, fuel: nat) returns (after: Env)
    requires !code.stopOnReturn && Ready(env, code) && fuel >= 2
    ensures AllRunnable(Loop().body)
    ensures ForItems("i", RangeItems(1, 3), Loop().body, env, code, fuel) == Done((), after)
    ensures Pop(after.scopes) == Pop(env.scopes) && after.retItem == Some(Int(3)) && after.output == env.output
  {
    OneToThree();
    var items := RangeItems(1, 3);
    var body := Loop().body;
    OneIteration(1, env, code, fuel);
    var e1 := env.(scopes := Var(env.scopes, "i", Int(1)), retItem := Some(Int(1)));
    OneIteration(2, e1, code, fuel);
    var e2 := e1.(scopes := Var(e1.scopes, "i", Int(2)), retItem := Some(Int(2)));
    OneIteration(3, e2, code, fuel);
    var e3 := e2.(scopes := Var(e2.scopes, "i", Int(3)), retItem := Some(Int(3)));
    assert items[1..] == [Int(2), Int(3)] && items[1..][1..] == [Int(3)] && items[1..][1..][1..] == [];
    assert ForItems("i", items[1..][1..][1..], body, e3, code, fuel) == Done((), e3);
    assert ForItems("i", items[1..][1..], body, e2, code, fuel) == Done((), e3);
    assert ForItems("i", items[1..], body, e1, code, fuel) == Done((), e3);
    assert ForItems("i", items, body, env, code, fuel) == Done((), e3);
    after := e3;
  }

  /** Corrected, the loop stops after its first run, with 1 in the slot. */
  lemma LoopStops(env: Env, code: Code, fuel: nat) returns (after: Env)
    requires code.stopOnReturn && Ready(env, code) && fuel >= 2
    ensures AllRunnable(Loop().body)
    ensures ForItems("i", RangeItems(1, 3), Loop().body, env, code, fuel) == Done((), after)
    ensures Pop(after.scopes) == Pop(env.scopes) && after.retItem == Some(Int(1)) && after.output == env.output
  {
    OneToThree();
    OneIteration(1, env, code, fuel);
    after := env.(scopes := Var(env.scopes, "i", Int(1)), retItem := Some(Int(1)));
  }

  /** A `for` statement whose iterable gives `items` without changing
      anything is its loop over them in a pushed scope, then a pop. */
  lemma ForStatement(variable: string, iterable: Ast.Expr, body: seq<Ast.Expr>, items: seq<Object>, it: Object, env: Env, code: Code, fuel: nat, after: Env)
    requires Runnable(iterable) && AllRunnable(body) && Ready(env, code) && fuel >= 1
    requires Eval.Eval(iterable, env, code, fuel - 1) == Done(it, env) && Items(it) == Some(items)
    requires ForItems(variable, items, body, env.(scopes := Push(env.scopes)), code, fuel - 1) == Done((), after)
    ensures Runnable(Ast.For(variable, iterable, body))
    ensures Eval.Eval(Ast.For(variable, iterable, body), env, code, fuel) == Done(Unit, after.(scopes := Pop(after.scopes)))
  {
    var loop := Ast.For(variable, iterable, body);
    assert Eval.Eval(loop, env, code, fuel) == EvalStatement(loop, env, code, fuel - 1)
      == EvalFor(variable, iterable, body, env, code, fuel - 1);
  }

  /** The whole `for` statement leaves the stack as it was, with the last
      value written by `return` in the slot: 3 as written, 1 corrected. */
  lemma LoopStatement(env: Env, code: Code, fuel: nat)
    requires Ready(env, code) && fuel >= 3
    ensures Eval.Eval(Loop(), env, code, fuel)
      == Done(Unit, env.(retItem := Some(Int(if code.stopOnReturn then 1 else 3))))
  {
    var pushed := env.(scopes := Push(env.scopes));
    var after := LoopAfter(pushed, code, fuel - 1);
    LoopThenPop(env, code, fuel, after);
    assert Pop(pushed.scopes) == env.scopes;
  }

  /** The `for` statement is the loop in a pushed scope, then a pop. */
  lemma LoopThenPop(env: Env, code: Code, fuel: nat, after: Env)
    requires Ready(env, code) && fuel >= 3
    requires AllRunnable(ReturnI())
    requires ForItems("i", RangeItems(1, 3), ReturnI(), env.(scopes := Push(env.scopes)), code, fuel - 1) == Done((), after)
    ensures Eval.Eval(Ast.For("i", OneToThreeRange(), ReturnI()), env, code, fuel) == Done(Unit, after.(scopes := Pop(after.scopes)))
  {
    RangeValue(env, code, fuel - 1);
    ForStatement("i", OneToThreeRange(), ReturnI(), RangeItems(1, 3), Range(Int(1), Int(3)), env, code, fuel, after);
  }

  /** The loop over 1..3, either way. */
  lemma LoopAfter(env: Env, code: Code, fuel: nat) returns (after: Env)
    requires Ready(env, code) && fuel >= 2
    ensures AllRunnable(ReturnI())
    ensures ForItems("i", RangeItems(1, 3), ReturnI(), env, code, fuel) == Done((), after)
    ensures Pop(after.scopes) == Pop(env.scopes) && after.output == env.output
    ensures after.retItem == Some(Int(if code.stopOnReturn then 1 else 3))
  {
    if code.stopOnReturn {
      after := LoopStops(env, code, fuel);
    } else {
      after := LoopRunsOn(env, code, fuel);
    }
  }

  /** The finding: called with any stack, `f` returns 3 as written, and
      the intended 1 once blocks stop at `return`. */
  lemma ReturnValueOfF(env: Env, fuel: nat)
    requires fuel >= 3
    ensures CallFunction("f", [], env, CodeOf(false), fuel) == Done(Int(3), env.(retItem := None))
    ensures CallFunction("f", [], env, CodeOf(true), fuel) == Done(Int(1), env.(retItem := None))
  {
    FCall("f", env, CodeOf(false), fuel);
    FCall("f", env, CodeOf(true), fuel);
  }

  /** `f`, under any name and in any table, returns 3 as written and 1
      corrected. */
  lemma FCall(name: string, env: Env, code: Code, fuel: nat)
    requires CodeRunnable(code) && !IsBuiltin(name) && name in code.functions && code.functions[name] == F(name)
    requires fuel >= 3
    ensures CallFunction(name, [], env, code, fuel) == Done(Int(if code.stopOnReturn then 1 else 3), env.(retItem := None))
  {
    var f := F(name);
    var frame := ParamScope(seq(|f.args|, i requires 0 <= i < |f.args| => f.args[i].0), []);
    assert frame == map[];
    var env0 := env.(scopes := env.scopes + [frame]);
    var k := Int(if code.stopOnReturn then 1 else 3);
    LoopStatement(env0, code, fuel);
    assert f.body[0] == Loop();
    assert RunBody(f.body, env0, code, fuel) == Done(k, env0.(retItem := None));
    assert Pop(env0.scopes) == env.scopes;
  }
}
