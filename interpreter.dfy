/** The interpreter's `Context` (`src/interpreter/mod.rs`): the function
    table, the stack of scopes, the return slot and, here, the text printed
    so far, as fields that its methods update. Each method is proved to
    compute the function of `RuntimeScopes` or `Eval` that states it. The
    context runs programs as written, where a `return` inside a block does
    not end the block; `RunCorrected` runs them with the corrected
    treatment (`ReturnInBlock`). */
module Interpreter {
  import opened Wrappers
  import TypeScopes
  import opened Objects
  import RuntimeScopes
  import opened Eval
  import Ast
  import ReturnInBlock

  /** The code a program runs with: its function table, the last definition
      of a name winning, and blocks that run on after `return`. */
  function CodeOf(prog: Ast.Program): (code: Code)
    ensures !code.stopOnReturn
    ensures forall name | name in code.functions :: exists i | 0 <= i < |prog.functions| :: prog.functions[i].name == name
  {
    var code := Code(RuntimeScopes.Table(prog.functions), false);
    forall name | name in code.functions
      ensures exists i | 0 <= i < |prog.functions| :: prog.functions[i].name == name
    {
      RuntimeScopes.TableLastWins(prog.functions, name);
    }
    code
  }

  /** The same table, with blocks that stop at `return`. */
  function CorrectedCodeOf(prog: Ast.Program): (code: Code)
    ensures code.stopOnReturn && code.functions == CodeOf(prog).functions
  {
    CodeOf(prog).(stopOnReturn := true)
  }

  /** What `run` does on a fresh context: `main` called with no arguments
      and no scope. */
  function Run(prog: Ast.Program, fuel: nat): (r: Outcome<Object>)
    requires CodeRunnable(CodeOf(prog))
  {
    CallFunction("main", [], Env([], None, ""), CodeOf(prog), fuel)
  }

  /** `run` with the corrected treatment of `return`. */
  function RunCorrected(prog: Ast.Program, fuel: nat): (r: Outcome<Object>)
    requires CodeRunnable(CodeOf(prog))
  {
    CallFunction("main", [], Env([], None, ""), CorrectedCodeOf(prog), fuel)
  }

  /** The program whose `main` is `fun main(): Int`, then
      `for (i in 1..3) { return i }` and `return 0` on lines of their own:
      run as written it returns 3, corrected it returns 1. */
  lemma RunReturnInLoop(fuel: nat)
    requires fuel >= 3
    ensures var prog := Ast.Program([ReturnInBlock.F("main")]);
      CodeRunnable(CodeOf(prog))
      && Run(prog, fuel) == Done(Int(3), Env([], None, ""))
      && RunCorrected(prog, fuel) == Done(Int(1), Env([], None, ""))
  {
    var prog := Ast.Program([ReturnInBlock.F("main")]);
    RuntimeScopes.TableLastWins(prog.functions, "main");
    assert CodeOf(prog).functions == map["main" := ReturnInBlock.F("main")] by {
      forall name | name in CodeOf(prog).functions
        ensures name == "main"
      {
        RuntimeScopes.TableLastWins(prog.functions, name);
      }
    }
    ReturnInBlock.FCall("main", Env([], None, ""), CodeOf(prog), fuel);
    ReturnInBlock.FCall("main", Env([], None, ""), CorrectedCodeOf(prog), fuel);
  }

  /** A program without `main` panics at once, printing nothing. */
  lemma RunWithoutMain(prog: Ast.Program, fuel: nat)
    requires CodeRunnable(CodeOf(prog))
    requires forall i | 0 <= i < |prog.functions| :: prog.functions[i].name != "main"
    ensures Run(prog, fuel) == Halted(Panic("not implemented: function main doesn't exist"), "")
  {
    RuntimeScopes.TableLastWins(prog.functions, "main");
    assert "main" !in CodeOf(prog).functions;
    assert !IsBuiltin("main");
    assert "not implemented: function " + "main" + " doesn't exist" == "not implemented: function main doesn't exist";
  }

  /** `main` is the last function of that name in the program. */
  lemma RunCallsLastMain(prog: Ast.Program, i: nat)
    requires i < |prog.functions| && prog.functions[i].name == "main"
    requires forall j | i < j < |prog.functions| :: prog.functions[j].name != "main"
    ensures "main" in CodeOf(prog).functions && CodeOf(prog).functions["main"] == prog.functions[i]
  {
    RuntimeScopes.TableLastWins(prog.functions, "main");
  }

  class Context {
    const code: Code
    var scopes: RuntimeScopes.Scopes
    var retItem: Option<Object>
    var output: string

    /** The state as the evaluator sees it. */
    function State(): Env
      reads this
    {
      Env(scopes, retItem, output)
    }

    /** `Context::new`: the program's function table, no scope, an empty
        return slot. */
    constructor(prog: Ast.Program)
      ensures code == CodeOf(prog) && scopes == [] && retItem == None && output == ""
    {
      code := CodeOf(prog);
      scopes := [];
      retItem := None;
      output := "";
    }

    /** `get`: the scopes from the innermost out; `None` where the program
        reaches `unreachable!`. */
    method Get(name: string) returns (r: Option<Object>)
      ensures r == TypeScopes.FindVar(scopes, name)
    {
      var i := |scopes|;
      assert scopes[..i] == scopes;
      while i > 0
        invariant 0 <= i <= |scopes|
        invariant TypeScopes.FindVar(scopes[..i], name) == TypeScopes.FindVar(scopes, name)
      {
        assert scopes[..i][i - 1] == scopes[i - 1];
        if name in scopes[i - 1] {
          return Some(scopes[i - 1][name]);
        }
        assert scopes[..i][..i - 1] == scopes[..i - 1];
        i := i - 1;
      }
      return None;
    }

    /** `var`: binds in the innermost scope, which the program expects to
        exist. */
    method Var(name: string, obj: Object)
      requires |scopes| > 0
      modifies this
      ensures scopes == RuntimeScopes.Var(old(scopes), name, obj)
      ensures retItem == old(retItem) && output == old(output)
    {
      var n := |scopes| - 1;
      scopes := scopes[n := scopes[n][name := obj]];
      assert scopes == old(scopes)[..n] + [old(scopes)[n][name := obj]];
    }

    /** `set`: the scopes from the innermost out, rebinding the name in the
        first that binds it; `false` where the program reaches
        `unreachable!`, and then nothing changes. */
    method Set(name: string, obj: Object) returns (ok: bool)
      modifies this
      ensures ok <==> RuntimeScopes.Set(old(scopes), name, obj).Some?
      ensures scopes == if ok then RuntimeScopes.Set(old(scopes), name, obj).value else old(scopes)
      ensures retItem == old(retItem) && output == old(output)
    {
      var i := |scopes|;
      while i > 0
        invariant 0 <= i <= |scopes| && scopes == old(scopes)
        invariant forall j | i <= j < |scopes| :: name !in scopes[j]
      {
        if name in scopes[i - 1] {
          var innermost := TypeScopes.FindVarInnermost(scopes, name);
          var k := RuntimeScopes.SetChangesOneScope(scopes, name, obj);
          assert k == i - 1;
          scopes := scopes[i - 1 := scopes[i - 1][name := obj]];
          return true;
        }
        i := i - 1;
      }
      var none := TypeScopes.FindVarInnermost(scopes, name);
      return false;
    }

    /** `push`. */
    method Push()
      modifies this
      ensures scopes == RuntimeScopes.Push(old(scopes))
      ensures retItem == old(retItem) && output == old(output)
    {
      scopes := scopes + [map[]];
    }

    /** `pop`. */
    method Pop()
      modifies this
      ensures scopes == RuntimeScopes.Pop(old(scopes))
      ensures retItem == old(retItem) && output == old(output)
    {
      if |scopes| > 0 {
        scopes := scopes[..|scopes| - 1];
      }
    }

    /** `call_function`: a built-in first; otherwise the function's scope
        of parameters is pushed, its statements run one by one, and after
        each the return slot is taken; if it held a value, the scope is
        popped and that value returned. When the evaluation halts, the text
        printed until then is kept. */
    method CallFunction(name: string, args: seq<Object>, fuel: nat) returns (r: Outcome<Object>)
      requires CodeRunnable(code)
      modifies this
      ensures r == Eval.CallFunction(name, args, old(State()), code, fuel)
      ensures r.Done? ==> State() == r.env
      ensures r.Halted? ==> output == r.output
    {
      if IsBuiltin(name) {
        r := CallBuiltin(name, args, State());
        output := r.Output();
        return;
      }
      if name !in code.functions {
        r := Halted(Panic("not implemented: function " + name + " doesn't exist"), output);
        return;
      }
      var f := code.functions[name];
      if |f.args| != |args| {
        r := Halted(Panic(ARITY), output);
        return;
      }
      var names := seq(|f.args|, i requires 0 <= i < |f.args| => f.args[i].0);
      ghost var start := State().(scopes := scopes + [RuntimeScopes.ParamScope(names, args)]);
      scopes := scopes + [RuntimeScopes.ParamScope(names, args)];
      var body := f.body;
      assert AllRunnable(body);
      var i := 0;
      while i < |body|
        invariant 0 <= i <= |body| && |scopes| > 0
        invariant AllRunnable(body[i..])
        invariant RunBody(body[i..], State(), code, fuel) == RunBody(body, start, code, fuel)
      {
        AllRunnableTail(body[i..]);
        assert body[i..][0] == body[i] && body[i..][1..] == body[i + 1..];
        var step := Eval.Eval(body[i], State(), code, fuel);
        if step.Halted? {
          output := step.output;
          return step;
        }
        scopes, retItem, output := step.env.scopes, step.env.retItem, step.env.output;
        if retItem.Some? {
          var obj := retItem.value;
          retItem := None;
          Pop();
          return Done(obj, State());
        }
        i := i + 1;
      }
      Pop();
      r := Done(Unit, State());
    }

    /** `run`: `main` with no arguments. */
    method Run(fuel: nat) returns (r: Outcome<Object>)
      requires CodeRunnable(code)
      modifies this
      ensures r == Eval.CallFunction("main", [], old(State()), code, fuel)
      ensures r.Done? ==> State() == r.env
      ensures r.Halted? ==> output == r.output
    {
      r := CallFunction("main", [], fuel);
    }
  }

  /** A fresh context runs a program as `Run` states. */
  method Interpret(prog: Ast.Program, fuel: nat) returns (r: Outcome<Object>)
    requires CodeRunnable(CodeOf(prog))
    ensures r == Run(prog, fuel)
  {
    var context := new Context(prog);
    r := context.Run(fuel);
  }
}
