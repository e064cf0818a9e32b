/** The checker's driver (`src/analyzer/mod.rs`): a `Context` that
    collects the function table, then checks every function body with the
    oldest revision of the rules (`TypesOld`), each in a fresh scope. The
    program stops at the first statement that fails; here that is the
    result `false`. */
module Analyzer {
  import opened Wrappers
  import opened CheckerTypes
  import opened TypeScopes
  import TypesOld
  import Ast
  import Lexer

  /** The signature `check_program` registers for `println` before any
      function of the program. */
  const PrintlnType := FunType([STRING], Unit)

  /** `get_functions` as a function: each function of the program is added
      under its name unless the table already has that name. */
  function Register(functions: TypesOld.Functions, funs: seq<Ast.Fun>): (r: TypesOld.Functions)
    ensures functions.Keys <= r.Keys
    decreases |funs|
  {
    if |funs| == 0 then functions
    else
      var f := funs[0];
      Register(if f.name in functions then functions else functions[f.name := FunTypeOf(f)], funs[1..])
  }

  /** Whether `funs[i]` is the first function of that name. */
  predicate FirstOfName(funs: seq<Ast.Fun>, i: nat)
    requires i < |funs|
  {
    forall j | 0 <= j < i :: funs[j].name != funs[i].name
  }

  /** The first definition wins: a name is in the table when it was there
      before or some function has it; a name that was there keeps its
      type, and a new name gets the type of its first definition. */
  lemma {:induction false} RegisterFirstWins(functions: TypesOld.Functions, funs: seq<Ast.Fun>, name: string)
    ensures name in Register(functions, funs) <==> name in functions || exists i | 0 <= i < |funs| :: funs[i].name == name
    ensures name in functions ==> Register(functions, funs)[name] == functions[name]
    ensures forall i | 0 <= i < |funs| && funs[i].name == name && name !in functions && FirstOfName(funs, i) ::
      Register(functions, funs)[name] == FunTypeOf(funs[i])
    decreases |funs|
  {
    if |funs| > 0 {
      var f := funs[0];
      var next := if f.name in functions then functions else functions[f.name := FunTypeOf(f)];
      var rest := funs[1..];
      RegisterFirstWins(next, rest, name);
      assert forall i | 1 <= i < |funs| :: funs[i] == rest[i - 1];
      if name !in functions && f.name != name {
        forall i | 0 <= i < |funs| && funs[i].name == name && FirstOfName(funs, i)
          ensures Register(functions, funs)[name] == FunTypeOf(funs[i])
        {
          assert i > 0;
          assert FirstOfName(rest, i - 1) by {
            forall j | 0 <= j < i - 1 ensures rest[j].name != rest[i - 1].name {
              assert funs[j + 1].name != funs[i].name;
            }
          }
        }
      }
    }
  }

  /** The built-in `println` cannot be redefined: a function of that name
      in the program is a duplicate, and the table keeps the built-in
      signature. */
  lemma PrintlnBuiltin(funs: seq<Ast.Fun>)
    ensures "println" in Register(map["println" := PrintlnType], funs)
    ensures Register(map["println" := PrintlnType], funs)["println"] == PrintlnType
  {
    RegisterFirstWins(map["println" := PrintlnType], funs, "println");
  }

  /** The bodies of a program this revision of the rules can check. */
  predicate AllHandled(prog: Ast.Program) {
    forall f | f in prog.functions :: forall e | e in f.body :: TypesOld.Handled(e)
  }

  /** The loop over a body: every statement in turn, from the given
      scopes, stopping at the first that has no type. Only the innermost
      scope is written. */
  function CheckBody(body: seq<Ast.Expr>, scopes: Scopes, functions: TypesOld.Functions): (r: (bool, Scopes))
    requires forall e | e in body :: TypesOld.Handled(e)
    requires |scopes| > 0
    ensures |r.1| == |scopes| && r.1[..|scopes| - 1] == scopes[..|scopes| - 1]
    decreases |body|
  {
    if |body| == 0 then (true, scopes)
    else
      var (ty, s1) := TypesOld.Validate(body[0], scopes, functions);
      if ty.None? then (false, s1)
      else
        assert forall e | e in body[1..] :: e in body;
        CheckBody(body[1..], s1, functions)
  }

  /** A function checks when its body checks in a fresh scope above the
      given stack. */
  predicate FunctionOk(f: Ast.Fun, scopes: Scopes, functions: TypesOld.Functions)
    requires forall e | e in f.body :: TypesOld.Handled(e)
  {
    CheckBody(f.body, PushScope(scopes), functions).0
  }

  /** `check_program`'s verdict: with `println` registered and then every
      function of the program, each function checks from an empty stack. */
  predicate ProgramOk(prog: Ast.Program)
    requires AllHandled(prog)
  {
    var functions := Register(map["println" := PrintlnType], prog.functions);
    forall f | f in prog.functions :: FunctionOk(f, [], functions)
  }

  /** The program of `samples/hello.kt`: `main` prints a greeting, with the
      name `println` written at the given span. */
  function HelloProgram(span: Lexer.Span): Ast.Program {
    Ast.Program([Ast.Fun("main", [], None,
      [Ast.Call(Ast.SpannedIdent(span, "println"), [Ast.Literal(Ast.String("Hello, World!"))])])])
  }

  /** The hello-world program checks: its one statement calls the built-in
      `println`, which has a type. */
  lemma HelloAccepted(span: Lexer.Span)
    ensures AllHandled(HelloProgram(span)) && ProgramOk(HelloProgram(span))
  {
    var prog := HelloProgram(span);
    var f := prog.functions[0];
    var call := f.body[0];
    var functions := Register(map["println" := PrintlnType], prog.functions);
    PrintlnBuiltin(prog.functions);
    TypesOld.CallByName(call.name, call.args, [map[]], functions);
    assert f.body[1..] == [];
    var empty: Scopes := [];
    assert PushScope(empty) == [map[]];
    assert FunctionOk(f, [], functions);
    assert forall g | g in prog.functions :: g == f;
  }

  /** The return type a function is checked against. */
  function RetTypeOf(f: Ast.Fun): (r: ExprType)
    ensures f.retType.None? ==> r == Unit
    ensures f.retType.Some? ==> r == FromType(f.retType.value)
  {
    if f.retType.Some? then FromType(f.retType.value) else Unit
  }

  /** The checker's `Context`. */
  class Context {
    var currentRetType: Option<ExprType>
    var functions: TypesOld.Functions
    var scopes: Scopes
    var errors: seq<string>

    /** `Context::default()`. */
    constructor()
      ensures currentRetType == None && functions == map[] && scopes == [] && errors == []
    {
      currentRetType := None;
      functions := map[];
      scopes := [];
      errors := [];
    }

    /** `get_functions`: the loop over the program's functions. */
    method GetFunctions(prog: Ast.Program)
      modifies this
      ensures functions == Register(old(functions), prog.functions)
      ensures scopes == old(scopes) && currentRetType == old(currentRetType) && errors == old(errors)
    {
      var funs := prog.functions;
      var i := 0;
      while i < |funs|
        invariant 0 <= i <= |funs|
        invariant Register(functions, funs[i..]) == Register(old(functions), funs)
        invariant scopes == old(scopes) && currentRetType == old(currentRetType) && errors == old(errors)
      {
        var f := funs[i];
        assert funs[i..][1..] == funs[i + 1..];
        if f.name !in functions {
          functions := functions[f.name := FunTypeOf(f)];
        }
        i := i + 1;
      }
    }

    /** `validate_functions`: each function in a fresh scope, with its
        return type current. The result is `false` where the program
        stops on a statement that fails. */
    method ValidateFunctions(prog: Ast.Program) returns (ok: bool)
      requires AllHandled(prog)
      modifies this
      ensures functions == old(functions) && errors == old(errors)
      ensures ok <==> forall f | f in prog.functions :: FunctionOk(f, old(scopes), functions)
      ensures ok ==> scopes == old(scopes)
      ensures ok && |prog.functions| > 0 ==> currentRetType == Some(RetTypeOf(prog.functions[|prog.functions| - 1]))
    {
      var funs := prog.functions;
      var i := 0;
      while i < |funs|
        invariant 0 <= i <= |funs|
        invariant functions == old(functions) && errors == old(errors) && scopes == old(scopes)
        invariant forall k | 0 <= k < i :: FunctionOk(funs[k], old(scopes), functions)
        invariant i > 0 ==> currentRetType == Some(RetTypeOf(funs[i - 1]))
      {
        var f := funs[i];
        assert f in prog.functions;
        currentRetType := Some(RetTypeOf(f));
        PushScope();
        ghost var pushed := scopes;
        var bodyOk := CheckStatements(f.body);
        if !bodyOk {
          return false;
        }
        assert scopes[..|scopes| - 1] == pushed[..|pushed| - 1];
        PopScope();
        i := i + 1;
      }
      ok := true;
    }

    /** The loop over one body in `validate_functions`: each statement in
        turn, stopping at the first that has no type. */
    method CheckStatements(body: seq<Ast.Expr>) returns (ok: bool)
      requires forall e | e in body :: TypesOld.Handled(e)
      requires |scopes| > 0
      modifies this
      ensures (ok, scopes) == CheckBody(body, old(scopes), functions)
      ensures functions == old(functions) && currentRetType == old(currentRetType) && errors == old(errors)
    {
      var j := 0;
      while j < |body|
        invariant 0 <= j <= |body| && |scopes| > 0
        invariant functions == old(functions) && currentRetType == old(currentRetType) && errors == old(errors)
        invariant CheckBody(body[j..], scopes, functions) == CheckBody(body, old(scopes), functions)
      {
        assert body[j..][1..] == body[j + 1..];
        assert body[j] in body;
        var (ty, s) := TypesOld.Validate(body[j], scopes, functions);
        scopes := s;
        if ty.None? {
          return false;
        }
        j := j + 1;
      }
      return true;
    }

    /** `find_fun_type`: the signature registered under the name. */
    function FindFunType(ident: string): (r: Option<FunType>)
      reads this
      ensures r.Some? <==> ident in functions
      ensures r.Some? ==> r.value == functions[ident]
    {
      if ident in functions then Some(functions[ident]) else None
    }

    /** `find_var_type`: the scopes from the innermost out, stopping at the
        first that binds the name. */
    method FindVarType(ident: string) returns (r: Option<ExprType>)
      ensures r == FindVar(scopes, ident)
    {
      var i := |scopes|;
      assert scopes[..i] == scopes;
      while i > 0
        invariant 0 <= i <= |scopes|
        invariant FindVar(scopes[..i], ident) == FindVar(scopes, ident)
      {
        assert scopes[..i][i - 1] == scopes[i - 1];
        if ident in scopes[i - 1] {
          return Some(scopes[i - 1][ident]);
        }
        assert scopes[..i][..i - 1] == scopes[..i - 1];
        i := i - 1;
      }
      return None;
    }

    /** `add_var_type`; the program expects a scope to exist. A name the
        innermost scope already binds is left as it is. */
    method AddVarType(ident: string, ty: ExprType)
      requires |scopes| > 0
      modifies this
      ensures scopes == AddVar(old(scopes), ident, ty)
      ensures functions == old(functions) && currentRetType == old(currentRetType) && errors == old(errors)
    {
      var last := scopes[|scopes| - 1];
      if ident !in last {
        scopes := scopes[..|scopes| - 1] + [last[ident := ty]];
      }
    }

    /** `push_scope`. */
    method PushScope()
      modifies this
      ensures scopes == TypeScopes.PushScope(old(scopes))
      ensures functions == old(functions) && currentRetType == old(currentRetType) && errors == old(errors)
    {
      scopes := scopes + [map[]];
    }

    /** `pop_scope`: nothing happens on an empty stack. */
    method PopScope()
      modifies this
      ensures scopes == TypeScopes.PopScope(old(scopes))
      ensures functions == old(functions) && currentRetType == old(currentRetType) && errors == old(errors)
    {
      if |scopes| > 0 {
        scopes := scopes[..|scopes| - 1];
      }
    }
  }

  /** `check_program`: a fresh context, `println` registered, then the
      program's functions, then every body checked. */
  method CheckProgram(prog: Ast.Program) returns (ok: bool)
    requires AllHandled(prog)
    ensures ok <==> ProgramOk(prog)
  {
    var context := new Context();
    context.functions := context.functions["println" := PrintlnType];
    context.GetFunctions(prog);
    ok := context.ValidateFunctions(prog);
  }
}
