/** The interpreter's evaluation (`src/interpreter/eval/...` and the calls
    of `src/interpreter/mod.rs`) as functions from an expression and the
    interpreter's state to an outcome: a value and the new state, or a
    halt. `exception` ("Index out of range"), which prints and ends the
    run, is the halt `Exception`; every `unreachable!`, `unwrap` on
    nothing, failed `assert_eq!`, `unimplemented!` and division by zero is
    the halt `Panic`. Recursion is bounded by a fuel argument: each step
    into a sub-expression that is not a `Spanned` or `Parens` wrapper, and
    each iteration of a `while` loop, costs one unit. The text the
    built-ins print is collected in the state. */
module Eval {
  import opened Wrappers
  import opened Int32
  import TypeScopes
  import opened Objects
  import opened RuntimeScopes
  import Ast

  /** The interpreter's mutable state: the scopes, the pending-return slot
      `ret_item`, and everything printed so far. */
  datatype Env = Env(scopes: Scopes, retItem: Option<Object>, output: string)

  datatype Halt = Exception(message: string) | Panic(message: string) | NoFuel

  datatype Outcome<+T> = Done(value: T, env: Env) | Halted(halt: Halt, output: string) {
    /** What has been printed when the evaluation ends. */
    function Output(): string {
      if Done? then env.output else output
    }
  }

  /** The function table, and whether blocks stop at a `return` (`false`
      is the program as written; see `ReturnInBlock`). */
  datatype Code = Code(functions: map<string, Ast.Fun>, stopOnReturn: bool)

  const INDEX_OUT_OF_RANGE := "Index out of range"
  const UNREACHABLE := "internal error: entered unreachable code"
  const DIVIDE_BY_ZERO := "attempt to divide by zero"
  const ARITY := "assertion `left == right` failed"

  /** The trees the evaluator has cases for: no boolean negation and no
      `&&` or `||`, anywhere. */
  predicate Runnable(e: Ast.Expr) {
    match e
    case If(c, b, eb) => Runnable(c) && (forall i | 0 <= i < |b| :: Runnable(b[i])) && (forall i | 0 <= i < |eb| :: Runnable(eb[i]))
    case For(_, it, b) => Runnable(it) && forall i | 0 <= i < |b| :: Runnable(b[i])
    case While(c, b) => Runnable(c) && forall i | 0 <= i < |b| :: Runnable(b[i])
    case Return(v) => v.Some? ==> Runnable(v.value)
    case Binding(_, _, v) => Runnable(v)
    case Set(_, v) => Runnable(v)
    case Call(_, args) => forall i | 0 <= i < |args| :: Runnable(args[i])
    case SetByIndex(_, i, v) => Runnable(i) && Runnable(v)
    case Neg(x) => Runnable(x)
    case BoolNeg(_) => false
    case Binary(op, l, r) => op !in {Ast.And, Ast.Or} && Runnable(l) && Runnable(r)
    case Parens(x) => Runnable(x)
    case Ident(_) => true
    case GetByIndex(_, i) => Runnable(i)
    case Literal(_) => true
    case Spanned(_, x) => Runnable(x)
  }

  predicate AllRunnable(es: seq<Ast.Expr>) {
    forall i | 0 <= i < |es| :: Runnable(es[i])
  }

  lemma AllRunnableTail(es: seq<Ast.Expr>)
    requires |es| > 0 && AllRunnable(es)
    ensures Runnable(es[0]) && AllRunnable(es[1..])
  {
    forall i | 0 <= i < |es| - 1 ensures Runnable(es[1..][i]) {
      assert es[1..][i] == es[i + 1];
    }
  }

  predicate CodeRunnable(code: Code) {
    forall name | name in code.functions :: AllRunnable(code.functions[name].body)
  }

  /** `after` is `before` with text appended. */
  predicate Extends(before: string, after: string) {
    |before| <= |after| && after[..|before|] == before
  }

  /** What every evaluation keeps: when it finishes, the stack is as high
      as before; whatever happens, the output is only appended to. */
  predicate Keeps<T>(env: Env, r: Outcome<T>) {
    (r.Done? ==> |r.env.scopes| == |env.scopes|) && Extends(env.output, r.Output())
  }

  predicate Ready(env: Env, code: Code) {
    |env.scopes| > 0 && CodeRunnable(code)
  }

  /** A literal's object. */
  function LiteralObject(l: Ast.Literal): (o: Object)
    ensures Printable(o)
  {
    match l
    case Int(n) => Int(n)
    case Bool(b) => Boolean(b)
    case Char(c) => Char(c)
    case String(s) => String(s)
  }

  /** The binary operators on evaluated operands (`&&` and `||` have no
      case): wrapping `i32` arithmetic, string concatenation with the other
      operand's text, orderings, and ranges. The error is a panic. */
  function Apply(op: Ast.BinaryOp, l: Object, r: Object): (res: Result<Object, string>)
    requires op !in {Ast.And, Ast.Or}
  {
    match op
    case Range => Ok(Range(l, r))
    case Add =>
      if l.Int? && r.Int? then Ok(Int(WrappingAdd(l.value, r.value)))
      else if l.String? then (if Printable(r) then Ok(String(l.text + ToString(r))) else Err(UNREACHABLE))
      else if r.String? then (if Printable(l) then Ok(String(ToString(l) + r.text)) else Err(UNREACHABLE))
      else Err(UNREACHABLE)
    case Sub => if l.Int? && r.Int? then Ok(Int(WrappingSub(l.value, r.value))) else Err(UNREACHABLE)
    case Mul => if l.Int? && r.Int? then Ok(Int(WrappingMul(l.value, r.value))) else Err(UNREACHABLE)
    case Div =>
      if !l.Int? || !r.Int? then Err(UNREACHABLE)
      else if r.value == 0 then Err(DIVIDE_BY_ZERO)
      else Ok(Int(WrappingDiv(l.value, r.value)))
    case LessThan => if Compare(l, r).Some? then Ok(Boolean(Compare(l, r).value == Less)) else Err(UNREACHABLE)
    case MoreThan => if Compare(l, r).Some? then Ok(Boolean(Compare(l, r).value == Greater)) else Err(UNREACHABLE)
  }

  /** The objects a `for` loop visits: the characters of a string, the
      elements of an array, the integers of a range of integers. */
  function Items(o: Object): (r: Option<seq<Object>>)
    ensures r.Some? <==> o.String? || o.Array? || (o.Range? && o.lo.Int? && o.hi.Int?)
  {
    match o
    case String(s) => Some(Chars(s))
    case Array(items) => Some(items)
    case Range(Int(l), Int(r)) => Some(RangeItems(l, r))
    case _ => None
  }

  /** The text `print` writes for its arguments: all of it when every
      argument has a text, otherwise the text of those before the first
      that has none (after which the program panics). */
  function PrintText(args: seq<Object>): (r: Result<string, string>)
  {
    if |args| == 0 then Ok("")
    else if !Printable(args[0]) then Err("")
    else
      match PrintText(args[1..])
      case Ok(t) => Ok(ToString(args[0]) + t)
      case Err(t) => Err(ToString(args[0]) + t)
  }

  /** `call_predefined_function`: `println`, `print` and `arrayOf`. */
  predicate IsBuiltin(name: string) {
    name == "println" || name == "print" || name == "arrayOf"
  }

  function CallBuiltin(name: string, args: seq<Object>, env: Env): (r: Outcome<Object>)
    requires IsBuiltin(name)
    ensures Keeps(env, r)
    ensures r.Done? ==> r.env.scopes == env.scopes && r.env.retItem == env.retItem
  {
    if name == "arrayOf" then Done(Array(args), env)
    else
      var newline := if name == "println" then "\n" else "";
      match PrintText(args)
      case Ok(t) => Done(Unit, env.(output := env.output + t + newline))
      case Err(t) => Halted(Panic(UNREACHABLE), env.output + t)
  }

  /** `Eval for Expr` and everything it dispatches to. */
  function Eval(e: Ast.Expr, env: Env, code: Code, fuel: nat): (r: Outcome<Object>)
    requires Runnable(e) && Ready(env, code)
    ensures Keeps(env, r)
    decreases fuel, 0, Ast.Size(e)
  {
    if fuel == 0 then Halted(NoFuel, env.output)
    else
      match e
      case Spanned(_, x) => Eval(x, env, code, fuel)
      case Parens(x) => Eval(x, env, code, fuel)
      case Literal(l) => Done(LiteralObject(l), env)
      case Ident(name) =>
        if TypeScopes.FindVar(env.scopes, name).Some? then Done(TypeScopes.FindVar(env.scopes, name).value, env)
        else Halted(Panic(UNREACHABLE), env.output)
      case GetByIndex(target, index) => EvalGetByIndex(target.name, index, env, code, fuel - 1)
      case Neg(x) => EvalNeg(x, env, code, fuel - 1)
      case Binary(op, l, r) => EvalBinary(op, l, r, env, code, fuel - 1)
      case _ => EvalStatement(e, env, code, fuel - 1)
  }

  /** `Eval for TopExpr` and `Eval for ControlExpr`. */
  function EvalStatement(e: Ast.Expr, env: Env, code: Code, fuel: nat): (r: Outcome<Object>)
    requires e.IsTop() && Runnable(e) && Ready(env, code)
    ensures Keeps(env, r)
    decreases fuel, 4, 0
  {
    match e
    case Call(name, args) => EvalCall(name.name, args, env, code, fuel)
    case Binding(_, name, value) => EvalBinding(name.name, value, env, code, fuel)
    case Set(name, value) => EvalSet(name.name, value, env, code, fuel)
    case SetByIndex(target, index, value) => EvalSetByIndex(target.name, index, value, env, code, fuel)
    case Return(result) => EvalReturn(result, env, code, fuel)
    case If(cond, body, elseBranch) => EvalIf(cond, body, elseBranch, env, code, fuel)
    case For(variable, iterable, body) => EvalFor(variable, iterable, body, env, code, fuel)
    case While(cond, body) => EvalWhile(cond, body, env, code, fuel)
  }

  /** `-x`: wrapping negation of an integer. */
  function EvalNeg(x: Ast.Expr, env: Env, code: Code, fuel: nat): (r: Outcome<Object>)
    requires Runnable(x) && Ready(env, code)
    ensures Keeps(env, r)
    decreases fuel, 1, 0
  {
    match Eval(x, env, code, fuel)
    case Halted(h, out) => Halted(h, out)
    case Done(v, env1) =>
      if v.Int? then Done(Int(WrappingNeg(v.value)), env1) else Halted(Panic(UNREACHABLE), env1.output)
  }

  /** A binary operator: the left operand, then the right, then `Apply`. */
  function EvalBinary(op: Ast.BinaryOp, left: Ast.Expr, right: Ast.Expr, env: Env, code: Code, fuel: nat): (r: Outcome<Object>)
    requires op !in {Ast.And, Ast.Or} && Runnable(left) && Runnable(right) && Ready(env, code)
    ensures Keeps(env, r)
    decreases fuel, 1, 0
  {
    match Eval(left, env, code, fuel)
    case Halted(h, out) => Halted(h, out)
    case Done(l, env1) =>
      match Eval(right, env1, code, fuel)
      case Halted(h, out) => Halted(h, out)
      case Done(r, env2) =>
        match Apply(op, l, r)
        case Ok(v) => Done(v, env2)
        case Err(message) => Halted(Panic(message), env2.output)
  }

  /** `a[i]`: the index first; a negative index or one past the end is the
      exception "Index out of range"; only arrays can be indexed. */
  function EvalGetByIndex(target: string, index: Ast.Expr, env: Env, code: Code, fuel: nat): (r: Outcome<Object>)
    requires Runnable(index) && Ready(env, code)
    ensures Keeps(env, r)
    decreases fuel, 1, 0
  {
    match Eval(index, env, code, fuel)
    case Halted(h, out) => Halted(h, out)
    case Done(i, env1) =>
      if !i.Int? then Halted(Panic(UNREACHABLE), env1.output)
      else if i.value < 0 then Halted(Exception(INDEX_OUT_OF_RANGE), env1.output)
      else
        var obj := TypeScopes.FindVar(env1.scopes, target);
        if obj.None? || !obj.value.Array? then Halted(Panic(UNREACHABLE), env1.output)
        else if i.value >= |obj.value.items| then Halted(Exception(INDEX_OUT_OF_RANGE), env1.output)
        else Done(obj.value.items[i.value], env1)
  }

  /** A call: the arguments from left to right, then `call_function`. */
  function EvalCall(name: string, args: seq<Ast.Expr>, env: Env, code: Code, fuel: nat): (r: Outcome<Object>)
    requires AllRunnable(args) && Ready(env, code)
    ensures Keeps(env, r)
    decreases fuel, 3, 0
  {
    match EvalArgs(args, env, code, fuel)
    case Halted(h, out) => Halted(h, out)
    case Done(values, env1) => CallFunction(name, values, env1, code, fuel)
  }

  function EvalArgs(args: seq<Ast.Expr>, env: Env, code: Code, fuel: nat): (r: Outcome<seq<Object>>)
    requires AllRunnable(args) && Ready(env, code)
    ensures Keeps(env, r)
    ensures r.Done? ==> |r.value| == |args|
    decreases fuel, 1, |args|
  {
    if |args| == 0 then Done([], env)
    else
      AllRunnableTail(args);
      match Eval(args[0], env, code, fuel)
      case Halted(h, out) => Halted(h, out)
      case Done(v, env1) =>
        match EvalArgs(args[1..], env1, code, fuel)
        case Halted(h, out) => Halted(h, out)
        case Done(vs, env2) => Done([v] + vs, env2)
  }

  /** `call_function`: a built-in first; otherwise the function of that
      name, whose parameters must be as many as the arguments, runs in one
      new scope holding them, which is popped when it ends. */
  function CallFunction(name: string, args: seq<Object>, env: Env, code: Code, fuel: nat): (r: Outcome<Object>)
    requires CodeRunnable(code)
    ensures Keeps(env, r)
    decreases fuel, 2, 0
  {
    if IsBuiltin(name) then CallBuiltin(name, args, env)
    else if name !in code.functions then Halted(Panic("not implemented: function " + name + " doesn't exist"), env.output)
    else
      var f := code.functions[name];
      if |f.args| != |args| then Halted(Panic(ARITY), env.output)
      else
        var frame := ParamScope(seq(|f.args|, i requires 0 <= i < |f.args| => f.args[i].0), args);
        match RunBody(f.body, env.(scopes := env.scopes + [frame]), code, fuel)
        case Halted(h, out) => Halted(h, out)
        case Done(v, env1) => Done(v, env1.(scopes := Pop(env1.scopes)))
  }

  /** The body loop of `call_function`: after each statement the return
      slot is taken; if it held a value, that is the result. Without a
      `return` the result is `Unit`. */
  function RunBody(body: seq<Ast.Expr>, env: Env, code: Code, fuel: nat): (r: Outcome<Object>)
    requires AllRunnable(body) && Ready(env, code)
    ensures Keeps(env, r)
    ensures r.Done? ==> r.env.retItem == if |body| == 0 then env.retItem else None
    decreases fuel, 1, |body|
  {
    if |body| == 0 then Done(Unit, env)
    else
      AllRunnableTail(body);
      match Eval(body[0], env, code, fuel)
      case Halted(h, out) => Halted(h, out)
      case Done(_, env1) =>
        if env1.retItem.Some? then Done(env1.retItem.value, env1.(retItem := None))
        else RunBody(body[1..], env1, code, fuel)
  }

  /** `let`/`var`: the value, bound in the innermost scope. */
  function EvalBinding(name: string, value: Ast.Expr, env: Env, code: Code, fuel: nat): (r: Outcome<Object>)
    requires Runnable(value) && Ready(env, code)
    ensures Keeps(env, r)
    decreases fuel, 1, 0
  {
    match Eval(value, env, code, fuel)
    case Halted(h, out) => Halted(h, out)
    case Done(v, env1) => Done(Unit, env1.(scopes := Var(env1.scopes, name, v)))
  }

  /** `x = v`: the value, stored where the name is bound. */
  function EvalSet(name: string, value: Ast.Expr, env: Env, code: Code, fuel: nat): (r: Outcome<Object>)
    requires Runnable(value) && Ready(env, code)
    ensures Keeps(env, r)
    decreases fuel, 1, 0
  {
    match Eval(value, env, code, fuel)
    case Halted(h, out) => Halted(h, out)
    case Done(v, env1) =>
      match Set(env1.scopes, name, v)
      case None => Halted(Panic(UNREACHABLE), env1.output)
      case Some(scopes) => Done(Unit, env1.(scopes := scopes))
  }

  /** `a[i] = v`: the value first, then the index, with the checks of
      `a[i]`; a copy of the array with element `i` replaced is stored back
      with `set`. */
  function EvalSetByIndex(target: string, index: Ast.Expr, value: Ast.Expr, env: Env, code: Code, fuel: nat): (r: Outcome<Object>)
    requires Runnable(index) && Runnable(value) && Ready(env, code)
    ensures Keeps(env, r)
    decreases fuel, 1, 0
  {
    match Eval(value, env, code, fuel)
    case Halted(h, out) => Halted(h, out)
    case Done(v, env1) =>
      match Eval(index, env1, code, fuel)
      case Halted(h, out) => Halted(h, out)
      case Done(i, env2) =>
        if !i.Int? then Halted(Panic(UNREACHABLE), env2.output)
        else if i.value < 0 then Halted(Exception(INDEX_OUT_OF_RANGE), env2.output)
        else
          var obj := TypeScopes.FindVar(env2.scopes, target);
          if obj.None? || !obj.value.Array? then Halted(Panic(UNREACHABLE), env2.output)
          else if i.value >= |obj.value.items| then Halted(Exception(INDEX_OUT_OF_RANGE), env2.output)
          else Done(Unit, env2.(scopes := Set(env2.scopes, target, Array(obj.value.items[i.value := v])).value))
  }

  /** `return`: the value, or `Unit`, goes to the return slot. */
  function EvalReturn(result: Option<Ast.Expr>, env: Env, code: Code, fuel: nat): (r: Outcome<Object>)
    requires (result.Some? ==> Runnable(result.value)) && Ready(env, code)
    ensures Keeps(env, r)
    decreases fuel, 1, 0
  {
    if result.None? then Done(Unit, env.(retItem := Some(Unit)))
    else
      match Eval(result.value, env, code, fuel)
      case Halted(h, out) => Halted(h, out)
      case Done(v, env1) => Done(Unit, env1.(retItem := Some(v)))
  }

  /** The statements of a block in order. As written, the return slot is
      not looked at, so a block runs to its end after a `return`. */
  function EvalBlock(body: seq<Ast.Expr>, env: Env, code: Code, fuel: nat): (r: Outcome<()>)
    requires AllRunnable(body) && Ready(env, code)
    ensures Keeps(env, r)
    decreases fuel, 1, |body|
  {
    if |body| == 0 then Done((), env)
    else
      AllRunnableTail(body);
      match Eval(body[0], env, code, fuel)
      case Halted(h, out) => Halted(h, out)
      case Done(_, env1) =>
        if code.stopOnReturn && env1.retItem.Some? then Done((), env1)
        else EvalBlock(body[1..], env1, code, fuel)
  }

  /** `if`: a boolean condition, then the chosen branch in one new scope. */
  function EvalIf(cond: Ast.Expr, body: seq<Ast.Expr>, elseBranch: seq<Ast.Expr>, env: Env, code: Code, fuel: nat): (r: Outcome<Object>)
    requires Runnable(cond) && AllRunnable(body) && AllRunnable(elseBranch) && Ready(env, code)
    ensures Keeps(env, r)
    decreases fuel, 2, 0
  {
    match Eval(cond, env, code, fuel)
    case Halted(h, out) => Halted(h, out)
    case Done(c, env1) =>
      if !c.Boolean? then Halted(Panic(UNREACHABLE), env1.output)
      else
        match EvalBlock(if c.truth then body else elseBranch, env1.(scopes := Push(env1.scopes)), code, fuel)
        case Halted(h, out) => Halted(h, out)
        case Done(_, env2) => Done(Unit, env2.(scopes := Pop(env2.scopes)))
  }

  /** `for`: the iterable once, then one new scope for the whole loop, in
      which the variable is bound with `var` to each item in turn before
      the body runs. */
  function EvalFor(variable: string, iterable: Ast.Expr, body: seq<Ast.Expr>, env: Env, code: Code, fuel: nat): (r: Outcome<Object>)
    requires Runnable(iterable) && AllRunnable(body) && Ready(env, code)
    ensures Keeps(env, r)
    decreases fuel, 3, 0
  {
    match Eval(iterable, env, code, fuel)
    case Halted(h, out) => Halted(h, out)
    case Done(it, env1) =>
      match Items(it)
      case None => Halted(Panic(UNREACHABLE), env1.output)
      case Some(items) =>
        match ForItems(variable, items, body, env1.(scopes := Push(env1.scopes)), code, fuel)
        case Halted(h, out) => Halted(h, out)
        case Done(_, env2) => Done(Unit, env2.(scopes := Pop(env2.scopes)))
  }

  function ForItems(variable: string, items: seq<Object>, body: seq<Ast.Expr>, env: Env, code: Code, fuel: nat): (r: Outcome<()>)
    requires AllRunnable(body) && Ready(env, code)
    ensures Keeps(env, r)
    decreases fuel, 2, |items|
  {
    if |items| == 0 then Done((), env)
    else
      match EvalBlock(body, env.(scopes := Var(env.scopes, variable, items[0])), code, fuel)
      case Halted(h, out) => Halted(h, out)
      case Done(_, env1) =>
        if code.stopOnReturn && env1.retItem.Some? then Done((), env1)
        else ForItems(variable, items[1..], body, env1, code, fuel)
  }

  /** `while`: the condition before every iteration, and a new scope for
      each run of the body. */
  function EvalWhile(cond: Ast.Expr, body: seq<Ast.Expr>, env: Env, code: Code, fuel: nat): (r: Outcome<Object>)
    requires Runnable(cond) && AllRunnable(body) && Ready(env, code)
    ensures Keeps(env, r)
    decreases fuel, 2, 0
  {
    match Eval(cond, env, code, fuel)
    case Halted(h, out) => Halted(h, out)
    case Done(c, env1) =>
      if !c.Boolean? then Halted(Panic(UNREACHABLE), env1.output)
      else if !c.truth then Done(Unit, env1)
      else
        match EvalBlock(body, env1.(scopes := Push(env1.scopes)), code, fuel)
        case Halted(h, out) => Halted(h, out)
        case Done(_, env2) =>
          var env3 := env2.(scopes := Pop(env2.scopes));
          if code.stopOnReturn && env3.retItem.Some? then Done(Unit, env3)
          else if fuel == 0 then Halted(NoFuel, env3.output)
          else EvalWhile(cond, body, env3, code, fuel - 1)
  }
}
