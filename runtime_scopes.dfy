/** The interpreter's stack of scopes (innermost last) and function table,
    as values: `get`, `var`, `set`, `push` and `pop` of the run-time
    `Context`, the table `Context::new` builds, and the scope a call
    starts with. The class `Interpreter.Context` holds these in fields and
    its methods are proved to compute them. `get` is `TypeScopes.FindVar`. */
module RuntimeScopes {
  import opened Wrappers
  import opened TypeScopes
  import opened Objects
  import Ast

  type Scopes = seq<map<string, Object>>

  /** `var`: binds or rebinds `name` in the innermost scope. */
  function Var(scopes: Scopes, name: string, obj: Object): (r: Scopes)
    requires |scopes| > 0
    ensures |r| == |scopes| && r[..|r| - 1] == scopes[..|scopes| - 1]
  {
    scopes[..|scopes| - 1] + [scopes[|scopes| - 1][name := obj]]
  }

  /** After `var`, the name has the new value and every other name keeps
      its own. */
  lemma VarThenGet(scopes: Scopes, name: string, obj: Object, other: string)
    requires |scopes| > 0
    ensures FindVar(Var(scopes, name, obj), name) == Some(obj)
    ensures other != name ==> FindVar(Var(scopes, name, obj), other) == FindVar(scopes, other)
  {
    var r := Var(scopes, name, obj);
    assert r[..|r| - 1] == scopes[..|scopes| - 1];
  }

  /** `set`: rebinds `name` in the innermost scope that binds it; there is
      no such scope exactly when the name is unbound, which the program
      treats as unreachable. */
  function Set(scopes: Scopes, name: string, obj: Object): (r: Option<Scopes>)
    ensures r.Some? <==> FindVar(scopes, name).Some?
    ensures r.Some? ==> |r.value| == |scopes|
    decreases |scopes|
  {
    if |scopes| == 0 then None
    else
      var n := |scopes| - 1;
      if name in scopes[n] then Some(scopes[..n] + [scopes[n][name := obj]])
      else
        match Set(scopes[..n], name, obj)
        case Some(outer) => Some(outer + [scopes[n]])
        case None => None
  }

  /** `scopes[i]` is the innermost scope that binds the name. */
  predicate Innermost(scopes: Scopes, name: string, i: int) {
    0 <= i < |scopes| && name in scopes[i] && forall j | i < j < |scopes| :: name !in scopes[j]
  }

  /** `set` changes one scope only, the innermost that binds the name, and
      in it only that name. */
  lemma {:induction false} SetChangesOneScope(scopes: Scopes, name: string, obj: Object) returns (i: nat)
    requires FindVar(scopes, name).Some?
    ensures Innermost(scopes, name, i)
    ensures Set(scopes, name, obj).value == scopes[i := scopes[i][name := obj]]
    decreases |scopes|
  {
    var n := |scopes| - 1;
    if name in scopes[n] {
      i := n;
      assert Set(scopes, name, obj).value == scopes[n := scopes[n][name := obj]];
    } else {
      var outer := scopes[..n];
      i := SetChangesOneScope(outer, name, obj);
      assert scopes == outer + [scopes[n]];
      calc {
        Set(scopes, name, obj).value;
        Set(outer, name, obj).value + [scopes[n]];
        outer[i := outer[i][name := obj]] + [scopes[n]];
        scopes[i := scopes[i][name := obj]];
      }
    }
  }

  /** After `set`, the name has the new value and every other name keeps
      its own. */
  lemma {:induction false} SetThenGet(scopes: Scopes, name: string, obj: Object, other: string)
    requires FindVar(scopes, name).Some?
    ensures FindVar(Set(scopes, name, obj).value, name) == Some(obj)
    ensures other != name ==> FindVar(Set(scopes, name, obj).value, other) == FindVar(scopes, other)
    decreases |scopes|
  {
    var n := |scopes| - 1;
    var r := Set(scopes, name, obj).value;
    if name in scopes[n] {
      assert r[..n] == scopes[..n];
    } else {
      var outer := scopes[..n];
      SetThenGet(outer, name, obj, other);
      assert r[..n] == Set(outer, name, obj).value;
    }
  }

  /** `push`. */
  function Push(scopes: Scopes): (r: Scopes)
    ensures |r| == |scopes| + 1 && r[..|scopes|] == scopes && r[|scopes|] == map[]
  {
    scopes + [map[]]
  }

  /** `pop`: nothing happens on an empty stack. */
  function Pop(scopes: Scopes): (r: Scopes)
    ensures |scopes| > 0 ==> r == scopes[..|scopes| - 1]
    ensures |scopes| == 0 ==> r == []
  {
    if |scopes| == 0 then [] else scopes[..|scopes| - 1]
  }

  /** The function table of `Context::new`: each function under its name,
      a later definition replacing an earlier one. */
  function Table(funs: seq<Ast.Fun>): (t: map<string, Ast.Fun>)
    decreases |funs|
  {
    if |funs| == 0 then map[]
    else
      var f := funs[|funs| - 1];
      Table(funs[..|funs| - 1])[f.name := f]
  }

  /** The last definition wins: a name is in the table exactly when some
      function has it, and then it maps to the last function of that
      name. */
  lemma {:induction false} TableLastWins(funs: seq<Ast.Fun>, name: string)
    ensures name in Table(funs) <==> exists i | 0 <= i < |funs| :: funs[i].name == name
    ensures forall i | 0 <= i < |funs| && funs[i].name == name && (forall j | i < j < |funs| :: funs[j].name != name) ::
      name in Table(funs) && Table(funs)[name] == funs[i]
    decreases |funs|
  {
    if |funs| > 0 {
      var n := |funs| - 1;
      var init := funs[..n];
      TableLastWins(init, name);
      assert forall i | 0 <= i < n :: init[i] == funs[i];
      if funs[n].name != name {
        assert (exists i | 0 <= i < |funs| :: funs[i].name == name) ==> exists i | 0 <= i < n :: init[i].name == name;
      }
    }
  }

  /** The scope a call starts with: each parameter name bound to the
      argument at its position; a repeated name gets the later argument. */
  function ParamScope(names: seq<string>, args: seq<Object>): (m: map<string, Object>)
    requires |names| == |args|
    decreases |names|
  {
    if |names| == 0 then map[]
    else
      var n := |names| - 1;
      ParamScope(names[..n], args[..n])[names[n] := args[n]]
  }

  /** Parameters are bound positionally: every parameter name is bound, to
      the argument at the last position with that name, and nothing else
      is bound. */
  lemma {:induction false} ParamScopeBinds(names: seq<string>, args: seq<Object>, name: string)
    requires |names| == |args|
    ensures name in ParamScope(names, args) <==> name in names
    ensures forall i | 0 <= i < |names| && names[i] == name && (forall j | i < j < |names| :: names[j] != name) ::
      ParamScope(names, args)[name] == args[i]
    decreases |names|
  {
    if |names| > 0 {
      var n := |names| - 1;
      ParamScopeBinds(names[..n], args[..n], name);
      assert names == names[..n] + [names[n]];
      assert forall i | 0 <= i < n :: names[..n][i] == names[i] && args[..n][i] == args[i];
    }
  }
}
