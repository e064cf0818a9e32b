/** The checker's stack of scopes, innermost last: `find_var_type`,
    `add_var_type`, `push_scope` and `pop_scope` of the checker's `Context`
    as functions on the stack. The class `Checker.Context` holds such a
    stack in a field and its methods are proved to compute these. */
module TypeScopes {
  import opened Wrappers
  import opened CheckerTypes

  type Scopes = seq<map<string, ExprType>>

  /** `find_var_type`: the type bound to `name` in the innermost scope that
      binds it. The interpreter's `get` looks up values the same way. */
  function FindVar<T>(scopes: seq<map<string, T>>, name: string): (r: Option<T>)
    decreases |scopes|
  {
    if |scopes| == 0 then None
    else if name in scopes[|scopes| - 1] then Some(scopes[|scopes| - 1][name])
    else FindVar(scopes[..|scopes| - 1], name)
  }

  /** What `FindVar` finds: nothing exactly when no scope binds the name,
      and otherwise the binding of the innermost scope `i` that binds it. */
  lemma {:induction false} FindVarInnermost<T>(scopes: seq<map<string, T>>, name: string) returns (i: int)
    ensures FindVar(scopes, name).None? ==> i == -1 && forall j | 0 <= j < |scopes| :: name !in scopes[j]
    ensures FindVar(scopes, name).Some? ==>
      0 <= i < |scopes| && name in scopes[i] && FindVar(scopes, name).value == scopes[i][name]
      && forall j | i < j < |scopes| :: name !in scopes[j]
    decreases |scopes|
  {
    if |scopes| == 0 {
      return -1;
    }
    var n := |scopes| - 1;
    if name in scopes[n] {
      return n;
    }
    var outer := scopes[..n];
    i := FindVarInnermost(outer, name);
    assert forall j | 0 <= j < n :: scopes[j] == outer[j];
  }

  /** `add_var_type`: binds `name` in the innermost scope unless that scope
      already binds it, in which case nothing changes. The program expects a
      scope to exist. */
  function AddVar(scopes: Scopes, name: string, ty: ExprType): (r: Scopes)
    requires |scopes| > 0
    ensures |r| == |scopes| && r[..|r| - 1] == scopes[..|scopes| - 1]
  {
    var last := scopes[|scopes| - 1];
    if name in last then scopes else scopes[..|scopes| - 1] + [last[name := ty]]
  }

  /** After `add_var_type`, the name has the type of its first binding in
      the innermost scope, and every other name keeps its type. */
  lemma {:induction false} FindAfterAddVar(scopes: Scopes, name: string, ty: ExprType, other: string)
    requires |scopes| > 0
    ensures var last := scopes[|scopes| - 1];
      FindVar(AddVar(scopes, name, ty), name) == Some(if name in last then last[name] else ty)
    ensures other != name ==> FindVar(AddVar(scopes, name, ty), other) == FindVar(scopes, other)
  {
    var r := AddVar(scopes, name, ty);
    assert r[..|r| - 1] == scopes[..|scopes| - 1];
  }

  /** `push_scope`: a new empty innermost scope. */
  function PushScope(scopes: Scopes): (r: Scopes)
    ensures |r| == |scopes| + 1 && r[..|scopes|] == scopes && r[|scopes|] == map[]
  {
    scopes + [map[]]
  }

  /** `pop_scope`: drops the innermost scope, if there is one. */
  function PopScope(scopes: Scopes): (r: Scopes)
    ensures |scopes| > 0 ==> r == scopes[..|scopes| - 1]
    ensures |scopes| == 0 ==> r == []
  {
    if |scopes| == 0 then [] else scopes[..|scopes| - 1]
  }

  /** A pushed scope hides nothing until it binds a name, and popping it
      gives back the stack as it was. */
  lemma {:induction false} PushPop(scopes: Scopes, name: string)
    ensures FindVar(PushScope(scopes), name) == FindVar(scopes, name)
    ensures PopScope(PushScope(scopes)) == scopes
  {
    assert PushScope(scopes)[..|scopes|] == scopes;
  }
}
