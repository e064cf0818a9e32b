/** The two scans of the token slice that the parser uses for operators and
    parentheses: `get_toplevel_index_of`, which finds where a binary
    operator splits an expression, and the search for the parenthesis that
    closes an opening one in `Parens::try_parse`. Both count the paren
    nesting level as they go. */
module TopLevel {
  import opened Tokens
  import opened Lexer

  /** `usize::MAX`, what `get_toplevel_index_of` returns when it finds nothing. */
  const USIZE_MAX: nat := 0xFFFF_FFFF_FFFF_FFFF

  /** How a token changes the nesting level. */
  function Delta(t: Token): (d: int)
    ensures -1 <= d <= 1
  {
    if t == Symbol('(') then 1 else if t == Symbol(')') then -1 else 0
  }

  /** The nesting level after the first `n` pairs. */
  function Depth(ps: seq<Pair>, n: nat): int
    requires n <= |ps|
    decreases n
  {
    if n == 0 then 0 else Depth(ps, n - 1) + Delta(ps[n - 1].token)
  }

  // ---------------------------------------------------------------------------
  // get_toplevel_index_of

  /** Pair `i` is the token `t`, outside every parenthesis once it is read
      (a `(` or `)` is counted before the comparison). */
  predicate AtTopLevel(ps: seq<Pair>, t: Token, i: nat)
    requires i < |ps|
  {
    ps[i].token == t && Depth(ps, i + 1) == 0
  }

  /** The first index from `from` on at which `t` is at top level, or
      `usize::MAX`. */
  function FirstAtTopLevel(ps: seq<Pair>, t: Token, from: nat): (r: nat)
    requires from <= |ps|
    decreases |ps| - from
  {
    if from == |ps| then USIZE_MAX
    else if AtTopLevel(ps, t, from) then from
    else FirstAtTopLevel(ps, t, from + 1)
  }

  /** `get_toplevel_index_of`. */
  function ToplevelIndexOf(ps: seq<Pair>, t: Token): (r: nat)
  {
    FirstAtTopLevel(ps, t, 0)
  }

  /** The index `get_toplevel_index_of` returns is the first at which `t` is
      at top level, and it returns `usize::MAX` when there is none. */
  lemma {:induction false} ToplevelIndexOfIsFirst(ps: seq<Pair>, t: Token)
    requires |ps| < USIZE_MAX
    ensures var r := ToplevelIndexOf(ps, t);
      (r == USIZE_MAX || (r < |ps| && AtTopLevel(ps, t, r)))
      && forall j | 0 <= j < |ps| && j < r :: !AtTopLevel(ps, t, j)
  {
    FirstAtTopLevelFrom(ps, t, 0);
  }

  lemma {:induction false} FirstAtTopLevelFrom(ps: seq<Pair>, t: Token, from: nat)
    requires from <= |ps| < USIZE_MAX
    ensures var r := FirstAtTopLevel(ps, t, from);
      (r == USIZE_MAX || (from <= r < |ps| && AtTopLevel(ps, t, r)))
      && forall j | from <= j < |ps| && j < r :: !AtTopLevel(ps, t, j)
    decreases |ps| - from
  {
    if from < |ps| && !AtTopLevel(ps, t, from) {
      FirstAtTopLevelFrom(ps, t, from + 1);
    }
  }

  /** `get_toplevel_index_of` as the program writes it, with its loop. */
  method ToplevelIndexOfLoop(ps: seq<Pair>, t: Token) returns (targetIndex: nat)
    ensures targetIndex == ToplevelIndexOf(ps, t)
  {
    targetIndex := USIZE_MAX;
    var nestingLevel := 0;
    for index := 0 to |ps|
      invariant nestingLevel == Depth(ps, index)
      invariant FirstAtTopLevel(ps, t, index) == ToplevelIndexOf(ps, t)
    {
      var token := ps[index].token;
      if token.Symbol? {
        if token.symbol == '(' {
          nestingLevel := nestingLevel + 1;
        } else if token.symbol == ')' {
          nestingLevel := nestingLevel - 1;
        }
      }
      if nestingLevel == 0 && token == t {
        targetIndex := index;
        return;
      }
    }
  }

  // ---------------------------------------------------------------------------
  // The closing parenthesis of `Parens`

  /** Pair `i` of what follows an opening parenthesis is a `)` that brings
      the level back to that of the opening one. */
  predicate Closes(ps: seq<Pair>, i: nat)
    requires i < |ps|
  {
    ps[i].token == Symbol(')') && Depth(ps, i + 1) == -1
  }

  /** The index of the first closing parenthesis that matches, from `from`
      on, or `|ps|` when there is none. */
  function FirstClosing(ps: seq<Pair>, from: nat): (r: nat)
    requires from <= |ps|
    ensures from <= r <= |ps|
    decreases |ps| - from
  {
    if from == |ps| then |ps|
    else if Closes(ps, from) then from
    else FirstClosing(ps, from + 1)
  }

  /** `matcing_paren_index` of `Parens::try_parse`, for the pairs after the `(`. */
  function MatchingParen(ps: seq<Pair>): (r: nat)
    ensures r <= |ps|
  {
    FirstClosing(ps, 0)
  }

  /** The scan of `Parens::try_parse`, with its loop: the level starts at 1
      for the parenthesis already read. */
  method MatchingParenLoop(ps: seq<Pair>) returns (matchingIndex: nat)
    ensures matchingIndex == MatchingParen(ps)
  {
    matchingIndex := |ps|;
    var nestingLevel := 1;
    for index := 0 to |ps|
      invariant nestingLevel == 1 + Depth(ps, index)
      invariant FirstClosing(ps, index) == MatchingParen(ps)
    {
      var token := ps[index].token;
      if token.Symbol? {
        if token.symbol == '(' {
          nestingLevel := nestingLevel + 1;
        }
        if token.symbol == ')' {
          nestingLevel := nestingLevel - 1;
          if nestingLevel == 0 {
            matchingIndex := index;
            return;
          }
        }
      }
    }
  }

  /** The parenthesis `MatchingParen` finds closes the opening one: the pairs
      before it are balanced (their level never drops below that of the
      opening parenthesis and ends at it). With none found, the level
      never drops below it. */
  lemma {:induction false} MatchingParenBalanced(ps: seq<Pair>)
    ensures var m := MatchingParen(ps);
      (m < |ps| ==> ps[m].token == Symbol(')') && Depth(ps, m) == 0)
      && forall j | 0 <= j <= m && j <= |ps| :: Depth(ps, j) >= 0
  {
    FirstClosingBalanced(ps, 0);
  }

  lemma {:induction false} FirstClosingBalanced(ps: seq<Pair>, from: nat)
    requires from <= |ps|
    requires forall j | 0 <= j <= from :: Depth(ps, j) >= 0
    ensures var m := FirstClosing(ps, from);
      (m < |ps| ==> ps[m].token == Symbol(')') && Depth(ps, m) == 0)
      && forall j | 0 <= j <= m && j <= |ps| :: Depth(ps, j) >= 0
    decreases |ps| - from
  {
    if from < |ps| && !Closes(ps, from) {
      assert Depth(ps, from + 1) >= 0;
      FirstClosingBalanced(ps, from + 1);
    }
  }
}
