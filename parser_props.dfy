/** What the parser's rules add up to: how a binary operator splits its
    input, which inputs each level turns down, and the worked examples
    that `src/parser/expr/math_expr.rs` lists. */
module ParserProps {
  import opened Wrappers
  import opened Lexer
  import opened Ast
  import opened ParserHelpers
  import opened Parser
  import Tokens
  import TopLevel
  import Int32

  // ---------------------------------------------------------------------------
  // The binary operator rule

  /** Without its operator token anywhere in the slice, a binary operator's
      parser fails with `UnexpectedEndOfInput`. */
  lemma {:induction false} BinaryNeedsOperator(src: string, ps: seq<Pair>, op: BinaryOp)
    requires AllReadable(src, ps) && |ps| < TopLevel.USIZE_MAX
    requires forall i | 0 <= i < |ps| :: ps[i].token != OpToken(op)
    ensures ParseBinary(src, ps, op) == Err(UnexpectedEndOfInput)
  {
    TopLevel.ToplevelIndexOfIsFirst(ps, OpToken(op));
  }

  /** A binary operator splits its input at the first occurrence of the
      operator outside every parenthesis; the left operand is parsed from
      everything before it and must use all of it, and the right operand
      is parsed from the pair after it on, leaving what the whole leaves. */
  lemma {:induction false} BinarySplit(src: string, ps: seq<Pair>, op: BinaryOp)
    requires AllReadable(src, ps) && |ps| < TopLevel.USIZE_MAX
    requires ParseBinary(src, ps, op).Ok?
    ensures var k := TopLevel.ToplevelIndexOf(ps, OpToken(op));
      && k < |ps|
      && TopLevel.AtTopLevel(ps, OpToken(op), k)
      && (forall j | 0 <= j < k :: !TopLevel.AtTopLevel(ps, OpToken(op), j))
      && AllReadable(src, ps[..k]) && AllReadable(src, ps[k + 1..])
      && var (e, rest) := ParseBinary(src, ps, op).value;
         && ParseBoxed(src, ps[..k]) == Ok((e.left, []))
         && ParseBoxed(src, ps[k + 1..]) == Ok((e.right, rest))
  {
    var t := OpToken(op);
    TopLevel.ToplevelIndexOfIsFirst(ps, t);
    var k := TopLevel.ToplevelIndexOf(ps, t);
    ReadableTake(src, ps, k);
    ReadableDrop(src, ps, k + 1);
  }

  // ---------------------------------------------------------------------------
  // Single pairs

  /** A pair the parser reads as a literal. */
  predicate LiteralPair(src: string, p: Pair) {
    Readable(src, p) && IsLiteralToken(p.token)
  }

  lemma {:induction false} OneReadable(src: string, p: Pair)
    requires Readable(src, p)
    ensures AllReadable(src, [p])
  {
  }

  /** No level but `ShortExpr` accepts a lone literal. */
  lemma {:induction false} LoneLiteralNotTopMathComparison(src: string, p: Pair)
    requires LiteralPair(src, p)
    ensures AllReadable(src, [p])
    ensures ParseTop(src, [p]).Err? && ParseMath(src, [p]).Err? && ParseComparison(src, [p]).Err?
  {
    OneReadable(src, p);
    forall op ensures ParseBinary(src, [p], op) == Err(UnexpectedEndOfInput) {
      BinaryNeedsOperator(src, [p], op);
    }
  }

  /** A lone literal pair is an expression: the literal it spells. */
  lemma {:induction false} LoneLiteral(src: string, p: Pair)
    requires LiteralPair(src, p)
    ensures AllReadable(src, [p])
    ensures ParseLiteral(src, [p]).Ok?
    ensures ParseExpr(src, [p]) == Ok((Literal(ParseLiteral(src, [p]).value.0), []))
  {
    LoneLiteralNotTopMathComparison(src, p);
  }

  // ---------------------------------------------------------------------------
  // The order in which alternatives are tried

  /** The operators of `MathExpr` after `Neg`, in the order it tries them
      (`Parens` comes last). */
  const MATH_OPS: seq<BinaryOp> := [Range, Sub, Add, Mul, Div]

  /** The operators of `ComparisonExpr`, in the order it tries them. */
  const COMPARISON_OPS: seq<BinaryOp> := [And, Or, LessThan, MoreThan]

  /** `MathExpr` returns what the first of its alternatives to succeed
      returns, and fails at the first pair when none does. */
  lemma {:induction false} MathTriesInOrder(src: string, ps: seq<Pair>, i: nat)
    requires AllReadable(src, ps) && |ps| > 0 && i < |MATH_OPS|
    requires ParseNeg(src, ps).Err?
    requires forall j | 0 <= j < i :: ParseBinary(src, ps, MATH_OPS[j]).Err?
    requires ParseBinary(src, ps, MATH_OPS[i]).Ok?
    ensures ParseMath(src, ps) == ParseBinary(src, ps, MATH_OPS[i])
  {
    if i > 0 { assert ParseBinary(src, ps, MATH_OPS[0]).Err?; }
    if i > 1 { assert ParseBinary(src, ps, MATH_OPS[1]).Err?; }
    if i > 2 { assert ParseBinary(src, ps, MATH_OPS[2]).Err?; }
    if i > 3 { assert ParseBinary(src, ps, MATH_OPS[3]).Err?; }
  }

  lemma {:induction false} MathFails(src: string, ps: seq<Pair>)
    requires AllReadable(src, ps) && |ps| > 0
    requires ParseNeg(src, ps).Err? && ParseParens(src, ps).Err?
    requires forall j | 0 <= j < |MATH_OPS| :: ParseBinary(src, ps, MATH_OPS[j]).Err?
    ensures ParseMath(src, ps) == Err(WrongExprType(Some(ps[0]), "MathExpr"))
  {
    assert ParseBinary(src, ps, MATH_OPS[0]).Err?;
    assert ParseBinary(src, ps, MATH_OPS[1]).Err?;
    assert ParseBinary(src, ps, MATH_OPS[2]).Err?;
    assert ParseBinary(src, ps, MATH_OPS[3]).Err?;
    assert ParseBinary(src, ps, MATH_OPS[4]).Err?;
  }

  /** `ComparisonExpr` returns what the first of its operators to succeed
      returns, and fails at the first pair when none does. */
  lemma {:induction false} ComparisonTriesInOrder(src: string, ps: seq<Pair>, i: nat)
    requires AllReadable(src, ps) && |ps| > 0 && i <= |COMPARISON_OPS|
    requires forall j | 0 <= j < i :: ParseBinary(src, ps, COMPARISON_OPS[j]).Err?
    ensures i < |COMPARISON_OPS| && ParseBinary(src, ps, COMPARISON_OPS[i]).Ok?
      ==> ParseComparison(src, ps) == ParseBinary(src, ps, COMPARISON_OPS[i])
    ensures i == |COMPARISON_OPS| ==> ParseComparison(src, ps) == Err(WrongExprType(Some(ps[0]), "ComparisonExpr"))
  {
    if i > 0 { assert ParseBinary(src, ps, COMPARISON_OPS[0]).Err?; }
    if i > 1 { assert ParseBinary(src, ps, COMPARISON_OPS[1]).Err?; }
    if i > 2 { assert ParseBinary(src, ps, COMPARISON_OPS[2]).Err?; }
    if i > 3 { assert ParseBinary(src, ps, COMPARISON_OPS[3]).Err?; }
  }

  /** `Expr` tries `TopExpr`, `MathExpr`, `ComparisonExpr` and `ShortExpr`
      in this order: a level is only asked when the ones before it failed,
      and when all fail the error is at the first pair. */
  lemma {:induction false} ExprTriesInOrder(src: string, ps: seq<Pair>)
    requires AllReadable(src, ps)
    ensures |ps| == 0 ==> ParseExpr(src, ps) == Err(UnexpectedEndOfInput)
    ensures ParseExpr(src, ps).Ok? && ParseTop(src, ps).Err? && ParseMath(src, ps).Err? && ParseComparison(src, ps).Err?
      ==> ParseExpr(src, ps) == ParseShort(src, ps)
    ensures ParseExpr(src, ps).Ok? && !ParseExpr(src, ps).value.0.IsTop() ==> ParseTop(src, ps).Err?
    ensures ParseExpr(src, ps).Ok? && !ParseExpr(src, ps).value.0.IsTop() && !ParseExpr(src, ps).value.0.IsMath()
      ==> ParseMath(src, ps).Err?
    ensures |ps| > 0 && ParseExpr(src, ps).Err? ==> ParseExpr(src, ps) == Err(WrongExprType(Some(ps[0]), "Expr"))
  {
  }

  /** The converse of `BinarySplit`: when the pairs before the first
      top-level operator make one whole expression and those after it make
      one, the binary operator's parser joins them. */
  lemma {:induction false} BinaryJoin(src: string, ps: seq<Pair>, op: BinaryOp, k: nat, left: Expr, right: Expr, rest: seq<Pair>)
    requires AllReadable(src, ps) && k < |ps| && k == TopLevel.ToplevelIndexOf(ps, OpToken(op))
    requires AllReadable(src, ps[..k]) && AllReadable(src, ps[k + 1..])
    requires ParseBoxed(src, ps[..k]) == Ok((left, []))
    requires ParseBoxed(src, ps[k + 1..]) == Ok((right, rest))
    requires ps[k].token != Tokens.NewLine
    ensures ParseBinary(src, ps, op) == Ok((Binary(op, left, right), rest))
  {
  }

  /** A slice that starts with a literal is neither a `TopExpr`, nor a
      negation, nor a parenthesised expression. */
  lemma {:induction false} LiteralStartNotTop(src: string, ps: seq<Pair>)
    requires AllReadable(src, ps) && |ps| > 0 && IsLiteralToken(ps[0].token)
    ensures ParseTop(src, ps).Err? && ParseNeg(src, ps).Err? && ParseParens(src, ps).Err?
  {
  }

  /** The operators of `MathExpr` are written with distinct tokens, none of
      them a literal, a parenthesis or a new line. */
  lemma {:induction false} MathOpTokens(i: nat, j: nat)
    requires i < |MATH_OPS| && j < |MATH_OPS|
    ensures OpToken(MATH_OPS[i]) == OpToken(MATH_OPS[j]) ==> i == j
    ensures !IsLiteralToken(OpToken(MATH_OPS[i]))
    ensures TopLevel.Delta(OpToken(MATH_OPS[i])) == 0 && OpToken(MATH_OPS[i]) != Tokens.NewLine
  {
  }

  /** When the second pair is the operator and the first is neither it nor
      a parenthesis, the split is at the second pair. */
  lemma {:induction false} SecondIsOperator(ps: seq<Pair>, t: Tokens.Token)
    requires |ps| >= 2 && ps[1].token == t && ps[0].token != t
    requires TopLevel.Delta(ps[0].token) == 0 && TopLevel.Delta(t) == 0
    ensures TopLevel.ToplevelIndexOf(ps, t) == 1
  {
    assert TopLevel.Depth(ps, 1) == 0;
    assert TopLevel.Depth(ps, 2) == 0;
    assert TopLevel.FirstAtTopLevel(ps, t, 1) == 1;
  }

  /** A literal between two literals: `MathExpr` passes over the operators
      it tries before this one, which are absent. */
  lemma {:induction false} LiteralOpLiteralIsMath(src: string, a: Pair, o: Pair, b: Pair, i: nat)
    requires LiteralPair(src, a) && LiteralPair(src, b) && Readable(src, o)
    requires i < |MATH_OPS| && o.token == OpToken(MATH_OPS[i])
    requires AllReadable(src, [a, o, b])
    requires ParseBinary(src, [a, o, b], MATH_OPS[i]).Ok?
    ensures ParseExpr(src, [a, o, b]) == ParseBinary(src, [a, o, b], MATH_OPS[i])
  {
    var ps := [a, o, b];
    LiteralStartNotTop(src, ps);
    forall j | 0 <= j < i ensures ParseBinary(src, ps, MATH_OPS[j]).Err? {
      MathOpTokens(i, j);
      MathOpTokens(j, j);
      BinaryNeedsOperator(src, ps, MATH_OPS[j]);
    }
    MathTriesInOrder(src, ps, i);
  }

  /** An expression of one operator between two literals, for each operator
      of `MathExpr`: the operators tried before it are absent, and it
      splits at its own token. */
  lemma {:induction false} LiteralOpLiteral(src: string, a: Pair, o: Pair, b: Pair, op: BinaryOp)
    requires LiteralPair(src, a) && LiteralPair(src, b) && Readable(src, o)
    requires o.token == OpToken(op) && op in MATH_OPS
    ensures AllReadable(src, [a, o, b])
    ensures ParseLiteral(src, [a]).Ok? && ParseLiteral(src, [b]).Ok?
    ensures ParseExpr(src, [a, o, b]).Ok? && ParseExpr(src, [a, o, b]).value.1 == []
    ensures Erase(ParseExpr(src, [a, o, b]).value.0)
      == Binary(op, Literal(ParseLiteral(src, [a]).value.0), Literal(ParseLiteral(src, [b]).value.0))
  {
    var ps := [a, o, b];
    assert AllReadable(src, ps);
    var i :| 0 <= i < |MATH_OPS| && MATH_OPS[i] == op;
    MathOpTokens(i, i);
    LoneLiteral(src, a);
    LoneLiteral(src, b);
    SecondIsOperator(ps, o.token);
    assert ps[..1] == [a] && ps[2..] == [b];
    var left := Spanned(SpanOf([a], 1), Literal(ParseLiteral(src, [a]).value.0));
    var right := Spanned(SpanOf([b], 1), Literal(ParseLiteral(src, [b]).value.0));
    BinaryJoin(src, ps, op, 1, left, right, []);
    LiteralOpLiteralIsMath(src, a, o, b, i);
    EraseOperands(op, left, right);
  }

  lemma {:induction false} EraseOperands(op: BinaryOp, left: Expr, right: Expr)
    requires left.Spanned? && left.expr.Literal? && right.Spanned? && right.expr.Literal?
    ensures Erase(Binary(op, left, right)) == Binary(op, left.expr, right.expr)
  {
    assert Erase(left) == Erase(left.expr) == left.expr;
    assert Erase(right) == Erase(right.expr) == right.expr;
  }

  /** A literal, an operator of `MathExpr`, and an expression: when none of
      the operators tried before this one occurs after it, the operator
      takes the literal on its left and everything after it on its right.
      This is why `10 - 3 - 2` groups as `10 - (3 - 2)` and `10 - 3 + 2` as
      `10 - (3 + 2)`: the split is at the first top-level operator of the
      first kind that occurs. */
  lemma {:induction false} LiteralThenExpr(src: string, a: Pair, o: Pair, tail: seq<Pair>, i: nat)
    requires LiteralPair(src, a) && Readable(src, o) && AllReadable(src, tail)
    requires |tail| + 2 < TopLevel.USIZE_MAX
    requires i < |MATH_OPS| && o.token == OpToken(MATH_OPS[i])
    requires forall j, k | 0 <= j < i && 0 <= k < |tail| :: tail[k].token != OpToken(MATH_OPS[j])
    requires ParseExpr(src, tail).Ok? && ParseExpr(src, tail).value.1 == []
    ensures AllReadable(src, [a, o] + tail) && ParseLiteral(src, [a]).Ok?
    ensures ParseExpr(src, [a, o] + tail).Ok? && ParseExpr(src, [a, o] + tail).value.1 == []
    ensures Erase(ParseExpr(src, [a, o] + tail).value.0)
      == Binary(MATH_OPS[i], Literal(ParseLiteral(src, [a]).value.0), Erase(ParseExpr(src, tail).value.0))
  {
    var ps := [a, o] + tail;
    var op := MATH_OPS[i];
    assert AllReadable(src, ps) by {
      assert forall p | p in ps :: p == a || p == o || p in tail;
    }
    MathOpTokens(i, i);
    LoneLiteral(src, a);
    SecondIsOperator(ps, o.token);
    assert ps[..1] == [a] && ps[2..] == tail;
    var left := Spanned(SpanOf([a], 1), Literal(ParseLiteral(src, [a]).value.0));
    var right := ParseBoxed(src, tail).value.0;
    BinaryJoin(src, ps, op, 1, left, right, []);
    LiteralStartNotTop(src, ps);
    EarlierOperatorsFail(src, a, o, tail, i);
    MathTriesInOrder(src, ps, i);
    EraseSpannedOperands(op, left, right);
  }

  lemma {:induction false} EarlierOperatorsFail(src: string, a: Pair, o: Pair, tail: seq<Pair>, i: nat)
    requires LiteralPair(src, a) && AllReadable(src, [a, o] + tail)
    requires |tail| + 2 < TopLevel.USIZE_MAX
    requires i < |MATH_OPS| && o.token == OpToken(MATH_OPS[i])
    requires forall j, k | 0 <= j < i && 0 <= k < |tail| :: tail[k].token != OpToken(MATH_OPS[j])
    ensures forall j | 0 <= j < i :: ParseBinary(src, [a, o] + tail, MATH_OPS[j]).Err?
  {
    var ps := [a, o] + tail;
    forall j | 0 <= j < i ensures ParseBinary(src, ps, MATH_OPS[j]).Err? {
      MathOpTokens(i, j);
      MathOpTokens(j, j);
      forall k | 0 <= k < |ps| ensures ps[k].token != OpToken(MATH_OPS[j]) {
        if k >= 2 { assert ps[k] == tail[k - 2]; }
      }
      BinaryNeedsOperator(src, ps, MATH_OPS[j]);
    }
  }

  lemma {:induction false} EraseSpannedOperands(op: BinaryOp, left: Expr, right: Expr)
    requires left.Spanned? && left.expr.Literal? && right.Spanned?
    ensures Erase(Binary(op, left, right)) == Binary(op, left.expr, Erase(right.expr))
  {
    assert Erase(left) == Erase(left.expr) == left.expr;
  }

  /** Without parentheses the nesting level stays at zero. */
  lemma {:induction false} FlatDepth(ps: seq<Pair>, n: nat)
    requires n <= |ps|
    requires forall k | 0 <= k < n :: TopLevel.Delta(ps[k].token) == 0
    ensures TopLevel.Depth(ps, n) == 0
  {
    if n > 0 {
      FlatDepth(ps, n - 1);
    }
  }

  /** A whole expression without parentheses, an operator of `MathExpr`
      and a literal: when neither this operator nor one tried before it
      occurs in the expression, the operator takes the whole expression on
      its left. */
  lemma {:induction false} ExprThenLiteral(src: string, head: seq<Pair>, o: Pair, b: Pair, m: nat)
    requires AllReadable(src, head) && Readable(src, o) && LiteralPair(src, b)
    requires |head| + 2 < TopLevel.USIZE_MAX && |head| > 0 && IsLiteralToken(head[0].token)
    requires m < |MATH_OPS| && o.token == OpToken(MATH_OPS[m])
    requires forall k | 0 <= k < |head| :: TopLevel.Delta(head[k].token) == 0
    requires forall j, k | 0 <= j <= m && 0 <= k < |head| :: head[k].token != OpToken(MATH_OPS[j])
    requires ParseExpr(src, head).Ok? && ParseExpr(src, head).value.1 == []
    ensures AllReadable(src, head + [o, b]) && ParseLiteral(src, [b]).Ok?
    ensures ParseExpr(src, head + [o, b]).Ok? && ParseExpr(src, head + [o, b]).value.1 == []
    ensures Erase(ParseExpr(src, head + [o, b]).value.0)
      == Binary(MATH_OPS[m], Erase(ParseExpr(src, head).value.0), Literal(ParseLiteral(src, [b]).value.0))
  {
    var ps := head + [o, b];
    var op := MATH_OPS[m];
    var n := |head|;
    assert AllReadable(src, ps) by {
      assert forall p | p in ps :: p in head || p == o || p == b;
    }
    MathOpTokens(m, m);
    LoneLiteral(src, b);
    OperatorAfter(ps, n, o.token, m);
    assert ps[..n] == head && ps[n + 1..] == [b];
    var left := ParseBoxed(src, head).value.0;
    var right := Spanned(SpanOf([b], 1), Literal(ParseLiteral(src, [b]).value.0));
    BinaryJoin(src, ps, op, n, left, right, []);
    LiteralStartNotTop(src, ps);
    OperatorsBeforeFail(src, head, o, b, m);
    MathTriesInOrder(src, ps, m);
    EraseSpannedRight(op, left, right);
  }

  /** The first top-level `t` of `head + [o, b]`, when `head` holds no `t`
      and no parenthesis and `o` is a `t`, is `o`. */
  lemma {:induction false} OperatorAfter(ps: seq<Pair>, n: nat, t: Tokens.Token, m: nat)
    requires n < |ps| < TopLevel.USIZE_MAX && ps[n].token == t
    requires m < |MATH_OPS| && t == OpToken(MATH_OPS[m])
    requires forall k | 0 <= k < n :: TopLevel.Delta(ps[k].token) == 0 && ps[k].token != t
    ensures TopLevel.ToplevelIndexOf(ps, t) == n
  {
    MathOpTokens(m, m);
    FlatDepth(ps, n + 1);
    assert TopLevel.AtTopLevel(ps, t, n);
    TopLevel.ToplevelIndexOfIsFirst(ps, t);
  }

  lemma {:induction false} OperatorsBeforeFail(src: string, head: seq<Pair>, o: Pair, b: Pair, m: nat)
    requires LiteralPair(src, b) && AllReadable(src, head + [o, b])
    requires |head| + 2 < TopLevel.USIZE_MAX
    requires m < |MATH_OPS| && o.token == OpToken(MATH_OPS[m])
    requires forall j, k | 0 <= j <= m && 0 <= k < |head| :: head[k].token != OpToken(MATH_OPS[j])
    ensures forall j | 0 <= j < m :: ParseBinary(src, head + [o, b], MATH_OPS[j]).Err?
  {
    var ps := head + [o, b];
    forall j | 0 <= j < m ensures ParseBinary(src, ps, MATH_OPS[j]).Err? {
      MathOpTokens(m, j);
      MathOpTokens(j, j);
      forall k | 0 <= k < |ps| ensures ps[k].token != OpToken(MATH_OPS[j]) {
        if k < |head| { assert ps[k] == head[k]; }
      }
      BinaryNeedsOperator(src, ps, MATH_OPS[j]);
    }
  }

  lemma {:induction false} EraseSpannedRight(op: BinaryOp, left: Expr, right: Expr)
    requires left.Spanned? && right.Spanned? && right.expr.Literal?
    ensures Erase(Binary(op, left, right)) == Binary(op, Erase(left.expr), right.expr)
  {
    assert Erase(right) == Erase(right.expr) == right.expr;
  }

  // ---------------------------------------------------------------------------
  // Worked examples

  /** A pair with an empty span at the end of `src`: enough for tokens whose
      value the parser does not read from the source. */
  function At(src: string, t: Tokens.Token): (p: Pair)
    ensures p.token == t && p.ValidIn(src)
  {
    Pair(t, Span(|src|, |src|))
  }

  function IntLit(v: int): Expr
    requires Int32.MIN <= v <= Int32.MAX
  {
    Literal(Int(v))
  }

  /** `ps` parses as one whole expression which, without its spans, is `e`. */
  predicate ParsesTo(src: string, ps: seq<Pair>, e: Expr) {
    AllReadable(src, ps) && ParseExpr(src, ps).Ok? && ParseExpr(src, ps).value.1 == []
    && Erase(ParseExpr(src, ps).value.0) == e
  }

  /** The pair of an integer literal reads as that literal. */
  lemma {:induction false} IntPair(src: string, v: Int32.i32)
    ensures LiteralPair(src, At(src, Tokens.Int(v)))
    ensures ParseLiteral(src, [At(src, Tokens.Int(v))]).Ok? && ParseLiteral(src, [At(src, Tokens.Int(v))]).value.0 == Int(v)
  {
    OneReadable(src, At(src, Tokens.Int(v)));
  }

  /** `x op y` for integer literals and an operator of `MathExpr`. */
  lemma {:induction false} IntOpInt(src: string, x: Int32.i32, op: BinaryOp, y: Int32.i32)
    requires op in MATH_OPS
    ensures ParsesTo(src, [At(src, Tokens.Int(x)), At(src, OpToken(op)), At(src, Tokens.Int(y))], Binary(op, Literal(Int(x)), Literal(Int(y))))
  {
    IntPair(src, x);
    IntPair(src, y);
    LiteralOpLiteral(src, At(src, Tokens.Int(x)), At(src, OpToken(op)), At(src, Tokens.Int(y)), op);
  }

  /** `x op tail` for an integer literal `x`, an operator of `MathExpr` and
      a whole expression `tail` without the operators tried before `op`. */
  lemma {:induction false} IntThenExpr(src: string, x: Int32.i32, i: nat, tail: seq<Pair>, e: Expr)
    requires |tail| + 2 < TopLevel.USIZE_MAX && i < |MATH_OPS|
    requires forall j, k | 0 <= j < i && 0 <= k < |tail| :: tail[k].token != OpToken(MATH_OPS[j])
    requires ParsesTo(src, tail, e)
    ensures ParsesTo(src, [At(src, Tokens.Int(x)), At(src, OpToken(MATH_OPS[i]))] + tail, Binary(MATH_OPS[i], Literal(Int(x)), e))
  {
    IntPair(src, x);
    OneReadable(src, At(src, OpToken(MATH_OPS[i])));
    LiteralThenExpr(src, At(src, Tokens.Int(x)), At(src, OpToken(MATH_OPS[i])), tail, i);
  }

  /** `head op z` for a whole expression `head` that starts with a literal
      and holds no parenthesis, no `op` and no operator tried before it. */
  lemma {:induction false} ExprThenInt(src: string, head: seq<Pair>, m: nat, z: Int32.i32, e: Expr)
    requires |head| + 2 < TopLevel.USIZE_MAX && |head| > 0 && IsLiteralToken(head[0].token) && m < |MATH_OPS|
    requires forall k | 0 <= k < |head| :: TopLevel.Delta(head[k].token) == 0
    requires forall j, k | 0 <= j <= m && 0 <= k < |head| :: head[k].token != OpToken(MATH_OPS[j])
    requires ParsesTo(src, head, e)
    ensures ParsesTo(src, head + [At(src, OpToken(MATH_OPS[m])), At(src, Tokens.Int(z))], Binary(MATH_OPS[m], e, Literal(Int(z))))
  {
    IntPair(src, z);
    OneReadable(src, At(src, OpToken(MATH_OPS[m])));
    ExprThenLiteral(src, head, At(src, OpToken(MATH_OPS[m])), At(src, Tokens.Int(z)), m);
  }

  /** How `x a y b z` groups, for integer literals and operators `a` and
      `b` of `MathExpr`: to the left exactly when `b` is tried before `a`,
      and to the right otherwise, even when `a` and `b` are the same. */
  lemma {:induction false} TwoOperators(src: string, x: Int32.i32, i: nat, y: Int32.i32, m: nat, z: Int32.i32)
    requires i < |MATH_OPS| && m < |MATH_OPS|
    ensures ParsesTo(src, [At(src, Tokens.Int(x)), At(src, OpToken(MATH_OPS[i])), At(src, Tokens.Int(y)),
                           At(src, OpToken(MATH_OPS[m])), At(src, Tokens.Int(z))],
                     if m < i then Binary(MATH_OPS[m], Binary(MATH_OPS[i], Literal(Int(x)), Literal(Int(y))), Literal(Int(z)))
                     else Binary(MATH_OPS[i], Literal(Int(x)), Binary(MATH_OPS[m], Literal(Int(y)), Literal(Int(z)))))
  {
    var a := At(src, OpToken(MATH_OPS[i]));
    var b := At(src, OpToken(MATH_OPS[m]));
    MathOpTokens(i, i);
    MathOpTokens(m, m);
    if m < i {
      var head := [At(src, Tokens.Int(x)), a, At(src, Tokens.Int(y))];
      IntOpInt(src, x, MATH_OPS[i], y);
      forall j, k | 0 <= j <= m && 0 <= k < |head| ensures head[k].token != OpToken(MATH_OPS[j]) {
        MathOpTokens(i, j);
        MathOpTokens(j, j);
      }
      ExprThenInt(src, head, m, z, Binary(MATH_OPS[i], Literal(Int(x)), Literal(Int(y))));
      assert head + [b, At(src, Tokens.Int(z))] == [At(src, Tokens.Int(x)), a, At(src, Tokens.Int(y)), b, At(src, Tokens.Int(z))];
    } else {
      var tail := [At(src, Tokens.Int(y)), b, At(src, Tokens.Int(z))];
      IntOpInt(src, y, MATH_OPS[m], z);
      forall j, k | 0 <= j < i && 0 <= k < |tail| ensures tail[k].token != OpToken(MATH_OPS[j]) {
        MathOpTokens(m, j);
        MathOpTokens(j, j);
      }
      IntThenExpr(src, x, i, tail, Binary(MATH_OPS[m], Literal(Int(y)), Literal(Int(z))));
      assert [At(src, Tokens.Int(x)), a] + tail == [At(src, Tokens.Int(x)), a, At(src, Tokens.Int(y)), b, At(src, Tokens.Int(z))];
    }
  }

  /** `10 - 3 - 2` parses as `10 - (3 - 2)`, since the split is at the first
      `-`; evaluated, it gives 9 rather than 5. */
  lemma SubGroupsRight(src: string)
    ensures ParsesTo(src, [At(src, Tokens.Int(10)), At(src, Tokens.Symbol('-')), At(src, Tokens.Int(3)), At(src, Tokens.Symbol('-')), At(src, Tokens.Int(2))],
                     Binary(Sub, IntLit(10), Binary(Sub, IntLit(3), IntLit(2))))
  {
    assert MATH_OPS[1] == Sub && OpToken(Sub) == Tokens.Symbol('-');
    TwoOperators(src, 10, 1, 3, 1, 2);
  }

  /** `10 - 3 + 2` parses as `10 - (3 + 2)`: `Sub` is tried before `Add`,
      so the `-` splits first wherever it stands. */
  lemma SubBeforeAdd(src: string)
    ensures ParsesTo(src, [At(src, Tokens.Int(10)), At(src, Tokens.Symbol('-')), At(src, Tokens.Int(3)), At(src, Tokens.Symbol('+')), At(src, Tokens.Int(2))],
                     Binary(Sub, IntLit(10), Binary(Add, IntLit(3), IntLit(2))))
  {
    assert MATH_OPS[1] == Sub && OpToken(Sub) == Tokens.Symbol('-');
    assert MATH_OPS[2] == Add && OpToken(Add) == Tokens.Symbol('+');
    TwoOperators(src, 10, 1, 3, 2, 2);
  }

  /** `5 + 3 * 4` parses as `5 + (3 * 4)`. */
  lemma MulBindsTighter(src: string)
    ensures ParsesTo(src, [At(src, Tokens.Int(5)), At(src, Tokens.Symbol('+')), At(src, Tokens.Int(3)), At(src, Tokens.Symbol('*')), At(src, Tokens.Int(4))],
                     Binary(Add, IntLit(5), Binary(Mul, IntLit(3), IntLit(4))))
  {
    assert MATH_OPS[2] == Add && OpToken(Add) == Tokens.Symbol('+');
    assert MATH_OPS[3] == Mul && OpToken(Mul) == Tokens.Symbol('*');
    TwoOperators(src, 5, 2, 3, 3, 4);
  }

  /** `30 / 5 * 5` parses as `(30 / 5) * 5`: `Mul` is tried before `Div`. */
  lemma DivThenMul(src: string)
    ensures ParsesTo(src, [At(src, Tokens.Int(30)), At(src, Tokens.Symbol('/')), At(src, Tokens.Int(5)), At(src, Tokens.Symbol('*')), At(src, Tokens.Int(5))],
                     Binary(Mul, Binary(Div, IntLit(30), IntLit(5)), IntLit(5)))
  {
    assert MATH_OPS[4] == Div && OpToken(Div) == Tokens.Symbol('/');
    assert MATH_OPS[3] == Mul && OpToken(Mul) == Tokens.Symbol('*');
    TwoOperators(src, 30, 4, 5, 3, 5);
  }
}
