/** Worked examples of the parser over pairs written out as the lexer
    would make them for short sources: the range `0..(len - 1)` of `src/parser/expr/math_expr.rs`,
    and the type `Array<Int>` and the function
    `fun test(array: Array<Int>): Int {}` of `src/parser/mod.rs`. Each pair
    carries the span of its lexeme, so identifiers are named by their text. */
module ParserExamples {
  import opened Wrappers
  import opened Lexer
  import opened Ast
  import opened ParserHelpers
  import opened Parser
  import opened ParserProps
  import Tokens
  import TopLevel

  // ---------------------------------------------------------------------------
  // Identifiers

  /** A lone identifier is no `TopExpr`, no `MathExpr` and no
      `ComparisonExpr`. */
  lemma {:induction false} LoneIdentNotTopMathComparison(src: string, p: Pair)
    requires p.token == Tokens.Ident && p.ValidIn(src)
    ensures AllReadable(src, [p])
    ensures ParseTop(src, [p]).Err? && ParseMath(src, [p]).Err? && ParseComparison(src, [p]).Err?
  {
    var ps := [p];
    OneReadable(src, p);
    assert ParseTop(src, ps).Err?;
    forall op ensures ParseBinary(src, ps, op) == Err(UnexpectedEndOfInput) {
      BinaryNeedsOperator(src, ps, op);
    }
  }

  /** A lone identifier is the `Ident` named by its text. */
  lemma {:induction false} LoneIdent(src: string, p: Pair)
    requires p.token == Tokens.Ident && p.ValidIn(src)
    ensures AllReadable(src, [p])
    ensures ParsesTo(src, [p], Ident(p.Str(src)))
  {
    LoneIdentNotTopMathComparison(src, p);
    assert ParseGetByIndex(src, [p]).Err?;
  }

  /** `name - literal`: an identifier, a minus and a literal make a `Sub`
      whose left operand is the identifier. */
  lemma {:induction false} IdentMinusLiteral(src: string, a: Pair, o: Pair, b: Pair)
    requires a.token == Tokens.Ident && a.ValidIn(src) && o.token == Tokens.Symbol('-') && o.ValidIn(src)
    requires LiteralPair(src, b)
    ensures AllReadable(src, [a, o, b]) && ParseLiteral(src, [b]).Ok?
    ensures ParsesTo(src, [a, o, b], Binary(Sub, Ident(a.Str(src)), Literal(ParseLiteral(src, [b]).value.0)))
  {
    var ps := [a, o, b];
    LoneLiteral(src, b);
    var left := Spanned(SpanOf([a], 1), Ident(a.Str(src)));
    var right := Spanned(SpanOf([b], 1), Literal(ParseLiteral(src, [b]).value.0));
    IdentMinusLiteralSplits(src, a, o, b);
    IdentThenOperatorNotTop(src, ps);
    assert forall i | 0 <= i < |ps| :: ps[i].token != Tokens.RangeOp;
    SubIsFirstMath(src, ps);
    ExprIsMath(src, ps);
    EraseLeaves(Sub, left, right);
  }

  /** Without its spans, an operator between two leaves is the operator
      between the leaves. */
  lemma {:induction false} EraseLeaves(op: BinaryOp, left: Expr, right: Expr)
    requires left.Spanned? && (left.expr.Ident? || left.expr.Literal?)
    requires right.Spanned? && (right.expr.Ident? || right.expr.Literal?)
    ensures Erase(Binary(op, left, right)) == Binary(op, left.expr, right.expr)
  {
    assert Erase(left) == Erase(left.expr) == left.expr;
    assert Erase(right) == Erase(right.expr) == right.expr;
  }

  /** A lone identifier, boxed: spanned by its own pair. */
  lemma {:induction false} IdentBoxed(src: string, a: Pair)
    requires a.token == Tokens.Ident && a.ValidIn(src)
    ensures AllReadable(src, [a])
    ensures ParseBoxed(src, [a]) == Ok((Spanned(SpanOf([a], 1), Ident(a.Str(src))), []))
  {
    LoneIdent(src, a);
  }

  /** A lone literal, boxed: spanned by its own pair. */
  lemma {:induction false} LiteralBoxed(src: string, b: Pair)
    requires LiteralPair(src, b)
    ensures AllReadable(src, [b]) && ParseLiteral(src, [b]).Ok?
    ensures ParseBoxed(src, [b]) == Ok((Spanned(SpanOf([b], 1), Literal(ParseLiteral(src, [b]).value.0)), []))
  {
    LoneLiteral(src, b);
  }

  /** `name - literal` splits at its `-` into the boxed identifier and the
      boxed literal. */
  lemma {:induction false} IdentMinusLiteralSplits(src: string, a: Pair, o: Pair, b: Pair)
    requires a.token == Tokens.Ident && a.ValidIn(src) && o.token == Tokens.Symbol('-') && o.ValidIn(src)
    requires LiteralPair(src, b)
    ensures AllReadable(src, [a, o, b]) && ParseLiteral(src, [b]).Ok?
    ensures ParseBinary(src, [a, o, b], Sub)
      == Ok((Binary(Sub, Spanned(SpanOf([a], 1), Ident(a.Str(src))), Spanned(SpanOf([b], 1), Literal(ParseLiteral(src, [b]).value.0))), []))
  {
    var ps := [a, o, b];
    assert AllReadable(src, ps);
    IdentBoxed(src, a);
    LiteralBoxed(src, b);
    SecondIsOperator(ps, o.token);
    assert ps[..1] == [a] && ps[2..] == [b];
    BinaryJoin(src, ps, Sub, 1, ParseBoxed(src, [a]).value.0, ParseBoxed(src, [b]).value.0, []);
  }

  /** When `TopExpr` fails and `MathExpr` succeeds, `Expr` is `MathExpr`. */
  lemma {:induction false} ExprIsMath(src: string, ps: seq<Pair>)
    requires AllReadable(src, ps) && |ps| > 0
    requires ParseTop(src, ps).Err? && ParseMath(src, ps).Ok?
    ensures ParseExpr(src, ps) == ParseMath(src, ps)
  {
  }

  /** An identifier followed by anything but `=`, `(` or `[` is no
      `TopExpr`: neither an assignment, nor a call, nor an indexed
      assignment. */
  lemma {:induction false} IdentThenOperatorNotTop(src: string, ps: seq<Pair>)
    requires AllReadable(src, ps) && |ps| >= 2 && ps[0].token == Tokens.Ident
    requires ps[1].token !in {Tokens.Symbol('='), Tokens.Symbol('('), Tokens.Symbol('[')}
    ensures ParseTop(src, ps).Err? && ParseNeg(src, ps).Err?
  {
    assert ParseSet(src, ps).Err?;
    assert ParseCall(src, ps).Err?;
    assert ParseGetByIndex(src, ps).Err?;
    assert ParseSetByIndex(src, ps).Err?;
  }

  /** With no `..` and a `Sub` that parses, `MathExpr` is that `Sub`. */
  lemma {:induction false} SubIsFirstMath(src: string, ps: seq<Pair>)
    requires AllReadable(src, ps) && |ps| > 0 && |ps| < TopLevel.USIZE_MAX
    requires forall i | 0 <= i < |ps| :: ps[i].token != Tokens.RangeOp
    requires ParseNeg(src, ps).Err? && ParseBinary(src, ps, Sub).Ok?
    ensures ParseMath(src, ps) == ParseBinary(src, ps, Sub)
  {
    assert MATH_OPS[0] == Range && MATH_OPS[1] == Sub;
    BinaryNeedsOperator(src, ps, Range);
    MathTriesInOrder(src, ps, 1);
  }

  // ---------------------------------------------------------------------------
  // `0..(len - 1)`

  const RANGE_SOURCE: string := "0..(len - 1)"

  /** The pairs of `0..(len - 1)`. */
  const RANGE_PAIRS: seq<Pair> := [
    Pair(Tokens.Int(0), Span(0, 1)), Pair(Tokens.RangeOp, Span(1, 3)),
    Pair(Tokens.Symbol('('), Span(3, 4)), Pair(Tokens.Ident, Span(4, 7)),
    Pair(Tokens.Symbol('-'), Span(8, 9)), Pair(Tokens.Int(1), Span(10, 11)),
    Pair(Tokens.Symbol(')'), Span(11, 12))]

  /** `len - 1`, the pairs inside the parentheses. */
  lemma LenMinusOne()
    ensures ParsesTo(RANGE_SOURCE, RANGE_PAIRS[3..6], Binary(Sub, Ident("len"), IntLit(1)))
  {
    var ps := RANGE_PAIRS;
    assert ps[3].Str(RANGE_SOURCE) == "len";
    IntPair(RANGE_SOURCE, 1);
    assert LiteralPair(RANGE_SOURCE, ps[5]);
    IdentMinusLiteral(RANGE_SOURCE, ps[3], ps[4], ps[5]);
    assert RANGE_PAIRS[3..6] == [ps[3], ps[4], ps[5]];
  }

  /** The `)` that closes the `(` of `(len - 1)` is its last pair. */
  lemma {:induction false} RangeParenCloses()
    ensures TopLevel.MatchingParen(RANGE_PAIRS[3..]) == 3
  {
    var inner := RANGE_PAIRS[3..];
    assert TopLevel.Depth(inner, 1) == 0 && TopLevel.Depth(inner, 2) == 0;
    assert TopLevel.Depth(inner, 3) == 0 && TopLevel.Depth(inner, 4) == -1;
    assert TopLevel.Closes(inner, 3);
    assert !TopLevel.Closes(inner, 2) && !TopLevel.Closes(inner, 1) && !TopLevel.Closes(inner, 0);
    assert TopLevel.FirstClosing(inner, 2) == 3;
    assert TopLevel.FirstClosing(inner, 1) == 3;
  }

  /** The `-` of `(len - 1)` is inside the parentheses: not at top level. */
  lemma {:induction false} RangeMinusNested()
    ensures TopLevel.ToplevelIndexOf(RANGE_PAIRS[2..], Tokens.Symbol('-')) == TopLevel.USIZE_MAX
  {
    var ps := RANGE_PAIRS[2..];
    var t := Tokens.Symbol('-');
    assert TopLevel.Depth(ps, 1) == 1 && TopLevel.Depth(ps, 2) == 1 && TopLevel.Depth(ps, 3) == 1;
    assert TopLevel.Depth(ps, 4) == 1 && TopLevel.Depth(ps, 5) == 0;
    assert TopLevel.FirstAtTopLevel(ps, t, 5) == TopLevel.USIZE_MAX;
    assert TopLevel.FirstAtTopLevel(ps, t, 4) == TopLevel.USIZE_MAX;
    assert TopLevel.FirstAtTopLevel(ps, t, 3) == TopLevel.USIZE_MAX;
    assert TopLevel.FirstAtTopLevel(ps, t, 2) == TopLevel.USIZE_MAX;
    assert TopLevel.FirstAtTopLevel(ps, t, 1) == TopLevel.USIZE_MAX;
  }

  /** No operator of `MathExpr` is at the top level of `(len - 1)`. */
  lemma {:induction false} RangeParensNoOperator()
    ensures forall op | op in MATH_OPS :: TopLevel.ToplevelIndexOf(RANGE_PAIRS[2..], OpToken(op)) >= |RANGE_PAIRS[2..]|
  {
    var ps := RANGE_PAIRS[2..];
    RangeMinusNested();
    forall op | op in MATH_OPS && op != Sub
      ensures TopLevel.ToplevelIndexOf(ps, OpToken(op)) >= |ps|
    {
      TopLevel.ToplevelIndexOfIsFirst(ps, OpToken(op));
    }
  }

  /** `(len - 1)` as a `Parens`: the pairs up to the matching `)` are
      `len - 1`, and nothing follows. */
  lemma {:induction false} RangeParens()
    ensures AllReadable(RANGE_SOURCE, RANGE_PAIRS[2..]) && AllReadable(RANGE_SOURCE, RANGE_PAIRS[3..6])
    ensures ParseBoxed(RANGE_SOURCE, RANGE_PAIRS[3..6]).Ok?
    ensures ParseParens(RANGE_SOURCE, RANGE_PAIRS[2..]) == Ok((Parens(ParseBoxed(RANGE_SOURCE, RANGE_PAIRS[3..6]).value.0), []))
  {
    var src := RANGE_SOURCE;
    var ps := RANGE_PAIRS[2..];
    assert AllReadable(src, ps);
    LenMinusOne();
    RangeParenCloses();
    var inner := ps[1..];
    assert inner == RANGE_PAIRS[3..] && inner[..3] == RANGE_PAIRS[3..6] && inner[3..] == RANGE_PAIRS[6..];
  }

  /** `(len - 1)` holds no top-level operator of `MathExpr` and is no
      `TopExpr`: `Expr` parses it as `Parens`. */
  lemma {:induction false} RangeParensIsExpr()
    ensures AllReadable(RANGE_SOURCE, RANGE_PAIRS[2..])
    ensures ParseExpr(RANGE_SOURCE, RANGE_PAIRS[2..]) == ParseParens(RANGE_SOURCE, RANGE_PAIRS[2..])
  {
    RangeParens();
    RangeParensNotTop();
    RangeParensNoOperator();
    ExprIsParens(RANGE_SOURCE, RANGE_PAIRS[2..]);
  }

  /** `(len - 1)` is no `TopExpr`. */
  lemma {:induction false} RangeParensNotTop()
    ensures AllReadable(RANGE_SOURCE, RANGE_PAIRS[2..]) && ParseTop(RANGE_SOURCE, RANGE_PAIRS[2..]).Err?
  {
    assert AllReadable(RANGE_SOURCE, RANGE_PAIRS[2..]);
  }

  /** A slice that starts with `(`, is no `TopExpr` and holds no top-level
      operator of `MathExpr` is, when it parses as `Parens`, that `Parens`. */
  lemma {:induction false} ExprIsParens(src: string, ps: seq<Pair>)
    requires AllReadable(src, ps) && 0 < |ps| < TopLevel.USIZE_MAX && ps[0].token == Tokens.Symbol('(')
    requires forall op | op in MATH_OPS :: TopLevel.ToplevelIndexOf(ps, OpToken(op)) >= |ps|
    requires ParseTop(src, ps).Err? && ParseParens(src, ps).Ok?
    ensures ParseExpr(src, ps) == ParseParens(src, ps)
  {
    MathIsParens(src, ps);
    ExprIsMath(src, ps);
  }

  /** `(len - 1)`: the `-` is inside the parentheses, so no binary operator
      splits it and it is a `Parens`. */
  lemma {:induction false} ParenthesisedLenMinusOne()
    ensures ParsesTo(RANGE_SOURCE, RANGE_PAIRS[2..], Parens(Binary(Sub, Ident("len"), IntLit(1))))
  {
    LenMinusOne();
    RangeParens();
    RangeParensIsExpr();
    BoxedErases(RANGE_SOURCE, RANGE_PAIRS[3..6]);
  }

  /** `BoxedExpr` wraps what `Expr` parses, so without spans the two agree;
      wrapped in parentheses, the erased expression is wrapped too. */
  lemma {:induction false} BoxedErases(src: string, ps: seq<Pair>)
    requires AllReadable(src, ps) && ParseExpr(src, ps).Ok?
    ensures ParseBoxed(src, ps).Ok? && ParseBoxed(src, ps).value.1 == ParseExpr(src, ps).value.1
    ensures Erase(ParseBoxed(src, ps).value.0) == Erase(ParseExpr(src, ps).value.0)
    ensures Erase(Parens(ParseBoxed(src, ps).value.0)) == Parens(Erase(ParseExpr(src, ps).value.0))
  {
    var (e, rest) := ParseExpr(src, ps).value;
    assert ParseBoxed(src, ps) == Ok((Spanned(SpanOf(ps, |ps| - |rest|), e), rest));
  }

  /** A slice that starts with `(` and holds no top-level operator of
      `MathExpr` is a `MathExpr` only as a `Parens`. */
  lemma {:induction false} MathIsParens(src: string, ps: seq<Pair>)
    requires AllReadable(src, ps) && 0 < |ps| < TopLevel.USIZE_MAX && ps[0].token == Tokens.Symbol('(')
    requires forall op | op in MATH_OPS :: TopLevel.ToplevelIndexOf(ps, OpToken(op)) >= |ps|
    ensures ParseMath(src, ps) == ParseParens(src, ps) || (ParseParens(src, ps).Err? && ParseMath(src, ps).Err?)
  {
    assert ParseNeg(src, ps).Err?;
    assert Range in MATH_OPS && Sub in MATH_OPS && Add in MATH_OPS && Mul in MATH_OPS && Div in MATH_OPS;
  }

  /** `0..(len - 1)` is a `Range` from the literal 0 to the parenthesised
      `len - 1`, as `src/parser/expr/math_expr.rs` expects. */
  lemma {:induction false} RangeExample()
    ensures ParsesTo(RANGE_SOURCE, RANGE_PAIRS, Binary(Range, IntLit(0), Parens(Binary(Sub, Ident("len"), IntLit(1)))))
  {
    var src := RANGE_SOURCE;
    var ps := RANGE_PAIRS;
    IntPair(src, 0);
    assert LiteralPair(src, ps[0]) && Readable(src, ps[1]);
    ParenthesisedLenMinusOne();
    assert MATH_OPS[0] == Range && ps[1].token == OpToken(Range);
    LiteralThenExpr(src, ps[0], ps[1], ps[2..], 0);
    assert [ps[0], ps[1]] + ps[2..] == ps;
  }

  // ---------------------------------------------------------------------------
  // Types and functions

  /** A name not followed by `<` is a `Simple` type. */
  lemma {:induction false} SimpleType(src: string, ps: seq<Pair>)
    requires AllReadable(src, ps) && |ps| > 0 && ps[0].token == Tokens.Ident && ps[0].ValidIn(src)
    requires |ps| < 2 || ps[1].token != Tokens.Symbol('<')
    ensures ParseType(src, ps) == Ok((Simple(ps[0].Str(src)), ps[1..]))
  {
  }

  /** `Name<Param>`: a name, `<`, a simple type and `>` is a `Generic`
      type of one parameter. */
  lemma {:induction false} GenericOfOne(src: string, ps: seq<Pair>)
    requires AllReadable(src, ps) && |ps| >= 4
    requires ps[0].token == Tokens.Ident && ps[1].token == Tokens.Symbol('<')
    requires ps[2].token == Tokens.Ident && ps[3].token == Tokens.Symbol('>')
    requires ps[0].ValidIn(src) && ps[2].ValidIn(src)
    ensures ParseType(src, ps) == Ok((Generic(ps[0].Str(src), [Simple(ps[2].Str(src))]), ps[4..]))
  {
    var rest1 := ps[1..];
    ReadableDrop(src, ps, 1);
    ReadableDrop(src, ps, 2);
    ReadableDrop(src, ps, 3);
    ReadableDrop(src, ps, 4);
    assert ps[2..][1..] == ps[3..] && ps[3..][1..] == ps[4..];
    SimpleType(src, ps[2..]);
    var items := [TypeItem(Simple(ps[2].Str(src)))];
    assert ParseElement(src, ps[2..], TypeParam) == Ok((items[0], ps[3..]));
    assert SequenceLoop(src, ps[3..], Tokens.Symbol('>'), Tokens.Symbol(','), TypeParam, items) == Ok((items, ps[4..]));
    assert SequenceLoop(src, ps[2..], Tokens.Symbol('>'), Tokens.Symbol(','), TypeParam, []) == Ok((items, ps[4..]));
    assert ExpectSequence(src, rest1, Tokens.Symbol('<'), Tokens.Symbol('>'), Tokens.Symbol(','), TypeParam) == Ok((items, ps[4..]));
    assert TypesOf(items) == [Simple(ps[2].Str(src))];
  }

  const ARRAY_SOURCE: string := "Array<Int>"

  /** The pairs of `Array<Int>`. */
  const ARRAY_PAIRS: seq<Pair> := [
    Pair(Tokens.Ident, Span(0, 5)), Pair(Tokens.Symbol('<'), Span(5, 6)),
    Pair(Tokens.Ident, Span(6, 9)), Pair(Tokens.Symbol('>'), Span(9, 10))]

  /** `Array<Int>` is the `Generic` type `Array` of the one parameter `Int`,
      as `src/parser/mod.rs` expects. */
  lemma {:induction false} ArrayOfIntExample()
    ensures AllReadable(ARRAY_SOURCE, ARRAY_PAIRS)
    ensures ParseType(ARRAY_SOURCE, ARRAY_PAIRS) == Ok((Generic("Array", [Simple("Int")]), []))
  {
    assert AllReadable(ARRAY_SOURCE, ARRAY_PAIRS);
    assert ARRAY_SOURCE[..5] == "Array" && ARRAY_SOURCE[6..9] == "Int";
    GenericOfOne(ARRAY_SOURCE, ARRAY_PAIRS);
  }

  /** `fun test(array: Array<Int>): Int {}`, written in pieces so that the
      verifier can find the text of each name. */
  const FUN_SOURCE: string := "fun " + "test" + "(" + "array" + ": " + "Array" + "<" + "Int" + ">): " + "Int" + " {}"

  /** `fun test`. */
  const FUN_HEAD: seq<Pair> := [Pair(Tokens.Fun, Span(0, 3)), Pair(Tokens.Ident, Span(4, 8))]

  /** `(array: Array<Int>)`. */
  const FUN_ARGS: seq<Pair> := [
    Pair(Tokens.Symbol('('), Span(8, 9)), Pair(Tokens.Ident, Span(9, 14)),
    Pair(Tokens.Symbol(':'), Span(14, 15)), Pair(Tokens.Ident, Span(16, 21)),
    Pair(Tokens.Symbol('<'), Span(21, 22)), Pair(Tokens.Ident, Span(22, 25)),
    Pair(Tokens.Symbol('>'), Span(25, 26)), Pair(Tokens.Symbol(')'), Span(26, 27))]

  /** `: Int {}`. */
  const FUN_TAIL: seq<Pair> := [
    Pair(Tokens.Symbol(':'), Span(27, 28)), Pair(Tokens.Ident, Span(29, 32)),
    Pair(Tokens.Symbol('{'), Span(33, 34)), Pair(Tokens.Symbol('}'), Span(34, 35))]

  /** The pairs of `fun test(array: Array<Int>): Int {}`. */
  const FUN_PAIRS: seq<Pair> := FUN_HEAD + (FUN_ARGS + FUN_TAIL)

  /** The names written in `fun test`. */
  lemma {:induction false} HeadNames()
    ensures AllReadable(FUN_SOURCE, FUN_HEAD) && FUN_HEAD[1].Str(FUN_SOURCE) == "test"
  {
  }

  /** The names written in `(array: Array<Int>)`. */
  lemma {:induction false} ArgsNames()
    ensures AllReadable(FUN_SOURCE, FUN_ARGS)
    ensures FUN_ARGS[1].Str(FUN_SOURCE) == "array" && FUN_ARGS[3].Str(FUN_SOURCE) == "Array"
    ensures FUN_ARGS[5].Str(FUN_SOURCE) == "Int"
  {
  }

  /** The name written in `: Int {}`. */
  lemma {:induction false} TailNames()
    ensures AllReadable(FUN_SOURCE, FUN_TAIL) && FUN_TAIL[1].Str(FUN_SOURCE) == "Int"
  {
  }

  /** Pairs that are each readable are readable together. */
  lemma {:induction false} ReadableJoin(src: string, a: seq<Pair>, b: seq<Pair>)
    requires AllReadable(src, a) && AllReadable(src, b)
    ensures AllReadable(src, a + b)
  {
  }

  /** `name: Type<Param>`: a function argument whose type is generic of
      one simple parameter. */
  lemma {:induction false} GenericArgument(src: string, ps: seq<Pair>)
    requires AllReadable(src, ps) && |ps| >= 6
    requires ps[0].token == Tokens.Ident && ps[1].token == Tokens.Symbol(':')
    requires ps[2].token == Tokens.Ident && ps[3].token == Tokens.Symbol('<')
    requires ps[4].token == Tokens.Ident && ps[5].token == Tokens.Symbol('>')
    requires ps[0].ValidIn(src) && ps[2].ValidIn(src) && ps[4].ValidIn(src)
    ensures ParseElement(src, ps, FunArg)
      == Ok((ArgItem(ps[0].Str(src), Generic(ps[2].Str(src), [Simple(ps[4].Str(src))])), ps[6..]))
  {
    ReadableDrop(src, ps, 2);
    GenericOfOne(src, ps[2..]);
    assert ps[2..][4..] == ps[6..] && ps[1..][1..] == ps[2..];
  }

  /** `(name: Type<Param>)`: an argument list of one such argument. */
  lemma {:induction false} OneGenericArgument(src: string, ps: seq<Pair>)
    requires AllReadable(src, ps) && |ps| >= 8
    requires ps[0].token == Tokens.Symbol('(')
    requires ps[1].token == Tokens.Ident && ps[2].token == Tokens.Symbol(':')
    requires ps[3].token == Tokens.Ident && ps[4].token == Tokens.Symbol('<')
    requires ps[5].token == Tokens.Ident && ps[6].token == Tokens.Symbol('>')
    requires ps[7].token == Tokens.Symbol(')')
    requires ps[1].ValidIn(src) && ps[3].ValidIn(src) && ps[5].ValidIn(src)
    ensures ExpectSequence(src, ps, Tokens.Symbol('('), Tokens.Symbol(')'), Tokens.Symbol(','), FunArg)
      == Ok(([ArgItem(ps[1].Str(src), Generic(ps[3].Str(src), [Simple(ps[5].Str(src))]))], ps[8..]))
  {
    ReadableDrop(src, ps, 1);
    ReadableDrop(src, ps, 7);
    GenericArgument(src, ps[1..]);
    assert ps[1..][6..] == ps[7..] && ps[7..][1..] == ps[8..];
    var item := ArgItem(ps[1].Str(src), Generic(ps[3].Str(src), [Simple(ps[5].Str(src))]));
    assert SequenceLoop(src, ps[7..], Tokens.Symbol(')'), Tokens.Symbol(','), FunArg, [item]) == Ok(([item], ps[8..]));
    assert ExpectToken(src, ps[1..], Tokens.Symbol(')')).error.UnexpectedToken?;
    assert ExpectToken(src, ps[7..], Tokens.Symbol(',')).error.UnexpectedToken?;
    assert SequenceLoop(src, ps[1..], Tokens.Symbol(')'), Tokens.Symbol(','), FunArg, []) == Ok(([item], ps[8..]));
  }

  /** `: Type {}`: a simple return type and an empty body, with nothing
      after it. */
  lemma {:induction false} SimpleReturnEmptyBody(src: string, ps: seq<Pair>)
    requires AllReadable(src, ps) && |ps| == 4
    requires ps[0].token == Tokens.Symbol(':') && ps[1].token == Tokens.Ident
    requires ps[2].token == Tokens.Symbol('{') && ps[3].token == Tokens.Symbol('}')
    requires ps[1].ValidIn(src)
    ensures ParseRetType(src, ps) == Ok((Some(Simple(ps[1].Str(src))), ps[2..]))
    ensures AllReadable(src, ps[2..]) && ExpectBody(src, ps[2..]) == Ok(([], []))
  {
    ReadableDrop(src, ps, 1);
    ReadableDrop(src, ps, 2);
    ReadableDrop(src, ps, 3);
    assert ps[1..][1..] == ps[2..] && ps[2..][1..] == ps[3..] && ps[3..][1..] == [];
    SimpleType(src, ps[1..]);
    assert BodyLoop(src, ps[3..], []) == Ok(([], []));
  }

  /** `fun name`, then an argument list that parses to `args`, leaving
      `rest3`, a return type that parses to `retType`, leaving `rest4`, and a
      body that parses to `body`, leaving `rest5`. */
  predicate FunParts(src: string, head: seq<Pair>, rest: seq<Pair>, args: seq<Item>, rest3: seq<Pair>,
                     retType: Option<Type>, rest4: seq<Pair>, body: seq<Expr>, rest5: seq<Pair>)
  {
    && AllReadable(src, head) && |head| == 2
    && head[0].token == Tokens.Fun && head[1].token == Tokens.Ident && head[1].ValidIn(src)
    && AllReadable(src, rest)
    && ExpectSequence(src, rest, Tokens.Symbol('('), Tokens.Symbol(')'), Tokens.Symbol(','), FunArg) == Ok((args, rest3))
    && AllReadable(src, rest3) && ParseRetType(src, rest3) == Ok((retType, rest4))
    && AllReadable(src, rest4) && ExpectBody(src, rest4) == Ok((body, rest5))
  }

  /** A function declaration whose pieces each parse: the function they
      make, named by the identifier's text. */
  lemma {:induction false} FunOfParts(src: string, head: seq<Pair>, rest: seq<Pair>, args: seq<Item>, rest3: seq<Pair>,
                                      retType: Option<Type>, rest4: seq<Pair>, body: seq<Expr>, rest5: seq<Pair>)
    requires FunParts(src, head, rest, args, rest3, retType, rest4, body, rest5)
    ensures AllReadable(src, head + rest)
    ensures ParseFun(src, head + rest) == Ok((Fun(head[1].Str(src), ArgsOf(args), retType, body), rest5))
  {
    var ps := head + rest;
    ReadableJoin(src, head, rest);
    ReadableDrop(src, ps, 1);
    assert ps[1..][1..] == rest && ps[1] == head[1];
  }

  /** The pieces of `fun test(array: Array<Int>): Int {}` each parse. */
  lemma {:induction false} FunExampleParts()
    ensures FUN_HEAD[1].Str(FUN_SOURCE) == "test"
    ensures FunParts(FUN_SOURCE, FUN_HEAD, FUN_ARGS + FUN_TAIL, [ArgItem("array", Generic("Array", [Simple("Int")]))],
                     FUN_TAIL, Some(Simple("Int")), FUN_TAIL[2..], [], [])
  {
    HeadNames();
    ArgsNames();
    TailNames();
    ReadableJoin(FUN_SOURCE, FUN_ARGS, FUN_TAIL);
    OneGenericArgument(FUN_SOURCE, FUN_ARGS + FUN_TAIL);
    assert (FUN_ARGS + FUN_TAIL)[8..] == FUN_TAIL;
    SimpleReturnEmptyBody(FUN_SOURCE, FUN_TAIL);
  }

  /** The name and type of a lone argument. */
  lemma {:induction false} OneArgument(item: Item)
    requires item.ArgItem?
    ensures ArgsOf([item]) == [(item.argName, item.argType)]
  {
  }

  /** `fun test(array: Array<Int>): Int {}` declares `test`, of one argument
      `array` of type `Array<Int>`, returning `Int`, with an empty body, as
      `src/parser/mod.rs` expects. */
  lemma {:induction false} FunExample()
    ensures AllReadable(FUN_SOURCE, FUN_PAIRS)
    ensures ParseFun(FUN_SOURCE, FUN_PAIRS)
      == Ok((Fun("test", [("array", Generic("Array", [Simple("Int")]))], Some(Simple("Int")), []), []))
  {
    var item := ArgItem("array", Generic("Array", [Simple("Int")]));
    FunExampleParts();
    FunOfParts(FUN_SOURCE, FUN_HEAD, FUN_ARGS + FUN_TAIL, [item], FUN_TAIL, Some(Simple("Int")), FUN_TAIL[2..], [], []);
    OneArgument(item);
  }
}
