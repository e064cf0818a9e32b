/** The recursive-descent parser: every `try_parse` of the program as a
    function from a slice of pairs to a node and the rest of the slice, or a
    `ParseError`. Alternatives are tried in the program's order and the first
    that succeeds wins; a failed alternative consumes nothing, since each
    parser only ever returns a rest of its own input.

    All the parsers call one another, so they form one recursive group. Each
    one either calls another on a shorter slice or calls one of lower rank
    (the second component of its `decreases`) on the same slice. The element
    parser that `expect_sequence` takes as a closure is given here by the
    kind of element it parses (`ElementKind`). */
module Parser {
  import opened Wrappers
  import opened Lexer
  import opened Ast
  import opened ParserHelpers
  import Tokens
  import Literals
  import TopLevel

  // ---------------------------------------------------------------------------
  // Leaves: identifiers and literals

  /** `Ident::try_parse`: an `Ident` token, named by its source text. */
  function ParseIdent(src: string, ps: seq<Pair>): (r: Parsed<string>)
    requires AllReadable(src, ps)
    ensures r.Ok? <==> |ps| > 0 && ps[0].token == Tokens.Ident
    ensures r.Ok? ==> assert ps[0] in ps; r.value == (ps[0].Str(src), ps[1..])
    ensures Consumed(src, ps, r)
  {
    var (pair, rest) :- ExpectToken(src, ps, Tokens.Ident);
    assert ps[0] in ps;
    Ok((pair.Str(src), rest))
  }

  /** `Spanned<Ident>`: an identifier and the span of its token. */
  function ParseSpannedIdent(src: string, ps: seq<Pair>): (r: Parsed<SpannedIdent>)
    requires AllReadable(src, ps)
    ensures r.Ok? <==> |ps| > 0 && ps[0].token == Tokens.Ident
    ensures r.Ok? ==> assert ps[0] in ps; r.value == (SpannedIdent(ps[0].span, ps[0].Str(src)), ps[1..])
    ensures Consumed(src, ps, r)
  {
    var (name, rest) :- ParseIdent(src, ps);
    Ok((SpannedIdent(SpanOf(ps, 1), name), rest))
  }

  /** `Literal::try_parse`: one literal token; character and string
      literals are decoded from their text. */
  function ParseLiteral(src: string, ps: seq<Pair>): (r: Parsed<Literal>)
    requires AllReadable(src, ps)
    ensures |ps| == 0 ==> r == Err(UnexpectedEndOfInput)
    ensures r.Ok? <==> |ps| > 0 && IsLiteralToken(ps[0].token)
    ensures r.Ok? ==> r.value.1 == ps[1..]
    ensures Consumed(src, ps, r)
  {
    if |ps| == 0 then Err(UnexpectedEndOfInput)
    else
      var pair := ps[0];
      assert pair in ps;
      ReadableDrop(src, ps, 1);
      DropRestOf(ps, 1);
      match pair.token
      case Char => Ok((Char(Literals.DecodeChar(pair.Str(src))), ps[1..]))
      case Str => Ok((String(Literals.DecodeString(pair.Str(src))), ps[1..]))
      case Int(v) => Ok((Int(v), ps[1..]))
      case Bool(b) => Ok((Bool(b), ps[1..]))
      case _ => Err(WrongExprType(Some(pair), "Literal"))
  }

  predicate IsLiteralToken(t: Tokens.Token) {
    t.Char? || t.Str? || t.Int? || t.Bool?
  }

  // ---------------------------------------------------------------------------
  // The element parsers handed to `expect_sequence`

  datatype ElementKind =
    | FunArg     // `name: Type` in a function declaration
    | TypeParam  // a `Type` between `<` and `>`
    | CallArg    // a `Spanned<Expr>` argument of a call

  datatype Item = ArgItem(argName: string, argType: Type) | TypeItem(ty: Type) | ExprItem(expr: Expr)

  predicate OfKind(it: Item, kind: ElementKind) {
    match kind
    case FunArg => it.ArgItem?
    case TypeParam => it.TypeItem?
    case CallArg => it.ExprItem?
  }

  predicate AllOfKind(items: seq<Item>, kind: ElementKind) {
    forall i | 0 <= i < |items| :: OfKind(items[i], kind)
  }

  // ---------------------------------------------------------------------------
  // The recursive group

  /** `Expr::try_parse`: `TopExpr`, `MathExpr`, `ComparisonExpr`,
      `ShortExpr`, in this order. */
  function ParseExpr(src: string, ps: seq<Pair>): (r: Parsed<Expr>)
    requires AllReadable(src, ps)
    ensures Consumed(src, ps, r)
    ensures r.Ok? ==> var e := r.value.0; e.IsTop() || e.IsMath() || e.IsComparison() || e.IsShort()
    decreases |ps|, 6
  {
    if |ps| == 0 then Err(UnexpectedEndOfInput)
    else
      var top := ParseTop(src, ps);
      if top.Ok? then top
      else
        var math := ParseMath(src, ps);
        if math.Ok? then math
        else
          var comparison := ParseComparison(src, ps);
          if comparison.Ok? then comparison
          else
            var short := ParseShort(src, ps);
            if short.Ok? then short
            else Err(WrongExprType(Some(ps[0]), "Expr"))
  }

  /** `BoxedExpr` (`Box<Spanned<Expr>>`): an expression wrapped in
      `Spanned` with the span of the pairs it was parsed from. */
  function ParseBoxed(src: string, ps: seq<Pair>): (r: Parsed<Expr>)
    requires AllReadable(src, ps)
    ensures Consumed(src, ps, r)
    ensures r.Ok? ==> r.value.0.Spanned? && r.value.0.span.lo == ps[0].span.lo
    decreases |ps|, 7
  {
    var (e, rest) :- ParseExpr(src, ps);
    Ok((Spanned(SpanOf(ps, |ps| - |rest|), e), rest))
  }

  /** `TopExpr::try_parse`, dispatching on the first token. */
  function ParseTop(src: string, ps: seq<Pair>): (r: Parsed<Expr>)
    requires AllReadable(src, ps)
    ensures Consumed(src, ps, r)
    ensures r.Ok? ==> r.value.0.IsTop()
    decreases |ps|, 5
  {
    if |ps| == 0 then Err(UnexpectedEndOfInput)
    else
      var t := ps[0].token;
      if t.Ident? then
        var assign := ParseSet(src, ps);
        if assign.Ok? then assign
        else
          var call := ParseCall(src, ps);
          if call.Ok? then call
          else
            var setByIndex := ParseSetByIndex(src, ps);
            if setByIndex.Ok? then setByIndex
            else Err(WrongExprType(Some(ps[0]), "TopExpr"))
      else if t.If? || t.For? || t.While? || t.Return? then ParseControl(src, ps)
      else if t.Var? || t.Val? then ParseBinding(src, ps)
      else Err(WrongExprType(Some(ps[0]), "TopExpr"))
  }

  /** `Binding::try_parse`: `val` or `var`, then a `Set`. */
  function ParseBinding(src: string, ps: seq<Pair>): (r: Parsed<Expr>)
    requires AllReadable(src, ps)
    ensures Consumed(src, ps, r)
    ensures r.Ok? ==> r.value.0.Binding? && (r.value.0.isMut <==> ps[0].token == Tokens.Var)
    ensures r.Ok? ==> ps[0].token in {Tokens.Val, Tokens.Var}
    decreases |ps|, 3
  {
    var (pair, rest1) :-
      if ExpectToken(src, ps, Tokens.Val).Ok? then ExpectToken(src, ps, Tokens.Val)
      else if ExpectToken(src, ps, Tokens.Var).Ok? then ExpectToken(src, ps, Tokens.Var)
      else if |ps| < 2 then Err(UnexpectedEndOfInput)
      else Err(WrongExprType(Some(ps[1]), "Binding"));
    var (assign, rest2) :- ParseSet(src, rest1);
    RestOfTrans(rest2, rest1, ps);
    if assign.Set? then Ok((Binding(pair.token == Tokens.Var, assign.name, assign.value), rest2))
    else assert false; Err(NotImplementedYet)
  }

  /** `Set::try_parse`: `name = expr`. */
  function ParseSet(src: string, ps: seq<Pair>): (r: Parsed<Expr>)
    requires AllReadable(src, ps)
    ensures Consumed(src, ps, r)
    ensures r.Ok? ==> r.value.0.Set? && |ps| >= 3 && ps[0].token == Tokens.Ident && ps[1].token == Tokens.Symbol('=')
    decreases |ps|, 3
  {
    var (name, rest1) :- ParseSpannedIdent(src, ps);
    var rest2 :- ExpectSymbol(src, rest1, '=');
    var (value, rest3) :- ParseBoxed(src, rest2);
    RestOfTrans(rest3, rest2, rest1);
    RestOfTrans(rest3, rest1, ps);
    Ok((Set(name, value), rest3))
  }

  /** `Call::try_parse`: a name and its arguments, `(a, b, ...)`. */
  function ParseCall(src: string, ps: seq<Pair>): (r: Parsed<Expr>)
    requires AllReadable(src, ps)
    ensures Consumed(src, ps, r)
    ensures r.Ok? ==> r.value.0.Call? && |ps| >= 3 && ps[0].token == Tokens.Ident && ps[1].token == Tokens.Symbol('(')
    decreases |ps|, 3
  {
    var (name, rest1) :- ParseSpannedIdent(src, ps);
    var (items, rest2) :- ExpectSequence(src, rest1, Tokens.Symbol('('), Tokens.Symbol(')'), Tokens.Symbol(','), CallArg);
    RestOfTrans(rest2, rest1, ps);
    Ok((Call(name, ExprsOf(items)), rest2))
  }

  /** `SetByIndex::try_parse`: `name[index] = expr`. */
  function ParseSetByIndex(src: string, ps: seq<Pair>): (r: Parsed<Expr>)
    requires AllReadable(src, ps)
    ensures Consumed(src, ps, r)
    ensures r.Ok? ==> r.value.0.SetByIndex? && |ps| >= 2 && ps[0].token == Tokens.Ident && ps[1].token == Tokens.Symbol('[')
    decreases |ps|, 4
  {
    var (get, rest1) :- ParseGetByIndex(src, ps);
    var rest2 :- ExpectSymbol(src, rest1, '=');
    var (value, rest3) :- ParseBoxed(src, rest2);
    RestOfTrans(rest3, rest2, rest1);
    RestOfTrans(rest3, rest1, ps);
    if get.GetByIndex? then Ok((SetByIndex(get.target, get.index, value), rest3))
    else assert false; Err(NotImplementedYet)
  }

  /** `ControlExpr::try_parse`, dispatching on the keyword. */
  function ParseControl(src: string, ps: seq<Pair>): (r: Parsed<Expr>)
    requires AllReadable(src, ps)
    ensures Consumed(src, ps, r)
    ensures r.Ok? ==> r.value.0.IsControl()
    decreases |ps|, 4
  {
    if |ps| == 0 then Err(UnexpectedEndOfInput)
    else
      var t := ps[0].token;
      if t.If? then ParseIf(src, ps)
      else if t.For? then ParseFor(src, ps)
      else if t.While? then ParseWhile(src, ps)
      else if t.Return? then ParseReturn(src, ps)
      else Err(WrongExprType(Some(ps[0]), "ControlExpr"))
  }

  /** `Return::try_parse`: `return` and, if one parses, an expression. */
  function ParseReturn(src: string, ps: seq<Pair>): (r: Parsed<Expr>)
    requires AllReadable(src, ps)
    ensures Consumed(src, ps, r)
    ensures r.Ok? <==> |ps| > 0 && ps[0].token == Tokens.Return
    ensures r.Ok? ==> r.value.0.Return?
    decreases |ps|, 3
  {
    var (_, rest1) :- ExpectToken(src, ps, Tokens.Return);
    var value := ParseBoxed(src, rest1);
    if value.Ok? then
      RestOfTrans(value.value.1, rest1, ps);
      Ok((Return(Some(value.value.0)), value.value.1))
    else Ok((Return(None), rest1))
  }

  /** `For::try_parse`: `for ( name in expr ) body`. */
  function ParseFor(src: string, ps: seq<Pair>): (r: Parsed<Expr>)
    requires AllReadable(src, ps)
    ensures Consumed(src, ps, r)
    ensures r.Ok? ==> (r.value.0.For? && |ps| >= 4 && ps[0].token == Tokens.For && ps[1].token == Tokens.Symbol('(')
                       && ps[2].token == Tokens.Ident && ps[3].token == Tokens.In)
    decreases |ps|, 3
  {
    var (_, rest1) :- ExpectToken(src, ps, Tokens.For);
    var rest2 :- ExpectSymbol(src, rest1, '(');
    var (variable, rest3) :- ParseIdent(src, rest2);
    var (_, rest4) :- ExpectToken(src, rest3, Tokens.In);
    var (iterable, rest5) :- ParseBoxed(src, rest4);
    var rest6 :- ExpectSymbol(src, rest5, ')');
    var (body, rest7) :- ExpectBody(src, rest6);
    RestOfTrans(rest7, rest6, rest5);
    RestOfTrans(rest7, rest5, rest4);
    RestOfTrans(rest7, rest4, rest3);
    RestOfTrans(rest7, rest3, rest2);
    RestOfTrans(rest7, rest2, rest1);
    RestOfTrans(rest7, rest1, ps);
    Ok((For(variable, iterable, body), rest7))
  }

  /** `While::try_parse`: `while ( expr ) body`. */
  function ParseWhile(src: string, ps: seq<Pair>): (r: Parsed<Expr>)
    requires AllReadable(src, ps)
    ensures Consumed(src, ps, r)
    ensures r.Ok? ==> r.value.0.While? && |ps| >= 2 && ps[0].token == Tokens.While && ps[1].token == Tokens.Symbol('(')
    decreases |ps|, 3
  {
    var (_, rest1) :- ExpectToken(src, ps, Tokens.While);
    var rest2 :- ExpectSymbol(src, rest1, '(');
    var (cond, rest3) :- ParseBoxed(src, rest2);
    var rest4 :- ExpectSymbol(src, rest3, ')');
    var (body, rest5) :- ExpectBody(src, rest4);
    RestOfTrans(rest5, rest4, rest3);
    RestOfTrans(rest5, rest3, rest2);
    RestOfTrans(rest5, rest2, rest1);
    RestOfTrans(rest5, rest1, ps);
    Ok((While(cond, body), rest5))
  }

  /** `If::try_parse`: `if ( expr ) body`, then, after `else`, one
      expression or else a body; no `else` gives an empty else branch. */
  function ParseIf(src: string, ps: seq<Pair>): (r: Parsed<Expr>)
    requires AllReadable(src, ps)
    ensures Consumed(src, ps, r)
    ensures r.Ok? ==> r.value.0.If? && |ps| >= 2 && ps[0].token == Tokens.If && ps[1].token == Tokens.Symbol('(')
    decreases |ps|, 3
  {
    var (_, rest1) :- ExpectToken(src, ps, Tokens.If);
    var rest2 :- ExpectSymbol(src, rest1, '(');
    var (cond, rest3) :- ParseBoxed(src, rest2);
    var rest4 :- ExpectSymbol(src, rest3, ')');
    var (body, rest5) :- ExpectBody(src, rest4);
    RestOfTrans(rest5, rest4, rest3);
    RestOfTrans(rest5, rest3, rest2);
    RestOfTrans(rest5, rest2, rest1);
    RestOfTrans(rest5, rest1, ps);
    ParseElse(src, ps, rest5, cond, body)
  }

  /** The `else` part of `If::try_parse`, from `rest`, what follows the
      body, with the condition and body already parsed from `ps`. */
  function ParseElse(src: string, ps: seq<Pair>, rest: seq<Pair>, cond: Expr, body: seq<Expr>): (r: Parsed<Expr>)
    requires AllReadable(src, rest) && |rest| < |ps| && RestOf(rest, ps)
    ensures Consumed(src, ps, r)
    ensures r.Ok? ==> r.value.0.If? && r.value.0.cond == cond && r.value.0.body == body
    ensures ExpectToken(src, rest, Tokens.Else).Err? ==> r == Ok((If(cond, body, []), rest))
    decreases |ps|, 2
  {
    var elseToken := ExpectToken(src, rest, Tokens.Else);
    if elseToken.Err? then Ok((If(cond, body, []), rest))
    else
      var afterElse := elseToken.value.1;
      RestOfTrans(afterElse, rest, ps);
      var single := ParseExpr(src, afterElse);
      if single.Ok? then
        RestOfTrans(single.value.1, afterElse, ps);
        Ok((If(cond, body, [single.value.0]), single.value.1))
      else
        var (elseBranch, rest') :- ExpectBody(src, afterElse);
        RestOfTrans(rest', afterElse, ps);
        Ok((If(cond, body, elseBranch), rest'))
  }

  /** `MathExpr::try_parse`: `Neg`, `Range`, `Sub`, `Add`, `Mul`, `Div`,
      `Parens`, in this order. */
  function ParseMath(src: string, ps: seq<Pair>): (r: Parsed<Expr>)
    requires AllReadable(src, ps)
    ensures Consumed(src, ps, r)
    ensures r.Ok? ==> r.value.0.IsMath()
    decreases |ps|, 5
  {
    if |ps| == 0 then Err(UnexpectedEndOfInput)
    else
      var neg := ParseNeg(src, ps);
      if neg.Ok? then neg
      else
        var range := ParseBinary(src, ps, Range);
        if range.Ok? then range
        else
          var sub := ParseBinary(src, ps, Sub);
          if sub.Ok? then sub
          else
            var add := ParseBinary(src, ps, Add);
            if add.Ok? then add
            else
              var mul := ParseBinary(src, ps, Mul);
              if mul.Ok? then mul
              else
                var div := ParseBinary(src, ps, Div);
                if div.Ok? then div
                else
                  var parens := ParseParens(src, ps);
                  if parens.Ok? then parens
                  else Err(WrongExprType(Some(ps[0]), "MathExpr"))
  }

  /** `ComparisonExpr::try_parse`: `And`, `Or`, `LessThan`, `MoreThan`, in
      this order. */
  function ParseComparison(src: string, ps: seq<Pair>): (r: Parsed<Expr>)
    requires AllReadable(src, ps)
    ensures Consumed(src, ps, r)
    ensures r.Ok? ==> r.value.0.IsComparison()
    decreases |ps|, 5
  {
    if |ps| == 0 then Err(UnexpectedEndOfInput)
    else
      var and := ParseBinary(src, ps, And);
      if and.Ok? then and
      else
        var or := ParseBinary(src, ps, Or);
        if or.Ok? then or
        else
          var less := ParseBinary(src, ps, LessThan);
          if less.Ok? then less
          else
            var more := ParseBinary(src, ps, MoreThan);
            if more.Ok? then more
            else Err(WrongExprType(Some(ps[0]), "ComparisonExpr"))
  }

  /** `Neg::try_parse`: `-` and an expression. */
  function ParseNeg(src: string, ps: seq<Pair>): (r: Parsed<Expr>)
    requires AllReadable(src, ps)
    ensures Consumed(src, ps, r)
    ensures r.Ok? ==> r.value.0.Neg? && ps[0].token == Tokens.Symbol('-')
    decreases |ps|, 4
  {
    var rest1 :- ExpectSymbol(src, ps, '-');
    var (operand, rest2) :- ParseBoxed(src, rest1);
    RestOfTrans(rest2, rest1, ps);
    Ok((Neg(operand), rest2))
  }

  /** The token each operator is written with. */
  function OpToken(op: BinaryOp): Tokens.Token {
    match op
    case Range => Tokens.RangeOp
    case Sub => Tokens.Symbol('-')
    case Add => Tokens.Symbol('+')
    case Mul => Tokens.Symbol('*')
    case Div => Tokens.Symbol('/')
    case LessThan => Tokens.Symbol('<')
    case MoreThan => Tokens.Symbol('>')
    case And => Tokens.AndOp
    case Or => Tokens.OrOp
  }

  /** The struct name `binary_operator!` reports in `WrongExprType`. */
  function OpName(op: BinaryOp): string {
    match op
    case Range => "Range"
    case Sub => "Sub"
    case Add => "Add"
    case Mul => "Mul"
    case Div => "Div"
    case LessThan => "LessThan"
    case MoreThan => "MoreThan"
    case And => "And"
    case Or => "Or"
  }

  /** The parser `binary_operator!` generates: split at the first top-level
      occurrence of the operator; everything before it must parse as one
      expression with nothing left over, and the right operand is parsed
      from the pair after the operator on. */
  function ParseBinary(src: string, ps: seq<Pair>, op: BinaryOp): (r: Parsed<Expr>)
    requires AllReadable(src, ps)
    ensures Consumed(src, ps, r)
    ensures r.Ok? ==> r.value.0.Binary? && r.value.0.op == op
    ensures TopLevel.ToplevelIndexOf(ps, OpToken(op)) >= |ps| ==> r == Err(UnexpectedEndOfInput)
    decreases |ps|, 4
  {
    var operator := OpToken(op);
    var k := TopLevel.ToplevelIndexOf(ps, operator);
    if k >= |ps| then Err(UnexpectedEndOfInput)
    else
      var pair := ps[k];
      // never taken: the pair at the split holds the operator
      if pair.token == Tokens.NewLine then Err(UnexpectedToken(pair, operator))
      else
        ReadableTake(src, ps, k);
        ReadableDrop(src, ps, k + 1);
        var (left, leftRest) :- ParseBoxed(src, ps[..k]);
        if |leftRest| != 0 then Err(WrongExprType(None, OpName(op)))
        else
          var (right, rest) :- ParseBoxed(src, ps[k + 1..]);
          DropRestOf(ps, k + 1);
          RestOfTrans(rest, ps[k + 1..], ps);
          Ok((Binary(op, left, right), rest))
  }

  /** `Parens::try_parse`: `(`, the pairs up to the matching `)` parsed as
      one expression (whatever it leaves before the `)` is dropped), `)`. */
  function ParseParens(src: string, ps: seq<Pair>): (r: Parsed<Expr>)
    requires AllReadable(src, ps)
    ensures Consumed(src, ps, r)
    ensures r.Ok? ==> r.value.0.Parens? && ps[0].token == Tokens.Symbol('(')
    ensures |ps| > 0 && ps[0].token == Tokens.Symbol('(') && TopLevel.MatchingParen(ps[1..]) == |ps| - 1
      ==> r == Err(UnexpectedEndOfInput)
    decreases |ps|, 4
  {
    var inner :- ExpectSymbol(src, ps, '(');
    var m := TopLevel.MatchingParen(inner);
    if m == |inner| then Err(UnexpectedEndOfInput)
    else
      ReadableTake(src, inner, m);
      ReadableDrop(src, inner, m);
      var (e, _) :- ParseBoxed(src, inner[..m]);
      var rest :- ExpectSymbol(src, inner[m..], ')');
      DropRestOf(inner, m);
      RestOfTrans(rest, inner[m..], inner);
      RestOfTrans(rest, inner, ps);
      Ok((Parens(e), rest))
  }

  /** `ShortExpr::try_parse`: a literal on a literal token; on an `Ident`,
      `GetByIndex` and then plain `Ident`. */
  function ParseShort(src: string, ps: seq<Pair>): (r: Parsed<Expr>)
    requires AllReadable(src, ps)
    ensures Consumed(src, ps, r)
    ensures r.Ok? ==> r.value.0.IsShort()
    ensures |ps| > 0 && (IsLiteralToken(ps[0].token) || ps[0].token == Tokens.Ident) <==> r.Ok?
    decreases |ps|, 5
  {
    if |ps| == 0 then Err(UnexpectedEndOfInput)
    else
      var t := ps[0].token;
      if IsLiteralToken(t) then
        match ParseLiteral(src, ps)
        case Ok((lit, rest)) => Ok((Literal(lit), rest))
        case Err(e) => Err(e)
      else if t.Ident? then
        var getByIndex := ParseGetByIndex(src, ps);
        if getByIndex.Ok? then getByIndex
        else
          match ParseIdent(src, ps)
          case Ok((name, rest)) => Ok((Ident(name), rest))
          case Err(e) => Err(e)
      else Err(WrongExprType(Some(ps[0]), "ShortExpr"))
  }

  /** `GetByIndex::try_parse`: `name [ expr ]`. */
  function ParseGetByIndex(src: string, ps: seq<Pair>): (r: Parsed<Expr>)
    requires AllReadable(src, ps)
    ensures Consumed(src, ps, r)
    ensures r.Ok? ==> r.value.0.GetByIndex? && |ps| >= 2 && ps[0].token == Tokens.Ident && ps[1].token == Tokens.Symbol('[')
    decreases |ps|, 2
  {
    var (name, rest1) :- ParseSpannedIdent(src, ps);
    var rest2 :- ExpectSymbol(src, rest1, '[');
    var (index, rest3) :- ParseBoxed(src, rest2);
    var rest4 :- ExpectSymbol(src, rest3, ']');
    RestOfTrans(rest4, rest3, rest2);
    RestOfTrans(rest4, rest2, rest1);
    RestOfTrans(rest4, rest1, ps);
    Ok((GetByIndex(name, index), rest4))
  }

  /** `expect_body`: `{`, then statements, each after at most one skipped
      `NewLine`, up to `}`. */
  function ExpectBody(src: string, ps: seq<Pair>): (r: Parsed<seq<Expr>>)
    requires AllReadable(src, ps)
    ensures Consumed(src, ps, r)
    ensures r.Ok? ==> ps[0].token == Tokens.Symbol('{')
    decreases |ps|, 1
  {
    var rest :- ExpectSymbol(src, ps, '{');
    var body := BodyLoop(src, rest, []);
    if body.Ok? then
      RestOfTrans(body.value.1, rest, ps);
      body
    else body
  }

  /** The loop of `expect_body`, from where `mut_pairs` stands with the
      statements `sequence` read so far: what it returns extends them. */
  function BodyLoop(src: string, ps: seq<Pair>, sequence: seq<Expr>): (r: Parsed<seq<Expr>>)
    requires AllReadable(src, ps)
    ensures Consumed(src, ps, r)
    ensures r.Ok? ==> |r.value.0| >= |sequence| && r.value.0[..|sequence|] == sequence
    decreases |ps|, 8
  {
    var ps' := IgnoreToken(ps, Tokens.NewLine);
    ReadableDrop(src, ps, |ps| - |ps'|);
    DropRestOf(ps, |ps| - |ps'|);
    var close := ExpectSymbol(src, ps', '}');
    if close.Ok? then
      RestOfTrans(close.value, ps', ps);
      Ok((sequence, close.value))
    else if !close.error.UnexpectedToken? then Err(close.error)
    else
      var (element, rest) :- ParseExpr(src, ps');
      RestOfTrans(rest, ps', ps);
      var more := BodyLoop(src, rest, sequence + [element]);
      if more.Ok? then
        RestOfTrans(more.value.1, rest, ps);
        assert more.value.0[..|sequence|] == (sequence + [element])[..|sequence|];
        more
      else more
  }

  /** `expect_sequence`: the start token, then elements of the given kind,
      each optionally followed by the separator, up to the end token. */
  function ExpectSequence(src: string, ps: seq<Pair>, start: Tokens.Token, end: Tokens.Token, separator: Tokens.Token, kind: ElementKind): (r: Parsed<seq<Item>>)
    requires AllReadable(src, ps)
    ensures Consumed(src, ps, r)
    ensures r.Ok? ==> ps[0].token == start && AllOfKind(r.value.0, kind)
    decreases |ps|, 1
  {
    var (_, rest) :- ExpectToken(src, ps, start);
    var items := SequenceLoop(src, rest, end, separator, kind, []);
    if items.Ok? then
      RestOfTrans(items.value.1, rest, ps);
      items
    else items
  }

  /** The loop of `expect_sequence`, from where `mut_pairs` stands with the
      elements `sequence` read so far: what it returns extends them. */
  function SequenceLoop(src: string, ps: seq<Pair>, end: Tokens.Token, separator: Tokens.Token, kind: ElementKind, sequence: seq<Item>): (r: Parsed<seq<Item>>)
    requires AllReadable(src, ps)
    requires AllOfKind(sequence, kind)
    ensures Consumed(src, ps, r)
    ensures r.Ok? ==> AllOfKind(r.value.0, kind)
    ensures r.Ok? ==> |r.value.0| >= |sequence| && r.value.0[..|sequence|] == sequence
    decreases |ps|, 10
  {
    var close := ExpectToken(src, ps, end);
    if close.Ok? then Ok((sequence, close.value.1))
    else if !close.error.UnexpectedToken? then Err(close.error)
    else
      var (element, rest1) :- ParseElement(src, ps, kind);
      var sep := ExpectToken(src, rest1, separator);
      if sep.Err? && !sep.error.UnexpectedToken? then Err(sep.error)
      else
        var rest2 := if sep.Ok? then sep.value.1 else rest1;
        RestOfTrans(rest2, rest1, ps);
        var more := SequenceLoop(src, rest2, end, separator, kind, sequence + [element]);
        if more.Ok? then
          RestOfTrans(more.value.1, rest2, ps);
          assert more.value.0[..|sequence|] == (sequence + [element])[..|sequence|];
          more
        else more
  }

  /** The closures `Fun::try_parse`, `Type::try_parse` and `Call::try_parse`
      hand to `expect_sequence`. */
  function ParseElement(src: string, ps: seq<Pair>, kind: ElementKind): (r: Parsed<Item>)
    requires AllReadable(src, ps)
    ensures Consumed(src, ps, r)
    ensures r.Ok? ==> OfKind(r.value.0, kind)
    decreases |ps|, 9
  {
    match kind
    case FunArg =>
      var (name, rest1) :- ParseIdent(src, ps);
      var rest2 :- ExpectSymbol(src, rest1, ':');
      var (ty, rest3) :- ParseType(src, rest2);
      RestOfTrans(rest3, rest2, rest1);
      RestOfTrans(rest3, rest1, ps);
      Ok((ArgItem(name, ty), rest3))
    case TypeParam =>
      var (ty, rest) :- ParseType(src, ps);
      Ok((TypeItem(ty), rest))
    case CallArg =>
      var (e, rest) :- ParseBoxed(src, ps);
      Ok((ExprItem(e), rest))
  }

  /** `Type::try_parse`: a name, made `Generic` by a following `<...>`. */
  function ParseType(src: string, ps: seq<Pair>): (r: Parsed<Type>)
    requires AllReadable(src, ps)
    ensures Consumed(src, ps, r)
    ensures r.Ok? ==> assert ps[0] in ps; ps[0].token == Tokens.Ident && r.value.0.name == ps[0].Str(src)
    ensures r.Ok? ==> (r.value.0.Generic? <==> |ps| >= 2 && ps[1].token == Tokens.Symbol('<'))
    decreases |ps|, 8
  {
    var (name, rest1) :- ParseIdent(src, ps);
    if ExpectSymbol(src, rest1, '<').Ok? then
      var (items, rest2) :- ExpectSequence(src, rest1, Tokens.Symbol('<'), Tokens.Symbol('>'), Tokens.Symbol(','), TypeParam);
      RestOfTrans(rest2, rest1, ps);
      Ok((Generic(name, TypesOf(items)), rest2))
    else Ok((Simple(name), rest1))
  }

  // ---------------------------------------------------------------------------
  // Unpacking the elements of a sequence

  function ExprsOf(items: seq<Item>): (r: seq<Expr>)
    requires AllOfKind(items, CallArg)
    ensures |r| == |items|
    ensures forall i | 0 <= i < |items| :: items[i].ExprItem? && r[i] == items[i].expr
  {
    seq(|items|, i requires 0 <= i < |items| => items[i].expr)
  }

  function TypesOf(items: seq<Item>): (r: seq<Type>)
    requires AllOfKind(items, TypeParam)
    ensures |r| == |items|
    ensures forall i | 0 <= i < |items| :: items[i].TypeItem? && r[i] == items[i].ty
  {
    seq(|items|, i requires 0 <= i < |items| => items[i].ty)
  }

  function ArgsOf(items: seq<Item>): (r: seq<(string, Type)>)
    requires AllOfKind(items, FunArg)
    ensures |r| == |items|
    ensures forall i | 0 <= i < |items| :: items[i].ArgItem? && r[i] == (items[i].argName, items[i].argType)
  {
    seq(|items|, i requires 0 <= i < |items| => (items[i].argName, items[i].argType))
  }

  // ---------------------------------------------------------------------------
  // Functions and programs

  /** `Fun::try_parse`: `fun name (arg: Type, ...) [: Type] { body }`; the
      return type is present exactly when a `:` follows the arguments. */
  function ParseFun(src: string, ps: seq<Pair>): (r: Parsed<Fun>)
    requires AllReadable(src, ps)
    ensures Consumed(src, ps, r)
    ensures r.Ok? ==> |ps| >= 3 && ps[0].token == Tokens.Fun && ps[1].token == Tokens.Ident
                      && (assert ps[1] in ps; r.value.0.name == ps[1].Str(src))
    decreases |ps|
  {
    var (_, rest1) :- ExpectToken(src, ps, Tokens.Fun);
    var (name, rest2) :- ParseIdent(src, rest1);
    var (args, rest3) :- ExpectSequence(src, rest2, Tokens.Symbol('('), Tokens.Symbol(')'), Tokens.Symbol(','), FunArg);
    var (retType, rest4) :- ParseRetType(src, rest3);
    var (body, rest5) :- ExpectBody(src, rest4);
    RestOfTrans(rest5, rest4, rest3);
    RestOfTrans(rest5, rest3, rest2);
    RestOfTrans(rest5, rest2, rest1);
    RestOfTrans(rest5, rest1, ps);
    Ok((Fun(name, ArgsOf(args), retType, body), rest5))
  }

  /** The optional `: Type` after a function's arguments: `None` without
      consuming anything when no `:` follows. */
  function ParseRetType(src: string, ps: seq<Pair>): (r: Result<(Option<Type>, seq<Pair>), ParseError>)
    requires AllReadable(src, ps)
    ensures r.Ok? ==> |r.value.1| <= |ps| && RestOf(r.value.1, ps) && AllReadable(src, r.value.1)
    ensures r.Ok? && r.value.0.None? ==> r.value.1 == ps
    ensures ExpectSymbol(src, ps, ':').Err? <==> r == Ok((None, ps))
  {
    var colon := ExpectSymbol(src, ps, ':');
    if colon.Ok? then
      var (ty, rest) :- ParseType(src, colon.value);
      RestOfTrans(rest, colon.value, ps);
      Ok((Some(ty), rest))
    else Ok((None, ps))
  }

  /** `Program::try_parse`: functions, with new lines skipped before each,
      until the pairs run out. */
  function ParseProgram(src: string, ps: seq<Pair>): (r: Parsed<Program>)
    requires AllReadable(src, ps)
    ensures r.Ok? ==> r.value.1 == []
  {
    ProgramLoop(src, ps, [])
  }

  /** The loop of `Program::try_parse`, with the functions read so far:
      what it returns extends them, and it stops only where nothing but new
      lines is left. */
  function ProgramLoop(src: string, ps: seq<Pair>, functions: seq<Fun>): (r: Parsed<Program>)
    requires AllReadable(src, ps)
    ensures r.Ok? ==> r.value.1 == []
    ensures r.Ok? ==> |r.value.0.functions| >= |functions|
    ensures r.Ok? ==> forall i | 0 <= i < |functions| :: r.value.0.functions[i] == functions[i]
    decreases |ps|
  {
    var ps' := SkipNewLines(ps);
    ReadableDrop(src, ps, |ps| - |ps'|);
    if |ps'| == 0 then Ok((Program(functions), []))
    else
      var (fun, rest) :- ParseFun(src, ps');
      ProgramLoop(src, rest, functions + [fun])
  }
}
