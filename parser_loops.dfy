/** The three parser helpers that the program writes as loops
    (`expect_sequence`, `expect_body` and `Program::try_parse`), with their
    loops, each proved to compute what the recursive definition in `Parser`
    computes. */
module ParserLoops {
  import opened Wrappers
  import opened Lexer
  import opened Ast
  import opened ParserHelpers
  import opened Parser
  import Tokens

  /** `expect_sequence` with its `loop`: `mutPairs` moves past each element
      and its separator, if there is one, while `sequence` collects the
      elements. */
  method ExpectSequenceLoop(src: string, ps: seq<Pair>, start: Tokens.Token, end: Tokens.Token, separator: Tokens.Token, kind: ElementKind)
    returns (r: Parsed<seq<Item>>)
    requires AllReadable(src, ps)
    ensures r == ExpectSequence(src, ps, start, end, separator, kind)
  {
    var first := ExpectToken(src, ps, start);
    if first.Err? {
      return Err(first.error);
    }
    var mutPairs := first.value.1;
    var sequence: seq<Item> := [];
    while true
      invariant AllReadable(src, mutPairs) && AllOfKind(sequence, kind)
      invariant SequenceLoop(src, mutPairs, end, separator, kind, sequence) == ExpectSequence(src, ps, start, end, separator, kind)
      decreases |mutPairs|
    {
      var close := ExpectToken(src, mutPairs, end);
      if close.Ok? {
        return Ok((sequence, close.value.1));
      }
      if !close.error.UnexpectedToken? {
        return Err(close.error);
      }
      var element := ParseElement(src, mutPairs, kind);
      if element.Err? {
        return Err(element.error);
      }
      var (item, pairs) := element.value;
      sequence := sequence + [item];
      var sep := ExpectToken(src, pairs, separator);
      if sep.Ok? {
        mutPairs := sep.value.1;
      } else if sep.error.UnexpectedToken? {
        mutPairs := pairs;
      } else {
        return Err(sep.error);
      }
    }
  }

  /** `expect_body` with its `loop`. */
  method ExpectBodyLoop(src: string, ps: seq<Pair>) returns (r: Parsed<seq<Expr>>)
    requires AllReadable(src, ps)
    ensures r == ExpectBody(src, ps)
  {
    var open := ExpectSymbol(src, ps, '{');
    if open.Err? {
      return Err(open.error);
    }
    var mutPairs := open.value;
    var sequence: seq<Expr> := [];
    while true
      invariant AllReadable(src, mutPairs)
      invariant BodyLoop(src, mutPairs, sequence) == ExpectBody(src, ps)
      decreases |mutPairs|
    {
      var skipped := IgnoreToken(mutPairs, Tokens.NewLine);
      ReadableDrop(src, mutPairs, |mutPairs| - |skipped|);
      mutPairs := skipped;
      var close := ExpectSymbol(src, mutPairs, '}');
      if close.Ok? {
        return Ok((sequence, close.value));
      }
      if !close.error.UnexpectedToken? {
        return Err(close.error);
      }
      var element := ParseExpr(src, mutPairs);
      if element.Err? {
        return Err(element.error);
      }
      sequence := sequence + [element.value.0];
      mutPairs := element.value.1;
    }
  }

  /** `Program::try_parse` with its `loop`. */
  method ParseProgramLoop(src: string, ps: seq<Pair>) returns (r: Parsed<Program>)
    requires AllReadable(src, ps)
    ensures r == ParseProgram(src, ps)
  {
    var pairs := ps;
    var functions: seq<Fun> := [];
    while true
      invariant AllReadable(src, pairs)
      invariant ProgramLoop(src, pairs, functions) == ParseProgram(src, ps)
      decreases |pairs|
    {
      var skipped := SkipNewLines(pairs);
      ReadableDrop(src, pairs, |pairs| - |skipped|);
      pairs := skipped;
      if |pairs| == 0 {
        return Ok((Program(functions), []));
      }
      var fun := ParseFun(src, pairs);
      if fun.Err? {
        return Err(fun.error);
      }
      pairs := fun.value.1;
      functions := functions + [fun.value.0];
    }
  }
}
