/** The `Lexer` iterator: it lexes one token at a time from the part of the
    source not yet consumed, gives each token the span of source text it came
    from, skips white space and stops at the end of input. */
module Lexer {
  import opened Wrappers
  import opened Text
  import opened Tokens

  /** A byte range `lo..hi` of the source. */
  datatype Span = Span(lo: nat, hi: nat)

  /** A token and where in the source it was read. `Pair` in the program
      also holds a reference to the source; here the source is passed to
      `Str` instead, since every pair of one run shares the same one. */
  datatype Pair = Pair(token: Token, span: Span) {
    predicate ValidIn(source: string) {
      span.lo <= span.hi <= |source|
    }

    /** `Pair::str`: the source text of the token. */
    function Str(source: string): (r: string)
      requires ValidIn(source)
      ensures |r| == span.hi - span.lo
      ensures r + source[span.hi..] == source[span.lo..]
    {
      source[span.lo..span.hi]
    }
  }

  /** The reader the iterator calls: `Lex` (`Token::parse`). The functions
      below take it as a parameter and use only what `ReadsPrefix` says of
      it, which `LexReadsPrefix` proves of `Lex`. */
  type Reader = string -> (Token, string)

  /** What the iterator needs of its reader: it returns a suffix of its
      input, a strictly shorter one unless the input is empty, and `End` on
      empty input. */
  ghost predicate ReadsPrefix(lex: Reader) {
    forall s :: IsSuffix(lex(s).1, s) && (|s| > 0 ==> |lex(s).1| < |s|)
                && (|s| == 0 ==> lex(s).0 == End) && (lex(s).0 == End ==> lex(s).1 == [])
  }

  lemma {:induction false} LexReadsPrefix()
    ensures ReadsPrefix(Lex)
  {
  }

  /** `p` is a token `lex` reads at `p.span.lo` of `original`, and its span
      covers exactly the text `lex` consumed there. */
  predicate IsLexeme(lex: Reader, original: string, p: Pair) {
    p.ValidIn(original)
    && p.token != WhiteSpace && p.token != End
    && lex(original[p.span.lo..]) == (p.token, original[p.span.hi..])
  }

  /** What `Lexer::next` yields when `remaining` is left of `original`, and
      what is left after it. A pair it yields is a lexeme of the source,
      starting no earlier than `remaining` does and ending where the new
      remaining text begins. */
  function NextPair(lex: Reader, original: string, remaining: string): (r: (Option<Pair>, string))
    requires ReadsPrefix(lex)
    requires IsSuffix(remaining, original)
    ensures IsSuffix(r.1, remaining)
    ensures r.0.None? ==> r.1 == ""
    decreases |remaining|
  {
    var (token, rest) := lex(remaining);
    var lo := |original| - |remaining|;
    var hi := |original| - |rest|;
    SuffixTransitive(rest, remaining, original);
    if token == WhiteSpace then
      NextPair(lex, original, rest)
    else if token == End then
      (None, rest)
    else
      (Some(Pair(token, Span(lo, hi))), rest)
  }

  /** The spans of `pairs` are each well formed, come one after another
      without overlapping, and start at or after `from`. */
  predicate InOrderFrom(pairs: seq<Pair>, from: nat)
    decreases |pairs|
  {
    |pairs| == 0
    || (from <= pairs[0].span.lo <= pairs[0].span.hi && InOrderFrom(pairs[1..], pairs[0].span.hi))
  }

  /** Everything the iterator yields from `remaining` on (`collect()`): every
      pair is a lexeme of the source (white space and `End` never appear),
      and the spans increase without overlapping. */
  function Tokenize(lex: Reader, original: string, remaining: string): (r: seq<Pair>)
    requires ReadsPrefix(lex)
    requires IsSuffix(remaining, original)
    decreases |remaining|
  {
    match NextPair(lex, original, remaining)
    case (None, _) => []
    case (Some(p), rest) =>
      SuffixTransitive(rest, remaining, original);
      [p] + Tokenize(lex, original, rest)
  }

  /** A pair `NextPair` yields is a lexeme of the source; it starts no earlier
      than `remaining` does and ends where the new remaining text begins. */
  lemma {:induction false} NextPairIsLexeme(lex: Reader, original: string, remaining: string)
    requires ReadsPrefix(lex)
    requires IsSuffix(remaining, original)
    ensures var (p, rest) := NextPair(lex, original, remaining);
      p.Some? ==>
        IsLexeme(lex, original, p.value)
        && |original| - |remaining| <= p.value.span.lo
        && p.value.span.hi == |original| - |rest|
    decreases |remaining|
  {
    var (token, rest) := lex(remaining);
    if token == WhiteSpace {
      NextPairSkips(lex, original, remaining, rest);
      NextPairIsLexeme(lex, original, rest);
    } else if token != End {
      NextPairYields(lex, original, remaining, token, rest);
      assert original[|original| - |remaining|..] == remaining;
      assert original[|original| - |rest|..] == rest;
    }
  }

  /** Every pair the iterator yields is a lexeme of the source: white space
      and `End` are never yielded. */
  lemma {:induction false} TokenizeYieldsLexemes(lex: Reader, original: string, remaining: string)
    requires ReadsPrefix(lex)
    requires IsSuffix(remaining, original)
    ensures forall i | 0 <= i < |Tokenize(lex, original, remaining)| :: IsLexeme(lex, original, Tokenize(lex, original, remaining)[i])
    decreases |remaining|
  {
    TokenizeStep(lex, original, remaining);
    var (p, rest) := NextPair(lex, original, remaining);
    if p.Some? {
      NextPairIsLexeme(lex, original, remaining);
      TokenizeYieldsLexemes(lex, original, rest);
    }
  }

  /** The spans the iterator yields increase and do not overlap. */
  lemma {:induction false} TokenizeInOrder(lex: Reader, original: string, remaining: string)
    requires ReadsPrefix(lex)
    requires IsSuffix(remaining, original)
    ensures InOrderFrom(Tokenize(lex, original, remaining), |original| - |remaining|)
    decreases |remaining|
  {
    TokenizeStep(lex, original, remaining);
    var (p, rest) := NextPair(lex, original, remaining);
    if p.Some? {
      NextPairIsLexeme(lex, original, remaining);
      TokenizeInOrder(lex, original, rest);
      var tail := Tokenize(lex, original, rest);
      assert ([p.value] + tail)[1..] == tail;
    }
  }

  /** `NextPair` yields the token read first when it is neither white space
      nor `End`, spanning exactly the text consumed. */
  lemma {:induction false} NextPairYields(lex: Reader, original: string, remaining: string, token: Token, rest: string)
    requires ReadsPrefix(lex)
    requires IsSuffix(remaining, original)
    requires lex(remaining) == (token, rest)
    requires token != WhiteSpace && token != End
    ensures IsSuffix(rest, original)
    ensures NextPair(lex, original, remaining)
      == (Some(Pair(token, Span(|original| - |remaining|, |original| - |rest|))), rest)
  {
    SuffixTransitive(rest, remaining, original);
  }

  /** `NextPair` skips white space and goes on after it. */
  lemma {:induction false} NextPairSkips(lex: Reader, original: string, remaining: string, rest: string)
    requires ReadsPrefix(lex)
    requires IsSuffix(remaining, original)
    requires lex(remaining) == (WhiteSpace, rest)
    ensures IsSuffix(rest, original) && |rest| < |remaining|
    ensures NextPair(lex, original, remaining) == NextPair(lex, original, rest)
  {
    SuffixTransitive(rest, remaining, original);
  }

  /** `NextPair` ends the iteration at `End`, which is read only at the end
      of the input. */
  lemma {:induction false} NextPairEnds(lex: Reader, original: string, remaining: string, rest: string)
    requires ReadsPrefix(lex)
    requires IsSuffix(remaining, original)
    requires lex(remaining) == (End, rest)
    ensures NextPair(lex, original, remaining) == (None, rest)
  {
  }

  /** One step of `Tokenize`. */
  lemma {:induction false} TokenizeStep(lex: Reader, original: string, remaining: string)
    requires ReadsPrefix(lex)
    requires IsSuffix(remaining, original)
    ensures var (p, rest) := NextPair(lex, original, remaining);
      IsSuffix(rest, original)
      && Tokenize(lex, original, remaining) == if p.Some? then [p.value] + Tokenize(lex, original, rest) else []
  {
    var (p, rest) := NextPair(lex, original, remaining);
    SuffixTransitive(rest, remaining, original);
  }

  /** The iterator itself: the whole source and the part of it not yet lexed. */
  class Lexer {
    const original: string
    var remaining: string

    predicate Valid()
      reads this
    {
      IsSuffix(remaining, original)
    }

    /** `Lexer::new`: nothing is consumed yet. */
    constructor (s: string)
      ensures original == s && remaining == s
      ensures Valid()
    {
      original := s;
      remaining := s;
    }

    /** `Lexer::next`: lex one token, compute its span from how much shorter
        the remaining text became, skip white space by calling itself again,
        and end the iteration at `End`. */
    method Next() returns (p: Option<Pair>)
      requires Valid()
      modifies this
      ensures Valid()
      ensures (p, remaining) == NextPair(Lex, original, old(remaining))
      decreases |remaining|
    {
      LexReadsPrefix();
      var source, before := original, remaining;
      var token, after := Parse(before);
      if token == WhiteSpace {
        NextPairSkips(Lex, source, before, after);
        remaining := after;
        p := Next();
      } else if token == End {
        NextPairEnds(Lex, source, before, after);
        remaining := after;
        p := None;
      } else {
        NextPairYields(Lex, source, before, token, after);
        remaining := after;
        p := Some(Pair(token, Span(|source| - |before|, |source| - |after|)));
      }
    }

    /** `collect()`: drain the iterator. */
    method Collect() returns (pairs: seq<Pair>)
      requires Valid()
      modifies this
      ensures Valid()
      ensures pairs == Tokenize(Lex, original, old(remaining))
      ensures remaining == ""
    {
      LexReadsPrefix();
      pairs := [];
      while true
        invariant Valid()
        invariant pairs + Tokenize(Lex, original, remaining) == Tokenize(Lex, original, old(remaining))
        decreases |remaining|
      {
        TokenizeStep(Lex, original, remaining);
        var p := Next();
        if p.None? {
          return;
        }
        pairs := pairs + [p.value];
      }
    }
  }
}
