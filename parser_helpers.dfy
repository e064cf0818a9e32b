/** The parser's token-level helpers (`expect_token`, `expect_symbol`,
    `ignore_token`, and the skipping of new lines before a function), and
    what every parser promises about the slice it leaves. */
module ParserHelpers {
  import opened Wrappers
  import opened Tokens
  import opened Lexer
  import Literals
  import Ast

  /** `ParseResult<T>`: a node and the pairs after it, or an error. */
  type Parsed<T> = Result<(T, seq<Pair>), Ast.ParseError>

  /** A pair the parser can read: its span lies within the source, and the
      text of a character or string literal is one that `parse_char` and
      `parse_string` decode without panicking. The lexer can make pairs
      that are not of this kind (a lone `'` is a `Char` token); on those
      the program panics, and the parsers here are not defined. */
  predicate Readable(src: string, p: Pair) {
    p.ValidIn(src)
    && (p.token == Char ==> Literals.CharText(p.Str(src)))
    && (p.token == Str ==> Literals.StrText(p.Str(src)))
  }

  predicate AllReadable(src: string, ps: seq<Pair>) {
    forall p | p in ps :: Readable(src, p)
  }

  /** `rest` is what is left of `ps` once some pairs are taken from its
      front: the parsers only ever return a rest of their input. */
  predicate RestOf(rest: seq<Pair>, ps: seq<Pair>)
    decreases |ps|
  {
    rest == ps || (|ps| > 0 && RestOf(rest, ps[1..]))
  }

  lemma {:induction false} RestOfTrans(a: seq<Pair>, b: seq<Pair>, c: seq<Pair>)
    requires RestOf(a, b) && RestOf(b, c)
    ensures RestOf(a, c)
    decreases |c|
  {
    if b != c {
      RestOfTrans(a, b, c[1..]);
    }
  }

  /** A rest of `ps` is `ps` with its first `|ps| - |rest|` pairs dropped,
      and every such drop is a rest (`DropRestOf`). */
  lemma {:induction false} RestOfIsDrop(rest: seq<Pair>, ps: seq<Pair>)
    requires RestOf(rest, ps)
    ensures |rest| <= |ps| && rest == ps[|ps| - |rest|..]
    decreases |ps|
  {
    if rest != ps {
      RestOfIsDrop(rest, ps[1..]);
      assert ps[1..][|ps| - 1 - |rest|..] == ps[|ps| - |rest|..];
    }
  }

  lemma {:induction false} DropRestOf(ps: seq<Pair>, k: nat)
    requires k <= |ps|
    ensures RestOf(ps[k..], ps)
    decreases k
  {
    if k > 0 {
      DropRestOf(ps[1..], k - 1);
      assert ps[1..][k - 1..] == ps[k..];
    }
  }

  /** What each parser promises on success: it consumed at least one pair,
      and what it leaves is the rest of its input. */
  predicate Consumed<T>(src: string, ps: seq<Pair>, r: Parsed<T>) {
    r.Ok? ==> |r.value.1| < |ps| && RestOf(r.value.1, ps) && AllReadable(src, r.value.1)
  }

  /** The pairs after the first `k` of a readable slice are readable. */
  lemma {:induction false} ReadableDrop(src: string, ps: seq<Pair>, k: nat)
    requires AllReadable(src, ps) && k <= |ps|
    ensures AllReadable(src, ps[k..])
  {
    forall p | p in ps[k..] ensures Readable(src, p) {
      var i :| k <= i < |ps| && ps[i] == p;
    }
  }

  /** The first `k` pairs of a readable slice are readable. */
  lemma {:induction false} ReadableTake(src: string, ps: seq<Pair>, k: nat)
    requires AllReadable(src, ps) && k <= |ps|
    ensures AllReadable(src, ps[..k])
  {
    forall p | p in ps[..k] ensures Readable(src, p) {
      var i :| 0 <= i < k && ps[i] == p;
    }
  }

  /** The span of the first `n` pairs of `ps`, from the start of the first to
      the end of the last: the span a `Spanned` node records. */
  function SpanOf(ps: seq<Pair>, n: nat): (s: Span)
    requires 1 <= n <= |ps|
    ensures s.lo == ps[0].span.lo && s.hi == ps[n - 1].span.hi
  {
    Span(ps[0].span.lo, ps[n - 1].span.hi)
  }

  /** `expect_token`: the first pair when it holds `t`, and the pairs after
      it; `src` is the text the pairs were read from. */
  function ExpectToken(src: string, ps: seq<Pair>, t: Token): (r: Parsed<Pair>)
    requires AllReadable(src, ps)
    ensures r.Ok? <==> |ps| > 0 && ps[0].token == t
    ensures r.Ok? ==> r.value.0.token == t && [r.value.0] + r.value.1 == ps
    ensures |ps| == 0 ==> r == Err(Ast.UnexpectedEndOfInput)
    ensures |ps| > 0 && ps[0].token != t ==> r == Err(Ast.UnexpectedToken(ps[0], t))
    ensures Consumed(src, ps, r)
  {
    if |ps| == 0 then Err(Ast.UnexpectedEndOfInput)
    else if ps[0].token == t then
      assert [ps[0]] + ps[1..] == ps;
      ReadableDrop(src, ps, 1);
      DropRestOf(ps, 1);
      Ok((ps[0], ps[1..]))
    else Err(Ast.UnexpectedToken(ps[0], t))
  }

  /** `expect_symbol`: `expect_token` on `Symbol(c)`, keeping only the pairs
      after the symbol. */
  function ExpectSymbol(src: string, ps: seq<Pair>, c: char): (r: Result<seq<Pair>, Ast.ParseError>)
    requires AllReadable(src, ps)
    ensures r.Ok? <==> |ps| > 0 && ps[0].token == Symbol(c)
    ensures r.Ok? ==> r.value == ps[1..] && RestOf(r.value, ps) && AllReadable(src, r.value)
    ensures r.Err? ==> r.error == ExpectToken(src, ps, Symbol(c)).error
  {
    var (_, rest) :- ExpectToken(src, ps, Symbol(c));
    Ok(rest)
  }

  /** `ignore_token`: drops the first pair when it holds `t`. */
  function IgnoreToken(ps: seq<Pair>, t: Token): (r: seq<Pair>)
    ensures |ps| > 0 && ps[0].token == t ==> r == ps[1..]
    ensures !(|ps| > 0 && ps[0].token == t) ==> r == ps
  {
    if |ps| > 0 && ps[0].token == t then ps[1..] else ps
  }

  /** `ignore_newlines`, called by `Program::try_parse` but not part of this
      model's sources: modelled as dropping every leading `NewLine`. */
  function SkipNewLines(ps: seq<Pair>): (r: seq<Pair>)
    ensures |r| <= |ps| && r == ps[|ps| - |r|..]
    ensures |r| == 0 || r[0].token != NewLine
    ensures forall i | 0 <= i < |ps| - |r| :: ps[i].token == NewLine
    decreases |ps|
  {
    if |ps| > 0 && ps[0].token == NewLine then SkipNewLines(ps[1..]) else ps
  }
}
