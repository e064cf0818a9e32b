/** The lexer run over the hello-world program of `src/lexer/mod.rs`:
    the pairs the iterator yields, with their tokens in the order the
    program's own example lists them, and the span of each. */
module LexerExamples {
  import opened Wrappers
  import opened Text
  import opened Tokens
  import opened Lexer

  // ---------------------------------------------------------------------------
  // What `Lex` reads at the start of a line of the example

  /** `n` spaces. */
  function Spaces(n: nat): (s: string)
    ensures |s| == n && forall i | 0 <= i < n :: s[i] == ' '
  {
    if n == 0 then "" else " " + Spaces(n - 1)
  }

  /** A line feed is one `NewLine` token. */
  lemma {:induction false} LexLineFeed(rest: string)
    ensures Lex("\n" + rest) == (NewLine, rest)
  {
    var s := "\n" + rest;
    assert NoneStartsBefore(7, s[0]) by {
      assert NoneStartsBefore(1, s[0]) && NoneStartsBefore(2, s[0]) && NoneStartsBefore(3, s[0]);
      assert NoneStartsBefore(4, s[0]) && NoneStartsBefore(5, s[0]) && NoneStartsBefore(6, s[0]);
    }
    assert !StartsWith(s, "\r\n") && s[1..] == rest;
    LexByFirstChar(s, 7, NewLine, rest);
  }

  /** A run of spaces is one `WhiteSpace` token, up to the first character
      that is not a space. */
  lemma {:induction false} LexSpaces(n: nat, rest: string)
    requires n > 0 && (|rest| == 0 || rest[0] != ' ')
    ensures Lex(Spaces(n) + rest) == (WhiteSpace, rest)
  {
    var s := Spaces(n) + rest;
    CountWhileConcat(Spaces(n), rest, IsSpace);
    assert s[n..] == rest;
    assert NoneStartsBefore(11, s[0]) by {
      assert NoneStartsBefore(1, s[0]) && NoneStartsBefore(2, s[0]) && NoneStartsBefore(3, s[0]);
      assert NoneStartsBefore(4, s[0]) && NoneStartsBefore(5, s[0]) && NoneStartsBefore(6, s[0]);
      assert NoneStartsBefore(7, s[0]) && NoneStartsBefore(8, s[0]) && NoneStartsBefore(9, s[0]);
      assert NoneStartsBefore(10, s[0]);
    }
    LexByFirstChar(s, 11, WhiteSpace, rest);
  }

  /** A symbol other than `/` is one `Symbol` token. */
  lemma {:induction false} LexSymbolChar(c: char, rest: string)
    requires c in SYMBOLS && c != '/'
    ensures Lex([c] + rest) == (Symbol(c), rest)
  {
    var s := [c] + rest;
    assert s[0] == c && s[1..] == rest;
    assert NoneStartsBefore(1, s[0]);
    LexByFirstChar(s, 1, Symbol(c), rest);
  }

  /** A word of letters that is no keyword and starts with neither `t` nor
      `f` is one `Ident` token when no letter or digit follows it. */
  lemma {:induction false} LexWord(w: string, rest: string)
    requires |w| > 0 && forall i | 0 <= i < |w| :: IsAsciiAlphabetic(w[i])
    requires w[0] != 't' && w[0] != 'f' && KeywordToken(w).None?
    requires |rest| == 0 || !IsAsciiAlphanumeric(rest[0])
    ensures Lex(w + rest) == (Ident, rest)
  {
    var s := w + rest;
    assert s[0] == w[0];
    CountWhileConcat(w, rest, IsAsciiAlphabetic);
    CountWhileConcat(w, rest, IsAsciiAlphanumeric);
    assert s[..|w|] == w && s[|w|..] == rest;
    assert SubLexer(2, s).None?;
    forall j | 0 <= j < 5 && j != 2 ensures SubLexer(j, s).None? {
      SubLexerStart(j, s);
    }
    assert SubLexer(5, s) == Some((Ident, rest));
    FirstMatchAt(s, 5);
  }

  // ---------------------------------------------------------------------------
  // One step of the iterator

  /** The iterator yields the token `Lex` reads, with the span of the text
      it consumed. */
  lemma {:induction false} YieldStep(original: string, remaining: string, token: Token, rest: string)
    requires IsSuffix(remaining, original) && Lex(remaining) == (token, rest)
    requires token != WhiteSpace && token != End
    ensures IsSuffix(rest, original)
    ensures Tokenize(Lex, original, remaining)
      == [Pair(token, Span(|original| - |remaining|, |original| - |rest|))] + Tokenize(Lex, original, rest)
  {
    LexReadsPrefix();
    NextPairYields(Lex, original, remaining, token, rest);
    TokenizeStep(Lex, original, remaining);
  }

  /** The iterator yields nothing for white space and goes on after it. */
  lemma {:induction false} SkipStep(original: string, remaining: string, rest: string)
    requires IsSuffix(remaining, original) && Lex(remaining) == (WhiteSpace, rest)
    ensures IsSuffix(rest, original)
    ensures Tokenize(Lex, original, remaining) == Tokenize(Lex, original, rest)
  {
    LexReadsPrefix();
    NextPairSkips(Lex, original, remaining, rest);
    TokenizeStep(Lex, original, remaining);
    TokenizeStep(Lex, original, rest);
  }

  /** At the end of the input the iterator stops. */
  lemma {:induction false} EndStep(original: string)
    ensures Tokenize(Lex, original, "") == []
  {
    LexReadsPrefix();
    assert IsSuffix("", original);
    NextPairEnds(Lex, original, "", "");
    TokenizeStep(Lex, original, "");
  }

  // ---------------------------------------------------------------------------
  // The hello-world program

  /* The program, built from the text each lexeme leaves behind: `REST_k`
     is what is left after `k` lexemes, white space included, and `HELLO`
     is `REST_0`. */
  const REST_19: string := Spaces(8) + ""
  const REST_18: string := "\n" + REST_19
  const REST_17: string := "}" + REST_18
  const REST_16: string := Spaces(8) + REST_17
  const REST_15: string := "\n" + REST_16
  const REST_14: string := ")" + REST_15
  const REST_13: string := "\"" + "Hello, World!" + "\"" + REST_14
  const REST_12: string := "(" + REST_13
  const REST_11: string := "println" + REST_12
  const REST_10: string := Spaces(12) + REST_11
  const REST_9: string := "\n" + REST_10
  const REST_8: string := "{" + REST_9
  const REST_7: string := Spaces(1) + REST_8
  const REST_6: string := ")" + REST_7
  const REST_5: string := "(" + REST_6
  const REST_4: string := "main" + REST_5
  const REST_3: string := Spaces(1) + REST_4
  const REST_2: string := "fun" + REST_3
  const REST_1: string := Spaces(8) + REST_2

  /** The hello-world program: a new line, `fun main() {`, the call
      `println("Hello, World!")` and `}`, each line indented. */
  const HELLO: string := "\n" + REST_1

  /* The pairs the iterator yields: `PAIRS_j` holds those from the `j`-th
     on, and `HELLO_PAIRS` all of them. */
  const PAIRS_14: seq<Pair> := []
  const PAIRS_13: seq<Pair> := [Pair(NewLine, Span(68, 69))] + PAIRS_14
  const PAIRS_12: seq<Pair> := [Pair(Symbol('}'), Span(67, 68))] + PAIRS_13
  const PAIRS_11: seq<Pair> := [Pair(NewLine, Span(58, 59))] + PAIRS_12
  const PAIRS_10: seq<Pair> := [Pair(Symbol(')'), Span(57, 58))] + PAIRS_11
  const PAIRS_9: seq<Pair> := [Pair(Str, Span(42, 57))] + PAIRS_10
  const PAIRS_8: seq<Pair> := [Pair(Symbol('('), Span(41, 42))] + PAIRS_9
  const PAIRS_7: seq<Pair> := [Pair(Ident, Span(34, 41))] + PAIRS_8
  const PAIRS_6: seq<Pair> := [Pair(NewLine, Span(21, 22))] + PAIRS_7
  const PAIRS_5: seq<Pair> := [Pair(Symbol('{'), Span(20, 21))] + PAIRS_6
  const PAIRS_4: seq<Pair> := [Pair(Symbol(')'), Span(18, 19))] + PAIRS_5
  const PAIRS_3: seq<Pair> := [Pair(Symbol('('), Span(17, 18))] + PAIRS_4
  const PAIRS_2: seq<Pair> := [Pair(Ident, Span(13, 17))] + PAIRS_3
  const PAIRS_1: seq<Pair> := [Pair(Fun, Span(9, 12))] + PAIRS_2
  const PAIRS_0: seq<Pair> := [Pair(NewLine, Span(0, 1))] + PAIRS_1

  /** New line; `fun`, `main`, `(`, `)`, `{`; new line; `println`, `(`, a
      string, `)`; new line; `}`; new line. */
  const HELLO_PAIRS: seq<Pair> := PAIRS_0

  /* Lexing from `REST_k` on yields the pairs still to come: each lemma
     takes one step of the iterator and leaves the rest to the next. */
  lemma {:induction false} HelloFrom20()
    requires IsSuffix("", HELLO)
    ensures Tokenize(Lex, HELLO, "") == PAIRS_14
  {
    EndStep(HELLO);
  }

  lemma {:induction false} HelloFrom19()
    requires IsSuffix(REST_19, HELLO)
    ensures Tokenize(Lex, HELLO, REST_19) == PAIRS_14
  {
    LexSpaces(8, "");
    SkipStep(HELLO, REST_19, "");
    HelloFrom20();
  }

  lemma {:induction false} HelloFrom18()
    requires IsSuffix(REST_18, HELLO)
    ensures Tokenize(Lex, HELLO, REST_18) == PAIRS_13
  {
    LexLineFeed(REST_19);
    YieldStep(HELLO, REST_18, NewLine, REST_19);
    HelloFrom19();
  }

  lemma {:induction false} HelloFrom17()
    requires IsSuffix(REST_17, HELLO)
    ensures Tokenize(Lex, HELLO, REST_17) == PAIRS_12
  {
    LexSymbolChar('}', REST_18);
    YieldStep(HELLO, REST_17, Symbol('}'), REST_18);
    HelloFrom18();
  }

  lemma {:induction false} HelloFrom16()
    requires IsSuffix(REST_16, HELLO)
    ensures Tokenize(Lex, HELLO, REST_16) == PAIRS_12
  {
    LexSpaces(8, REST_17);
    SkipStep(HELLO, REST_16, REST_17);
    HelloFrom17();
  }

  lemma {:induction false} HelloFrom15()
    requires IsSuffix(REST_15, HELLO)
    ensures Tokenize(Lex, HELLO, REST_15) == PAIRS_11
  {
    LexLineFeed(REST_16);
    YieldStep(HELLO, REST_15, NewLine, REST_16);
    HelloFrom16();
  }

  lemma {:induction false} HelloFrom14()
    requires IsSuffix(REST_14, HELLO)
    ensures Tokenize(Lex, HELLO, REST_14) == PAIRS_10
  {
    LexSymbolChar(')', REST_15);
    YieldStep(HELLO, REST_14, Symbol(')'), REST_15);
    HelloFrom15();
  }

  lemma {:induction false} HelloFrom13()
    requires IsSuffix(REST_13, HELLO)
    ensures Tokenize(Lex, HELLO, REST_13) == PAIRS_9
  {
    PlainStrBody("Hello, World!");
    LexStringLiteral("Hello, World!", REST_14);
    YieldStep(HELLO, REST_13, Str, REST_14);
    HelloFrom14();
  }

  lemma {:induction false} HelloFrom12()
    requires IsSuffix(REST_12, HELLO)
    ensures Tokenize(Lex, HELLO, REST_12) == PAIRS_8
  {
    LexSymbolChar('(', REST_13);
    YieldStep(HELLO, REST_12, Symbol('('), REST_13);
    HelloFrom13();
  }

  lemma {:induction false} HelloFrom11()
    requires IsSuffix(REST_11, HELLO)
    ensures Tokenize(Lex, HELLO, REST_11) == PAIRS_7
  {
    LexWord("println", REST_12);
    YieldStep(HELLO, REST_11, Ident, REST_12);
    HelloFrom12();
  }

  lemma {:induction false} HelloFrom10()
    requires IsSuffix(REST_10, HELLO)
    ensures Tokenize(Lex, HELLO, REST_10) == PAIRS_7
  {
    LexSpaces(12, REST_11);
    SkipStep(HELLO, REST_10, REST_11);
    HelloFrom11();
  }

  lemma {:induction false} HelloFrom9()
    requires IsSuffix(REST_9, HELLO)
    ensures Tokenize(Lex, HELLO, REST_9) == PAIRS_6
  {
    LexLineFeed(REST_10);
    YieldStep(HELLO, REST_9, NewLine, REST_10);
    HelloFrom10();
  }

  lemma {:induction false} HelloFrom8()
    requires IsSuffix(REST_8, HELLO)
    ensures Tokenize(Lex, HELLO, REST_8) == PAIRS_5
  {
    LexSymbolChar('{', REST_9);
    YieldStep(HELLO, REST_8, Symbol('{'), REST_9);
    HelloFrom9();
  }

  lemma {:induction false} HelloFrom7()
    requires IsSuffix(REST_7, HELLO)
    ensures Tokenize(Lex, HELLO, REST_7) == PAIRS_5
  {
    LexSpaces(1, REST_8);
    SkipStep(HELLO, REST_7, REST_8);
    HelloFrom8();
  }

  lemma {:induction false} HelloFrom6()
    requires IsSuffix(REST_6, HELLO)
    ensures Tokenize(Lex, HELLO, REST_6) == PAIRS_4
  {
    LexSymbolChar(')', REST_7);
    YieldStep(HELLO, REST_6, Symbol(')'), REST_7);
    HelloFrom7();
  }

  lemma {:induction false} HelloFrom5()
    requires IsSuffix(REST_5, HELLO)
    ensures Tokenize(Lex, HELLO, REST_5) == PAIRS_3
  {
    LexSymbolChar('(', REST_6);
    YieldStep(HELLO, REST_5, Symbol('('), REST_6);
    HelloFrom6();
  }

  lemma {:induction false} HelloFrom4()
    requires IsSuffix(REST_4, HELLO)
    ensures Tokenize(Lex, HELLO, REST_4) == PAIRS_2
  {
    LexWord("main", REST_5);
    YieldStep(HELLO, REST_4, Ident, REST_5);
    HelloFrom5();
  }

  lemma {:induction false} HelloFrom3()
    requires IsSuffix(REST_3, HELLO)
    ensures Tokenize(Lex, HELLO, REST_3) == PAIRS_2
  {
    LexSpaces(1, REST_4);
    SkipStep(HELLO, REST_3, REST_4);
    HelloFrom4();
  }

  lemma {:induction false} HelloFrom2()
    requires IsSuffix(REST_2, HELLO)
    ensures Tokenize(Lex, HELLO, REST_2) == PAIRS_1
  {
    assert KeywordText(Fun) == "fun" && IsKeyword(Fun);
    LexKeyword(Fun, REST_3);
    YieldStep(HELLO, REST_2, Fun, REST_3);
    HelloFrom3();
  }

  lemma {:induction false} HelloFrom1()
    requires IsSuffix(REST_1, HELLO)
    ensures Tokenize(Lex, HELLO, REST_1) == PAIRS_1
  {
    LexSpaces(8, REST_2);
    SkipStep(HELLO, REST_1, REST_2);
    HelloFrom2();
  }

  lemma {:induction false} HelloFrom0()
    ensures Tokenize(Lex, HELLO, HELLO) == PAIRS_0
  {
    assert IsSuffix(HELLO, HELLO);
    LexLineFeed(REST_1);
    YieldStep(HELLO, HELLO, NewLine, REST_1);
    HelloFrom1();
  }

  /** Lexing the hello-world program yields a new line; `fun`, the name
      `main`, `(`, `)` and `{`; a new line; the name `println`, `(`, a
      string and `)`; a new line; `}`; and a last new line, each with the
      span of its text. White space is skipped and the iteration stops at
      the end of the input. */
  lemma {:induction false} HelloExample()
    ensures Tokenize(Lex, HELLO, HELLO) == HELLO_PAIRS
  {
    HelloFrom0();
  }
}
