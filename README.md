# m-tran in Dafny

A model of m-tran, a tree-walking implementation of a small Kotlin-like
language, and proofs about it. The model covers the whole pipeline:

- **Lexer** (`Tokens`, `Lexer`): `Token::parse` with its twelve sub-lexers
  tried in a fixed order and its folding of unrecognised text into one
  `Unexpected` token, and the `Lexer` iterator that turns the shrinking
  remainder into byte spans and drops white space.
- **Parser** (`Parser`, `ParserHelpers`, `ParserLoops`, `TopLevel`,
  `Literals`): the backtracking recursive-descent parser over slices of
  pairs. Every level tries its alternatives in declaration order. Binary
  operators split at the first top-level occurrence of their token. The
  list, body and program loops are modelled, and so is the unescaping of
  character and string literals.
- **Type checker**: all three revisions of the typing rules found in the
  sources.
  - `Validation` is the newest (`src/analyzer/validation/`). Its `Checker`
    class has the context fields that the rules update: scopes, errors,
    the current span and the return type.
  - `ValidationMid` is the middle one (`src/analyzer/validation.rs`).
  - `TypesOld` is the oldest (`src/analyzer/types.rs`), together with the
    `Analyzer.Context` class of `src/analyzer/mod.rs` that drives it.
  - `Typing` is a declarative typing table for the side-effect-free
    expressions. The revisions are proved to agree or disagree with it.
- **Interpreter** (`Eval`, `Objects`, `Int32`, `RuntimeScopes`,
  `Interpreter`): a big-step evaluator over an environment of scopes, a
  return slot and printed output.
  - Arithmetic is wrapping `i32` arithmetic.
  - Indexing is bounds-checked and aborts the run.
  - `Interpreter.Context` is a class with the run-time context's fields.
    Its methods are proved to compute the evaluator's functions.

Source text is modelled as ASCII `seq<char>`. Panics, `unreachable!` and
`todo!` are either excluded by preconditions or modelled as explicit error
outcomes. Which one is stated in each member's contract.

## Model

| member | source | states |
|---|---|---|
| Tokens.ParseComment | src/lexer/token.rs:76-92 | recognised exactly on `/*` or `//`; an unterminated block comment is `Unexpected` and takes the rest; a line comment is `NewLine` or, at end of input, `End` with nothing left |
| Tokens.ParseSymbol | src/lexer/token.rs:94-102 | recognised exactly when the first character is one of the symbol characters, yielding `Symbol(c)` and the rest |
| Tokens.ParseWhiteSpace | src/lexer/token.rs:104-111 | recognised exactly on a leading space, yielding `WhiteSpace` |
| Tokens.WhiteSpaceRun | src/lexer/token.rs:104-111 | the white-space token takes every leading space and stops at the first non-space |
| Tokens.ParseNewLine | src/lexer/token.rs:113-124 | recognised exactly on `\r` or `\n`; `\r\n` is consumed as one `NewLine` |
| Tokens.ParseBoolOp | src/lexer/token.rs:126-132 | `&&` is `AndOp`, `\|\|` is `OrOp`, two characters consumed, nothing else recognised |
| Tokens.ParseRangeOp | src/lexer/token.rs:134-136 | `..` is `RangeOp`, two characters consumed |
| Tokens.KeywordToken | src/lexer/token.rs:141-156 | a word maps to a keyword only if it is that keyword's spelling |
| Tokens.KeywordSpellingRoundTrip | src/lexer/token.rs:141-156 | every keyword's spelling maps back to that keyword |
| Tokens.ParseKw | src/lexer/token.rs:138-160 | only a keyword is produced, only from a leading letter, and something is consumed |
| Tokens.ParseKwWord | src/lexer/token.rs:138-160 | a keyword spelling followed by a non-letter is read as that keyword, leaving the rest |
| Tokens.ParseIdent | src/lexer/token.rs:162-174 | recognised exactly on a leading letter; consumes the whole alphanumeric run |
| Tokens.ParseBool | src/lexer/token.rs:176-184 | `true` and `false` as prefixes, with no check of what follows |
| Tokens.ScanChar | src/lexer/token.rs:238-252 | the character loop never consumes more than its input |
| Tokens.ParseChar | src/lexer/token.rs:226-255 | only a leading `'` yields something, always a `Char` token; no closing quote is required |
| Tokens.ParseCharLoop | src/lexer/token.rs:226-255 | the byte loop with its `escape` flag computes `ParseChar` |
| Tokens.ParseCharExamples | src/lexer/token.rs:307-312 | `'a'` and `'\t'` are characters; the bad escape `'\l'` is not |
| Tokens.ScanStr | src/lexer/token.rs:200-214 | the string loop stops right after an unescaped quote or at the end of input; a bad escape sets `fail` for good |
| Tokens.ParseStr | src/lexer/token.rs:186-224 | as written: recognised exactly on a leading `"`, and consumes something |
| Tokens.ParseStrClosed | src/lexer/token.rs:186-224 | corrected `parse_str`, kept beside the lexer (which uses `ParseStr` as written): `Str` only when the loop stopped at a closing quote, `Unexpected` otherwise |
| Tokens.ParseStrLoop | src/lexer/token.rs:186-224 | the byte loop with `escape` and `fail` computes `ParseStr` |
| Tokens.ScanStrStep | src/lexer/token.rs:200-214 | one iteration of the string loop, case by case |
| Tokens.ParseStrWellFormed | src/lexer/token.rs:186-224 | every quote, well-formed body, quote is one `Str` token |
| Tokens.ParseStrBadEscapeExample | src/lexer/token.rs:299-305 | `"\lol"` is `Unexpected` |
| Tokens.ParseInt | src/lexer/token.rs:257-293 | recognised exactly on a leading hex digit or `x`; the result is an `Int` or `Unexpected` |
| Tokens.WholeDigitRun | src/lexer/token.rs:258-267 | the run of hex digits and `x` is taken whole and split from the text after it |
| Tokens.DecimalRun | src/lexer/token.rs:257-293 | a decimal run not followed by a letter or digit is `Int` of its base-10 value, `Unexpected` when that is no `i32`, and the rest is left |
| Tokens.HexRun | src/lexer/token.rs:269-270 | after `0x` the run is read in base 16, with the same outcomes |
| Tokens.BinaryRun | src/lexer/token.rs:271-272 | after `0b` the run is read in base 2, with the same outcomes |
| Tokens.DecimalOutOfRange | src/lexer/token.rs:273-293 | a decimal numeral above `i32::MAX` is `Unexpected` and leaves the rest |
| Tokens.TrailingLetters | src/lexer/token.rs:277-292 | a run followed by a letter that cannot continue it is `Unexpected`, and the whole alphanumeric run after it is consumed |
| Tokens.ParseIntDecimalExample | src/lexer/token.rs:316 | `42` is `Int(42)` |
| Tokens.ParseIntHexExample | src/lexer/token.rs:317 | `0xfd2` is `Int(4050)` |
| Tokens.ParseIntBinaryExample | src/lexer/token.rs:318 | `0b10011` is `Int(19)` |
| Tokens.ParseIntNoDigitExample | src/lexer/token.rs:319 | `hello` is not an integer |
| Tokens.ParseIntOutOfRangeExample | src/lexer/token.rs:273-289 | `2147483648` is `Unexpected` |
| Tokens.ParseIntGluedExample | src/lexer/token.rs:277-292 | `12gh+` is one `Unexpected` token, leaving `+` |
| Tokens.SubLexer | src/lexer/token.rs:39-52 | the twelve sub-lexers as written, `ParseStr` among them: each listed sub-lexer returns a suffix and consumes something; `End` only with nothing left |
| Tokens.SubLexerStart | src/lexer/token.rs:39-52 | each sub-lexer recognises nothing unless the input starts with one of its first characters |
| Tokens.FirstMatch | src/lexer/token.rs:54-58 | nothing is found exactly when every sub-lexer from the given one on fails |
| Tokens.FirstMatchAt | src/lexer/token.rs:54-58 | the first sub-lexer to succeed wins |
| Tokens.Lex | src/lexer/token.rs:33-68 | `Token::parse` as written: the remainder is a suffix, strictly shorter on non-empty input; `(End, "")` exactly on empty input |
| Tokens.UnexpectedRun | src/lexer/token.rs:60-66 | an `Unexpected` token reaches at least one character further, and what follows it lexes as a real token |
| Tokens.UnexpectedRunSwallows | src/lexer/token.rs:60-66 | every position swallowed by an `Unexpected` token would itself lex as `Unexpected` |
| Tokens.LexByFirstChar | src/lexer/token.rs:54-58 | `Token::parse` takes a sub-lexer's result when no earlier one can start with the first character |
| Tokens.Parse | src/lexer/token.rs:33-68 | the sub-lexer loop and the loop that grows `unexpected_count` compute `Lex` |
| Tokens.LexKeyword | src/lexer/token.rs:138-160 | a keyword followed by a non-letter lexes as that keyword |
| Tokens.KeywordRecognised | src/lexer/token.rs:138-160 | the keyword sub-lexer is the one chosen for a keyword |
| Tokens.LexKeywordGluedToNumber | src/lexer/token.rs:138-160 | `fun2` lexes as `fun` followed by `2` |
| Tokens.LexDecimal | src/lexer/token.rs:257-293 | a decimal numeral within `i32`, not followed by a letter or digit, lexes to `Int` of its value |
| Tokens.DecimalRecognised | src/lexer/token.rs:257-293 | the integer sub-lexer reads such a numeral to its value |
| Tokens.ScanWellFormedBody | src/lexer/token.rs:200-214 | the string loop runs through a well-formed body to its closing quote without failing |
| Tokens.LexStringLiteral | src/lexer/token.rs:186-224 | a well-formed string literal lexes as one `Str` token |
| Tokens.StringRecognised | src/lexer/token.rs:186-224 | the string sub-lexer is the one chosen for a string literal |
| Tokens.LexCharLiteral | src/lexer/token.rs:226-255 | a character literal lexes as one `Char` token |
| Tokens.CharRecognised | src/lexer/token.rs:226-255 | the character sub-lexer is the one chosen for a character literal |
| Tokens.StrTokenIsWellFormed | src/lexer/token.rs:186-224 | corrected: a `Str` token is a quote, a well-formed body and a closing quote |
| Tokens.ScanClosedBody | src/lexer/token.rs:200-214 | a scan that stops at a quote without failure read a well-formed body |
| Tokens.ParseStrAcceptsUnterminated | src/lexer/token.rs:216-223 | as written, the unterminated `"\"` is a `Str` token; corrected, it is `Unexpected` |
| Tokens.LexAcceptsUnterminated | src/lexer/token.rs:216-223 | as written, `Token::parse` reads all of `"\"` as one `Str` token |
| Tokens.PlainStrBody | src/lexer/token.rs:200-214 | a body with no quote and no backslash is well formed |
| Lexer.Pair.Str | src/lexer/mod.rs:18-23 | the text of a pair is exactly the source between its span's ends |
| Lexer.LexReadsPrefix | src/lexer/mod.rs:42-66 | `Token::parse` returns a suffix, shrinks non-empty input and gives `End` exactly at the end, as the iterator needs |
| Lexer.NextPair | src/lexer/mod.rs:42-66 | the iterator's remaining text only shrinks; it is empty when iteration ends |
| Lexer.NextPairIsLexeme | src/lexer/mod.rs:42-66 | a yielded pair is the token lexed at its span's start, and its span is exactly the text consumed |
| Lexer.TokenizeYieldsLexemes | src/lexer/mod.rs:42-66 | no pair the iterator yields is white space or `End`, and each spans its own lexeme |
| Lexer.TokenizeInOrder | src/lexer/mod.rs:43-51 | the yielded spans are well formed, increase, and do not overlap |
| Lexer.NextPairYields | src/lexer/mod.rs:43-51 | a token other than white space or `End` is yielded with span `lo = \|original\| - \|remaining\|`, `hi = \|original\| - \|rest\|` |
| Lexer.NextPairSkips | src/lexer/mod.rs:53-55 | white space is skipped and the iterator goes on after it |
| Lexer.NextPairEnds | src/lexer/mod.rs:57-65 | `End` ends iteration and is not yielded |
| Lexer.TokenizeStep | src/lexer/mod.rs:42-66 | `collect()` is the pair yielded first followed by the rest |
| Lexer.Lexer.constructor | src/lexer/mod.rs:31-36 | nothing is consumed yet |
| Lexer.Lexer.Next | src/lexer/mod.rs:42-66 | one call of `next` yields `NextPair` and moves `remaining` to where it leaves off |
| Lexer.Lexer.Collect | src/lexer/mod.rs:42-66 | draining the iterator yields `Tokenize` and consumes all the text |
| LexerExamples.LexLineFeed | src/lexer/token.rs:113-124 | `Token::parse` reads a line feed as one `NewLine` |
| LexerExamples.LexSpaces | src/lexer/token.rs:104-111 | a run of spaces is one `WhiteSpace` token, up to the first non-space |
| LexerExamples.LexSymbolChar | src/lexer/token.rs:94-102 | a symbol character other than `/` is one `Symbol` token |
| LexerExamples.LexWord | src/lexer/token.rs:162-174 | a word of letters that is no keyword and cannot start `true` or `false` is one `Ident` token |
| LexerExamples.YieldStep | src/lexer/mod.rs:43-51 | `collect()` starts with the token read, spanning the text it consumed |
| LexerExamples.SkipStep | src/lexer/mod.rs:53-55 | white space adds nothing to `collect()` |
| LexerExamples.EndStep | src/lexer/mod.rs:57-65 | at the end of the text `collect()` is empty |
| LexerExamples.HelloExample | src/lexer/mod.rs:73-104 | the hello-world program lexes to the fourteen tokens listed there, each with the span of its text |
| Literals.EscapeValue | src/parser/expr/short_expr.rs:93-145 | the quote, backslash and dollar escapes stand for themselves; the others stand for control characters |
| Literals.EncodeChar | src/parser/expr/short_expr.rs:93-110 | a character literal is quoted on both sides |
| Literals.DecodeEncodeChar | src/parser/expr/short_expr.rs:93-110 | decoding a written character literal gives back its character |
| Literals.DecodeCharExamples | src/parser/expr/short_expr.rs:190-200 | `'a'`, `'\t'` and `'\\'` decode to `a`, TAB and backslash |
| Literals.Unescape | src/parser/expr/short_expr.rs:121-141 | unescaping never lengthens the text; `None` where the program reaches `unreachable!` |
| Literals.DecodeStringLoop | src/parser/expr/short_expr.rs:112-145 | the loop with its `escaped` flag computes the decoding |
| Literals.EscapeChar | src/parser/expr/short_expr.rs:121-141 | each character is written with one or two characters |
| Literals.UnescapeEscape | src/parser/expr/short_expr.rs:121-141 | unescaping undoes escaping |
| Literals.EscapeIsStrBody | src/lexer/token.rs:186-224 | an escaped string is a body the lexer accepts |
| Literals.StrBodyUnescapes | src/parser/expr/short_expr.rs:121-141 | every body the lexer accepts decodes without panicking |
| Literals.UnescapePlain | src/parser/expr/short_expr.rs:116-119 | without a backslash the text is unchanged, so the shortcut agrees with the loop |
| Literals.DecodeEncodeString | src/parser/expr/short_expr.rs:112-145 | decoding the string literal that spells `s` gives `s` |
| Literals.DecodeStringExamples | src/parser/expr/short_expr.rs:202-212 | `"Hello"` decodes to `Hello` |
| Literals.DecodeStringEscapesExample | src/parser/expr/short_expr.rs:202-212 | `"\r\"\n\t"` decodes to CR, quote, LF, TAB |
| Literals.UnescapeStep | src/parser/expr/short_expr.rs:121-141 | one iteration of the unescaping loop, case by case |
| Int32.Wrap | src/interpreter/eval/math.rs:12-43 | two's-complement reduction: congruent modulo 2^32, the identity in range |
| Int32.TruncDivRoundsTowardZero | src/interpreter/eval/math.rs:35-43 | Rust's division rounds toward zero, with a remainder that has the dividend's sign |
| Int32.TruncDivDiffersFromEuclidean | src/interpreter/eval/math.rs:35-43 | `-7 / 2` is `-3`, not Euclidean `-4` |
| Int32.AddWrapsAround | src/interpreter/eval/math.rs:65 | `MAX + 1 == MIN` |
| Int32.SubWrapsAround | src/interpreter/eval/math.rs:17-25 | `MIN - 1 == MAX` |
| Int32.NegWrapsAround | src/interpreter/eval/math.rs:12-15 | `-MIN == MIN` |
| Int32.DivWrapsAround | src/interpreter/eval/math.rs:35-43 | `MIN / -1 == MIN` |
| Int32.WrappingExactWhenInRange | src/interpreter/eval/math.rs:12-43 | the wrapping operations are exact when the result fits |
| Int32.DigitValue | src/lexer/token.rs:269-275 | a digit's value is below its radix |
| Int32.ParseRadix | src/lexer/token.rs:269-275 | succeeds exactly on a non-empty digit string of the radix whose value fits in `i32`, giving that value |
| Int32.DigitsValueSnoc | src/lexer/token.rs:269-275 | appending a digit multiplies the value by the radix and adds the digit |
| Int32.DecimalValueExample | src/lexer/token.rs:316 | `"42".parse()` is 42 |
| Int32.HexValueExample | src/lexer/token.rs:317 | `fd2` in base 16 is 4050 |
| Int32.BinaryValueExample | src/lexer/token.rs:318 | `10011` in base 2 is 19 |
| Int32.OverflowExample | src/lexer/token.rs:273-274 | `"2147483648".parse()` fails: it is one past `i32::MAX` |
| Int32.DigitChar | src/interpreter/object.rs:15 | a decimal digit is an ASCII digit |
| Int32.DecimalText | src/interpreter/object.rs:15 | decimal notation is a non-empty run of ASCII digits |
| Int32.DecimalTextValue | src/interpreter/object.rs:15 | the decimal notation reads back as the number |
| Int32.DecimalRoundTrip | src/lexer/token.rs:269-275 | parsing the decimal text of a non-negative `i32` gives it back |
| TopLevel.Delta | src/parser/expr/math_expr.rs:87-105 | a token changes the nesting level by at most one |
| TopLevel.ToplevelIndexOfIsFirst | src/parser/expr/math_expr.rs:87-105 | the result is the first index where the token is at depth 0, or `usize::MAX` when there is none |
| TopLevel.FirstAtTopLevelFrom | src/parser/expr/math_expr.rs:87-105 | the same, from any starting index |
| TopLevel.ToplevelIndexOfLoop | src/parser/expr/math_expr.rs:87-105 | the loop with `nesting_level` computes the index |
| TopLevel.FirstClosing | src/parser/expr/math_expr.rs:13-26 | the matching parenthesis is searched from the given index on, and the search stays within the slice |
| TopLevel.MatchingParen | src/parser/expr/math_expr.rs:13-26 | the index found lies within the slice, or at its end when there is none |
| TopLevel.MatchingParenLoop | src/parser/expr/math_expr.rs:13-26 | the scan with its counter computes the matching index |
| TopLevel.MatchingParenBalanced | src/parser/expr/math_expr.rs:13-26 | the found `)` closes the opening one: the pairs before it never go below its level and end at it |
| TopLevel.FirstClosingBalanced | src/parser/expr/math_expr.rs:13-26 | the same, from any index the scan has reached |
| ParserHelpers.SpanOf | src/parser/mod.rs:46-54 | a spanned node covers its first pair's start to its last pair's end |
| ParserHelpers.ExpectToken | src/parser/helpers.rs:5-12 | a matching first token is returned with the tail; empty input is `UnexpectedEndOfInput`; a mismatch is `UnexpectedToken(actual, expected)` |
| ParserHelpers.ExpectSymbol | src/parser/helpers.rs:14-20 | `expect_token` on `Symbol(c)`, with the same error and the token dropped |
| ParserHelpers.IgnoreToken | src/parser/helpers.rs:63-68 | removes one leading matching token and otherwise leaves the input unchanged |
| ParserHelpers.SkipNewLines | src/parser/mod.rs:59-60 | removes exactly the leading `NewLine`s |
| Parser.ParseIdent | src/parser/expr/short_expr.rs:46-51 | succeeds exactly on an `Ident` token, named by its text, consuming one pair |
| Parser.ParseSpannedIdent | src/parser/expr/short_expr.rs:46-51 | the same, with the token's span |
| Parser.ParseLiteral | src/parser/expr/short_expr.rs:78-91 | succeeds exactly on a literal token and consumes exactly it; empty input is `UnexpectedEndOfInput` |
| Parser.ParseExpr | src/parser/expr/mod.rs:17-47 | the result belongs to one of the four levels and leaves a proper suffix of the input |
| Parser.ParseBoxed | src/parser/mod.rs:46-54 | the node is wrapped in a span starting at the first pair |
| Parser.ParseTop | src/parser/expr/top_expr.rs:13-40 | only top-level statements are produced |
| Parser.ParseBinding | src/parser/expr/top_expr.rs:60-79 | starts with `val` or `var`; mutable exactly for `var` |
| Parser.ParseSet | src/parser/expr/top_expr.rs:87-99 | `name = expr` |
| Parser.ParseCall | src/parser/expr/top_expr.rs:107-117 | `name (` arguments |
| Parser.ParseSetByIndex | src/parser/expr/top_expr.rs:125-137 | `name [` index `] = expr` |
| Parser.ParseControl | src/parser/expr/control_expr.rs:12-36 | only control statements are produced |
| Parser.ParseReturn | src/parser/expr/control_expr.rs:52-62 | succeeds exactly on a leading `return`, whether or not an expression follows |
| Parser.ParseFor | src/parser/expr/control_expr.rs:71-90 | `for ( ident in` expr `)` body |
| Parser.ParseWhile | src/parser/expr/control_expr.rs:98-111 | `while (` expr `)` body |
| Parser.ParseIf | src/parser/expr/control_expr.rs:120-149 | `if (` expr `)` body |
| Parser.ParseElse | src/parser/expr/control_expr.rs:131-139 | with no `else`, the else branch is empty and the input resumes after the body |
| Parser.ParseMath | src/parser/expr/math_expr.rs:3 | only arithmetic nodes are produced |
| Parser.ParseComparison | src/parser/expr/comparison_expr.rs:4 | only comparison nodes are produced |
| Parser.ParseNeg | src/parser/expr/math_expr.rs:43-49 | a `Neg` node after a leading `-` |
| Parser.ParseBinary | src/parser/expr/math_expr.rs:51-83 | a node of the operator; without a top-level operator token, `UnexpectedEndOfInput` |
| Parser.ParseParens | src/parser/expr/math_expr.rs:8-38 | `(` leads; with no matching `)`, `UnexpectedEndOfInput` |
| Parser.ParseShort | src/parser/expr/short_expr.rs:11-31 | succeeds exactly on a leading literal or `Ident` token |
| Parser.ParseGetByIndex | src/parser/expr/short_expr.rs:59-68 | `name [` index `]` |
| Parser.ExpectBody | src/parser/helpers.rs:70-94 | starts with `{` and leaves a proper suffix |
| Parser.BodyLoop | src/parser/helpers.rs:76-93 | statements read so far are kept in order and only extended |
| Parser.ExpectSequence | src/parser/helpers.rs:22-61 | starts with the start token; every element is of the requested kind |
| Parser.SequenceLoop | src/parser/helpers.rs:37-60 | elements read so far are kept in order and only extended |
| Parser.ParseElement | src/parser/mod.rs:87-118 | each element parser yields an item of its kind |
| Parser.ParseType | src/parser/mod.rs:71-85 | named by the leading identifier's text; `Generic` exactly when `<` follows |
| Parser.ExprsOf | src/parser/expr/top_expr.rs:107-117 | the argument expressions, in order |
| Parser.TypesOf | src/parser/mod.rs:71-85 | the type parameters, in order |
| Parser.ArgsOf | src/parser/mod.rs:87-118 | the declared arguments, in order |
| Parser.ParseFun | src/parser/mod.rs:87-118 | `fun name`, named by the identifier's text |
| Parser.ParseRetType | src/parser/mod.rs:99-105 | no return type, and nothing consumed, exactly when no `:` follows |
| Parser.ParseProgram | src/parser/mod.rs:56-69 | a parsed program consumes every pair |
| Parser.ProgramLoop | src/parser/mod.rs:59-67 | functions are kept in order and only extended; the loop stops only when the input is used up |
| ParserLoops.ExpectSequenceLoop | src/parser/helpers.rs:22-61 | the loop reassigning `mut_pairs` computes `ExpectSequence` |
| ParserLoops.ExpectBodyLoop | src/parser/helpers.rs:70-94 | the loop computes `ExpectBody` |
| ParserLoops.ParseProgramLoop | src/parser/mod.rs:56-69 | the loop computes `ParseProgram` |
| ParserProps.BinaryNeedsOperator | src/parser/expr/math_expr.rs:59-81 | without its operator token, a binary parser fails with `UnexpectedEndOfInput` |
| ParserProps.BinarySplit | src/parser/expr/math_expr.rs:59-81 | the split is at the first top-level operator; the left operand uses all pairs before it; the right operand is parsed from the pair after it |
| ParserProps.BinaryJoin | src/parser/expr/math_expr.rs:59-81 | conversely, whole operands on both sides of the first top-level operator make the binary node |
| ParserProps.LoneLiteralNotTopMathComparison | src/parser/expr/mod.rs:17-47 | a lone literal is not a top, arithmetic or comparison expression |
| ParserProps.LoneLiteral | src/parser/expr/short_expr.rs:78-91 | a lone literal pair parses as that literal |
| ParserProps.MathTriesInOrder | src/parser/expr/math_expr.rs:3 | `MathExpr` returns the first alternative, in the order `Neg, Range, Sub, Add, Mul, Div`, that succeeds |
| ParserProps.MathFails | src/parser/expr/mod.rs:35 | when every alternative fails, `WrongExprType` at the first pair |
| ParserProps.ComparisonTriesInOrder | src/parser/expr/comparison_expr.rs:4 | `And, Or, LessThan, MoreThan`, first success wins, otherwise `WrongExprType` at the first pair |
| ParserProps.ExprTriesInOrder | src/parser/expr/mod.rs:25-37 | empty input is `UnexpectedEndOfInput`; a level is only reached when the earlier ones fail; failure is `WrongExprType` at the first pair |
| ParserProps.LiteralStartNotTop | src/parser/expr/top_expr.rs:13-40 | a slice starting with a literal is not a statement, negation or parenthesised expression |
| ParserProps.LiteralOpLiteralIsMath | src/parser/expr/math_expr.rs:3 | literal, operator, literal is that operator's node |
| ParserProps.LiteralOpLiteral | src/parser/expr/math_expr.rs:140-146 | `a op b` parses whole to `Binary(op, a, b)` for each arithmetic operator |
| ParserProps.LiteralThenExpr | src/parser/expr/math_expr.rs:59-81 | a literal, an operator and an expression without earlier-tried operators group to the right |
| ParserProps.EarlierOperatorsFail | src/parser/expr/math_expr.rs:59-81 | operators tried earlier and absent from the tail fail |
| ParserProps.ExprThenLiteral | src/parser/expr/math_expr.rs:59-81 | an expression without the operator or earlier ones, the operator and a literal group to the left |
| ParserProps.OperatorsBeforeFail | src/parser/expr/math_expr.rs:59-81 | operators tried earlier and absent from the head fail |
| ParserProps.IntPair | src/parser/expr/short_expr.rs:78-91 | an integer token reads as its literal |
| ParserProps.IntOpInt | src/parser/expr/math_expr.rs:140-146 | `x op y` parses to `Binary(op, x, y)` |
| ParserProps.IntThenExpr | src/parser/expr/math_expr.rs:148-152 | `x op tail` groups to the right |
| ParserProps.ExprThenInt | src/parser/expr/math_expr.rs:148-152 | `head op z` groups to the left |
| ParserProps.TwoOperators | src/parser/expr/math_expr.rs:154-172 | `x a y b z` groups to the left exactly when `b` is tried before `a` |
| ParserProps.SubGroupsRight | src/parser/expr/math_expr.rs:148-152 | `10 - 3 - 2` parses as `10 - (3 - 2)` |
| ParserProps.SubBeforeAdd | src/parser/expr/math_expr.rs:3 | `10 - 3 + 2` parses as `10 - (3 + 2)` |
| ParserProps.MulBindsTighter | src/parser/expr/math_expr.rs:159-162 | `5 + 3 * 4` parses as `5 + (3 * 4)` |
| ParserProps.DivThenMul | src/parser/expr/math_expr.rs:164-167 | `30 / 5 * 5` parses as `(30 / 5) * 5` |
| ParserExamples.LoneIdentNotTopMathComparison | src/parser/expr/mod.rs:15-37 | a lone identifier is no `TopExpr`, no `MathExpr` and no `ComparisonExpr` |
| ParserExamples.LoneIdent | src/parser/expr/short_expr.rs:20-25 | a lone identifier parses as `Ident` of its text |
| ParserExamples.IdentMinusLiteral | src/parser/expr/math_expr.rs:59-81 | `name - literal` parses as `Sub` of the identifier and the literal |
| ParserExamples.LenMinusOne | src/parser/expr/math_expr.rs:174-183 | `len - 1` parses as `Sub(len, 1)` |
| ParserExamples.RangeParensIsExpr | src/parser/expr/math_expr.rs:174-183 | `(len - 1)` holds no top-level operator and is no `TopExpr`, so `Expr` parses it as `Parens` |
| ParserExamples.ParenthesisedLenMinusOne | src/parser/expr/math_expr.rs:174-183 | `(len - 1)` is not split at its inner `-`; it parses as `Parens(len - 1)` |
| ParserExamples.RangeExample | src/parser/expr/math_expr.rs:174-183 | `0..(len - 1)` parses as a `Range` from 0 to `(len - 1)` |
| ParserExamples.SimpleType | src/parser/mod.rs:71-85 | a name not followed by `<` is a `Simple` type, leaving the pairs after it |
| ParserExamples.GenericOfOne | src/parser/mod.rs:71-85 | `Name<Param>` is the `Generic` type of the one simple parameter |
| ParserExamples.ArrayOfIntExample | src/parser/mod.rs:136-140 | `Array<Int>` is `Generic(Array, [Int])` |
| ParserExamples.GenericArgument | src/parser/mod.rs:91-96 | `name: Type<Param>` is one argument named by the identifier's text, of the generic type of the one simple parameter |
| ParserExamples.OneGenericArgument | src/parser/mod.rs:91-96 | `(name: Type<Param>)` is an argument list of exactly that one argument, leaving what follows the `)` |
| ParserExamples.SimpleReturnEmptyBody | src/parser/mod.rs:98-106 | `: Type {}` gives the return type `Type`, then an empty body with nothing left |
| ParserExamples.FunOfParts | src/parser/mod.rs:87-118 | `fun name`, an argument list, a return type and a body that each parse make the function named by the identifier's text, with those arguments, that return type and that body, leaving what the body leaves |
| ParserExamples.FunExampleParts | src/parser/mod.rs:142-150 | in `fun test(array: Array<Int>): Int {}`, the name reads `test`, the argument list is `array: Array<Int>`, the return type is `Int` and the body is empty |
| ParserExamples.FunExample | src/parser/mod.rs:142-150 | `fun test(array: Array<Int>): Int {}` is named `test`, has the argument `array: Array<Int>`, returns `Int` and has an empty body |
| CheckerTypes.FromType | src/analyzer/validation/mod.rs:27-54 | `Int`, `String` and `Boolean` are primitives, every other simple name (`Char` too) is `Unit`; `Array<T>` with one non-`Unit` parameter is an array, and anything else is `Unit` |
| CheckerTypes.FromWriteType | src/analyzer/validation/mod.rs:27-54 | every type a program can write reads back as itself |
| CheckerTypes.FromTypeWritable | src/analyzer/validation/mod.rs:27-54 | a written type is `Unit` or writable: never `Char`, never a range |
| CheckerTypes.FunTypeOf | src/analyzer/validation/mod.rs:62-73 | argument types in order; `Unit` when no return type is declared |
| CheckerTypes.ArgTypes | src/analyzer/validation/mod.rs:70 | each argument's declared type, in order |
| TypeScopes.FindVarInnermost | src/analyzer/mod.rs:57-64 | the lookup finds the innermost scope binding the name, or none when no scope binds it |
| TypeScopes.AddVar | src/analyzer/mod.rs:66-73 | only the innermost scope may change |
| TypeScopes.FindAfterAddVar | src/analyzer/mod.rs:66-73 | a redeclaration keeps the first type; other names are unaffected |
| TypeScopes.PushScope | src/analyzer/mod.rs:75-77 | one empty scope on top, the stack below unchanged |
| TypeScopes.PopScope | src/analyzer/mod.rs:79-81 | the innermost scope removed, nothing on an empty stack |
| TypeScopes.PushPop | src/analyzer/mod.rs:75-81 | a new scope hides nothing, and popping it restores the stack |
| Analyzer.Register | src/analyzer/mod.rs:17-28 | registering never removes a name |
| Analyzer.RegisterFirstWins | src/analyzer/mod.rs:17-28 | a name is registered iff it was or some function has it; the first definition's signature wins |
| Analyzer.PrintlnBuiltin | src/analyzer/mod.rs:87-95 | `println` keeps its built-in signature; a user `println` is a duplicate |
| Analyzer.CheckBody | src/analyzer/mod.rs:39-44 | checking a body writes only the innermost scope |
| Analyzer.RetTypeOf | src/analyzer/mod.rs:32-36 | the declared return type, or `Unit` |
| Analyzer.Context.constructor | src/analyzer/mod.rs:8-14 | `Context::default()`: everything empty |
| Analyzer.Context.GetFunctions | src/analyzer/mod.rs:17-28 | the table becomes `Register` of the program; nothing else changes |
| Analyzer.Context.ValidateFunctions | src/analyzer/mod.rs:30-47 | succeeds iff every function's body checks in a fresh scope; the stack is restored; the last function's return type is left current |
| Analyzer.Context.CheckStatements | src/analyzer/mod.rs:39-44 | the body loop computes `CheckBody` |
| Analyzer.Context.FindFunType | src/analyzer/mod.rs:49-55 | the registered signature, or `None` exactly when unregistered |
| Analyzer.Context.FindVarType | src/analyzer/mod.rs:57-64 | the reverse scope loop computes `FindVar` |
| Analyzer.Context.AddVarType | src/analyzer/mod.rs:66-73 | the scopes become `AddVar` |
| Analyzer.Context.PushScope | src/analyzer/mod.rs:75-77 | the scopes become `PushScope` |
| Analyzer.Context.PopScope | src/analyzer/mod.rs:79-81 | the scopes become `PopScope` |
| Analyzer.CheckProgram | src/analyzer/mod.rs:84-98 | the verdict is `ProgramOk`: `println`, then the program's functions, registered, and every body checks |
| Analyzer.HelloAccepted | src/analyzer/mod.rs:106-113 | the hello-world program (`main` calling `println` on a string) is accepted by `check_program` |
| TypesOld.Validate | src/analyzer/types.rs:75-290 | only the innermost scope is written; control statements, `Set` and `SetByIndex` are unchecked `Some(Unit)`; a binding that types binds its name |
| TypesOld.EnsureTypeEquality | src/analyzer/types.rs:251-263 | a result is the left operand's type; only the innermost scope is written |
| TypesOld.ArithAgrees | src/analyzer/types.rs:209-249 | on arithmetic, the table's type, with the scopes unchanged |
| TypesOld.ComparisonHasOperandType | src/analyzer/types.rs:265-281 | `<`/`>` on one primitive type have that type, where the table gives a boolean |
| TypesOld.NegKeepsOperandType | src/analyzer/types.rs:209-227 | `-x` has `x`'s type unchecked |
| TypesOld.CallByName | src/analyzer/types.rs:199-207 | a call's type is the declared return type by name; the arguments are ignored |
| TypesOld.BindingBinds | src/analyzer/types.rs:101-108 | a binding binds the value's type (first binding wins) and leaves other names alone |
| Typing.LiteralType | src/analyzer/validation/short.rs:3-14 | `Int`, `Boolean`, `Char`, `String` literals have the matching primitive type, one to one |
| Typing.Same | src/analyzer/validation/mod.rs:103-117 | the common type exactly when both are known and equal |
| Typing.IndexedType | src/analyzer/validation/top/mod.rs:73-77 | the cited lines are the `SetByIndex` rule, which types its indexed target; the indexing rule itself follows the design: an `Int` index into an array gives its element type, into a string `Char`; nothing else types |
| Typing.AddType | src/analyzer/validation/math.rs:47-61 | no `Unit` operand; a string on either side gives a string; otherwise equal operands; and conversely |
| Typing.ComparisonType | src/analyzer/validation/comparison.rs:3-47 | `&&`/`\|\|` need booleans; `<`/`>` need `Int`, `String` or `Char`; the result is a boolean |
| Typing.TypeOfErase | src/analyzer/validation/mod.rs:80-90 | spans play no part in typing |
| Typing.TypeOfShape | src/analyzer/validation/math.rs:3-45 | comparisons are boolean; negations keep `Int`/`Boolean`; `-`, `*` and `/` keep the common type; a range is a range of it |
| Typing.TypedArgs | src/analyzer/validation/top/mod.rs:21-25 | the types of the arguments that have one, in order; all of them exactly when every argument types |
| Typing.CallKey | src/analyzer/validation/top/mod.rs:27-39 | the key is present exactly when every argument typed |
| Validation.Checker.constructor | src/analyzer/mod.rs:32-38 | a body is checked with its return type current and one empty scope |
| Validation.Checker.Error | src/analyzer/validation/mod.rs:114 | one diagnostic at the current span is appended; nothing else changes |
| Validation.Checker.ErrorWithSpan | src/analyzer/validation/top/mod.rs:64-67 | one diagnostic at the given span is appended |
| Validation.Checker.Validate | src/analyzer/validation/mod.rs:80-101 | on covered expressions the table's type with the scopes unchanged, no error on success, an error on failure; the span is restored; the stack height is kept |
| Validation.Checker.ValidateMath | src/analyzer/validation/math.rs:3-38 | the same for arithmetic nodes |
| Validation.Checker.ValidateTop | src/analyzer/validation/top/mod.rs:5-17 | dispatch keeps the context invariants and the stack height |
| Validation.Checker.ValidateNeg | src/analyzer/validation/math.rs:6-23 | the operand must have the expected type; otherwise exactly one error and `None` |
| Validation.Checker.EnsureTypeEquality | src/analyzer/validation/mod.rs:103-117 | both operands are validated; the common type; exactly one "wrong operands" error for two known, different types |
| Validation.Checker.ValidateAdd | src/analyzer/validation/math.rs:47-61 | the type is `AddType` of the operands' types; an error whenever it is `None` |
| Validation.Checker.AddOperands | src/analyzer/validation/math.rs:52-58 | `AddType` once both operands have typed |
| Validation.Checker.ValidateComparison | src/analyzer/validation/comparison.rs:3-47 | a boolean exactly when `ComparisonType` of the common type gives one; an error otherwise |
| Validation.Checker.ValidateGetByIndex | src/analyzer/validation/top/mod.rs:73-77 | the cited lines are the `SetByIndex` rule, which validates its indexed target; the `GetByIndex` rule follows the design: the type is `IndexedType` of the target and the index; an error on failure |
| Validation.Checker.IndexTarget | src/analyzer/validation/top/mod.rs:73-77 | an array target gives its element type, a string `Char`; anything else is reported |
| Validation.Checker.ValidateCall | src/analyzer/validation/top/mod.rs:19-41 | the lookup uses the argument types when all typed, `None` otherwise |
| Validation.Checker.ValidateArgs | src/analyzer/validation/top/mod.rs:21-25 | each argument validated in turn; the result is `TypedArgs` |
| Validation.Checker.ValidateBinding | src/analyzer/validation/top/mod.rs:43-50 | the value's type is bound in the innermost scope and returned |
| Validation.Checker.ValidateSet | src/analyzer/validation/top/mod.rs:52-71 | an unbound name is reported at its own span; a type mismatch at the current span; success is `Unit` |
| Validation.Checker.ValidateStatement | src/analyzer/validation/top/control.rs:20-22 | one statement of a body, validated with `?`: on a table-covered statement it keeps the scopes and succeeds exactly when the statement has a type; success reports nothing, failure with every name bound reports something; a successful structured statement keeps the stack height |
| Validation.Checker.ValidateBody | src/analyzer/validation/top/control.rs:20-30 | the body loop stops at the first failure; on table-covered statements it passes exactly when every statement has a type, keeps the scopes, reports nothing on success and something on failure with every name bound; on success the stack height is kept |
| Validation.Checker.ValidateBlock | src/analyzer/validation/top/control.rs:38-60 | on statements the table covers, passes exactly when each has a type in a pushed scope (binding the loop variable for `for`); then the scope is popped and nothing is reported; a failure leaves the scope pushed |
| Validation.Checker.ValidateIf | src/analyzer/validation/top/control.rs:16-36 | a non-boolean condition gives exactly the "condition must have boolean type" error; with a boolean condition and covered branches, `Unit` exactly when every statement of both branches has a type in a new scope, and then nothing is reported |
| Validation.Checker.ValidateBranches | src/analyzer/validation/top/control.rs:20-30 | passes exactly when every statement of each branch has a type in a new scope; a failure leaves a scope pushed |
| Validation.Checker.ValidateFor | src/analyzer/validation/top/control.rs:38-60 | a non-iterable type gives exactly the "only array and range are iterable types" error; with an array or range of `T` and a covered body, `Unit` exactly when the body types with the loop variable bound to `T` in a new scope |
| Validation.Checker.ValidateWhile | src/analyzer/validation/top/control.rs:62-77 | a non-boolean condition gives exactly the condition error; with a boolean condition and a covered body, `Unit` exactly when the body types in a new scope |
| Validation.Checker.ValidateReturn | src/analyzer/validation/top/control.rs:79-96 | always `Unit`; "wrong return type" exactly when the type differs from the current return type |
| ValidationMid.Error | src/analyzer/validation.rs:79-83 | one diagnostic at the current span appended |
| ValidationMid.Validate | src/analyzer/validation.rs:75-351 | a return type and a scope stay; diagnostics are only appended; the stack never shrinks |
| ValidationMid.ValidateStatement | src/analyzer/validation.rs:111-136 | the same for calls, bindings, assignments and `return` |
| ValidationMid.ValidateControl | src/analyzer/validation.rs:138-199 | the same for `if`, `for` and `while` |
| ValidationMid.BinaryType | src/analyzer/validation.rs:265-342 | `<`/`>` keep a primitive operand type; a range is a range of it; otherwise one "can't compare types" error |
| ValidationMid.ValidateBinding | src/analyzer/validation.rs:129-136 | the context invariants are kept |
| ValidationMid.ValidateSet | src/analyzer/validation.rs:111-127 | the context invariants are kept |
| ValidationMid.ValidateIf | src/analyzer/validation.rs:138-158 | the context invariants are kept |
| ValidationMid.ValidateFor | src/analyzer/validation.rs:160-182 | the context invariants are kept |
| ValidationMid.ValidateWhile | src/analyzer/validation.rs:184-199 | the context invariants are kept |
| ValidationMid.ValidateReturn | src/analyzer/validation.rs:201-218 | always `Unit` when it types |
| ValidationMid.EnsureTypeEquality | src/analyzer/validation.rs:308-321 | the context invariants are kept |
| ValidationMid.ValidateAdd | src/analyzer/validation.rs:292-306 | the context invariants are kept |
| ValidationMid.AddTyped | src/analyzer/validation.rs:296-305 | the context invariants are kept |
| ValidationMid.ValidateArgs | src/analyzer/validation.rs:245-263 | at most one type per argument |
| ValidationMid.ValidateBody | src/analyzer/validation.rs:138-199 | the context invariants are kept |
| ValidationMid.LeftFailureStops | src/analyzer/validation.rs:308-321 | a failing left operand ends the check: no type, and only the left operand's diagnostics (plus `can't compare types` for `<` and `>`), whatever the right operand is |
| ValidationMid.NegKeepsOperandType | src/analyzer/validation.rs:268 | `-x` has the type of `x` unchecked and reports nothing; the table types only the negation of an `Int` |
| ValidationMid.ArithAgrees | src/analyzer/validation.rs:265-306 | on arithmetic, the table's type, scopes unchanged, no error on success |
| ValidationMid.OperandsAgree | src/analyzer/validation.rs:308-321 | the common type is the table's |
| ValidationMid.EqualityAgrees | src/analyzer/validation.rs:265-290 | range, `-`, `*`, `/` agree with the table |
| ValidationMid.AddAgrees | src/analyzer/validation.rs:292-306 | `+` agrees with the table |
| ValidationMid.AddRuleAgrees | src/analyzer/validation.rs:292-306 | the `Add` rule gives `AddType` |
| ValidationMid.AddTypedAgrees | src/analyzer/validation.rs:296-305 | once typed, `AddType` |
| ValidationMid.ComparisonHasOperandType | src/analyzer/validation.rs:323-342 | `<`/`>` on one primitive type have that type, where the table gives a boolean |
| ValidationMid.SpanNotRestored | src/analyzer/validation.rs:75-83 | a `Spanned` node leaves its span current afterwards |
| Objects.ToStringText | src/interpreter/object.rs:12-22 | decimal text of an integer, with a minus sign exactly when negative, that reads back; a string itself; `true`/`false`; one character |
| Objects.CompareStringsOrder | src/interpreter/eval/comparison.rs:18 | the string order is equal only on equal strings, and swapping flips it |
| Objects.Compare | src/interpreter/eval/comparison.rs:16-22 | defined exactly on two ints, strings, booleans or chars |
| Objects.CompareOrder | src/interpreter/eval/comparison.rs:16-22 | `Equal` exactly on equal objects; swapping the operands flips the order |
| Objects.Chars | src/interpreter/eval/top/control.rs:56-63 | a string's characters, one `Char` each, in order |
| Objects.RangeItems | src/interpreter/eval/top/control.rs:72-80 | `l..=r` gives `l, l+1, ..., r`, and nothing when `l > r` |
| Eval.LiteralObject | src/interpreter/eval/short.rs:12-17 | a literal's object is printable |
| Eval.Items | src/interpreter/eval/top/control.rs:55-83 | `for` iterates exactly over strings, arrays and integer ranges |
| Eval.CallBuiltin | src/interpreter/mod.rs:103-136 | built-ins leave the scopes and return slot alone and only append output |
| Eval.Eval | src/interpreter/eval/mod.rs:16-34 | a finished evaluation leaves the stack as high as before; output is only appended |
| Eval.EvalStatement | src/interpreter/eval/top/mod.rs:9-23 | the same for statements |
| Eval.EvalNeg | src/interpreter/eval/math.rs:12-15 | the same for negation |
| Eval.EvalBinary | src/interpreter/eval/math.rs:7-79 | the same for binary operators |
| Eval.EvalGetByIndex | src/interpreter/eval/short.rs:22-47 | the same for indexing |
| Eval.EvalCall | src/interpreter/eval/top/mod.rs:15-19 | the same for calls |
| Eval.EvalArgs | src/interpreter/eval/top/mod.rs:15-19 | one value per argument |
| Eval.CallFunction | src/interpreter/mod.rs:77-101 | a call leaves the stack as high as before; output is only appended |
| Eval.RunBody | src/interpreter/mod.rs:88-94 | the return slot is empty after a body that ran a statement |
| Eval.EvalBinding | src/interpreter/eval/top/mod.rs:25-32 | the stack height is kept |
| Eval.EvalSet | src/interpreter/eval/top/mod.rs:34-40 | the stack height is kept |
| Eval.EvalSetByIndex | src/interpreter/eval/top/mod.rs:42-71 | the stack height is kept |
| Eval.EvalReturn | src/interpreter/eval/top/control.rs:13-20 | the stack height is kept |
| Eval.EvalBlock | src/interpreter/eval/top/control.rs:34-41 | the stack height is kept |
| Eval.EvalIf | src/interpreter/eval/top/control.rs:25-46 | the pushed scope is popped |
| Eval.EvalFor | src/interpreter/eval/top/control.rs:48-89 | the pushed scope is popped |
| Eval.ForItems | src/interpreter/eval/top/control.rs:56-80 | the stack height is kept across iterations |
| Eval.EvalWhile | src/interpreter/eval/top/control.rs:91-105 | each pushed scope is popped |
| EvalProps.AddConcatenates | src/interpreter/eval/math.rs:66-75 | a string on either side appends the texts in operand order |
| EvalProps.ArithmeticWraps | src/interpreter/eval/math.rs:17-43 | `+ - * /` wrap; `/` truncates; division by zero panics; `MAX + 1 == MIN`; `MIN / -1 == MIN` |
| EvalProps.ComparisonsAgree | src/interpreter/eval/comparison.rs:7-30 | `<` and `>` are defined on the same pairs, never both true, false on equal operands, and `l < r` is `r > l` |
| EvalProps.LeftOperandFirst | src/interpreter/eval/math.rs:17-34 | the left operand is evaluated first |
| EvalProps.ValueBeforeIndex | src/interpreter/eval/top/mod.rs:45-46 | the value is evaluated before the index |
| EvalProps.LiteralValue | src/interpreter/eval/short.rs:12-17 | a literal evaluates to its object and changes nothing |
| EvalProps.IndexChecksBounds | src/interpreter/eval/short.rs:22-47 | in range, element `i` with nothing changed; otherwise "Index out of range" |
| EvalProps.IndexedAssignment | src/interpreter/eval/top/mod.rs:42-71 | in range, exactly element `i` of the innermost binding changes; otherwise "Index out of range" |
| EvalProps.BuiltinsFirst | src/interpreter/mod.rs:78-80 | built-ins ignore the function table; `arrayOf` gives its arguments in order; `println` appends the text and a line break |
| EvalProps.PrintTextOk | src/interpreter/mod.rs:120-125 | printing succeeds exactly when every argument has a text |
| EvalProps.PrintTextAppends | src/interpreter/mod.rs:120-125 | the texts are written one after another |
| EvalProps.ArityChecked | src/interpreter/mod.rs:83 | a wrong argument count panics |
| EvalProps.ReturnFillsSlot | src/interpreter/eval/top/control.rs:13-20 | `return` stores its value, or `Unit`, in the slot and is itself `Unit` |
| EvalProps.IfRunsOneBranch | src/interpreter/eval/top/control.rs:25-46 | only the chosen branch matters |
| EvalProps.EmptyRangeLoop | src/interpreter/eval/top/control.rs:72-80 | a `for` over an empty range changes nothing |
| EvalProps.FalseWhileLoop | src/interpreter/eval/top/control.rs:91-105 | a `while (false)` changes nothing |
| RuntimeScopes.Var | src/interpreter/mod.rs:46-52 | only the innermost scope changes |
| RuntimeScopes.VarThenGet | src/interpreter/mod.rs:46-52 | after `var` the name has the new value; other names keep theirs |
| RuntimeScopes.Set | src/interpreter/mod.rs:54-62 | succeeds exactly when the name is bound; the height is kept |
| RuntimeScopes.SetChangesOneScope | src/interpreter/mod.rs:54-62 | only the innermost scope binding the name changes, and only at that name |
| RuntimeScopes.SetThenGet | src/interpreter/mod.rs:54-62 | after `set` the name has the new value; other names keep theirs |
| RuntimeScopes.TableLastWins | src/interpreter/mod.rs:21-25 | a name is in the table iff some function has it, and maps to its last definition |
| RuntimeScopes.ParamScopeBinds | src/interpreter/mod.rs:84-86 | parameters are bound positionally, and nothing else |
| Interpreter.CodeOf | src/interpreter/mod.rs:20-31 | as written, blocks run on after `return`; every table name is some function's name |
| Interpreter.CorrectedCodeOf | src/interpreter/eval/top/control.rs:34-41 | corrected: the same function table, with blocks that stop at `return` |
| Interpreter.RunReturnInLoop | src/interpreter/mod.rs:33-35 | a `main` whose `for` loop returns its variable returns 3 as written and 1 corrected |
| Interpreter.RunWithoutMain | src/interpreter/mod.rs:99 | without `main`, the run panics at once |
| Interpreter.RunCallsLastMain | src/interpreter/mod.rs:21-25 | `main` is the last function of that name |
| Interpreter.Context.constructor | src/interpreter/mod.rs:20-31 | the function table, no scope, an empty slot |
| Interpreter.Context.Get | src/interpreter/mod.rs:37-44 | the reverse scope loop computes `FindVar` |
| Interpreter.Context.Var | src/interpreter/mod.rs:46-52 | the scopes become `RuntimeScopes.Var` |
| Interpreter.Context.Set | src/interpreter/mod.rs:54-62 | the scopes become `RuntimeScopes.Set`, or stay when the name is unbound |
| RuntimeScopes.Push | src/interpreter/mod.rs:64-66 | one empty scope on top, the stack below unchanged |
| RuntimeScopes.Pop | src/interpreter/mod.rs:68-70 | the innermost scope removed, nothing on an empty stack |
| Interpreter.Context.Push | src/interpreter/mod.rs:64-66 | the scopes become `Push` |
| Interpreter.Context.Pop | src/interpreter/mod.rs:68-70 | the scopes become `Pop` |
| Interpreter.Context.CallFunction | src/interpreter/mod.rs:77-101 | the body loop computes `Eval.CallFunction` and leaves the state it describes |
| Interpreter.Context.Run | src/interpreter/mod.rs:33-35 | `main` with no arguments |
| Interpreter.Interpret | src/interpreter/mod.rs:20-35 | a fresh context runs the program as `Run` states |
| ReturnInBlock.BlockRunsOn | src/interpreter/eval/top/control.rs:34-41 | as written, a block runs on after `return` with the slot filled |
| ReturnInBlock.BlockStopsAtReturn | src/interpreter/eval/top/control.rs:34-41 | corrected, a block ends at `return` |
| ReturnInBlock.ForStatement | src/interpreter/eval/top/control.rs:48-89 | a `for` statement is its loop over the iterable's items in a pushed scope, then a pop |
| ReturnInBlock.LoopRunsOn | src/interpreter/eval/top/control.rs:72-80 | as written, the loop over `1..3` with body `return i` runs all three times and leaves 3 in the slot |
| ReturnInBlock.LoopStops | src/interpreter/eval/top/control.rs:72-80 | corrected, the same loop stops after its first run with 1 in the slot |
| ReturnInBlock.LoopStatement | src/interpreter/eval/top/control.rs:48-89 | `for (i in 1..3) { return i }` leaves 3 in the slot as written, 1 corrected |
| ReturnInBlock.ReturnValueOfF | src/interpreter/mod.rs:88-94 | `f` returns 3 as written, 1 corrected |
| ReturnInBlock.FCall | src/interpreter/mod.rs:77-101 | calling `f` gives 3 as written, 1 corrected, and clears the return slot |

## Left out

- The command-line driver, file reading and printing of results are I/O.
- Console output is collected in `Env.output` instead of being written.
  `exception`'s `eprintln` and `exit(0)` become the `Exception` outcome,
  which ends the run.
- `Debug` output, `dbg!` and `eprintln!` are not modelled.
  - In `get_functions` and `add_var_type` the model keeps only their
    effect on the table.
  - The pretty-printer of diagnostics is not part of this model.
- Rust's UTF-8 handling is not modelled. Text is ASCII `seq<char>`, and
  byte indices are character indices.
- `HashMap` iteration order is not modelled. Tables are Dafny maps, and the
  program never observes the order.
- Span and other fields of `ParseError` are kept; its message formatting
  is not modelled.
- Tokens.ParseStr: on a lone `"` the source subtracts 1 from a `usize`
  zero. That panics in a debug build. The model gives the release-build
  outcome.
- Tokens.Lex: it is `Token::parse` as written. No corrected `Token::parse`
  is built: the correction is stated on the string sub-lexer alone
  (`Tokens.ParseStrClosed`). Corrected, an unterminated literal would join
  the `Unexpected` run around it, which would need its own run lemmas.
- Tokens.ParseChar: a lone `'` is a `Char` token, and the parser's
  `parse_char` then panics on it. ParserHelpers requires readable pairs,
  so the parser is not defined on such input.
- ParserHelpers.SkipNewLines: `ignore_newlines` is not part of this model's
  sources. It is modelled as dropping every leading `NewLine`.
- Parser.ParseExpr: what each level parses is stated by the ParserProps
  lemmas. The functions' own contracts give only the node kind and the
  suffix.
- Validation.Checker.Validate:
  - The newest revision's `Context` is not part of this model's sources.
    `find_fun_ret_type` is a parameter, `FunLookup`, that is never
    interpreted.
  - Exact types are stated for side-effect-free expressions.
  - Stack height is stated only when no control statement sits inside a
    call argument. A failing one leaves its scope pushed.
  - `Ready()` asks for a return type and a scope, which is more than the
    source checks.
- Validation.Checker.ValidateGetByIndex: the newest revision's `Validate`
  for `GetByIndex` is not part of this model's sources. It follows the
  design's indexing rule.
- Validation.Checker.Validate: an unbound identifier types as `None`
  without a diagnostic, as in `src/analyzer/validation/short.rs:19`.
- ValidationMid.Validate:
  - It requires trees without `SetByIndex` (which panics at
    `src/analyzer/validation.rs:239`), `BoolNeg`, `&&`/`||` and indexing.
    This revision has no rules for these.
  - Its per-rule contracts state only the context invariants. The rules'
    results are stated by the `Agrees` lemmas, for arithmetic and
    comparisons only.
- TypesOld.Validate: it requires trees without `+` where it validates
  (`todo!` at `src/analyzer/types.rs:224`) and without the later revisions'
  nodes.
- Analyzer.CheckProgram: the `panic!` of `validate_functions` is the
  result `false`. Every body must be in the oldest revision's domain.
- Eval.Eval:
  - Recursion is bounded by `fuel`. Running out is the `NoFuel` outcome.
    Non-terminating programs are not distinguished from long ones.
  - The evaluator requires trees without `BoolNeg` and `&&`/`||`, which
    the interpreter has no cases for.
  - Indexing a string panics, although the checker accepts it.
  - A zero divisor is a `Panic` outcome.
  - `Eval` asks for one scope to exist, which every call provides.
- Eval.CallFunction: arrays are values, so binding or passing one copies
  it, as `Vec<Object>` does in `src/interpreter/object.rs:8`.

## Findings

| source | as written | input that shows it | evidently intended | confidence | as-written member | corrected member |
|---|---|---|---|---|---|---|
| src/lexer/token.rs:216-223 | after the byte loop, a string is accepted when the last character consumed is a quote, even when that quote was escaped and the loop ran off the end of the input | `"\"` (quote, backslash, quote) lexes as a `Str` token with body `\` | an unterminated literal is `Unexpected`; only a quote that stopped the loop closes the string | high, not executed | Tokens.ParseStrAcceptsUnterminated, Tokens.LexAcceptsUnterminated | Tokens.StrTokenIsWellFormed |
| src/interpreter/eval/top/control.rs:34-41 | bodies of `if`, `for` and `while` never look at the return slot, so a `return` inside them does not stop the block; `call_function` checks the slot only after each top-level statement (`src/interpreter/mod.rs:88-94`) | `fun f(): Int {`<br>`for (i in 1..3) { return i }`<br>`return 0`<br>`}`<br>(one statement per line) returns 3 | `return` ends the function at once: `f` returns 1 | high, not executed | ReturnInBlock.BlockRunsOn, Interpreter.RunReturnInLoop | ReturnInBlock.BlockStopsAtReturn |

In the first row, `Tokens.ParseStr` is `parse_str` as written, and the
lexer (`Tokens.SubLexer`, `Tokens.Lex`, `Lexer.Tokenize`) uses it, so
`Tokens.LexAcceptsUnterminated` shows the unterminated literal reaching a
whole `Token::parse`. The corrected sub-lexer `Tokens.ParseStrClosed`
stands beside it with its property `Tokens.StrTokenIsWellFormed`.

In the second row, `Interpreter.CodeOf` builds the evaluator's code with
`stopOnReturn == false`, the code as written, and `Interpreter.Run` runs
programs that way. `Interpreter.CorrectedCodeOf` and
`Interpreter.RunCorrected` give the corrected treatment of `return`;
`Interpreter.RunReturnInLoop` runs the program of the witness both ways.
