/** The token set of the language and `Token::parse`: the first of twelve
    sub-lexers (tried in a fixed order) that recognises a prefix of the input
    decides the token and the remaining input; input that none of them
    recognises is swallowed as one `Unexpected` token, up to the first position
    from which lexing yields something other than `Unexpected`. */
module Tokens {
  import opened Wrappers
  import opened Text
  import opened Int32

  datatype Token =
    | WhiteSpace | End | Ident | Char | Str | Int(value: i32) | Bool(truth: bool)
    | AndOp | OrOp | RangeOp | NewLine | Symbol(symbol: char)
    | Fun | If | Else | For | In | While | Var | Val | Return | Break
    | Unexpected

  /** What a sub-lexer returns: the token and the input left after it. */
  type LexResult = Option<(Token, string)>

  /** A sub-lexer that recognises something always consumes at least one character. */
  predicate Consumes(s: string, r: LexResult) {
    r.Some? ==> |r.value.1| < |s| && IsSuffix(r.value.1, s)
  }

  const SYMBOLS: set<char> := {'(', ')', '{', '}', '[', ']', ',', ':', '+', '-', '*', '/', '%', '<', '>', '=', '!'}
  const STR_ESCAPES: set<char> := {'t', 'b', 'n', 'r', '"', '\\', '$'}
  const CHAR_ESCAPES: set<char> := {'t', 'b', 'n', 'r', '\'', '\\'}

  // ---------------------------------------------------------------------------
  // The sub-lexers, in the order `Token::parse` tries them.

  /** Block comments are white space; a line comment ends in a new line, or
      at the end of input.  Both searches look at the whole input, from its
      first character. */
  function ParseComment(s: string): (r: LexResult)
    ensures r.Some? <==> StartsWith(s, "/*") || StartsWith(s, "//")
    ensures r.Some? ==> s[0] == '/'
    ensures Consumes(s, r)
    ensures StartsWith(s, "/*") ==> r.value.0 in {WhiteSpace, Unexpected}
    ensures !StartsWith(s, "/*") && StartsWith(s, "//") ==> r.value.0 in {NewLine, End}
    ensures r.Some? && r.value.0 in {Unexpected, End} ==> r.value.1 == ""
  {
    if StartsWith(s, "/*") then
      match Find(s, "*/")
      case Some(end) =>
        assert end != 0 by { assert s[0] == '/'; }
        Some((WhiteSpace, s[end + 2..]))
      case None => Some((Unexpected, ""))
    else if StartsWith(s, "//") then
      var nl := Find(s, "\n");
      var end := if nl.Some? then nl else Find(s, "\r");
      if end.Some? then Some((NewLine, s[end.value + 1..])) else Some((End, ""))
    else None
  }

  function ParseSymbol(s: string): (r: LexResult)
    ensures r.Some? <==> |s| > 0 && s[0] in SYMBOLS
    ensures r.Some? ==> r.value == (Symbol(s[0]), s[1..])
    ensures Consumes(s, r)
  {
    if |s| > 0 && s[0] in SYMBOLS then Some((Symbol(s[0]), s[1..])) else None
  }

  predicate IsSpace(c: char) { c == ' ' }

  /** A run of spaces (only the space character; a tab is not white space). */
  function ParseWhiteSpace(s: string): (r: LexResult)
    ensures r.Some? <==> |s| > 0 && s[0] == ' '
    ensures r.Some? ==> r.value.0 == WhiteSpace
    ensures Consumes(s, r)
  {
    var skip := CountWhile(s, IsSpace);
    if skip != 0 then Some((WhiteSpace, s[skip..])) else None
  }

  /** White space is consumed up to the first character that is not a space. */
  lemma {:induction false} WhiteSpaceRun(s: string)
    requires ParseWhiteSpace(s).Some?
    ensures var rest := ParseWhiteSpace(s).value.1;
      (forall i :: 0 <= i < |s| - |rest| ==> s[i] == ' ')
      && (|rest| > 0 ==> rest[0] != ' ')
  {
    CountWhileRun(s, IsSpace);
  }

  /** `\r\n`, `\r` or `\n`. */
  function ParseNewLine(s: string): (r: LexResult)
    ensures r.Some? <==> |s| > 0 && (s[0] == '\r' || s[0] == '\n')
    ensures r.Some? ==> r.value.0 == NewLine
    ensures r.Some? ==> r.value.1 == if StartsWith(s, "\r\n") then s[2..] else s[1..]
    ensures Consumes(s, r)
  {
    if StartsWith(s, "\r\n") then Some((NewLine, s[2..]))
    else if |s| > 0 && (s[0] == '\r' || s[0] == '\n') then Some((NewLine, s[1..]))
    else None
  }

  function ParseBoolOp(s: string): (r: LexResult)
    ensures r.Some? <==> StartsWith(s, "&&") || StartsWith(s, "||")
    ensures r.Some? ==> s[0] == '&' || s[0] == '|'
    ensures r.Some? ==> r.value == (if StartsWith(s, "&&") then AndOp else OrOp, s[2..])
    ensures Consumes(s, r)
  {
    if StartsWith(s, "&&") then Some((AndOp, s[2..]))
    else if StartsWith(s, "||") then Some((OrOp, s[2..]))
    else None
  }

  function ParseRangeOp(s: string): (r: LexResult)
    ensures r.Some? <==> StartsWith(s, "..")
    ensures r.Some? ==> s[0] == '.'
    ensures r.Some? ==> r.value == (RangeOp, s[2..])
    ensures Consumes(s, r)
  {
    if StartsWith(s, "..") then Some((RangeOp, s[2..])) else None
  }

  /** The keyword spelled by a word, if it is one. */
  function KeywordToken(w: string): (r: Option<Token>)
    ensures r.Some? ==> KeywordText(r.value) == w
  {
    match w
    case "fun" => Some(Fun)
    case "if" => Some(If)
    case "else" => Some(Else)
    case "for" => Some(For)
    case "in" => Some(In)
    case "while" => Some(While)
    case "var" => Some(Var)
    case "val" => Some(Val)
    case "return" => Some(Return)
    case "break" => Some(Break)
    case _ => None
  }

  predicate IsKeyword(t: Token) {
    t in {Fun, If, Else, For, In, While, Var, Val, Return, Break}
  }

  /** The spelling of a keyword token. */
  function KeywordText(t: Token): string {
    match t
    case Fun => "fun"
    case If => "if"
    case Else => "else"
    case For => "for"
    case In => "in"
    case While => "while"
    case Var => "var"
    case Val => "val"
    case Return => "return"
    case Break => "break"
    case _ => ""
  }

  lemma {:induction false} KeywordSpellingRoundTrip(t: Token)
    requires IsKeyword(t)
    ensures KeywordToken(KeywordText(t)) == Some(t)
  {
  }

  /** The whole run of ASCII letters at the start must spell a keyword; a digit
      may follow it directly. */
  function ParseKw(s: string): (r: LexResult)
    ensures r.Some? ==> IsKeyword(r.value.0) && |s| > 0 && IsAsciiAlphabetic(s[0])
    ensures Consumes(s, r)
  {
    var n := CountWhile(s, IsAsciiAlphabetic);
    match KeywordToken(s[..n])
    case Some(t) => Some((t, s[n..]))
    case None => None
  }

  /** A run of ASCII letters and digits that does not start with a digit. */
  function ParseIdent(s: string): (r: LexResult)
    ensures r.Some? <==> |s| > 0 && IsAsciiAlphabetic(s[0])
    ensures r.Some? ==> r.value == (Ident, s[CountWhile(s, IsAsciiAlphanumeric)..])
    ensures Consumes(s, r)
  {
    var n := CountWhile(s, IsAsciiAlphanumeric);
    if n == 0 || IsAsciiDigit(s[0]) then None else Some((Ident, s[n..]))
  }

  /** `true` or `false` as a prefix, with no check of what follows. */
  function ParseBool(s: string): (r: LexResult)
    ensures r.Some? <==> StartsWith(s, "true") || StartsWith(s, "false")
    ensures r.Some? ==> s[0] == 't' || s[0] == 'f'
    ensures StartsWith(s, "true") ==> r == Some((Bool(true), s[4..]))
    ensures !StartsWith(s, "true") && StartsWith(s, "false") ==> r == Some((Bool(false), s[5..]))
    ensures Consumes(s, r)
  {
    if StartsWith(s, "true") then Some((Bool(true), s[4..]))
    else if StartsWith(s, "false") then Some((Bool(false), s[5..]))
    else None
  }

  // ---------------------------------------------------------------------------
  // Character literals

  /** The byte loop of `parse_char` over the text after the opening quote:
      the number of characters it consumes (through the first unescaped quote,
      or all of them), or None on an escape outside `t b n r ' \`. */
  function ScanChar(t: string, escape: bool): (r: Option<nat>)
    ensures r.Some? ==> r.value <= |t|
    decreases |t|
  {
    if |t| == 0 then Some(0)
    else
      var c := t[0];
      if IsAscii(c) && escape && c !in CHAR_ESCAPES then None
      else if IsAscii(c) && !escape && c == '\'' then Some(1)
      else
        var escape' := if !IsAscii(c) then escape else if escape then false else c == '\\';
        match ScanChar(t[1..], escape')
        case Some(n) => Some(n + 1)
        case None => None
  }

  /** A character literal; the closing quote is not required. */
  function ParseChar(s: string): (r: LexResult)
    ensures r.Some? ==> |s| > 0 && s[0] == '\'' && r.value.0 == Char
    ensures Consumes(s, r)
  {
    if |s| == 0 || s[0] != '\'' then None
    else
      match ScanChar(s[1..], false)
      case Some(size) => Some((Char, s[1..][size..]))
      case None => None
  }

  /** `parse_char` as the source writes it, with its loop. */
  method ParseCharLoop(s: string) returns (r: LexResult)
    ensures r == ParseChar(s)
  {
    if |s| == 0 || s[0] != '\'' {
      return None;
    }
    var t := s[1..];
    var size := 0;
    var escape := false;
    while size < |t|
      invariant size <= |t|
      invariant ScanChar(t, false) == match ScanChar(t[size..], escape)
                                      case Some(n) => Some(n + size)
                                      case None => None
    {
      var c := t[size];
      assert t[size..][1..] == t[size + 1..];
      size := size + 1;
      if IsAscii(c) {
        if escape {
          escape := false;
          if c !in CHAR_ESCAPES {
            return None;
          }
        } else if c == '\\' {
          escape := true;
        } else if c == '\'' {
          break;
        }
      }
    }
    return Some((Char, t[size..]));
  }

  // ---------------------------------------------------------------------------
  // String literals

  /** State of the byte loop of `parse_str` when it stops: characters
      consumed, whether an escape outside `t b n r " \ $` was seen, and whether
      the loop stopped at an unescaped quote (rather than at the end of input). */
  datatype StrScan = StrScan(size: nat, fail: bool, closed: bool)

  function ScanStr(t: string, escape: bool, fail: bool): (r: StrScan)
    ensures r.size <= |t|
    ensures r.closed ==> r.size >= 1 && t[r.size - 1] == '"'
    ensures !r.closed ==> r.size == |t|
    ensures fail ==> r.fail
    decreases |t|
  {
    if |t| == 0 then StrScan(0, fail, false)
    else
      var c := t[0];
      if IsAscii(c) && !escape && c == '"' then StrScan(1, fail, true)
      else
        var escape' := if !IsAscii(c) then escape else if escape then false else c == '\\';
        var fail' := fail || (IsAscii(c) && escape && c !in STR_ESCAPES);
        var r := ScanStr(t[1..], escape', fail');
        StrScan(r.size + 1, r.fail, r.closed)
  }

  /** `parse_str` as written: after the loop, a string is accepted when the
      last character consumed is a quote, whether or not the loop stopped at an
      unescaped one.  With nothing after the opening quote the source computes
      `0 - 1` as a `usize`; the model gives the release-build outcome. */
  function ParseStr(s: string): (r: LexResult)
    ensures r.Some? <==> |s| > 0 && s[0] == '"'
    ensures Consumes(s, r)
  {
    if |s| == 0 || s[0] != '"' then None
    else
      var t := s[1..];
      var scan := ScanStr(t, false, false);
      if scan.fail then Some((Unexpected, t[scan.size..]))
      else if scan.size >= 1 && t[scan.size - 1] == '"' then Some((Str, t[scan.size..]))
      else Some((Unexpected, t[scan.size..]))
  }

  /** `parse_str` corrected: a string is accepted only when its loop stopped
      at the closing quote. */
  function ParseStrClosed(s: string): (r: LexResult)
    ensures r.Some? <==> |s| > 0 && s[0] == '"'
    ensures r.Some? ==> r.value.0 in {Str, Unexpected}
    ensures r.Some? && r.value.0 == Str ==> ScanStr(s[1..], false, false).closed
    ensures Consumes(s, r)
  {
    if |s| == 0 || s[0] != '"' then None
    else
      var t := s[1..];
      var scan := ScanStr(t, false, false);
      if !scan.fail && scan.closed then Some((Str, t[scan.size..]))
      else Some((Unexpected, t[scan.size..]))
  }

  /** `parse_str` as the source writes it, with its loop. */
  method ParseStrLoop(s: string) returns (r: LexResult)
    ensures r == ParseStr(s)
  {
    if |s| == 0 || s[0] != '"' {
      return None;
    }
    var t := s[1..];
    var size := 0;
    var escape := false;
    var fail := false;
    while size < |t|
      invariant size <= |t|
      invariant ScanStr(t, false, false) == Advanced(ScanStr(t[size..], escape, fail), size)
    {
      var c := t[size];
      ScanStrStep(t[size..], escape, fail);
      assert t[size..][1..] == t[size + 1..];
      size := size + 1;
      if IsAscii(c) {
        if escape {
          escape := false;
          if c !in STR_ESCAPES {
            fail := true;
          }
        } else if c == '\\' {
          escape := true;
        } else if c == '"' {
          break;
        }
      }
    }
    if fail {
      return Some((Unexpected, t[size..]));
    }
    if size >= 1 && t[size - 1] == '"' {
      return Some((Str, t[size..]));
    }
    return Some((Unexpected, t[size..]));
  }

  function Advanced(r: StrScan, n: nat): StrScan {
    StrScan(r.size + n, r.fail, r.closed)
  }

  /** One step of the `parse_str` loop. */
  lemma {:induction false} ScanStrStep(t: string, escape: bool, fail: bool)
    requires |t| > 0
    ensures var c := t[0];
      if IsAscii(c) && !escape && c == '"' then ScanStr(t, escape, fail) == StrScan(1, fail, true)
      else if !IsAscii(c) then ScanStr(t, escape, fail) == Advanced(ScanStr(t[1..], escape, fail), 1)
      else if escape then ScanStr(t, escape, fail) == Advanced(ScanStr(t[1..], false, fail || c !in STR_ESCAPES), 1)
      else ScanStr(t, escape, fail) == Advanced(ScanStr(t[1..], c == '\\', fail), 1)
  {
  }

  // ---------------------------------------------------------------------------
  // Integer literals

  predicate IsDigitRunChar(c: char) { IsAsciiHexDigit(c) || c == 'x' }

  /** The run of hexadecimal digits and `x` is read as hexadecimal after `0x`,
      binary after `0b`, decimal otherwise; a value that does not parse as an
      `i32` is `Unexpected`, and so is a literal directly followed by a letter
      or digit (then the whole alphanumeric tail is consumed too). */
  function ParseInt(s: string): (r: LexResult)
    ensures r.Some? <==> |s| > 0 && IsDigitRunChar(s[0])
    ensures r.Some? ==> r.value.0.Int? || r.value.0 == Unexpected
    ensures Consumes(s, r)
  {
    var n := CountWhile(s, IsDigitRunChar);
    if n == 0 then None
    else
      var digits, rest := s[..n], s[n..];
      var parsed :=
        if StartsWith(digits, "0x") then ParseRadix(digits[2..], 16)
        else if StartsWith(digits, "0b") then ParseRadix(digits[2..], 2)
        else ParseRadix(digits, 10);
      var token := if parsed.Some? then Int(parsed.value) else Unexpected;
      var after := CountWhile(rest, IsAsciiAlphanumeric);
      if after == 0 then Some((token, rest)) else Some((Unexpected, rest[after..]))
  }

  // ---------------------------------------------------------------------------
  // Token::parse

  const SUB_LEXER_COUNT: nat := 12

  /** The characters the `i`-th sub-lexer can recognise first. */
  predicate CanStart(i: nat, c: char) {
    match i
    case 0 => c == '/'
    case 1 => c in SYMBOLS
    case 2 => IsAsciiAlphabetic(c)
    case 3 => c == 't' || c == 'f'
    case 4 => c == '\''
    case 5 => IsAsciiAlphabetic(c)
    case 6 => IsDigitRunChar(c)
    case 7 => c == '\r' || c == '\n'
    case 8 => c == '&' || c == '|'
    case 9 => c == '.'
    case 10 => c == '"'
    case _ => c == ' '
  }

  /** The sub-lexers in the order `Token::parse` tries them. */
  function SubLexer(i: nat, s: string): (r: LexResult)
    requires i < SUB_LEXER_COUNT
    ensures Consumes(s, r)
    ensures r.Some? && r.value.0 == End ==> r.value.1 == ""
  {
    match i
    case 0 => ParseComment(s)
    case 1 => ParseSymbol(s)
    case 2 => ParseKw(s)
    case 3 => ParseBool(s)
    case 4 => ParseChar(s)
    case 5 => ParseIdent(s)
    case 6 => ParseInt(s)
    case 7 => ParseNewLine(s)
    case 8 => ParseBoolOp(s)
    case 9 => ParseRangeOp(s)
    case 10 => ParseStr(s)
    case _ => ParseWhiteSpace(s)
  }

  /** The result of the first sub-lexer, from the `i`-th on, that recognises a prefix of `s`. */
  function FirstMatch(s: string, i: nat := 0): (r: LexResult)
    requires i <= SUB_LEXER_COUNT
    ensures Consumes(s, r)
    ensures r.Some? && r.value.0 == End ==> r.value.1 == ""
    ensures r.None? <==> forall j :: i <= j < SUB_LEXER_COUNT ==> SubLexer(j, s).None?
    decreases SUB_LEXER_COUNT - i
  {
    if i == SUB_LEXER_COUNT then None
    else if SubLexer(i, s).Some? then SubLexer(i, s)
    else FirstMatch(s, i + 1)
  }

  /** `Token::parse`: the first token of `s` and the input after it. */
  function Lex(s: string): (r: (Token, string))
    ensures IsSuffix(r.1, s)
    ensures |s| > 0 ==> |r.1| < |s|
    ensures |s| == 0 <==> r == (End, s)
    ensures r.0 == End ==> r.1 == ""
    decreases |s|, 1, 0
  {
    if |s| == 0 then (End, s)
    else
      match FirstMatch(s)
      case Some(res) => res
      case None => UnexpectedRun(s, 1)
  }

  /** Lexing `s` yields a token other than `Unexpected`. */
  predicate StartsToken(s: string)
    decreases |s|, 2
  {
    Lex(s).0 != Unexpected
  }

  /** The `Unexpected` token that starts at the beginning of `s` reaches up to
      the first position `k` or later from which `Lex` yields another token:
      every position it swallows would itself lex as `Unexpected`. */
  function UnexpectedRun(s: string, k: nat): (r: (Token, string))
    requires 1 <= k <= |s|
    ensures r.0 == Unexpected
    ensures IsSuffix(r.1, s) && |r.1| <= |s| - k
    ensures StartsToken(r.1)
    decreases |s|, 0, |s| - k
  {
    if !StartsToken(s[k..]) then
      UnexpectedRun(s, k + 1)
    else
      assert IsSuffix(s[k..], s);
      (Unexpected, s[k..])
  }

  /** Every position the `Unexpected` run swallows (from the `k`-th on) would
      itself lex as `Unexpected`. */
  lemma {:induction false} UnexpectedRunSwallows(s: string, k: nat)
    requires 1 <= k <= |s|
    ensures var rest := UnexpectedRun(s, k).1;
      forall j {:trigger StartsToken(s[j..])} :: k <= j < |s| - |rest| ==> !StartsToken(s[j..])
    decreases |s| - k
  {
    if !StartsToken(s[k..]) {
      UnexpectedRunSwallows(s, k + 1);
      assert UnexpectedRun(s, k) == UnexpectedRun(s, k + 1);
    } else {
      assert UnexpectedRun(s, k).1 == s[k..];
    }
  }

  /** `FirstMatch` picks the `i`-th sub-lexer when all earlier ones fail. */
  lemma {:induction false} FirstMatchAt(s: string, i: nat, k: nat := 0)
    requires k <= i < SUB_LEXER_COUNT
    requires forall j :: k <= j < i ==> SubLexer(j, s).None?
    requires SubLexer(i, s).Some?
    ensures FirstMatch(s, k) == SubLexer(i, s)
    decreases i - k
  {
    if k < i {
      FirstMatchAt(s, i, k + 1);
    }
  }

  /** `Lex` takes the result of the `i`-th sub-lexer when none of the earlier
      ones can start with the first character. */
  lemma {:induction false} LexByFirstChar(s: string, i: nat, t: Token, rest: string)
    requires |s| > 0 && i < SUB_LEXER_COUNT
    requires NoneStartsBefore(i, s[0])
    requires SubLexer(i, s) == Some((t, rest))
    ensures Lex(s) == (t, rest)
  {
    forall j | 0 <= j < i
      ensures SubLexer(j, s).None?
    {
      NoneStartsBeforeAt(i, s[0], j);
      SubLexerStart(j, s);
    }
    FirstMatchAt(s, i);
  }

  lemma {:induction false} LetterStartsNothingEarlier(c: char)
    requires IsAsciiAlphabetic(c)
    ensures NoneStartsBefore(2, c)
  {
    assert NoneStartsBefore(1, c);
  }

  lemma {:induction false} DigitStartsNothingEarlier(c: char)
    requires IsAsciiDigit(c)
    ensures NoneStartsBefore(6, c)
  {
    assert NoneStartsBefore(1, c);
    assert NoneStartsBefore(2, c);
    assert NoneStartsBefore(3, c);
    assert NoneStartsBefore(4, c);
    assert NoneStartsBefore(5, c);
  }

  /** None of the first `i` sub-lexers can start with `c`. */
  predicate NoneStartsBefore(i: nat, c: char) {
    i == 0 || (!CanStart(i - 1, c) && NoneStartsBefore(i - 1, c))
  }

  lemma {:induction false} NoneStartsBeforeAt(i: nat, c: char, j: nat)
    requires NoneStartsBefore(i, c) && j < i
    ensures !CanStart(j, c)
  {
    if j < i - 1 {
      NoneStartsBeforeAt(i - 1, c, j);
    }
  }

  /** A sub-lexer recognises nothing unless the input starts with one of its
      first characters. */
  lemma {:induction false} SubLexerStart(i: nat, s: string)
    requires i < SUB_LEXER_COUNT
    ensures SubLexer(i, s).Some? ==> |s| > 0 && CanStart(i, s[0])
  {
    if i == 0 {
      assert SubLexer(i, s) == ParseComment(s);
    } else if i == 2 {
      assert SubLexer(i, s) == ParseKw(s);
    } else if i == 3 {
      assert SubLexer(i, s) == ParseBool(s);
    } else if i == 8 {
      assert SubLexer(i, s) == ParseBoolOp(s);
    } else if i == 9 {
      assert SubLexer(i, s) == ParseRangeOp(s);
    }
  }

  /** `Token::parse` as the source writes it: a loop over the sub-lexers, then
      a loop that extends the `Unexpected` token one character at a time while
      lexing the rest still yields `Unexpected`. */
  method Parse(s: string) returns (token: Token, rest: string)
    ensures (token, rest) == Lex(s)
    decreases |s|
  {
    if |s| == 0 {
      return End, s;
    }
    for i := 0 to SUB_LEXER_COUNT
      invariant FirstMatch(s) == FirstMatch(s, i)
    {
      var result := SubLexer(i, s);
      if result.Some? {
        return result.value.0, result.value.1;
      }
    }
    var count := 1;
    var next, ignored := Parse(s[count..]);
    while next == Unexpected
      invariant 1 <= count <= |s|
      invariant next == Lex(s[count..]).0
      invariant UnexpectedRun(s, 1) == UnexpectedRun(s, count)
      decreases |s| - count
    {
      count := count + 1;
      next, ignored := Parse(s[count..]);
    }
    return Unexpected, s[count..];
  }

  // ---------------------------------------------------------------------------
  // What `Lex` recognises

  /** A keyword is recognised when no letter follows it; a digit may follow. */
  lemma {:induction false} LexKeyword(t: Token, rest: string)
    requires IsKeyword(t)
    requires |rest| == 0 || !IsAsciiAlphabetic(rest[0])
    ensures Lex(KeywordText(t) + rest) == (t, rest)
  {
    KeywordRecognised(t, rest);
    LexByFirstChar(KeywordText(t) + rest, 2, t, rest);
  }

  lemma {:induction false} KeywordRecognised(t: Token, rest: string)
    requires IsKeyword(t)
    requires |rest| == 0 || !IsAsciiAlphabetic(rest[0])
    ensures var s := KeywordText(t) + rest; |s| > 0 && NoneStartsBefore(2, s[0]) && SubLexer(2, s) == Some((t, rest))
  {
    var w := KeywordText(t);
    var s := w + rest;
    KeywordSpellingRoundTrip(t);
    ParseKwWord(w, rest);
    LetterStartsNothingEarlier(s[0]);
  }

  /** `parse_kw` reads a keyword followed by something other than a letter. */
  lemma {:induction false} ParseKwWord(w: string, rest: string)
    requires KeywordToken(w).Some?
    requires |rest| == 0 || !IsAsciiAlphabetic(rest[0])
    ensures |w + rest| > 0 && IsAsciiAlphabetic(w[0])
    ensures ParseKw(w + rest) == Some((KeywordToken(w).value, rest))
  {
    var s := w + rest;
    assert forall i | 0 <= i < |w| :: IsAsciiAlphabetic(w[i]);
    CountWhileConcat(w, rest, IsAsciiAlphabetic);
    var n := CountWhile(s, IsAsciiAlphabetic);
    assert s[..n] == w && s[n..] == rest;
  }

  /** `fun2` is the keyword `fun` followed by the number 2. */
  lemma {:induction false} LexKeywordGluedToNumber()
    ensures Lex("fun2") == (Fun, "2")
  {
    LexKeyword(Fun, "2");
    assert KeywordText(Fun) + "2" == "fun2";
  }

  /** A decimal numeral in the `i32` range is an `Int` token when neither a
      letter nor a digit follows it. */
  lemma {:induction false} LexDecimal(n: nat, rest: string)
    requires n <= MAX
    requires |rest| == 0 || !IsAsciiAlphanumeric(rest[0])
    ensures Lex(DecimalText(n) + rest) == (Int(n), rest)
  {
    var s := DecimalText(n) + rest;
    DecimalRecognised(n, rest);
    DigitStartsNothingEarlier(s[0]);
    LexByFirstChar(s, 6, Int(n), rest);
  }

  lemma {:induction false} DecimalRecognised(n: nat, rest: string)
    requires n <= MAX
    requires |rest| == 0 || !IsAsciiAlphanumeric(rest[0])
    ensures var s := DecimalText(n) + rest; IsAsciiDigit(s[0]) && SubLexer(6, s) == Some((Int(n), rest))
  {
    var d := DecimalText(n);
    var s := d + rest;
    assert IsAsciiDigit(s[0]);
    CountWhileConcat(d, rest, IsDigitRunChar);
    CountWhileConcat([], rest, IsAsciiAlphanumeric);
    assert s[..|d|] == d && s[|d|..] == rest;
    assert !StartsWith(d, "0x") && !StartsWith(d, "0b") by {
      if |d| >= 2 { assert IsAsciiDigit(d[1]); }
    }
    DecimalRoundTrip(n);
  }

  /** `parse_int` reads a whole run of hexadecimal digits and `x`, and what
      follows it is left when it does not start with a letter or digit. */
  lemma {:induction false} WholeDigitRun(digits: string, rest: string)
    requires forall i | 0 <= i < |digits| :: IsDigitRunChar(digits[i])
    requires |rest| == 0 || !IsDigitRunChar(rest[0])
    ensures CountWhile(digits + rest, IsDigitRunChar) == |digits|
    ensures (digits + rest)[..|digits|] == digits && (digits + rest)[|digits|..] == rest
  {
    CountWhileConcat(digits, rest, IsDigitRunChar);
  }

  /** A run of decimal digits is read in base 10. */
  lemma {:induction false} DecimalRun(digits: string, rest: string)
    requires |digits| > 0 && forall i | 0 <= i < |digits| :: IsAsciiDigit(digits[i])
    requires |rest| == 0 || !IsAsciiAlphanumeric(rest[0])
    ensures ParseInt(digits + rest)
      == Some((if ParseRadix(digits, 10).Some? then Int(ParseRadix(digits, 10).value) else Unexpected, rest))
  {
    WholeDigitRun(digits, rest);
    CountWhileConcat([], rest, IsAsciiAlphanumeric);
    assert !StartsWith(digits, "0x") && !StartsWith(digits, "0b") by {
      if |digits| >= 2 { assert IsAsciiDigit(digits[1]); }
    }
  }

  /** After `0x` the digit run is read in base 16. */
  lemma {:induction false} HexRun(hex: string, rest: string)
    requires forall i | 0 <= i < |hex| :: IsDigitRunChar(hex[i])
    requires |rest| == 0 || !IsAsciiAlphanumeric(rest[0])
    ensures ParseInt("0x" + hex + rest)
      == Some((if ParseRadix(hex, 16).Some? then Int(ParseRadix(hex, 16).value) else Unexpected, rest))
  {
    var digits := "0x" + hex;
    assert "0x" + hex + rest == digits + rest;
    WholeDigitRun(digits, rest);
    CountWhileConcat([], rest, IsAsciiAlphanumeric);
    assert digits[2..] == hex;
  }

  /** After `0b` the digit run is read in base 2. */
  lemma {:induction false} BinaryRun(bits: string, rest: string)
    requires forall i | 0 <= i < |bits| :: IsDigitRunChar(bits[i])
    requires |rest| == 0 || !IsAsciiAlphanumeric(rest[0])
    ensures ParseInt("0b" + bits + rest)
      == Some((if ParseRadix(bits, 2).Some? then Int(ParseRadix(bits, 2).value) else Unexpected, rest))
  {
    var digits := "0b" + bits;
    assert "0b" + bits + rest == digits + rest;
    WholeDigitRun(digits, rest);
    CountWhileConcat([], rest, IsAsciiAlphanumeric);
    assert digits[2..] == bits;
    assert !StartsWith(digits, "0x");
  }

  /** A decimal numeral above `i32::MAX` is `Unexpected`; the text after it
      is left. */
  lemma {:induction false} DecimalOutOfRange(n: nat, rest: string)
    requires n > MAX
    requires |rest| == 0 || !IsAsciiAlphanumeric(rest[0])
    ensures ParseInt(DecimalText(n) + rest) == Some((Unexpected, rest))
  {
    var d := DecimalText(n);
    WholeDigitRun(d, rest);
    CountWhileConcat([], rest, IsAsciiAlphanumeric);
    assert !StartsWith(d, "0x") && !StartsWith(d, "0b") by {
      if |d| >= 2 { assert IsAsciiDigit(d[1]); }
    }
    DecimalTextValue(n);
  }

  /** A digit run directly followed by a letter that cannot continue it is
      `Unexpected`, and the letters and digits after it are consumed too. */
  lemma {:induction false} TrailingLetters(digits: string, rest: string)
    requires |digits| > 0 && forall i | 0 <= i < |digits| :: IsDigitRunChar(digits[i])
    requires |rest| > 0 && IsAsciiAlphanumeric(rest[0]) && !IsDigitRunChar(rest[0])
    ensures ParseInt(digits + rest) == Some((Unexpected, rest[CountWhile(rest, IsAsciiAlphanumeric)..]))
  {
    WholeDigitRun(digits, rest);
  }

  /** The cases of `parse_int` in `src/lexer/token.rs`: decimal, hexadecimal
      after `0x`, binary after `0b`, and no digit at all. */
  lemma {:induction false} ParseIntDecimalExample()
    ensures ParseInt("42") == Some((Int(42), ""))
  {
    DecimalRun("42", "");
    assert "42" + "" == "42";
    DecimalValueExample();
  }

  lemma {:induction false} ParseIntHexExample()
    ensures ParseInt("0xfd2") == Some((Int(4050), ""))
  {
    HexRun("fd2", "");
    assert "0x" + "fd2" + "" == "0xfd2";
    HexValueExample();
  }

  lemma {:induction false} ParseIntBinaryExample()
    ensures ParseInt("0b10011") == Some((Int(19), ""))
  {
    BinaryRun("10011", "");
    assert "0b" + "10011" + "" == "0b10011";
    BinaryValueExample();
  }

  lemma {:induction false} ParseIntNoDigitExample()
    ensures ParseInt("hello") == None
  {
  }

  /** One past `i32::MAX` is `Unexpected`. */
  lemma {:induction false} ParseIntOutOfRangeExample()
    ensures ParseInt("2147483648") == Some((Unexpected, ""))
  {
    var big := "2147483648";
    DecimalRun(big, "");
    assert big + "" == big;
    OverflowExample();
  }

  /** A numeral glued to letters is one `Unexpected` token up to the `+`. */
  lemma {:induction false} ParseIntGluedExample()
    ensures ParseInt("12gh+") == Some((Unexpected, "+"))
  {
    TrailingLetters("12", "gh+");
    assert "12" + "gh+" == "12gh+";
    assert "gh+"[1..] == "h+" && "h+"[1..] == "+";
  }



  /** The body of a well-formed string literal: characters other than a quote
      or a backslash, and backslash escapes `\t \b \n \r \" \\ \$`. */
  predicate StrBody(b: string)
    decreases |b|
  {
    |b| == 0
    || (b[0] == '\\' && |b| >= 2 && b[1] in STR_ESCAPES && StrBody(b[2..]))
    || (b[0] != '\\' && b[0] != '"' && StrBody(b[1..]))
  }

  /** The loop of `parse_str` runs through a well-formed body and stops at the
      quote that closes it. */
  lemma {:induction false} ScanWellFormedBody(body: string, rest: string)
    requires StrBody(body)
    ensures ScanStr(body + "\"" + rest, false, false) == StrScan(|body| + 1, false, true)
    decreases |body|
  {
    var t := body + "\"" + rest;
    if |body| == 0 {
    } else if body[0] == '\\' {
      ScanWellFormedBody(body[2..], rest);
      assert t[1..][1..] == body[2..] + "\"" + rest;
    } else {
      ScanWellFormedBody(body[1..], rest);
      assert t[1..] == body[1..] + "\"" + rest;
    }
  }

  /** A well-formed string literal is one `Str` token. */
  lemma {:induction false} LexStringLiteral(body: string, rest: string)
    requires StrBody(body)
    ensures Lex("\"" + body + "\"" + rest) == (Str, rest)
  {
    var s := "\"" + body + "\"" + rest;
    StringRecognised(body, rest);
    QuoteStartsNothingEarlier(s[0]);
    LexByFirstChar(s, 10, Str, rest);
  }

  lemma {:induction false} QuoteStartsNothingEarlier(c: char)
    requires c == '"'
    ensures NoneStartsBefore(10, c)
  {
    assert NoneStartsBefore(1, c);
    assert NoneStartsBefore(2, c);
    assert NoneStartsBefore(3, c);
    assert NoneStartsBefore(4, c);
    assert NoneStartsBefore(5, c);
    assert NoneStartsBefore(6, c);
    assert NoneStartsBefore(7, c);
    assert NoneStartsBefore(8, c);
    assert NoneStartsBefore(9, c);
  }

  lemma {:induction false} StringRecognised(body: string, rest: string)
    requires StrBody(body)
    ensures var s := "\"" + body + "\"" + rest; s[0] == '"' && SubLexer(10, s) == Some((Str, rest))
  {
    var s := "\"" + body + "\"" + rest;
    ScanWellFormedBody(body, rest);
    assert s[1..] == body + "\"" + rest;
    assert s[1..][|body| + 1..] == rest;
  }



  /** The spelling of a character inside a character literal: a quote and a
      backslash are escaped, everything else is written as it is. */
  function CharLiteralBody(c: char): string {
    if c == '\'' || c == '\\' then ['\\', c] else [c]
  }

  /** A character literal is one `Char` token. */
  lemma {:induction false} LexCharLiteral(c: char, rest: string)
    ensures Lex("'" + CharLiteralBody(c) + "'" + rest) == (Char, rest)
  {
    var s := "'" + CharLiteralBody(c) + "'" + rest;
    CharRecognised(c, rest);
    assert NoneStartsBefore(4, s[0]);
    LexByFirstChar(s, 4, Char, rest);
  }

  lemma {:induction false} CharRecognised(c: char, rest: string)
    ensures var s := "'" + CharLiteralBody(c) + "'" + rest; s[0] == '\'' && SubLexer(4, s) == Some((Char, rest))
  {
    var body := CharLiteralBody(c);
    var s := "'" + body + "'" + rest;
    var t := s[1..];
    assert t == body + "'" + rest;
    if |body| == 2 {
      assert t[1..][1..] == "'" + rest;
      assert ScanChar(t[1..][1..], false) == Some(1);
      assert ScanChar(t[1..], true) == Some(2);
      assert ScanChar(t, false) == Some(3);
    } else {
      assert t[1..] == "'" + rest;
      assert ScanChar(t, false) == Some(2);
    }
    assert t[|body| + 1..] == rest;
  }


  /** A string token accepted by the corrected string sub-lexer is a quote,
      a well-formed body, and a closing quote. */
  lemma {:induction false} StrTokenIsWellFormed(s: string, rest: string)
    requires forall i | 0 <= i < |s| :: IsAscii(s[i])
    requires ParseStrClosed(s) == Some((Str, rest))
    ensures |rest| + 2 <= |s|
    ensures StrBody(s[1..|s| - |rest| - 1])
    ensures s == "\"" + s[1..|s| - |rest| - 1] + "\"" + rest
  {
    var t := s[1..];
    var scan := ScanStr(t, false, false);
    ScanClosedBody(t);
    assert t[..scan.size - 1] == s[1..|s| - |rest| - 1];
    assert s == [s[0]] + t[..scan.size - 1] + [t[scan.size - 1]] + t[scan.size..];
  }

  lemma {:induction false} ScanClosedBody(t: string)
    requires forall i | 0 <= i < |t| :: IsAscii(t[i])
    requires ScanStr(t, false, false).closed && !ScanStr(t, false, false).fail
    ensures StrBody(t[..ScanStr(t, false, false).size - 1])
    decreases |t|
  {
    var r := ScanStr(t, false, false);
    var b := t[..r.size - 1];
    if t[0] == '"' {
      assert b == [];
    } else if t[0] == '\\' {
      assert IsAscii(t[1]);
      assert t[1..][1..] == t[2..];
      ScanClosedBody(t[2..]);
      assert b[2..] == t[2..][..ScanStr(t[2..], false, false).size - 1];
    } else {
      ScanClosedBody(t[1..]);
      assert b[1..] == t[1..][..ScanStr(t[1..], false, false).size - 1];
    }
  }

  /** The source's `parse_str` lets an escaped quote at the very end of the
      input pass for the closing quote: the unterminated literal `"\"` is a
      string token, although its body `\` is not well formed. */
  lemma {:induction false} ParseStrAcceptsUnterminated()
    ensures ParseStr("\"\\\"") == Some((Str, ""))
    ensures !StrBody("\\")
    ensures ParseStrClosed("\"\\\"") == Some((Unexpected, ""))
  {
    var t := "\\\"";
    assert "\"\\\""[1..] == t;
    assert t[1..][1..] == [];
    assert ScanStr(t[1..], true, false) == StrScan(1, false, false);
    assert ScanStr(t, false, false) == StrScan(2, false, false);
  }

  /** The lexer as written reads the unterminated `"\"` as one string token. */
  lemma {:induction false} LexAcceptsUnterminated()
    ensures Lex("\"\\\"") == (Str, "")
  {
    var s := "\"\\\"";
    ParseStrAcceptsUnterminated();
    QuoteStartsNothingEarlier(s[0]);
    LexByFirstChar(s, 10, Str, "");
  }

  // ---------------------------------------------------------------------------
  // Worked examples of the sub-lexers from `src/lexer/token.rs`

  /** A body with no quote and no backslash is well formed. */
  lemma {:induction false} PlainStrBody(b: string)
    requires forall i | 0 <= i < |b| :: b[i] != '\\' && b[i] != '"'
    ensures StrBody(b)
    decreases |b|
  {
    if |b| > 0 {
      PlainStrBody(b[1..]);
    }
  }

  lemma {:induction false} ParseStrBadEscapeExample()
    ensures ParseStr("\"\\lol\"") == Some((Unexpected, ""))
  {
    var t := "\\lol\"";
    assert "\"\\lol\""[1..] == t;
    assert t[1..][1..] == "ol\"";
    assert t[1..][1..][1..] == "l\"";
    assert t[1..][1..][1..][1..] == "\"";
    assert ScanStr("\"", false, true) == StrScan(1, true, true);
    assert ScanStr("l\"", false, true) == StrScan(2, true, true);
    assert ScanStr("ol\"", false, true) == StrScan(3, true, true);
    assert ScanStr(t[1..], true, false) == StrScan(4, true, true);
    assert ScanStr(t, false, false) == StrScan(5, true, true);
  }

  /** The source's `parse_str` accepts every well-formed string literal. */
  lemma {:induction false} ParseStrWellFormed(body: string, rest: string)
    requires StrBody(body)
    ensures ParseStr("\"" + body + "\"" + rest) == Some((Str, rest))
  {
    var s := "\"" + body + "\"" + rest;
    ScanWellFormedBody(body, rest);
    assert s[1..] == body + "\"" + rest;
    assert s[1..][|body| + 1..] == rest;
  }

  lemma {:induction false} ParseCharExamples()
    ensures ParseChar("'a'") == Some((Char, ""))
    ensures ParseChar("'\\t'") == Some((Char, ""))
    ensures ParseChar("'\\l'") == None
  {
    assert "'a'"[1..] == "a'";
    assert "a'"[1..] == "'";
    assert ScanChar("a'", false) == Some(2);
    assert "'\\t'"[1..] == "\\t'";
    assert "\\t'"[1..] == "t'";
    assert "t'"[1..] == "'";
    assert ScanChar("\\t'", false) == Some(3);
    assert "'\\l'"[1..] == "\\l'";
    assert "\\l'"[1..] == "l'";
    assert ScanChar("\\l'", false) == None;
  }

}
