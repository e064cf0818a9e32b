/** Decoding the text of character and string literal tokens into the
    values the parser stores (`parse_char` and `parse_string`), and the
    spellings that decode back to a given value. */
module Literals {
  import opened Wrappers
  import opened Text
  import opened Tokens

  const BACKSPACE: char := 8 as char

  /** The character an escape `\e` stands for in a character literal, and,
      for `"` and `$` besides, in a string literal. */
  function EscapeValue(e: char): (c: char)
    requires e in CHAR_ESCAPES || e in STR_ESCAPES
    ensures e in {'\'', '\\', '"', '$'} <==> c == e
  {
    match e
    case 't' => '\t'
    case 'b' => BACKSPACE
    case 'n' => '\n'
    case 'r' => '\r'
    case _ => e
  }

  // ---------------------------------------------------------------------------
  // Character literals

  /** The text of a `Char` token `parse_char` decodes without panicking: a
      character after the opening quote and, when that is a backslash, one
      of `t b n r ' \` after it. */
  predicate CharText(t: string) {
    |t| >= 2 && (t[1] == '\\' ==> |t| >= 3 && t[2] in CHAR_ESCAPES)
  }

  /** `parse_char`: the first character after the quote, or the value of the
      escape that starts there. */
  function DecodeChar(t: string): (c: char)
    requires CharText(t)
  {
    if t[1] == '\\' then EscapeValue(t[2]) else t[1]
  }

  /** The character literal that spells `c`. */
  function EncodeChar(c: char): (t: string)
    ensures |t| >= 3 && t[0] == '\'' && t[|t| - 1] == '\''
  {
    "'" + CharLiteralBody(c) + "'"
  }

  /** Every character literal written by `EncodeChar` decodes to its character. */
  lemma {:induction false} DecodeEncodeChar(c: char)
    ensures CharText(EncodeChar(c)) && DecodeChar(EncodeChar(c)) == c
  {
    var t := EncodeChar(c);
    if c == '\'' || c == '\\' {
      assert t[1] == '\\' && t[2] == c;
    } else {
      assert t[1] == c;
    }
  }

  /** The worked examples of `parse_char` in `src/parser/expr/short_expr.rs`. */
  lemma {:induction false} DecodeCharExamples()
    ensures DecodeChar("'a'") == 'a'
    ensures DecodeChar("'\\t'") == '\t'
    ensures DecodeChar("'\\\\'") == '\\'
  {
  }

  // ---------------------------------------------------------------------------
  // String literals

  /** The loop of `parse_string` over the text between the quotes, from a
      point where `escaped` says whether a backslash is pending: a backslash
      after a backslash is kept, a character after a backslash is replaced
      by the escape's value, any other character is kept. None where the
      program reaches `unreachable!` (an escape outside `t b n r " \ $`). A
      backslash pending at the end is dropped. */
  function Unescape(s: string, escaped: bool): (r: Option<string>)
    ensures r.Some? ==> |r.value| <= |s|
    decreases |s|
  {
    if |s| == 0 then Some([])
    else
      var c := s[0];
      if c == '\\' then
        var rest :- Unescape(s[1..], !escaped);
        Some(if escaped then ['\\'] + rest else rest)
      else if escaped then
        if c !in STR_ESCAPES then None
        else
          var rest :- Unescape(s[1..], false);
          Some([EscapeValue(c)] + rest)
      else
        var rest :- Unescape(s[1..], false);
        Some([c] + rest)
  }

  /** The text of a `Str` token `parse_string` decodes without panicking. */
  predicate StrText(t: string) {
    |t| >= 2 && Unescape(t[1..|t| - 1], false).Some?
  }

  /** `parse_string`: the text between the quotes, as it is when it holds no
      backslash, and unescaped otherwise. */
  function DecodeString(t: string): (r: string)
    requires StrText(t)
  {
    var body := t[1..|t| - 1];
    if '\\' !in body then body else Unescape(body, false).value
  }

  /** `parse_string` as the program writes it, with its loop. */
  method DecodeStringLoop(t: string) returns (r: string)
    requires StrText(t)
    ensures r == DecodeString(t)
  {
    var body := t[1..|t| - 1];
    if '\\' !in body {
      return body;
    }
    r := [];
    var escaped := false;
    for i := 0 to |body|
      invariant Unescape(body[i..], escaped).Some?
      invariant Unescape(body, false).value == r + Unescape(body[i..], escaped).value
    {
      assert body[i..][1..] == body[i + 1..];
      var c := body[i];
      ghost var r0 := r;
      ghost var next := Unescape(body[i + 1..], if c == '\\' then !escaped else false).value;
      if c == '\\' {
        if escaped {
          r := r + [c];
          assert r0 + ([c] + next) == r + next;
        }
        escaped := !escaped;
      } else if escaped {
        r := r + [EscapeValue(c)];
        assert r0 + ([EscapeValue(c)] + next) == r + next;
        escaped := !escaped;
      } else {
        r := r + [c];
        assert r0 + ([c] + next) == r + next;
      }
    }
  }

  /** The spelling of `c` inside a string literal: the characters that
      have an escape are written with it. */
  function EscapeChar(c: char): (r: string)
    ensures 1 <= |r| <= 2
  {
    if c == '\t' then "\\t"
    else if c == BACKSPACE then "\\b"
    else if c == '\n' then "\\n"
    else if c == '\r' then "\\r"
    else if c == '"' then "\\\""
    else if c == '\\' then "\\\\"
    else if c == '$' then "\\$"
    else [c]
  }

  function Escape(s: string): (r: string)
    decreases |s|
  {
    if |s| == 0 then [] else EscapeChar(s[0]) + Escape(s[1..])
  }

  /** Unescaping undoes escaping. */
  lemma {:induction false} UnescapeEscape(s: string)
    ensures Unescape(Escape(s), false) == Some(s)
    decreases |s|
  {
    if |s| > 0 {
      UnescapeEscape(s[1..]);
      var e := EscapeChar(s[0]);
      var t := e + Escape(s[1..]);
      if |e| == 2 {
        assert t[1..][1..] == Escape(s[1..]);
        assert Unescape(t[1..], true) == Some([s[0]] + s[1..]);
      } else {
        assert t[1..] == Escape(s[1..]);
      }
      assert [s[0]] + s[1..] == s;
    }
  }

  /** An escaped string is a well-formed string literal body for the lexer. */
  lemma {:induction false} EscapeIsStrBody(s: string)
    ensures StrBody(Escape(s))
    decreases |s|
  {
    if |s| > 0 {
      EscapeIsStrBody(s[1..]);
      var e := EscapeChar(s[0]);
      var t := e + Escape(s[1..]);
      if |e| == 2 {
        assert t[2..] == Escape(s[1..]);
      } else {
        assert t[1..] == Escape(s[1..]);
      }
    }
  }

  /** Every body the lexer accepts inside a string literal can be decoded. */
  lemma {:induction false} StrBodyUnescapes(b: string)
    requires StrBody(b)
    ensures Unescape(b, false).Some?
    decreases |b|
  {
    if |b| > 0 {
      if b[0] == '\\' {
        StrBodyUnescapes(b[2..]);
        assert b[1..][1..] == b[2..];
      } else {
        StrBodyUnescapes(b[1..]);
      }
    }
  }

  /** Without a backslash, unescaping changes nothing, so the shortcut of
      `parse_string` agrees with its loop. */
  lemma {:induction false} UnescapePlain(s: string)
    requires '\\' !in s
    ensures Unescape(s, false) == Some(s)
    decreases |s|
  {
    if |s| > 0 {
      assert '\\' !in s[1..] by { assert forall c | c in s[1..] :: c in s; }
      UnescapePlain(s[1..]);
      assert [s[0]] + s[1..] == s;
    }
  }

  /** The string literal spelling `s` decodes to `s`. */
  lemma {:induction false} DecodeEncodeString(s: string)
    ensures StrText("\"" + Escape(s) + "\"")
    ensures DecodeString("\"" + Escape(s) + "\"") == s
  {
    var t := "\"" + Escape(s) + "\"";
    assert t[1..|t| - 1] == Escape(s);
    UnescapeEscape(s);
    if '\\' !in Escape(s) {
      UnescapePlain(Escape(s));
    }
  }

  /** The worked examples of `parse_string` in `src/parser/expr/short_expr.rs`. */
  lemma {:induction false} DecodeStringExamples()
    ensures StrText("\"Hello\"") && DecodeString("\"Hello\"") == "Hello"
  {
    assert "\"Hello\""[1..6] == "Hello";
    UnescapePlain("Hello");
  }

  lemma {:induction false} DecodeStringEscapesExample()
    ensures StrText("\"\\r\\\"\\n\\t\"") && DecodeString("\"\\r\\\"\\n\\t\"") == "\r\"\n\t"
  {
    var t := "\"\\r\\\"\\n\\t\"";
    var b := "\\r\\\"\\n\\t";
    assert t[1..|t| - 1] == b;
    UnescapeStep("t", true, "");
    UnescapeStep("\\t", false, "t");
    UnescapeStep("n\\t", true, "\\t");
    UnescapeStep("\\n\\t", false, "n\\t");
    UnescapeStep("\"\\n\\t", true, "\\n\\t");
    UnescapeStep("\\\"\\n\\t", false, "\"\\n\\t");
    UnescapeStep("r\\\"\\n\\t", true, "\\\"\\n\\t");
    UnescapeStep(b, false, "r\\\"\\n\\t");
  }

  /** One step of `Unescape`, for the examples. */
  lemma {:induction false} UnescapeStep(s: string, escaped: bool, tail: string)
    requires |s| > 0 && s[1..] == tail
    ensures Unescape(s, escaped) == (
      var c := s[0];
      if c == '\\' then
        match Unescape(tail, !escaped)
        case None => None
        case Some(rest) => Some(if escaped then ['\\'] + rest else rest)
      else if escaped && c !in STR_ESCAPES then None
      else
        match Unescape(tail, false)
        case None => None
        case Some(rest) => Some([if escaped then EscapeValue(c) else c] + rest))
  {
  }
}
