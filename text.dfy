/** Character classes and the small string searches (`starts_with`, `find`,
    `take_while(..).count()`) that the lexer is written with.  A character of
    the model stands for one byte of the source text. */
module Text {
  import opened Wrappers

  predicate IsAscii(c: char) { c as int < 128 }
  predicate IsAsciiAlphabetic(c: char) { 'a' <= c <= 'z' || 'A' <= c <= 'Z' }
  predicate IsAsciiDigit(c: char) { '0' <= c <= '9' }
  predicate IsAsciiAlphanumeric(c: char) { IsAsciiAlphabetic(c) || IsAsciiDigit(c) }
  predicate IsAsciiHexDigit(c: char) { IsAsciiDigit(c) || 'a' <= c <= 'f' || 'A' <= c <= 'F' }

  predicate StartsWith(s: string, prefix: string) {
    |prefix| <= |s| && s[..|prefix|] == prefix
  }

  /** `t` is what remains of `s` after a prefix has been consumed. */
  predicate IsSuffix(t: string, s: string) {
    |t| <= |s| && s[|s| - |t|..] == t
  }

  lemma {:induction false} SuffixTransitive(u: string, t: string, s: string)
    requires IsSuffix(u, t) && IsSuffix(t, s)
    ensures IsSuffix(u, s)
  {
    assert s[|s| - |u|..] == s[|s| - |t|..][|t| - |u|..];
  }

  /** The number of leading characters of `s` that satisfy `p`. */
  function CountWhile(s: string, p: char -> bool): (n: nat)
    ensures n <= |s|
  {
    if |s| == 0 || !p(s[0]) then 0 else 1 + CountWhile(s[1..], p)
  }

  /** Every character `CountWhile` counts satisfies `p`, and the one after
      the run does not. */
  lemma {:induction false} CountWhileRun(s: string, p: char -> bool)
    ensures forall i :: 0 <= i < CountWhile(s, p) ==> p(s[i])
    ensures CountWhile(s, p) < |s| ==> !p(s[CountWhile(s, p)])
    decreases |s|
  {
    if |s| > 0 && p(s[0]) {
      CountWhileRun(s[1..], p);
    }
  }

  /** The run counted by `CountWhile` stops exactly where a prefix satisfying
      `p` meets a character that does not. */
  lemma {:induction false} CountWhileConcat(a: string, b: string, p: char -> bool)
    requires forall i :: 0 <= i < |a| ==> p(a[i])
    requires |b| == 0 || !p(b[0])
    ensures CountWhile(a + b, p) == |a|
    decreases |a|
  {
    if |a| > 0 {
      assert (a + b)[1..] == a[1..] + b;
      CountWhileConcat(a[1..], b, p);
    }
  }

  predicate OccursAt(s: string, pattern: string, i: nat) {
    i + |pattern| <= |s| && s[i..i + |pattern|] == pattern
  }

  /** Index of the first occurrence of `pattern` in `s`, searching from the start. */
  function Find(s: string, pattern: string): (r: Option<nat>)
    ensures r.Some? ==> OccursAt(s, pattern, r.value)
    ensures forall j :: 0 <= j < (if r.Some? then r.value else |s| + 1) ==> !OccursAt(s, pattern, j)
  {
    FindFrom(s, pattern, 0)
  }

  function FindFrom(s: string, pattern: string, i: nat): (r: Option<nat>)
    requires i <= |s| + 1
    requires forall j :: 0 <= j < i ==> !OccursAt(s, pattern, j)
    ensures r.Some? ==> i <= r.value && OccursAt(s, pattern, r.value)
    ensures forall j :: 0 <= j < (if r.Some? then r.value else |s| + 1) ==> !OccursAt(s, pattern, j)
    decreases |s| + 1 - i
  {
    if i > |s| then None
    else if OccursAt(s, pattern, i) then Some(i)
    else FindFrom(s, pattern, i + 1)
  }
}
