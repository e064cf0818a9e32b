/** Rust's `i32` on unbounded integers: the range, the two's-complement
    wrap-around of the `wrapping_*` operations, division truncating toward
    zero, and the decimal and radix notations the lexer reads and
    `to_string` writes. */
module Int32 {
  import opened Wrappers
  import opened Text

  const MIN: int := -0x8000_0000
  const MAX: int := 0x7fff_ffff
  const MODULUS: int := 0x1_0000_0000

  type i32 = x: int | MIN <= x <= MAX

  /** Two's-complement reduction of an exact result into the `i32` range. */
  function Wrap(x: int): (r: i32)
    ensures (x - r) % MODULUS == 0
    ensures MIN <= x <= MAX ==> r == x
  {
    var m := (x - MIN) % MODULUS;
    assert x - MIN == MODULUS * ((x - MIN) / MODULUS) + m;
    m + MIN
  }

  function WrappingAdd(a: i32, b: i32): i32 { Wrap(a + b) }
  function WrappingSub(a: i32, b: i32): i32 { Wrap(a - b) }
  function WrappingMul(a: i32, b: i32): i32 { Wrap(a * b) }
  function WrappingNeg(a: i32): i32 { Wrap(-(a as int)) }

  function Abs(x: int): nat { if x < 0 then -x else x }

  /** Integer division rounding toward zero, as Rust's `/` does. */
  function TruncDiv(a: int, b: int): int
    requires b != 0
  {
    if (a < 0) == (b < 0) then Abs(a) / Abs(b) else -(Abs(a) / Abs(b))
  }

  /** The remainder that goes with `TruncDiv`: it takes the sign of the dividend. */
  function TruncRem(a: int, b: int): int
    requires b != 0
  {
    if a < 0 then -(Abs(a) % Abs(b)) else Abs(a) % Abs(b)
  }

  /** `wrapping_div`: only `MIN / -1` overflows, and it wraps back to `MIN`.
      Division by zero panics in the source; callers rule it out. */
  function WrappingDiv(a: i32, b: i32): i32
    requires b != 0
  {
    Wrap(TruncDiv(a, b))
  }

  /** Division rounds toward zero: quotient times divisor plus a remainder
      that has the dividend's sign and is smaller than the divisor. */
  lemma {:induction false} TruncDivRoundsTowardZero(a: int, b: int)
    requires b != 0
    ensures a == TruncDiv(a, b) * b + TruncRem(a, b)
    ensures Abs(TruncRem(a, b)) < Abs(b)
    ensures a >= 0 ==> TruncRem(a, b) >= 0
    ensures a <= 0 ==> TruncRem(a, b) <= 0
  {
    var q, m := Abs(a) / Abs(b), Abs(a) % Abs(b);
    assert Abs(a) == q * Abs(b) + m;
    if b < 0 {
      assert q * Abs(b) == -(q * b);
      assert (-q) * b == q * Abs(b);
    }
  }

  /** Differs from Dafny's Euclidean division on negative dividends. */
  lemma {:induction false} TruncDivDiffersFromEuclidean()
    ensures TruncDiv(-7, 2) == -3 && -7 / 2 == -4
    ensures TruncRem(-7, 2) == -1 && -7 % 2 == 1
  {
  }

  /** The overflow cases of the wrapping operations. */
  lemma {:induction false} AddWrapsAround()
    ensures WrappingAdd(MAX as i32, 1) == MIN
  {
    assert (MAX + 1 - MIN) % MODULUS == 0;
  }

  lemma {:induction false} SubWrapsAround()
    ensures WrappingSub(MIN as i32, 1) == MAX
  {
    assert (MIN - 1 - MIN) % MODULUS == MODULUS - 1;
  }

  lemma {:induction false} NegWrapsAround()
    ensures WrappingNeg(MIN as i32) == MIN
  {
    assert (-MIN - MIN) % MODULUS == 0;
  }

  lemma {:induction false} DivWrapsAround()
    ensures WrappingDiv(MIN as i32, -1) == MIN
  {
    assert TruncDiv(MIN, -1) == MAX + 1;
    assert (MAX + 1 - MIN) % MODULUS == 0;
  }

  /** When the exact result fits, the wrapping operations are the exact ones. */
  lemma {:induction false} WrappingExactWhenInRange(a: i32, b: i32)
    ensures MIN <= a + b <= MAX ==> WrappingAdd(a, b) == a + b
    ensures MIN <= a - b <= MAX ==> WrappingSub(a, b) == a - b
    ensures MIN <= a * b <= MAX ==> WrappingMul(a, b) == a * b
    ensures a != MIN ==> WrappingNeg(a) == -a
  {
  }

  // ---------------------------------------------------------------------------
  // Numerals

  /** Rust's `char::to_digit(radix)`. */
  function DigitValue(c: char, radix: nat): (r: Option<nat>)
    requires 2 <= radix <= 36
    ensures r.Some? ==> r.value < radix
  {
    var d :=
      if IsAsciiDigit(c) then c as int - '0' as int
      else if 'a' <= c <= 'z' then c as int - 'a' as int + 10
      else if 'A' <= c <= 'Z' then c as int - 'A' as int + 10
      else 36;
    if d < radix then Some(d) else None
  }

  predicate AllDigits(s: string, radix: nat)
    requires 2 <= radix <= 36
  {
    forall i :: 0 <= i < |s| ==> DigitValue(s[i], radix).Some?
  }

  /** Positional value of a string of digits, most significant first. */
  function DigitsValue(s: string, radix: nat): (v: nat)
    requires 2 <= radix <= 36
    requires AllDigits(s, radix)
  {
    if |s| == 0 then 0
    else DigitsValue(s[..|s| - 1], radix) * radix + DigitValue(s[|s| - 1], radix).value
  }

  /** `i32::from_str_radix` on an unsigned digit string (the lexer's digit run
      never holds a sign): empty input, a character that is not a digit of the
      radix, and a value above `MAX` are errors. */
  function ParseRadix(s: string, radix: nat): (r: Option<i32>)
    requires 2 <= radix <= 36
    ensures r.Some? <==> |s| > 0 && AllDigits(s, radix) && DigitsValue(s, radix) <= MAX
    ensures r.Some? ==> r.value == DigitsValue(s, radix)
  {
    if |s| == 0 || !AllDigits(s, radix) then None
    else
      var v := DigitsValue(s, radix);
      if v <= MAX then Some(v) else None
  }

  function DigitChar(d: nat): (c: char)
    requires d < 10
    ensures IsAsciiDigit(c)
  {
    ('0' as int + d) as char
  }

  /** Decimal notation of a natural number, without leading zeros. */
  function DecimalText(n: nat): (s: string)
    ensures |s| > 0
    ensures forall i :: 0 <= i < |s| ==> IsAsciiDigit(s[i])
    decreases n
  {
    if n < 10 then [DigitChar(n)] else DecimalText(n / 10) + [DigitChar(n % 10)]
  }

  /** `i32::to_string`. */
  function IntText(n: int): string {
    if n < 0 then "-" + DecimalText(-n) else DecimalText(n)
  }

  /** Reading back the decimal notation gives the number. */
  lemma {:induction false} DecimalTextValue(n: nat)
    ensures AllDigits(DecimalText(n), 10)
    ensures DigitsValue(DecimalText(n), 10) == n
    decreases n
  {
    var s := DecimalText(n);
    if n >= 10 {
      DecimalTextValue(n / 10);
      assert s[..|s| - 1] == DecimalText(n / 10);
    }
  }

  /** `from_str_radix(_, 10)` inverts `to_string` on the non-negative `i32` values. */
  lemma {:induction false} DecimalRoundTrip(n: nat)
    requires n <= MAX
    ensures ParseRadix(DecimalText(n), 10) == Some(n)
  {
    DecimalTextValue(n);
  }

  /** Appending a digit multiplies the value by the radix and adds the digit. */
  lemma {:induction false} DigitsValueSnoc(s: string, c: char, radix: nat)
    requires 2 <= radix <= 36 && AllDigits(s, radix) && DigitValue(c, radix).Some?
    ensures AllDigits(s + [c], radix)
    ensures DigitsValue(s + [c], radix) == DigitsValue(s, radix) * radix + DigitValue(c, radix).value
  {
    assert (s + [c])[..|s|] == s;
  }

  /** `"42".parse::<i32>()` is 42. */
  lemma {:induction false} DecimalValueExample()
    ensures ParseRadix("42", 10) == Some(42)
  {
    DigitsValueSnoc("", '4', 10);
    assert "" + ['4'] == "4";
    DigitsValueSnoc("4", '2', 10);
    assert "4" + ['2'] == "42";
  }

  /** `i32::from_str_radix("fd2", 16)` is 4050. */
  lemma {:induction false} HexValueExample()
    ensures ParseRadix("fd2", 16) == Some(4050)
  {
    DigitsValueSnoc("", 'f', 16);
    assert "" + ['f'] == "f";
    DigitsValueSnoc("f", 'd', 16);
    assert "f" + ['d'] == "fd";
    DigitsValueSnoc("fd", '2', 16);
    assert "fd" + ['2'] == "fd2";
  }

  /** `i32::from_str_radix("10011", 2)` is 19. */
  lemma {:induction false} BinaryValueExample()
    ensures ParseRadix("10011", 2) == Some(19)
  {
    DigitsValueSnoc("", '1', 2);
    assert "" + ['1'] == "1";
    DigitsValueSnoc("1", '0', 2);
    assert "1" + ['0'] == "10";
    DigitsValueSnoc("10", '0', 2);
    assert "10" + ['0'] == "100";
    DigitsValueSnoc("100", '1', 2);
    assert "100" + ['1'] == "1001";
    DigitsValueSnoc("1001", '1', 2);
    assert "1001" + ['1'] == "10011";
  }

  /** `"2147483648".parse::<i32>()` overflows. */
  lemma {:induction false} OverflowExample()
    ensures ParseRadix("2147483648", 10) == None
  {
    DigitsValueSnoc("", '2', 10);
    assert "" + ['2'] == "2";
    DigitsValueSnoc("2", '1', 10);
    assert "2" + ['1'] == "21";
    DigitsValueSnoc("21", '4', 10);
    assert "21" + ['4'] == "214";
    DigitsValueSnoc("214", '7', 10);
    assert "214" + ['7'] == "2147";
    DigitsValueSnoc("2147", '4', 10);
    assert "2147" + ['4'] == "21474";
    DigitsValueSnoc("21474", '8', 10);
    assert "21474" + ['8'] == "214748";
    DigitsValueSnoc("214748", '3', 10);
    assert "214748" + ['3'] == "2147483";
    DigitsValueSnoc("2147483", '6', 10);
    assert "2147483" + ['6'] == "21474836";
    DigitsValueSnoc("21474836", '4', 10);
    assert "21474836" + ['4'] == "214748364";
    DigitsValueSnoc("214748364", '8', 10);
    assert "214748364" + ['8'] == "2147483648";
  }
}
