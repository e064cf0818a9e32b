/** The interpreter's run-time values (`src/interpreter/object.rs`) and the
    operations on them that do not touch the interpreter's state: text
    conversion, the orderings `<` and `>` use, and the elements a `for`
    loop visits. An array holds its elements by value. */
module Objects {
  import opened Wrappers
  import opened Int32

  datatype Object =
    | Unit
    | Int(value: i32)
    | String(text: string)
    | Boolean(truth: bool)
    | Char(ch: char)
    | Array(items: seq<Object>)
    | Range(lo: Object, hi: Object)

  /** The objects `to_string` is defined on; the others are unreachable. */
  predicate Printable(o: Object) {
    o.Int? || o.String? || o.Boolean? || o.Char?
  }

  /** `to_string`. */
  function ToString(o: Object): (s: string)
    requires Printable(o)
  {
    match o
    case Int(n) => IntText(n)
    case String(text) => text
    case Boolean(b) => if b then "true" else "false"
    case Char(c) => [c]
  }

  /** What `to_string` writes: the decimal notation of an integer, with a
      minus sign exactly when it is negative, that reads back as its
      magnitude; a string itself; `true` or `false`; one character. */
  lemma ToStringText(o: Object)
    requires Printable(o)
    ensures o.Int? ==> (|ToString(o)| > 0 && (ToString(o)[0] == '-' <==> o.value < 0))
    ensures o.Int? && o.value >= 0 ==> ParseRadix(ToString(o), 10) == Some(o.value)
    ensures o.Int? && o.value < 0 ==> DigitsValue(ToString(o)[1..], 10) == -(o.value as int)
    ensures o.String? ==> ToString(o) == o.text
    ensures o.Boolean? ==> ToString(o) == if o.truth then "true" else "false"
    ensures o.Char? ==> ToString(o) == [o.ch]
  {
    if o.Int? {
      var n := o.value;
      if n >= 0 {
        DecimalRoundTrip(n);
      } else {
        DecimalTextValue(-(n as int));
        assert ToString(o)[1..] == DecimalText(-(n as int));
      }
    }
  }

  datatype Ordering = Less | Equal | Greater

  function Flip(o: Ordering): Ordering {
    match o
    case Less => Greater
    case Equal => Equal
    case Greater => Less
  }

  /** `Ord for String`: lexicographic on characters. */
  function CompareStrings(a: string, b: string): (r: Ordering)
  {
    if |a| == 0 && |b| == 0 then Equal
    else if |a| == 0 then Less
    else if |b| == 0 then Greater
    else if a[0] < b[0] then Less
    else if a[0] > b[0] then Greater
    else CompareStrings(a[1..], b[1..])
  }

  /** The string order is a total order: equal exactly on equal strings,
      and swapping the operands flips it. */
  lemma {:induction false} CompareStringsOrder(a: string, b: string)
    ensures CompareStrings(a, b) == Equal <==> a == b
    ensures CompareStrings(b, a) == Flip(CompareStrings(a, b))
  {
    if |a| > 0 && |b| > 0 && a[0] == b[0] {
      CompareStringsOrder(a[1..], b[1..]);
      assert a == [a[0]] + a[1..] && b == [b[0]] + b[1..];
    }
  }

  /** The ordering `<` and `>` use: only between two integers, two strings,
      two booleans (`false` first) or two characters; any other pair is
      unreachable. */
  function Compare(l: Object, r: Object): (c: Option<Ordering>)
    ensures c.Some? <==> (l.Int? && r.Int?) || (l.String? && r.String?) || (l.Boolean? && r.Boolean?) || (l.Char? && r.Char?)
  {
    match (l, r)
    case (Int(a), Int(b)) => Some(if a < b then Less else if a > b then Greater else Equal)
    case (String(a), String(b)) => Some(CompareStrings(a, b))
    case (Boolean(a), Boolean(b)) => Some(if !a && b then Less else if a && !b then Greater else Equal)
    case (Char(a), Char(b)) => Some(if a < b then Less else if a > b then Greater else Equal)
    case _ => None
  }

  /** Comparing is a total order on each kind: equal objects and only
      those compare `Equal`, and swapping the operands flips the order. */
  lemma CompareOrder(l: Object, r: Object)
    requires Compare(l, r).Some?
    ensures Compare(r, l) == Some(Flip(Compare(l, r).value))
    ensures Compare(l, r) == Some(Equal) <==> l == r
  {
    if l.String? {
      CompareStringsOrder(l.text, r.text);
    }
  }

  /** The characters of a string as `Char` objects, in order. */
  function Chars(s: string): (items: seq<Object>)
    ensures |items| == |s| && forall i | 0 <= i < |s| :: items[i] == Char(s[i])
  {
    seq(|s|, i requires 0 <= i < |s| => Char(s[i]))
  }

  /** `l..=r`: every integer from `l` up to `r`, ascending, and nothing
      when `l > r`. */
  function RangeItems(l: i32, r: i32): (items: seq<Object>)
    ensures |items| == if l <= r then r - l + 1 else 0
    ensures forall k | 0 <= k < |items| :: items[k] == Int(l + k)
    decreases r - l
  {
    if l > r then [] else [Int(l)] + (if l == r then [] else RangeItems(l + 1, r))
  }
}
