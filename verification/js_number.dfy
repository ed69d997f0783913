/** JavaScript numbers as far as the avatar code needs them: finite values are
    exact reals (floating-point rounding is not modelled), and NaN is kept as a
    separate value because the code lets it flow through arithmetic and
    comparisons. */
module JsNumber {
  import opened Strings

  datatype Number = Finite(v: real) | NaN

  function Add(x: Number, y: Number): Number {
    if x.Finite? && y.Finite? then Finite(x.v + y.v) else NaN
  }

  function Sub(x: Number, y: Number): Number {
    if x.Finite? && y.Finite? then Finite(x.v - y.v) else NaN
  }

  function Mul(x: Number, y: Number): Number {
    if x.Finite? && y.Finite? then Finite(x.v * y.v) else NaN
  }

  /** Integer division and remainder are determined by n == q * d + r with
      0 <= r < d. */
  lemma DivModUnique(n: int, d: int, q: int, r: int)
    requires d > 0 && 0 <= r < d && n == q * d + r
    ensures n / d == q && n % d == r
  {
    var q', r' := n / d, n % d;
    assert n == q' * d + r';
    assert (q - q') * d == r' - r;
    if q > q' {
      MulAtLeast(q - q', d);
    } else if q < q' {
      MulAtLeast(q' - q, d);
    }
  }

  lemma MulAtLeast(k: int, d: int)
    requires k >= 1 && d > 0
    ensures k * d >= d
  {
  }

  /** Division by a nonzero constant. */
  function DivBy(x: Number, d: real): Number
    requires d != 0.0
  {
    if x.Finite? then Finite(x.v / d) else NaN
  }

  /** `x > c`: every comparison with NaN is false. */
  predicate Greater(x: Number, c: real) {
    x.Finite? && x.v > c
  }

  /** `x >= c`, false for NaN. */
  predicate AtLeast(x: Number, c: real) {
    x.Finite? && x.v >= c
  }

  /** `Math.round`: the nearest integer, halves rounded up. */
  function Round(x: real): (r: int)
    ensures r as real - 0.5 <= x < r as real + 0.5
  {
    (x + 0.5).Floor
  }

  lemma RoundMonotone(x: real, y: real)
    requires x <= y
    ensures Round(x) <= Round(y)
  {
  }

  lemma RoundOfInt(n: int)
    ensures Round(n as real) == n
  {
  }

  /** `Math.round` on a number: NaN stays NaN. */
  function RoundNumber(x: Number): (r: Number)
    ensures r.NaN? <==> x.NaN?
    ensures x.Finite? ==> r.v == Round(x.v) as real
  {
    match x
    case NaN => NaN
    case Finite(v) => Finite(Round(v) as real)
  }

  type Byte = b: int | 0 <= b < 256

  /** The conversion applied when a number is stored into a
      `Uint8ClampedArray`: NaN becomes 0, values are clamped to [0, 255], and
      the rest are rounded to the nearest integer with ties to even. */
  function ToUint8Clamp(x: Number): (b: Byte)
    ensures x.NaN? ==> b == 0
    ensures x.Finite? && x.v <= 0.0 ==> b == 0
    ensures x.Finite? && x.v >= 255.0 ==> b == 255
    ensures x.Finite? && 0.0 <= x.v <= 255.0 ==> -0.5 <= b as real - x.v <= 0.5
  {
    match x
    case NaN => 0
    case Finite(v) =>
      if v <= 0.0 then 0
      else if v >= 255.0 then 255
      else
        var f := v.Floor;
        if v < f as real + 0.5 then f
        else if v > f as real + 0.5 then f + 1
        else if f % 2 == 0 then f
        else f + 1
  }

  lemma ToUint8ClampOfByte(n: Byte)
    ensures ToUint8Clamp(Finite(n as real)) == n
  {
  }

  /** The characters `parseInt` skips before a number: the white space and
      line terminators of sections 12.2 and 12.3 of ECMA-262. */
  predicate IsJsWhitespace(c: char) {
    c == '\t' || c == '\U{000B}' || c == '\U{000C}' || c == ' ' || c == '\U{00A0}' ||
    c == '\U{FEFF}' || c == '\n' || c == '\r' || c == '\U{2028}' || c == '\U{2029}' ||
    c == '\U{1680}' || ('\U{2000}' <= c <= '\U{200A}') || c == '\U{202F}' ||
    c == '\U{205F}' || c == '\U{3000}'
  }

  /** `s` without its leading white space. */
  function TrimStart(s: string): (r: string)
    ensures |r| <= |s|
    ensures r != [] ==> r[0] in s
  {
    if s != [] && IsJsWhitespace(s[0]) then TrimStart(s[1..]) else s
  }

  /** `TrimStart` removes a prefix of white space and stops at the first
      character that is not white space. */
  lemma {:induction false} TrimStartRemovesBlanks(s: string)
    ensures var r := TrimStart(s);
      r == s[|s| - |r|..] &&
      (forall i :: 0 <= i < |s| - |r| ==> IsJsWhitespace(s[i])) &&
      (r == [] || !IsJsWhitespace(r[0]))
  {
    if s != [] && IsJsWhitespace(s[0]) {
      TrimStartRemovesBlanks(s[1..]);
    }
  }

  /** -1 after a leading '-', 1 otherwise. */
  function SignOf(t: string): int {
    if t != [] && t[0] == '-' then -1 else 1
  }

  /** `t` without a leading '+' or '-'. */
  function DropSign(t: string): string {
    if t != [] && (t[0] == '-' || t[0] == '+') then t[1..] else t
  }

  /** `u` without a leading `0x` or `0X`. */
  function DropHexPrefix(u: string): string {
    if |u| >= 2 && u[0] == '0' && (u[1] == 'x' || u[1] == 'X') then u[2..] else u
  }

  /** What `parseInt(s, 16)` reads its digits from: the text after the white
      space, an optional sign and an optional `0x`. */
  function DigitText(s: string): (d: string)
    ensures |d| <= |s|
  {
    DropHexPrefix(DropSign(TrimStart(s)))
  }

  /** The text `parseInt(s, 16)` reads as a number. */
  predicate IsHexNumeral(s: string) {
    DigitText(s) != [] && IsHexDigit(DigitText(s)[0])
  }

  function Negate(x: Number): Number {
    if x.Finite? then Finite(-x.v) else NaN
  }

  /** `parseInt(s, 16)` (section 19.2.5 of ECMA-262): leading white space is
      skipped, a sign is read, then a `0x` prefix; the value is that of the
      longest run of hex digits after them, NaN when the run is empty. A text
      without '-' never reads as a negative number. */
  function ParseIntHex(s: string): (r: Number)
    ensures r.NaN? <==> !IsHexNumeral(s)
    ensures r.Finite? ==> r.v.Floor as real == r.v && -(Pow16(|s|) as real) < r.v < Pow16(|s|) as real
    ensures r.Finite? && '-' !in s ==> 0.0 <= r.v
  {
    var t := TrimStart(s);
    var p := HexPrefix(DigitText(s));
    if p == [] then NaN
    else
      HexValueBound(p);
      PowMonotone(|p|, |s|);
      assert SignOf(t) == -1 ==> t[0] in s;
      Finite((SignOf(t) * HexValue(p)) as real)
  }

  lemma {:induction false} PowMonotone(m: nat, n: nat)
    requires m <= n
    ensures Pow16(m) <= Pow16(n)
  {
    if m < n {
      PowMonotone(m, n - 1);
    }
  }

  /** On a string of hex digits `parseInt(s, 16)` is exactly its value. */
  lemma ParseIntHexOfHex(s: string)
    requires s != [] && AllHex(s)
    ensures ParseIntHex(s) == Finite(HexValue(s) as real)
  {
    DigitTextOfHex(s);
    assert TrimStart(s) == s;
    HexPrefixOfHex(s);
  }

  /** A run of hex digits has no blank, sign or `0x` in front of it. */
  lemma DigitTextOfHex(s: string)
    requires s != [] && AllHex(s)
    ensures DigitText(s) == s
  {
    assert IsHexDigit(s[0]);
    assert !IsJsWhitespace(s[0]);
    assert TrimStart(s) == s;
    assert DropSign(s) == s;
    if |s| >= 2 {
      assert IsHexDigit(s[1]);
    }
  }

  /** Leading white space does not change what `parseInt` reads. */
  lemma ParseIntHexSkipsBlank(c: char, s: string)
    requires IsJsWhitespace(c)
    ensures ParseIntHex([c] + s) == ParseIntHex(s)
  {
    assert ([c] + s)[1..] == s;
    assert TrimStart([c] + s) == TrimStart(s);
  }

  /** After the white space, '+' is skipped. */
  lemma ParseIntHexPlus(s: string)
    requires s == [] || (!IsJsWhitespace(s[0]) && s[0] != '+' && s[0] != '-')
    ensures ParseIntHex("+" + s) == ParseIntHex(s)
  {
    var t := "+" + s;
    assert TrimStart(t) == t && TrimStart(s) == s by {
      TrimStartOfNonBlank(t);
      TrimStartOfNonBlank(s);
    }
    assert DigitText(t) == DigitText(s) by {
      assert t[1..] == s;
    }
  }

  lemma TrimStartOfNonBlank(s: string)
    requires s == [] || !IsJsWhitespace(s[0])
    ensures TrimStart(s) == s
  {
  }

  /** After the white space, '-' negates the number that follows. */
  lemma ParseIntHexMinus(s: string)
    requires s == [] || (!IsJsWhitespace(s[0]) && s[0] != '+' && s[0] != '-')
    ensures ParseIntHex("-" + s) == Negate(ParseIntHex(s))
  {
    var t := "-" + s;
    assert TrimStart(t) == t && TrimStart(s) == s by {
      TrimStartOfNonBlank(t);
      TrimStartOfNonBlank(s);
    }
    assert DigitText(t) == DigitText(s) by {
      assert t[1..] == s;
    }
    assert SignOf(t) == -1 && SignOf(s) == 1;
    var p := HexPrefix(DigitText(s));
    if p != [] {
      assert ParseIntHex(t) == Finite((-1 * HexValue(p)) as real);
      assert ParseIntHex(s) == Finite((1 * HexValue(p)) as real);
    }
  }

  /** A `0x` prefix is skipped: the digits after it are read, and with no
      digit after it the result is NaN. */
  lemma ParseIntHexPrefixed(d: string)
    ensures ParseIntHex("0x" + d) ==
      if HexPrefix(d) == [] then NaN else Finite(HexValue(HexPrefix(d)) as real)
  {
    var t := "0x" + d;
    assert t[2..] == d;
    assert TrimStart(t) == t;
    assert DropSign(t) == t;
    assert DigitText(t) == d;
    assert SignOf(t) == 1;
  }
}
