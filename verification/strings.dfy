/** Character-level string helpers shared by the modules: hexadecimal digits,
    single-character replacement (`String.prototype.replace` with a global
    one-character pattern), decimal rendering of numbers, ASCII upper-casing,
    substring search, and the UTF-16 code units that JavaScript indexes
    strings by. */
module Strings {

  // ---------------------------------------------------------------------------
  // Hexadecimal digits

  predicate IsHexDigit(c: char) {
    ('0' <= c <= '9') || ('a' <= c <= 'f') || ('A' <= c <= 'F')
  }

  predicate AllHex(s: string) {
    forall i :: 0 <= i < |s| ==> IsHexDigit(s[i])
  }

  function HexDigitValue(c: char): (v: nat)
    requires IsHexDigit(c)
    ensures v < 16
  {
    if '0' <= c <= '9' then c as int - '0' as int
    else if 'a' <= c <= 'f' then c as int - 'a' as int + 10
    else c as int - 'A' as int + 10
  }

  function Pow16(n: nat): (r: nat)
    ensures r >= 1
  {
    if n == 0 then 1 else 16 * Pow16(n - 1)
  }

  /** The unsigned value of a string of hex digits, most significant first. */
  function HexValue(s: string): nat
    requires AllHex(s)
  {
    if s == [] then 0 else HexValue(s[..|s| - 1]) * 16 + HexDigitValue(s[|s| - 1])
  }

  /** A string of n hex digits denotes a value below 16^n. */
  lemma {:induction false} HexValueBound(s: string)
    requires AllHex(s)
    ensures HexValue(s) < Pow16(|s|)
  {
    if s != [] {
      HexValueBound(s[..|s| - 1]);
      assert HexValue(s[..|s| - 1]) + 1 <= Pow16(|s| - 1);
      calc {
        HexValue(s);
      == HexValue(s[..|s| - 1]) * 16 + HexDigitValue(s[|s| - 1]);
      <  HexValue(s[..|s| - 1]) * 16 + 16;
      == (HexValue(s[..|s| - 1]) + 1) * 16;
      <= Pow16(|s| - 1) * 16;
      }
    }
  }

  /** Positional notation: the digits of t are the low |t| hex digits of s + t. */
  lemma {:induction false} HexValueAppend(s: string, t: string)
    requires AllHex(s) && AllHex(t)
    ensures AllHex(s + t)
    ensures HexValue(s + t) == HexValue(s) * Pow16(|t|) + HexValue(t)
  {
    assert AllHex(s + t) by {
      forall i | 0 <= i < |s + t| ensures IsHexDigit((s + t)[i]) {
        if i < |s| { assert (s + t)[i] == s[i]; } else { assert (s + t)[i] == t[i - |s|]; }
      }
    }
    if t != [] {
      var t' := t[..|t| - 1];
      assert (s + t)[..|s + t| - 1] == s + t';
      assert (s + t)[|s + t| - 1] == t[|t| - 1];
      HexValueAppend(s, t');
      var d := HexDigitValue(t[|t| - 1]);
      var hs, ht', p := HexValue(s), HexValue(t'), Pow16(|t'|);
      assert HexValue(s + t) == HexValue(s + t') * 16 + d;
      assert HexValue(t) == ht' * 16 + d;
      assert Pow16(|t|) == p * 16;
      ShiftDigit(hs, ht', p, d);
    } else {
      assert s + t == s;
    }
  }

  lemma ShiftDigit(hs: nat, ht: nat, p: nat, d: nat)
    ensures (hs * p + ht) * 16 + d == hs * (p * 16) + (ht * 16 + d)
  {
  }

  /** The longest prefix of s made of hex digits. */
  function HexPrefix(s: string): (p: string)
    ensures |p| <= |s| && p == s[..|p|]
    ensures AllHex(p)
    ensures |p| < |s| ==> !IsHexDigit(s[|p|])
  {
    if s != [] && IsHexDigit(s[0]) then [s[0]] + HexPrefix(s[1..]) else []
  }

  lemma HexPrefixOfHex(s: string)
    requires AllHex(s)
    ensures HexPrefix(s) == s
  {
  }

  /** n copies of c. */
  function Repeat(c: char, n: nat): (s: string)
    ensures |s| == n
    ensures forall i :: 0 <= i < n ==> s[i] == c
  {
    if n == 0 then [] else Repeat(c, n - 1) + [c]
  }

  lemma RepeatSlice(c: char, n: nat, i: nat, j: nat)
    requires i <= j <= n
    ensures Repeat(c, n)[i..j] == Repeat(c, j - i)
  {
    assert forall k :: 0 <= k < j - i ==> Repeat(c, n)[i..j][k] == c;
  }

  // ---------------------------------------------------------------------------
  // Replacing one character everywhere

  function Count(s: string, c: char): nat {
    if s == [] then 0 else (if s[0] == c then 1 else 0) + Count(s[1..], c)
  }

  /** Every occurrence of `from` in s replaced by `to`; all other characters
      kept in order. */
  function ReplaceAll(s: string, from: char, to: string): (r: string)
    ensures from !in to ==> from !in r
    ensures from !in s ==> r == s
  {
    if s == [] then []
    else (if s[0] == from then to else [s[0]]) + ReplaceAll(s[1..], from, to)
  }

  /** Replacing a character by a single character keeps the length and
      changes exactly the positions that held it. */
  lemma {:induction false} ReplaceByChar(s: string, from: char, to: char)
    ensures |ReplaceAll(s, from, [to])| == |s|
    ensures forall i :: 0 <= i < |s| ==>
      ReplaceAll(s, from, [to])[i] == if s[i] == from then to else s[i]
  {
    if s != [] {
      ReplaceByChar(s[1..], from, to);
      var r := ReplaceAll(s, from, [to]);
      forall i | 1 <= i < |s| ensures r[i] == if s[i] == from then to else s[i] {
        assert r[i] == ReplaceAll(s[1..], from, [to])[i - 1];
      }
    }
  }

  lemma {:induction false} ReplaceAllAppend(a: string, b: string, from: char, to: string)
    ensures ReplaceAll(a + b, from, to) == ReplaceAll(a, from, to) + ReplaceAll(b, from, to)
  {
    if a != [] {
      var head := if a[0] == from then to else [a[0]];
      assert (a + b)[0] == a[0];
      assert (a + b)[1..] == a[1..] + b;
      ReplaceAllAppend(a[1..], b, from, to);
      assert ReplaceAll(a + b, from, to) == head + ReplaceAll(a[1..] + b, from, to);
      assert ReplaceAll(a, from, to) == head + ReplaceAll(a[1..], from, to);
    } else {
      assert a + b == b;
    }
  }

  // ---------------------------------------------------------------------------
  // Decimal rendering of numbers (`String(n)`, template interpolation)

  predicate IsDecimalDigit(c: char) {
    '0' <= c <= '9'
  }

  function DigitChar(d: nat): (c: char)
    requires d < 10
    ensures IsDecimalDigit(c)
  {
    ['0', '1', '2', '3', '4', '5', '6', '7', '8', '9'][d]
  }

  function NatToString(n: nat): (s: string)
    ensures |s| >= 1
    ensures forall i :: 0 <= i < |s| ==> IsDecimalDigit(s[i])
  {
    if n < 10 then [DigitChar(n)] else NatToString(n / 10) + [DigitChar(n % 10)]
  }

  function IntToString(n: int): (s: string)
    ensures |s| >= 1
  {
    if n < 0 then "-" + NatToString(-n) else NatToString(n)
  }

  /** Reads back a string of decimal digits. */
  function DecimalValue(s: string): nat
    requires forall i :: 0 <= i < |s| ==> IsDecimalDigit(s[i])
  {
    if s == [] then 0
    else
      assert IsDecimalDigit(s[|s| - 1]);
      DecimalValue(s[..|s| - 1]) * 10 + (s[|s| - 1] as int - '0' as int)
  }

  lemma {:induction false} DecimalRoundTrip(n: nat)
    ensures DecimalValue(NatToString(n)) == n
  {
    var s := NatToString(n);
    if n >= 10 {
      DecimalRoundTrip(n / 10);
      assert s[..|s| - 1] == NatToString(n / 10);
    }
    assert s[|s| - 1] as int - '0' as int == n % 10;
  }

  /** Distinct numbers render as distinct strings. */
  lemma NatToStringInjective(m: nat, n: nat)
    ensures NatToString(m) == NatToString(n) ==> m == n
  {
    DecimalRoundTrip(m);
    DecimalRoundTrip(n);
  }

  // ---------------------------------------------------------------------------
  // Upper-casing

  function AsciiUpperChar(c: char): char {
    if 'a' <= c <= 'z' then (c as int - 32) as char else c
  }

  /** `toUpperCase` restricted to the ASCII letters. */
  function AsciiUpper(s: string): (r: string)
    ensures |r| == |s|
    ensures forall i :: 0 <= i < |s| ==> r[i] == AsciiUpperChar(s[i])
  {
    if s == [] then [] else [AsciiUpperChar(s[0])] + AsciiUpper(s[1..])
  }

  // ---------------------------------------------------------------------------
  // Substring search (`String.prototype.includes`)

  predicate OccursAt(s: string, pat: string, i: nat) {
    i + |pat| <= |s| && s[i..i + |pat|] == pat
  }

  predicate Contains(s: string, pat: string)
    decreases |s|
  {
    |pat| <= |s| && (s[..|pat|] == pat || (s != [] && Contains(s[1..], pat)))
  }

  /** `Contains` finds an occurrence exactly when there is one. */
  lemma {:induction false} ContainsIff(s: string, pat: string)
    ensures Contains(s, pat) <==> exists i: nat :: OccursAt(s, pat, i)
    decreases |s|
  {
    if |pat| <= |s| && s[..|pat|] == pat {
      assert OccursAt(s, pat, 0);
    } else if |pat| <= |s| && s != [] {
      ContainsIff(s[1..], pat);
      if Contains(s[1..], pat) {
        var i: nat :| OccursAt(s[1..], pat, i);
        assert s[i + 1..i + 1 + |pat|] == s[1..][i..i + |pat|];
        assert OccursAt(s, pat, i + 1);
      }
      if exists i: nat :: OccursAt(s, pat, i) {
        var i: nat :| OccursAt(s, pat, i);
        assert i != 0;
        assert s[1..][i - 1..i - 1 + |pat|] == s[i..i + |pat|];
        assert OccursAt(s[1..], pat, i - 1);
      }
    }
  }

  // ---------------------------------------------------------------------------
  // UTF-16 code units (the positions `String.prototype.slice` counts)

  /** The UTF-16 encoding of one character: itself below U+10000, a
      surrogate pair above. */
  function CharUnits(c: char): (u: seq<int>)
    ensures |u| == if c as int < 0x1_0000 then 1 else 2
    ensures forall k :: 0 <= k < |u| ==> 0 <= u[k] < 0x1_0000
    ensures |u| == 2 ==> 0xD800 <= u[0] < 0xDC00 && 0xDC00 <= u[1] < 0xE000
  {
    if c as int < 0x1_0000 then [c as int]
    else
      var v := c as int - 0x1_0000;
      [0xD800 + v / 0x400, 0xDC00 + v % 0x400]
  }

  /** The code units of a string, as JavaScript stores it. */
  function CodeUnits(s: string): (u: seq<int>)
    ensures |u| >= |s|
  {
    if s == [] then [] else CharUnits(s[0]) + CodeUnits(s[1..])
  }

  /** No character of s lies above U+FFFF. */
  predicate InBmp(s: string) {
    forall i :: 0 <= i < |s| ==> s[i] as int < 0x1_0000
  }

  /** Text without characters above U+FFFF has one code unit per character,
      equal to the character's code point. */
  lemma {:induction false} BmpCodeUnits(s: string)
    requires InBmp(s)
    ensures |CodeUnits(s)| == |s|
    ensures forall i :: 0 <= i < |s| ==> CodeUnits(s)[i] == s[i] as int
  {
    if s != [] {
      assert InBmp(s[1..]) by {
        forall i | 0 <= i < |s[1..]| ensures s[1..][i] as int < 0x1_0000 {
          assert s[1..][i] == s[i + 1];
        }
      }
      BmpCodeUnits(s[1..]);
    }
  }

  /** Encoding distributes over concatenation. */
  lemma {:induction false} CodeUnitsAppend(a: string, b: string)
    ensures CodeUnits(a + b) == CodeUnits(a) + CodeUnits(b)
  {
    if a == [] {
      assert a + b == b;
    } else {
      assert (a + b)[0] == a[0] && (a + b)[1..] == a[1..] + b;
      CodeUnitsAppend(a[1..], b);
    }
  }

  /** `u.slice(i, j)` on code units for 0 <= i <= j: bounds past the end are
      clamped. */
  function UnitSlice(u: seq<int>, i: nat, j: nat): (r: seq<int>)
    requires i <= j
    ensures |r| <= j - i
    ensures j <= |u| ==> r == u[i..j]
  {
    if j <= |u| then u[i..j] else if i <= |u| then u[i..] else []
  }
}
