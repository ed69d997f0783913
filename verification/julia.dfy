/** Deriving Julia-set parameters from a UUID, the escape iteration and the
    inside-the-set colour of the avatar renderer (src/lib/utils/mandelbrot.ts).

    The hyphens of the UUID are removed and four 8-digit hex groups are read as
    fractions a, b, c, d of 0xffffffff. `a` selects one of eight base constants,
    `b` and `c` perturb it by at most 0.04 per component, `d` gives the hue, and
    the hex digits 20..24 give the base saturation. */
module Julia {
  import opened Wrappers
  import opened Strings
  import opened JsNumber

  datatype Complex = Complex(re: Number, im: Number)

  datatype JuliaParams = JuliaParams(c: Complex, hue: Number, satBase: Number)

  /** Reading `.re` of `cValues[i]` when i is outside the table throws. */
  datatype Failure = TypeError

  datatype Rgb = Rgb(r: Number, g: Number, b: Number)

  const U32Max: nat := 0xffff_ffff
  const U16Max: nat := 0xffff
  const PerturbScale: real := 0.08

  /** The eight base constants: dendrite, spiral, Siegel disk, Douady rabbit,
      elaborate spiral, feathery, branching, seahorse-like. */
  const CValues: seq<(real, real)> := [
    (-0.8, 0.156),
    (-0.4, 0.6),
    (0.285, 0.01),
    (-0.70176, -0.3842),
    (-0.835, -0.2321),
    (-0.74543, 0.11301),
    (0.355, 0.355),
    (-0.1, 0.651)
  ]

  // ---------------------------------------------------------------------------
  // Parameter derivation

  /** `uuid.replace(/-/g, '')`. */
  function StripHyphens(uuid: string): (hex: string)
    ensures '-' !in hex
  {
    ReplaceAll(uuid, '-', "")
  }

  /** `s.slice(i, j)` for 0 <= i <= j: bounds past the end are clamped. */
  function Slice(s: string, i: nat, j: nat): (r: string)
    requires i <= j
    ensures |r| <= j - i
    ensures j <= |s| ==> r == s[i..j]
    ensures forall c :: c in r ==> c in s
  {
    if j <= |s| then s[i..j] else if i <= |s| then s[i..] else []
  }

  /** On text without characters above U+FFFF, slicing by characters gives
      exactly the code units JavaScript's `slice` returns. */
  lemma SliceMatchesCodeUnits(s: string, i: nat, j: nat)
    requires InBmp(s) && i <= j
    ensures CodeUnits(Slice(s, i, j)) == UnitSlice(CodeUnits(s), i, j)
  {
    var r := Slice(s, i, j);
    BmpCodeUnits(s);
    assert InBmp(r) by {
      forall k | 0 <= k < |r| ensures r[k] as int < 0x1_0000 {
        assert r[k] in s;
      }
    }
    BmpCodeUnits(r);
  }

  /** A character above U+FFFF among the first eight takes two code units,
      so JavaScript's second group starts with that character's low
      surrogate while the character slice starts at the next character. */
  lemma AstralShiftsSecondGroup(p: string, c: char, t: string)
    requires |p| == 7 && InBmp(p) && c as int >= 0x1_0000 && |t| >= 8
    ensures Slice(p + [c] + t, 8, 16) == t[..8]
    ensures 0xDC00 <= UnitSlice(CodeUnits(p + [c] + t), 8, 16)[0] < 0xE000
  {
    var s := p + [c] + t;
    assert s[8..16] == t[..8];
    CodeUnitsAppend(p + [c], t);
    CodeUnitsAppend(p, [c]);
    BmpCodeUnits(p);
    assert CodeUnits([c]) == CharUnits(c) + CodeUnits([]) by {
      assert [c][1..] == [];
    }
    var u := CodeUnits(s);
    assert u == CodeUnits(p) + CharUnits(c) + CodeUnits(t);
    assert u[8] == CharUnits(c)[1];
  }

  /** `parseInt(hex.slice(k, k + 8), 16) / 0xffffffff`: a fraction in
      [-1, 1], in [0, 1] when the text has no '-' (as the hyphen-free text
      never has), and NaN when the slice is not a hex numeral. */
  function GroupFraction(hex: string, k: nat): (x: Number)
    ensures x.NaN? <==> !IsHexNumeral(Slice(hex, k, k + 8))
    ensures x.Finite? ==> -1.0 <= x.v <= 1.0
    ensures x.Finite? && '-' !in hex ==> 0.0 <= x.v
  {
    var slice := Slice(hex, k, k + 8);
    assert Pow16(8) == U32Max + 1;
    ParsedWithin(slice, 8, U32Max);
    DivBy(ParseIntHex(slice), U32Max as real)
  }

  /** A text of at most `width` characters reads as a number of magnitude
      at most 16^width - 1. */
  lemma ParsedWithin(s: string, width: nat, m: nat)
    requires |s| <= width && Pow16(width) == m + 1
    ensures ParseIntHex(s).Finite? ==> -(m as real) <= ParseIntHex(s).v <= m as real
  {
    var n := ParseIntHex(s);
    if n.Finite? {
      PowMonotone(|s|, width);
      WholeWithin(n.v, m);
    }
  }

  /** A whole number strictly between -(m + 1) and m + 1 lies in [-m, m]. */
  lemma WholeWithin(v: real, m: nat)
    requires v.Floor as real == v && -((m + 1) as real) < v < (m + 1) as real
    ensures -(m as real) <= v <= m as real
  {
    var k, bound := v.Floor, m as int;
    assert k as real == v;
    assert -(bound + 1) < k < bound + 1;
    assert -bound <= k <= bound;
  }

  /** `Math.floor(a * cValues.length)`, with no clamp. */
  function BaseIndexAsWritten(a: real): (i: int)
    ensures 0.0 <= a < 1.0 ==> 0 <= i < |CValues|
    ensures a == 1.0 ==> i == |CValues|
  {
    (a * |CValues| as real).Floor
  }

  /** The base index clamped into the table, as intended. */
  function BaseIndex(a: real): (i: nat)
    ensures i < |CValues|
    ensures 0 <= BaseIndexAsWritten(a) < |CValues| ==> i == BaseIndexAsWritten(a)
  {
    var i := BaseIndexAsWritten(a);
    if i < 0 then 0 else if i >= |CValues| then |CValues| - 1 else i
  }

  /** A component of the base constant moved by (x - 0.5) * 0.08. */
  function Perturb(base: real, x: Number): (r: Number)
    ensures r.NaN? <==> x.NaN?
    ensures x.Finite? && -1.0 <= x.v <= 1.0 ==> base - 0.12 <= r.v <= base + 0.04
    ensures x.Finite? && 0.0 <= x.v <= 1.0 ==> base - 0.04 <= r.v <= base + 0.04
  {
    Add(Finite(base), Mul(Sub(x, Finite(0.5)), Finite(PerturbScale)))
  }

  /** `d * 360`. */
  function Hue(d: Number): (h: Number)
    ensures h.NaN? <==> d.NaN?
    ensures d.Finite? && -1.0 <= d.v <= 1.0 ==> -360.0 <= h.v <= 360.0
    ensures d.Finite? && 0.0 <= d.v <= 1.0 ==> 0.0 <= h.v <= 360.0
  {
    Mul(d, Finite(360.0))
  }

  /** `0.5 + (parseInt(hex.slice(20, 24), 16) / 0xffff) * 0.4`. */
  function SatBase(hex: string): (s: Number)
    ensures s.NaN? <==> !IsHexNumeral(Slice(hex, 20, 24))
    ensures s.Finite? ==> 0.1 <= s.v <= 0.9
    ensures s.Finite? && '-' !in hex ==> 0.5 <= s.v
  {
    var slice := Slice(hex, 20, 24);
    assert Pow16(4) == U16Max + 1;
    ParsedWithin(slice, 4, U16Max);
    Add(Finite(0.5), Mul(DivBy(ParseIntHex(slice), U16Max as real), Finite(0.4)))
  }

  /** The parameters once the base constant is chosen, from the second,
      third and fourth group fractions and the saturation base. */
  function DeriveFrom(b: Number, c: Number, d: Number, sat: Number, base: (real, real)): (p: JuliaParams)
    ensures p.c.re.NaN? <==> b.NaN?
    ensures p.c.im.NaN? <==> c.NaN?
    ensures p.hue.NaN? <==> d.NaN?
    ensures p.satBase == sat
  {
    JuliaParams(Complex(Perturb(base.0, b), Perturb(base.1, c)), Hue(d), sat)
  }

  /** The parameters once the base constant is chosen. */
  function Derive(hex: string, base: (real, real)): (p: JuliaParams)
    ensures p.c.re.Finite? ==> base.0 - 0.12 <= p.c.re.v <= base.0 + 0.04
    ensures p.c.im.Finite? ==> base.1 - 0.12 <= p.c.im.v <= base.1 + 0.04
    ensures p.hue.Finite? ==> -360.0 <= p.hue.v <= 360.0
    ensures p.satBase.Finite? ==> 0.1 <= p.satBase.v <= 0.9
    ensures '-' !in hex ==>
      (p.c.re.Finite? ==> base.0 - 0.04 <= p.c.re.v) &&
      (p.c.im.Finite? ==> base.1 - 0.04 <= p.c.im.v) &&
      (p.hue.Finite? ==> 0.0 <= p.hue.v) &&
      (p.satBase.Finite? ==> 0.5 <= p.satBase.v)
  {
    DeriveFrom(GroupFraction(hex, 8), GroupFraction(hex, 16), GroupFraction(hex, 24), SatBase(hex), base)
  }

  /** `uuidToJuliaParams` as written: a first group that is not a number, or
      that is ffffffff, indexes outside the table and the call throws. */
  function UuidToJuliaParamsAsWritten(uuid: string): (r: Result<JuliaParams, Failure>)
    ensures var a := GroupFraction(StripHyphens(uuid), 0);
      r.Ok? <==> a.Finite? && 0 <= BaseIndexAsWritten(a.v) < |CValues|
    ensures var a := GroupFraction(StripHyphens(uuid), 0);
      r.Ok? ==> (a.Finite? && 0 <= BaseIndexAsWritten(a.v) < |CValues| &&
                 r.value == Derive(StripHyphens(uuid), CValues[BaseIndexAsWritten(a.v)]))
  {
    var hex := StripHyphens(uuid);
    var a := GroupFraction(hex, 0);
    if a.NaN? then Err(TypeError)
    else
      var i := BaseIndexAsWritten(a.v);
      if 0 <= i < |CValues| then Ok(Derive(hex, CValues[i])) else Err(TypeError)
  }

  /** `uuidToJuliaParams` with the base index clamped into the table: only a
      first group that is not a hex numeral makes it throw. */
  function UuidToJuliaParams(uuid: string): (r: Result<JuliaParams, Failure>)
    ensures r.Err? <==> !IsHexNumeral(Slice(StripHyphens(uuid), 0, 8))
    ensures r.Ok? ==> exists i :: 0 <= i < |CValues| && r.value == Derive(StripHyphens(uuid), CValues[i])
    ensures UuidToJuliaParamsAsWritten(uuid).Ok? ==> r == UuidToJuliaParamsAsWritten(uuid)
  {
    var hex := StripHyphens(uuid);
    var a := GroupFraction(hex, 0);
    if a.NaN? then Err(TypeError) else Ok(Derive(hex, CValues[BaseIndex(a.v)]))
  }

  // ---------------------------------------------------------------------------
  // Facts about canonical identifiers

  /** The first base index is exactly (8 n) div 0xffffffff for a first group n,
      so it lies inside the table exactly when n < 0xffffffff. */
  lemma BaseIndexExact(n: nat)
    requires n <= U32Max
    ensures BaseIndexAsWritten(n as real / U32Max as real) == (8 * n) / U32Max
    ensures 0 <= BaseIndexAsWritten(n as real / U32Max as real) < |CValues| <==> n < U32Max
  {
    var q, r := (8 * n) / U32Max, (8 * n) % U32Max;
    assert 8 * n == q * U32Max + r;
    var x := n as real / U32Max as real * 8.0;
    assert x == q as real + r as real / U32Max as real;
    assert 0.0 <= r as real / U32Max as real < 1.0;
    assert x.Floor == q;
    if n < U32Max {
      assert q < 8;
    } else {
      assert q == 8;
    }
  }

  lemma {:induction false} RepeatValue(c: char, n: nat)
    requires IsHexDigit(c)
    ensures AllHex(Repeat(c, n))
    ensures HexValue(Repeat(c, n)) * 15 == (Pow16(n) - 1) * HexDigitValue(c)
  {
    var s := Repeat(c, n);
    assert AllHex(s);
    if n > 0 {
      assert s[..n - 1] == Repeat(c, n - 1);
      RepeatValue(c, n - 1);
      var v, p, d := HexValue(Repeat(c, n - 1)), Pow16(n - 1), HexDigitValue(c);
      RepeatStep(v, p, d, HexValue(s), Pow16(n));
    } else {
      assert s == [];
    }
  }

  lemma RepeatStep(v: int, p: int, d: int, h: int, q: int)
    requires v * 15 == (p - 1) * d
    requires h == v * 16 + d && q == p * 16
    ensures h * 15 == (q - 1) * d
  {
    calc {
      h * 15;
    == (v * 15) * 16 + d * 15;
    == ((p - 1) * d) * 16 + d * 15;
    == (q - 1) * d;
    }
  }

  /** When the slice of digits k..k+8 is all hex digits, the group is its
      value divided by 0xffffffff. */
  lemma GroupOfHexDigits(hex: string, k: nat)
    requires k + 8 <= |hex| && AllHex(hex[k..k + 8])
    ensures GroupFraction(hex, k) == Finite(HexValue(hex[k..k + 8]) as real / U32Max as real)
  {
    ParseIntHexOfHex(hex[k..k + 8]);
  }

  /** A first group of ffffffff makes the unclamped lookup throw. */
  lemma FullFirstGroupThrows(uuid: string)
    requires |StripHyphens(uuid)| >= 8 && StripHyphens(uuid)[..8] == "ffffffff"
    ensures GroupFraction(StripHyphens(uuid), 0) == Finite(1.0)
    ensures BaseIndexAsWritten(1.0) == |CValues|
    ensures UuidToJuliaParamsAsWritten(uuid).Err?
    ensures UuidToJuliaParams(uuid).Ok?
  {
    var hex := StripHyphens(uuid);
    assert Repeat('f', 8) == "ffffffff";
    RepeatValue('f', 8);
    assert Pow16(8) == U32Max + 1;
    assert HexValue(hex[0..8]) == U32Max;
    GroupOfHexDigits(hex, 0);
    BaseIndexExact(U32Max);
  }

  /** A first group of a blank and seven hex digits is read as the number
      the digits spell, below 16^7, so both versions pick the first base
      constant. */
  lemma BlankLedFirstGroup(uuid: string)
    requires var hex := StripHyphens(uuid);
      |hex| >= 8 && IsJsWhitespace(hex[0]) && AllHex(hex[1..8])
    ensures UuidToJuliaParamsAsWritten(uuid) == Ok(Derive(StripHyphens(uuid), CValues[0]))
    ensures UuidToJuliaParams(uuid) == UuidToJuliaParamsAsWritten(uuid)
  {
    var hex := StripHyphens(uuid);
    var n := BlankLedGroup(hex);
    BaseIndexExact(n);
    assert (8 * n) / U32Max == 0;
    LookupOfGroup(uuid, n as real / U32Max as real);
  }

  lemma BlankLedGroup(hex: string) returns (n: nat)
    requires |hex| >= 8 && IsJsWhitespace(hex[0]) && AllHex(hex[1..8])
    ensures n < 0x1000_0000
    ensures GroupFraction(hex, 0) == Finite(n as real / U32Max as real)
  {
    var digits := hex[1..8];
    assert Slice(hex, 0, 8) == [hex[0]] + digits;
    ParseIntHexSkipsBlank(hex[0], digits);
    ParseIntHexOfHex(digits);
    n := HexValue(digits);
    HexValueBound(digits);
    assert Pow16(7) == 0x1000_0000;
  }

  predicate IsCanonicalHex(hex: string) {
    |hex| == 32 && AllHex(hex)
  }

  lemma CanonicalSlice(hex: string, i: nat, j: nat)
    requires IsCanonicalHex(hex) && i <= j <= 32
    ensures AllHex(hex[i..j])
  {
    assert forall k :: 0 <= k < j - i ==> hex[i..j][k] == hex[i + k];
  }

  /** The digits 20..24 read by the saturation are the low 16 bits of the
      third group. */
  lemma SatSliceIsLowHalfOfThirdGroup(hex: string)
    requires IsCanonicalHex(hex)
    ensures AllHex(hex[16..24]) && AllHex(hex[20..24])
    ensures HexValue(hex[20..24]) == HexValue(hex[16..24]) % 0x1_0000
    ensures SatBase(hex) == Finite(0.5 + HexValue(hex[20..24]) as real / U16Max as real * 0.4)
  {
    CanonicalSlice(hex, 16, 20);
    CanonicalSlice(hex, 20, 24);
    assert hex[16..24] == hex[16..20] + hex[20..24];
    HexValueAppend(hex[16..20], hex[20..24]);
    HexValueBound(hex[20..24]);
    assert Pow16(4) == 0x1_0000;
    DivModUnique(HexValue(hex[16..24]), 0x1_0000, HexValue(hex[16..20]), HexValue(hex[20..24]));
    ParseIntHexOfHex(hex[20..24]);
  }

  /** For a canonical UUID every derived value is a number, and the
      unclamped lookup succeeds exactly when the first group n is below
      0xffffffff, at index (8 n) div 0xffffffff. */
  lemma CanonicalParams(uuid: string)
    requires IsCanonicalHex(StripHyphens(uuid))
    ensures UuidToJuliaParams(uuid).Ok?
    ensures var p := UuidToJuliaParams(uuid).value;
      p.c.re.Finite? && p.c.im.Finite? && p.hue.Finite? && p.satBase.Finite?
    ensures var hex := StripHyphens(uuid);
      AllHex(hex[..8]) &&
      (UuidToJuliaParamsAsWritten(uuid).Ok? <==> HexValue(hex[..8]) < U32Max) &&
      (HexValue(hex[..8]) < U32Max ==>
         UuidToJuliaParams(uuid) == Ok(Derive(hex, CValues[(8 * HexValue(hex[..8])) / U32Max])))
  {
    var hex := StripHyphens(uuid);
    CanonicalSlice(hex, 0, 8);
    assert hex[..8] == hex[0..8];
    var n := HexValue(hex[..8]);
    HexValueBound(hex[..8]);
    assert Pow16(8) == U32Max + 1;
    GroupOfHexDigits(hex, 0);
    var a := n as real / U32Max as real;
    BaseIndexExact(n);
    LookupOfGroup(uuid, a);
    CanonicalGroupsFinite(hex);
    var p := UuidToJuliaParams(uuid).value;
    assert p == Derive(hex, CValues[BaseIndex(a)]);
  }

  lemma CanonicalGroupsFinite(hex: string)
    requires IsCanonicalHex(hex)
    ensures forall base: (real, real) ::
      var p := Derive(hex, base);
      p.c.re.Finite? && p.c.im.Finite? && p.hue.Finite? && p.satBase.Finite?
  {
    CanonicalSlice(hex, 8, 16);
    CanonicalSlice(hex, 16, 24);
    CanonicalSlice(hex, 24, 32);
    GroupOfHexDigits(hex, 8);
    GroupOfHexDigits(hex, 16);
    GroupOfHexDigits(hex, 24);
    SatSliceIsLowHalfOfThirdGroup(hex);
  }

  lemma {:induction false} ZerosValue(s: string)
    requires forall i :: 0 <= i < |s| ==> s[i] == '0'
    ensures AllHex(s) && HexValue(s) == 0
  {
    if s != [] {
      ZerosValue(s[..|s| - 1]);
    }
  }

  lemma ZeroGroup(hex: string, k: nat)
    requires |hex| == 32 && forall i :: 0 <= i < |hex| ==> hex[i] == '0'
    requires k + 8 <= 32
    ensures GroupFraction(hex, k) == Finite(0.0)
  {
    ZerosValue(hex[k..k + 8]);
    GroupOfHexDigits(hex, k);
  }

  /** The parameters derived from 32 zero digits around the first base
      constant. */
  lemma ZeroDigitsDerive(hex: string)
    requires |hex| == 32 && forall i :: 0 <= i < |hex| ==> hex[i] == '0'
    ensures Derive(hex, CValues[0]) ==
      JuliaParams(Complex(Finite(-0.84), Finite(0.116)), Finite(0.0), Finite(0.5))
  {
    ZeroGroup(hex, 8);
    ZeroGroup(hex, 16);
    ZeroGroup(hex, 24);
    ZeroSat(hex);
    DeriveOfZeroGroups(CValues[0]);
    assert CValues[0] == (-0.8, 0.156);
  }

  /** Groups of value 0 and a saturation of 0.5 move both components of
      the base constant down by 0.04. */
  lemma DeriveOfZeroGroups(base: (real, real))
    ensures DeriveFrom(Finite(0.0), Finite(0.0), Finite(0.0), Finite(0.5), base) ==
      JuliaParams(Complex(Finite(base.0 - 0.04), Finite(base.1 - 0.04)), Finite(0.0), Finite(0.5))
  {
    PerturbAtZero(base.0);
    PerturbAtZero(base.1);
    assert Hue(Finite(0.0)) == Finite(0.0);
  }

  lemma PerturbAtZero(base: real)
    ensures Perturb(base, Finite(0.0)) == Finite(base - 0.04)
  {
  }

  lemma ZeroSat(hex: string)
    requires |hex| == 32 && forall i :: 0 <= i < |hex| ==> hex[i] == '0'
    ensures SatBase(hex) == Finite(0.5)
  {
    ZerosValue(hex[20..24]);
    ParseIntHexOfHex(hex[20..24]);
    assert Slice(hex, 20, 24) == hex[20..24];
  }

  /** Both lookups pick the base constant from the first group. */
  lemma LookupOfGroup(uuid: string, a: real)
    requires GroupFraction(StripHyphens(uuid), 0) == Finite(a)
    ensures UuidToJuliaParams(uuid) == Ok(Derive(StripHyphens(uuid), CValues[BaseIndex(a)]))
    ensures 0 <= BaseIndexAsWritten(a) < |CValues| ==>
      UuidToJuliaParamsAsWritten(uuid) == UuidToJuliaParams(uuid)
  {
  }

  /** The nil UUID selects the first base constant with hue 0, saturation 0.5
      and both components moved down by 0.04. */
  lemma NilUuidParams(uuid: string)
    requires |StripHyphens(uuid)| == 32
    requires forall i :: 0 <= i < 32 ==> StripHyphens(uuid)[i] == '0'
    ensures UuidToJuliaParamsAsWritten(uuid) == UuidToJuliaParams(uuid)
    ensures UuidToJuliaParams(uuid) ==
      Ok(JuliaParams(Complex(Finite(-0.84), Finite(0.116)), Finite(0.0), Finite(0.5)))
  {
    var hex := StripHyphens(uuid);
    ZeroGroup(hex, 0);
    assert BaseIndexAsWritten(0.0) == 0;
    LookupOfGroup(uuid, 0.0);
    ZeroDigitsDerive(hex);
  }

  // ---------------------------------------------------------------------------
  // Escape iteration

  /** One step z := z^2 + c, computed as the loop body does. */
  function Step(z: (Number, Number), c: Complex): (Number, Number) {
    var re2 := Mul(z.0, z.0);
    var im2 := Mul(z.1, z.1);
    (Add(Sub(re2, im2), c.re), Add(Mul(Mul(Finite(2.0), z.0), z.1), c.im))
  }

  function Modulus2(z: (Number, Number)): Number {
    Add(Mul(z.0, z.0), Mul(z.1, z.1))
  }

  /** The k-th point of the orbit of z0. */
  function Orbit(z0: (Number, Number), c: Complex, k: nat): (Number, Number) {
    if k == 0 then z0 else Step(Orbit(z0, c, k - 1), c)
  }

  predicate Escaped(z: (Number, Number)) {
    Greater(Modulus2(z), 4.0)
  }

  /** The first k in [i, maxIter) whose orbit point has |z|^2 > 4. */
  function FirstEscape(z0: (Number, Number), c: Complex, i: nat, maxIter: nat): (r: Option<nat>)
    ensures r.Some? ==> i <= r.value < maxIter && Escaped(Orbit(z0, c, r.value))
    ensures r.Some? ==> forall j :: i <= j < r.value ==> !Escaped(Orbit(z0, c, j))
    ensures r.None? ==> forall j :: i <= j < maxIter ==> !Escaped(Orbit(z0, c, j))
    decreases maxIter - i
  {
    if i >= maxIter then None
    else if Escaped(Orbit(z0, c, i)) then Some(i)
    else FirstEscape(z0, c, i + 1, maxIter)
  }

  /** The loop of `juliaIter` from iteration i on; `nu` stands for the
      smooth-colouring term computed with logarithms from |z|^2. */
  function EscapeFrom(z: (Number, Number), c: Complex, i: nat, maxIter: nat, nu: real -> real): (r: Number)
    ensures r.Finite?
    decreases maxIter - i
  {
    if i >= maxIter then Finite(maxIter as real)
    else if Escaped(z) then Finite(i as real + 1.0 - nu(Modulus2(z).v))
    else EscapeFrom(Step(z, c), c, i + 1, maxIter, nu)
  }

  /** `juliaIter(z0, c, maxIter)`. */
  function JuliaIter(z0: (real, real), c: Complex, maxIter: nat, nu: real -> real): (r: Number)
    ensures r.Finite?
  {
    EscapeFrom((Finite(z0.0), Finite(z0.1)), c, 0, maxIter, nu)
  }

  /** The value the loop returns, stated through the orbit. */
  function EscapeValue(z0: (Number, Number), c: Complex, maxIter: nat, nu: real -> real, e: Option<nat>): Number
    requires e.Some? ==> Escaped(Orbit(z0, c, e.value))
  {
    match e
    case None => Finite(maxIter as real)
    case Some(k) => Finite(k as real + 1.0 - nu(Modulus2(Orbit(z0, c, k)).v))
  }

  lemma {:induction false} EscapeFromOrbit(z0: (Number, Number), c: Complex, i: nat, maxIter: nat, nu: real -> real)
    ensures EscapeFrom(Orbit(z0, c, i), c, i, maxIter, nu) ==
      EscapeValue(z0, c, maxIter, nu, FirstEscape(z0, c, i, maxIter))
    decreases maxIter - i
  {
    if i < maxIter && !Escaped(Orbit(z0, c, i)) {
      assert Orbit(z0, c, i + 1) == Step(Orbit(z0, c, i), c);
      EscapeFromOrbit(z0, c, i + 1, maxIter, nu);
    }
  }

  /** `juliaIter` returns the smoothed count of the first orbit point with
      |z|^2 > 4, and exactly maxIter when none of the first maxIter points
      escapes. */
  lemma JuliaIterFirstEscape(z0: (real, real), c: Complex, maxIter: nat, nu: real -> real)
    ensures var z := (Finite(z0.0), Finite(z0.1));
      JuliaIter(z0, c, maxIter, nu) == EscapeValue(z, c, maxIter, nu, FirstEscape(z, c, 0, maxIter))
  {
    EscapeFromOrbit((Finite(z0.0), Finite(z0.1)), c, 0, maxIter, nu);
  }

  /** Since |z|^2 > 4 makes the smoothing term positive, an escaping point
      gets a value below maxIter: the result is maxIter exactly for points
      none of whose first maxIter orbit points escapes. */
  lemma EscapeBelowBudget(z0: (real, real), c: Complex, maxIter: nat, nu: real -> real)
    requires forall m: real :: m > 4.0 ==> nu(m) > 0.0
    ensures JuliaIter(z0, c, maxIter, nu).v <= maxIter as real
    ensures JuliaIter(z0, c, maxIter, nu).v == maxIter as real <==>
      forall k :: 0 <= k < maxIter ==> !Escaped(Orbit((Finite(z0.0), Finite(z0.1)), c, k))
  {
    var z := (Finite(z0.0), Finite(z0.1));
    JuliaIterFirstEscape(z0, c, maxIter, nu);
    var e := FirstEscape(z, c, 0, maxIter);
    if e.Some? {
      assert Escaped(Orbit(z, c, e.value));
      assert Modulus2(Orbit(z, c, e.value)).v > 4.0;
      assert JuliaIter(z0, c, maxIter, nu).v < maxIter as real;
    }
  }

  // ---------------------------------------------------------------------------
  // Colour mapping

  /** The colour of a point inside the set: a dark tint that depends on the
      hue only. */
  function InsideTint(hue: Number): (c: Rgb)
    ensures c.r.NaN? <==> hue.NaN?
    ensures c.g.NaN? <==> hue.NaN?
    ensures c.b.NaN? <==> hue.NaN?
    ensures hue.Finite? && 0.0 <= hue.v <= 360.0 ==>
      c.r.Finite? && c.g.Finite? && c.b.Finite? &&
      15.0 <= c.r.v <= 25.0 && 12.0 <= c.g.v <= 20.0 && 20.0 <= c.b.v <= 25.0
  {
    var h := DivBy(hue, 360.0);
    var tint := Rgb(RoundNumber(Add(Finite(15.0), Mul(h, Finite(10.0)))),
                    RoundNumber(Add(Finite(12.0), Mul(h, Finite(8.0)))),
                    RoundNumber(Add(Finite(20.0), Mul(h, Finite(5.0)))));
    if h.Finite? && 0.0 <= h.v <= 1.0 then
      RoundBetween(15, 15.0 + h.v * 10.0, 25);
      RoundBetween(12, 12.0 + h.v * 8.0, 20);
      RoundBetween(20, 20.0 + h.v * 5.0, 25);
      tint
    else
      tint
  }

  lemma RoundBetween(lo: int, x: real, hi: int)
    requires lo as real <= x <= hi as real
    ensures lo <= Round(x) <= hi
  {
    RoundMonotone(lo as real, x);
    RoundMonotone(x, hi as real);
    RoundOfInt(lo);
    RoundOfInt(hi);
  }

  lemma InsideTintAtHueZero()
    ensures InsideTint(Finite(0.0)) == Rgb(Finite(15.0), Finite(12.0), Finite(20.0))
  {
    assert DivBy(Finite(0.0), 360.0) == Finite(0.0);
    RoundOfInt(15);
    RoundOfInt(12);
    RoundOfInt(20);
  }

  /** `iterToColor`: the inside tint when iter >= maxIter, otherwise the HSL
      sweep, which is the parameter `outside`. */
  function IterToColor(iter: Number, maxIter: nat, hue: Number, satBase: Number,
                       outside: (Number, nat, Number, Number) -> Rgb): (c: Rgb)
  {
    if AtLeast(iter, maxIter as real) then InsideTint(hue) else outside(iter, maxIter, hue, satBase)
  }

  /** Inside the set the colour ignores the iteration value, the saturation
      and the HSL mapping. */
  lemma InsideColourDependsOnHueOnly(iter1: Number, iter2: Number, maxIter: nat, hue: Number,
                                     sat1: Number, sat2: Number,
                                     out1: (Number, nat, Number, Number) -> Rgb,
                                     out2: (Number, nat, Number, Number) -> Rgb)
    requires AtLeast(iter1, maxIter as real) && AtLeast(iter2, maxIter as real)
    ensures IterToColor(iter1, maxIter, hue, sat1, out1) == IterToColor(iter2, maxIter, hue, sat2, out2)
    ensures IterToColor(iter1, maxIter, hue, sat1, out1) == InsideTint(hue)
  {
  }

  // ---------------------------------------------------------------------------
  // Pixels

  /** The coordinate of pixel p on a side of `size` pixels: the 3.0-wide
      viewport centred on the origin. */
  function PixelCoord(size: nat, p: nat): (x: real)
    requires size > 0
    ensures p < size ==> -1.5 <= x < 1.5
  {
    var scale := 3.0 / size as real;
    assert (p as real - size as real / 2.0) * scale == 3.0 * p as real / size as real - 1.5;
    assert p < size ==> (p as real) / (size as real) < 1.0;
    (p as real - size as real / 2.0) * scale
  }

  /** The colour the render loop computes for pixel (px, py). */
  function PixelColor(params: JuliaParams, size: nat, maxIter: nat, nu: real -> real,
                      outside: (Number, nat, Number, Number) -> Rgb, px: nat, py: nat): Rgb
    requires size > 0
  {
    var iter := JuliaIter((PixelCoord(size, px), PixelCoord(size, py)), params.c, maxIter, nu);
    IterToColor(iter, maxIter, params.hue, params.satBase, outside)
  }
}
