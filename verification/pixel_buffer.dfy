/** The RGBA pixel buffer filled by the render loop of the avatar renderer:
    `size * size` pixels in row-major order, four bytes each (red, green, blue,
    alpha), stored into a `Uint8ClampedArray`. */
module PixelBuffer {
  import opened JsNumber
  import opened Julia

  /** Channel ch (0 red, 1 green, 2 blue) of a colour. */
  function Channel(c: Rgb, ch: nat): Number
    requires ch < 3
  {
    if ch == 0 then c.r else if ch == 1 then c.g else c.b
  }

  /** The byte the loop stores for channel ch of a pixel of colour c: the
      clamped colour value, and 255 for alpha. */
  function PixelByte(c: Rgb, ch: nat): Byte
    requires ch < 4
  {
    if ch == 3 then 255 else ToUint8Clamp(Channel(c, ch))
  }

  /** The first byte of pixel (px, py). */
  function PixelIndex(size: nat, px: nat, py: nat): nat {
    (py * size + px) * 4
  }

  /** What a finished buffer holds at byte i, found by decoding i back into
      a pixel and a channel. */
  function ExpectedByte(size: nat, colorAt: (nat, nat) -> Rgb, i: nat): Byte
    requires size > 0
  {
    var pixel := i / 4;
    PixelByte(colorAt(pixel % size, pixel / size), i % 4)
  }

  /** Row-major layout: the bytes of pixel (px, py) lie inside the buffer. */
  lemma PixelInBounds(size: nat, px: nat, py: nat)
    requires px < size && py < size
    ensures PixelIndex(size, px, py) + 4 <= 4 * size * size
  {
    assert py * size + px < (py + 1) * size;
    assert (py + 1) * size <= size * size by {
      MulLe(py + 1, size, size);
    }
  }

  lemma MulLe(a: nat, b: nat, c: nat)
    requires a <= b
    ensures a * c <= b * c
  {
  }

  /** Byte ch of pixel (px, py) decodes back to that pixel and channel. */
  lemma DecodeIndex(size: nat, px: nat, py: nat, ch: nat)
    requires px < size && ch < 4
    ensures var i := PixelIndex(size, px, py) + ch;
      i / 4 == py * size + px && i % 4 == ch &&
      (i / 4) % size == px && (i / 4) / size == py
  {
    DivModUnique(PixelIndex(size, px, py) + ch, 4, py * size + px, ch);
    DivModUnique(py * size + px, size, py, px);
  }

  /** Every byte of the buffer belongs to exactly one pixel and channel. */
  lemma {:induction false} IndexDecomposes(size: nat, i: nat)
    requires i < 4 * size * size
    ensures size > 0
    ensures var pixel := i / 4;
      pixel % size < size && pixel / size < size &&
      i == PixelIndex(size, pixel % size, pixel / size) + i % 4
  {
    if size == 0 {
      assert false;
    }
    var pixel := i / 4;
    assert pixel < size * size;
    var px, py := pixel % size, pixel / size;
    assert pixel == py * size + px;
    if py >= size {
      MulLe(size, py, size);
      assert false;
    }
  }

  /** The byte expected at PixelIndex(size, px, py) + ch is that pixel's
      channel. */
  lemma ExpectedAt(size: nat, colorAt: (nat, nat) -> Rgb, px: nat, py: nat, ch: nat)
    requires px < size && ch < 4
    ensures ExpectedByte(size, colorAt, PixelIndex(size, px, py) + ch) == PixelByte(colorAt(px, py), ch)
  {
    DecodeIndex(size, px, py, ch);
  }

  /** The four bytes of pixel (px, py) hold colour c: the clamped red, green
      and blue values and an opaque alpha. */
  predicate PixelStored(buffer: seq<Byte>, size: nat, px: nat, py: nat, c: Rgb) {
    var idx := PixelIndex(size, px, py);
    idx + 4 <= |buffer| &&
    buffer[idx] == ToUint8Clamp(c.r) && buffer[idx + 1] == ToUint8Clamp(c.g) &&
    buffer[idx + 2] == ToUint8Clamp(c.b) && buffer[idx + 3] == 255
  }

  /** A buffer that holds the expected byte everywhere holds every pixel's
      colour at that pixel's place. */
  lemma Layout(size: nat, colorAt: (nat, nat) -> Rgb, buffer: seq<Byte>)
    requires size > 0 && |buffer| == 4 * size * size
    requires forall i :: 0 <= i < |buffer| ==> buffer[i] == ExpectedByte(size, colorAt, i)
    ensures forall px: nat, py: nat :: px < size && py < size ==>
      PixelStored(buffer, size, px, py, colorAt(px, py))
  {
    forall px: nat, py: nat | px < size && py < size
      ensures PixelStored(buffer, size, px, py, colorAt(px, py))
    {
      PixelInBounds(size, px, py);
      ExpectedAt(size, colorAt, px, py, 0);
      ExpectedAt(size, colorAt, px, py, 1);
      ExpectedAt(size, colorAt, px, py, 2);
      ExpectedAt(size, colorAt, px, py, 3);
    }
  }

  /** The body of the inner loop: the four bytes of pixel (px, py). */
  method WritePixel(data: array<Byte>, size: nat, colorAt: (nat, nat) -> Rgb, px: nat, py: nat)
    requires px < size && PixelIndex(size, px, py) + 4 <= data.Length
    modifies data
    ensures forall i :: 0 <= i < data.Length && !(PixelIndex(size, px, py) <= i < PixelIndex(size, px, py) + 4) ==>
      data[i] == old(data[i])
    ensures forall i :: PixelIndex(size, px, py) <= i < PixelIndex(size, px, py) + 4 ==>
      data[i] == ExpectedByte(size, colorAt, i)
  {
    var idx := PixelIndex(size, px, py);
    var c := colorAt(px, py);
    data[idx] := ToUint8Clamp(c.r);
    data[idx + 1] := ToUint8Clamp(c.g);
    data[idx + 2] := ToUint8Clamp(c.b);
    data[idx + 3] := 255;
    ExpectedAt(size, colorAt, px, py, 0);
    ExpectedAt(size, colorAt, px, py, 1);
    ExpectedAt(size, colorAt, px, py, 2);
    ExpectedAt(size, colorAt, px, py, 3);
  }

  /** The nested render loop over rows py and columns px, writing the four
      bytes of each pixel at (py * size + px) * 4. */
  method FillPixels(size: nat, colorAt: (nat, nat) -> Rgb) returns (buffer: seq<Byte>)
    ensures |buffer| == 4 * size * size
    ensures size > 0 ==> forall i :: 0 <= i < |buffer| ==> buffer[i] == ExpectedByte(size, colorAt, i)
    ensures forall px: nat, py: nat :: px < size && py < size ==>
      PixelStored(buffer, size, px, py, colorAt(px, py))
  {
    var data := new Byte[4 * size * size](_ => 0);
    var idx := 0;
    var py := 0;
    while py < size
      invariant 0 <= py <= size
      invariant idx == PixelIndex(size, 0, py) && idx <= data.Length
      invariant forall i :: 0 <= i < idx ==> data[i] == ExpectedByte(size, colorAt, i)
    {
      var px := 0;
      while px < size
        invariant 0 <= px <= size
        invariant idx == PixelIndex(size, px, py) && idx <= data.Length
        invariant forall i :: 0 <= i < idx ==> data[i] == ExpectedByte(size, colorAt, i)
      {
        PixelInBounds(size, px, py);
        WritePixel(data, size, colorAt, px, py);
        assert PixelIndex(size, px + 1, py) == idx + 4;
        idx := idx + 4;
        px := px + 1;
      }
      assert PixelIndex(size, size, py) == PixelIndex(size, 0, py + 1);
      py := py + 1;
    }
    assert idx == 4 * size * size;
    buffer := data[..];
    if size > 0 {
      Layout(size, colorAt, buffer);
    }
  }
}
