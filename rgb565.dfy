/** The AX206 frame format: each pixel as two bytes of RGB565, five bits of
    red, six of green and five of blue, high byte first, pixels in row-major
    order. `clear` fills a frame with one colour and `draw` packs an image. */
module Rgb565 {
  import opened Bytes
  import opened Raster

  // The source packs with masks and shifts on bytes. On values below 256,
  // `x & 0xF8` is `x / 8 * 8`, `x & 0xE0 >> 5` is `x / 32`, `x & 0x1C << 3` is
  // `x / 4 % 8 * 32` and `x & 0xF8 >> 3` is `x / 8`; the model states them so.

  /** First byte of a pixel: the top five bits of red, then the top three of green. */
  function HighByte(r: byte, g: byte): byte
  {
    r / 8 * 8 + g / 32
  }

  /** Second byte of a pixel: bits 4..2 of green, then the top five bits of blue. */
  function LowByte(g: byte, b: byte): byte
  {
    g / 4 % 8 * 32 + b / 8
  }

  /** The three fields a display reads back out of a pixel's two bytes. */
  function Red5(hi: byte): nat
  {
    hi / 8
  }

  function Green6(hi: byte, lo: byte): nat
  {
    hi % 8 * 8 + lo / 32
  }

  function Blue5(lo: byte): nat
  {
    lo % 32
  }

  /** The packed bytes hold exactly the top 5, 6 and 5 bits of the channels. */
  lemma FieldsAreTopBits(r: byte, g: byte, b: byte)
    ensures Red5(HighByte(r, g)) == r / 8
    ensures Green6(HighByte(r, g), LowByte(g, b)) == g / 4
    ensures Blue5(LowByte(g, b)) == b / 8
  {
    var hi, lo := HighByte(r, g), LowByte(g, b);
    assert hi == 8 * (r / 8) + g / 32 && g / 32 < 8;
    assert hi / 8 == r / 8 && hi % 8 == g / 32;
    assert lo == 32 * (g / 4 % 8) + b / 8 && b / 8 < 32;
    assert lo / 32 == g / 4 % 8 && lo % 32 == b / 8;
    assert g / 4 == g / 32 * 8 + g / 4 % 8;
  }

  /** Two bytes are determined by the three fields read out of them. */
  lemma FieldsDetermineBytes(hi: byte, lo: byte, hi': byte, lo': byte)
    requires Red5(hi) == Red5(hi') && Green6(hi, lo) == Green6(hi', lo') && Blue5(lo) == Blue5(lo')
    ensures hi == hi' && lo == lo'
  {
  }

  predicate SameTopBits(p: Rgba, q: Rgba)
  {
    p.r / 8 == q.r / 8 && p.g / 4 == q.g / 4 && p.b / 8 == q.b / 8
  }

  predicate SameBytes(p: Rgba, q: Rgba)
  {
    HighByte(p.r, p.g) == HighByte(q.r, q.g) && LowByte(p.g, p.b) == LowByte(q.g, q.b)
  }

  /** Two colours pack to the same two bytes exactly when they agree on the
      top 5, 6 and 5 bits of red, green and blue. */
  lemma SameBytesIffSameTopBits(p: Rgba, q: Rgba)
    ensures SameBytes(p, q) <==> SameTopBits(p, q)
  {
    FieldsAreTopBits(p.r, p.g, p.b);
    FieldsAreTopBits(q.r, q.g, q.b);
    if SameTopBits(p, q) {
      FieldsDetermineBytes(HighByte(p.r, p.g), LowByte(p.g, p.b), HighByte(q.r, q.g), LowByte(q.g, q.b));
    }
  }

  /** Widening a 5- or 6-bit field back to 8 bits by repeating its top bits. */
  function Expand5(v: nat): nat
  {
    v * 8 + v / 4
  }

  function Expand6(v: nat): nat
  {
    v * 4 + v / 16
  }

  predicate Near(x: int, y: int, d: nat)
  {
    -(d as int) <= x - y <= d
  }

  /** The colour a display shows for a packed pixel is within 7 of the original
      red and blue and within 3 of the original green. */
  lemma ShownColourIsNear(p: Rgba)
    ensures Near(Expand5(Red5(HighByte(p.r, p.g))), p.r, 7)
    ensures Near(Expand6(Green6(HighByte(p.r, p.g), LowByte(p.g, p.b))), p.g, 3)
    ensures Near(Expand5(Blue5(LowByte(p.g, p.b))), p.b, 7)
  {
    FieldsAreTopBits(p.r, p.g, p.b);
  }

  /** A frame of pixels packed two bytes each, in order. */
  function Pack(pixels: seq<Rgba>): (out: seq<byte>)
    ensures |out| == 2 * |pixels|
  {
    seq(2 * |pixels|, i requires 0 <= i < 2 * |pixels| =>
      if i % 2 == 0 then HighByte(pixels[i / 2].r, pixels[i / 2].g)
      else LowByte(pixels[i / 2].g, pixels[i / 2].b))
  }

  /** Pixel `k` of a packed frame sits at bytes 2k and 2k+1, and the alpha
      channel never reaches the frame. */
  lemma PackAt(pixels: seq<Rgba>, k: nat)
    requires k < |pixels|
    ensures Pack(pixels)[2 * k] == HighByte(pixels[k].r, pixels[k].g)
    ensures Pack(pixels)[2 * k + 1] == LowByte(pixels[k].g, pixels[k].b)
  {
    var i, j := 2 * k, 2 * k + 1;
    Halves(k);
    assert Pack(pixels)[i] == HighByte(pixels[i / 2].r, pixels[i / 2].g);
    assert Pack(pixels)[j] == LowByte(pixels[j / 2].g, pixels[j / 2].b);
  }

  lemma Halves(k: nat)
    ensures (2 * k) % 2 == 0 && (2 * k) / 2 == k
    ensures (2 * k + 1) % 2 == 1 && (2 * k + 1) / 2 == k
  {
  }

  /** Pixel (x, y) of an image lands at bytes (y * width + x) * 2 and the
      byte after it. */
  lemma PackedPixelAt(img: Image, x: nat, y: nat)
    requires img.Valid() && x < img.width && y < img.height
    ensures (y * img.width + x) * 2 + 1 < |Pack(img.pixels)|
    ensures Pack(img.pixels)[(y * img.width + x) * 2] == HighByte(At(img, x, y).r, At(img, x, y).g)
    ensures Pack(img.pixels)[(y * img.width + x) * 2 + 1] == LowByte(At(img, x, y).g, At(img, x, y).b)
  {
    RowOffsets(img.width, img.height, x, y);
    PackAt(img.pixels, y * img.width + x);
  }

  /** Packing commutes with concatenating frames. */
  lemma {:induction false} PackAppend(xs: seq<Rgba>, ys: seq<Rgba>)
    ensures Pack(xs + ys) == Pack(xs) + Pack(ys)
  {
    var l, r := Pack(xs + ys), Pack(xs) + Pack(ys);
    assert |l| == |r|;
    forall i | 0 <= i < |l|
      ensures l[i] == r[i]
    {
      if i < 2 * |xs| {
        assert (xs + ys)[i / 2] == xs[i / 2];
      } else {
        assert (i - 2 * |xs|) / 2 == i / 2 - |xs|;
        assert (i - 2 * |xs|) % 2 == i % 2;
        assert (xs + ys)[i / 2] == ys[i / 2 - |xs|];
      }
    }
  }

  /** A frame of `n` pixels of one colour. */
  function Solid(r: byte, g: byte, b: byte, n: nat): (ps: seq<Rgba>)
    ensures |ps| == n && forall k :: 0 <= k < n ==> ps[k] == Rgba(r, g, b, 0xFF)
  {
    seq(n, _ => Rgba(r, g, b, 0xFF))
  }

  /** A one-colour frame repeats the colour's two bytes: every even byte is
      the first, every odd byte the second. */
  lemma SolidFrameRepeats(r: byte, g: byte, b: byte, n: nat, i: nat)
    requires i < 2 * n
    ensures Pack(Solid(r, g, b, n))[i] == if i % 2 == 0 then HighByte(r, g) else LowByte(g, b)
  {
    PackAt(Solid(r, g, b, n), i / 2);
    assert i == 2 * (i / 2) + i % 2;
  }

  /** The buffer `clear` builds: `out_size` bytes (two per pixel), filled two
      at a time with the colour's RGB565 bytes. */
  method FillRgb565(r: byte, g: byte, b: byte, pixelCount: nat) returns (out: seq<byte>)
    ensures out == Pack(Solid(r, g, b, pixelCount))
  {
    var rgb565 := [HighByte(r, g), LowByte(g, b)];
    var outSize := pixelCount * 2;
    var img := new byte[outSize](_ => 0);
    ghost var frame := Solid(r, g, b, pixelCount);
    var n := 0;
    ghost var k := 0;
    while n < outSize
      invariant n == 2 * k && k <= pixelCount
      invariant PackedPrefix(img[..], frame, n)
    {
      ghost var before := img[..];
      img[n] := rgb565[0];
      img[n + 1] := rgb565[1];
      PackedPrefixStep(before, img[..], frame, k);
      n, k := n + 2, k + 1;
    }
    out := img[..];
  }

  /** The first `k` bytes of `out` are those of the packed frame. */
  ghost predicate PackedPrefix(out: seq<byte>, pixels: seq<Rgba>, k: nat)
  {
    k <= |out| && k <= 2 * |pixels| && forall j :: 0 <= j < k ==> out[j] == Pack(pixels)[j]
  }

  /** Writing pixel `k`'s two bytes at 2k and 2k+1 extends the packed prefix by one pixel. */
  lemma PackedPrefixStep(before: seq<byte>, after: seq<byte>, pixels: seq<Rgba>, k: nat)
    requires k < |pixels| && 2 * k + 1 < |before|
    requires PackedPrefix(before, pixels, 2 * k)
    requires after == before[2 * k := HighByte(pixels[k].r, pixels[k].g)][2 * k + 1 := LowByte(pixels[k].g, pixels[k].b)]
    ensures PackedPrefix(after, pixels, 2 * k + 2)
  {
    PackAt(pixels, k);
  }

  lemma NextRow(y: nat, width: nat)
    ensures y * width + width == (y + 1) * width && y * width == width * y
  {
  }

  /** The pixel loop of `draw`: each pixel (x, y) of a row-major image of
      `width` x `height` pixels is written at byte `(y * width + x) * 2`.
      The frame it builds is the packed image. */
  method EncodeFrame(pixels: seq<Rgba>, width: u16, height: u16) returns (out: seq<byte>)
    requires |pixels| == width * height
    ensures out == Pack(pixels)
  {
    var outSize := width * height * 2;
    assert outSize == 2 * |pixels|;
    var img := new byte[outSize](_ => 0);
    var y := 0;
    ghost var done := 0;
    while y < height
      invariant 0 <= y <= height && done == y * width
      invariant PackedPrefix(img[..], pixels, 2 * done)
    {
      var x := 0;
      while x < width
        invariant 0 <= x <= width && done == y * width + x
        invariant PackedPrefix(img[..], pixels, 2 * done)
      {
        RowOffsets(width, height, x, y);
        var i := y * width + x;
        assert i == done < |pixels|;
        var n := i * 2;
        var p := pixels[i];
        ghost var before := img[..];
        img[n] := HighByte(p.r, p.g);
        img[n + 1] := LowByte(p.g, p.b);
        PackedPrefixStep(before, img[..], pixels, done);
        x := x + 1;
        done := done + 1;
      }
      NextRow(y, width);
      y := y + 1;
    }
    NextRow(height, width);
    assert done == |pixels|;
    out := img[..];
    assert |out| == |Pack(pixels)|;
  }
}
