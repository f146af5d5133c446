/** The canvas `resize_image` builds: an opaque black image of the display's
    size with the resized picture overlaid at the centre. */
module Letterbox {
  import opened Bytes
  import opened Raster

  /** `Rgba([0, 0, 0, 255])` */
  const BLACK: Rgba := Rgba(0, 0, 0, 0xFF)

  /** `(outer - inner) / 2`: the offset that centres `inner` in `outer`. */
  function CenterOffset(outer: nat, inner: nat): nat
    requires inner <= outer
  {
    (outer - inner) / 2
  }

  /** The centred span fits, and its two margins differ by at most one pixel,
      the extra one going after it. */
  lemma Centered(outer: nat, inner: nat)
    requires inner <= outer
    ensures var off := CenterOffset(outer, inner);
      && off + inner <= outer
      && 0 <= (outer - inner - off) - off <= 1
  {
  }

  /** `Pixel::blend` for an `Rgba<u8>` drawn over another: a fully transparent
      pixel keeps what is under it, a fully opaque one replaces it, and a
      translucent one is composited by `mix`, the floating-point blend of the
      `image` crate, which this model does not define. */
  function Blend(bottom: Rgba, top: Rgba, mix: (Rgba, Rgba) -> Rgba): (p: Rgba)
    ensures top.a == 0 ==> p == bottom
    ensures top.a == 0xFF ==> p == top
  {
    if top.a == 0 then bottom
    else if top.a == 0xFF then top
    else mix(bottom, top)
  }

  /** `top` fits inside `bottom` when placed at (ox, oy). */
  predicate Fits(bottom: Image, top: Image, ox: nat, oy: nat)
  {
    bottom.Valid() && top.Valid() && ox + top.width <= bottom.width && oy + top.height <= bottom.height
  }

  /** Whether pixel (x, y) of the bottom image is covered by the top image. */
  predicate Covered(top: Image, ox: nat, oy: nat, x: nat, y: nat)
  {
    ox <= x < ox + top.width && oy <= y < oy + top.height
  }

  /** `image::imageops::overlay(bottom, top, ox, oy)` when `top` fits: every
      covered pixel is blended with the top pixel over it, every other pixel
      is kept. */
  function Overlay(bottom: Image, top: Image, ox: nat, oy: nat, mix: (Rgba, Rgba) -> Rgba): (r: Image)
    requires Fits(bottom, top, ox, oy)
    ensures r.width == bottom.width && r.height == bottom.height && r.Valid()
  {
    Image(bottom.width, bottom.height,
      seq(|bottom.pixels|, i requires 0 <= i < |bottom.pixels| =>
        OverlaidPixel(bottom, top, ox, oy, mix, i)))
  }

  function OverlaidPixel(bottom: Image, top: Image, ox: nat, oy: nat, mix: (Rgba, Rgba) -> Rgba, i: nat): Rgba
    requires Fits(bottom, top, ox, oy) && i < |bottom.pixels|
  {
    CoordinatesOfIndex(i, bottom.width, bottom.height);
    var x, y := i % bottom.width, i / bottom.width;
    if Covered(top, ox, oy, x, y) then Blend(bottom.pixels[i], At(top, x - ox, y - oy), mix)
    else bottom.pixels[i]
  }

  /** Pixel (x, y) after the overlay. */
  lemma OverlayAt(bottom: Image, top: Image, ox: nat, oy: nat, mix: (Rgba, Rgba) -> Rgba, x: nat, y: nat)
    requires Fits(bottom, top, ox, oy) && x < bottom.width && y < bottom.height
    ensures At(Overlay(bottom, top, ox, oy, mix), x, y) ==
      if Covered(top, ox, oy, x, y) then Blend(At(bottom, x, y), At(top, x - ox, y - oy), mix)
      else At(bottom, x, y)
  {
    RowOffsets(bottom.width, bottom.height, x, y);
    IndexCoordinates(x, y, bottom.width);
  }

  /** The black canvas of the display's size. */
  function Canvas(width: nat, height: nat): (c: Image)
    ensures c.width == width && c.height == height && c.Valid()
  {
    Image(width, height, seq(width * height, _ => BLACK))
  }

  /** The image `resize_image` returns for a picture already resized to fit. */
  function Letterboxed(width: nat, height: nat, resized: Image, mix: (Rgba, Rgba) -> Rgba): (r: Image)
    requires resized.Valid() && resized.width <= width && resized.height <= height
    ensures r.width == width && r.height == height && r.Valid()
  {
    Centered(width, resized.width);
    Centered(height, resized.height);
    Overlay(Canvas(width, height), resized,
            CenterOffset(width, resized.width), CenterOffset(height, resized.height), mix)
  }

  lemma CanvasAt(width: nat, height: nat, x: nat, y: nat)
    requires x < width && y < height
    ensures At(Canvas(width, height), x, y) == BLACK
  {
    RowOffsets(width, height, x, y);
  }

  /** Pixel (x, y) of the letterboxed canvas. */
  lemma LetterboxedAt(width: nat, height: nat, resized: Image, mix: (Rgba, Rgba) -> Rgba, x: nat, y: nat)
    requires resized.Valid() && resized.width <= width && resized.height <= height
    requires x < width && y < height
    ensures var ox, oy := CenterOffset(width, resized.width), CenterOffset(height, resized.height);
      At(Letterboxed(width, height, resized, mix), x, y) ==
        if Covered(resized, ox, oy, x, y) then Blend(BLACK, At(resized, x - ox, y - oy), mix) else BLACK
  {
    var ox, oy := CenterOffset(width, resized.width), CenterOffset(height, resized.height);
    Centered(width, resized.width);
    Centered(height, resized.height);
    var c := Canvas(width, height);
    assert Letterboxed(width, height, resized, mix) == Overlay(c, resized, ox, oy, mix);
    OverlayAt(c, resized, ox, oy, mix, x, y);
    CanvasAt(width, height, x, y);
  }

  /** Cropping the centred rectangle out of the canvas gives back every opaque
      pixel of the picture; its transparent pixels show black. */
  lemma CropRecoversPicture(width: nat, height: nat, resized: Image, mix: (Rgba, Rgba) -> Rgba, x: nat, y: nat)
    requires resized.Valid() && resized.width <= width && resized.height <= height
    requires x < resized.width && y < resized.height
    ensures var p := At(resized, x, y);
      var q := At(Letterboxed(width, height, resized, mix),
                  CenterOffset(width, resized.width) + x, CenterOffset(height, resized.height) + y);
      && (p.a == 0xFF ==> q == p)
      && (p.a == 0 ==> q == BLACK)
  {
    Centered(width, resized.width);
    Centered(height, resized.height);
    LetterboxedAt(width, height, resized, mix,
                  CenterOffset(width, resized.width) + x, CenterOffset(height, resized.height) + y);
  }

  /** Outside the centred rectangle the canvas is black. */
  lemma MarginsAreBlack(width: nat, height: nat, resized: Image, mix: (Rgba, Rgba) -> Rgba, x: nat, y: nat)
    requires resized.Valid() && resized.width <= width && resized.height <= height
    requires x < width && y < height
    requires !Covered(resized, CenterOffset(width, resized.width), CenterOffset(height, resized.height), x, y)
    ensures At(Letterboxed(width, height, resized, mix), x, y) == BLACK
  {
    LetterboxedAt(width, height, resized, mix, x, y);
  }

  /** A 100 x 50 picture on a 480 x 320 display is placed at (190, 135). */
  lemma CenterExample()
    ensures CenterOffset(480, 100) == 190 && CenterOffset(320, 50) == 135
  {
  }

  /** `for pixel in pixels_mut() { *pixel = Rgba([0, 0, 0, 255]) }` */
  method FillBlack(canvas: array<Rgba>)
    modifies canvas
    ensures forall i :: 0 <= i < canvas.Length ==> canvas[i] == BLACK
  {
    var i := 0;
    while i < canvas.Length
      invariant 0 <= i <= canvas.Length
      invariant forall j :: 0 <= j < i ==> canvas[j] == BLACK
    {
      canvas[i] := BLACK;
      i := i + 1;
    }
  }

  /** Position of bottom pixel `j` within the top image's row-major order. */
  function TopIndex(width: nat, top: Image, ox: nat, oy: nat, j: nat): int
    requires width > 0
  {
    (j / width - oy) * top.width + (j % width - ox)
  }

  /** Bottom pixel `j` lies under one of the first `done` pixels of the top image. */
  predicate VisitedBefore(width: nat, top: Image, ox: nat, oy: nat, j: nat, done: nat)
  {
    width > 0 && Covered(top, ox, oy, j % width, j / width) && TopIndex(width, top, ox, oy, j) < done
  }

  /** The canvas after the overlay loop has blended the first `done` pixels
      of the top image into `bottom`. */
  ghost function PartlyOverlaid(bottom: Image, top: Image, ox: nat, oy: nat,
                                mix: (Rgba, Rgba) -> Rgba, done: nat): (c: seq<Rgba>)
    requires Fits(bottom, top, ox, oy)
    ensures |c| == |bottom.pixels|
  {
    seq(|bottom.pixels|, j requires 0 <= j < |bottom.pixels| =>
      if VisitedBefore(bottom.width, top, ox, oy, j, done)
      then OverlaidPixel(bottom, top, ox, oy, mix, j) else bottom.pixels[j])
  }

  /** Before the loop nothing has been blended. */
  lemma NothingOverlaid(bottom: Image, top: Image, ox: nat, oy: nat, mix: (Rgba, Rgba) -> Rgba)
    requires Fits(bottom, top, ox, oy)
    ensures PartlyOverlaid(bottom, top, ox, oy, mix, 0) == bottom.pixels
  {
    var c := PartlyOverlaid(bottom, top, ox, oy, mix, 0);
    forall j | 0 <= j < |c|
      ensures c[j] == bottom.pixels[j]
    {
      if VisitedBefore(bottom.width, top, ox, oy, j, 0) {
        CoordinatesOfIndex(j, bottom.width, bottom.height);
        IndexCoordinates(j % bottom.width - ox, j / bottom.width - oy, top.width);
      }
    }
  }

  /** A covered pixel is the only one whose top position is its own. */
  lemma TopIndexUnique(width: nat, height: nat, top: Image, ox: nat, oy: nat, x: nat, y: nat, j: nat)
    requires width > 0 && ox + top.width <= width && oy + top.height <= height
    requires x < top.width && y < top.height && j < width * height
    requires Covered(top, ox, oy, j % width, j / width)
    requires TopIndex(width, top, ox, oy, j) == y * top.width + x
    ensures j == (oy + y) * width + (ox + x)
  {
    CoordinatesOfIndex(j, width, height);
    IndexCoordinates(j % width - ox, j / width - oy, top.width);
    IndexCoordinates(x, y, top.width);
  }

  /** Blending top pixel (x, y) at the canvas pixel under it advances the loop. */
  lemma ProgressStep(bottom: Image, top: Image, ox: nat, oy: nat,
                     mix: (Rgba, Rgba) -> Rgba, x: nat, y: nat)
    requires Fits(bottom, top, ox, oy) && x < top.width && y < top.height
    ensures var c := PartlyOverlaid(bottom, top, ox, oy, mix, y * top.width + x);
      var idx := (oy + y) * bottom.width + (ox + x);
      && 0 <= idx < |c|
      && c[idx] == bottom.pixels[idx]
      && c[idx := Blend(c[idx], At(top, x, y), mix)] == PartlyOverlaid(bottom, top, ox, oy, mix, y * top.width + x + 1)
  {
    var width, done := bottom.width, y * top.width + x;
    var c := PartlyOverlaid(bottom, top, ox, oy, mix, done);
    RowOffsets(width, bottom.height, ox + x, oy + y);
    IndexCoordinates(ox + x, oy + y, width);
    var idx := (oy + y) * width + (ox + x);
    assert TopIndex(width, top, ox, oy, idx) == done;
    assert !VisitedBefore(width, top, ox, oy, idx, done);
    assert OverlaidPixel(bottom, top, ox, oy, mix, idx) == Blend(bottom.pixels[idx], At(top, x, y), mix);
    var c' := c[idx := Blend(c[idx], At(top, x, y), mix)];
    var n := PartlyOverlaid(bottom, top, ox, oy, mix, done + 1);
    forall j | 0 <= j < |c'|
      ensures c'[j] == n[j]
    {
      if j != idx && VisitedBefore(width, top, ox, oy, j, done + 1) && TopIndex(width, top, ox, oy, j) == done {
        TopIndexUnique(width, bottom.height, top, ox, oy, x, y, j);
      }
    }
  }

  /** Once every top pixel has been visited the canvas is the overlay. */
  lemma ProgressComplete(bottom: Image, top: Image, ox: nat, oy: nat, mix: (Rgba, Rgba) -> Rgba)
    requires Fits(bottom, top, ox, oy)
    ensures PartlyOverlaid(bottom, top, ox, oy, mix, top.height * top.width) == Overlay(bottom, top, ox, oy, mix).pixels
  {
    var c := PartlyOverlaid(bottom, top, ox, oy, mix, top.height * top.width);
    var o := Overlay(bottom, top, ox, oy, mix).pixels;
    forall j | 0 <= j < |c|
      ensures c[j] == o[j]
    {
      CoordinatesOfIndex(j, bottom.width, bottom.height);
      var x, y := j % bottom.width, j / bottom.width;
      if Covered(top, ox, oy, x, y) {
        RowOffsets(top.width, top.height, x - ox, y - oy);
        assert VisitedBefore(bottom.width, top, ox, oy, j, top.height * top.width);
      }
    }
  }

  /** One row `y` of the overlay loop: blends the top image's row into the
      canvas row under it, left to right. */
  method BlendRow(canvas: array<Rgba>, width: nat, ghost bottom: Image, top: Image, ox: nat, oy: nat,
                  mix: (Rgba, Rgba) -> Rgba, y: nat)
    requires Fits(bottom, top, ox, oy) && y < top.height && width == bottom.width
    requires canvas[..] == PartlyOverlaid(bottom, top, ox, oy, mix, y * top.width)
    modifies canvas
    ensures canvas[..] == PartlyOverlaid(bottom, top, ox, oy, mix, y * top.width + top.width)
  {
    var x := 0;
    while x < top.width
      invariant 0 <= x <= top.width
      invariant canvas[..] == PartlyOverlaid(bottom, top, ox, oy, mix, y * top.width + x)
    {
      ProgressStep(bottom, top, ox, oy, mix, x, y);
      var idx := (oy + y) * width + (ox + x);
      canvas[idx] := Blend(canvas[idx], At(top, x, y), mix);
      x := x + 1;
    }
  }

  /** `image::imageops::overlay` on the canvas: visits the top image row by
      row and blends each of its pixels into the canvas pixel under it. */
  method OverlayInPlace(canvas: array<Rgba>, width: nat, height: nat, top: Image, ox: nat, oy: nat,
                        mix: (Rgba, Rgba) -> Rgba)
    requires canvas.Length == width * height
    requires top.Valid() && ox + top.width <= width && oy + top.height <= height
    modifies canvas
    ensures Image(width, height, canvas[..]) ==
      Overlay(Image(width, height, old(canvas[..])), top, ox, oy, mix)
  {
    ghost var bottom := Image(width, height, canvas[..]);
    NothingOverlaid(bottom, top, ox, oy, mix);
    var y := 0;
    while y < top.height
      invariant 0 <= y <= top.height
      invariant canvas[..] == PartlyOverlaid(bottom, top, ox, oy, mix, y * top.width)
    {
      BlendRow(canvas, width, bottom, top, ox, oy, mix, y);
      assert y * top.width + top.width == (y + 1) * top.width;
      y := y + 1;
    }
    ProgressComplete(bottom, top, ox, oy, mix);
  }
}
