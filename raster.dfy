/** Images as the `image` crate stores them: a width, a height and the pixels
    in row-major order, pixel (x, y) at index `y * width + x`. */
module Raster {
  import opened Bytes

  /** An `image::Rgba<u8>` pixel. */
  datatype Rgba = Rgba(r: byte, g: byte, b: byte, a: byte)

  datatype Image = Image(width: nat, height: nat, pixels: seq<Rgba>)
  {
    predicate Valid()
    {
      |pixels| == width * height
    }
  }

  /** Row `y` and column `x` are recovered from index `y * width + x`. */
  lemma IndexCoordinates(x: nat, y: nat, width: nat)
    requires x < width
    ensures (y * width + x) / width == y && (y * width + x) % width == x
  {
    var i := y * width + x;
    var q, r := i / width, i % width;
    assert q * width + r == y * width + x;
    assert (q - y) * width == x - r;
    MulMono(q - y, width);
  }

  /** Pixel (x, y) of a `width` x `height` image lies inside its pixel vector,
      and the next row starts `width` pixels further on. */
  lemma RowOffsets(width: nat, height: nat, x: nat, y: nat)
    requires x < width && y < height
    ensures y * width + x < width * height
    ensures y * width + width == (y + 1) * width
  {
    assert y * width + x < y * width + width == (y + 1) * width;
    MulMono(height - (y + 1), width);
    assert (y + 1) * width <= height * width;
  }

  /** Every index of a `width`-wide grid names a pixel inside it. */
  lemma CoordinatesOfIndex(i: nat, width: nat, height: nat)
    requires i < width * height
    ensures width > 0 && i % width < width && i / width < height
    ensures (i / width) * width + i % width == i
  {
    if i / width >= height {
      MulMono(i / width - height, width);
    }
  }

  /** `GenericImageView::get_pixel` */
  function At(img: Image, x: nat, y: nat): Rgba
    requires img.Valid() && x < img.width && y < img.height
  {
    RowOffsets(img.width, img.height, x, y);
    img.pixels[y * img.width + x]
  }
}
