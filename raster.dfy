/**
 * The part of SkiaSharp's SKBitmap that the drawing application relies on:
 * a width-by-height grid of 8-bit RGBA colours with a colour type, read with
 * GetPixel, written with SetPixel and Erase, duplicated with Copy.
 * Pixels are indexed `pixels[x, y]`, so `Length0` is the width.
 */
module Raster {
  newtype byte = x: int | 0 <= x < 256

  /** An SKColor: four unpremultiplied 8-bit channels. */
  datatype Color = Color(red: byte, green: byte, blue: byte, alpha: byte)

  /** SKColors.Transparent is 0x00FFFFFF: white with a zero alpha channel. */
  const Transparent := Color(255, 255, 255, 0)

  datatype ColorType = Unknown | Alpha8 | Rgb565 | Argb4444 | Rgba8888 | Bgra8888 | Gray8 | RgbaF16

  datatype AlphaType = Opaque | Premul | Unpremul

  /** The colour type `new SKBitmap(width, height)` picks on Windows, the only platform of the application. */
  const PlatformColorType := Bgra8888

  class Bitmap {
    const colorType: ColorType
    const alphaType: AlphaType
    const pixels: array2<Color>

    function Width(): nat { pixels.Length0 }
    function Height(): nat { pixels.Length1 }

    /** True when (x, y) addresses a pixel of this bitmap. */
    predicate Contains(x: int, y: int) {
      0 <= x < Width() && 0 <= y < Height()
    }

    /** Every pixel of this bitmap has colour `c`. */
    ghost predicate Filled(c: Color)
      reads pixels
    {
      forall x, y :: Contains(x, y) ==> pixels[x, y] == c
    }

    constructor (width: nat, height: nat, colorType: ColorType, alphaType: AlphaType)
      ensures Width() == width && Height() == height
      ensures this.colorType == colorType && this.alphaType == alphaType
      ensures fresh(pixels)
    {
      this.colorType := colorType;
      this.alphaType := alphaType;
      pixels := new Color[width, height];
    }

    method SetPixel(x: nat, y: nat, c: Color)
      requires Contains(x, y)
      modifies pixels
      ensures pixels[x, y] == c
      ensures forall i, j :: Contains(i, j) && (i != x || j != y) ==> pixels[i, j] == old(pixels[i, j])
    {
      pixels[x, y] := c;
    }

    /** Overwrites every pixel with `c`. */
    method Erase(c: Color)
      modifies pixels
      ensures Filled(c)
    {
      forall x, y | 0 <= x < pixels.Length0 && 0 <= y < pixels.Length1 {
        pixels[x, y] := c;
      }
    }

    /** A new bitmap with the same colour type, dimensions and pixels. */
    method Copy() returns (b: Bitmap)
      ensures fresh(b) && fresh(b.pixels)
      ensures b.colorType == colorType && b.alphaType == alphaType
      ensures b.Width() == Width() && b.Height() == Height()
      ensures forall x, y :: Contains(x, y) ==> b.pixels[x, y] == pixels[x, y]
    {
      b := new Bitmap(Width(), Height(), colorType, alphaType);
      forall x, y | 0 <= x < pixels.Length0 && 0 <= y < pixels.Length1 {
        b.pixels[x, y] := pixels[x, y];
      }
    }
  }
}
