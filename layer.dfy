/**
 * Layer: a named, full-canvas bitmap with a visibility flag and an opacity.
 * A new layer's bitmap is 32-bit BGRA with premultiplied alpha, erased to
 * transparent.
 */
module Layers {
  import opened Raster

  /** Every pixel of `b` has a zero alpha channel. */
  ghost predicate FullyTransparent(b: Bitmap)
    reads b.pixels
  {
    forall x, y :: b.Contains(x, y) ==> b.pixels[x, y].alpha == 0
  }

  class Layer {
    var name: string
    var bitmap: Bitmap
    var visible: bool
    /** A float in the source; carried without arithmetic. */
    var opacity: real

    constructor (width: nat, height: nat, name: string)
      ensures this.name == name
      ensures fresh(bitmap) && fresh(bitmap.pixels)
      ensures bitmap.Width() == width && bitmap.Height() == height
      ensures bitmap.colorType == Bgra8888 && bitmap.alphaType == Premul
      ensures bitmap.Filled(Transparent) && FullyTransparent(bitmap)
      ensures visible && opacity == 1.0
    {
      visible := true;
      opacity := 1.0;
      this.name := name;
      bitmap := new Bitmap(width, height, Bgra8888, Premul);
      new;
      bitmap.Erase(Transparent);
    }
  }
}
