/**
 * ImportBrushWindow: turns a picked image into a brush-tip mask and, on
 * save, builds a brush preset from the dialog's name and slider values.
 */
module ImportBrush {
  import opened Options
  import opened Raster
  import opened BrushPresets

  /** `c.Red + c.Green + c.Blue`, computed in C#'s `int`. */
  function ChannelSum(c: Color): (s: nat)
    ensures s <= 765
  {
    c.red as int + c.green as int + c.blue as int
  }

  /** C#'s unchecked `(byte)` conversion of an `int`: it keeps the low eight bits. */
  function ToByte(v: int): (b: byte)
    ensures 0 <= v < 256 ==> b as int == v
    ensures (v - b as int) % 256 == 0
  {
    (v % 256) as byte
  }

  /**
   * The mask alpha of one pixel: the byte cast of 255 minus the integer mean
   * of its colour channels. The cast never wraps: the channel sum is at most
   * 765, so the mean is at most 255.
   */
  function MaskAlpha(c: Color): (a: byte)
    ensures a as int == 255 - ChannelSum(c) / 3
  {
    assert 0 <= ChannelSum(c) / 3 <= 255;
    ToByte(255 - ChannelSum(c) / 3)
  }

  /** The mask pixel written for input colour `c`: white, with the mask alpha. */
  function MaskPixel(c: Color): (m: Color)
    ensures m.red == 255 && m.green == 255 && m.blue == 255
    ensures m.alpha as int + ChannelSum(c) / 3 == 255
  {
    Color(255, 255, 255, MaskAlpha(c))
  }

  /** Black becomes fully opaque and white fully transparent, whatever the input alpha. */
  lemma MaskAlphaExtremes(a: byte)
    ensures MaskAlpha(Color(0, 0, 0, a)) == 255
    ensures MaskAlpha(Color(255, 255, 255, a)) == 0
  {
  }

  /** A darker pixel never gets a smaller alpha than a lighter one. */
  lemma MaskAlphaAntitone(c1: Color, c2: Color)
    requires ChannelSum(c1) <= ChannelSum(c2)
    ensures MaskAlpha(c2) <= MaskAlpha(c1)
  {
    assert ChannelSum(c1) / 3 <= ChannelSum(c2) / 3;
  }

  /** True of the colour types whose images are kept as they are. */
  predicate KeepsPixels(t: ColorType) {
    t == Bgra8888 || t == Rgba8888
  }

  /**
   * ConvertToMask: a 32-bit RGBA or BGRA image is copied unchanged; any other
   * image becomes a new bitmap of the same size whose every pixel is white
   * with the mask alpha of the input pixel. The input is only read.
   */
  method ConvertToMask(bmp: Bitmap) returns (mask: Bitmap)
    ensures fresh(mask) && fresh(mask.pixels)
    ensures mask.Width() == bmp.Width() && mask.Height() == bmp.Height()
    ensures KeepsPixels(bmp.colorType) ==>
      && mask.colorType == bmp.colorType
      && forall x, y :: bmp.Contains(x, y) ==> mask.pixels[x, y] == bmp.pixels[x, y]
    ensures !KeepsPixels(bmp.colorType) ==>
      && mask.colorType == PlatformColorType
      && forall x, y :: bmp.Contains(x, y) ==> mask.pixels[x, y] == MaskPixel(bmp.pixels[x, y])
  {
    if KeepsPixels(bmp.colorType) {
      mask := bmp.Copy();
      return;
    }
    mask := new Bitmap(bmp.Width(), bmp.Height(), PlatformColorType, Premul);
    var y := 0;
    while y < bmp.Height()
      invariant 0 <= y <= bmp.Height()
      invariant forall i, j :: 0 <= i < bmp.Width() && 0 <= j < y ==> mask.pixels[i, j] == MaskPixel(bmp.pixels[i, j])
    {
      var x := 0;
      while x < bmp.Width()
        invariant 0 <= x <= bmp.Width()
        invariant forall i, j :: 0 <= i < bmp.Width() && 0 <= j < y ==> mask.pixels[i, j] == MaskPixel(bmp.pixels[i, j])
        invariant forall i :: 0 <= i < x ==> mask.pixels[i, y] == MaskPixel(bmp.pixels[i, y])
      {
        var c := bmp.pixels[x, y];
        var alpha := MaskAlpha(c);
        mask.SetPixel(x, y, Color(255, 255, 255, alpha));
        x := x + 1;
      }
      y := y + 1;
    }
  }

  /** .NET's `char.IsWhiteSpace`: the Unicode space, line and paragraph separators, U+0009 to U+000D and U+0085. */
  predicate IsWhiteSpace(ch: char) {
    || ch == ' ' || ('\t' <= ch <= '\r') || ch == '\U{0085}' || ch == '\U{00A0}'
    || ch == '\U{1680}' || ('\U{2000}' <= ch <= '\U{200A}') || ch == '\U{2028}' || ch == '\U{2029}'
    || ch == '\U{202F}' || ch == '\U{205F}' || ch == '\U{3000}'
  }

  /** `string.IsNullOrWhiteSpace`. */
  predicate IsNullOrWhiteSpace(s: Option<string>) {
    s.None? || forall i :: 0 <= i < |s.value| ==> IsWhiteSpace(s.value[i])
  }

  const NameRequired := "Brush name is required."

  class ImportBrushWindow {
    var resultBrush: BrushPreset?
    var brushTip: Bitmap?
    /** The window's `DialogResult`, a `bool?`. */
    var dialogResult: Option<bool>
    var closed: bool
    /** The message boxes shown, oldest first. */
    var messages: seq<string>

    constructor ()
      ensures resultBrush == null && brushTip == null && dialogResult == None
      ensures !closed && messages == []
    {
      resultBrush := null;
      brushTip := null;
      dialogResult := None;
      closed := false;
      messages := [];
    }

    /**
     * The end of OnChooseImage. `resized` is what the file dialog, decoding
     * and ResizeBrush produced, null when the dialog was cancelled or the
     * file could not be decoded; otherwise its mask becomes the brush tip.
     */
    method OnChooseImage(resized: Bitmap?)
      modifies this
      ensures resized == null ==> brushTip == old(brushTip)
      ensures resized != null ==>
        && fresh(brushTip) && fresh(brushTip.pixels)
        && brushTip.Width() == resized.Width() && brushTip.Height() == resized.Height()
        && (KeepsPixels(resized.colorType) ==>
              forall x, y :: resized.Contains(x, y) ==> brushTip.pixels[x, y] == resized.pixels[x, y])
        && (!KeepsPixels(resized.colorType) ==>
              forall x, y :: resized.Contains(x, y) ==> brushTip.pixels[x, y] == MaskPixel(resized.pixels[x, y]))
      ensures resultBrush == old(resultBrush) && dialogResult == old(dialogResult)
      ensures closed == old(closed) && messages == old(messages)
    {
      if resized == null {
        return;
      }
      var mask := ConvertToMask(resized);
      brushTip := mask;
    }

    /**
     * OnSave: without a usable name it reports the problem and leaves the
     * dialog open with no result; otherwise the result is a new preset with
     * the given name, sliders and the current tip, and the dialog closes
     * with result true.
     */
    method OnSave(nameText: Option<string>, size: real, opacity: byte, spacing: real)
      modifies this
      ensures brushTip == old(brushTip)
      ensures IsNullOrWhiteSpace(nameText) ==>
        && resultBrush == old(resultBrush) && dialogResult == old(dialogResult)
        && closed == old(closed) && messages == old(messages) + [NameRequired]
      ensures !IsNullOrWhiteSpace(nameText) ==>
        && resultBrush != null && fresh(resultBrush)
        && resultBrush.name == nameText.value && resultBrush.size == size
        && resultBrush.opacity == opacity && resultBrush.spacing == spacing
        && resultBrush.brushTip == brushTip
        && !resultBrush.isEraser && !resultBrush.isImported
        && dialogResult == Some(true) && closed && messages == old(messages)
    {
      if IsNullOrWhiteSpace(nameText) {
        messages := messages + [NameRequired];
        return;
      }
      resultBrush := new BrushPreset(nameText.value, size, opacity, spacing, false, false, brushTip);
      dialogResult := Some(true);
      closed := true;
    }
  }
}
