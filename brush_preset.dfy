/**
 * A brush preset as BrushLibrary and ImportBrushWindow build it with object
 * initialisers. Presets are compared by reference: the class does not
 * override equality.
 */
module BrushPresets {
  import opened Raster

  class BrushPreset {
    var name: string
    /** Diameter in pixels; a float the model carries without arithmetic. */
    var size: real
    var opacity: byte
    /** Dab spacing as a fraction of the size; a float carried without arithmetic. */
    var spacing: real
    var isEraser: bool
    var isImported: bool
    /** The optional stamp image. */
    var brushTip: Bitmap?

    constructor (name: string, size: real, opacity: byte, spacing: real,
                 isEraser: bool, isImported: bool, brushTip: Bitmap?)
      ensures this.name == name && this.size == size && this.opacity == opacity
      ensures this.spacing == spacing && this.isEraser == isEraser
      ensures this.isImported == isImported && this.brushTip == brushTip
    {
      this.name := name;
      this.size := size;
      this.opacity := opacity;
      this.spacing := spacing;
      this.isEraser := isEraser;
      this.isImported := isImported;
      this.brushTip := brushTip;
    }

    /** True when this preset has the given built-in settings: not imported and without a tip. */
    predicate IsBuiltIn(name: string, size: real, opacity: byte, spacing: real, isEraser: bool)
      reads this
    {
      && this.name == name && this.size == size && this.opacity == opacity
      && this.spacing == spacing && this.isEraser == isEraser
      && !isImported && brushTip == null
    }
  }
}
