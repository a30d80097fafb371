# drawing_app core in Dafny

This project models the sequential core of the drawing_app painting program, a WPF and SkiaSharp application:

- **Gesture recorder** (`gestures.dfy`, module `Gestures`). `CanvasControl` records freehand strokes. A mouse-down with the left button pressed starts a one-point stroke and makes it the current stroke. A mouse-move while the button is held appends a point to the current stroke. A mouse-up ends the gesture. Painting draws each stroke as the lines between its consecutive points. The event handlers are a class with the fields `strokes` and `current`. Their effect is also given as a pure step function `Apply` over a `Recorder` value, together with `Replay` for event sequences. The lemmas about the recorder's state are about those two functions. The lemmas about painting are about `StrokeSegments` and `AllSegments`, which give the lines the paint handler draws.
- **Brush-mask conversion and the import dialog** (`import_brush.dfy`, module `ImportBrush`). `ConvertToMask` copies a 32-bit RGBA or BGRA image unchanged. Any other image becomes a white mask whose alpha is 255 minus the integer mean of the colour channels. `OnSave` refuses a missing or blank name. Otherwise it builds a brush preset from the name, the sliders and the current tip.
- **Brush library** (`brush_library.dfy`, module `Brushes`; the preset class is in `brush_preset.dfy`). The library starts with five built-in presets. `Add` appends a preset. `Remove` deletes the first occurrence of a preset by reference. Both ignore null.
- **Layer construction** (`layer.dfy`, module `Layers`). A new layer has a bitmap of the requested size, erased to transparent. It is visible and has opacity 1.
- **Bitmaps** (`raster.dfy`, module `Raster`). This is the part of SkiaSharp's `SKBitmap` these files use: construction, `SetPixel`, `Erase` and `Copy`.

`MainWindow.xaml.cs` calls `Undo`, `Redo`, `AddLayer`, `DeleteActiveLayer` and `ApplyBrushPreset`, which `CanvasControl.cs` does not define. Stroke stamping, undo/redo, live preview and a layer stack have no code in these files and are not modelled.

`BrushPreset.cs` declares a four-argument constructor and no `BrushTip` or `IsImported` property. Yet `BrushLibrary.cs` and `ImportBrushWindow.xaml.cs` build presets with object initialisers that set `BrushTip`. Of the two, only `BrushLibrary.cs:11-68` sets `IsImported`, and so does `BrushStorage.cs:58-67`. `ImportBrushWindow.xaml.cs:54-61` leaves it unset. The model's `BrushPreset` carries every field those callers use. Properties a caller leaves unset keep the C# defaults: `IsEraser` and `IsImported` are false, the tip is null. So a preset built by `OnSave` is not marked as imported.

## Model

| member | source | states |
|---|---|---|
| `Gestures.WellFormed` | CanvasControl.cs:39-40 | The aliasing invariant. A current stroke is the last entry of the stroke list, as `_currentStroke` is the list just added at lines 39-40. Every recorded stroke holds at least one point. |
| `Gestures.Apply` | CanvasControl.cs:35-57 | Each event keeps the invariant: a current stroke is the last recorded one, and every stroke has at least one point. Only an accepted mouse-down adds a stroke, and it adds exactly one. No recorded stroke loses points. Every stroke before the last is left as it was. |
| `Gestures.Replay` | CanvasControl.cs:35-57 | The recorder's invariant holds after any sequence of mouse events. |
| `Gestures.ReplayStrokeCount` | CanvasControl.cs:37-40 | Replaying events adds exactly one stroke per mouse-down with the left button pressed. |
| `Gestures.StrokeCountFromIdle` | CanvasControl.cs:14-40 | Starting from a new control, the number of strokes equals the number of accepted mouse-downs. |
| `Gestures.ReplayOnlyAppends` | CanvasControl.cs:39-56 | Across any event sequence, strokes are only appended and points are only appended to a stroke. Every stroke except the last recorded one stays exactly as it was. |
| `Gestures.MouseUpIdempotent` | CanvasControl.cs:53-57 | Mouse-up clears the current stroke and leaves the strokes unchanged. A second mouse-up changes nothing. |
| `Gestures.StrokeSegments` | CanvasControl.cs:75-76 | The lines the inner loop draws for one stroke: `DrawLine(stroke[i-1], stroke[i])` for i from 1 to Count−1, in order. |
| `Gestures.AllSegments` | CanvasControl.cs:73-77 | The lines the whole paint loop draws: the segments of each stroke, strokes in list order. |
| `Gestures.StrokeSegmentsAt` | CanvasControl.cs:75-76 | A stroke of n ≥ 1 points is drawn as n − 1 segments. Segment i joins points i and i+1. A one-point stroke draws none. |
| `Gestures.ExtendStrokeSegments` | CanvasControl.cs:49-50 | Appending a point to a non-empty stroke adds exactly one segment, from its old last point to the new one. |
| `Gestures.AllSegmentsAppend` | CanvasControl.cs:73-77 | The segments drawn for two lists of strokes are those of the first list followed by those of the second. |
| `Gestures.AllSegmentsCount` | CanvasControl.cs:73-77 | When every stroke is non-empty, the number of segments equals the total number of points minus the number of strokes. |
| `Gestures.MouseDownAddsNoSegment` | CanvasControl.cs:37-41 | A mouse-down that starts a stroke adds no segment to the drawing. |
| `Gestures.MouseMoveAddsOneSegment` | CanvasControl.cs:46-50 | An accepted mouse-move adds exactly one segment at the end of the drawing, from the last recorded point to the new point. |
| `Gestures.CanvasControl.constructor` | CanvasControl.cs:14-15 | A new control has no strokes and no current stroke. |
| `Gestures.CanvasControl.OnMouseDown` | CanvasControl.cs:35-42 | When the left button is pressed, appends the stroke `[p]`, makes it current and leaves earlier strokes unchanged. Otherwise nothing changes. |
| `Gestures.CanvasControl.OnMouseMove` | CanvasControl.cs:44-51 | Without a current stroke, or with the button released, nothing changes. Otherwise `p` is appended to the last stroke, and the other strokes, the stroke count and the current stroke stay the same. |
| `Gestures.CanvasControl.OnMouseUp` | CanvasControl.cs:53-57 | Clears the current stroke and leaves the strokes unchanged. |
| `Gestures.CanvasControl.OnPaintSurface` | CanvasControl.cs:73-77 | Returns the drawn lines in drawing order: the segments of each stroke in list order. |
| `Raster.Bitmap.constructor` | ImportBrushWindow.xaml.cs:99 | A new bitmap has the requested width, height and colour type, and its own fresh pixel buffer. |
| `Raster.Bitmap.SetPixel` | ImportBrushWindow.xaml.cs:109 | Writes one pixel and leaves every other pixel unchanged. |
| `Raster.Bitmap.Erase` | Layer.cs:19 | Sets every pixel to the given colour. |
| `Raster.Bitmap.Copy` | ImportBrushWindow.xaml.cs:96 | Returns a fresh bitmap with the same colour type, dimensions and pixels. |
| `BrushPresets.BrushPreset.constructor` | ImportBrushWindow.xaml.cs:54-61 | A preset holds exactly the name, size, opacity, spacing, eraser flag, imported flag and tip it was built with. |
| `Brushes.RemoveFirst` | BrushLibrary.cs:79 | `Collection<T>.Remove`: the collection with the first element equal to the argument dropped, or unchanged when there is none. Its properties are the lemmas in the rows below. |
| `Brushes.FirstIndex` | BrushLibrary.cs:79 | Gives the position of the first occurrence of an element that is present. |
| `Brushes.RemoveFirstDeletesFirstOccurrence` | BrushLibrary.cs:79 | Removal deletes exactly the element at the first occurrence and keeps the order of the rest. Without an occurrence the collection is unchanged. |
| `Brushes.RemoveFirstLength` | BrushLibrary.cs:79 | Removal shortens the collection by one when the element was present. Otherwise the length stays the same. |
| `Brushes.AddThenRemove` | BrushLibrary.cs:70-80 | Adding a preset that was absent and then removing it restores the original collection. |
| `Brushes.BrushLibrary.constructor` | BrushLibrary.cs:8-69 | The library starts with five distinct presets, in order: Pencil (2, 255, 0.10), Ink Pen (5, 255, 0.25), Soft Brush (20, 60, 0.10), Marker (15, 180, 0.10) and Eraser (20, 255, 0.25). None is imported and none has a tip. Only Eraser is an eraser. |
| `Brushes.BrushLibrary.Add` | BrushLibrary.cs:70-74 | Null leaves the collection unchanged. Any other preset is appended at the end, duplicates included. |
| `Brushes.BrushLibrary.Remove` | BrushLibrary.cs:76-80 | Null leaves the collection unchanged. Any other preset has its first occurrence, by reference, removed. |
| `ImportBrush.ChannelSum` | ImportBrushWindow.xaml.cs:107 | The sum `c.Red + c.Green + c.Blue` computed in `int`. It is at most 765. |
| `ImportBrush.ToByte` | ImportBrushWindow.xaml.cs:107 | C#'s unchecked `(byte)` cast. It keeps the value modulo 256, and leaves any value in 0..255 unchanged. |
| `ImportBrush.MaskAlpha` | ImportBrushWindow.xaml.cs:107 | The byte cast of `255 - sum / 3`, with C#'s truncating division (the sum is non-negative). It is exactly `255 - sum / 3`: the channel sum is at most 765, so the cast never wraps. |
| `ImportBrush.MaskPixel` | ImportBrushWindow.xaml.cs:109 | The `SKColor(255, 255, 255, alpha)` written for an input pixel: white, with alpha plus the channel mean equal to 255. |
| `ImportBrush.MaskAlphaExtremes` | ImportBrushWindow.xaml.cs:107 | Black pixels get alpha 255 and white pixels alpha 0, whatever their own alpha. |
| `ImportBrush.MaskAlphaAntitone` | ImportBrushWindow.xaml.cs:107 | A pixel with a smaller channel sum never gets a smaller alpha. |
| `ImportBrush.ConvertToMask` | ImportBrushWindow.xaml.cs:92-114 | Returns a fresh bitmap with the input's width and height. A Bgra8888 or Rgba8888 input is copied pixel for pixel. Otherwise every pixel is white with alpha `255 - (r+g+b)/3`. The input is not modified. |
| `ImportBrush.IsWhiteSpace` | ImportBrushWindow.xaml.cs:48 | .NET's `char.IsWhiteSpace`. It holds for the SpaceSeparator characters (U+0020, U+00A0, U+1680, U+2000 to U+200A, U+202F, U+205F, U+3000), for U+2028 and U+2029, and for U+0009 to U+000D and U+0085. |
| `ImportBrush.IsNullOrWhiteSpace` | ImportBrushWindow.xaml.cs:48 | .NET's `string.IsNullOrWhiteSpace`. It holds when the name is null or every character is white space, which includes the empty name. |
| `ImportBrush.ImportBrushWindow.constructor` | ImportBrushWindow.xaml.cs:11-18 | A new dialog has no result brush, no tip, no dialog result and is open. |
| `ImportBrush.ImportBrushWindow.OnChooseImage` | ImportBrushWindow.xaml.cs:34-41 | With no image, nothing changes. Otherwise the tip becomes the mask of the image: a fresh bitmap of the image's size, holding the copied or converted pixels. |
| `ImportBrush.ImportBrushWindow.OnSave` | ImportBrushWindow.xaml.cs:46-65 | A null, empty or all-white-space name adds the "Brush name is required." message and sets no result, and the dialog stays open. A valid name yields a fresh non-eraser, non-imported preset with that name, size, opacity, spacing and the current tip, sets the dialog result to true and closes the dialog. |
| `Layers.Layer.constructor` | Layer.cs:7-20 | A new layer has the given name, and a fresh premultiplied Bgra8888 bitmap of exactly the requested size. Every pixel of the bitmap is transparent with alpha 0. The layer is visible with opacity 1. |

## Left out

- Pointer positions: `GetMousePosition` scales by the display's DPI in floating point. The model takes the point as a parameter, and the button state likewise.
- Line rendering: the paint handler's anti-aliased SkiaSharp drawing, clearing and paint settings are left out. Painting is modelled as the list of line segments it draws.
- `InvalidateVisual` and the resize handler only request repaints, so they are left out.
- `Gestures.CanvasControl`: `_currentStroke` is a reference to the same list as the last entry of `_strokes`. The model represents it by that entry's index. The invariant `WellFormed` states that the index always names the last entry.
- `ResizeBrush` uses float scaling and SkiaSharp's `ScalePixels`. `CreatePreviewBitmap` uses a colour filter. Both are left out. The file dialog and image decoding are left out too. `OnChooseImage` takes the already-resized bitmap, or null when the dialog is cancelled or decoding fails.
- `ImportBrush.ImportBrushWindow.OnSave`: the opacity slider's double-to-byte conversion is left out, and the method receives the byte. Size and spacing are floats, carried as reals without arithmetic. Showing a message box is recorded as an appended message.
- `ImportBrush.ConvertToMask`: the contract states that every pixel is written. It does not state that each pixel is written exactly once, which follows from the loop shape.
- `Raster`: pixels are stored as the colours written. SkiaSharp's premultiplied storage and its colour-type conversions are not modelled. A mask bitmap's colour type is taken to be Bgra8888, the platform default on Windows.
- `Layers.Layer.constructor`: dimensions are natural numbers. The constructor's behaviour for negative sizes (a failed SkiaSharp allocation) is not modelled.
- Float sizes, spacings and the layer opacity are carried as reals without arithmetic. The spacing literals `0.10f` and `0.25f` are modelled by the exact decimals.
- `MainWindow.xaml.cs` is not part of this model: window wiring, sliders, dialogs and shutdown. This includes its rule that only imported brushes may be deleted.
- `Brushes.BrushLibrary`: `DefaultBrushes` is a single static `ObservableCollection` bound to the brush list (`MainWindow.xaml.cs:27`). The model makes it an object holding a sequence. Its change notifications to the UI are not modelled.
- `BrushStorage.cs` is not part of this model: brush persistence to JSON and PNG files.
- Undo/redo, stroke stamping, dab spacing, live preview, layer addition and deletion and the active-layer index have no implementation in the modelled files, so they are left out.
