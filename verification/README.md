# Pumpween hat editor: a Dafny model

The page is a profile-picture maker. The user uploads a photo, and it is
drawn on a 600-by-600 canvas, cover-fitted. A decorative "hat" graphic (the
mask) is drawn on top of it. The user drags the hat with the pointer and
resizes it with a slider. Double-clicking the canvas or pressing the reset
button puts the hat back. This project models the three pieces of pure logic
inside `script.js` and proves properties about them:

- `Preprocess` (`preprocess.dfy`) is the one-shot pass over the hat image's
  RGBA buffer that runs when the mask loads. A buffer that already has a
  pixel with alpha below 255 is kept as it is. Otherwise every pixel with
  luminance 0.299 r + 0.587 g + 0.114 b below 30 becomes fully transparent.
  `Processed` is a byte-by-byte reference definition. `Preprocess` is the
  two-loop method the loader runs, and it is proved equal to `Processed`.
- `Editor` (`editor.dfy`) is the `state` record reduced to the hat scale,
  the hat offset, the drag flag and the drag anchor. It has one pure
  transition per event: pointer down, move, up and leave, double-click, the
  reset button, and the scale slider. `Run` folds a sequence of events.
- `Placement` (`placement.dfy`) holds the rectangle math of `render`. The
  photo is cover-fitted with the larger axis ratio and centred. The hat is
  contain-fitted with the smaller axis ratio, multiplied by the user's
  scale, and centred at the canvas centre plus the drag offset.
- `Render` (`render.dfy`) is one redraw, written as the ordered list of
  drawing operations it issues.

Arithmetic is exact. The luminance test is written scaled by 1000 as
299 r + 587 g + 114 b < 30000. The placement math uses `real`. Pointer
coordinates and offsets are `int`.

## Model

| member | source | states |
|---|---|---|
| Preprocess.ScanTransparency | script.js:129-132 | the first loop reports a transparent pixel exactly when some pixel's alpha is below 255 |
| Preprocess.Processed | script.js:129-138 | length is preserved; a buffer with any alpha below 255 is returned byte-for-byte; in an opaque buffer every pixel keeps its R, G and B, and its alpha becomes 0 exactly when it is dark and stays 255 otherwise |
| Preprocess.Keyed | script.js:134-138 | the darkness loop never touches colour channels; it makes alpha 0 on exactly the dark pixels and leaves every other pixel's alpha as it was |
| Preprocess.Preprocess | script.js:129-145 | the scan-then-key method computes exactly the reference pass; it produces a new image exactly when the buffer had no transparency |
| Preprocess.NoDarkPixelIsNoOp | script.js:133-138 | an opaque buffer with no pixel below the luminance threshold comes back unchanged |
| Preprocess.ProcessedIsIdempotent | script.js:129-138 | running the pass on its own output changes nothing |
| Editor.OnPointerDown | script.js:149-152 | a press starts or restarts the drag, anchors it at the pointer, and leaves offset and scale alone, so a second press during a drag only moves the anchor |
| Editor.OnPointerMove | script.js:156-163 | outside a drag a move changes nothing; during a drag the offset grows by the pointer's travel from the anchor and the anchor moves to the pointer; scale and drag flag never change |
| Editor.EndDrag | script.js:166-174 | pointer up and pointer leave always clear the drag flag and change nothing else |
| Editor.Recenter | script.js:92-97 | the offset becomes (0, 0) and the scale 1 from any state; the drag flag and anchor are untouched |
| Editor.OnScaleInput | script.js:177-179 | the slider sets the scale and nothing else |
| Editor.Step | script.js:149-191 | across all events, only a move during a drag or a reset moves the hat, only the slider or a reset rescales it, only press, release or leave change the drag flag, and release or leave always end the drag |
| Editor.DeltasTelescope | script.js:156-163 | the per-move deltas along a pointer path add up to its net travel |
| Editor.MoveKeepsOffsetMinusAnchor | script.js:158-163 | during a drag a move keeps offset minus anchor constant on both axes |
| Editor.DragAccumulatesDeltas | script.js:156-163 | during a drag any run of moves adds the sum of the per-move deltas to the offset, ends anchored at the last position, and keeps the scale and the drag flag |
| Editor.IdleMovesAreNoOps | script.js:156-157 | outside a drag any run of moves leaves the state unchanged |
| Editor.DragSessionTelescopes | script.js:149-163 | a press at p0 followed by any number of moves shifts the offset by the last position minus p0, from any prior state, and leaves the scale alone |
| Editor.ReleasedDragStaysPut | script.js:156-174 | after a pointer up or leave, later moves cannot shift the hat, so a drag is never left stuck |
| Editor.ResetForgetsPlacement | script.js:92-97 | double-click and the reset button give the same state, with offset (0, 0) and scale 1, whatever the prior placement |
| Editor.ReleaseAndResetRestoresInitial | script.js:26-42 | ending the drag and double-clicking returns the editor to its start-up state, apart from the remembered drag anchor |
| Editor.ShortDragScenario | script.js:149-170 | press at (100, 100), move to (130, 115) and release moves the hat by exactly (+30, +15) and ends the drag |
| Placement.CoverScale | script.js:57 | the cover ratio spans the canvas on both axes and matches it exactly on one |
| Placement.CoverScaleIsLeast | script.js:57 | every scale that spans the canvas on both axes is at least the cover ratio |
| Placement.ContainScale | script.js:77 | the base fit keeps the hat inside the canvas on both axes and touches it on one |
| Placement.ContainScaleIsGreatest | script.js:77 | every scale that fits inside the canvas is at most the base fit |
| Placement.CoverRect | script.js:57-61 | the photo rectangle is at least as large as the canvas on both axes, equal on one, keeps the photo's aspect ratio, is centred on the canvas, and starts at or left of and above the canvas origin |
| Placement.MaskRect | script.js:77-86 | the hat rectangle keeps the hat's aspect ratio, is `scale` times the largest fitting copy, and is centred at the canvas centre plus the offset |
| Placement.DefaultMaskFitsCanvas | script.js:77-86 | at scale 1 with no offset the hat lies wholly inside the canvas |
| Placement.OffsetOnlyTranslates | script.js:82-86 | changing the offset translates the hat rectangle by the offset change and keeps its size |
| Render.Redraw | script.js:46-90 | a redraw clears, then paints the backdrop. If a photo is loaded it draws it with the photo's aspect ratio, centred, equal to the canvas on one axis and covering it on both; otherwise it draws the centred prompt. The hat is drawn exactly when ready, last, with the hat's aspect ratio, at the user's scale times the largest fitting size, and centred at canvas centre plus offset |
| Render.DragSessionIsInvisible | script.js:149-174 | press, release and leave do not change the redrawn picture, which is why the page does not redraw on them |
| Render.DragMovesDrawnMask | script.js:82-86 | a drag session moves the drawn hat by the net pointer travel without resizing it |
| Render.LandscapePhotoScenario | script.js:56-62 | a 1200-by-800 photo is drawn at (-150, 0) with size 900 by 600 |
| Render.LargeHatScenario | script.js:73-88 | a 400-by-400 hat at scale 2 is drawn 1200 by 1200, centred at the canvas centre plus the offset |

## Left out

- Canvas and DOM calls are not modelled: `getContext`, `clearRect`, `fillRect`, `fillText`, `drawImage`, `getImageData` and `putImageData`, cursor styling, and pointer capture. Nor is the slider reset to 1 inside `recenterMask` (`scaleRange.value = 1`, script.js:96). They are platform side effects. `Render` stands for them as a list of drawing operations.
- Image loading and decoding are not modelled. This covers the photo's `onload`/`onerror` handlers and `URL.createObjectURL` (script.js:100-116). It also covers the asynchronous swap to the processed hat image (script.js:139-142). The load flags and natural sizes are inputs of `Render.Scene`.
- Download, clipboard copy and the share link (script.js:183-217) are thin wrappers over browser APIs and are not modelled.
- Editor.OnScaleInput: the slider string goes through `parseFloat`, which is not modelled. The value is taken to be an already-parsed positive real, the `Editor.Scale` type. A slider value that parses to `NaN` is not represented.
- Preprocess.Preprocess: the luminance test is exact, as 299 r + 587 g + 114 b < 30000. The page computes 0.299*r + 0.587*g + 0.114*b in IEEE doubles, left to right. Two colours come out differently: (15, 39, 23) and (86, 4, 17). Each is exactly 30000 in the scaled test, so the model keeps it opaque. In doubles each evaluates to 29.999999999999996, so the page makes it transparent.
- Placement.CoverRect: exact real arithmetic, without IEEE double rounding of the ratios and products.
- Placement.MaskRect: exact real arithmetic, without IEEE double rounding.
- Render.Redraw: images of zero width or height are excluded by `Drawable`. The page does not guard against them: they divide by zero and give an infinite or `NaN` rectangle.
- Editor.OnPointerMove: pointer coordinates and offsets are integers. Browsers may report fractional `clientX`/`clientY`.
- Client coordinates are added to the offset without conversion to canvas units. This matches the source, so the model does not account for the canvas being displayed at a different CSS size.
