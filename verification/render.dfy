/** One full redraw of the 600-by-600 editor canvas, as the list of drawing
    operations it issues in order.

    Every redraw clears the canvas and paints the dark backdrop; then it
    draws the user's photo cover-fitted (or, before a photo is loaded, a
    centred prompt); then, once the hat image is ready, the hat on top at its
    dragged and scaled place. */
module Render {
  import opened Editor
  import opened Placement

  const CanvasW: real := 600.0
  const CanvasH: real := 600.0

  /** Everything a redraw reads: the load flags and natural sizes of the two
      images, and the editor state. */
  datatype Scene = Scene(
    imgLoaded: bool,
    imgNaturalW: real,
    imgNaturalH: real,
    maskReady: bool,
    maskNaturalW: real,
    maskNaturalH: real,
    editor: EditorState)

  datatype DrawOp =
    | ClearCanvas
    | FillBackdrop
    | DrawPhoto(dest: Rect)
    | DrawPrompt(centerX: real, centerY: real)
    | DrawMask(dest: Rect)

  /** A decoded image has a positive natural size. */
  predicate Drawable(sc: Scene) {
    && (sc.imgLoaded ==> sc.imgNaturalW > 0.0 && sc.imgNaturalH > 0.0)
    && (sc.maskReady ==> sc.maskNaturalW > 0.0 && sc.maskNaturalH > 0.0)
  }

  /** The hat's rectangle for the scene's editor state. */
  function MaskDest(sc: Scene): Rect
    requires sc.maskNaturalW > 0.0 && sc.maskNaturalH > 0.0
  {
    MaskRect(CanvasW, CanvasH, sc.maskNaturalW, sc.maskNaturalH,
             sc.editor.maskScale, sc.editor.maskOffsetX as real, sc.editor.maskOffsetY as real)
  }

  /** The operations of one redraw. The photo, when drawn, keeps its aspect
      ratio, is centred, matches the canvas on one axis and covers it on
      both; the prompt appears exactly when no photo is loaded; the hat is
      drawn exactly when it is ready, always last so it sits on top, with its
      aspect ratio, at the user's scale times the largest size that fits the
      canvas, centred at the canvas centre plus the drag offset. */
  function Redraw(sc: Scene): (ops: seq<DrawOp>)
    requires Drawable(sc)
    ensures |ops| == if sc.maskReady then 4 else 3
    ensures ops[0] == ClearCanvas && ops[1] == FillBackdrop
    ensures sc.imgLoaded <==> ops[2].DrawPhoto?
    ensures !sc.imgLoaded <==> ops[2] == DrawPrompt(CanvasW / 2.0, CanvasH / 2.0)
    ensures ops[2].DrawPhoto? ==>
      var d := ops[2].dest;
      && d.x <= 0.0 && d.y <= 0.0 && d.x + d.w >= CanvasW && d.y + d.h >= CanvasH
      && (d.w == CanvasW || d.h == CanvasH)
      && d.w * sc.imgNaturalH == d.h * sc.imgNaturalW
      && d.x + d.w / 2.0 == CanvasW / 2.0 && d.y + d.h / 2.0 == CanvasH / 2.0
    ensures forall i :: 0 <= i < |ops| && ops[i].DrawMask? ==> sc.maskReady && i == |ops| - 1
    ensures sc.maskReady ==> ops[3].DrawMask?
    ensures sc.maskReady ==>
      var d := ops[3].dest;
      var k := sc.editor.maskScale;
      && d.w * sc.maskNaturalH == d.h * sc.maskNaturalW
      && d.w <= k * CanvasW && d.h <= k * CanvasH
      && (d.w == k * CanvasW || d.h == k * CanvasH)
      && d.x + d.w / 2.0 == CanvasW / 2.0 + sc.editor.maskOffsetX as real
      && d.y + d.h / 2.0 == CanvasH / 2.0 + sc.editor.maskOffsetY as real
  {
    var photo :=
      if sc.imgLoaded then DrawPhoto(CoverRect(CanvasW, CanvasH, sc.imgNaturalW, sc.imgNaturalH))
      else DrawPrompt(CanvasW / 2.0, CanvasH / 2.0);
    var base := [ClearCanvas, FillBackdrop, photo];
    if sc.maskReady then base + [DrawMask(MaskDest(sc))] else base
  }

  /** The redraw does not read the drag session, so pressing, releasing or
      leaving the canvas (after which the page does not redraw) leave the
      picture as it was. */
  lemma DragSessionIsInvisible(sc: Scene, e: Event)
    requires Drawable(sc)
    requires e.PointerDown? || e.PointerUp? || e.PointerLeave?
    ensures Redraw(sc.(editor := Step(sc.editor, e))) == Redraw(sc)
  {
  }

  /** A drag session from `p0` along `ps` carries the hat's drawn rectangle
      by exactly the net pointer travel, without resizing it. */
  lemma DragMovesDrawnMask(sc: Scene, p0: Point, ps: seq<Point>)
    requires Drawable(sc) && sc.maskReady
    ensures var after := sc.(editor := Run(sc.editor, [PointerDown(p0)] + Moves(ps)));
      var a := Redraw(sc)[3].dest;
      var b := Redraw(after)[3].dest;
      && a.w == b.w && a.h == b.h
      && b.x - a.x == (LastPoint(p0, ps).x - p0.x) as real
      && b.y - a.y == (LastPoint(p0, ps).y - p0.y) as real
  {
    DragSessionTelescopes(sc.editor, p0, ps);
    var after := sc.(editor := Run(sc.editor, [PointerDown(p0)] + Moves(ps)));
    OffsetOnlyTranslates(CanvasW, CanvasH, sc.maskNaturalW, sc.maskNaturalH,
                         sc.editor.maskScale,
                         sc.editor.maskOffsetX as real, sc.editor.maskOffsetY as real,
                         after.editor.maskOffsetX as real, after.editor.maskOffsetY as real);
  }

  /** A 1200-by-800 photo is drawn 900 by 600 with its left 150 units
      cropped off-canvas. */
  lemma LandscapePhotoScenario(sc: Scene)
    requires sc.imgLoaded && sc.imgNaturalW == 1200.0 && sc.imgNaturalH == 800.0
    requires Drawable(sc)
    ensures Redraw(sc)[2] == DrawPhoto(Rect(-150.0, 0.0, 900.0, 600.0))
  {
    assert CoverScale(CanvasW, CanvasH, 1200.0, 800.0) == 0.75;
  }

  /** A 400-by-400 hat at scale 2 is drawn 1200 by 1200 (base fit 1.5 times
      the scale 2), centred at the canvas centre plus the offset. */
  lemma LargeHatScenario(sc: Scene)
    requires sc.maskReady && sc.maskNaturalW == 400.0 && sc.maskNaturalH == 400.0
    requires sc.editor.maskScale == 2.0
    requires Drawable(sc)
    ensures Redraw(sc)[3] == DrawMask(Rect(
      sc.editor.maskOffsetX as real - 300.0, sc.editor.maskOffsetY as real - 300.0, 1200.0, 1200.0))
  {
    assert ContainScale(CanvasW, CanvasH, 400.0, 400.0) == 1.5;
  }
}
