/** Where the two images land on the canvas, in exact real arithmetic.

    The user's photo is cover-fitted: scaled uniformly by the larger of the
    two axis ratios, so it fills the canvas and overflows on one axis, and
    centred. The hat is contain-fitted: scaled by the smaller ratio, so at
    scale 1 it fits inside the canvas and touches two opposite edges, then
    multiplied by the user's scale and centred at the canvas centre plus the
    drag offset. */
module Placement {

  /** A destination rectangle: top-left corner and size. */
  datatype Rect = Rect(x: real, y: real, w: real, h: real)

  /** Multiplying both sides of an inequality by a positive factor. */
  lemma MulMonotone(a: real, b: real, c: real)
    requires a >= b && c > 0.0
    ensures a * c >= b * c
  {
  }

  /** Dividing both sides of an inequality by a positive factor. */
  lemma MulCancel(a: real, b: real, c: real)
    requires a * c >= b * c && c > 0.0
    ensures a >= b
  {
    if a < b {
      MulMonotone(b, a, c);
    }
  }

  /** The cover ratio: the least uniform scale at which a w-by-h image spans
      a W-by-H area on both axes. */
  function CoverScale(canvasW: real, canvasH: real, w: real, h: real): (k: real)
    requires canvasW > 0.0 && canvasH > 0.0 && w > 0.0 && h > 0.0
    ensures k > 0.0
    ensures w * k >= canvasW && h * k >= canvasH
    ensures w * k == canvasW || h * k == canvasH
  {
    var kw := canvasW / w;
    var kh := canvasH / h;
    assert w * kw == canvasW && h * kh == canvasH;
    if kw >= kh then
      MulMonotone(kw, kh, h);
      kw
    else
      MulMonotone(kh, kw, w);
      kh
  }

  /** The contain ratio: the greatest uniform scale at which a w-by-h image
      still fits inside a W-by-H area. */
  function ContainScale(canvasW: real, canvasH: real, w: real, h: real): (k: real)
    requires canvasW > 0.0 && canvasH > 0.0 && w > 0.0 && h > 0.0
    ensures k > 0.0
    ensures w * k <= canvasW && h * k <= canvasH
    ensures w * k == canvasW || h * k == canvasH
  {
    var kw := canvasW / w;
    var kh := canvasH / h;
    assert w * kw == canvasW && h * kh == canvasH;
    if kw <= kh then
      MulMonotone(kh, kw, h);
      kw
    else
      MulMonotone(kw, kh, w);
      kh
  }

  /** No smaller scale covers the area: the cover ratio is the least one. */
  lemma CoverScaleIsLeast(canvasW: real, canvasH: real, w: real, h: real, k: real)
    requires canvasW > 0.0 && canvasH > 0.0 && w > 0.0 && h > 0.0
    requires w * k >= canvasW && h * k >= canvasH
    ensures k >= CoverScale(canvasW, canvasH, w, h)
  {
    var c := CoverScale(canvasW, canvasH, w, h);
    if w * c == canvasW {
      MulCancel(k, c, w);
    } else {
      MulCancel(k, c, h);
    }
  }

  /** No larger scale still fits: the contain ratio is the greatest one. */
  lemma ContainScaleIsGreatest(canvasW: real, canvasH: real, w: real, h: real, k: real)
    requires canvasW > 0.0 && canvasH > 0.0 && w > 0.0 && h > 0.0
    requires w * k <= canvasW && h * k <= canvasH
    ensures k <= ContainScale(canvasW, canvasH, w, h)
  {
    var c := ContainScale(canvasW, canvasH, w, h);
    if w * c == canvasW {
      MulCancel(c, k, w);
    } else {
      MulCancel(c, k, h);
    }
  }

  /** The photo's rectangle: it covers the whole canvas, keeps the photo's
      aspect ratio, matches the canvas exactly on one axis, and is centred,
      so any overflow is cropped equally on both sides. */
  function CoverRect(canvasW: real, canvasH: real, w: real, h: real): (r: Rect)
    requires canvasW > 0.0 && canvasH > 0.0 && w > 0.0 && h > 0.0
    ensures r.w >= canvasW && r.h >= canvasH
    ensures r.w == canvasW || r.h == canvasH
    ensures r.w * h == r.h * w
    ensures r.x + r.w / 2.0 == canvasW / 2.0 && r.y + r.h / 2.0 == canvasH / 2.0
    ensures r.x <= 0.0 && r.y <= 0.0
    ensures r.x + r.w >= canvasW && r.y + r.h >= canvasH
  {
    var k := CoverScale(canvasW, canvasH, w, h);
    var drawW := w * k;
    var drawH := h * k;
    Rect((canvasW - drawW) / 2.0, (canvasH - drawH) / 2.0, drawW, drawH)
  }

  /** The hat's rectangle: `scale` times the largest copy of the hat that
      fits the canvas, with the hat's aspect ratio, centred at the canvas
      centre moved by the offset. */
  function MaskRect(canvasW: real, canvasH: real, mw: real, mh: real,
                    scale: real, offsetX: real, offsetY: real): (r: Rect)
    requires canvasW > 0.0 && canvasH > 0.0 && mw > 0.0 && mh > 0.0 && scale > 0.0
    ensures r.w > 0.0 && r.h > 0.0
    ensures r.w * mh == r.h * mw
    ensures r.w <= scale * canvasW && r.h <= scale * canvasH
    ensures r.w == scale * canvasW || r.h == scale * canvasH
    ensures r.x + r.w / 2.0 == canvasW / 2.0 + offsetX
    ensures r.y + r.h / 2.0 == canvasH / 2.0 + offsetY
  {
    var base := ContainScale(canvasW, canvasH, mw, mh);
    var k := base * scale;
    var drawW := mw * k;
    var drawH := mh * k;
    assert drawW == scale * (mw * base) && drawH == scale * (mh * base);
    MulMonotone(canvasW, mw * base, scale);
    MulMonotone(canvasH, mh * base, scale);
    var centerX := canvasW / 2.0 + offsetX;
    var centerY := canvasH / 2.0 + offsetY;
    Rect(centerX - drawW / 2.0, centerY - drawH / 2.0, drawW, drawH)
  }

  /** At the default scale the hat lies entirely inside the canvas, whatever
      its own size, as long as it has not been dragged. */
  lemma {:induction false} DefaultMaskFitsCanvas(canvasW: real, canvasH: real, mw: real, mh: real)
    requires canvasW > 0.0 && canvasH > 0.0 && mw > 0.0 && mh > 0.0
    ensures var r := MaskRect(canvasW, canvasH, mw, mh, 1.0, 0.0, 0.0);
      && r.w <= canvasW && r.h <= canvasH
      && 0.0 <= r.x && r.x + r.w <= canvasW
      && 0.0 <= r.y && r.y + r.h <= canvasH
  {
  }

  /** Dragging only translates the hat: two placements that differ in offset
      have the same size and their corners differ by the offset difference. */
  lemma OffsetOnlyTranslates(canvasW: real, canvasH: real, mw: real, mh: real,
                             scale: real, aX: real, aY: real, bX: real, bY: real)
    requires canvasW > 0.0 && canvasH > 0.0 && mw > 0.0 && mh > 0.0 && scale > 0.0
    ensures var a := MaskRect(canvasW, canvasH, mw, mh, scale, aX, aY);
      var b := MaskRect(canvasW, canvasH, mw, mh, scale, bX, bY);
      && a.w == b.w && a.h == b.h
      && b.x - a.x == bX - aX && b.y - a.y == bY - aY
  {
  }
}
