/** The editor's interaction state: where the hat sits relative to the canvas
    centre, how much it is enlarged, and the drag session that moves it.

    Each canvas or control event is a pure transition from one state to the
    next. Dragging is incremental: every pointer move adds the distance from
    the last anchor to the offset and then makes the pointer the new anchor. */
module Editor {

  /** The user's enlargement of the hat on top of its base fit. */
  type Scale = r: real | r > 0.0 witness 1.0

  datatype EditorState = EditorState(
    maskScale: Scale,
    maskOffsetX: int,
    maskOffsetY: int,
    draggingMask: bool,
    dragStartX: int,
    dragStartY: int)

  /** The state the page starts in. */
  const Initial: EditorState := EditorState(1.0, 0, 0, false, 0, 0)

  /** A pointer position in client coordinates. */
  datatype Point = Point(x: int, y: int)

  datatype Event =
    | PointerDown(at: Point)
    | PointerMove(at: Point)
    | PointerUp
    | PointerLeave
    | DoubleClick
    | ResetClick
    | ScaleInput(value: Scale)

  /** Pressing on the canvas starts (or restarts) a drag anchored at the
      pointer; the hat does not move. */
  function OnPointerDown(s: EditorState, p: Point): (r: EditorState)
    ensures r.draggingMask
    ensures r.dragStartX == p.x && r.dragStartY == p.y
    ensures r.maskOffsetX == s.maskOffsetX && r.maskOffsetY == s.maskOffsetY
    ensures r.maskScale == s.maskScale
  {
    s.(draggingMask := true, dragStartX := p.x, dragStartY := p.y)
  }

  /** Moving the pointer does nothing outside a drag; during one it shifts the
      hat by the pointer's travel since the anchor and re-anchors. */
  function OnPointerMove(s: EditorState, p: Point): (r: EditorState)
    ensures !s.draggingMask ==> r == s
    ensures s.draggingMask ==>
      && r.maskOffsetX == s.maskOffsetX + (p.x - s.dragStartX)
      && r.maskOffsetY == s.maskOffsetY + (p.y - s.dragStartY)
      && r.dragStartX == p.x && r.dragStartY == p.y
    ensures r.maskScale == s.maskScale && r.draggingMask == s.draggingMask
  {
    if !s.draggingMask then s
    else
      var dx := p.x - s.dragStartX;
      var dy := p.y - s.dragStartY;
      s.(dragStartX := p.x, dragStartY := p.y,
         maskOffsetX := s.maskOffsetX + dx, maskOffsetY := s.maskOffsetY + dy)
  }

  /** Releasing the pointer, or letting it leave the canvas, ends any drag;
      nothing else changes. */
  function EndDrag(s: EditorState): (r: EditorState)
    ensures !r.draggingMask
    ensures r.(draggingMask := s.draggingMask) == s
  {
    s.(draggingMask := false)
  }

  /** Put the hat back at the canvas centre at its base size; the drag
      session is not touched. */
  function Recenter(s: EditorState): (r: EditorState)
    ensures r.maskOffsetX == 0 && r.maskOffsetY == 0 && r.maskScale == 1.0
    ensures r.draggingMask == s.draggingMask
    ensures r.dragStartX == s.dragStartX && r.dragStartY == s.dragStartY
  {
    s.(maskOffsetX := 0, maskOffsetY := 0, maskScale := 1.0)
  }

  /** The scale slider sets the enlargement and nothing else. */
  function OnScaleInput(s: EditorState, v: Scale): (r: EditorState)
    ensures r.maskScale == v
    ensures r.(maskScale := s.maskScale) == s
  {
    s.(maskScale := v)
  }

  /** One event's transition. Only a move during a drag or a reset moves
      the hat, only the slider or a reset rescales it, and a release or a
      pointer leaving the canvas always ends the drag. */
  function Step(s: EditorState, e: Event): (r: EditorState)
    ensures (r.maskOffsetX, r.maskOffsetY) != (s.maskOffsetX, s.maskOffsetY) ==>
      (e.PointerMove? && s.draggingMask) || e.DoubleClick? || e.ResetClick?
    ensures r.maskScale != s.maskScale ==> e.ScaleInput? || e.DoubleClick? || e.ResetClick?
    ensures r.draggingMask != s.draggingMask ==> e.PointerDown? || e.PointerUp? || e.PointerLeave?
    ensures (e.PointerUp? || e.PointerLeave?) ==> !r.draggingMask
  {
    match e
    case PointerDown(p) => OnPointerDown(s, p)
    case PointerMove(p) => OnPointerMove(s, p)
    case PointerUp => EndDrag(s)
    case PointerLeave => EndDrag(s)
    case DoubleClick => Recenter(s)
    case ResetClick => Recenter(s)
    case ScaleInput(v) => OnScaleInput(s, v)
  }

  /** The state after a sequence of events, oldest first. */
  function Run(s: EditorState, es: seq<Event>): EditorState
    decreases |es|
  {
    if |es| == 0 then s else Run(Step(s, es[0]), es[1..])
  }

  /** A pointer path turned into the move events it produces. */
  function Moves(ps: seq<Point>): (es: seq<Event>)
    ensures |es| == |ps|
    ensures forall i :: 0 <= i < |ps| ==> es[i] == PointerMove(ps[i])
  {
    if |ps| == 0 then [] else [PointerMove(ps[0])] + Moves(ps[1..])
  }

  /** The pointer's final position along a path that starts at `p0`. */
  function LastPoint(p0: Point, ps: seq<Point>): Point {
    if |ps| == 0 then p0 else ps[|ps| - 1]
  }

  /** The sum of the per-move deltas along a path from `p0`, on each axis. */
  function SumDeltasX(p0: Point, ps: seq<Point>): int
    decreases |ps|
  {
    if |ps| == 0 then 0 else (ps[0].x - p0.x) + SumDeltasX(ps[0], ps[1..])
  }

  function SumDeltasY(p0: Point, ps: seq<Point>): int
    decreases |ps|
  {
    if |ps| == 0 then 0 else (ps[0].y - p0.y) + SumDeltasY(ps[0], ps[1..])
  }

  lemma {:induction false} RunAppend(s: EditorState, a: seq<Event>, b: seq<Event>)
    ensures Run(s, a + b) == Run(Run(s, a), b)
    decreases |a|
  {
    if |a| > 0 {
      assert (a + b)[0] == a[0];
      assert (a + b)[1..] == a[1..] + b;
      RunAppend(Step(s, a[0]), a[1..], b);
    } else {
      assert a + b == b;
    }
  }

  /** The per-move deltas telescope: their sum is the net travel. */
  lemma {:induction false} DeltasTelescope(p0: Point, ps: seq<Point>)
    ensures SumDeltasX(p0, ps) == LastPoint(p0, ps).x - p0.x
    ensures SumDeltasY(p0, ps) == LastPoint(p0, ps).y - p0.y
    decreases |ps|
  {
    if |ps| > 0 {
      DeltasTelescope(ps[0], ps[1..]);
      assert LastPoint(ps[0], ps[1..]) == LastPoint(p0, ps);
    }
  }

  /** During a drag, the offset minus the anchor does not change on a move:
      the quantity that makes the drag telescope. */
  lemma MoveKeepsOffsetMinusAnchor(s: EditorState, p: Point)
    requires s.draggingMask
    ensures OnPointerMove(s, p).maskOffsetX - OnPointerMove(s, p).dragStartX
            == s.maskOffsetX - s.dragStartX
    ensures OnPointerMove(s, p).maskOffsetY - OnPointerMove(s, p).dragStartY
            == s.maskOffsetY - s.dragStartY
  {
  }

  /** Within a drag, a run of moves adds up the per-move deltas from the
      anchor, ends anchored at the last pointer position, and leaves the
      scale and the drag flag alone. */
  lemma {:induction false} DragAccumulatesDeltas(s: EditorState, ps: seq<Point>)
    requires s.draggingMask
    ensures Run(s, Moves(ps)).maskOffsetX
            == s.maskOffsetX + SumDeltasX(Point(s.dragStartX, s.dragStartY), ps)
    ensures Run(s, Moves(ps)).maskOffsetY
            == s.maskOffsetY + SumDeltasY(Point(s.dragStartX, s.dragStartY), ps)
    ensures Run(s, Moves(ps)).draggingMask
    ensures Run(s, Moves(ps)).maskScale == s.maskScale
    ensures Run(s, Moves(ps)).dragStartX == LastPoint(Point(s.dragStartX, s.dragStartY), ps).x
    ensures Run(s, Moves(ps)).dragStartY == LastPoint(Point(s.dragStartX, s.dragStartY), ps).y
    decreases |ps|
  {
    if |ps| > 0 {
      var t := OnPointerMove(s, ps[0]);
      assert Moves(ps)[0] == PointerMove(ps[0]);
      assert Moves(ps)[1..] == Moves(ps[1..]);
      assert Run(s, Moves(ps)) == Run(t, Moves(ps[1..]));
      DragAccumulatesDeltas(t, ps[1..]);
      assert Point(t.dragStartX, t.dragStartY) == ps[0];
      assert LastPoint(ps[0], ps[1..]) == LastPoint(Point(s.dragStartX, s.dragStartY), ps);
    }
  }

  /** Outside a drag, pointer moves change nothing at all. */
  lemma {:induction false} IdleMovesAreNoOps(s: EditorState, ps: seq<Point>)
    requires !s.draggingMask
    ensures Run(s, Moves(ps)) == s
    decreases |ps|
  {
    if |ps| > 0 {
      assert Moves(ps)[0] == PointerMove(ps[0]);
      assert Moves(ps)[1..] == Moves(ps[1..]);
      IdleMovesAreNoOps(s, ps[1..]);
    }
  }

  /** A drag session — a press at `p0` followed by moves along `ps` — moves
      the hat by exactly the net pointer travel from `p0` to the last
      position, however many moves there are and whether or not a drag was
      already in progress when the press came. */
  lemma DragSessionTelescopes(s: EditorState, p0: Point, ps: seq<Point>)
    ensures Run(s, [PointerDown(p0)] + Moves(ps)).maskOffsetX
            == s.maskOffsetX + (LastPoint(p0, ps).x - p0.x)
    ensures Run(s, [PointerDown(p0)] + Moves(ps)).maskOffsetY
            == s.maskOffsetY + (LastPoint(p0, ps).y - p0.y)
    ensures Run(s, [PointerDown(p0)] + Moves(ps)).maskScale == s.maskScale
    ensures Run(s, [PointerDown(p0)] + Moves(ps)).draggingMask
  {
    var t := OnPointerDown(s, p0);
    RunAppend(s, [PointerDown(p0)], Moves(ps));
    assert Run(s, [PointerDown(p0)]) == t;
    assert Point(t.dragStartX, t.dragStartY) == p0;
    DragAccumulatesDeltas(t, ps);
    DeltasTelescope(p0, ps);
  }

  /** After the pointer is released or leaves the canvas, no later move can
      shift the hat until the next press. */
  lemma {:induction false} ReleasedDragStaysPut(s: EditorState, release: Event, ps: seq<Point>)
    requires release == PointerUp || release == PointerLeave
    ensures Run(s, [release] + Moves(ps)) == EndDrag(s)
  {
    RunAppend(s, [release], Moves(ps));
    assert Run(s, [release]) == EndDrag(s);
    IdleMovesAreNoOps(EndDrag(s), ps);
  }

  /** Double-click and the reset button restore the default placement from
      any state, and do so identically. */
  lemma ResetForgetsPlacement(s: EditorState, t: EditorState)
    requires s.draggingMask == t.draggingMask
    requires s.dragStartX == t.dragStartX && s.dragStartY == t.dragStartY
    ensures Step(s, DoubleClick) == Step(t, ResetClick)
    ensures Step(s, DoubleClick).maskOffsetX == 0 && Step(s, DoubleClick).maskOffsetY == 0
    ensures Step(s, DoubleClick).maskScale == 1.0
  {
  }

  /** Ending any drag and then double-clicking brings the editor back to the
      state the page starts in, except for the remembered anchor. */
  lemma ReleaseAndResetRestoresInitial(s: EditorState)
    ensures Run(s, [PointerUp, DoubleClick])
            == Initial.(dragStartX := s.dragStartX, dragStartY := s.dragStartY)
  {
    RunAppend(s, [PointerUp], [DoubleClick]);
  }

  /** Press at (100, 100), move to (130, 115), release: the hat moves by
      (+30, +15) and the drag is over. */
  lemma ShortDragScenario(s: EditorState)
    ensures Run(s, [PointerDown(Point(100, 100)), PointerMove(Point(130, 115)), PointerUp])
            == s.(maskOffsetX := s.maskOffsetX + 30, maskOffsetY := s.maskOffsetY + 15,
                  draggingMask := false, dragStartX := 130, dragStartY := 115)
  {
    var es := [PointerDown(Point(100, 100)), PointerMove(Point(130, 115)), PointerUp];
    assert es == [PointerDown(Point(100, 100))] + Moves([Point(130, 115)]) + [PointerUp];
    RunAppend(s, [PointerDown(Point(100, 100))] + Moves([Point(130, 115)]), [PointerUp]);
    DragSessionTelescopes(s, Point(100, 100), [Point(130, 115)]);
  }
}
