/**
 * The press / move / release protocol of `CanvasView.on_watermark_click`,
 * `move_watermark` and `on_watermark_release`. The `drag_data` record holds the
 * last pointer position and whether a drag is armed; the watermark item has its
 * own position on the canvas. The same `drag_data` position is later the
 * export anchor, so the two are kept apart here.
 */
module Drag {
  datatype Point = Point(x: int, y: int)

  function Add(p: Point, q: Point): Point { Point(p.x + q.x, p.y + q.y) }

  function Sub(p: Point, q: Point): Point { Point(p.x - q.x, p.y - q.y) }

  /** `drag_data` (`pointer`, and `armed` for `item == "watermark"`) and the item's position. */
  datatype DragState = DragState(pointer: Point, armed: bool, item: Point)

  datatype Event = Press(at: Point) | Motion(to: Point) | Release

  /**
   * One event handler. A press arms the drag at the pointer without moving the
   * item; anything else keeps the item's offset from the recorded pointer, and
   * only an armed motion keeps the drag armed.
   */
  function Step(s: DragState, e: Event): (r: DragState)
    ensures r.armed <==> e.Press? || (e.Motion? && s.armed)
    ensures e.Press? ==> r.pointer == e.at && r.item == s.item
    ensures !e.Press? ==> Offset(r) == Offset(s)
  {
    match e
    case Press(p) => s.(pointer := p, armed := true)
    case Motion(p) => if s.armed then DragState(p, true, Add(s.item, Sub(p, s.pointer))) else s
    case Release => s.(armed := false)
  }

  /**
   * The handlers applied in order. The last event decides whether a drag is
   * armed: after a release none is, after a press one is, at the pressed point.
   */
  function Run(s: DragState, events: seq<Event>): (r: DragState)
    ensures events != [] && events[|events| - 1].Release? ==> !r.armed
    ensures events != [] && events[|events| - 1].Press? ==> r.armed && r.pointer == events[|events| - 1].at
    decreases |events|
  {
    if events == [] then s else Run(Step(s, events[0]), events[1..])
  }

  predicate AllMotions(events: seq<Event>) {
    forall i :: 0 <= i < |events| ==> events[i].Motion?
  }

  /** A press stores the pointer and arms; the item does not move. */
  lemma PressArms(s: DragState, p: Point)
    ensures Step(s, Press(p)) == DragState(p, true, s.item)
  {
  }

  /** A motion without an armed press changes nothing. */
  lemma MotionUnarmedIsNoOp(s: DragState, p: Point)
    requires !s.armed
    ensures Step(s, Motion(p)) == s
  {
  }

  /** A release disarms but keeps the last pointer position and the item. */
  lemma ReleaseKeepsPosition(s: DragState)
    ensures Step(s, Release) == DragState(s.pointer, false, s.item)
  {
  }

  /**
   * After an armed drag, a run of motions translates the item by the distance
   * from the pointer before the run to the last motion's position: the
   * per-event deltas telescope.
   */
  lemma {:induction false} NetTranslation(s: DragState, events: seq<Event>)
    requires s.armed && events != [] && AllMotions(events)
    ensures Run(s, events) == DragState(events[|events| - 1].to, true, Add(s.item, Sub(events[|events| - 1].to, s.pointer)))
    decreases |events|
  {
    var s1 := Step(s, events[0]);
    if |events| > 1 {
      NetTranslation(s1, events[1..]);
    }
  }

  /** The offset of the item from the recorded pointer. */
  function Offset(s: DragState): Point { Sub(s.item, s.pointer) }

  /**
   * Motions and releases keep the item's offset from `drag_data`; only a press
   * changes it, to the offset of the item from the pressed point.
   */
  lemma {:induction false} OffsetChangesOnlyOnPress(s: DragState, events: seq<Event>)
    requires forall i :: 0 <= i < |events| ==> !events[i].Press?
    ensures Offset(Run(s, events)) == Offset(s)
    decreases |events|
  {
    if events != [] {
      OffsetChangesOnlyOnPress(Step(s, events[0]), events[1..]);
    }
  }

  /**
   * `drag_data` is the export anchor. Once a press lands away from the item's
   * centre it stops tracking the centre: after any further motions and
   * releases, the anchor is off the item's centre by the same amount.
   */
  lemma {:induction false} AnchorDriftsAfterOffCentrePress(s: DragState, p: Point, events: seq<Event>)
    requires p != s.item
    requires forall i :: 0 <= i < |events| ==> !events[i].Press?
    ensures Run(Step(s, Press(p)), events).pointer != Run(Step(s, Press(p)), events).item
    ensures Offset(Run(Step(s, Press(p)), events)) == Sub(s.item, p)
  {
    OffsetChangesOnlyOnPress(Step(s, Press(p)), events);
  }

  /** The press (100,100), moves to (110,105) and (120,112), release: the item moves by (20,12). */
  lemma DragScenario(item: Point)
    ensures var s := DragState(Point(0, 0), false, item);
      Run(s, [Press(Point(100, 100)), Motion(Point(110, 105)), Motion(Point(120, 112)), Release]).item
        == Point(item.x + 20, item.y + 12)
  {
  }

  /**
   * The drag-related state of a `CanvasView`: `drag_data`, whether a watermark
   * item exists, and that item's position on the canvas.
   */
  class CanvasView {
    var dragX: int
    var dragY: int
    var dragArmed: bool
    var hasWatermark: bool
    var itemX: int
    var itemY: int
    const canvasW: nat
    const canvasH: nat

    function State(): DragState
      reads this
    {
      DragState(Point(dragX, dragY), dragArmed, Point(itemX, itemY))
    }

    /** After the fit, `drag_data` starts at the centre of the preview, unarmed, with no watermark. */
    constructor (previewW: nat, previewH: nat)
      ensures canvasW == previewW && canvasH == previewH
      ensures State().pointer == Point(previewW / 2, previewH / 2) && !dragArmed && !hasWatermark
    {
      canvasW, canvasH := previewW, previewH;
      dragX, dragY := previewW / 2, previewH / 2;
      dragArmed := false;
      hasWatermark := false;
      itemX, itemY := 0, 0;
    }

    method OnWatermarkClick(ex: int, ey: int)
      modifies this
      ensures State() == Step(old(State()), Press(Point(ex, ey)))
      ensures hasWatermark == old(hasWatermark)
    {
      dragX, dragY := ex, ey;
      dragArmed := true;
    }

    method MoveWatermark(ex: int, ey: int)
      modifies this
      ensures State() == Step(old(State()), Motion(Point(ex, ey)))
      ensures hasWatermark == old(hasWatermark)
    {
      if dragArmed {
        var dx := ex - dragX;
        var dy := ey - dragY;
        itemX, itemY := itemX + dx, itemY + dy;
        dragX, dragY := ex, ey;
      }
    }

    method OnWatermarkRelease()
      modifies this
      ensures State() == Step(old(State()), Release)
      ensures hasWatermark == old(hasWatermark)
    {
      dragArmed := false;
    }

    /**
     * The tail of `update_text_image` / `update_image`: an existing watermark keeps
     * its position (only its image is replaced); otherwise one is created at
     * `drag_data`.
     */
    method PlaceWatermark()
      modifies this
      ensures hasWatermark
      ensures old(hasWatermark) ==> itemX == old(itemX) && itemY == old(itemY)
      ensures !old(hasWatermark) ==> itemX == dragX && itemY == dragY
      ensures dragX == old(dragX) && dragY == old(dragY) && dragArmed == old(dragArmed)
    {
      if !hasWatermark {
        itemX, itemY := dragX, dragY;
        hasWatermark := true;
      }
    }

    /**
     * `initiate_text_watermark`: `drag_data` is reset to the centre of the preview
     * (its armed flag is left alone), any watermark is removed, and the new one
     * is created there, so the anchor and the item's centre agree again.
     */
    method InitiateWatermark()
      modifies this
      ensures dragX == canvasW / 2 && dragY == canvasH / 2 && dragArmed == old(dragArmed)
      ensures hasWatermark && itemX == dragX && itemY == dragY
      ensures Offset(State()) == Point(0, 0)
    {
      dragX, dragY := canvasW / 2, canvasH / 2;
      if hasWatermark {
        hasWatermark := false;
      }
      PlaceWatermark();
    }
  }
}
