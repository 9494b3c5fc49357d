/** What the mouse tracker promises across several events: scroll offsets
    overwrite, end of frame settles, a drag needs a held button, and the
    scenarios a game loop relies on. */
module MouseProperties {
  import opened MouseListener

  /** A second scroll event replaces the first rather than adding to it. */
  lemma ScrollOverwrites(m: MouseState, x1: real, y1: real, x2: real, y2: real)
    ensures MouseScroll(MouseScroll(m, x1, y1), x2, y2) == MouseScroll(m, x2, y2)
  {
  }

  /** Ending a frame twice is ending it once. */
  lemma EndFrameIdempotent(m: MouseState)
    ensures EndFrame(EndFrame(m)) == EndFrame(m)
  {
  }

  /** After the frame ends, the movement a new position reports is the old
      position minus the new one: the reversed sign convention. */
  lemma MoveAfterFrameDelta(m: MouseState, x: real, y: real)
    ensures GetDx(MousePos(EndFrame(m), x, y)) == GetX(m) - x
    ensures GetDy(MousePos(EndFrame(m), x, y)) == GetY(m) - y
  {
  }

  /** A scroll in one frame is gone in the next. */
  lemma ScrollClearedAtFrameEnd(m: MouseState, xOffset: real, yOffset: real)
    ensures GetScrollX(EndFrame(MouseScroll(m, xOffset, yOffset))) == 0.0
    ensures GetScrollY(EndFrame(MouseScroll(m, xOffset, yOffset))) == 0.0
  {
  }

  /** A button index past the array never reads as down, even right after a
      press of that index. */
  lemma OutOfRangeButtonNeverDown(m: MouseState, button: int)
    requires button >= ButtonCount
    ensures !IsMouseButtonDown(m, button)
    ensures !IsMouseButtonDown(MouseButton(m, button, GlfwPress), button)
  {
  }

  /** The getters read back the last two cursor positions: the delta is the
      previous position minus the current one. */
  lemma DeltaIsPreviousMinusCurrent(m: MouseState, x1: real, y1: real, x2: real, y2: real)
    ensures var r := MousePos(MousePos(m, x1, y1), x2, y2);
            GetX(r) == x2 && GetY(r) == y2 && GetDx(r) == x1 - x2 && GetDy(r) == y1 - y2
  {
  }

  /** After a press or release of a button, the button reads as down
      exactly when it was a press of one of the three tracked buttons. */
  lemma ButtonDownReadsLastEvent(m: MouseState, button: int, action: int)
    requires button >= 0 && IsPressOrRelease(action)
    ensures IsMouseButtonDown(MouseButton(m, button, action), button)
        <==> button < ButtonCount && action == GlfwPress
  {
  }

  /** The scroll getters keep reporting the last offsets through cursor and
      button events, until the frame ends. */
  lemma ScrollReadUntilFrameEnd(m: MouseState, xOffset: real, yOffset: real, button: int, action: int, x: real, y: real)
    requires IsPressOrRelease(action) ==> button >= 0
    ensures var r := MousePos(MouseButton(MouseScroll(m, xOffset, yOffset), button, action), x, y);
            GetScrollX(r) == xOffset && GetScrollY(r) == yOffset
            && GetScrollX(EndFrame(r)) == 0.0 && GetScrollY(EndFrame(r)) == 0.0
  {
  }

  /** Pressing a button does not by itself start a drag: the flag waits for
      the next position update. */
  lemma PressAloneDoesNotDrag()
    ensures IsMouseButtonDown(MouseButton(Initial(), 0, GlfwPress), 0)
    ensures !GetIsDragging(MouseButton(Initial(), 0, GlfwPress))
  {
  }

  /** Press a button, move, and the mouse is dragging; release that button
      and the drag stops. */
  lemma PressMoveRelease(m: MouseState, button: nat, x: real, y: real)
    requires button < ButtonCount
    ensures GetIsDragging(MousePos(MouseButton(m, button, GlfwPress), x, y))
    ensures !GetIsDragging(MouseButton(MousePos(MouseButton(m, button, GlfwPress), x, y), button, GlfwRelease))
  {
    assert IsMouseButtonDown(MouseButton(m, button, GlfwPress), button);
  }

  /** Releasing one button ends the drag even while another is still held. */
  lemma ReleaseEndsDragDespiteOtherButton(m: MouseState, x: real, y: real)
    requires IsMouseButtonDown(m, 0) && IsMouseButtonDown(m, 1)
    ensures GetIsDragging(MousePos(m, x, y))
    ensures IsMouseButtonDown(MouseButton(MousePos(m, x, y), 0, GlfwRelease), 1)
    ensures !GetIsDragging(MouseButton(MousePos(m, x, y), 0, GlfwRelease))
  {
  }

  /** The callbacks and the frame boundary, as one event type. */
  datatype MouseEvent =
    | CursorMoved(x: real, y: real)
    | ButtonEvent(button: int, action: int)
    | Scrolled(xOffset: real, yOffset: real)
    | FrameEnded

  /** An event the windowing library can deliver: press and release name a
      button index that is not negative. */
  predicate Deliverable(e: MouseEvent) {
    e.ButtonEvent? && IsPressOrRelease(e.action) ==> e.button >= 0
  }

  function Apply(m: MouseState, e: MouseEvent): MouseState
    requires Deliverable(e)
  {
    match e
    case CursorMoved(x, y) => MousePos(m, x, y)
    case ButtonEvent(button, action) => MouseButton(m, button, action)
    case Scrolled(dx, dy) => MouseScroll(m, dx, dy)
    case FrameEnded => EndFrame(m)
  }

  /** The state after a sequence of events. */
  function Run(m: MouseState, events: seq<MouseEvent>): MouseState
    requires forall i :: 0 <= i < |events| ==> Deliverable(events[i])
    decreases |events|
  {
    if events == [] then m else Run(Apply(m, events[0]), events[1..])
  }

  /** The tracker only reports a drag while some button is held. */
  ghost predicate DragNeedsButton(m: MouseState) {
    GetIsDragging(m) ==> AnyButtonDown(m)
  }

  /** Every event keeps that invariant. */
  lemma ApplyKeepsDragNeedsButton(m: MouseState, e: MouseEvent)
    requires Deliverable(e) && DragNeedsButton(m)
    ensures DragNeedsButton(Apply(m, e))
  {
    var r := Apply(m, e);
    if GetIsDragging(r) {
      var b :| 0 <= b && IsMouseButtonDown(m, b);
      if e.ButtonEvent? && IsPressOrRelease(e.action) && e.button < ButtonCount && e.button != b {
        assert IsMouseButtonDown(r, b);
      } else if e.ButtonEvent? && e.action == GlfwPress && e.button < ButtonCount {
        assert IsMouseButtonDown(r, e.button);
      } else {
        assert IsMouseButtonDown(r, b);
      }
    }
  }

  /** The invariant holds after any run of events. */
  lemma {:induction false} RunKeepsDragNeedsButton(m: MouseState, events: seq<MouseEvent>)
    requires forall i :: 0 <= i < |events| ==> Deliverable(events[i])
    requires DragNeedsButton(m)
    ensures DragNeedsButton(Run(m, events))
    decreases |events|
  {
    if events != [] {
      ApplyKeepsDragNeedsButton(m, events[0]);
      RunKeepsDragNeedsButton(Apply(m, events[0]), events[1..]);
    }
  }

  /** From the initial state, no run of events shows a drag without a held
      button. */
  lemma ReachableDragNeedsButton(events: seq<MouseEvent>)
    requires forall i :: 0 <= i < |events| ==> Deliverable(events[i])
    ensures GetIsDragging(Run(Initial(), events)) ==> AnyButtonDown(Run(Initial(), events))
  {
    RunKeepsDragNeedsButton(Initial(), events);
  }
}
