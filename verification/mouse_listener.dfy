/** The mouse input tracker: the current and previous cursor position, the
    scroll offsets of the current frame, three button flags and a drag flag,
    driven by the windowing library's callbacks and by the end of each frame.
    The process-wide singleton is an explicit state value here, and every
    callback is a function from the old state to the new one. */
module MouseListener {

  /** Length of the button array. */
  const ButtonCount: nat := 3

  /** GLFW's action codes for a button event. */
  const GlfwRelease: int := 0
  const GlfwPress: int := 1

  type ButtonArray = b: seq<bool> | |b| == ButtonCount witness [false, false, false]

  datatype MouseState = MouseState(
    scrollX: real, scrollY: real,
    xPos: real, yPos: real,
    lastX: real, lastY: real,
    mouseButtonPressed: ButtonArray,
    isDragging: bool)

  function GetX(m: MouseState): real {
    m.xPos
  }

  function GetY(m: MouseState): real {
    m.yPos
  }

  /** Movement as previous minus current, where the previous position is the
      one before the latest cursor callback or endFrame, whichever came last. */
  function GetDx(m: MouseState): real {
    m.lastX - m.xPos
  }

  function GetDy(m: MouseState): real {
    m.lastY - m.yPos
  }

  function GetScrollX(m: MouseState): real {
    m.scrollX
  }

  function GetScrollY(m: MouseState): real {
    m.scrollY
  }

  function GetIsDragging(m: MouseState): bool {
    m.isDragging
  }

  /** Indices past the array read as released; a negative index would throw
      in Java, so it is excluded. */
  function IsMouseButtonDown(m: MouseState, button: int): (r: bool)
    requires button >= 0
    ensures r ==> button < ButtonCount
  {
    if button >= ButtonCount then false else m.mouseButtonPressed[button]
  }

  /** Some button is held, as the getters report it. */
  ghost predicate AnyButtonDown(m: MouseState) {
    exists b :: 0 <= b && IsMouseButtonDown(m, b)
  }

  /** The two states report the same buttons. */
  ghost predicate SameButtons(a: MouseState, b: MouseState) {
    forall k :: 0 <= k ==> IsMouseButtonDown(a, k) == IsMouseButtonDown(b, k)
  }

  /** The two states report the same position and movement. */
  predicate SamePosition(a: MouseState, b: MouseState) {
    GetX(a) == GetX(b) && GetY(a) == GetY(b) && GetDx(a) == GetDx(b) && GetDy(a) == GetDy(b)
  }

  predicate SameScroll(a: MouseState, b: MouseState) {
    GetScrollX(a) == GetScrollX(b) && GetScrollY(a) == GetScrollY(b)
  }

  /** The private constructor (the array starts as `new boolean[3]`, all
      false): every getter reads zero, no button is down and the mouse is not
      dragging. */
  function Initial(): (m: MouseState)
    ensures GetX(m) == 0.0 && GetY(m) == 0.0 && GetDx(m) == 0.0 && GetDy(m) == 0.0
    ensures GetScrollX(m) == 0.0 && GetScrollY(m) == 0.0
    ensures !AnyButtonDown(m) && !GetIsDragging(m)
  {
    MouseState(0.0, 0.0, 0.0, 0.0, 0.0, 0.0, seq(ButtonCount, _ => false), false)
  }

  /** mousePosCallback: the current position becomes the previous one, the new
      position becomes current, and dragging is recomputed from the buttons. */
  function MousePos(m: MouseState, x: real, y: real): (r: MouseState)
    ensures GetX(r) == x && GetY(r) == y
    ensures GetDx(r) == GetX(m) - x && GetDy(r) == GetY(m) - y
    ensures GetIsDragging(r) <==> AnyButtonDown(m)
    ensures SameButtons(r, m) && SameScroll(r, m)
  {
    var held := m.mouseButtonPressed[0] || m.mouseButtonPressed[1] || m.mouseButtonPressed[2];
    assert held ==> IsMouseButtonDown(m, 0) || IsMouseButtonDown(m, 1) || IsMouseButtonDown(m, 2);
    m.(lastX := m.xPos, lastY := m.yPos, xPos := x, yPos := y, isDragging := held)
  }

  /** The button events that touch the array; `mods` and `window` are unused
      by the callback and left out. */
  predicate IsPressOrRelease(action: int) {
    action == GlfwPress || action == GlfwRelease
  }

  /** mouseButtonCallback: a press sets the flag, a release clears it and
      stops dragging; an index past the array or any other action is
      ignored. */
  function MouseButton(m: MouseState, button: int, action: int): (r: MouseState)
    requires IsPressOrRelease(action) ==> button >= 0
    ensures button >= ButtonCount || !IsPressOrRelease(action) ==> r == m
    ensures action == GlfwPress && button < ButtonCount ==>
      IsMouseButtonDown(r, button) && GetIsDragging(r) == GetIsDragging(m)
    ensures action == GlfwRelease && button < ButtonCount ==>
      !IsMouseButtonDown(r, button) && !GetIsDragging(r)
    ensures forall k :: 0 <= k && k != button ==> IsMouseButtonDown(r, k) == IsMouseButtonDown(m, k)
    ensures SamePosition(r, m) && SameScroll(r, m)
  {
    if action == GlfwPress then
      if button >= ButtonCount then m
      else m.(mouseButtonPressed := m.mouseButtonPressed[button := true])
    else if action == GlfwRelease then
      if button >= ButtonCount then m
      else m.(mouseButtonPressed := m.mouseButtonPressed[button := false], isDragging := false)
    else m
  }

  /** mouseScrollCallback: the offsets replace the previous ones. */
  function MouseScroll(m: MouseState, xOffset: real, yOffset: real): (r: MouseState)
    ensures GetScrollX(r) == xOffset && GetScrollY(r) == yOffset
    ensures SamePosition(r, m) && SameButtons(r, m) && GetIsDragging(r) == GetIsDragging(m)
  {
    m.(scrollX := xOffset, scrollY := yOffset)
  }

  /** endFrame: scroll back to zero and the previous position caught up with
      the current one, so the movement reads zero. */
  function EndFrame(m: MouseState): (r: MouseState)
    ensures GetScrollX(r) == 0.0 && GetScrollY(r) == 0.0
    ensures GetDx(r) == 0.0 && GetDy(r) == 0.0
    ensures GetX(r) == GetX(m) && GetY(r) == GetY(m)
    ensures SameButtons(r, m) && GetIsDragging(r) == GetIsDragging(m)
  {
    m.(scrollX := 0.0, scrollY := 0.0, lastY := m.yPos, lastX := m.xPos)
  }
}
