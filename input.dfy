/**
 * The window's input callbacks as a state machine over the viewer's
 * camera state: zoom, rotation, the last cursor position, whether the
 * cursor is captured for dragging, and whether the window should close.
 * Float arithmetic is modelled over reals.
 */
module Input {

  /** Event codes of the windowing library. */
  const GLFW_RELEASE := 0
  const GLFW_PRESS := 1
  const GLFW_KEY_ESCAPE := 256
  const GLFW_MOUSE_BUTTON_LEFT := 0

  datatype Vec2 = Vec2(x: real, y: real)

  /**
   * `dragging` stands for the cursor being in the disabled (captured) mode;
   * `shouldClose` for the window's close flag.
   */
  datatype ViewState = ViewState(zoom: real, rotation: Vec2, cursor: Vec2, dragging: bool, shouldClose: bool)

  /** Zoom 40, no rotation, cursor globals zero, normal cursor, window open. */
  const INITIAL := ViewState(40.0, Vec2(0.0, 0.0), Vec2(0.0, 0.0), false, false)

  predicate IsEscapePress(key: int, action: int)
  {
    key == GLFW_KEY_ESCAPE && action == GLFW_PRESS
  }

  /** Key events: only pressing Escape does anything, and it asks the window to close. */
  function OnKey(s: ViewState, key: int, action: int): (t: ViewState)
    ensures t.shouldClose <==> s.shouldClose || IsEscapePress(key, action)
    ensures t.(shouldClose := s.shouldClose) == s
  {
    if IsEscapePress(key, action) then s.(shouldClose := true) else s
  }

  /**
   * Mouse button events: buttons other than the left one are ignored; a
   * left press captures the cursor and records where it is; any other left
   * action releases it.
   */
  function OnMouseButton(s: ViewState, button: int, action: int, position: Vec2): (t: ViewState)
    ensures button != GLFW_MOUSE_BUTTON_LEFT ==> t == s
    ensures button == GLFW_MOUSE_BUTTON_LEFT ==> (t.dragging <==> action == GLFW_PRESS)
    ensures t.cursor == if button == GLFW_MOUSE_BUTTON_LEFT && action == GLFW_PRESS then position else s.cursor
    ensures t.zoom == s.zoom && t.rotation == s.rotation && t.shouldClose == s.shouldClose
  {
    if button != GLFW_MOUSE_BUTTON_LEFT then s
    else if action == GLFW_PRESS then s.(dragging := true, cursor := position)
    else s.(dragging := false)
  }

  /**
   * Cursor motion: only while dragging, the rotation moves by a tenth of
   * the cursor's displacement since the last recorded position, and the
   * new position is recorded.
   */
  function OnCursorPos(s: ViewState, x: real, y: real): (t: ViewState)
    ensures !s.dragging ==> t == s
    ensures s.dragging ==> t.cursor == Vec2(x, y)
    ensures s.dragging ==> t.rotation.x - s.rotation.x == (x - s.cursor.x) / 10.0
    ensures s.dragging ==> t.rotation.y - s.rotation.y == (y - s.cursor.y) / 10.0
    ensures t.zoom == s.zoom && t.dragging == s.dragging && t.shouldClose == s.shouldClose
  {
    if s.dragging then
      s.(rotation := Vec2(s.rotation.x + (x - s.cursor.x) / 10.0, s.rotation.y + (y - s.cursor.y) / 10.0),
         cursor := Vec2(x, y))
    else s
  }

  /** Scroll events: the vertical offset moves zoom by a quarter, never below zero. */
  function OnScroll(s: ViewState, x: real, y: real): (t: ViewState)
    ensures t.zoom >= 0.0
    ensures s.zoom + y / 4.0 >= 0.0 ==> t.zoom == s.zoom + y / 4.0
    ensures s.zoom + y / 4.0 < 0.0 ==> t.zoom == 0.0
    ensures t.(zoom := s.zoom) == s
  {
    var z := s.zoom + y / 4.0;
    s.(zoom := if z < 0.0 then 0.0 else z)
  }

  /** The events the windowing library delivers to the callbacks. */
  datatype Event =
    | Key(key: int, action: int)
    | MouseButton(button: int, action: int, position: Vec2)
    | CursorPos(x: real, y: real)
    | Scroll(dx: real, dy: real)

  function Handle(s: ViewState, e: Event): ViewState
  {
    match e
    case Key(key, action) => OnKey(s, key, action)
    case MouseButton(button, action, position) => OnMouseButton(s, button, action, position)
    case CursorPos(x, y) => OnCursorPos(s, x, y)
    case Scroll(dx, dy) => OnScroll(s, dx, dy)
  }

  /** The state after the callbacks have run for each event in turn. */
  function Run(s: ViewState, events: seq<Event>): ViewState
    decreases |events|
  {
    if events == [] then s else Run(Handle(s, events[0]), events[1..])
  }

  predicate IsEscapeEvent(e: Event)
  {
    e.Key? && IsEscapePress(e.key, e.action)
  }

  predicate IsLeftPress(e: Event)
  {
    e.MouseButton? && e.button == GLFW_MOUSE_BUTTON_LEFT && e.action == GLFW_PRESS
  }

  /** Zoom that starts non-negative stays non-negative whatever arrives. */
  lemma {:induction false} ZoomStaysNonNegative(s: ViewState, events: seq<Event>)
    requires s.zoom >= 0.0
    ensures Run(s, events).zoom >= 0.0
    decreases |events|
  {
    if events != [] {
      ZoomStaysNonNegative(Handle(s, events[0]), events[1..]);
    }
  }

  /** From the initial state, no sequence of events makes zoom negative. */
  lemma ZoomNeverNegative(events: seq<Event>)
    ensures Run(INITIAL, events).zoom >= 0.0
  {
    ZoomStaysNonNegative(INITIAL, events);
  }

  /** The window is asked to close exactly when it already was or some event is an Escape press. */
  lemma {:induction false} CloseOnlyOnEscape(s: ViewState, events: seq<Event>)
    ensures Run(s, events).shouldClose <==>
              s.shouldClose || exists k :: 0 <= k < |events| && IsEscapeEvent(events[k])
    decreases |events|
  {
    if events != [] {
      var rest := events[1..];
      CloseOnlyOnEscape(Handle(s, events[0]), rest);
      assert forall k :: 0 <= k < |rest| ==> rest[k] == events[k + 1];
      if exists k :: 0 <= k < |events| && IsEscapeEvent(events[k]) {
        var k :| 0 <= k < |events| && IsEscapeEvent(events[k]);
        if k > 0 {
          assert IsEscapeEvent(rest[k - 1]);
        }
      }
    }
  }

  /**
   * Without a left-button press, a viewer that is not dragging keeps its
   * rotation and recorded cursor and stays out of drag mode.
   */
  lemma {:induction false} NoPressNoRotation(s: ViewState, events: seq<Event>)
    requires !s.dragging
    requires forall k :: 0 <= k < |events| ==> !IsLeftPress(events[k])
    ensures Run(s, events).rotation == s.rotation
    ensures Run(s, events).cursor == s.cursor
    ensures !Run(s, events).dragging
    decreases |events|
  {
    if events != [] {
      var t := Handle(s, events[0]);
      assert !IsLeftPress(events[0]);
      assert t.rotation == s.rotation && t.cursor == s.cursor && !t.dragging;
      NoPressNoRotation(t, events[1..]);
    }
  }

  /** Without a scroll event the zoom does not change. */
  lemma {:induction false} NoScrollNoZoom(s: ViewState, events: seq<Event>)
    requires forall k :: 0 <= k < |events| ==> !events[k].Scroll?
    ensures Run(s, events).zoom == s.zoom
    decreases |events|
  {
    if events != [] {
      assert !events[0].Scroll?;
      NoScrollNoZoom(Handle(s, events[0]), events[1..]);
    }
  }

  function CursorMoves(points: seq<Vec2>): (r: seq<Event>)
    ensures |r| == |points|
    ensures forall k :: 0 <= k < |points| ==> r[k] == CursorPos(points[k].x, points[k].y)
  {
    seq(|points|, k requires 0 <= k < |points| => CursorPos(points[k].x, points[k].y))
  }

  /**
   * A drag accumulates: moving the cursor through a sequence of points adds
   * a tenth of the displacement from the recorded position to the last point.
   */
  lemma {:induction false} DragAccumulates(s: ViewState, points: seq<Vec2>)
    requires s.dragging && points != []
    ensures var t := Run(s, CursorMoves(points));
      && t.rotation.x == s.rotation.x + (points[|points| - 1].x - s.cursor.x) / 10.0
      && t.rotation.y == s.rotation.y + (points[|points| - 1].y - s.cursor.y) / 10.0
      && t.cursor == points[|points| - 1]
      && t.dragging && t.zoom == s.zoom
    decreases |points|
  {
    var t := Handle(s, CursorMoves(points)[0]);
    assert CursorMoves(points)[1..] == CursorMoves(points[1..]);
    if |points| > 1 {
      DragAccumulates(t, points[1..]);
    }
  }

  /** The callbacks' shared state: what the callbacks read and write. */
  class Viewer {
    var zoom: real
    var rotation: Vec2
    var cursor: Vec2
    var dragging: bool
    var shouldClose: bool

    function State(): ViewState
      reads this
    {
      ViewState(zoom, rotation, cursor, dragging, shouldClose)
    }

    constructor ()
      ensures State() == INITIAL
    {
      zoom, rotation, cursor := 40.0, Vec2(0.0, 0.0), Vec2(0.0, 0.0);
      dragging, shouldClose := false, false;
    }

    method KeyCallback(key: int, action: int)
      modifies this
      ensures State() == OnKey(old(State()), key, action)
    {
      if key == GLFW_KEY_ESCAPE && action == GLFW_PRESS {
        shouldClose := true;
      }
    }

    /** `position` is what the cursor query returns at the time of the press. */
    method MouseButtonCallback(button: int, action: int, position: Vec2)
      modifies this
      ensures State() == OnMouseButton(old(State()), button, action, position)
    {
      if button != GLFW_MOUSE_BUTTON_LEFT {
        return;
      }
      if action == GLFW_PRESS {
        dragging := true;
        cursor := position;
      } else {
        dragging := false;
      }
    }

    method CursorPositionCallback(x: real, y: real)
      modifies this
      ensures State() == OnCursorPos(old(State()), x, y)
    {
      if dragging {
        rotation := Vec2(rotation.x + (x - cursor.x) / 10.0, rotation.y + (y - cursor.y) / 10.0);
        cursor := Vec2(x, y);
      }
    }

    method ScrollCallback(x: real, y: real)
      modifies this
      ensures State() == OnScroll(old(State()), x, y)
      ensures zoom >= 0.0
    {
      zoom := zoom + y / 4.0;
      if zoom < 0.0 {
        zoom := 0.0;
      }
    }
  }
}
