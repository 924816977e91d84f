/** The GLFW key and cursor callbacks of the two executables: the host
    (src/main.cpp) and the client (src/main_client.cpp). Both record key
    presses in the game's 1024-entry key array and seed the mouse position
    on the first cursor event. Key and action codes are GLFW's public
    constants. */
module InputCallbacks {

  /** Size of `Game::Keys`. */
  const KeyCount: int := 1024

  /** GLFW action codes. */
  const Release: int := 0
  const Press: int := 1
  const Repeat: int := 2

  /** GLFW key codes used by the game. */
  const KeyEscape: int := 256
  const KeyA: int := 65
  const KeyD: int := 68
  const KeyS: int := 83
  const KeyW: int := 87
  const KeyRight: int := 262
  const KeyLeft: int := 263
  const KeyDown: int := 264
  const KeyUp: int := 265

  /** A key array of the game's fixed size. */
  predicate IsKeyArray(keys: seq<bool>) {
    |keys| == KeyCount
  }

  /** The bounds-guarded update both key callbacks perform: inside
      `[0, 1024)` a press sets the key and a release clears it; any other
      action (such as repeat) and any key outside the array change nothing.
      No entry other than `keys[key]` ever changes. */
  function RecordKey(keys: seq<bool>, key: int, action: int): (r: seq<bool>)
    requires IsKeyArray(keys)
    ensures IsKeyArray(r)
    ensures forall i :: 0 <= i < KeyCount && i != key ==> r[i] == keys[i]
    ensures 0 <= key < KeyCount && action == Press ==> r[key]
    ensures 0 <= key < KeyCount && action == Release ==> !r[key]
    ensures !(0 <= key < KeyCount) || (action != Press && action != Release) ==> r == keys
  {
    if 0 <= key < KeyCount then
      if action == Press then keys[key := true]
      else if action == Release then keys[key := false]
      else keys
    else keys
  }

  /** What the host's key callback does: the key update, plus a request to
      close the window on an ESC press. */
  datatype HostKeyEffect = HostKeyEffect(keys: seq<bool>, closeWindow: bool)

  /** The host's `key_callback`: ESC pressed requests window close and is
      also recorded like any other key. */
  function HostKeyEvent(keys: seq<bool>, key: int, action: int): (e: HostKeyEffect)
    requires IsKeyArray(keys)
    ensures e.closeWindow <==> key == KeyEscape && action == Press
    ensures e.keys == RecordKey(keys, key, action)
  {
    HostKeyEffect(RecordKey(keys, key, action), key == KeyEscape && action == Press)
  }

  /** The client's `key_callback`: only the key update; ESC is recorded but
      never closes the window (the client handles it as pause elsewhere). */
  function ClientKeyEvent(keys: seq<bool>, key: int, action: int): (r: seq<bool>)
    requires IsKeyArray(keys)
    ensures r == HostKeyEvent(keys, key, action).keys
    ensures key == KeyEscape && action == Press ==> r[KeyEscape]
  {
    RecordKey(keys, key, action)
  }

  /** A key event as GLFW delivers it. */
  datatype KeyEvent = KeyEvent(key: int, action: int)

  /** The key array after a sequence of events, oldest first. */
  function ApplyKeyEvents(keys: seq<bool>, events: seq<KeyEvent>): (r: seq<bool>)
    requires IsKeyArray(keys)
    ensures IsKeyArray(r)
    decreases |events|
  {
    if |events| == 0 then keys
    else
      var last := events[|events| - 1];
      RecordKey(ApplyKeyEvents(keys, events[..|events| - 1]), last.key, last.action)
  }

  /** The state a key is left in by a sequence of events: that of its most
      recent press or release, or its initial state if it had none. */
  function LastPressOrRelease(events: seq<KeyEvent>, k: int, initial: bool): bool
    decreases |events|
  {
    if |events| == 0 then initial
    else
      var e := events[|events| - 1];
      if e.key == k && e.action == Press then true
      else if e.key == k && e.action == Release then false
      else LastPressOrRelease(events[..|events| - 1], k, initial)
  }

  /** After any sequence of events, each key holds the state of its latest
      press or release; repeats and events for other keys do not matter. */
  lemma {:induction false} KeyStateIsLatestPressOrRelease(keys: seq<bool>, events: seq<KeyEvent>, k: int)
    requires IsKeyArray(keys) && 0 <= k < KeyCount
    ensures ApplyKeyEvents(keys, events)[k] == LastPressOrRelease(events, k, keys[k])
    decreases |events|
  {
    if |events| > 0 {
      KeyStateIsLatestPressOrRelease(keys, events[..|events| - 1], k);
    }
  }

  /** The cursor-callback globals: the `firstMouse` latch and the last
      position. Positions are floats, an abstract type `F` here. */
  datatype MouseState<F> = MouseState(firstMouse: bool, lastX: F, lastY: F)

  /** The state after one cursor event and the offsets handed to the camera. */
  datatype MouseEffect<F> = MouseEffect(state: MouseState<F>, xoffset: F, yoffset: F)

  /** The start-up state: latch set, position at the screen centre. */
  function InitialMouse<F>(centreX: F, centreY: F): (st: MouseState<F>)
    ensures st.firstMouse
  {
    MouseState(true, centreX, centreY)
  }

  /** `mouse_callback` (identical in both executables). The first event
      copies its position into the last position and clears the latch, so
      its offsets are `x - x` and `y - y`; later events measure from the
      previous position (y reversed). Afterwards the last position is the
      event's and the latch is clear. `sub` is float subtraction. */
  function MouseMove<F>(st: MouseState<F>, xpos: F, ypos: F, sub: (F, F) -> F): (e: MouseEffect<F>)
    ensures !e.state.firstMouse
    ensures e.state.lastX == xpos && e.state.lastY == ypos
    ensures st.firstMouse ==> e.xoffset == sub(xpos, xpos) && e.yoffset == sub(ypos, ypos)
    ensures !st.firstMouse ==> e.xoffset == sub(xpos, st.lastX) && e.yoffset == sub(st.lastY, ypos)
  {
    var seeded := if st.firstMouse then MouseState(false, xpos, ypos) else st;
    MouseEffect(MouseState(false, xpos, ypos), sub(xpos, seeded.lastX), sub(seeded.lastY, ypos))
  }

  /** The mouse state after a sequence of cursor positions, oldest first. */
  function ApplyMouseMoves<F>(st: MouseState<F>, moves: seq<(F, F)>, sub: (F, F) -> F): MouseState<F>
    decreases |moves|
  {
    if |moves| == 0 then st
    else
      var last := moves[|moves| - 1];
      MouseMove(ApplyMouseMoves(st, moves[..|moves| - 1], sub), last.0, last.1, sub).state
  }

  /** The latch is set after a sequence of events only if it was set before
      and there were no events: once cleared it is never set again. After
      at least one event the last position is the latest event's. */
  lemma {:induction false} MouseLatchNeverReset<F>(st: MouseState<F>, moves: seq<(F, F)>, sub: (F, F) -> F)
    ensures ApplyMouseMoves(st, moves, sub).firstMouse <==> st.firstMouse && |moves| == 0
    ensures |moves| > 0 ==> ApplyMouseMoves(st, moves, sub).lastX == moves[|moves| - 1].0
    ensures |moves| > 0 ==> ApplyMouseMoves(st, moves, sub).lastY == moves[|moves| - 1].1
  {
    if |moves| > 0 {
      var prev := ApplyMouseMoves(st, moves[..|moves| - 1], sub);
      var last := moves[|moves| - 1];
      assert ApplyMouseMoves(st, moves, sub) == MouseMove(prev, last.0, last.1, sub).state;
    }
  }
}
