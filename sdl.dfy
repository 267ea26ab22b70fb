/**
 * The part of SDL (1.2 and 2.0) that the input layer talks to: the raw
 * events, the numeric constants the input code tests, and the library's
 * shared event queue together with the cursor, cursor-visibility and
 * input-grab state that the input code reads and changes.
 */
module Sdl {

  /** Which SDL generation the code is built against (the SDL12 / SDL20 blocks). */
  datatype Version = Sdl12 | Sdl20

  /**
   * SDL_Event, restricted to the event types the input layer looks at.
   * TextInput carries the UTF-32 value of its text: the UTF-8 decoding of
   * convUTF8ToUTF32 is not part of this model.
   */
  datatype RawEvent =
    | KeyDown(sym: int, mod: bv16, unicode: bv16, repeat: int)
    | KeyUp(sym: int, mod: bv16, unicode: bv16, repeat: int)
    | TextEditing
    | TextInput(text: int)
    | MouseMotion(x: int, y: int, xrel: int, yrel: int)
    | MouseButtonDown(button: int)
    | MouseButtonUp(button: int)
    | MouseWheel(wheelY: int, flipped: bool)
    | JoyAxisMotion(which: int, axis: int, value: int)
    | JoyBallMotion(which: int)
    | JoyHatMotion(which: int, hat: int, hatValue: bv8)
    | JoyButtonDown(which: int, button: int)
    | JoyButtonUp(which: int, button: int)
    | Quit
    | VideoResize(w: int, h: int)
    | VideoExpose
    | ActiveEvent
    | SysWm

  /**
   * What the input code asks the video layer: whether the game window has
   * focus (I_GetWindow()->isFocused()) and the video mode's size
   * (I_GetVideoWidth / I_GetVideoHeight).
   */
  datatype Window = Window(focused: bool, width: nat, height: nat)

  // Keyboard modifier bits (identical in SDL 1.2 and SDL 2.0).
  const KMOD_LSHIFT: bv16 := 0x0001
  const KMOD_RSHIFT: bv16 := 0x0002
  const KMOD_LALT: bv16 := 0x0100
  const KMOD_RALT: bv16 := 0x0200
  const KMOD_CAPS: bv16 := 0x2000

  predicate AltHeld(mod: bv16) { mod & (KMOD_LALT | KMOD_RALT) != 0 }
  predicate ShiftHeld(mod: bv16) { mod & (KMOD_LSHIFT | KMOD_RSHIFT) != 0 }
  predicate CapsLock(mod: bv16) { mod & KMOD_CAPS != 0 }

  // Joystick hat direction bits.
  const HAT_CENTERED: bv8 := 0
  const HAT_UP: bv8 := 1
  const HAT_RIGHT: bv8 := 2
  const HAT_DOWN: bv8 := 4
  const HAT_LEFT: bv8 := 8

  // Key symbols.
  const SDLK_TAB: int := 9
  /** SDLK_F4 differs between the generations (SDL 2.0 keycodes carry bit 30). */
  function SdlkF4(v: Version): int
  {
    if v == Sdl12 then 285 else 0x4000_003D
  }
  // SDL 1.2 keypad symbols, used by the legacy path only.
  const SDLK_KP0: int := 256
  const SDLK_KP9: int := 265
  const SDLK_KP_PERIOD: int := 266
  const SDLK_KP_DIVIDE: int := 267
  const SDLK_KP_ENTER: int := 271

  // Mouse buttons. The first three agree; SDL 1.2 numbers the wheel 4 and 5
  // and the extra buttons 6 and 7, SDL 2.0 numbers the extra buttons 4 and 5.
  const BUTTON_LEFT: int := 1
  const BUTTON_MIDDLE: int := 2
  const BUTTON_RIGHT: int := 3
  const BUTTON_WHEELUP_12: int := 4
  const BUTTON_WHEELDOWN_12: int := 5
  function ButtonX1(v: Version): int { if v == Sdl12 then 6 else 4 }
  function ButtonX2(v: Version): int { if v == Sdl12 then 7 else 5 }

  // SDL 1.2 key repeat defaults, in milliseconds.
  const REPEAT_DELAY: int := 500
  const REPEAT_INTERVAL: int := 30

  /**
   * The sets of event types the input code asks SDL_PeepEvents for: an SDL 1.2
   * event mask or an SDL 2.0 type range.
   */
  datatype EventClass =
    | KeyboardClass(v: Version)  // SDL_KEYEVENTMASK / SDL_KEYDOWN..SDL_TEXTINPUT
    | MouseClass(v: Version)     // SDL_MOUSEEVENTMASK / SDL_MOUSEMOTION..SDL_MOUSEWHEEL
    | MotionClass                // SDL_MOUSEMOTIONMASK
    | JoystickClass              // SDL_JOYEVENTMASK / SDL_JOYAXISMOTION..SDL_JOYBUTTONUP
    | LegacyClass                // the mask of I_GetEvent

  predicate InClass(c: EventClass, e: RawEvent)
  {
    match c
    case KeyboardClass(v) =>
      e.KeyDown? || e.KeyUp? || (v == Sdl20 && (e.TextEditing? || e.TextInput?))
    case MouseClass(v) =>
      e.MouseMotion? || e.MouseButtonDown? || e.MouseButtonUp? || (v == Sdl20 && e.MouseWheel?)
    case MotionClass => e.MouseMotion?
    case JoystickClass =>
      e.JoyAxisMotion? || e.JoyBallMotion? || e.JoyHatMotion? || e.JoyButtonDown? || e.JoyButtonUp?
    case LegacyClass =>
      e.KeyDown? || e.KeyUp? || e.JoyAxisMotion? || e.JoyBallMotion? || e.JoyHatMotion? ||
      e.JoyButtonDown? || e.JoyButtonUp? || e.VideoResize? || e.VideoExpose? || e.Quit? || e.SysWm?
  }

  /** The events of class c, in queue order. */
  function Select(s: seq<RawEvent>, c: EventClass): (r: seq<RawEvent>)
    ensures |r| <= |s|
    ensures forall e :: e in r ==> e in s && InClass(c, e)
  {
    if s == [] then []
    else (if InClass(c, s[0]) then [s[0]] else []) + Select(s[1..], c)
  }

  /** The events not of class c, in queue order. */
  function Reject(s: seq<RawEvent>, c: EventClass): (r: seq<RawEvent>)
    ensures |r| <= |s|
    ensures forall e :: e in r ==> e in s && !InClass(c, e)
  {
    if s == [] then []
    else (if InClass(c, s[0]) then [] else [s[0]]) + Reject(s[1..], c)
  }

  /** Every event goes to exactly one side of the split. */
  lemma {:induction false} SelectRejectSizes(s: seq<RawEvent>, c: EventClass)
    ensures |Select(s, c)| + |Reject(s, c)| == |s|
  {
    if s != [] {
      SelectRejectSizes(s[1..], c);
    }
  }

  lemma {:induction false} SelectAppend(a: seq<RawEvent>, b: seq<RawEvent>, c: EventClass)
    ensures Select(a + b, c) == Select(a, c) + Select(b, c)
  {
    if a == [] {
      assert a + b == b;
    } else {
      assert (a + b)[1..] == a[1..] + b;
      SelectAppend(a[1..], b, c);
    }
  }

  lemma {:induction false} RejectAppend(a: seq<RawEvent>, b: seq<RawEvent>, c: EventClass)
    ensures Reject(a + b, c) == Reject(a, c) + Reject(b, c)
  {
    if a == [] {
      assert a + b == b;
    } else {
      assert (a + b)[1..] == a[1..] + b;
      RejectAppend(a[1..], b, c);
    }
  }

  /** Nothing of class c is left once the class has been taken out. */
  lemma {:induction false} SelectOfReject(s: seq<RawEvent>, c: EventClass)
    ensures Select(Reject(s, c), c) == []
    ensures Reject(Reject(s, c), c) == Reject(s, c)
  {
    if s != [] {
      SelectOfReject(s[1..], c);
      if !InClass(c, s[0]) {
        var r := Reject(s, c);
        assert r == [s[0]] + Reject(s[1..], c);
        assert r[1..] == Reject(s[1..], c);
        assert Select(r, c) == Select(r[1..], c);
        assert Reject(r, c) == [s[0]] + Reject(r[1..], c);
      } else {
        assert Reject(s, c) == Reject(s[1..], c);
      }
    }
  }

  /**
   * One SDL_PeepEvents(..., n, SDL_GETEVENT, class) call: the first n events
   * of the class, in order.
   */
  function TakenFirst(s: seq<RawEvent>, c: EventClass, n: nat): (r: seq<RawEvent>)
    ensures |r| <= n
  {
    if s == [] || n == 0 then []
    else if InClass(c, s[0]) then [s[0]] + TakenFirst(s[1..], c, n - 1)
    else TakenFirst(s[1..], c, n)
  }

  /** What such a call leaves in the queue. */
  function LeftAfter(s: seq<RawEvent>, c: EventClass, n: nat): seq<RawEvent>
  {
    if s == [] || n == 0 then s
    else if InClass(c, s[0]) then LeftAfter(s[1..], c, n - 1)
    else [s[0]] + LeftAfter(s[1..], c, n)
  }

  /** A bounded take is the first n events of the unbounded one. */
  lemma {:induction false} TakenFirstIsPrefix(s: seq<RawEvent>, c: EventClass, n: nat)
    ensures n <= |Select(s, c)| ==> TakenFirst(s, c, n) == Select(s, c)[..n]
    ensures n >= |Select(s, c)| ==> TakenFirst(s, c, n) == Select(s, c)
  {
    if s != [] && n != 0 {
      if InClass(c, s[0]) {
        TakenFirstIsPrefix(s[1..], c, n - 1);
        assert TakenFirst(s, c, n) == [s[0]] + TakenFirst(s[1..], c, n - 1);
        assert Select(s, c) == [s[0]] + Select(s[1..], c);
      } else {
        TakenFirstIsPrefix(s[1..], c, n);
        assert Select(s, c) == Select(s[1..], c);
      }
    }
  }

  /** A bound that covers every event of the class leaves only the other events. */
  lemma {:induction false} LeftAfterCovering(s: seq<RawEvent>, c: EventClass, n: nat)
    requires n >= |Select(s, c)|
    ensures LeftAfter(s, c, n) == Reject(s, c)
  {
    if s != [] && n != 0 {
      if InClass(c, s[0]) {
        assert Select(s, c) == [s[0]] + Select(s[1..], c);
        LeftAfterCovering(s[1..], c, n - 1);
      } else {
        assert Select(s, c) == Select(s[1..], c);
        LeftAfterCovering(s[1..], c, n);
      }
    } else if s != [] {
      NoneSelected(s, c);
    }
  }

  lemma {:induction false} NoneSelected(s: seq<RawEvent>, c: EventClass)
    requires Select(s, c) == []
    ensures Reject(s, c) == s
  {
    if s != [] {
      assert !InClass(c, s[0]);
      NoneSelected(s[1..], c);
    }
  }

  /**
   * SDL's own state as the input layer sees it: the pending event queue, the
   * cursor position (SDL_GetMouseState), the cursor visibility
   * (SDL_ShowCursor) and the input grab (SDL_WM_GrabInput in SDL 1.2,
   * relative mouse mode in SDL 2.0).
   */
  class Backend {
    var pending: seq<RawEvent>
    var cursorX: int
    var cursorY: int
    var cursorShown: bool
    var grabbed: bool

    constructor (initial: seq<RawEvent>, x: int, y: int)
      ensures pending == initial && cursorX == x && cursorY == y
      ensures cursorShown && !grabbed
    {
      pending := initial;
      cursorX, cursorY := x, y;
      cursorShown := true;
      grabbed := false;
    }

    /** SDL_PeepEvents with SDL_GETEVENT, repeated until none of the class is left. */
    method Take(c: EventClass) returns (taken: seq<RawEvent>)
      modifies this`pending
      ensures taken == Select(old(pending), c)
      ensures pending == Reject(old(pending), c)
    {
      taken := Select(pending, c);
      pending := Reject(pending, c);
    }

    /** A single SDL_PeepEvents call with SDL_GETEVENT and room for n events. */
    method TakeAtMost(c: EventClass, n: nat) returns (taken: seq<RawEvent>)
      modifies this`pending
      ensures taken == TakenFirst(old(pending), c, n)
      ensures pending == LeftAfter(old(pending), c, n)
    {
      taken := TakenFirst(pending, c, n);
      pending := LeftAfter(pending, c, n);
    }

    /** SDL_PushEvent: appends at the tail of the queue. */
    method Push(e: RawEvent)
      modifies this`pending
      ensures pending == old(pending) + [e]
    {
      pending := pending + [e];
    }

    /** The SDL_PollEvent loop of I_FlushInput: discards everything pending. */
    method Drain()
      modifies this`pending
      ensures pending == []
    {
      pending := [];
    }

    /**
     * SDL_WarpMouse / SDL_WarpMouseInWindow: moves the cursor and queues the
     * motion event that the move produces, whose relative part is the
     * distance from the previous position.
     */
    method Warp(x: int, y: int)
      modifies this`pending, this`cursorX, this`cursorY
      ensures pending == old(pending) + [WarpEcho(x, y, old(cursorX), old(cursorY))]
      ensures cursorX == x && cursorY == y
    {
      pending := pending + [WarpEcho(x, y, cursorX, cursorY)];
      cursorX, cursorY := x, y;
    }

    method ShowCursor(show: bool)
      modifies this`cursorShown
      ensures cursorShown == show
    {
      cursorShown := show;
    }

    method SetGrab(on: bool)
      modifies this`grabbed
      ensures grabbed == on
    {
      grabbed := on;
    }
  }

  /** The motion event a warp to (x, y) from (prevX, prevY) queues. */
  function WarpEcho(x: int, y: int, prevX: int, prevY: int): RawEvent
  {
    MouseMotion(x, y, x - prevX, y - prevY)
  }
}
