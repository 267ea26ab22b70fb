/**
 * The SDL mouse device (ISDL12MouseInputDevice / ISDL20MouseInputDevice):
 * it moves SDL's mouse events into its own queue as engine events and keeps
 * the cursor at the centre of the window, removing the motion event that
 * the re-centring warp itself produces.
 */
module Mouse {
  import opened Sdl
  import opened Events

  /** The engine key of a mouse button; 0 for a button the version does not name. */
  function ButtonKey(v: Version, button: int): (k: int)
    ensures k == 0 <==> !MappedButton(v, button)
  {
    if button == BUTTON_LEFT then KEY_MOUSE1
    else if button == BUTTON_RIGHT then KEY_MOUSE2
    else if button == BUTTON_MIDDLE then KEY_MOUSE3
    else if button == ButtonX1(v) then KEY_MOUSE4
    else if button == ButtonX2(v) then KEY_MOUSE5
    else if v == Sdl12 && button == BUTTON_WHEELUP_12 then KEY_MWHEELUP
    else if v == Sdl12 && button == BUTTON_WHEELDOWN_12 then KEY_MWHEELDOWN
    else 0
  }

  /** SDL 1.2 names buttons 1 to 7 (4 and 5 are the wheel), SDL 2.0 buttons 1 to 5. */
  predicate MappedButton(v: Version, button: int)
  {
    if v == Sdl12 then 1 <= button <= 7 else 1 <= button <= 5
  }

  /** Two different buttons never share an engine key. */
  lemma ButtonKeyInjective(v: Version, a: int, b: int)
    requires ButtonKey(v, a) == ButtonKey(v, b) != 0
    ensures a == b
  {
  }

  /**
   * The engine event for one fetched mouse event: motion gives its relative
   * movement with the vertical axis turned upwards, a wheel (SDL 2.0) a
   * key-down of wheel-up or wheel-down, a button a key event (code 0 for an
   * unnamed button, which is still queued).
   */
  function MouseStep(v: Version, e: RawEvent): (r: seq<Event>)
    ensures |r| <= 1
    ensures e.MouseMotion? ==> r == [Event(EvMouse, 0, e.xrel, -e.yrel)]
    ensures (e.MouseButtonDown? || e.MouseButtonUp?) ==> |r| == 1 && r[0].data1 == ButtonKey(v, e.button)
    ensures e.MouseButtonDown? ==> r[0].kind == EvKeyDown && r[0].data2 == 0 && r[0].data3 == 0
    ensures e.MouseButtonUp? ==> r[0].kind == EvKeyUp && r[0].data2 == 0 && r[0].data3 == 0
    ensures !(e.MouseMotion? || e.MouseWheel? || e.MouseButtonDown? || e.MouseButtonUp?) ==> r == []
  {
    match e
    case MouseMotion(_, _, xrel, yrel) => [Event(EvMouse, 0, xrel, -yrel)]
    case MouseWheel(y, flipped) =>
      if y == 0 then []
      else [KeyEvent(true, if (y > 0) != flipped then KEY_MWHEELUP else KEY_MWHEELDOWN)]
    case MouseButtonDown(b) => [KeyEvent(true, ButtonKey(v, b))]
    case MouseButtonUp(b) => [KeyEvent(false, ButtonKey(v, b))]
    case _ => []
  }

  /** Wheel direction: up exactly when the scroll, corrected for flipping, is positive. */
  lemma WheelDirection(v: Version, y: int, flipped: bool)
    requires y != 0
    ensures var r := MouseStep(v, MouseWheel(y, flipped));
      |r| == 1 && r[0].kind == EvKeyDown &&
      (r[0].data1 == KEY_MWHEELUP <==> (if flipped then -y else y) > 0) &&
      (r[0].data1 == KEY_MWHEELDOWN <==> (if flipped then -y else y) < 0)
  {
  }

  /** What gathering the fetched events adds to the device queue, in order: at most one event each. */
  function MouseGather(v: Version, fetched: seq<RawEvent>): (r: seq<Event>)
    ensures |r| <= |fetched|
  {
    if fetched == [] then []
    else MouseGather(v, fetched[..|fetched| - 1]) + MouseStep(v, fetched[|fetched| - 1])
  }

  /** Total horizontal and vertical movement of the relative-motion events in s. */
  function MotionSum(s: seq<Event>): (int, int)
  {
    if s == [] then (0, 0)
    else
      var p := MotionSum(s[..|s| - 1]);
      var e := s[|s| - 1];
      if e.kind == EvMouse then (p.0 + e.data2, p.1 + e.data3) else p
  }

  /** Total relative movement of the SDL motion events in s. */
  function RawMotionSum(s: seq<RawEvent>): (int, int)
  {
    if s == [] then (0, 0)
    else
      var p := RawMotionSum(s[..|s| - 1]);
      var e := s[|s| - 1];
      if e.MouseMotion? then (p.0 + e.xrel, p.1 + e.yrel) else p
  }

  lemma MotionSumSnoc(s: seq<Event>, t: seq<Event>)
    requires |t| <= 1
    ensures MotionSum(s + t) ==
      if t != [] && t[0].kind == EvMouse then (MotionSum(s).0 + t[0].data2, MotionSum(s).1 + t[0].data3)
      else MotionSum(s)
  {
    if t == [] {
      assert s + t == s;
    } else {
      assert (s + t)[..|s + t| - 1] == s;
    }
  }

  /**
   * The engine sees exactly the movement SDL reported: the same horizontal
   * total, and the vertical total with its sign turned.
   */
  lemma {:induction false} MovementPreserved(v: Version, fetched: seq<RawEvent>)
    ensures MotionSum(MouseGather(v, fetched)).0 == RawMotionSum(fetched).0
    ensures MotionSum(MouseGather(v, fetched)).1 == -RawMotionSum(fetched).1
  {
    if fetched != [] {
      var init := fetched[..|fetched| - 1];
      var last := fetched[|fetched| - 1];
      MovementPreserved(v, init);
      MotionSumSnoc(MouseGather(v, init), MouseStep(v, last));
    }
  }

  /** Every SDL 1.2 mouse event gives exactly one engine event. */
  lemma {:induction false} GatherOnePerEvent12(fetched: seq<RawEvent>)
    requires forall e :: e in fetched ==> InClass(MouseClass(Sdl12), e)
    ensures |MouseGather(Sdl12, fetched)| == |fetched|
  {
    if fetched != [] {
      var init := fetched[..|fetched| - 1];
      assert forall e :: e in init ==> e in fetched;
      GatherOnePerEvent12(init);
      assert fetched[|fetched| - 1] in fetched;
    }
  }

  /** Number of SDL 2.0 wheel events in s that scroll neither up nor down. */
  function FlatWheels(s: seq<RawEvent>): nat
  {
    if s == [] then 0
    else FlatWheels(s[..|s| - 1]) + (if s[|s| - 1].MouseWheel? && s[|s| - 1].wheelY == 0 then 1 else 0)
  }

  /** SDL 2.0: every mouse event gives one engine event, except a wheel event without vertical scroll. */
  lemma {:induction false} GatherOnePerEvent20(fetched: seq<RawEvent>)
    requires forall e :: e in fetched ==> InClass(MouseClass(Sdl20), e)
    ensures |MouseGather(Sdl20, fetched)| == |fetched| - FlatWheels(fetched)
  {
    if fetched != [] {
      var init := fetched[..|fetched| - 1];
      assert forall e :: e in init ==> e in fetched;
      GatherOnePerEvent20(init);
      assert fetched[|fetched| - 1] in fetched;
    }
  }

  /** The motion event the re-centring warp from (px, py) to (cx, cy) queues. */
  predicate IsEcho(e: RawEvent, cx: int, cy: int, px: int, py: int)
  {
    e.MouseMotion? && e.x == cx && e.y == cy && e.xrel == cx - px && e.yrel == cy - py
  }

  /** The motion events center() pushes back, in the order it took them: taken ones, never the echo. */
  function KeepNotEcho(s: seq<RawEvent>, cx: int, cy: int, px: int, py: int): (r: seq<RawEvent>)
    ensures |r| <= |s|
    ensures forall e :: e in r ==> e in s && !IsEcho(e, cx, cy, px, py)
  {
    if s == [] then []
    else
      KeepNotEcho(s[..|s| - 1], cx, cy, px, py) +
      (if IsEcho(s[|s| - 1], cx, cy, px, py) then [] else [s[|s| - 1]])
  }

  /** An event is pushed back exactly when it was taken and is not the warp's echo. */
  lemma {:induction false} KeepNotEchoMembers(s: seq<RawEvent>, cx: int, cy: int, px: int, py: int)
    ensures forall e :: e in KeepNotEcho(s, cx, cy, px, py) <==> e in s && !IsEcho(e, cx, cy, px, py)
  {
    if s != [] {
      var init := s[..|s| - 1];
      KeepNotEchoMembers(init, cx, cy, px, py);
      assert s == init + [s[|s| - 1]];
    }
  }

  lemma {:induction false} KeepNotEchoAppend(a: seq<RawEvent>, b: seq<RawEvent>, cx: int, cy: int, px: int, py: int)
    ensures KeepNotEcho(a + b, cx, cy, px, py) == KeepNotEcho(a, cx, cy, px, py) + KeepNotEcho(b, cx, cy, px, py)
    decreases |b|
  {
    if b == [] {
      assert a + b == a;
    } else {
      var init := b[..|b| - 1];
      assert (a + b)[..|a + b| - 1] == a + init;
      KeepNotEchoAppend(a, init, cx, cy, px, py);
    }
  }

  /** Filtering twice removes nothing more. */
  lemma {:induction false} KeepNotEchoIdempotent(s: seq<RawEvent>, cx: int, cy: int, px: int, py: int)
    ensures KeepNotEcho(KeepNotEcho(s, cx, cy, px, py), cx, cy, px, py) == KeepNotEcho(s, cx, cy, px, py)
  {
    if s != [] {
      var init := s[..|s| - 1];
      var last := s[|s| - 1];
      KeepNotEchoIdempotent(init, cx, cy, px, py);
      var tail := if IsEcho(last, cx, cy, px, py) then [] else [last];
      KeepNotEchoAppend(KeepNotEcho(init, cx, cy, px, py), tail, cx, cy, px, py);
      assert KeepNotEcho(tail, cx, cy, px, py) == tail by {
        if tail != [] {
          assert tail[..0] == [];
        }
      }
    }
  }

  /** Motion events are mouse events: taking the mouse class leaves no motion behind. */
  lemma {:induction false} NoMotionAfterMouseTake(s: seq<RawEvent>, v: Version)
    ensures Select(Reject(s, MouseClass(v)), MotionClass) == []
  {
    if s != [] {
      NoMotionAfterMouseTake(s[1..], v);
      if !InClass(MouseClass(v), s[0]) {
        var r := Reject(s, MouseClass(v));
        assert r == [s[0]] + Reject(s[1..], MouseClass(v));
        assert r[1..] == Reject(s[1..], MouseClass(v));
      } else {
        assert Reject(s, MouseClass(v)) == Reject(s[1..], MouseClass(v));
      }
    }
  }

  /** The most events center() takes from SDL in one call. */
  const CENTER_PEEP_MAX: nat := 1024

  /**
   * After the warp appended its echo, one bounded take of the motion class
   * returns the earlier motion events followed by the echo, and leaves every
   * other event in place.
   */
  lemma TakeAfterWarp(before: seq<RawEvent>, echo: RawEvent)
    requires echo.MouseMotion?
    requires |Select(before, MotionClass)| + 1 < CENTER_PEEP_MAX
    ensures TakenFirst(before + [echo], MotionClass, CENTER_PEEP_MAX) == Select(before, MotionClass) + [echo]
    ensures LeftAfter(before + [echo], MotionClass, CENTER_PEEP_MAX) == Reject(before, MotionClass)
  {
    SelectAppend(before, [echo], MotionClass);
    RejectAppend(before, [echo], MotionClass);
    assert Select([echo], MotionClass) == [echo];
    assert Reject([echo], MotionClass) == [];
    TakenFirstIsPrefix(before + [echo], MotionClass, CENTER_PEEP_MAX);
    LeftAfterCovering(before + [echo], MotionClass, CENTER_PEEP_MAX);
  }

  /** The echo of the warp is dropped from the tail of what was taken. */
  lemma DropEchoAtEnd(s: seq<RawEvent>, cx: int, cy: int, px: int, py: int)
    ensures KeepNotEcho(s + [WarpEcho(cx, cy, px, py)], cx, cy, px, py) == KeepNotEcho(s, cx, cy, px, py)
  {
    var t := s + [WarpEcho(cx, cy, px, py)];
    assert t[..|t| - 1] == s;
  }

  /** The loop of center(): pushes back, in order, every taken event that is not the echo. */
  method PushBackNotEcho(taken: seq<RawEvent>, cx: int, cy: int, px: int, py: int, sdl: Backend)
    modifies sdl`pending
    ensures sdl.pending == old(sdl.pending) + KeepNotEcho(taken, cx, cy, px, py)
  {
    var i := 0;
    while i < |taken|
      invariant 0 <= i <= |taken|
      invariant sdl.pending == old(sdl.pending) + KeepNotEcho(taken[..i], cx, cy, px, py)
    {
      var e := taken[i];
      assert taken[..i + 1][..i] == taken[..i];
      if e.MouseMotion? && e.x == cx && e.y == cy && e.xrel == cx - px && e.yrel == cy - py {
        // the warp's own echo: dropped
      } else {
        sdl.Push(e);
      }
      i := i + 1;
    }
    assert taken[..i] == taken;
  }

  /**
   * The mouse device: whether it is enabled (mActive) and the engine events
   * it has gathered but not yet handed out (mEvents).
   */
  class MouseDevice {
    const version: Version
    var enabled: bool
    var events: seq<Event>

    /** The constructor leaves the device disabled; its reset() then finds it inactive. */
    constructor (version: Version, win: Window, sdl: Backend)
      modifies sdl`pending, sdl`cursorX, sdl`cursorY
      ensures this.version == version && !enabled && events == []
      ensures sdl.pending == old(sdl.pending)
      ensures sdl.cursorX == old(sdl.cursorX) && sdl.cursorY == old(sdl.cursorY)
    {
      this.version := version;
      enabled := false;
      events := [];
      new;
      Reset(win, sdl);
    }

    /** active(): enabled and the window has focus. */
    predicate Active(win: Window)
      reads this
    {
      enabled && win.focused
    }

    predicate HasEvent()
      reads this
    {
      events != []
    }

    /** getEvent: the oldest gathered event; the caller must check HasEvent first. */
    method GetEvent() returns (ev: Event)
      requires HasEvent()
      modifies this`events
      ensures [ev] + events == old(events)
    {
      ev := events[0];
      events := events[1..];
    }

    /**
     * center: warps the cursor to the middle of the window, then takes the
     * pending motion events (one call, room for 1024; the source asserts that
     * fewer came back) and pushes back all but the warp's own echo.
     */
    method Center(win: Window, sdl: Backend)
      requires Active(win) ==> |Select(sdl.pending, MotionClass)| + 1 < CENTER_PEEP_MAX
      modifies sdl`pending, sdl`cursorX, sdl`cursorY
      ensures !Active(win) ==> (sdl.pending == old(sdl.pending) &&
                sdl.cursorX == old(sdl.cursorX) && sdl.cursorY == old(sdl.cursorY))
      ensures Active(win) ==> (
                sdl.cursorX == win.width / 2 && sdl.cursorY == win.height / 2 &&
                sdl.pending == Reject(old(sdl.pending), MotionClass) +
                  KeepNotEcho(Select(old(sdl.pending), MotionClass),
                              win.width / 2, win.height / 2, old(sdl.cursorX), old(sdl.cursorY)))
    {
      if !Active(win) {
        return;
      }
      var cx, cy := win.width / 2, win.height / 2;
      var px, py := sdl.cursorX, sdl.cursorY;
      ghost var before := sdl.pending;
      sdl.Warp(cx, cy);
      TakeAfterWarp(before, WarpEcho(cx, cy, px, py));
      var taken := sdl.TakeAtMost(MotionClass, CENTER_PEEP_MAX);
      PushBackNotEcho(taken, cx, cy, px, py, sdl);
      DropEchoAtEnd(Select(before, MotionClass), cx, cy, px, py);
    }

    /**
     * gatherEvents: moves every pending SDL mouse event into the device queue,
     * translated, then re-centres the cursor. As the queue then holds no
     * motion, the warp's echo is the only event center() takes, and it drops it.
     */
    method GatherEvents(win: Window, sdl: Backend)
      modifies this`events, sdl`pending, sdl`cursorX, sdl`cursorY
      ensures !Active(win) ==> (events == old(events) && sdl.pending == old(sdl.pending) &&
                sdl.cursorX == old(sdl.cursorX) && sdl.cursorY == old(sdl.cursorY))
      ensures Active(win) ==> (
                events == old(events) + MouseGather(version, Select(old(sdl.pending), MouseClass(version))) &&
                sdl.pending == Reject(old(sdl.pending), MouseClass(version)) &&
                sdl.cursorX == win.width / 2 && sdl.cursorY == win.height / 2)
    {
      if !Active(win) {
        return;
      }
      ghost var before := sdl.pending;
      var fetched := sdl.Take(MouseClass(version));
      Translate(fetched);
      NoMotionAfterMouseTake(before, version);
      NoneSelected(sdl.pending, MotionClass);
      Center(win, sdl);
    }

    /** The inner loop of gatherEvents: one engine event per fetched event, except a flat wheel. */
    method Translate(fetched: seq<RawEvent>)
      modifies this`events
      ensures events == old(events) + MouseGather(version, fetched)
    {
      var i := 0;
      while i < |fetched|
        invariant 0 <= i <= |fetched|
        invariant events == old(events) + MouseGather(version, fetched[..i])
      {
        var e := fetched[i];
        assert fetched[..i + 1][..i] == fetched[..i];
        match e {
          case MouseMotion(_, _, xrel, yrel) =>
            events := events + [Event(EvMouse, 0, xrel, -yrel)];
          case MouseWheel(y, flipped) =>
            if y != 0 {
              var direction := if flipped then -1 else 1;
              events := events + [Event(EvKeyDown, if direction * y > 0 then KEY_MWHEELUP else KEY_MWHEELDOWN, 0, 0)];
            }
          case MouseButtonDown(b) =>
            events := events + [Event(EvKeyDown, ButtonKey(version, b), 0, 0)];
          case MouseButtonUp(b) =>
            events := events + [Event(EvKeyUp, ButtonKey(version, b), 0, 0)];
          case _ =>
        }
        i := i + 1;
      }
      assert fetched[..i] == fetched;
    }

    /** flushEvents: gathers, then discards everything queued. */
    method FlushEvents(win: Window, sdl: Backend)
      modifies this`events, sdl`pending, sdl`cursorX, sdl`cursorY
      ensures events == []
      ensures !Active(win) ==> (sdl.pending == old(sdl.pending) &&
                sdl.cursorX == old(sdl.cursorX) && sdl.cursorY == old(sdl.cursorY))
      ensures Active(win) ==> (
                sdl.pending == Reject(old(sdl.pending), MouseClass(version)) &&
                sdl.cursorX == win.width / 2 && sdl.cursorY == win.height / 2)
    {
      GatherEvents(win, sdl);
      ghost var left, x, y := sdl.pending, sdl.cursorX, sdl.cursorY;
      while events != []
        invariant sdl.pending == left && sdl.cursorX == x && sdl.cursorY == y
        decreases |events|
      {
        events := events[1..];
      }
    }

    /** reset: flushes, then re-centres the cursor. */
    method Reset(win: Window, sdl: Backend)
      modifies this`events, sdl`pending, sdl`cursorX, sdl`cursorY
      ensures events == []
      ensures !Active(win) ==> (sdl.pending == old(sdl.pending) &&
                sdl.cursorX == old(sdl.cursorX) && sdl.cursorY == old(sdl.cursorY))
      ensures Active(win) ==> (
                sdl.pending == Reject(old(sdl.pending), MouseClass(version)) &&
                sdl.cursorX == win.width / 2 && sdl.cursorY == win.height / 2)
    {
      FlushEvents(win, sdl);
      ghost var before := old(sdl.pending);
      NoMotionAfterMouseTake(before, version);
      Center(win, sdl);
      if Active(win) {
        NoneSelected(Reject(before, MouseClass(version)), MotionClass);
      }
    }

    /** pause: stop taking input and show the cursor again. */
    method Pause(sdl: Backend)
      modifies this`enabled, sdl`cursorShown
      ensures !enabled && sdl.cursorShown
    {
      enabled := false;
      sdl.ShowCursor(true);
    }

    /** resume: take input again with the cursor hidden, from an empty queue and a centred cursor. */
    method Resume(win: Window, sdl: Backend)
      modifies this`enabled, this`events, sdl`pending, sdl`cursorX, sdl`cursorY, sdl`cursorShown
      ensures enabled && events == [] && !sdl.cursorShown
      ensures !win.focused ==> (sdl.pending == old(sdl.pending) &&
                sdl.cursorX == old(sdl.cursorX) && sdl.cursorY == old(sdl.cursorY))
      ensures win.focused ==> (
                sdl.pending == Reject(old(sdl.pending), MouseClass(version)) &&
                sdl.cursorX == win.width / 2 && sdl.cursorY == win.height / 2)
    {
      enabled := true;
      sdl.ShowCursor(false);
      Reset(win, sdl);
    }
  }
}
