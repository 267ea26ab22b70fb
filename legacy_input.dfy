/**
 * The state of the legacy SDL 1.2 input path (i_input.cpp): the
 * window_focused flag, the mouse driver in use (at most one of SDLMouse and
 * RawWin32Mouse), the hat list JoyEventList, and what the code hands on:
 * the events given to D_PostEvent and the commands given to
 * AddCommandString.
 */
module LegacyInput {
  import opened Sdl
  import opened Events
  import opened LegacyPolicy
  import opened LegacyMouse
  import opened LegacyEvents
  import Joystick

  /** The size of I_GetEvent's event buffer (MAX_EVENTS). */
  const GET_EVENT_MAX: nat := 256

  /**
   * Taking mouse events out of the queue does not change which of the
   * events I_GetEvent asks for are pending, nor their order.
   */
  lemma {:induction false} MouseTakeKeepsLegacy(s: seq<RawEvent>, n: nat)
    ensures Select(LeftAfter(s, MouseClass(Sdl12), n), LegacyClass) == Select(s, LegacyClass)
  {
    if s != [] && n != 0 {
      MouseTakeKeepsLegacy(s[1..], if InClass(MouseClass(Sdl12), s[0]) then n - 1 else n);
      if !InClass(MouseClass(Sdl12), s[0]) {
        var l := LeftAfter(s[1..], MouseClass(Sdl12), n);
        assert LeftAfter(s, MouseClass(Sdl12), n) == [s[0]] + l;
        assert ([s[0]] + l)[1..] == l;
      }
    }
  }

  /** I_GetEvent's bounded take depends only on the events of its class. */
  lemma SameLegacyTake(s: seq<RawEvent>, t: seq<RawEvent>)
    requires Select(s, LegacyClass) == Select(t, LegacyClass)
    ensures TakenFirst(s, LegacyClass, GET_EVENT_MAX) == TakenFirst(t, LegacyClass, GET_EVENT_MAX)
  {
    TakenFirstIsPrefix(s, LegacyClass, GET_EVENT_MAX);
    TakenFirstIsPrefix(t, LegacyClass, GET_EVENT_MAX);
  }

  /** A take whose bound covers the class leaves none of it. */
  lemma NoneLeftAfterCovering(s: seq<RawEvent>, c: EventClass, n: nat)
    requires |Select(s, c)| <= n
    ensures Select(LeftAfter(s, c, n), c) == []
  {
    LeftAfterCovering(s, c, n);
    SelectOfReject(s, c);
  }

  /** An SDLMouse frame, warp included, leaves the events I_GetEvent asks for as they were. */
  lemma SdlFrameKeepsLegacy(before: seq<RawEvent>, n: nat, hasScreen: bool, echo: RawEvent)
    requires echo.MouseMotion?
    ensures Select(LeftAfter(before, MouseClass(Sdl12), n), LegacyClass) == Select(before, LegacyClass)
    ensures Select(LeftAfter(LeftAfter(before, MouseClass(Sdl12), n) + [echo], MouseClass(Sdl12), n), LegacyClass) ==
            Select(before, LegacyClass)
  {
    var mid := LeftAfter(before, MouseClass(Sdl12), n);
    MouseTakeKeepsLegacy(before, n);
    SelectAppend(mid, [echo], LegacyClass);
    assert Select([echo], LegacyClass) == [];
    MouseTakeKeepsLegacy(mid + [echo], n);
  }

  class InputLayer {
    var windowFocused: bool
    var sdlMouse: SdlMouse?
    var rawMouse: RawWin32Mouse?
    var joyList: seq<JoyEntry>
    /** Every event handed to D_PostEvent, oldest first. */
    var posted: seq<Event>
    /** Every command handed to AddCommandString, oldest first. */
    var commands: seq<Command>

    /**
     * At most one mouse driver, a non-empty buffer for the SDL one, and a
     * hat list without duplicates.
     */
    predicate Valid()
      reads this
    {
      !(sdlMouse != null && rawMouse != null) &&
      (sdlMouse != null ==> sdlMouse.maxEvents > 0) &&
      UniqueEntries(joyList)
    }

    /**
     * The state after I_InitInput has chosen the mouse driver
     * (I_InitMouseDriver); window_focused starts false.
     */
    constructor (sdlMouse: SdlMouse?, rawMouse: RawWin32Mouse?)
      requires !(sdlMouse != null && rawMouse != null)
      requires sdlMouse != null ==> sdlMouse.maxEvents > 0
      ensures Valid() && this.sdlMouse == sdlMouse && this.rawMouse == rawMouse
      ensures !windowFocused && joyList == [] && posted == [] && commands == []
    {
      this.sdlMouse := sdlMouse;
      this.rawMouse := rawMouse;
      windowFocused := false;
      joyList := [];
      posted := [];
      commands := [];
    }

    predicate HasMouse()
      reads this
    {
      sdlMouse != null || rawMouse != null
    }

    /** mouse_input->paused() for the driver in use; true when there is none. */
    predicate MousePaused()
      reads this, sdlMouse, rawMouse
    {
      if sdlMouse != null then !sdlMouse.active
      else if rawMouse != null then !rawMouse.active
      else true
    }

    /**
     * I_FlushInput: every pending SDL event is discarded, then the driver's
     * own queue. The raw driver's pointer state (prevX, prevY, prevValid)
     * stays as it was.
     */
    method FlushInput(sdl: Backend)
      requires Valid()
      modifies sdl`pending, rawMouse
      ensures sdl.pending == []
      ensures rawMouse != null ==> rawMouse.PointerNow() == old(rawMouse.PointerNow())
      ensures rawMouse != null ==> rawMouse.queue == [] && rawMouse.active == old(rawMouse.active)
    {
      sdl.Drain();
      if sdlMouse != null {
        sdlMouse.FlushEvents(sdl);
      } else if rawMouse != null {
        rawMouse.FlushEvents();
      }
    }

    /** I_PauseMouse: show the cursor, then pause the driver; the raw driver's pointer state stays. */
    method PauseMouse(sdl: Backend)
      requires Valid()
      modifies sdl`cursorShown, sdlMouse, rawMouse
      ensures sdl.cursorShown && MousePaused()
      ensures rawMouse != null ==> rawMouse.PointerNow() == old(rawMouse.PointerNow())
      ensures rawMouse != null ==> rawMouse.queue == old(rawMouse.queue)
    {
      sdl.ShowCursor(true);
      if sdlMouse != null {
        sdlMouse.Pause();
      } else if rawMouse != null {
        rawMouse.Pause();
      }
    }

    /**
     * I_ResumeMouse: hide the cursor, then resume the driver (which
     * re-centres the SDL cursor or clears the raw queue); the raw driver's
     * pointer state stays as it was.
     */
    method ResumeMouse(hasScreen: bool, win: Window, sdl: Backend)
      requires Valid()
      modifies sdl`cursorShown, sdl`pending, sdl`cursorX, sdl`cursorY, sdlMouse, rawMouse
      ensures !sdl.cursorShown
      ensures rawMouse != null ==> rawMouse.PointerNow() == old(rawMouse.PointerNow())
      ensures HasMouse() ==> !MousePaused()
      ensures rawMouse != null ==> rawMouse.queue == []
      ensures sdlMouse != null && hasScreen ==> sdl.pending == LeftAfter(old(sdl.pending) +
        [WarpEcho(win.width / 2, win.height / 2, old(sdl.cursorX), old(sdl.cursorY))], MouseClass(Sdl12), sdlMouse.maxEvents)
      ensures !(sdlMouse != null && hasScreen) ==> sdl.pending == old(sdl.pending)
    {
      sdl.ShowCursor(false);
      if sdlMouse != null {
        sdlMouse.Resume(hasScreen, win, sdl);
      } else if rawMouse != null {
        rawMouse.Resume();
      }
    }

    /** A resume right after a flush leaves the SDL queue empty: the warp's echo is flushed too. */
    method FlushThenResume(hasScreen: bool, win: Window, sdl: Backend)
      requires Valid()
      modifies sdl`cursorShown, sdl`pending, sdl`cursorX, sdl`cursorY, sdlMouse, rawMouse
      ensures sdl.pending == [] && !sdl.cursorShown
      ensures rawMouse != null ==> rawMouse.PointerNow() == old(rawMouse.PointerNow())
      ensures HasMouse() ==> !MousePaused()
      ensures rawMouse != null ==> rawMouse.queue == []
    {
      FlushInput(sdl);
      ResumeMouse(hasScreen, win, sdl);
      if sdlMouse != null && hasScreen {
        EchoSwallowed([], WarpEcho(win.width / 2, win.height / 2, old(sdl.cursorX), old(sdl.cursorY)), sdlMouse.maxEvents);
        assert [] + [WarpEcho(win.width / 2, win.height / 2, old(sdl.cursorX), old(sdl.cursorY))] ==
               [WarpEcho(win.width / 2, win.height / 2, old(sdl.cursorX), old(sdl.cursorY))];
      }
    }

    /**
     * I_InitFocus: with focus, grab the input and resume the mouse;
     * without, release it and pause the mouse.
     */
    method InitFocus(focused: bool, hasScreen: bool, win: Window, sdl: Backend)
      requires Valid()
      modifies this`windowFocused, sdl`grabbed, sdl`cursorShown, sdl`pending, sdl`cursorX, sdl`cursorY,
        sdlMouse, rawMouse
      ensures Valid() && windowFocused == focused
      ensures rawMouse != null ==> rawMouse.PointerNow() == old(rawMouse.PointerNow())
      ensures sdl.grabbed == focused && sdl.cursorShown == !focused
      ensures HasMouse() ==> MousePaused() == !focused
    {
      windowFocused := focused;
      if focused {
        sdl.SetGrab(true);
        ResumeMouse(hasScreen, win, sdl);
      } else {
        sdl.SetGrab(false);
        PauseMouse(sdl);
      }
    }

    /**
     * I_UpdateFocus, with mouse_grabbed read from SDL's grab flag when there
     * is no mouse driver: the window's new focus is recorded, input is
     * flushed on a focus gain and on a grab, and the grab, the cursor and
     * the driver follow the decision of UpdateFocusCorrected. The raw
     * driver's pointer state stays as it was.
     */
    method UpdateFocus(nowFocused: bool, g: GameContext, hasScreen: bool, win: Window, sdl: Backend)
      requires Valid()
      modifies this`windowFocused, sdl`grabbed, sdl`cursorShown, sdl`pending, sdl`cursorX, sdl`cursorY,
        sdlMouse, rawMouse
      ensures Valid() && windowFocused == nowFocused
      ensures rawMouse != null ==> rawMouse.PointerNow() == old(rawMouse.PointerNow())
      ensures var s := UpdateFocusCorrected(old(windowFocused), nowFocused, g, HasMouse(), old(MousePaused()), old(sdl.grabbed));
        sdl.grabbed == GrabbedAfter(s.action, old(sdl.grabbed)) &&
        (HasMouse() ==> MousePaused() == PausedAfter(s.action, old(MousePaused()))) &&
        (s.action == GrabMouse ==> !sdl.cursorShown) &&
        (s.action == ReleaseMouse ==> sdl.cursorShown) &&
        (s.action == KeepGrab ==> sdl.cursorShown == old(sdl.cursorShown)) &&
        (Flushes(s) ==> sdl.pending == [] && (rawMouse != null && s.action != ReleaseMouse ==> rawMouse.queue == [])) &&
        (!Flushes(s) ==> sdl.pending == old(sdl.pending))
    {
      ghost var s := UpdateFocusCorrected(windowFocused, nowFocused, g, HasMouse(), MousePaused(), sdl.grabbed);
      if nowFocused && !windowFocused {
        FlushInput(sdl);
      }
      windowFocused := nowFocused;
      var mouseGrabbed := if sdlMouse != null then sdlMouse.active
                          else if rawMouse != null then rawMouse.active
                          else sdl.grabbed;
      var canGrab := CheckMouseGrab(windowFocused, g);
      if canGrab && !mouseGrabbed {
        sdl.SetGrab(true);
        FlushThenResume(hasScreen, win, sdl);
      } else if mouseGrabbed && !canGrab {
        sdl.SetGrab(false);
        PauseMouse(sdl);
      }
    }

    /**
     * RegisterJoystickEvent for one direction of a hat motion event: the
     * list is searched for the same joystick, hat and direction; when it is
     * there nothing happens and 0 is returned, otherwise the direction is
     * appended, its key-down posted and 1 returned.
     */
    method RegisterJoystickEvent(which: int, hat: int, value: bv8, now: int) returns (result: int)
      modifies this`joyList, this`posted
      ensures Frame(posted, commands, joyList) == RegisterOne(Frame(old(posted), commands, old(joyList)), which, hat, value, now)
      ensures result == 0 <==> Registered(old(joyList), which, hat, value)
      ensures result == 1 <==> !Registered(old(joyList), which, hat, value)
    {
      var k := 0;
      while k < |joyList|
        invariant k <= |joyList|
        invariant forall m :: 0 <= m < k ==> Key(joyList[m]) != (which, hat, value)
      {
        if Key(joyList[k]) == (which, hat, value) {
          return 0;
        }
        k := k + 1;
      }
      joyList := joyList + [JoyEntry(which, hat, value, now, now)];
      posted := posted + [HatDown(hat, value)];
      return 1;
    }

    /** The four direction tests of a hat motion event, in the order up, right, down, left. */
    method RegisterHat(which: int, hat: int, value: bv8, now: int)
      modifies this`joyList, this`posted
      ensures Frame(posted, commands, joyList) == RegisterFlags(Frame(old(posted), commands, old(joyList)), which, hat, value, now, 4)
    {
      ghost var f0 := Frame(posted, commands, joyList);
      assert Joystick.HAT_FLAGS == [HAT_UP, HAT_RIGHT, HAT_DOWN, HAT_LEFT];
      var registered := 0;
      if value & HAT_UP != 0 {
        registered := RegisterJoystickEvent(which, hat, HAT_UP, now);
      }
      assert Frame(posted, commands, joyList) == RegisterFlags(f0, which, hat, value, now, 1);
      if value & HAT_RIGHT != 0 {
        registered := RegisterJoystickEvent(which, hat, HAT_RIGHT, now);
      }
      assert Frame(posted, commands, joyList) == RegisterFlags(f0, which, hat, value, now, 2);
      if value & HAT_DOWN != 0 {
        registered := RegisterJoystickEvent(which, hat, HAT_DOWN, now);
      }
      assert Frame(posted, commands, joyList) == RegisterFlags(f0, which, hat, value, now, 3);
      if value & HAT_LEFT != 0 {
        registered := RegisterJoystickEvent(which, hat, HAT_LEFT, now);
      }
    }

    /** One fetched event of I_GetEvent's switch. */
    method DispatchOne(c: Config, e: RawEvent)
      modifies this`joyList, this`posted, this`commands
      ensures Frame(posted, commands, joyList) == Dispatch(Frame(old(posted), old(commands), old(joyList)), c, e)
    {
      match e {
        case Quit =>
          commands := commands + [QuitCommand];
        case VideoResize(w, h) =>
          if !c.fullscreen {
            commands := commands + [SetMode(w, h)];
          }
        case KeyDown(sym, _, unicode, _) =>
          var text := KeyDownText(sym, unicode);
          var altHeld := c.win32 && AltHeld(c.modState);
          if altHeld && sym == SdlkF4(Sdl12) {
            commands := commands + [QuitCommand];
          }
          if !(altHeld && sym == SDLK_TAB) {
            posted := posted + [Event(EvKeyDown, sym, text, text)];
          }
        case KeyUp(sym, _, unicode, _) =>
          posted := posted + [Event(EvKeyUp, sym, AsciiText(unicode), AsciiText(unicode))];
        case JoyButtonDown(which, b) =>
          if which == c.joyActive {
            posted := posted + [Joystick.CodeEvent(true, b + KEY_JOY1)];
          }
        case JoyButtonUp(which, b) =>
          if which == c.joyActive {
            posted := posted + [Joystick.CodeEvent(false, b + KEY_JOY1)];
          }
        case JoyAxisMotion(which, axis, value) =>
          if which == c.joyActive {
            posted := posted + [Event(EvJoystick, 0, axis, LegacyAxisValue(value))];
          }
        case JoyHatMotion(which, hat, value) =>
          if which == c.joyActive {
            RegisterHat(which, hat, value, c.now);
          }
        case _ =>
      }
    }

    /** The loop of I_GetEvent over the fetched events. */
    method DispatchBatch(c: Config, fetched: seq<RawEvent>)
      modifies this`joyList, this`posted, this`commands
      ensures Frame(posted, commands, joyList) == DispatchAll(Frame(old(posted), old(commands), old(joyList)), c, fetched)
    {
      ghost var f0 := Frame(posted, commands, joyList);
      var i := 0;
      while i < |fetched|
        invariant i <= |fetched|
        invariant Frame(posted, commands, joyList) == DispatchAll(f0, c, fetched[..i])
      {
        assert fetched[..i + 1][..i] == fetched[..i];
        DispatchOne(c, fetched[i]);
        i := i + 1;
      }
      assert fetched[..i] == fetched;
    }

    /** The fetched events dispatched in order, then, with use_joystick, the hat list update. */
    method DispatchFrame(c: Config, useJoystick: bool, hats: map<int, bv8>, fetched: seq<RawEvent>)
      requires UniqueEntries(joyList)
      modifies this`joyList, this`posted, this`commands
      ensures UniqueEntries(joyList)
      ensures var d := DispatchAll(Frame(old(posted), old(commands), old(joyList)), c, fetched);
        commands == d.commands &&
        (useJoystick ==> joyList == UpdateAll(hats, c.now, d.joyList).kept &&
                         posted == d.posted + UpdateAll(hats, c.now, d.joyList).posted) &&
        (!useJoystick ==> joyList == d.joyList && posted == d.posted)
    {
      ghost var f0 := Frame(posted, commands, joyList);
      DispatchBatch(c, fetched);
      DispatchAllKeepsUnique(f0, c, fetched);
      if useJoystick {
        UpdateKeepsUnique(hats, c.now, joyList);
        UpdateJoystickEvents(hats, c.now);
      }
    }

    /**
     * UpdateJoystickEvents: each entry whose direction the open joystick no
     * longer reports posts its key-up and is erased; a held entry that is
     * due posts its key-down again.
     */
    method UpdateJoystickEvents(hats: map<int, bv8>, now: int)
      modifies this`joyList, this`posted
      ensures joyList == UpdateAll(hats, now, old(joyList)).kept
      ensures posted == old(posted) + UpdateAll(hats, now, old(joyList)).posted
    {
      ghost var list := joyList;
      var kept := [];
      var i := 0;
      while i < |joyList|
        invariant i <= |joyList| && joyList == list
        invariant kept == UpdateAll(hats, now, list[..i]).kept
        invariant posted == old(posted) + UpdateAll(hats, now, list[..i]).posted
      {
        assert list[..i + 1][..i] == list[..i];
        var keep, events := UpdateEntry(hats, now, joyList[i]);
        kept := kept + keep;
        posted := posted + events;
        i := i + 1;
      }
      assert list[..i] == list;
      joyList := kept;
    }

    /** The body of UpdateJoystickEvents' loop for one entry. */
    static method UpdateEntry(hats: map<int, bv8>, now: int, e: JoyEntry) returns (keep: seq<JoyEntry>, events: seq<Event>)
      ensures Update(keep, events) == UpdateOne(hats, now, e)
    {
      var code := LegacyHatCode(e.hat, e.value);
      if !StillHeld(hats, e) {
        keep, events := [], [KeyEvent(false, code)];
      } else if RepeatDue(e, now) {
        keep, events := [e.(lastTick := now)], [KeyEvent(true, code)];
      } else {
        keep, events := [e], [];
      }
    }

    /**
     * What the mouse driver posts for a frame, given the SDL queue: nothing
     * without a running driver, and never an ev_mouse event before the end.
     */
    function MouseFramePosts(pending: seq<RawEvent>): (r: seq<Event>)
      reads this, sdlMouse, rawMouse
      ensures !HasMouse() || MousePaused() ==> r == []
      ensures forall i :: 0 <= i < |r| - 1 ==> r[i].kind != EvMouse
    {
      if sdlMouse != null then
        if sdlMouse.active then
          var fetched := TakenFirst(pending, MouseClass(Sdl12), sdlMouse.maxEvents);
          SdlMouseOneMovement(fetched);
          SdlMousePosts(fetched)
        else []
      else if rawMouse != null then
        if rawMouse.active then
          RawPostsOneMovement(rawMouse.PointerNow(), rawMouse.queue);
          RawPosts(rawMouse.PointerNow(), rawMouse.queue)
        else []
      else []
    }

    /**
     * The mouse half of I_GetEvent: mouse_input->processEvents(), with the
     * raw driver's corrected loop that processes every queued record. The
     * raw driver's pointer state ends at the fold of those records.
     */
    method ProcessMouse(hasScreen: bool, win: Window, sdl: Backend) returns (p: seq<Event>)
      requires Valid()
      modifies sdl`pending, sdl`cursorX, sdl`cursorY, rawMouse
      ensures p == old(MouseFramePosts(sdl.pending))
      ensures Select(sdl.pending, LegacyClass) == Select(old(sdl.pending), LegacyClass)
      ensures rawMouse != null && old(rawMouse.active) ==> rawMouse.queue == []
      ensures rawMouse != null && old(rawMouse.active) ==>
        rawMouse.PointerNow() == RawFold(old(rawMouse.PointerNow()), old(rawMouse.queue)).(dx := 0, dy := 0)
      ensures rawMouse != null ==> rawMouse.active == old(rawMouse.active)
      ensures rawMouse != null && !old(rawMouse.active) ==> unchanged(rawMouse)
    {
      p := [];
      if sdlMouse != null {
        ghost var before := sdl.pending;
        ghost var echo := WarpEcho(win.width / 2, win.height / 2, sdl.cursorX, sdl.cursorY);
        p := sdlMouse.ProcessEvents(hasScreen, win, sdl);
        if sdlMouse.active {
          SdlFrameKeepsLegacy(before, sdlMouse.maxEvents, hasScreen, echo);
        }
      } else if rawMouse != null {
        p := rawMouse.ProcessEvents();
      }
    }

    /**
     * I_GetEvent: the mouse driver's frame (with the raw driver's corrected
     * loop, see ProcessMouse); one fetch of at most
     * GET_EVENT_MAX keyboard, joystick, resize, expose, quit and
     * window-manager events, each dispatched in order; then, with
     * use_joystick, the hat list update.
     */
    method GetEvent(c: Config, useJoystick: bool, hats: map<int, bv8>, hasScreen: bool, win: Window, sdl: Backend)
      requires Valid()
      modifies this`joyList, this`posted, this`commands, sdl`pending, sdl`cursorX, sdl`cursorY,
        rawMouse
      ensures Valid()
      ensures rawMouse != null && old(rawMouse.active) ==> rawMouse.queue == []
      ensures rawMouse != null && old(rawMouse.active) ==>
        rawMouse.PointerNow() == RawFold(old(rawMouse.PointerNow()), old(rawMouse.queue)).(dx := 0, dy := 0)
      ensures rawMouse != null ==> rawMouse.active == old(rawMouse.active)
      ensures rawMouse != null && !old(rawMouse.active) ==> unchanged(rawMouse)
      ensures var d := DispatchAll(Frame(old(posted) + old(MouseFramePosts(sdl.pending)), old(commands), old(joyList)),
                                   c, TakenFirst(old(sdl.pending), LegacyClass, GET_EVENT_MAX));
        commands == d.commands &&
        (useJoystick ==> joyList == UpdateAll(hats, c.now, d.joyList).kept &&
                         posted == d.posted + UpdateAll(hats, c.now, d.joyList).posted) &&
        (!useJoystick ==> joyList == d.joyList && posted == d.posted)
      ensures |Select(old(sdl.pending), LegacyClass)| <= GET_EVENT_MAX ==> Select(sdl.pending, LegacyClass) == []
    {
      ghost var before := sdl.pending;
      var m := ProcessMouse(hasScreen, win, sdl);
      posted := posted + m;
      ghost var mid := sdl.pending;
      var fetched := sdl.TakeAtMost(LegacyClass, GET_EVENT_MAX);
      SameLegacyTake(mid, before);
      DispatchFrame(c, useJoystick, hats, fetched);
      if |Select(before, LegacyClass)| <= GET_EVENT_MAX {
        NoneLeftAfterCovering(mid, LegacyClass, GET_EVENT_MAX);
      }
    }

    /**
     * I_ShutdownInput: the mouse driver is destroyed (the SDL driver shows
     * the cursor again as it goes) and the input grab released.
     */
    method Shutdown(sdl: Backend)
      modifies this`sdlMouse, this`rawMouse, sdl`grabbed, sdl`cursorShown
      ensures sdlMouse == null && rawMouse == null && !sdl.grabbed
      ensures old(sdlMouse) != null ==> sdl.cursorShown
      ensures old(sdlMouse) == null ==> sdl.cursorShown == old(sdl.cursorShown)
    {
      if sdlMouse != null {
        sdl.ShowCursor(true);
      }
      sdlMouse := null;
      rawMouse := null;
      sdl.SetGrab(false);
    }
  }
}
