/**
 * The two mouse drivers of the legacy SDL 1.2 input path (SDLMouse and
 * RawWin32Mouse). Each call of processEvents turns everything the driver
 * fetched into key events for the buttons and one aggregate ev_mouse event
 * for the movement. The drivers hand their events to D_PostEvent; here the
 * events a call posts are its result.
 */
module LegacyMouse {
  import opened Sdl
  import opened Events
  import Mouse

  /** The ev_mouse event for a frame's movement, posted only when some movement is left. */
  function MovementEvent(dx: int, dy: int): (r: seq<Event>)
    ensures r != [] <==> dx != 0 || dy != 0
    ensures r != [] ==> r == [Event(EvMouse, 0, dx, dy)]
  {
    if dx != 0 || dy != 0 then [Event(EvMouse, 0, dx, dy)] else []
  }

  predicate IsWheelKey(code: int)
  {
    code == KEY_MWHEELUP || code == KEY_MWHEELDOWN
  }

  // ---------------------------------------------------------------------
  // SDLMouse

  /**
   * The engine key of an SDL 1.2 button: the wheel buttons are named on
   * button-down only; 0 for a button not named.
   */
  function SdlMouseButtonKey(down: bool, button: int): (k: int)
    ensures k != 0 ==> k == Mouse.ButtonKey(Sdl12, button)
    ensures k != 0 <==> Mouse.MappedButton(Sdl12, button) &&
                        (down || (button != BUTTON_WHEELUP_12 && button != BUTTON_WHEELDOWN_12))
    ensures IsWheelKey(k) ==> down
  {
    if !down && (button == BUTTON_WHEELUP_12 || button == BUTTON_WHEELDOWN_12) then 0
    else Mouse.ButtonKey(Sdl12, button)
  }

  /** What one fetched event posts straight away: a key event for a named button. */
  function SdlMouseButtonPost(e: RawEvent): (r: seq<Event>)
    ensures |r| <= 1
  {
    match e
    case MouseButtonDown(b) =>
      if SdlMouseButtonKey(true, b) != 0 then [KeyEvent(true, SdlMouseButtonKey(true, b))] else []
    case MouseButtonUp(b) =>
      if SdlMouseButtonKey(false, b) != 0 then [KeyEvent(false, SdlMouseButtonKey(false, b))] else []
    case _ => []
  }

  /** The button events of a batch, in order: at most one per fetched event. */
  function SdlMouseButtons(fetched: seq<RawEvent>): (r: seq<Event>)
    ensures |r| <= |fetched|
  {
    if fetched == [] then []
    else SdlMouseButtons(fetched[..|fetched| - 1]) + SdlMouseButtonPost(fetched[|fetched| - 1])
  }

  /** Everything SDLMouse::processEvents posts for a batch: its buttons, then at most one movement. */
  function SdlMousePosts(fetched: seq<RawEvent>): (r: seq<Event>)
    ensures |r| <= |fetched| + 1
    ensures SdlMouseButtons(fetched) <= r
  {
    SdlMouseButtons(fetched) +
      MovementEvent(Mouse.RawMotionSum(fetched).0, -Mouse.RawMotionSum(fetched).1)
  }

  /**
   * The button events of a batch are key events with a non-zero key, and a
   * wheel key is only ever a key-down.
   */
  lemma {:induction false} SdlMouseButtonsNamed(fetched: seq<RawEvent>)
    ensures forall e :: e in SdlMouseButtons(fetched) ==>
      e.data1 != 0 && e.kind != EvMouse && (IsWheelKey(e.data1) ==> e.kind == EvKeyDown)
  {
    if fetched != [] {
      SdlMouseButtonsNamed(fetched[..|fetched| - 1]);
    }
  }

  /**
   * A batch posts its movement as one ev_mouse event carrying the whole
   * horizontal movement and the whole vertical movement turned upwards,
   * and only as the last event, when the movement is not zero.
   */
  lemma SdlMouseOneMovement(fetched: seq<RawEvent>)
    ensures var r := SdlMousePosts(fetched);
      forall i :: 0 <= i < |r| - 1 ==> r[i].kind != EvMouse
    ensures var r := SdlMousePosts(fetched);
      var m := Mouse.RawMotionSum(fetched);
      (r != [] && r[|r| - 1].kind == EvMouse) <==> (m.0 != 0 || m.1 != 0)
    ensures var r := SdlMousePosts(fetched);
      var m := Mouse.RawMotionSum(fetched);
      r != [] && r[|r| - 1].kind == EvMouse ==> r[|r| - 1] == Event(EvMouse, 0, m.0, -m.1)
  {
    var b := SdlMouseButtons(fetched);
    SdlMouseButtonsNamed(fetched);
    var r := SdlMousePosts(fetched);
    forall i | 0 <= i < |b|
      ensures r[i].kind != EvMouse
    {
      assert r[i] == b[i];
      assert b[i] in b;
    }
    if |r| > |b| {
      assert r[|r| - 1].kind == EvMouse;
    } else if r != [] {
      assert r[|r| - 1] in b;
    }
  }

  /** A warp echo that is the only mouse event left is removed by the flush after the warp. */
  lemma {:induction false} EchoSwallowed(before: seq<RawEvent>, echo: RawEvent, n: nat)
    requires n > 0 && echo.MouseMotion?
    requires Select(before, MouseClass(Sdl12)) == []
    ensures LeftAfter(before + [echo], MouseClass(Sdl12), n) == before
  {
    if before == [] {
      assert [echo][1..] == [];
    } else {
      assert !InClass(MouseClass(Sdl12), before[0]);
      assert Select(before, MouseClass(Sdl12)) == Select(before[1..], MouseClass(Sdl12));
      assert (before + [echo])[1..] == before[1..] + [echo];
      EchoSwallowed(before[1..], echo, n);
    }
  }

  /**
   * SDLMouse: a single SDL_PeepEvents call of at most maxEvents mouse events
   * per frame, then a warp to the screen centre whose motion event the
   * flush after it throws away.
   */
  class SdlMouse {
    /** The size of the driver's event buffer (MAX_EVENTS). */
    const maxEvents: nat
    var active: bool

    constructor (maxEvents: nat)
      requires maxEvents > 0
      ensures this.maxEvents == maxEvents && !active
    {
      this.maxEvents := maxEvents;
      active := false;
    }

    predicate Paused()
      reads this
    {
      !active
    }

    /** One SDL_PeepEvents call that discards up to maxEvents mouse events. */
    method FlushEvents(sdl: Backend)
      modifies sdl`pending
      ensures sdl.pending == LeftAfter(old(sdl.pending), MouseClass(Sdl12), maxEvents)
    {
      var _ := sdl.TakeAtMost(MouseClass(Sdl12), maxEvents);
    }

    /** With a video surface: warp to its centre, then flush the motion the warp made. */
    method Center(hasScreen: bool, win: Window, sdl: Backend)
      modifies sdl`pending, sdl`cursorX, sdl`cursorY
      ensures hasScreen ==> sdl.cursorX == win.width / 2 && sdl.cursorY == win.height / 2
      ensures hasScreen ==> sdl.pending == LeftAfter(old(sdl.pending) +
        [WarpEcho(win.width / 2, win.height / 2, old(sdl.cursorX), old(sdl.cursorY))], MouseClass(Sdl12), maxEvents)
      ensures !hasScreen ==> unchanged(sdl)
    {
      if hasScreen {
        sdl.Warp(win.width / 2, win.height / 2);
        FlushEvents(sdl);
      }
    }

    /** The accumulation loop over one fetched batch. */
    method Aggregate(fetched: seq<RawEvent>) returns (posted: seq<Event>)
      ensures posted == SdlMousePosts(fetched)
    {
      var dx, dy := 0, 0;
      posted := [];
      var i := 0;
      while i < |fetched|
        invariant i <= |fetched|
        invariant posted == SdlMouseButtons(fetched[..i])
        invariant dx == Mouse.RawMotionSum(fetched[..i]).0 && dy == -Mouse.RawMotionSum(fetched[..i]).1
      {
        assert fetched[..i + 1][..i] == fetched[..i];
        assert SdlMouseButtons(fetched[..i + 1]) == posted + SdlMouseButtonPost(fetched[i]);
        match fetched[i] {
          case MouseMotion(_, _, xrel, yrel) =>
            dx := dx + xrel;
            dy := dy - yrel;
          case MouseButtonDown(b) =>
            var key := SdlMouseButtonKey(true, b);
            if key != 0 {
              posted := posted + [KeyEvent(true, key)];
            }
          case MouseButtonUp(b) =>
            var key := SdlMouseButtonKey(false, b);
            if key != 0 {
              posted := posted + [KeyEvent(false, key)];
            }
          case _ =>
        }
        i := i + 1;
      }
      assert fetched[..i] == fetched;
      posted := posted + MovementEvent(dx, dy);
    }

    /**
     * SDLMouse::processEvents: nothing while paused; otherwise the events
     * of one bounded fetch, then the re-centring.
     */
    method ProcessEvents(hasScreen: bool, win: Window, sdl: Backend) returns (posted: seq<Event>)
      modifies sdl`pending, sdl`cursorX, sdl`cursorY
      ensures !active ==> posted == [] && unchanged(sdl)
      ensures active ==> posted == SdlMousePosts(TakenFirst(old(sdl.pending), MouseClass(Sdl12), maxEvents))
      ensures active && hasScreen ==> sdl.cursorX == win.width / 2 && sdl.cursorY == win.height / 2
      ensures active && hasScreen ==> sdl.pending == LeftAfter(LeftAfter(old(sdl.pending), MouseClass(Sdl12), maxEvents) +
        [WarpEcho(win.width / 2, win.height / 2, old(sdl.cursorX), old(sdl.cursorY))], MouseClass(Sdl12), maxEvents)
      ensures active && !hasScreen ==> sdl.pending == LeftAfter(old(sdl.pending), MouseClass(Sdl12), maxEvents)
      ensures active && !hasScreen ==> sdl.cursorX == old(sdl.cursorX) && sdl.cursorY == old(sdl.cursorY)
    {
      if !active {
        return [];
      }
      var fetched := sdl.TakeAtMost(MouseClass(Sdl12), maxEvents);
      posted := Aggregate(fetched);
      Center(hasScreen, win, sdl);
    }

    /**
     * When the fetch has room for every pending mouse event, a frame leaves
     * exactly the other events: the warp's own motion event never reaches
     * the game.
     */
    lemma FrameLeavesNoMouseEvents(pending: seq<RawEvent>, echo: RawEvent)
      requires maxEvents > 0 && echo.MouseMotion?
      requires |Select(pending, MouseClass(Sdl12))| < maxEvents
      ensures LeftAfter(LeftAfter(pending, MouseClass(Sdl12), maxEvents) + [echo], MouseClass(Sdl12), maxEvents) ==
              Reject(pending, MouseClass(Sdl12))
      ensures TakenFirst(pending, MouseClass(Sdl12), maxEvents) == Select(pending, MouseClass(Sdl12))
    {
      LeftAfterCovering(pending, MouseClass(Sdl12), maxEvents);
      SelectOfReject(pending, MouseClass(Sdl12));
      EchoSwallowed(Reject(pending, MouseClass(Sdl12)), echo, maxEvents);
      TakenFirstIsPrefix(pending, MouseClass(Sdl12), maxEvents);
    }

    method Pause()
      modifies this`active
      ensures !active
    {
      active := false;
    }

    /** SDLMouse::resume: active again, then re-centred. */
    method Resume(hasScreen: bool, win: Window, sdl: Backend)
      modifies this`active, sdl`pending, sdl`cursorX, sdl`cursorY
      ensures active
      ensures hasScreen ==> sdl.cursorX == win.width / 2 && sdl.cursorY == win.height / 2
      ensures hasScreen ==> sdl.pending == LeftAfter(old(sdl.pending) +
        [WarpEcho(win.width / 2, win.height / 2, old(sdl.cursorX), old(sdl.cursorY))], MouseClass(Sdl12), maxEvents)
      ensures !hasScreen ==> unchanged(sdl)
    {
      active := true;
      Center(hasScreen, win, sdl);
    }
  }

  // ---------------------------------------------------------------------
  // RawWin32Mouse

  /**
   * One queued RAWMOUSE record: whether the coordinates are absolute
   * (MOUSE_MOVE_ABSOLUTE), the coordinates, usButtonFlags and usButtonData.
   */
  datatype RawSample = RawSample(absolute: bool, lastX: int, lastY: int, buttonFlags: bv16, buttonData: bv16)

  // RI_MOUSE_BUTTON_n_DOWN / _UP bits for buttons 1 to 5, and RI_MOUSE_WHEEL.
  const RI_DOWN: seq<bv16> := [0x0001, 0x0004, 0x0010, 0x0040, 0x0100]
  const RI_UP: seq<bv16> := [0x0002, 0x0008, 0x0020, 0x0080, 0x0200]
  const RI_MOUSE_WHEEL: bv16 := 0x0400
  const MOUSE_KEYS: seq<int> := [KEY_MOUSE1, KEY_MOUSE2, KEY_MOUSE3, KEY_MOUSE4, KEY_MOUSE5]

  /** The RI_MOUSE_BUTTON_n_DOWN (or _UP) bit of button i + 1. */
  function ButtonBit(down: bool, i: nat): bv16
    requires i < 5
  {
    if down then RI_DOWN[i] else RI_UP[i]
  }

  predicate BitSet(flags: bv16, down: bool, i: nat)
    requires i < 5
  {
    flags & ButtonBit(down, i) != 0
  }

  /** The key events for buttons 1 to n whose down (or up) bit is set, in button order. */
  function ButtonPosts(flags: bv16, down: bool, n: nat): (r: seq<Event>)
    requires n <= 5
    ensures |r| <= n
    ensures forall e :: e in r ==> e.kind == (if down then EvKeyDown else EvKeyUp) && !IsWheelKey(e.data1)
  {
    if n == 0 then []
    else
      ButtonPosts(flags, down, n - 1) +
        (if BitSet(flags, down, n - 1) then [KeyEvent(down, MOUSE_KEYS[n - 1])] else [])
  }

  /** A button's event is posted exactly when its bit is set. */
  lemma {:induction false} ButtonPostsExact(flags: bv16, down: bool, n: nat, i: nat)
    requires i < n <= 5
    ensures KeyEvent(down, MOUSE_KEYS[i]) in ButtonPosts(flags, down, n) <==> BitSet(flags, down, i)
    decreases n
  {
    var prev := ButtonPosts(flags, down, n - 1);
    var last: seq<Event> := if BitSet(flags, down, n - 1) then [KeyEvent(down, MOUSE_KEYS[n - 1])] else [];
    assert ButtonPosts(flags, down, n) == prev + last;
    assert MOUSE_KEYS[i] == KEY_MOUSE1 + i;
    if i < n - 1 {
      ButtonPostsExact(flags, down, n - 1, i);
      assert MOUSE_KEYS[n - 1] == KEY_MOUSE1 + (n - 1);
      assert KeyEvent(down, MOUSE_KEYS[i]) !in last;
    } else {
      ButtonPostsCodes(flags, down, n - 1);
      assert KeyEvent(down, MOUSE_KEYS[i]) !in prev;
    }
  }

  /** The codes of the first n buttons are KEY_MOUSE1 and the n - 1 after it. */
  lemma {:induction false} ButtonPostsCodes(flags: bv16, down: bool, n: nat)
    requires n <= 5
    ensures forall e :: e in ButtonPosts(flags, down, n) ==> KEY_MOUSE1 <= e.data1 < KEY_MOUSE1 + n
  {
    if n > 0 {
      ButtonPostsCodes(flags, down, n - 1);
      assert MOUSE_KEYS[n - 1] == KEY_MOUSE1 + (n - 1);
    }
  }

  /** usButtonData read as the signed SHORT it is. */
  function Short(d: bv16): (r: int)
    ensures -0x8000 <= r < 0x8000
    ensures (r - d as int) % 0x1_0000 == 0
    ensures r < 0 <==> d as int >= 0x8000
  {
    if d as int >= 0x8000 then d as int - 0x1_0000 else d as int
  }

  /** The wheel key-down of a record: down for a negative amount, up for a positive one. */
  function WheelPost(s: RawSample): (r: seq<Event>)
    ensures r != [] <==> s.buttonFlags & RI_MOUSE_WHEEL != 0 && s.buttonData != 0
    ensures r != [] ==> r == [KeyEvent(true, if Short(s.buttonData) < 0 then KEY_MWHEELDOWN else KEY_MWHEELUP)]
  {
    if s.buttonFlags & RI_MOUSE_WHEEL != 0 then
      if Short(s.buttonData) < 0 then [KeyEvent(true, KEY_MWHEELDOWN)]
      else if Short(s.buttonData) > 0 then [KeyEvent(true, KEY_MWHEELUP)]
      else []
    else []
  }

  /**
   * The button events of one record: downs of buttons 1-5, ups of buttons
   * 1-5, then the wheel; at most eleven key events and never an ev_mouse.
   */
  function RawButtons(s: RawSample): (r: seq<Event>)
    ensures |r| <= 11
  {
    ButtonPosts(s.buttonFlags, true, 5) + ButtonPosts(s.buttonFlags, false, 5) + WheelPost(s)
  }

  /** A record's button events are key events, never ev_mouse. */
  lemma RawButtonsKeys(s: RawSample)
    ensures forall e :: e in RawButtons(s) ==> e.kind == EvKeyDown || e.kind == EvKeyUp
  {
    var downs := ButtonPosts(s.buttonFlags, true, 5);
    var ups := ButtonPosts(s.buttonFlags, false, 5);
    assert forall e :: e in downs + ups + WheelPost(s) ==> e in downs || e in ups || e in WheelPost(s);
  }

  /** Within a record, no button-down is posted after a button-up. */
  lemma DownsBeforeUps(s: RawSample)
    ensures var r := RawButtons(s);
      forall i, j :: 0 <= i < j < |r| && r[i].kind == EvKeyUp ==> r[j].kind == EvKeyUp || IsWheelKey(r[j].data1)
  {
    var downs := ButtonPosts(s.buttonFlags, true, 5);
    var ups := ButtonPosts(s.buttonFlags, false, 5);
    var w := WheelPost(s);
    var r := RawButtons(s);
    forall k | 0 <= k < |downs|
      ensures r[k].kind == EvKeyDown
    {
      assert r[k] == downs[k] && downs[k] in downs;
    }
    forall i, j | 0 <= i < j < |r| && r[i].kind == EvKeyUp
      ensures r[j].kind == EvKeyUp || IsWheelKey(r[j].data1)
    {
      if j < |downs| + |ups| {
        assert r[j] == ups[j - |downs|] && ups[j - |downs|] in ups;
      } else {
        assert r[j] == w[j - |downs| - |ups|];
      }
    }
  }

  /**
   * The driver's pointer state while a frame is processed: the previous
   * absolute position and whether it is valid (mPrevX, mPrevY, mPrevValid),
   * and the movement accumulated so far.
   */
  datatype Pointer = Pointer(prevX: int, prevY: int, prevValid: bool, dx: int, dy: int)

  /** The movement of one record. */
  function RawMove(p: Pointer, s: RawSample): (q: Pointer)
    ensures s.absolute ==> q.prevX == s.lastX && q.prevY == s.lastY && q.prevValid
    ensures !s.absolute ==> q.prevX == p.prevX && q.prevY == p.prevY && !q.prevValid
  {
    if s.absolute then
      if p.prevValid then Pointer(s.lastX, s.lastY, true, p.dx + (s.lastX - p.prevX), p.dy - (s.lastY - p.prevY))
      else Pointer(s.lastX, s.lastY, true, p.dx, p.dy)
    else Pointer(p.prevX, p.prevY, false, p.dx + s.lastX, p.dy - s.lastY)
  }

  function RawFold(p: Pointer, samples: seq<RawSample>): Pointer
  {
    if samples == [] then p
    else RawMove(RawFold(p, samples[..|samples| - 1]), samples[|samples| - 1])
  }

  /** The button events of the records, in order. */
  function RawButtonsAll(samples: seq<RawSample>): (r: seq<Event>)
    ensures |r| <= 11 * |samples|
  {
    if samples == [] then []
    else RawButtonsAll(samples[..|samples| - 1]) + RawButtons(samples[|samples| - 1])
  }

  /** Everything RawWin32Mouse::processEvents posts for the records it processes. */
  function RawPosts(p: Pointer, samples: seq<RawSample>): (r: seq<Event>)
    ensures |r| <= 11 * |samples| + 1
    ensures RawButtonsAll(samples) <= r
  {
    RawButtonsAll(samples) + MovementEvent(RawFold(p, samples).dx, RawFold(p, samples).dy)
  }

  /**
   * The records' movement is posted as one ev_mouse event, the last one,
   * when the accumulated movement is not zero; every event before it is a
   * key event.
   */
  lemma {:induction false} RawButtonsAllKeys(samples: seq<RawSample>)
    ensures forall e :: e in RawButtonsAll(samples) ==> e.kind == EvKeyDown || e.kind == EvKeyUp
  {
    if samples != [] {
      RawButtonsAllKeys(samples[..|samples| - 1]);
      RawButtonsKeys(samples[|samples| - 1]);
    }
  }

  lemma RawPostsOneMovement(p: Pointer, samples: seq<RawSample>)
    ensures var r := RawPosts(p, samples);
      forall i :: 0 <= i < |r| - 1 ==> r[i].kind != EvMouse
    ensures var r := RawPosts(p, samples);
      var q := RawFold(p, samples);
      (r != [] && r[|r| - 1].kind == EvMouse) <==> (q.dx != 0 || q.dy != 0)
    ensures var r := RawPosts(p, samples);
      var q := RawFold(p, samples);
      r != [] && r[|r| - 1].kind == EvMouse ==> r[|r| - 1] == Event(EvMouse, 0, q.dx, q.dy)
  {
    var b := RawButtonsAll(samples);
    var r := RawPosts(p, samples);
    RawButtonsAllKeys(samples);
    forall i | 0 <= i < |b|
      ensures r[i].kind != EvMouse
    {
      assert r[i] == b[i] && b[i] in b;
    }
    if |r| > |b| {
      assert r[|r| - 1].kind == EvMouse;
    } else if r != [] {
      assert r[|r| - 1] in b;
    }
  }

  /** Sum of the coordinates of relative records, vertical turned upwards. */
  function RelativeSum(samples: seq<RawSample>): (int, int)
  {
    if samples == [] then (0, 0)
    else
      var s := RelativeSum(samples[..|samples| - 1]);
      (s.0 + samples[|samples| - 1].lastX, s.1 - samples[|samples| - 1].lastY)
  }

  /** Relative records add up: their movement is the sum of their coordinates. */
  lemma {:induction false} RelativeMovementAdds(p: Pointer, samples: seq<RawSample>)
    requires forall s :: s in samples ==> !s.absolute
    ensures RawFold(p, samples).dx == p.dx + RelativeSum(samples).0
    ensures RawFold(p, samples).dy == p.dy + RelativeSum(samples).1
  {
    if samples != [] {
      var init := samples[..|samples| - 1];
      assert forall s :: s in init ==> s in samples;
      assert samples[|samples| - 1] in samples;
      RelativeMovementAdds(p, init);
    }
  }

  /**
   * Absolute records telescope: the movement of a run of them is the
   * distance from the last valid position (or the first record, when there
   * is none) to the last record.
   */
  lemma {:induction false} AbsoluteMovementTelescopes(p: Pointer, samples: seq<RawSample>)
    requires samples != []
    requires forall s :: s in samples ==> s.absolute
    ensures var start := if p.prevValid then (p.prevX, p.prevY) else (samples[0].lastX, samples[0].lastY);
      var last := samples[|samples| - 1];
      RawFold(p, samples).dx == p.dx + (last.lastX - start.0) &&
      RawFold(p, samples).dy == p.dy - (last.lastY - start.1)
  {
    var init := samples[..|samples| - 1];
    assert samples[|samples| - 1] in samples;
    if init != [] {
      assert forall s :: s in init ==> s in samples;
      assert init[0] == samples[0];
      AbsoluteMovementTelescopes(p, init);
      assert RawFold(p, init).prevValid;
      assert RawFold(p, init).prevX == init[|init| - 1].lastX;
    }
  }

  /**
   * How many records the as-written loop leaves: it counts i up while
   * popping, and stops once i reaches what is left.
   */
  function LeftAsWritten(i: nat, left: nat): (r: nat)
    ensures r <= left
    decreases left
  {
    if i < left then LeftAsWritten(i + 1, left - 1) else left
  }

  /** The as-written loop leaves the newer half of the queue behind. */
  lemma {:induction false} LeftAsWrittenHalf(i: nat, left: nat)
    ensures LeftAsWritten(i, left) == if i < left then left - (left - i + 1) / 2 else left
    decreases left
  {
    if i < left {
      LeftAsWrittenHalf(i + 1, left - 1);
    }
  }

  /** A frame with two or more records leaves at least one for the next frame. */
  lemma AsWrittenLeavesRecords(n: nat)
    requires n >= 2
    ensures LeftAsWritten(0, n) == n / 2 && LeftAsWritten(0, n) > 0
  {
    LeftAsWrittenHalf(0, n);
  }

  /** RawWin32Mouse: a queue of RAWMOUSE records filled by the window hook. */
  class RawWin32Mouse {
    var queue: seq<RawSample>
    var prevX: int
    var prevY: int
    var prevValid: bool
    var active: bool

    /** The member initialisers; the device registration and hook are not modelled. */
    constructor ()
      ensures queue == [] && !active
      ensures prevX == 0 && prevY == 0 && !prevValid
    {
      queue := [];
      prevX, prevY, prevValid := 0, 0, false;
      active := false;
    }

    function PointerNow(): Pointer
      reads this
    {
      Pointer(prevX, prevY, prevValid, 0, 0)
    }

    predicate Paused()
      reads this
    {
      !active
    }

    /** Processes the oldest record: its movement goes into the pointer fields, its buttons are returned. */
    method PopRecord(p: Pointer) returns (q: Pointer, buttons: seq<Event>)
      requires queue != []
      requires p.prevX == prevX && p.prevY == prevY && p.prevValid == prevValid
      modifies this`queue, this`prevX, this`prevY, this`prevValid
      ensures q == RawMove(p, old(queue)[0]) && buttons == RawButtons(old(queue)[0])
      ensures queue == old(queue)[1..]
      ensures prevX == q.prevX && prevY == q.prevY && prevValid == q.prevValid
    {
      q := RawMove(p, queue[0]);
      prevX, prevY, prevValid := q.prevX, q.prevY, q.prevValid;
      buttons := RawButtons(queue[0]);
      queue := queue[1..];
    }

    /**
     * The loop of processEvents as written: the counter is compared with the
     * queue size after each pop, so it stops once the two meet, having
     * processed the older half of the queue (rounded up).
     */
    method PopAsWritten(p: Pointer) returns (q: Pointer, buttons: seq<Event>, ghost k: nat)
      requires p.prevX == prevX && p.prevY == prevY && p.prevValid == prevValid
      modifies this`queue, this`prevX, this`prevY, this`prevValid
      ensures k <= |old(queue)| && queue == old(queue)[k..]
      ensures |queue| == LeftAsWritten(0, |old(queue)|)
      ensures q == RawFold(p, old(queue)[..k]) && buttons == RawButtonsAll(old(queue)[..k])
      ensures prevX == q.prevX && prevY == q.prevY && prevValid == q.prevValid
    {
      ghost var orig := queue;
      q := p;
      buttons := [];
      var i := 0;
      while i < |queue|
        invariant i <= |orig| && queue == orig[i..]
        invariant LeftAsWritten(i, |queue|) == LeftAsWritten(0, |orig|)
        invariant q == RawFold(p, orig[..i])
        invariant prevX == q.prevX && prevY == q.prevY && prevValid == q.prevValid
        invariant buttons == RawButtonsAll(orig[..i])
        decreases |queue|
      {
        assert orig[..i + 1][..i] == orig[..i];
        assert orig[..i + 1][i] == queue[0];
        var more;
        q, more := PopRecord(q);
        buttons := buttons + more;
        i := i + 1;
      }
      k := i;
    }

    /**
     * RawWin32Mouse::processEvents as written: the older half of the queue
     * (rounded up) is processed and the rest stays queued.
     */
    method ProcessEventsAsWritten() returns (posted: seq<Event>)
      modifies this`queue, this`prevX, this`prevY, this`prevValid
      ensures !old(active) ==> posted == [] && unchanged(this)
      ensures old(active) ==> |queue| == LeftAsWritten(0, |old(queue)|)
      ensures old(active) ==> queue == old(queue)[|old(queue)| - |queue|..]
      ensures old(active) ==> posted == RawPosts(old(PointerNow()), old(queue)[..|old(queue)| - |queue|])
      ensures old(active) ==>
        PointerNow() == RawFold(old(PointerNow()), old(queue)[..|old(queue)| - |queue|]).(dx := 0, dy := 0)
    {
      if !active {
        return [];
      }
      var p := PointerNow();
      var buttons;
      ghost var k;
      p, buttons, k := PopAsWritten(p);
      posted := buttons + MovementEvent(p.dx, p.dy);
    }

    /** processEvents as intended: every queued record is processed. */
    method ProcessEvents() returns (posted: seq<Event>)
      modifies this`queue, this`prevX, this`prevY, this`prevValid
      ensures !old(active) ==> posted == [] && unchanged(this)
      ensures old(active) ==> queue == []
      ensures old(active) ==> posted == RawPosts(old(PointerNow()), old(queue))
      ensures old(active) ==> PointerNow() == RawFold(old(PointerNow()), old(queue)).(dx := 0, dy := 0)
    {
      if !active {
        return [];
      }
      ghost var orig := queue;
      var p := PointerNow();
      ghost var p0 := p;
      posted := [];
      ghost var i := 0;
      while queue != []
        invariant i <= |orig| && queue == orig[i..]
        invariant p == RawFold(p0, orig[..i])
        invariant prevX == p.prevX && prevY == p.prevY && prevValid == p.prevValid
        invariant posted == RawButtonsAll(orig[..i])
        decreases |queue|
      {
        assert orig[..i + 1][..i] == orig[..i];
        assert orig[..i + 1][i] == queue[0];
        var buttons;
        p, buttons := PopRecord(p);
        posted := posted + buttons;
        i := i + 1;
      }
      assert orig[..i] == orig;
      posted := posted + MovementEvent(p.dx, p.dy);
    }

    /** RawWin32Mouse::flushEvents: clears the queue. */
    method FlushEvents()
      modifies this`queue
      ensures queue == []
    {
      queue := [];
    }

    method Pause()
      modifies this`active
      ensures !active
    {
      active := false;
    }

    /** RawWin32Mouse::resume: active, re-centring does nothing, then the queue is cleared. */
    method Resume()
      modifies this`active, this`queue
      ensures active && queue == []
    {
      active := true;
      FlushEvents();
    }
  }
}
