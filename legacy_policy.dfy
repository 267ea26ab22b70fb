/**
 * The decisions of the legacy SDL 1.2 input path that depend only on
 * values: whether the mouse may be grabbed, what the focus update does,
 * the text a key event carries, the axis deadzone and the hat key codes.
 */
module LegacyPolicy {
  import opened Sdl
  import opened Events
  import Joystick

  /** The game states the grab policy distinguishes (GS_LEVEL, GS_INTERMISSION, any other). */
  datatype GameState = LevelState | IntermissionState | OtherState

  /**
   * The globals the grab policy reads: vid_fullscreen, the -nomouse
   * switch, menuactive, ConsoleState == c_down, paused, gamestate and
   * demoplayback.
   */
  datatype GameContext = GameContext(
    fullscreen: bool,
    nomouse: bool,
    menuActive: bool,
    consoleDown: bool,
    paused: bool,
    gamestate: GameState,
    demoPlayback: bool)

  /**
   * I_CheckMouseGrab: never without focus; always in full screen; otherwise
   * only while a level or intermission is being played (not a demo) with
   * mouse input enabled and no menu, console or pause in the way.
   */
  function CheckMouseGrab(focused: bool, g: GameContext): (r: bool)
    ensures !focused ==> !r
    ensures focused && g.fullscreen ==> r
    ensures !g.fullscreen && (g.nomouse || g.menuActive || g.consoleDown || g.paused) ==> !r
    ensures !g.fullscreen && g.demoPlayback ==> !r
    ensures r && !g.fullscreen ==> g.gamestate == LevelState || g.gamestate == IntermissionState
    ensures (focused && !g.nomouse && !g.menuActive && !g.consoleDown && !g.paused && !g.demoPlayback &&
             (g.gamestate == LevelState || g.gamestate == IntermissionState)) ==> r
  {
    if !focused then false
    else if g.fullscreen then true
    else if g.nomouse then false
    else if g.menuActive || g.consoleDown || g.paused then false
    else (g.gamestate == LevelState || g.gamestate == IntermissionState) && !g.demoPlayback
  }

  /** What the focus update does to the grab. */
  datatype GrabAction = GrabMouse | ReleaseMouse | KeepGrab

  /**
   * The grab branch of I_UpdateFocus: grab when allowed but not grabbed,
   * release when grabbed but no longer allowed, otherwise leave it.
   */
  function GrabDecision(canGrab: bool, mouseGrabbed: bool): (a: GrabAction)
    ensures a == GrabMouse <==> canGrab && !mouseGrabbed
    ensures a == ReleaseMouse <==> mouseGrabbed && !canGrab
    ensures a == KeepGrab <==> canGrab == mouseGrabbed
  {
    if canGrab && !mouseGrabbed then GrabMouse
    else if mouseGrabbed && !canGrab then ReleaseMouse
    else KeepGrab
  }

  /**
   * One call of I_UpdateFocus: whether it flushes input because the window
   * has just gained focus, and what it does to the grab (a grab flushes
   * input once more).
   */
  datatype FocusStep = FocusStep(flushOnGain: bool, action: GrabAction)

  predicate Flushes(s: FocusStep)
  {
    s.flushOnGain || s.action == GrabMouse
  }

  /** mouse_grabbed as written: a mouse driver exists and is not paused. */
  function MouseGrabbedAsWritten(hasMouse: bool, mousePaused: bool): bool
  {
    hasMouse && !mousePaused
  }

  /**
   * mouse_grabbed as intended: the driver's state when there is one, and
   * SDL's own grab flag when there is none (-nomouse).
   */
  function MouseGrabbedCorrected(hasMouse: bool, mousePaused: bool, sdlGrabbed: bool): bool
  {
    if hasMouse then !mousePaused else sdlGrabbed
  }

  /** I_UpdateFocus as written. */
  function UpdateFocusAsWritten(wasFocused: bool, nowFocused: bool, g: GameContext,
                                hasMouse: bool, mousePaused: bool): (s: FocusStep)
    ensures s.flushOnGain <==> nowFocused && !wasFocused
    ensures s.action == GrabDecision(CheckMouseGrab(nowFocused, g), MouseGrabbedAsWritten(hasMouse, mousePaused))
  {
    FocusStep(nowFocused && !wasFocused,
              GrabDecision(CheckMouseGrab(nowFocused, g), MouseGrabbedAsWritten(hasMouse, mousePaused)))
  }

  /** I_UpdateFocus with mouse_grabbed read from SDL's grab flag when there is no mouse driver. */
  function UpdateFocusCorrected(wasFocused: bool, nowFocused: bool, g: GameContext,
                                hasMouse: bool, mousePaused: bool, sdlGrabbed: bool): (s: FocusStep)
    ensures s.flushOnGain <==> nowFocused && !wasFocused
    ensures s.action == GrabDecision(CheckMouseGrab(nowFocused, g),
                                     MouseGrabbedCorrected(hasMouse, mousePaused, sdlGrabbed))
  {
    FocusStep(nowFocused && !wasFocused,
              GrabDecision(CheckMouseGrab(nowFocused, g), MouseGrabbedCorrected(hasMouse, mousePaused, sdlGrabbed)))
  }

  /** SDL's grab flag after a step. */
  function GrabbedAfter(a: GrabAction, sdlGrabbed: bool): bool
  {
    match a
    case GrabMouse => true
    case ReleaseMouse => false
    case KeepGrab => sdlGrabbed
  }

  /** The mouse driver's paused state after a step (I_ResumeMouse / I_PauseMouse). */
  function PausedAfter(a: GrabAction, mousePaused: bool): bool
  {
    match a
    case GrabMouse => false
    case ReleaseMouse => true
    case KeepGrab => mousePaused
  }

  /**
   * The defect: without a mouse driver, in full screen with the window
   * focused, every tick decides to grab again and so flushes every pending
   * SDL event, keyboard included, before I_GetEvent can read it.
   */
  lemma NoMouseFullscreenFlushesEveryTick(g: GameContext, mousePaused: bool)
    requires g.fullscreen
    ensures UpdateFocusAsWritten(true, true, g, false, mousePaused).action == GrabMouse
    ensures Flushes(UpdateFocusAsWritten(true, true, g, false, mousePaused))
    ensures var s := UpdateFocusAsWritten(true, true, g, false, mousePaused);
      Flushes(UpdateFocusAsWritten(true, true, g, false, PausedAfter(s.action, mousePaused)))
  {
  }

  /**
   * Without a mouse driver in a window with -nomouse, grabbing is never
   * allowed. As written the step keeps whatever grab SDL holds, so the grab
   * taken when the window gained focus stays on. The correction releases it
   * exactly when SDL holds it.
   */
  lemma NoMouseWindowedGrab(wasFocused: bool, nowFocused: bool, g: GameContext,
                            mousePaused: bool, sdlGrabbed: bool)
    requires !g.fullscreen && g.nomouse
    ensures UpdateFocusAsWritten(wasFocused, nowFocused, g, false, mousePaused).action == KeepGrab
    ensures UpdateFocusCorrected(wasFocused, nowFocused, g, false, mousePaused, sdlGrabbed).action ==
            (if sdlGrabbed then ReleaseMouse else KeepGrab)
  {
  }

  /** The correction changes nothing when a mouse driver exists. */
  lemma CorrectedAgreesWithDriver(wasFocused: bool, nowFocused: bool, g: GameContext,
                                  mousePaused: bool, sdlGrabbed: bool)
    ensures UpdateFocusCorrected(wasFocused, nowFocused, g, true, mousePaused, sdlGrabbed) ==
            UpdateFocusAsWritten(wasFocused, nowFocused, g, true, mousePaused)
  {
  }

  /**
   * The corrected update settles: once a step has acted, the next tick with
   * the same focus and game state neither flushes nor changes the grab.
   */
  lemma CorrectedSettles(wasFocused: bool, nowFocused: bool, g: GameContext,
                         hasMouse: bool, mousePaused: bool, sdlGrabbed: bool)
    ensures var s := UpdateFocusCorrected(wasFocused, nowFocused, g, hasMouse, mousePaused, sdlGrabbed);
      var next := UpdateFocusCorrected(nowFocused, nowFocused, g, hasMouse,
                                       PausedAfter(s.action, mousePaused), GrabbedAfter(s.action, sdlGrabbed));
      next == FocusStep(false, KeepGrab)
  {
    var s := UpdateFocusCorrected(wasFocused, nowFocused, g, hasMouse, mousePaused, sdlGrabbed);
    var can := CheckMouseGrab(nowFocused, g);
    var mg := MouseGrabbedCorrected(hasMouse, mousePaused, sdlGrabbed);
    var mg' := MouseGrabbedCorrected(hasMouse, PausedAfter(s.action, mousePaused), GrabbedAfter(s.action, sdlGrabbed));
    assert s.action == GrabDecision(can, mg);
    assert mg' == can;
  }

  /** The SDL 1.2 keypad symbols that carry their own text. */
  predicate KeypadText(sym: int)
  {
    (SDLK_KP0 <= sym <= SDLK_KP9) || sym == SDLK_KP_PERIOD || sym == SDLK_KP_DIVIDE || sym == SDLK_KP_ENTER
  }

  /** The text of a key event: the unicode value when it is 7-bit ASCII, 0 otherwise. */
  function AsciiText(unicode: bv16): (r: int)
    ensures unicode as int < 128 ==> r == unicode as int
    ensures unicode as int >= 128 ==> r == 0
  {
    if unicode & 0xFF80 == 0 then unicode as int else 0
  }

  /** The text I_GetEvent puts in data2 and data3 of a key-down. */
  function KeyDownText(sym: int, unicode: bv16): (r: int)
    ensures 0 <= r < 128
    ensures SDLK_KP0 <= sym <= SDLK_KP9 ==> r == '0' as int + (sym - SDLK_KP0)
    ensures sym == SDLK_KP_PERIOD ==> r == '.' as int
    ensures sym == SDLK_KP_DIVIDE ==> r == '/' as int
    ensures sym == SDLK_KP_ENTER ==> r == '\r' as int
    ensures !KeypadText(sym) ==> r == AsciiText(unicode)
  {
    if SDLK_KP0 <= sym <= SDLK_KP9 then '0' as int + (sym - SDLK_KP0)
    else if sym == SDLK_KP_PERIOD then '.' as int
    else if sym == SDLK_KP_DIVIDE then '/' as int
    else if sym == SDLK_KP_ENTER then '\r' as int
    else AsciiText(unicode)
  }

  /** The axis value I_GetEvent reports; it is the one the joystick device reports. */
  function LegacyAxisValue(value: int): (r: int)
    ensures r == 0 <==> -JOY_DEADZONE < value < JOY_DEADZONE || value == 0
    ensures r != 0 ==> r == value
    ensures r == Joystick.AxisValue(value)
  {
    if value < JOY_DEADZONE && value > -JOY_DEADZONE then 0 else value
  }

  /**
   * The key of one hat direction in the legacy hat list: the code the
   * joystick device uses for that direction, 0 for a value that is not a
   * single direction.
   */
  function LegacyHatCode(hat: int, value: bv8): (r: int)
    ensures forall i :: 0 <= i < 4 && value == Joystick.HAT_FLAGS[i] ==> r == Joystick.HatCode(hat, i)
    ensures value !in Joystick.HAT_FLAGS ==> r == 0
  {
    if value == HAT_UP then hat * 4 + KEY_HAT1
    else if value == HAT_RIGHT then hat * 4 + KEY_HAT2
    else if value == HAT_DOWN then hat * 4 + KEY_HAT3
    else if value == HAT_LEFT then hat * 4 + KEY_HAT4
    else 0
  }
}
