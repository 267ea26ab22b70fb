/**
 * The SDL input subsystem (ISDL12InputSubsystem / ISDL20InputSubsystem):
 * one slot per device variant, the list of devices registered with the
 * input layer, and whether input is grabbed.
 */
module Subsystem {
  import opened Sdl
  import opened Keyboard
  import opened Mouse
  import opened Joystick

  datatype DeviceKind = KeyboardKind | MouseKind | JoystickKind

  /** s with k taken out, order kept (unregisterInputDevice). */
  function Without(s: seq<DeviceKind>, k: DeviceKind): (r: seq<DeviceKind>)
    ensures forall x :: x in r <==> x in s && x != k
    ensures |r| <= |s|
  {
    if s == [] then []
    else (if s[0] == k then [] else [s[0]]) + Without(s[1..], k)
  }

  predicate NoDuplicates(s: seq<DeviceKind>)
  {
    forall i, j :: 0 <= i < j < |s| ==> s[i] != s[j]
  }

  lemma {:induction false} WithoutKeepsNoDuplicates(s: seq<DeviceKind>, k: DeviceKind)
    requires NoDuplicates(s)
    ensures NoDuplicates(Without(s, k))
  {
    if s != [] {
      WithoutKeepsNoDuplicates(s[1..], k);
      var rest := Without(s[1..], k);
      assert s[0] !in s[1..];
      if s[0] != k {
        assert Without(s, k) == [s[0]] + rest;
        assert s[0] !in rest;
      }
    }
  }

  /** Taking out a kind that is not registered changes nothing. */
  lemma {:induction false} WithoutAbsent(s: seq<DeviceKind>, k: DeviceKind)
    requires k !in s
    ensures Without(s, k) == s
  {
    if s != [] {
      WithoutAbsent(s[1..], k);
    }
  }

  /** A list that holds none of the three kinds is empty. */
  lemma NoKindLeft(s: seq<DeviceKind>)
    ensures KeyboardKind !in s && MouseKind !in s && JoystickKind !in s ==> s == []
  {
    if s != [] {
      assert s[0] in s;
      assert s[0] == KeyboardKind || s[0] == MouseKind || s[0] == JoystickKind;
    }
  }

  class InputSubsystem {
    const version: Version
    const tables: KeyTables
    var keyboard: KeyboardDevice?
    var mouse: MouseDevice?
    var joystick: JoystickDevice?
    var registered: seq<DeviceKind>
    var inputGrabbed: bool

    /** At most one device per variant, each registered exactly once. */
    predicate Valid()
      reads this
    {
      NoDuplicates(registered) &&
      (KeyboardKind in registered <==> keyboard != null) &&
      (MouseKind in registered <==> mouse != null) &&
      (JoystickKind in registered <==> joystick != null) &&
      (keyboard != null ==> keyboard.version == version && keyboard.tables == tables) &&
      (mouse != null ==> mouse.version == version)
    }

    /** The constructor hides the cursor and grabs input; no device exists yet. */
    constructor (version: Version, tables: KeyTables, sdl: Backend)
      modifies sdl`cursorShown, sdl`grabbed
      ensures Valid() && this.version == version && this.tables == tables
      ensures keyboard == null && mouse == null && joystick == null && registered == []
      ensures inputGrabbed && sdl.grabbed && !sdl.cursorShown
    {
      this.version := version;
      this.tables := tables;
      keyboard, mouse, joystick := null, null, null;
      registered := [];
      inputGrabbed := false;
      new;
      sdl.ShowCursor(false);
      GrabInput(sdl);
    }

    /** grabInput: SDL_WM_GrabInput(on) / relative mouse mode on. */
    method GrabInput(sdl: Backend)
      modifies this`inputGrabbed, sdl`grabbed
      ensures inputGrabbed && sdl.grabbed
    {
      sdl.SetGrab(true);
      inputGrabbed := true;
    }

    /** releaseInput: the grab off again. */
    method ReleaseInput(sdl: Backend)
      modifies this`inputGrabbed, sdl`grabbed
      ensures !inputGrabbed && !sdl.grabbed
    {
      sdl.SetGrab(false);
      inputGrabbed := false;
    }

    /** shutdownKeyboard: unregisters and destroys the keyboard (its destructor pauses it). */
    method ShutdownKeyboard()
      requires Valid()
      modifies this`keyboard, this`registered, keyboard
      ensures Valid() && keyboard == null
      ensures registered == Without(old(registered), KeyboardKind)
      ensures old(keyboard) != null ==> !old(keyboard).enabled
    {
      WithoutKeepsNoDuplicates(registered, KeyboardKind);
      if keyboard != null {
        registered := Without(registered, KeyboardKind);
        keyboard.Pause();
        keyboard := null;
      }
      else {
        WithoutAbsent(registered, KeyboardKind);
      }
    }

    /**
     * initKeyboard: replaces any keyboard by a new one, registers it and
     * resumes it (the device's constructor has already resumed it once).
     */
    method InitKeyboard(win: Window, sdl: Backend)
      requires Valid()
      modifies this`keyboard, this`registered, keyboard, sdl`pending
      ensures Valid() && keyboard != null && fresh(keyboard)
      ensures keyboard.version == version && keyboard.tables == tables
      ensures keyboard.enabled && keyboard.events == []
      ensures registered == Without(old(registered), KeyboardKind) + [KeyboardKind]
      ensures win.focused ==> sdl.pending == KeyboardLeaves(version, old(sdl.pending))
      ensures !win.focused ==> sdl.pending == old(sdl.pending)
    {
      ShutdownKeyboard();
      var device := new KeyboardDevice(version, tables, win, sdl);
      keyboard := device;
      registered := registered + [KeyboardKind];
      device.Resume(win, sdl);
      if win.focused {
        KeyboardLeavesTwice(version, old(sdl.pending));
      }
    }

    method PauseKeyboard()
      modifies keyboard
      ensures keyboard != null ==> !keyboard.enabled
      ensures keyboard != null ==> keyboard.events == old(keyboard.events)
    {
      if keyboard != null {
        keyboard.Pause();
      }
    }

    method ResumeKeyboard(win: Window, sdl: Backend)
      requires Valid()
      modifies keyboard, sdl`pending
      ensures keyboard != null ==> keyboard.enabled && keyboard.events == []
      ensures keyboard != null && win.focused ==> sdl.pending == KeyboardLeaves(version, old(sdl.pending))
      ensures keyboard == null || !win.focused ==> sdl.pending == old(sdl.pending)
    {
      if keyboard != null {
        keyboard.Resume(win, sdl);
      }
    }

    /** shutdownMouse: unregisters and destroys the mouse; its destructor shows the cursor. */
    method ShutdownMouse(sdl: Backend)
      requires Valid()
      modifies this`mouse, this`registered, mouse, sdl`cursorShown
      ensures Valid() && mouse == null
      ensures registered == Without(old(registered), MouseKind)
      ensures old(mouse) != null ==> !old(mouse).enabled && sdl.cursorShown
      ensures old(mouse) == null ==> sdl.cursorShown == old(sdl.cursorShown)
    {
      WithoutKeepsNoDuplicates(registered, MouseKind);
      if mouse != null {
        registered := Without(registered, MouseKind);
        mouse.Pause(sdl);
        mouse := null;
      } else {
        WithoutAbsent(registered, MouseKind);
      }
    }

    /** initMouse: replaces any mouse by a new one, registers it and resumes it. */
    method InitMouse(win: Window, sdl: Backend)
      requires Valid()
      modifies this`mouse, this`registered, mouse, sdl`pending, sdl`cursorX, sdl`cursorY, sdl`cursorShown
      ensures Valid() && mouse != null && fresh(mouse) && mouse.version == version
      ensures mouse.enabled && mouse.events == [] && !sdl.cursorShown
      ensures registered == Without(old(registered), MouseKind) + [MouseKind]
      ensures win.focused ==> (sdl.pending == Reject(old(sdl.pending), MouseClass(version)) &&
                sdl.cursorX == win.width / 2 && sdl.cursorY == win.height / 2)
      ensures !win.focused ==> (sdl.pending == old(sdl.pending) &&
                sdl.cursorX == old(sdl.cursorX) && sdl.cursorY == old(sdl.cursorY))
    {
      ShutdownMouse(sdl);
      var device := new MouseDevice(version, win, sdl);
      mouse := device;
      registered := registered + [MouseKind];
      device.Resume(win, sdl);
    }

    method PauseMouse(sdl: Backend)
      modifies mouse, sdl`cursorShown
      ensures mouse != null ==> !mouse.enabled && sdl.cursorShown
      ensures mouse == null ==> sdl.cursorShown == old(sdl.cursorShown)
    {
      if mouse != null {
        mouse.Pause(sdl);
      }
    }

    method ResumeMouse(win: Window, sdl: Backend)
      requires Valid()
      modifies mouse, sdl`pending, sdl`cursorX, sdl`cursorY, sdl`cursorShown
      ensures mouse != null ==> mouse.enabled && mouse.events == [] && !sdl.cursorShown
      ensures mouse != null && win.focused ==> sdl.pending == Reject(old(sdl.pending), MouseClass(version))
      ensures mouse == null || !win.focused ==> sdl.pending == old(sdl.pending)
    {
      if mouse != null {
        mouse.Resume(win, sdl);
      }
    }

    /** shutdownJoystick: unregisters and destroys the joystick (its destructor pauses it). */
    method ShutdownJoystick()
      requires Valid()
      modifies this`joystick, this`registered, joystick
      ensures Valid() && joystick == null
      ensures registered == Without(old(registered), JoystickKind)
      ensures old(joystick) != null ==> !old(joystick).enabled
    {
      WithoutKeepsNoDuplicates(registered, JoystickKind);
      if joystick != null {
        registered := Without(registered, JoystickKind);
        joystick.Pause();
        joystick := null;
      } else {
        WithoutAbsent(registered, JoystickKind);
      }
    }

    /**
     * initJoystick: replaces any joystick by a new one for joystick id (opens
     * tells whether SDL could open it, numHats how many hats it has),
     * registers it and resumes it.
     */
    method InitJoystick(id: int, opens: bool, numHats: nat, win: Window, sdl: Backend)
      requires Valid()
      requires opens && win.focused ==> HatsInRange(Select(sdl.pending, JoystickClass), id, numHats)
      modifies this`joystick, this`registered, joystick, sdl`pending
      ensures Valid() && joystick != null && fresh(joystick)
      ensures joystick.joystickId == id && joystick.isOpen == opens
      ensures joystick.enabled && joystick.events == []
      ensures registered == Without(old(registered), JoystickKind) + [JoystickKind]
      ensures opens && win.focused ==> sdl.pending == Reject(old(sdl.pending), JoystickClass)
      ensures !(opens && win.focused) ==> sdl.pending == old(sdl.pending)
    {
      ShutdownJoystick();
      var device := new JoystickDevice(id, opens, numHats, win, sdl);
      joystick := device;
      registered := registered + [JoystickKind];
      SelectOfReject(old(sdl.pending), JoystickClass);
      device.Resume(win, sdl);
    }

    method PauseJoystick()
      modifies joystick
      ensures joystick != null ==> !joystick.enabled
      ensures joystick != null ==> joystick.events == old(joystick.events)
    {
      if joystick != null {
        joystick.Pause();
      }
    }

    method ResumeJoystick(win: Window, sdl: Backend)
      requires joystick != null && joystick.isOpen && win.focused ==>
                 HatsInRange(Select(sdl.pending, JoystickClass), joystick.joystickId, joystick.hatStates.Length)
      modifies joystick, (if joystick != null then {joystick.hatStates} else {}), sdl`pending
      ensures joystick != null ==> joystick.enabled && joystick.events == []
      ensures joystick != null && joystick.isOpen && win.focused ==> sdl.pending == Reject(old(sdl.pending), JoystickClass)
      ensures joystick == null || !(joystick.isOpen && win.focused) ==> sdl.pending == old(sdl.pending)
    {
      if joystick != null {
        joystick.Resume(win, sdl);
      }
    }

    /** The destructor: shuts down whichever devices exist. */
    method Shutdown(sdl: Backend)
      requires Valid()
      modifies this`keyboard, this`mouse, this`joystick, this`registered, keyboard, mouse, joystick, sdl`cursorShown
      ensures Valid() && keyboard == null && mouse == null && joystick == null && registered == []
    {
      if keyboard != null {
        ShutdownKeyboard();
      }
      if mouse != null {
        ShutdownMouse(sdl);
      }
      if joystick != null {
        ShutdownJoystick();
      }
      NoKindLeft(registered);
    }
  }
}
