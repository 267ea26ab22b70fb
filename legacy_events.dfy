/**
 * What one frame of the legacy SDL 1.2 I_GetEvent does with the events it
 * fetches, as values: the events it posts (D_PostEvent), the console
 * commands it issues (AddCommandString) and the side list of held hat
 * directions (JoyEventList) that RegisterJoystickEvent and
 * UpdateJoystickEvents maintain.
 */
module LegacyEvents {
  import opened Sdl
  import opened Events
  import opened LegacyPolicy
  import Joystick

  /** A console command issued by the input code: "quit" or "vid_setmode w h". */
  datatype Command = QuitCommand | SetMode(w: int, h: int)

  /**
   * One JoystickEvent_t of the hat list: the joystick and hat of the
   * motion event, the single direction it holds, and the ticks it was
   * registered and last repeated at.
   */
  datatype JoyEntry = JoyEntry(which: int, hat: int, value: bv8, regTick: int, lastTick: int)

  /** What identifies an entry in the duplicate test. */
  function Key(e: JoyEntry): (int, int, bv8)
  {
    (e.which, e.hat, e.value)
  }

  /** No two entries of the list hold the same direction of the same hat. */
  predicate UniqueEntries(list: seq<JoyEntry>)
  {
    forall i, j :: 0 <= i < j < |list| ==> Key(list[i]) != Key(list[j])
  }

  predicate Registered(list: seq<JoyEntry>, which: int, hat: int, value: bv8)
  {
    exists i :: 0 <= i < |list| && Key(list[i]) == (which, hat, value)
  }

  /** The output of a frame so far, and the hat list. */
  datatype Frame = Frame(posted: seq<Event>, commands: seq<Command>, joyList: seq<JoyEntry>)

  /** A key-down for one hat direction: data1 and data2 hold the key, data3 is 0. */
  function HatDown(hat: int, value: bv8): Event
  {
    Event(EvKeyDown, LegacyHatCode(hat, value), LegacyHatCode(hat, value), 0)
  }

  /**
   * RegisterJoystickEvent for one direction of a hat motion: nothing when
   * the list already holds it; otherwise the direction is appended with
   * both ticks at now, and its key-down is posted.
   */
  function RegisterOne(f: Frame, which: int, hat: int, value: bv8, now: int): (r: Frame)
    ensures r.commands == f.commands
    ensures Registered(f.joyList, which, hat, value) ==> r == f
    ensures !Registered(f.joyList, which, hat, value) ==>
      r.joyList == f.joyList + [JoyEntry(which, hat, value, now, now)] && r.posted == f.posted + [HatDown(hat, value)]
  {
    if Registered(f.joyList, which, hat, value) then f
    else f.(joyList := f.joyList + [JoyEntry(which, hat, value, now, now)], posted := f.posted + [HatDown(hat, value)])
  }

  /** Registration never puts a second entry for the same direction into the list. */
  lemma RegisterKeepsUnique(f: Frame, which: int, hat: int, value: bv8, now: int)
    requires UniqueEntries(f.joyList)
    ensures UniqueEntries(RegisterOne(f, which, hat, value, now).joyList)
    ensures Registered(RegisterOne(f, which, hat, value, now).joyList, which, hat, value)
  {
    var r := RegisterOne(f, which, hat, value, now);
    if !Registered(f.joyList, which, hat, value) {
      var l := r.joyList;
      forall i, j | 0 <= i < j < |l|
        ensures Key(l[i]) != Key(l[j])
      {
        if j == |l| - 1 {
          assert l[i] == f.joyList[i];
        } else {
          assert l[i] == f.joyList[i] && l[j] == f.joyList[j];
        }
      }
      assert Key(l[|l| - 1]) == (which, hat, value);
    } else {
      var i :| 0 <= i < |f.joyList| && Key(f.joyList[i]) == (which, hat, value);
      assert Key(r.joyList[i]) == (which, hat, value);
    }
  }

  /**
   * The directions set in a hat value, first n of up, right, down, left,
   * each registered in turn: the list and the posted events only grow, by
   * one key-down per new entry, and no command is issued.
   */
  function RegisterFlags(f: Frame, which: int, hat: int, value: bv8, now: int, n: nat): (r: Frame)
    requires n <= 4
    ensures r.commands == f.commands
    ensures f.joyList <= r.joyList && f.posted <= r.posted
    ensures |r.posted| - |f.posted| == |r.joyList| - |f.joyList| <= n
  {
    if n == 0 then f
    else
      var prev := RegisterFlags(f, which, hat, value, now, n - 1);
      if value & Joystick.HAT_FLAGS[n - 1] != 0 then RegisterOne(prev, which, hat, Joystick.HAT_FLAGS[n - 1], now)
      else prev
  }

  lemma {:induction false} RegisterFlagsKeepsUnique(f: Frame, which: int, hat: int, value: bv8, now: int, n: nat)
    requires n <= 4 && UniqueEntries(f.joyList)
    ensures UniqueEntries(RegisterFlags(f, which, hat, value, now, n).joyList)
    ensures RegisterFlags(f, which, hat, value, now, n).commands == f.commands
  {
    if n > 0 {
      var prev := RegisterFlags(f, which, hat, value, now, n - 1);
      RegisterFlagsKeepsUnique(f, which, hat, value, now, n - 1);
      RegisterKeepsUnique(prev, which, hat, Joystick.HAT_FLAGS[n - 1], now);
    }
  }

  /**
   * A hat pushed diagonally up and right, with nothing held before,
   * registers both directions and posts the up key before the right key.
   */
  lemma DiagonalRegistersBoth(f: Frame, which: int, hat: int, now: int)
    requires f.joyList == []
    ensures var r := RegisterFlags(f, which, hat, HAT_UP | HAT_RIGHT, now, 4);
      r.joyList == [JoyEntry(which, hat, HAT_UP, now, now), JoyEntry(which, hat, HAT_RIGHT, now, now)] &&
      r.posted == f.posted + [HatDown(hat, HAT_UP), HatDown(hat, HAT_RIGHT)]
  {
    var v := HAT_UP | HAT_RIGHT;
    assert v & HAT_UP != 0 && v & HAT_RIGHT != 0 && v & HAT_DOWN == 0 && v & HAT_LEFT == 0;
    assert Joystick.HAT_FLAGS == [HAT_UP, HAT_RIGHT, HAT_DOWN, HAT_LEFT];
    assert RegisterFlags(f, which, hat, v, now, 0) == f;
    var f1 := RegisterFlags(f, which, hat, v, now, 1);
    assert f1 == RegisterOne(f, which, hat, HAT_UP, now);
    assert !Registered(f.joyList, which, hat, HAT_UP);
    var f2 := RegisterFlags(f, which, hat, v, now, 2);
    assert f2 == RegisterOne(f1, which, hat, HAT_RIGHT, now);
    assert !Registered(f1.joyList, which, hat, HAT_RIGHT) by {
      assert f1.joyList == [JoyEntry(which, hat, HAT_UP, now, now)];
    }
    assert RegisterFlags(f, which, hat, v, now, 4) == f2;
  }

  /** The settings I_GetEvent reads while it dispatches the fetched events. */
  datatype Config = Config(
    win32: bool,       // the WIN32 build
    modState: bv16,    // SDL_GetModState() while the frame is processed
    joyActive: int,    // joy_active
    fullscreen: bool,  // vid_fullscreen
    now: int)          // SDL_GetTicks()

  /** One fetched event of I_GetEvent's switch; the frame only ever grows. */
  function Dispatch(f: Frame, c: Config, e: RawEvent): (r: Frame)
    ensures f.posted <= r.posted && f.commands <= r.commands && f.joyList <= r.joyList
    ensures e.KeyUp? ==>
      r == f.(posted := f.posted + [Event(EvKeyUp, e.sym, AsciiText(e.unicode), AsciiText(e.unicode))])
    ensures !e.JoyHatMotion? ==> r.joyList == f.joyList
  {
    match e
    case Quit => f.(commands := f.commands + [QuitCommand])
    case VideoResize(w, h) => if !c.fullscreen then f.(commands := f.commands + [SetMode(w, h)]) else f
    case KeyDown(sym, _, unicode, _) =>
      var altHeld := c.win32 && AltHeld(c.modState);
      var text := KeyDownText(sym, unicode);
      var f1 := if altHeld && sym == SdlkF4(Sdl12) then f.(commands := f.commands + [QuitCommand]) else f;
      if altHeld && sym == SDLK_TAB then f1
      else f1.(posted := f1.posted + [Event(EvKeyDown, sym, text, text)])
    case KeyUp(sym, _, unicode, _) =>
      f.(posted := f.posted + [Event(EvKeyUp, sym, AsciiText(unicode), AsciiText(unicode))])
    case JoyButtonDown(which, b) =>
      if which == c.joyActive then f.(posted := f.posted + [Joystick.CodeEvent(true, b + KEY_JOY1)]) else f
    case JoyButtonUp(which, b) =>
      if which == c.joyActive then f.(posted := f.posted + [Joystick.CodeEvent(false, b + KEY_JOY1)]) else f
    case JoyAxisMotion(which, axis, value) =>
      if which == c.joyActive then f.(posted := f.posted + [Event(EvJoystick, 0, axis, LegacyAxisValue(value))]) else f
    case JoyHatMotion(which, hat, value) =>
      if which == c.joyActive then RegisterFlags(f, which, hat, value, c.now, 4) else f
    case _ => f
  }

  /**
   * The non-key, non-joystick cases of the switch: quit and a windowed
   * resize issue their command, every other event changes nothing.
   */
  lemma DispatchCommandCases(f: Frame, c: Config, e: RawEvent)
    ensures e.Quit? ==> Dispatch(f, c, e) == f.(commands := f.commands + [QuitCommand])
    ensures e.VideoResize? && !c.fullscreen ==> Dispatch(f, c, e) == f.(commands := f.commands + [SetMode(e.w, e.h)])
    ensures e.VideoResize? && c.fullscreen ==> Dispatch(f, c, e) == f
    ensures !(e.Quit? || e.VideoResize? || e.KeyDown? || e.KeyUp? || IsJoystickEvent(e)) || e.JoyBallMotion? ==>
      Dispatch(f, c, e) == f
  {
  }

  /** The button cases of the switch: a button of joy_active posts its key event (button + KEY_JOY1). */
  lemma DispatchButtonCases(f: Frame, c: Config, e: RawEvent)
    ensures e.JoyButtonDown? && e.which == c.joyActive ==>
      Dispatch(f, c, e) == f.(posted := f.posted + [Event(EvKeyDown, e.button + KEY_JOY1, e.button + KEY_JOY1, 0)])
    ensures e.JoyButtonUp? && e.which == c.joyActive ==>
      Dispatch(f, c, e) == f.(posted := f.posted + [Event(EvKeyUp, e.button + KEY_JOY1, e.button + KEY_JOY1, 0)])
  {
  }

  /**
   * The axis and hat cases of the switch: an axis of joy_active posts its
   * deadzoned value, a hat of joy_active registers its directions, and any
   * event of another joystick changes nothing.
   */
  lemma DispatchAxisHatCases(f: Frame, c: Config, e: RawEvent)
    ensures e.JoyAxisMotion? && e.which == c.joyActive ==>
      Dispatch(f, c, e) == f.(posted := f.posted + [Event(EvJoystick, 0, e.axis, Joystick.AxisValue(e.value))])
    ensures e.JoyHatMotion? && e.which == c.joyActive ==>
      Dispatch(f, c, e) == RegisterFlags(f, e.which, e.hat, e.hatValue, c.now, 4)
    ensures IsJoystickEvent(e) && e.which != c.joyActive ==> Dispatch(f, c, e) == f
  {
  }

  /** The whole fetched batch, in order: what was posted, issued and registered before stays. */
  function DispatchAll(f: Frame, c: Config, fetched: seq<RawEvent>): (r: Frame)
    ensures f.posted <= r.posted && f.commands <= r.commands && f.joyList <= r.joyList
  {
    if fetched == [] then f
    else Dispatch(DispatchAll(f, c, fetched[..|fetched| - 1]), c, fetched[|fetched| - 1])
  }

  /** A frame never gives the hat list two entries for the same direction. */
  lemma {:induction false} DispatchAllKeepsUnique(f: Frame, c: Config, fetched: seq<RawEvent>)
    requires UniqueEntries(f.joyList)
    ensures UniqueEntries(DispatchAll(f, c, fetched).joyList)
  {
    if fetched != [] {
      var prev := DispatchAll(f, c, fetched[..|fetched| - 1]);
      DispatchAllKeepsUnique(f, c, fetched[..|fetched| - 1]);
      var e := fetched[|fetched| - 1];
      if e.JoyHatMotion? && e.which == c.joyActive {
        RegisterFlagsKeepsUnique(prev, e.which, e.hat, e.hatValue, c.now, 4);
      }
    }
  }

  /**
   * On Windows, Alt+Tab posts nothing, and Alt+F4 issues "quit" and is
   * still posted as a key-down.
   */
  lemma AltKeysOnWindows(f: Frame, c: Config, mod: bv16, unicode: bv16, repeat: int)
    requires c.win32 && AltHeld(c.modState)
    ensures Dispatch(f, c, KeyDown(SDLK_TAB, mod, unicode, repeat)) == f
    ensures var r := Dispatch(f, c, KeyDown(SdlkF4(Sdl12), mod, unicode, repeat));
      r.commands == f.commands + [QuitCommand] && r.posted == f.posted + [Event(EvKeyDown, SdlkF4(Sdl12), AsciiText(unicode), AsciiText(unicode))]
  {
  }

  /**
   * Elsewhere every key-down is posted with its symbol and its text, and
   * it issues no command.
   */
  lemma KeyDownPosted(f: Frame, c: Config, sym: int, mod: bv16, unicode: bv16, repeat: int)
    requires !c.win32 || !AltHeld(c.modState)
    ensures var r := Dispatch(f, c, KeyDown(sym, mod, unicode, repeat));
      r == f.(posted := f.posted + [Event(EvKeyDown, sym, KeyDownText(sym, unicode), KeyDownText(sym, unicode))])
  {
  }

  predicate IsJoystickEvent(e: RawEvent)
  {
    e.JoyAxisMotion? || e.JoyBallMotion? || e.JoyHatMotion? || e.JoyButtonDown? || e.JoyButtonUp?
  }

  /** Joystick events of any joystick but joy_active change nothing. */
  lemma {:induction false} OtherJoystickIgnored(f: Frame, c: Config, fetched: seq<RawEvent>)
    requires forall e :: e in fetched ==> IsJoystickEvent(e) && e.which != c.joyActive
    ensures DispatchAll(f, c, fetched) == f
  {
    if fetched != [] {
      assert fetched[|fetched| - 1] in fetched;
      assert forall e :: e in fetched[..|fetched| - 1] ==> e in fetched;
      OtherJoystickIgnored(f, c, fetched[..|fetched| - 1]);
    }
  }

  // ---------------------------------------------------------------------
  // UpdateJoystickEvents

  /** SDL_GetTicks() differences are unsigned 32-bit subtractions. */
  function TickDiff(now: int, earlier: int): (r: int)
    ensures 0 <= r < 0x1_0000_0000
    ensures (r - (now - earlier)) % 0x1_0000_0000 == 0
  {
    (now - earlier) % 0x1_0000_0000
  }

  /** SDL_JoystickGetHat on the open joystick; a hat it does not report reads as centred. */
  function HatNow(hats: map<int, bv8>, hat: int): bv8
  {
    if hat in hats then hats[hat] else HAT_CENTERED
  }

  /** The entry's direction is still set in its hat; a hat SDL does not report holds nothing. */
  predicate StillHeld(hats: map<int, bv8>, e: JoyEntry)
    ensures StillHeld(hats, e) ==> e.hat in hats && e.value != 0
  {
    HatNow(hats, e.hat) & e.value != 0
  }

  /** A held direction repeats once the repeat delay has passed and twice the repeat interval since the last repeat. */
  predicate RepeatDue(e: JoyEntry, now: int)
    ensures now == e.lastTick || now == e.regTick ==> !RepeatDue(e, now)
  {
    TickDiff(now, e.regTick) >= REPEAT_DELAY && TickDiff(now, e.lastTick) >= REPEAT_INTERVAL * 2
  }

  datatype Update = Update(kept: seq<JoyEntry>, posted: seq<Event>)

  /**
   * One entry: released, it posts its key-up and leaves the list; held and
   * due, it posts a key-down again and records the tick; otherwise nothing.
   */
  function UpdateOne(hats: map<int, bv8>, now: int, e: JoyEntry): (r: Update)
    ensures !StillHeld(hats, e) ==> r == Update([], [KeyEvent(false, LegacyHatCode(e.hat, e.value))])
    ensures StillHeld(hats, e) ==> |r.kept| == 1 && Key(r.kept[0]) == Key(e) && r.kept[0].regTick == e.regTick
    ensures StillHeld(hats, e) ==> forall x :: x in r.posted ==> x == KeyEvent(true, LegacyHatCode(e.hat, e.value))
    ensures StillHeld(hats, e) && RepeatDue(e, now) ==>
      |r.posted| == 1 && r.kept[0].lastTick == now && r.kept[0] == e.(lastTick := now)
    ensures StillHeld(hats, e) && !RepeatDue(e, now) ==> r == Update([e], [])
  {
    if !StillHeld(hats, e) then Update([], [KeyEvent(false, LegacyHatCode(e.hat, e.value))])
    else if RepeatDue(e, now) then Update([e.(lastTick := now)], [KeyEvent(true, LegacyHatCode(e.hat, e.value))])
    else Update([e], [])
  }

  /**
   * The repeat timing of a held direction: it posts its key-down again
   * exactly when at least 500 ticks have passed since it was registered and
   * at least twice the 30-tick repeat interval since its last key-down, and
   * only then does its last tick move to now.
   */
  lemma RepeatTiming(hats: map<int, bv8>, now: int, e: JoyEntry)
    requires StillHeld(hats, e)
    ensures var due := TickDiff(now, e.regTick) >= 500 && TickDiff(now, e.lastTick) >= 60;
      (UpdateOne(hats, now, e).posted == [KeyEvent(true, LegacyHatCode(e.hat, e.value))] <==> due) &&
      (UpdateOne(hats, now, e).posted == [] <==> !due) &&
      UpdateOne(hats, now, e).kept == [e.(lastTick := if due then now else e.lastTick)]
  {
  }

  /** Without a wrap of the tick counter the unsigned difference is the plain one. */
  lemma TickDiffNoWrap(now: int, earlier: int)
    requires 0 <= now - earlier < 0x1_0000_0000
    ensures TickDiff(now, earlier) == now - earlier
  {
  }

  /** Every entry of the list in turn: at most one kept entry and one posted event per entry. */
  function UpdateAll(hats: map<int, bv8>, now: int, list: seq<JoyEntry>): (r: Update)
    ensures |r.kept| <= |list| && |r.posted| <= |list|
  {
    if list == [] then Update([], [])
    else
      var prev := UpdateAll(hats, now, list[..|list| - 1]);
      var one := UpdateOne(hats, now, list[|list| - 1]);
      Update(prev.kept + one.kept, prev.posted + one.posted)
  }

  function Keys(list: seq<JoyEntry>): seq<(int, int, bv8)>
  {
    if list == [] then [] else Keys(list[..|list| - 1]) + [Key(list[|list| - 1])]
  }

  /** The keys of the entries still held, in list order. */
  function HeldKeys(hats: map<int, bv8>, list: seq<JoyEntry>): seq<(int, int, bv8)>
  {
    if list == [] then []
    else HeldKeys(hats, list[..|list| - 1]) + (if StillHeld(hats, list[|list| - 1]) then [Key(list[|list| - 1])] else [])
  }

  /** The key-ups of the released entries, in list order. */
  function ReleaseUps(hats: map<int, bv8>, list: seq<JoyEntry>): seq<Event>
  {
    if list == [] then []
    else
      var e := list[|list| - 1];
      ReleaseUps(hats, list[..|list| - 1]) + (if StillHeld(hats, e) then [] else [KeyEvent(false, LegacyHatCode(e.hat, e.value))])
  }

  function KeyUps(s: seq<Event>): seq<Event>
  {
    if s == [] then [] else KeyUps(s[..|s| - 1]) + (if s[|s| - 1].kind == EvKeyUp then [s[|s| - 1]] else [])
  }

  lemma {:induction false} KeysAppend(a: seq<JoyEntry>, b: seq<JoyEntry>)
    ensures Keys(a + b) == Keys(a) + Keys(b)
    decreases |b|
  {
    if b != [] {
      assert (a + b)[..|a + b| - 1] == a + b[..|b| - 1];
      KeysAppend(a, b[..|b| - 1]);
    } else {
      assert a + b == a;
    }
  }

  lemma {:induction false} KeyUpsAppend(a: seq<Event>, b: seq<Event>)
    ensures KeyUps(a + b) == KeyUps(a) + KeyUps(b)
    decreases |b|
  {
    if b != [] {
      assert (a + b)[..|a + b| - 1] == a + b[..|b| - 1];
      KeyUpsAppend(a, b[..|b| - 1]);
    } else {
      assert a + b == a;
    }
  }

  /**
   * UpdateJoystickEvents keeps exactly the held entries, in their order,
   * and posts exactly one key-up for each released entry, in list order.
   */
  lemma {:induction false} UpdateExact(hats: map<int, bv8>, now: int, list: seq<JoyEntry>)
    ensures Keys(UpdateAll(hats, now, list).kept) == HeldKeys(hats, list)
    ensures KeyUps(UpdateAll(hats, now, list).posted) == ReleaseUps(hats, list)
  {
    if list != [] {
      var init := list[..|list| - 1];
      var e := list[|list| - 1];
      var prev := UpdateAll(hats, now, init);
      var one := UpdateOne(hats, now, e);
      UpdateExact(hats, now, init);
      KeysAppend(prev.kept, one.kept);
      KeyUpsAppend(prev.posted, one.posted);
      if StillHeld(hats, e) {
        assert Keys(one.kept) == [Key(e)] by {
          assert one.kept[..0] == [];
        }
        if one.posted != [] {
          assert one.posted == [one.posted[0]] && one.posted[0] in one.posted;
          assert one.posted[..0] == [];
        }
      } else {
        assert one.posted[..0] == [];
      }
    }
  }

  lemma {:induction false} HeldKeysMembers(hats: map<int, bv8>, list: seq<JoyEntry>)
    ensures forall k :: k in HeldKeys(hats, list) ==> k in Keys(list)
  {
    if list != [] {
      HeldKeysMembers(hats, list[..|list| - 1]);
    }
  }

  predicate UniqueKeys(s: seq<(int, int, bv8)>)
  {
    forall i, j :: 0 <= i < j < |s| ==> s[i] != s[j]
  }

  lemma {:induction false} KeysIndex(list: seq<JoyEntry>)
    ensures |Keys(list)| == |list|
    ensures forall i :: 0 <= i < |list| ==> Keys(list)[i] == Key(list[i])
  {
    if list != [] {
      KeysIndex(list[..|list| - 1]);
    }
  }

  lemma {:induction false} HeldKeysUnique(hats: map<int, bv8>, list: seq<JoyEntry>)
    requires UniqueKeys(Keys(list))
    ensures UniqueKeys(HeldKeys(hats, list))
  {
    if list != [] {
      var init := list[..|list| - 1];
      KeysIndex(list);
      KeysIndex(init);
      assert UniqueKeys(Keys(init)) by {
        forall i, j | 0 <= i < j < |Keys(init)|
          ensures Keys(init)[i] != Keys(init)[j]
        {
          assert Keys(init)[i] == Keys(list)[i] && Keys(init)[j] == Keys(list)[j];
        }
      }
      HeldKeysUnique(hats, init);
      HeldKeysMembers(hats, init);
      var e := list[|list| - 1];
      assert Key(e) !in Keys(init) by {
        forall i | 0 <= i < |init|
          ensures Keys(init)[i] != Key(e)
        {
          assert Keys(init)[i] == Keys(list)[i];
          assert Keys(list)[|list| - 1] == Key(e);
        }
      }
    }
  }

  /** Removing the released entries keeps the list free of duplicates. */
  lemma UpdateKeepsUnique(hats: map<int, bv8>, now: int, list: seq<JoyEntry>)
    requires UniqueEntries(list)
    ensures UniqueEntries(UpdateAll(hats, now, list).kept)
  {
    var kept := UpdateAll(hats, now, list).kept;
    KeysIndex(list);
    KeysIndex(kept);
    UpdateExact(hats, now, list);
    assert UniqueKeys(Keys(list)) by {
      forall i, j | 0 <= i < j < |Keys(list)|
        ensures Keys(list)[i] != Keys(list)[j]
      {
        assert Keys(list)[i] == Key(list[i]) && Keys(list)[j] == Key(list[j]);
      }
    }
    HeldKeysUnique(hats, list);
    forall i, j | 0 <= i < j < |kept|
      ensures Key(kept[i]) != Key(kept[j])
    {
      assert Keys(kept)[i] == Key(kept[i]) && Keys(kept)[j] == Key(kept[j]);
    }
  }
}
