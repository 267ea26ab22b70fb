/**
 * The SDL keyboard input device (ISDL12KeyboardInputDevice and
 * ISDL20KeyboardInputDevice): symbol translation, the text value of a key,
 * the gathering of SDL key events into the device's own queue, and the
 * device life cycle.
 */
module Keyboard {
  import opened Sdl
  import opened Events

  /**
   * The tables built when the device is created: symbol to engine key
   * (I_BuildSDLKeyTranslationTable) and, for SDL 1.2, symbol to character
   * (initKeyTextTranslation). Their SDLK_* keys come from SDL headers that
   * are not part of this model, so the tables are parameters.
   */
  datatype KeyTables = KeyTables(keys: map<int, int>, text: map<int, int>)

  predicate IsLower(c: int) { 'a' as int <= c <= 'z' as int }
  predicate IsUpper(c: int) { 'A' as int <= c <= 'Z' as int }

  /** The punctuation part of mShiftTransTable. */
  function ShiftPunctuation(): map<int, int>
  {
    map[
      '1' as int := '!' as int, '2' as int := '@' as int, '3' as int := '#' as int,
      '4' as int := '$' as int, '5' as int := '%' as int, '6' as int := '^' as int,
      '7' as int := '&' as int, '8' as int := '*' as int, '9' as int := '(' as int,
      '0' as int := ')' as int, '`' as int := '~' as int, '-' as int := '_' as int,
      '=' as int := '+' as int, '[' as int := '{' as int, ']' as int := '}' as int,
      '\\' as int := '|' as int, ';' as int := ':' as int, '\'' as int := '"' as int,
      ',' as int := '<' as int, '.' as int := '>' as int, '/' as int := '?' as int]
  }

  /**
   * mShiftTransTable: the characters SHIFT changes. It lists every letter,
   * 'a'..'z' to upper case and 'A'..'Z' to lower case, and 21 punctuation keys.
   */
  predicate InShiftTable(c: int)
  {
    IsLower(c) || IsUpper(c) || c in ShiftPunctuation()
  }

  /** The entry of mShiftTransTable for c. */
  function ShiftOf(c: int): int
    requires InShiftTable(c)
  {
    if IsLower(c) then c - 32
    else if IsUpper(c) then c + 32
    else ShiftPunctuation()[c]
  }

  /** SHIFT applied twice gives the letter back. */
  lemma ShiftSwapsCase(c: int)
    requires IsLower(c) || IsUpper(c)
    ensures InShiftTable(ShiftOf(c)) && ShiftOf(ShiftOf(c)) == c
    ensures IsLower(c) <==> IsUpper(ShiftOf(c))
  {
  }

  /** translateKey: an unknown symbol translates to 0. */
  function TranslateKey(keys: map<int, int>, sym: int): (r: int)
    ensures sym !in keys ==> r == 0
    ensures sym in keys ==> r == keys[sym]
  {
    if sym in keys then keys[sym] else 0
  }

  /** The character SHIFT gives for c, or c when SHIFT does not change it. */
  function Shifted(c: int): int
  {
    if InShiftTable(c) then ShiftOf(c) else c
  }

  /**
   * translateKeyText (SDL 1.2): the character a symbol types under the
   * modifier state. CAPS LOCK upper-cases letters only, SHIFT then applies
   * the shift table, so CAPS LOCK and SHIFT together give a lower-case letter.
   */
  function TranslateKeyText(text: map<int, int>, sym: int, mod: bv16): (r: int)
    ensures sym !in text ==> r == 0
    ensures sym in text && !ShiftHeld(mod) && !(CapsLock(mod) && IsLower(text[sym])) ==> r == text[sym]
    ensures sym in text && IsLower(text[sym]) && CapsLock(mod) && !ShiftHeld(mod) ==>
              r == text[sym] - 32 && IsUpper(r)
    ensures sym in text && IsLower(text[sym]) && CapsLock(mod) && ShiftHeld(mod) ==> r == text[sym]
    ensures sym in text && IsLower(text[sym]) && !CapsLock(mod) && ShiftHeld(mod) ==>
              r == text[sym] - 32 && IsUpper(r)
    ensures sym in text && IsUpper(text[sym]) && ShiftHeld(mod) ==> r == text[sym] + 32 && IsLower(r)
    ensures sym in text && !IsLower(text[sym]) && ShiftHeld(mod) ==> r == Shifted(text[sym])
  {
    if sym in text then
      var c := text[sym];
      var c1 := if IsLower(c) && CapsLock(mod) then ShiftOf(c) else c;
      if ShiftHeld(mod) && InShiftTable(c1) then ShiftOf(c1) else c1
    else
      0
  }

  /** getTextEventValue looks at no more than this many events ahead. */
  const TEXT_LOOKAHEAD: nat := 32

  /** No key-down and no text event among rest[from..to]. */
  predicate Unclaimed(rest: seq<RawEvent>, from: nat, to: nat)
    requires from <= to <= |rest|
  {
    forall k :: from <= k < to ==> !rest[k].KeyDown? && !rest[k].TextInput?
  }

  /**
   * The scan of getTextEventValue over rest[i..n]: the first text event wins,
   * a key-down met first means the text belongs to a later key.
   */
  function ScanText(rest: seq<RawEvent>, i: nat, n: nat): (r: int)
    requires i <= n <= |rest|
    ensures forall j :: i <= j < n && rest[j].TextInput? && Unclaimed(rest, i, j) ==> r == rest[j].text
    ensures forall j :: i <= j < n && rest[j].KeyDown? && Unclaimed(rest, i, j) ==> r == 0
    ensures Unclaimed(rest, i, n) ==> r == 0
    decreases n - i
  {
    if i == n then 0
    else if rest[i].KeyDown? then 0
    else if rest[i].TextInput? then rest[i].text
    else ScanText(rest, i + 1, n)
  }

  /**
   * getTextEventValue: the text value of a key-down, read from the keyboard
   * events still queued behind it (at most TEXT_LOOKAHEAD of them).
   */
  function TextEventValue(rest: seq<RawEvent>): (r: int)
    ensures forall j :: 0 <= j < |rest| && j < TEXT_LOOKAHEAD && rest[j].TextInput? && Unclaimed(rest, 0, j) ==>
              r == rest[j].text
    ensures forall j :: 0 <= j < |rest| && j < TEXT_LOOKAHEAD && rest[j].KeyDown? && Unclaimed(rest, 0, j) ==>
              r == 0
    ensures Unclaimed(rest, 0, if |rest| < TEXT_LOOKAHEAD then |rest| else TEXT_LOOKAHEAD) ==> r == 0
  {
    ScanText(rest, 0, if |rest| < TEXT_LOOKAHEAD then |rest| else TEXT_LOOKAHEAD)
  }

  predicate IsKey(e: RawEvent) { e.KeyDown? || e.KeyUp? }

  /** ALT+F4: translated into an SDL quit request, never queued as a key. */
  predicate IsAltF4(v: Version, e: RawEvent)
  {
    IsKey(e) && e.sym == SdlkF4(v) && AltHeld(e.mod)
  }

  /** ALT+TAB: dropped, the window manager handles it. */
  predicate IsAltTab(e: RawEvent)
  {
    IsKey(e) && e.sym == SDLK_TAB && AltHeld(e.mod)
  }

  /** SDL 2.0 drops key repeats before looking at the key. */
  predicate IsRepeat(v: Version, e: RawEvent)
  {
    v == Sdl20 && IsKey(e) && e.repeat != 0
  }

  /**
   * The engine event queued for fetched[i], if any. SDL 1.2 takes the text
   * from the text table; SDL 2.0 takes it from the events behind fetched[i],
   * and a key-up carries no text.
   */
  function KeyStep(v: Version, t: KeyTables, fetched: seq<RawEvent>, i: nat): (r: seq<Event>)
    requires i < |fetched|
    ensures |r| <= 1
    ensures r != [] ==> QueuedFrom(v, t, fetched, i, r[0])
    ensures r == [] <==> !IsKey(fetched[i]) || IsRepeat(v, fetched[i]) || IsAltF4(v, fetched[i]) ||
                         IsAltTab(fetched[i]) || TranslateKey(t.keys, fetched[i].sym) == 0
  {
    var e := fetched[i];
    if !IsKey(e) || IsRepeat(v, e) || IsAltF4(v, e) || IsAltTab(e) then []
    else
      var code := TranslateKey(t.keys, e.sym);
      var text :=
        if v == Sdl12 then TranslateKeyText(t.text, e.sym, e.mod)
        else if e.KeyDown? then TextEventValue(fetched[i + 1..])
        else 0;
      if code == 0 then []
      else [Event(if e.KeyDown? then EvKeyDown else EvKeyUp, code, text, text)]
  }

  /** What gathering the first n fetched events adds to the device queue: at most one event each. */
  function KeyGather(v: Version, t: KeyTables, fetched: seq<RawEvent>, n: nat): (r: seq<Event>)
    requires n <= |fetched|
    ensures |r| <= n
  {
    if n == 0 then [] else KeyGather(v, t, fetched, n - 1) + KeyStep(v, t, fetched, n - 1)
  }

  /** SDL 2.0 pushes one quit request for every ALT+F4 that is not a repeat. */
  predicate QuitTrigger20(e: RawEvent)
  {
    IsKey(e) && !IsRepeat(Sdl20, e) && !IsAltTab(e) && IsAltF4(Sdl20, e)
  }

  /** Whether an ALT+F4 is among the first n fetched events (SDL 1.2's quit_event). */
  function SeenAltF4(fetched: seq<RawEvent>, n: nat): bool
    requires n <= |fetched|
  {
    n > 0 && (SeenAltF4(fetched, n - 1) || IsAltF4(Sdl12, fetched[n - 1]))
  }

  function Quits20(fetched: seq<RawEvent>, n: nat): seq<RawEvent>
    requires n <= |fetched|
  {
    if n == 0 then [] else Quits20(fetched, n - 1) + (if QuitTrigger20(fetched[n - 1]) then [Quit] else [])
  }

  /** The quit requests a gather pushes back to SDL. */
  function QuitsPushed(v: Version, fetched: seq<RawEvent>): seq<RawEvent>
  {
    if v == Sdl12 then (if SeenAltF4(fetched, |fetched|) then [Quit] else [])
    else Quits20(fetched, |fetched|)
  }

  /** The SDL queue after a gather: key events gone, quit requests at the tail. */
  function KeyboardLeaves(v: Version, pending: seq<RawEvent>): seq<RawEvent>
  {
    Reject(pending, KeyboardClass(v)) + QuitsPushed(v, Select(pending, KeyboardClass(v)))
  }

  /** A second gather finds no key events: the queue a gather leaves is left as it is. */
  lemma KeyboardLeavesTwice(v: Version, pending: seq<RawEvent>)
    ensures KeyboardLeaves(v, KeyboardLeaves(v, pending)) == KeyboardLeaves(v, pending)
  {
    var c := KeyboardClass(v);
    var rest := Reject(pending, c);
    var quits := QuitsPushed(v, Select(pending, c));
    if v == Sdl12 {
      QuitsPushed12(Select(pending, c));
    } else {
      var fetched := Select(pending, c);
      Quits20Exactly(fetched, |fetched|);
    }
    assert forall e :: e in quits ==> e == Quit;
    if Select(quits, c) != [] {
      assert Select(quits, c)[0] in Select(quits, c);
    }
    NoneSelected(quits, c);
    SelectAppend(rest, quits, c);
    RejectAppend(rest, quits, c);
    SelectOfReject(pending, c);
    assert Select(KeyboardLeaves(v, pending), c) == [];
  }

  /** The queued event e came from fetched[j]: a key that is translated, not intercepted. */
  predicate QueuedFrom(v: Version, t: KeyTables, fetched: seq<RawEvent>, j: int, e: Event)
    requires 0 <= j < |fetched|
  {
    var r := fetched[j];
    IsKey(r) && !IsRepeat(v, r) && !IsAltF4(v, r) && !IsAltTab(r) &&
    e.data1 == TranslateKey(t.keys, r.sym) && e.data1 != 0 &&
    (e.kind == EvKeyDown <==> r.KeyDown?) && (e.kind == EvKeyUp <==> r.KeyUp?)
  }

  /** Some of the first n fetched events produced e. */
  predicate HasOrigin(v: Version, t: KeyTables, fetched: seq<RawEvent>, n: nat, e: Event)
    requires n <= |fetched|
  {
    exists j :: 0 <= j < n && QueuedFrom(v, t, fetched, j, e)
  }

  /**
   * Every queued event comes from a fetched key that is neither ALT+F4,
   * ALT+TAB nor (SDL 2.0) a repeat, and carries its non-zero translation.
   */
  lemma {:induction false} KeyGatherOrigin(v: Version, t: KeyTables, fetched: seq<RawEvent>, n: nat)
    requires n <= |fetched|
    ensures forall e :: e in KeyGather(v, t, fetched, n) ==> HasOrigin(v, t, fetched, n, e)
  {
    if n > 0 {
      KeyGatherOrigin(v, t, fetched, n - 1);
      var prev := KeyGather(v, t, fetched, n - 1);
      var step := KeyStep(v, t, fetched, n - 1);
      assert KeyGather(v, t, fetched, n) == prev + step;
      forall e | e in prev + step
        ensures HasOrigin(v, t, fetched, n, e)
      {
        if e in prev {
          assert HasOrigin(v, t, fetched, n - 1, e);
          var j :| 0 <= j < n - 1 && QueuedFrom(v, t, fetched, j, e);
          assert QueuedFrom(v, t, fetched, j, e);
        } else {
          assert QueuedFrom(v, t, fetched, n - 1, e);
        }
      }
    }
  }

  /** Number of ALT+F4 and ALT+TAB key events among the first n fetched events. */
  function CountIntercepted(v: Version, fetched: seq<RawEvent>, n: nat): (c: nat)
    requires n <= |fetched|
    ensures c <= n
  {
    if n == 0 then 0
    else CountIntercepted(v, fetched, n - 1) + (if IsAltF4(v, fetched[n - 1]) || IsAltTab(fetched[n - 1]) then 1 else 0)
  }

  /**
   * In any batch, each ALT+F4 or ALT+TAB takes the place of a queued event:
   * at most n minus their number are queued, so a batch made only of them
   * queues nothing.
   */
  lemma {:induction false} InterceptedQueueNothing(v: Version, t: KeyTables, fetched: seq<RawEvent>, n: nat)
    requires n <= |fetched|
    ensures |KeyGather(v, t, fetched, n)| + CountIntercepted(v, fetched, n) <= n
    ensures CountIntercepted(v, fetched, n) == n ==> KeyGather(v, t, fetched, n) == []
  {
    if n > 0 {
      InterceptedQueueNothing(v, t, fetched, n - 1);
    }
  }

  /** SDL 1.2 raises quit_event exactly when some fetched event is ALT+F4. */
  lemma {:induction false} SeenAltF4Exactly(fetched: seq<RawEvent>, n: nat)
    requires n <= |fetched|
    ensures SeenAltF4(fetched, n) <==> exists j :: 0 <= j < n && IsAltF4(Sdl12, fetched[j])
  {
    if n > 0 {
      SeenAltF4Exactly(fetched, n - 1);
    }
  }

  /** SDL 1.2 pushes one quit request per batch however many ALT+F4 events it holds. */
  lemma QuitsPushed12(fetched: seq<RawEvent>)
    ensures |QuitsPushed(Sdl12, fetched)| <= 1
    ensures |QuitsPushed(Sdl12, fetched)| == 1 <==> exists j :: 0 <= j < |fetched| && IsAltF4(Sdl12, fetched[j])
    ensures forall e :: e in QuitsPushed(Sdl12, fetched) ==> e == Quit
  {
    SeenAltF4Exactly(fetched, |fetched|);
  }

  /** Number of events of s that make SDL 2.0 push a quit request. */
  function CountQuitTriggers(s: seq<RawEvent>): nat
  {
    if s == [] then 0 else (if QuitTrigger20(s[0]) then 1 else 0) + CountQuitTriggers(s[1..])
  }

  lemma {:induction false} CountQuitTriggersSnoc(s: seq<RawEvent>, e: RawEvent)
    ensures CountQuitTriggers(s + [e]) == CountQuitTriggers(s) + (if QuitTrigger20(e) then 1 else 0)
  {
    if s == [] {
      assert s + [e] == [e];
    } else {
      assert (s + [e])[1..] == s[1..] + [e];
      CountQuitTriggersSnoc(s[1..], e);
    }
  }

  /** SDL 2.0 pushes exactly one quit request per non-repeated ALT+F4, and nothing else. */
  lemma {:induction false} Quits20Exactly(fetched: seq<RawEvent>, n: nat)
    requires n <= |fetched|
    ensures |Quits20(fetched, n)| == CountQuitTriggers(fetched[..n])
    ensures forall e :: e in Quits20(fetched, n) ==> e == Quit
  {
    if n > 0 {
      Quits20Exactly(fetched, n - 1);
      assert fetched[..n] == fetched[..n - 1] + [fetched[n - 1]];
      CountQuitTriggersSnoc(fetched[..n - 1], fetched[n - 1]);
    }
  }

  /** Under SDL 2.0 a queued key-up carries no text. */
  lemma {:induction false} KeyUpCarriesNoText20(t: KeyTables, fetched: seq<RawEvent>, n: nat)
    requires n <= |fetched|
    ensures forall k :: 0 <= k < |KeyGather(Sdl20, t, fetched, n)| && KeyGather(Sdl20, t, fetched, n)[k].kind == EvKeyUp ==>
              KeyGather(Sdl20, t, fetched, n)[k].data2 == 0 && KeyGather(Sdl20, t, fetched, n)[k].data3 == 0
  {
    if n > 0 {
      KeyUpCarriesNoText20(t, fetched, n - 1);
      var prev := KeyGather(Sdl20, t, fetched, n - 1);
      var step := KeyStep(Sdl20, t, fetched, n - 1);
      assert KeyGather(Sdl20, t, fetched, n) == prev + step;
      assert forall k :: 0 <= k < |step| && step[k].kind == EvKeyUp ==> step[k].data2 == 0 && step[k].data3 == 0;
    }
  }

  /**
   * The SDL 2.0 key step as the source writes it: a key-up's data2 and data3
   * are never assigned, so they hold whatever the stack held (stale).
   */
  function KeyStep20AsWritten(t: KeyTables, fetched: seq<RawEvent>, i: nat, stale: int): (r: seq<Event>)
    requires i < |fetched|
    ensures fetched[i].KeyDown? ==> r == KeyStep(Sdl20, t, fetched, i)
    ensures fetched[i].KeyUp? && r != [] ==> r[0].data2 == stale && r[0].data3 == stale
  {
    var e := fetched[i];
    if !IsKey(e) || IsRepeat(Sdl20, e) || IsAltF4(Sdl20, e) || IsAltTab(e) then []
    else
      var code := TranslateKey(t.keys, e.sym);
      var text := if e.KeyDown? then TextEventValue(fetched[i + 1..]) else stale;
      if code == 0 then []
      else [Event(if e.KeyDown? then EvKeyDown else EvKeyUp, code, text, text)]
  }

  /** As written, the same key-up queues different events depending on uninitialised memory. */
  lemma KeyUpPayloadIndeterminate()
    ensures exists t: KeyTables, fetched: seq<RawEvent> ::
              |fetched| == 1 && KeyStep20AsWritten(t, fetched, 0, 1) != KeyStep20AsWritten(t, fetched, 0, 2)
  {
    var t := KeyTables(map[65 := 97], map[]);
    var fetched := [KeyUp(65, 0, 0, 0)];
    assert KeyStep20AsWritten(t, fetched, 0, 1)[0].data2 == 1;
    assert KeyStep20AsWritten(t, fetched, 0, 2)[0].data2 == 2;
  }

  /**
   * The keyboard device: whether it is enabled (mActive) and the engine
   * events it has gathered but not yet handed out (mEvents).
   */
  class KeyboardDevice {
    const version: Version
    const tables: KeyTables
    var enabled: bool
    var events: seq<Event>

    /** The constructor enables the device, which flushes it. */
    constructor (version: Version, tables: KeyTables, win: Window, sdl: Backend)
      modifies sdl`pending
      ensures this.version == version && this.tables == tables
      ensures enabled && events == []
      ensures win.focused ==> sdl.pending == KeyboardLeaves(version, old(sdl.pending))
      ensures !win.focused ==> sdl.pending == old(sdl.pending)
    {
      this.version := version;
      this.tables := tables;
      enabled := false;
      events := [];
      new;
      Resume(win, sdl);
    }

    /** active(): enabled and the window has focus. */
    predicate Active(win: Window)
      reads this
    {
      enabled && win.focused
    }

    predicate HasEvent()
      reads this
    {
      events != []
    }

    /** getEvent: the oldest gathered event; the caller must check HasEvent first. */
    method GetEvent() returns (ev: Event)
      requires HasEvent()
      modifies this`events
      ensures [ev] + events == old(events)
    {
      ev := events[0];
      events := events[1..];
    }

    /**
     * gatherEvents: moves every pending SDL key event (SDL 2.0: every event
     * of the key-down..text-input range) into the device queue, translated,
     * and pushes ALT+F4 back to SDL as a quit request.
     */
    method GatherEvents(win: Window, sdl: Backend)
      modifies this`events, sdl`pending
      ensures !Active(win) ==> events == old(events) && sdl.pending == old(sdl.pending)
      ensures Active(win) ==>
                var fetched := Select(old(sdl.pending), KeyboardClass(version));
                events == old(events) + KeyGather(version, tables, fetched, |fetched|) &&
                sdl.pending == KeyboardLeaves(version, old(sdl.pending))
    {
      if !Active(win) {
        return;
      }
      var fetched := sdl.Take(KeyboardClass(version));
      if version == Sdl12 {
        var quitEvent := Translate12(fetched);
        if quitEvent {
          sdl.Push(Quit);
        }
      } else {
        Translate20(fetched, sdl);
      }
    }

    /** The SDL 1.2 loop: ALT+F4 only sets quit_event, one quit request follows the loop. */
    method Translate12(fetched: seq<RawEvent>) returns (quitEvent: bool)
      requires version == Sdl12
      modifies this`events
      ensures events == old(events) + KeyGather(version, tables, fetched, |fetched|)
      ensures quitEvent == SeenAltF4(fetched, |fetched|)
    {
      quitEvent := false;
      var i := 0;
      while i < |fetched|
        invariant 0 <= i <= |fetched|
        invariant events == old(events) + KeyGather(version, tables, fetched, i)
        invariant quitEvent == SeenAltF4(fetched, i)
      {
        var e := fetched[i];
        ghost var before := events;
        if e.KeyDown? || e.KeyUp? {
          if e.sym == SdlkF4(version) && AltHeld(e.mod) {
            quitEvent := true;
          } else if e.sym == SDLK_TAB && AltHeld(e.mod) {
            // dropped
          } else {
            var code := TranslateKey(tables.keys, e.sym);
            var text := TranslateKeyText(tables.text, e.sym, e.mod);
            if code != 0 {
              events := events + [Event(if e.KeyDown? then EvKeyDown else EvKeyUp, code, text, text)];
            }
          }
        }
        Step12(fetched, i, before, events);
        i := i + 1;
      }
    }

    /** One turn of the SDL 1.2 loop adds KeyStep to the device queue. */
    lemma Step12(fetched: seq<RawEvent>, i: nat, before: seq<Event>, after: seq<Event>)
      requires version == Sdl12 && i < |fetched|
      requires var e := fetched[i];
        after == if !IsKey(e) || IsAltF4(version, e) || IsAltTab(e) || TranslateKey(tables.keys, e.sym) == 0 then before
                 else before + [Event(if e.KeyDown? then EvKeyDown else EvKeyUp, TranslateKey(tables.keys, e.sym),
                                      TranslateKeyText(tables.text, e.sym, e.mod), TranslateKeyText(tables.text, e.sym, e.mod))]
      ensures after == before + KeyStep(version, tables, fetched, i)
    {
    }

    /**
     * The SDL 2.0 loop: the text of a key-down is looked up among the events
     * behind it, and every ALT+F4 pushes its own quit request at once.
     */
    method Translate20(fetched: seq<RawEvent>, sdl: Backend)
      requires version == Sdl20
      modifies this`events, sdl`pending
      ensures events == old(events) + KeyGather(version, tables, fetched, |fetched|)
      ensures sdl.pending == old(sdl.pending) + Quits20(fetched, |fetched|)
    {
      var i := 0;
      while i < |fetched|
        invariant 0 <= i <= |fetched|
        invariant events == old(events) + KeyGather(version, tables, fetched, i)
        invariant sdl.pending == old(sdl.pending) + Quits20(fetched, i)
      {
        var e := fetched[i];
        assert KeyGather(version, tables, fetched, i + 1) ==
          KeyGather(version, tables, fetched, i) + KeyStep(version, tables, fetched, i);
        if e.KeyDown? || e.KeyUp? {
          var code := TranslateKey(tables.keys, e.sym);
          var text := if e.KeyDown? then TextEventValue(fetched[i + 1..]) else 0;
          if e.repeat != 0 {
            // repeats are dropped
          } else if e.sym == SDLK_TAB && AltHeld(e.mod) {
            // dropped
          } else if e.sym == SdlkF4(version) && AltHeld(e.mod) {
            sdl.Push(Quit);
          } else if code != 0 {
            events := events + [Event(if e.KeyDown? then EvKeyDown else EvKeyUp, code, text, text)];
          }
        }
        i := i + 1;
      }
    }

    /** flushEvents: gathers, then discards everything queued. */
    method FlushEvents(win: Window, sdl: Backend)
      modifies this`events, sdl`pending
      ensures events == []
      ensures Active(win) ==> sdl.pending == KeyboardLeaves(version, old(sdl.pending))
      ensures !Active(win) ==> sdl.pending == old(sdl.pending)
    {
      GatherEvents(win, sdl);
      ghost var left := sdl.pending;
      while events != []
        invariant sdl.pending == left
        decreases |events|
      {
        events := events[1..];
      }
    }

    /** reset: the same as flushEvents for the keyboard. */
    method Reset(win: Window, sdl: Backend)
      modifies this`events, sdl`pending
      ensures events == []
      ensures Active(win) ==> sdl.pending == KeyboardLeaves(version, old(sdl.pending))
      ensures !Active(win) ==> sdl.pending == old(sdl.pending)
    {
      FlushEvents(win, sdl);
    }

    /** pause: stop taking input; what is already queued stays. */
    method Pause()
      modifies this`enabled
      ensures !enabled
    {
      enabled := false;
    }

    /** resume: take input again, starting from an empty device queue. */
    method Resume(win: Window, sdl: Backend)
      modifies this`enabled, this`events, sdl`pending
      ensures enabled && events == []
      ensures win.focused ==> sdl.pending == KeyboardLeaves(version, old(sdl.pending))
      ensures !win.focused ==> sdl.pending == old(sdl.pending)
    {
      enabled := true;
      Reset(win, sdl);
    }
  }
}
