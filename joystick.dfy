/**
 * The SDL joystick device (ISDL12JoystickInputDevice /
 * ISDL20JoystickInputDevice): buttons become key events, axes joystick
 * events with a deadzone, and each hat's four direction bits are compared
 * with the hat's last known state to produce one key event per change.
 */
module Joystick {
  import opened Sdl
  import opened Events

  /** The four hat directions in the order the device visits them. */
  const HAT_FLAGS: seq<bv8> := [HAT_UP, HAT_RIGHT, HAT_DOWN, HAT_LEFT]

  /** The engine key of direction i (0 up, 1 right, 2 down, 3 left) of a hat. */
  function HatCode(hat: int, i: int): int
  {
    hat * 4 + KEY_HAT1 + i
  }

  /** A hat or button key event: the key code goes into both data1 and data2. */
  function CodeEvent(down: bool, code: int): (e: Event)
    ensures e.data1 == code && e.data2 == code && e.data3 == 0
    ensures e.kind == EvKeyDown <==> down
    ensures e.kind == EvKeyUp <==> !down
  {
    Event(if down then EvKeyDown else EvKeyUp, code, code, 0)
  }

  predicate Rises(before: bv8, after: bv8, i: int)
    requires 0 <= i < 4
  {
    before & HAT_FLAGS[i] == 0 && after & HAT_FLAGS[i] != 0
  }

  predicate Falls(before: bv8, after: bv8, i: int)
    requires 0 <= i < 4
  {
    before & HAT_FLAGS[i] != 0 && after & HAT_FLAGS[i] == 0
  }

  /** The event (if any) that direction i contributes when the hat moves from before to after. */
  function HatEdge(hat: int, before: bv8, after: bv8, i: int): seq<Event>
    requires 0 <= i < 4
  {
    if Rises(before, after, i) then [CodeEvent(true, HatCode(hat, i))]
    else if Falls(before, after, i) then [CodeEvent(false, HatCode(hat, i))]
    else []
  }

  /** The events for directions 0 .. n-1, in that order: at most one per direction. */
  function HatEdges(hat: int, before: bv8, after: bv8, n: nat): seq<Event>
    requires n <= 4
  {
    if n == 0 then [] else HatEdges(hat, before, after, n - 1) + HatEdge(hat, before, after, n - 1)
  }

  /** e is the event direction i of the hat produces for this change. */
  predicate EdgeOf(hat: int, before: bv8, after: bv8, i: int, e: Event)
    requires 0 <= i < 4
  {
    (Rises(before, after, i) && e == CodeEvent(true, HatCode(hat, i))) ||
    (Falls(before, after, i) && e == CodeEvent(false, HatCode(hat, i)))
  }

  /**
   * Edge detection: a key-down for exactly the directions that became held,
   * a key-up for exactly those released, nothing else, one event per
   * direction, in the order up, right, down, left.
   */
  lemma {:induction false} HatEdgesExact(hat: int, before: bv8, after: bv8, n: nat)
    requires n <= 4
    ensures forall i :: 0 <= i < n ==> (CodeEvent(true, HatCode(hat, i)) in HatEdges(hat, before, after, n) <==> Rises(before, after, i))
    ensures forall i :: 0 <= i < n ==> (CodeEvent(false, HatCode(hat, i)) in HatEdges(hat, before, after, n) <==> Falls(before, after, i))
    ensures forall e :: e in HatEdges(hat, before, after, n) ==> exists i :: 0 <= i < n && EdgeOf(hat, before, after, i, e)
    ensures forall a, b :: 0 <= a < b < |HatEdges(hat, before, after, n)| ==>
              HatEdges(hat, before, after, n)[a].data1 < HatEdges(hat, before, after, n)[b].data1
    ensures forall e :: e in HatEdges(hat, before, after, n) ==> e.data1 < HatCode(hat, n)
  {
    if n > 0 {
      HatEdgesExact(hat, before, after, n - 1);
      var prev := HatEdges(hat, before, after, n - 1);
      var step := HatEdge(hat, before, after, n - 1);
      assert HatEdges(hat, before, after, n) == prev + step;
      forall e | e in prev + step
        ensures exists i :: 0 <= i < n && EdgeOf(hat, before, after, i, e)
      {
        if e in prev {
          var i :| 0 <= i < n - 1 && EdgeOf(hat, before, after, i, e);
          assert EdgeOf(hat, before, after, i, e);
        } else {
          assert EdgeOf(hat, before, after, n - 1, e);
        }
      }
      forall i | 0 <= i < n - 1
        ensures CodeEvent(true, HatCode(hat, i)) !in step && CodeEvent(false, HatCode(hat, i)) !in step
      {
      }
    }
  }

  /** One hat event queues at most one event per direction visited. */
  lemma {:induction false} HatEdgesBound(hat: int, before: bv8, after: bv8, n: nat)
    requires n <= 4
    ensures |HatEdges(hat, before, after, n)| <= n
  {
    if n > 0 {
      HatEdgesBound(hat, before, after, n - 1);
    }
  }

  /** A hat event that repeats the stored state produces nothing. */
  lemma {:induction false} HatSteady(hat: int, state: bv8, n: nat)
    requires n <= 4
    ensures HatEdges(hat, state, state, n) == []
  {
    if n > 0 {
      HatSteady(hat, state, n - 1);
    }
  }

  lemma HatEdgesFour(hat: int, before: bv8, after: bv8)
    ensures HatEdges(hat, before, after, 4) ==
      HatEdge(hat, before, after, 0) + HatEdge(hat, before, after, 1) +
      HatEdge(hat, before, after, 2) + HatEdge(hat, before, after, 3)
  {
    assert HatEdges(hat, before, after, 1) == HatEdge(hat, before, after, 0);
    assert HatEdges(hat, before, after, 2) == HatEdges(hat, before, after, 1) + HatEdge(hat, before, after, 1);
    assert HatEdges(hat, before, after, 3) == HatEdges(hat, before, after, 2) + HatEdge(hat, before, after, 2);
  }

  /** The hat moving up, then up-right, then right: a press of up, a press of right, a release of up. */
  lemma HatScenario()
    ensures HatEdges(0, HAT_CENTERED, HAT_UP, 4) == [CodeEvent(true, KEY_HAT1)]
    ensures HatEdges(0, HAT_UP, HAT_UP | HAT_RIGHT, 4) == [CodeEvent(true, KEY_HAT2)]
    ensures HatEdges(0, HAT_UP | HAT_RIGHT, HAT_RIGHT, 4) == [CodeEvent(false, KEY_HAT1)]
  {
    HatEdgesFour(0, HAT_CENTERED, HAT_UP);
    HatEdgesFour(0, HAT_UP, HAT_UP | HAT_RIGHT);
    HatEdgesFour(0, HAT_UP | HAT_RIGHT, HAT_RIGHT);
  }

  /** The axis value reported: 0 strictly inside the deadzone, the raw value otherwise. */
  function AxisValue(value: int): (r: int)
    ensures r == 0 <==> -JOY_DEADZONE < value < JOY_DEADZONE || value == 0
    ensures r != 0 ==> r == value
  {
    if value >= JOY_DEADZONE || value <= -JOY_DEADZONE then value else 0
  }

  /** Every hat event of joystick id in s names a hat the device has. */
  predicate HatsInRange(s: seq<RawEvent>, id: int, numHats: int)
  {
    forall k :: 0 <= k < |s| && s[k].JoyHatMotion? && s[k].which == id ==> 0 <= s[k].hat < numHats
  }

  /** What one fetched event adds to the device queue, and the hat states after it. */
  datatype JoyResult = JoyResult(events: seq<Event>, hats: seq<bv8>)

  /** What one fetched event adds to the queue, and the hat states after it. */
  function JoyStep(id: int, hats: seq<bv8>, e: RawEvent): (r: JoyResult)
    requires e.JoyHatMotion? && e.which == id ==> 0 <= e.hat < |hats|
    ensures |r.hats| == |hats|
  {
    match e
    case JoyButtonDown(which, b) =>
      JoyResult(if which == id then [CodeEvent(true, b + KEY_JOY1)] else [], hats)
    case JoyButtonUp(which, b) =>
      JoyResult(if which == id then [CodeEvent(false, b + KEY_JOY1)] else [], hats)
    case JoyAxisMotion(which, axis, value) =>
      JoyResult(if which == id then [Event(EvJoystick, 0, axis, AxisValue(value))] else [], hats)
    case JoyHatMotion(which, hat, value) =>
      if which == id then JoyResult(HatEdges(hat, hats[hat], value, 4), hats[hat := value])
      else JoyResult([], hats)
    case _ => JoyResult([], hats)
  }

  /**
   * The cases of one fetched event: a button of joystick id gives its key
   * event (button + KEY_JOY1), an axis an ev_joystick event with the
   * deadzone applied, a hat the edges of its change and its new state;
   * anything else, and any event of another joystick, gives nothing.
   */
  lemma JoyStepCases(id: int, hats: seq<bv8>, e: RawEvent)
    requires e.JoyHatMotion? && e.which == id ==> 0 <= e.hat < |hats|
    ensures var r := JoyStep(id, hats, e);
      e.JoyButtonDown? && e.which == id ==>
      r.hats == hats && r.events == [Event(EvKeyDown, e.button + KEY_JOY1, e.button + KEY_JOY1, 0)]
    ensures var r := JoyStep(id, hats, e);
      e.JoyButtonUp? && e.which == id ==>
      r.hats == hats && r.events == [Event(EvKeyUp, e.button + KEY_JOY1, e.button + KEY_JOY1, 0)]
    ensures var r := JoyStep(id, hats, e);
      e.JoyAxisMotion? && e.which == id ==>
      r.hats == hats && r.events == [Event(EvJoystick, 0, e.axis, AxisValue(e.value))]
    ensures var r := JoyStep(id, hats, e);
      e.JoyHatMotion? && e.which == id ==>
      r.hats == hats[e.hat := e.hatValue] && r.events == HatEdges(e.hat, hats[e.hat], e.hatValue, 4)
    ensures var r := JoyStep(id, hats, e);
      !(e.JoyButtonDown? || e.JoyButtonUp? || e.JoyAxisMotion? || e.JoyHatMotion?) || e.which != id ==>
      r == JoyResult([], hats)
  {
  }

  /**
   * The fold of JoyStep over the fetched events, starting from the stored
   * hat states.
   */
  function JoyGather(id: int, hats: seq<bv8>, fetched: seq<RawEvent>): (r: JoyResult)
    requires HatsInRange(fetched, id, |hats|)
    ensures |r.hats| == |hats|
  {
    if fetched == [] then JoyResult([], hats)
    else
      var init := fetched[..|fetched| - 1];
      assert forall e :: e in init ==> e in fetched;
      var p := JoyGather(id, hats, init);
      var last := fetched[|fetched| - 1];
      var step := JoyStep(id, p.hats, last);
      JoyResult(p.events + step.events, step.hats)
  }

  /**
   * Every ev_joystick event a gather queues is the deadzoned value of an
   * axis event of joystick id among the fetched events.
   */
  lemma {:induction false} JoyGatherAxisOrigin(id: int, hats: seq<bv8>, fetched: seq<RawEvent>)
    requires HatsInRange(fetched, id, |hats|)
    ensures forall e :: e in JoyGather(id, hats, fetched).events && e.kind == EvJoystick ==>
      exists j :: 0 <= j < |fetched| && fetched[j].JoyAxisMotion? && fetched[j].which == id &&
                  e == Event(EvJoystick, 0, fetched[j].axis, AxisValue(fetched[j].value))
  {
    if fetched != [] {
      var init := fetched[..|fetched| - 1];
      assert forall e :: e in init ==> e in fetched;
      JoyGatherAxisOrigin(id, hats, init);
      var p := JoyGather(id, hats, init);
      var last := fetched[|fetched| - 1];
      var step := JoyStep(id, p.hats, last);
      forall e | e in p.events + step.events && e.kind == EvJoystick
        ensures exists j :: 0 <= j < |fetched| && fetched[j].JoyAxisMotion? && fetched[j].which == id &&
                            e == Event(EvJoystick, 0, fetched[j].axis, AxisValue(fetched[j].value))
      {
        if e in p.events {
          var j :| 0 <= j < |init| && init[j].JoyAxisMotion? && init[j].which == id &&
                   e == Event(EvJoystick, 0, init[j].axis, AxisValue(init[j].value));
          assert fetched[j] == init[j];
        } else {
          if last.JoyHatMotion? && last.which == id {
            HatEdgesExact(last.hat, p.hats[last.hat], last.hatValue, 4);
            assert false;
          } else {
            assert last.JoyAxisMotion? && last.which == id;
            assert fetched[|fetched| - 1] == last;
          }
        }
      }
    }
  }

  /** Gathering one more fetched event extends the gather of the events before it by one step. */
  lemma JoyGatherSnoc(id: int, hats: seq<bv8>, fetched: seq<RawEvent>, i: nat)
    requires HatsInRange(fetched, id, |hats|) && i < |fetched|
    ensures HatsInRange(fetched[..i], id, |hats|) && HatsInRange(fetched[..i + 1], id, |hats|)
    ensures fetched[i].JoyHatMotion? && fetched[i].which == id ==> 0 <= fetched[i].hat < |hats|
    ensures var p := JoyGather(id, hats, fetched[..i]);
            var step := JoyStep(id, p.hats, fetched[i]);
            JoyGather(id, hats, fetched[..i + 1]) == JoyResult(p.events + step.events, step.hats)
  {
    assert fetched[..i + 1][..i] == fetched[..i];
    assert fetched[i] in fetched;
    assert forall x :: x in fetched[..i + 1] ==> x in fetched;
  }

  /** A gather queues at most four events per fetched event. */
  lemma {:induction false} JoyGatherBound(id: int, hats: seq<bv8>, fetched: seq<RawEvent>)
    requires HatsInRange(fetched, id, |hats|)
    ensures |JoyGather(id, hats, fetched).events| <= 4 * |fetched|
  {
    if fetched != [] {
      var init := fetched[..|fetched| - 1];
      assert forall e :: e in init ==> e in fetched;
      JoyGatherBound(id, hats, init);
      var p := JoyGather(id, hats, init);
      var last := fetched[|fetched| - 1];
      if last.JoyHatMotion? && last.which == id {
        assert last in fetched;
        HatEdgesBound(last.hat, p.hats[last.hat], last.hatValue, 4);
      }
    }
  }

  /** Events of other joysticks change nothing. */
  lemma {:induction false} OtherJoysticksIgnored(id: int, hats: seq<bv8>, fetched: seq<RawEvent>)
    requires forall e :: e in fetched ==> !(e.JoyAxisMotion? || e.JoyHatMotion? || e.JoyButtonDown? || e.JoyButtonUp?) || e.which != id
    ensures HatsInRange(fetched, id, |hats|)
    ensures JoyGather(id, hats, fetched) == JoyResult([], hats)
  {
    if fetched != [] {
      var init := fetched[..|fetched| - 1];
      assert forall e :: e in init ==> e in fetched;
      OtherJoysticksIgnored(id, hats, init);
      assert fetched[|fetched| - 1] in fetched;
    }
  }

  /** The hat value of the last event of joystick id for hat h in s, or dflt if there is none. */
  function LastHatValue(id: int, s: seq<RawEvent>, h: int, dflt: bv8): bv8
  {
    if s == [] then dflt
    else
      var e := s[|s| - 1];
      if e.JoyHatMotion? && e.which == id && e.hat == h then e.hatValue
      else LastHatValue(id, s[..|s| - 1], h, dflt)
  }

  /** After a gather every hat holds the value of its last event, or its old state. */
  lemma {:induction false} HatStateIsLastValue(id: int, hats: seq<bv8>, fetched: seq<RawEvent>)
    requires HatsInRange(fetched, id, |hats|)
    ensures forall h :: 0 <= h < |hats| ==> JoyGather(id, hats, fetched).hats[h] == LastHatValue(id, fetched, h, hats[h])
  {
    if fetched != [] {
      var init := fetched[..|fetched| - 1];
      assert forall e :: e in init ==> e in fetched;
      HatStateIsLastValue(id, hats, init);
      assert fetched[|fetched| - 1] in fetched;
    }
  }

  /**
   * The joystick device: the joystick it reads (mJoystickId), whether SDL
   * opened it, the last known state of each hat (mHatStates), whether it is
   * enabled (mActive) and the events it has gathered (mEvents).
   */
  class JoystickDevice {
    const joystickId: int
    const isOpen: bool
    const hatStates: array<bv8>
    var enabled: bool
    var events: seq<Event>

    /**
     * The constructor opens the joystick; when that fails the device stays
     * closed, disabled and without hats. Otherwise it allocates one state per
     * hat and resumes.
     */
    constructor (id: int, opens: bool, numHats: nat, win: Window, sdl: Backend)
      requires opens && win.focused ==> HatsInRange(Select(sdl.pending, JoystickClass), id, numHats)
      modifies sdl`pending
      ensures joystickId == id && isOpen == opens && fresh(hatStates)
      ensures events == []
      ensures !opens ==> !enabled && hatStates.Length == 0 && sdl.pending == old(sdl.pending)
      ensures opens ==> enabled && hatStates.Length == numHats
      ensures forall i :: 0 <= i < hatStates.Length ==> hatStates[i] == HAT_CENTERED
      ensures opens && win.focused ==> sdl.pending == Reject(old(sdl.pending), JoystickClass)
      ensures !win.focused ==> sdl.pending == old(sdl.pending)
    {
      joystickId := id;
      isOpen := opens;
      enabled := false;
      events := [];
      hatStates := new bv8[if opens then numHats else 0](_ => HAT_CENTERED);
      new;
      if opens {
        Resume(win, sdl);
      }
    }

    /** active(): isOpen, enabled, and the window has focus. */
    predicate Active(win: Window)
      reads this
    {
      isOpen && enabled && win.focused
    }

    predicate HasEvent()
      reads this
    {
      events != []
    }

    /** getEvent: the oldest gathered event; the caller must check HasEvent first. */
    method GetEvent() returns (ev: Event)
      requires HasEvent()
      modifies this`events
      ensures [ev] + events == old(events)
    {
      ev := events[0];
      events := events[1..];
    }

    /**
     * The inner loop over the four directions of one hat event: queues the
     * edges, then stores the new state. The source asserts the hat exists.
     */
    method ProcessHat(hat: int, value: bv8)
      requires 0 <= hat < hatStates.Length
      modifies this`events, hatStates
      ensures events == old(events) + HatEdges(hat, old(hatStates[hat]), value, 4)
      ensures hatStates[..] == old(hatStates[..])[hat := value]
    {
      QueueEdges(hat, hatStates[hat], value);
      hatStates[hat] := value;
    }

    /** The four directions of one hat, in order: a key-down for each press, a key-up for each release. */
    method QueueEdges(hat: int, before: bv8, value: bv8)
      modifies this`events
      ensures events == old(events) + HatEdges(hat, before, value, 4)
    {
      for i := 0 to 4
        invariant events == old(events) + HatEdges(hat, before, value, i)
      {
        var code := hat * 4 + KEY_HAT1 + i;
        assert HatEdges(hat, before, value, i + 1) == HatEdges(hat, before, value, i) + HatEdge(hat, before, value, i);
        if Rises(before, value, i) {
          events := events + [Event(EvKeyDown, code, code, 0)];
        } else if Falls(before, value, i) {
          events := events + [Event(EvKeyUp, code, code, 0)];
        }
      }
    }

    /** The loop of gatherEvents over the fetched events. */
    method Translate(fetched: seq<RawEvent>)
      requires HatsInRange(fetched, joystickId, hatStates.Length)
      modifies this`events, hatStates
      ensures events == old(events) + JoyGather(joystickId, old(hatStates[..]), fetched).events
      ensures hatStates[..] == JoyGather(joystickId, old(hatStates[..]), fetched).hats
    {
      var i := 0;
      while i < |fetched|
        invariant 0 <= i <= |fetched|
        invariant events == old(events) + JoyGather(joystickId, old(hatStates[..]), fetched[..i]).events
        invariant hatStates[..] == JoyGather(joystickId, old(hatStates[..]), fetched[..i]).hats
      {
        JoyGatherSnoc(joystickId, old(hatStates[..]), fetched, i);
        TranslateOne(fetched[i]);
        i := i + 1;
      }
      assert fetched[..i] == fetched;
    }

    /** One turn of the loop of gatherEvents. */
    method TranslateOne(e: RawEvent)
      requires e.JoyHatMotion? && e.which == joystickId ==> 0 <= e.hat < hatStates.Length
      modifies this`events, hatStates
      ensures events == old(events) + JoyStep(joystickId, old(hatStates[..]), e).events
      ensures hatStates[..] == JoyStep(joystickId, old(hatStates[..]), e).hats
    {
      match e {
        case JoyButtonDown(which, b) =>
          if which == joystickId {
            events := events + [Event(EvKeyDown, b + KEY_JOY1, b + KEY_JOY1, 0)];
          }
        case JoyButtonUp(which, b) =>
          if which == joystickId {
            events := events + [Event(EvKeyUp, b + KEY_JOY1, b + KEY_JOY1, 0)];
          }
        case JoyAxisMotion(which, axis, value) =>
          if which == joystickId {
            var data3 := 0;
            if value >= JOY_DEADZONE || value <= -JOY_DEADZONE {
              data3 := value;
            }
            events := events + [Event(EvJoystick, 0, axis, data3)];
          }
        case JoyHatMotion(which, hat, value) =>
          if which == joystickId {
            ProcessHat(hat, value);
          }
        case _ =>
      }
    }

    /**
     * gatherEvents: moves every pending SDL joystick event into the device
     * queue; events of other joysticks are taken and dropped.
     */
    method GatherEvents(win: Window, sdl: Backend)
      requires Active(win) ==> HatsInRange(Select(sdl.pending, JoystickClass), joystickId, hatStates.Length)
      modifies this`events, hatStates, sdl`pending
      ensures !Active(win) ==> (events == old(events) && hatStates[..] == old(hatStates[..]) &&
                sdl.pending == old(sdl.pending))
      ensures Active(win) ==> (
                var r := JoyGather(joystickId, old(hatStates[..]), Select(old(sdl.pending), JoystickClass));
                events == old(events) + r.events && hatStates[..] == r.hats &&
                sdl.pending == Reject(old(sdl.pending), JoystickClass))
    {
      if !Active(win) {
        return;
      }
      var fetched := sdl.Take(JoystickClass);
      Translate(fetched);
    }

    /** flushEvents: gathers, discards everything queued, and centres every hat. */
    method FlushEvents(win: Window, sdl: Backend)
      requires Active(win) ==> HatsInRange(Select(sdl.pending, JoystickClass), joystickId, hatStates.Length)
      modifies this`events, hatStates, sdl`pending
      ensures events == []
      ensures forall i :: 0 <= i < hatStates.Length ==> hatStates[i] == HAT_CENTERED
      ensures !Active(win) ==> sdl.pending == old(sdl.pending)
      ensures Active(win) ==> sdl.pending == Reject(old(sdl.pending), JoystickClass)
    {
      GatherEvents(win, sdl);
      ghost var left := sdl.pending;
      while events != []
        invariant sdl.pending == left
        decreases |events|
      {
        events := events[1..];
      }
      for i := 0 to hatStates.Length
        invariant forall k :: 0 <= k < i ==> hatStates[k] == HAT_CENTERED
        invariant events == [] && sdl.pending == left
      {
        hatStates[i] := HAT_CENTERED;
      }
    }

    /** reset: the same as flushEvents for the joystick. */
    method Reset(win: Window, sdl: Backend)
      requires Active(win) ==> HatsInRange(Select(sdl.pending, JoystickClass), joystickId, hatStates.Length)
      modifies this`events, hatStates, sdl`pending
      ensures events == []
      ensures forall i :: 0 <= i < hatStates.Length ==> hatStates[i] == HAT_CENTERED
      ensures !Active(win) ==> sdl.pending == old(sdl.pending)
      ensures Active(win) ==> sdl.pending == Reject(old(sdl.pending), JoystickClass)
    {
      FlushEvents(win, sdl);
    }

    /** pause: stop taking input. */
    method Pause()
      modifies this`enabled
      ensures !enabled
    {
      enabled := false;
    }

    /** resume: take input again from an empty queue with every hat centred. */
    method Resume(win: Window, sdl: Backend)
      requires isOpen && win.focused ==> HatsInRange(Select(sdl.pending, JoystickClass), joystickId, hatStates.Length)
      modifies this`enabled, this`events, hatStates, sdl`pending
      ensures enabled && events == []
      ensures forall i :: 0 <= i < hatStates.Length ==> hatStates[i] == HAT_CENTERED
      ensures !(isOpen && win.focused) ==> sdl.pending == old(sdl.pending)
      ensures isOpen && win.focused ==> sdl.pending == Reject(old(sdl.pending), JoystickClass)
    {
      enabled := true;
      Reset(win, sdl);
    }
  }
}
