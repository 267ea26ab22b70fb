/**
 * The engine-side event record (event_t) that every input path produces,
 * and the engine key codes the input layer writes into it.
 */
module Events {

  /** evtype_t: the four kinds of event the input layer produces. */
  datatype EventKind = EvKeyDown | EvKeyUp | EvMouse | EvJoystick

  /** event_t: a kind and three integer payloads. */
  datatype Event = Event(kind: EventKind, data1: int, data2: int, data3: int)

  // Engine key codes from doomkeys.h. That header is not part of this model:
  // the numbers below are stand-ins. The model relies only on the codes being
  // positive and pairwise distinct, and on KEY_HAT1 .. KEY_HAT4 being
  // consecutive (the SDL device code adds 0..3 to KEY_HAT1, the legacy code
  // names KEY_HAT1 .. KEY_HAT4 one by one).
  const KEY_MOUSE1: int := 0x100
  const KEY_MOUSE2: int := 0x101
  const KEY_MOUSE3: int := 0x102
  const KEY_MOUSE4: int := 0x103
  const KEY_MOUSE5: int := 0x104
  const KEY_MWHEELUP: int := 0x105
  const KEY_MWHEELDOWN: int := 0x106
  const KEY_JOY1: int := 0x110
  const KEY_HAT1: int := 0x150
  const KEY_HAT2: int := 0x151
  const KEY_HAT3: int := 0x152
  const KEY_HAT4: int := 0x153

  /** Axis values strictly inside (-JOY_DEADZONE, JOY_DEADZONE) are reported as 0. */
  const JOY_DEADZONE: int := 6000

  /** A key-down or key-up event carrying only a key code. */
  function KeyEvent(down: bool, code: int): (ev: Event)
    ensures ev.data1 == code && ev.data2 == 0 && ev.data3 == 0
    ensures ev.kind == EvKeyDown <==> down
    ensures ev.kind == EvKeyUp <==> !down
  {
    Event(if down then EvKeyDown else EvKeyUp, code, 0, 0)
  }
}
