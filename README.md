# Odamex SDL input layer

This project models the core of Odamex's SDL input layer and proves
properties of the model in Dafny. That core is the part that turns raw
backend notifications into the engine's `event_t` stream and decides when
the pointer is captured. It has two halves.

- **The device layer** (`client/sdl/i_sdlinput.cpp`). These are the
  keyboard, mouse and joystick input devices for SDL 1.2 and SDL 2.0, and
  the input subsystem that owns them.
  - Each device has an enabled flag and a FIFO queue of engine events.
  - Its gather step moves SDL events of its own kind out of SDL's shared
    queue and translates them into that FIFO.
  - The two SDL generations share one class per device. A `version`
    constant separates them where the code differs.
  - SDL 1.2 pushes one quit per gather, SDL 2.0 one per ALT+F4. Only SDL 2.0
    drops repeats, looks ahead for text and has a wheel event.
- **The legacy SDL 1.2 path** (`client/sdl/i_input.cpp`).
  - `I_CheckMouseGrab` and `I_UpdateFocus` decide the pointer grab.
  - `I_GetEvent` dispatches keys, joystick buttons, axes and hats. Hats go
    through a side list of held directions, kept by
    `RegisterJoystickEvent` and `UpdateJoystickEvents`.
  - Two mouse drivers aggregate a whole frame of input: `SDLMouse` and
    `RawWin32Mouse`.

SDL itself is the `Sdl.Backend` class:
- the shared event queue, as a sequence of raw events;
- the cursor position, the cursor visibility and the grab flag.

`SDL_PeepEvents` becomes `Take`/`TakeAtMost`, which return the events of one
class in order and leave the rest (`Select`, `Reject`, `TakenFirst`,
`LeftAfter`). `SDL_PushEvent` becomes `Push`, and `SDL_WarpMouse` becomes
`Warp`, which moves the cursor and appends the motion event the warp
generates.

The window's focus and video size are a `Window` parameter. The tick
counter is an integer parameter, and the hat positions SDL reports are a
map parameter.

Three details of the code that the model keeps:
- Both SDL devices queue an event with data1 = 0 for a mouse button they do not name.
- `I_CheckMouseGrab` refuses the grab in a window with `-nomouse`.
- The `SDL_ACTIVEEVENT` case of `I_GetEvent` cannot be reached, because its event mask does not include that event.

Files:
- `sdl.dfy`: raw events, SDL constants, event classes and the backend.
- `events.dfy`: `event_t` and the engine key codes.
- `keyboard.dfy`, `mouse.dfy`, `joystick.dfy`: the three devices.
- `subsystem.dfy`: the input subsystem.
- `legacy_policy.dfy`: the pure decisions of the legacy path.
- `legacy_mouse.dfy`: `SDLMouse` and `RawWin32Mouse`.
- `legacy_events.dfy`: `I_GetEvent`'s dispatch and the hat list, as values.
- `legacy_input.dfy`: the legacy globals and functions as one `InputLayer`
  class.

## Model

| member | source | states |
|---|---|---|
| Events.KeyEvent | client/sdl/i_input.cpp:1193-1195 | a button key event carries the key in data1 and nothing in data2/data3; its kind is key-down exactly when the button went down |
| Sdl.Select | client/sdl/i_sdlinput.cpp:567 | what SDL_PeepEvents takes for an event mask: only events of the class, only events that were queued, never more than there were |
| Sdl.Reject | client/sdl/i_sdlinput.cpp:567 | what SDL_PeepEvents leaves behind: only events outside the class, drawn from the queue |
| Sdl.SelectRejectSizes | client/sdl/i_sdlinput.cpp:567 | a fetch splits the queue: taken plus left is everything |
| Sdl.SelectAppend | client/sdl/i_sdlinput.cpp:567 | fetching distributes over a concatenated queue |
| Sdl.RejectAppend | client/sdl/i_sdlinput.cpp:567 | what a fetch leaves distributes over a concatenated queue |
| Sdl.SelectOfReject | client/sdl/i_sdlinput.cpp:567 | after a fetch no event of the class is left, and a second fetch leaves the queue as it is |
| Sdl.TakenFirstIsPrefix | client/sdl/i_input.cpp:606 | a bounded fetch takes the oldest n events of the class, or all of them when there are fewer |
| Sdl.TakenFirst | client/sdl/i_input.cpp:606 | a bounded fetch never takes more than its buffer of n |
| Sdl.LeftAfterCovering | client/sdl/i_input.cpp:606 | a bounded fetch with room for every event of the class leaves what an unbounded one leaves |
| Sdl.NoneSelected | client/sdl/i_sdlinput.cpp:686 | a fetch that finds nothing leaves the queue unchanged |
| Sdl.Backend.Take | client/sdl/i_sdlinput.cpp:567 | SDL_PeepEvents with SDL_GETEVENT, repeated until empty: returns every event of the class in order and removes exactly those |
| Sdl.Backend.TakeAtMost | client/sdl/i_input.cpp:606 | one SDL_PeepEvents call with a buffer of n: returns the oldest n events of the class and removes exactly those |
| Sdl.Backend.Push | client/sdl/i_sdlinput.cpp:604 | SDL_PushEvent appends at the tail |
| Sdl.Backend.Drain | client/sdl/i_input.cpp:147-148 | the SDL_PollEvent loop of I_FlushInput empties the queue |
| Sdl.Backend.Warp | client/sdl/i_sdlinput.cpp:675-676 | SDL_WarpMouse moves the cursor and queues the motion event of the move |
| Sdl.Backend.ShowCursor | client/sdl/i_input.cpp:567 | SDL_ShowCursor sets the visibility |
| Sdl.Backend.SetGrab | client/sdl/i_input.cpp:222 | SDL_WM_GrabInput sets the grab |
| Keyboard.ShiftSwapsCase | client/sdl/i_sdlinput.cpp:359-410 | the shift table swaps the case of every letter and is its own inverse on letters |
| Keyboard.TranslateKey | client/sdl/i_sdlinput.cpp:441-447 | translateKey: an unknown symbol gives 0, a known one its table entry |
| Keyboard.TranslateKeyText | client/sdl/i_sdlinput.cpp:457-479 | translateKeyText: 0 for an unknown symbol; CAPS LOCK upper-cases only 'a'..'z'; SHIFT then applies the shift table, so CAPS LOCK with SHIFT gives the lower-case letter and SHIFT alone swaps the case |
| Keyboard.ScanText | client/sdl/i_sdlinput.cpp:1540-1553 | the lookahead scan: the first text event wins, a key-down met first gives 0, none found gives 0 |
| Keyboard.TextEventValue | client/sdl/i_sdlinput.cpp:1533-1556 | getTextEventValue looks at most 32 events ahead and returns the text of the first text event unless a key-down precedes it |
| Keyboard.KeyboardLeavesTwice | client/sdl/i_sdlinput.cpp:567-605 | a gather leaves no key event in SDL's queue, so gathering again changes nothing |
| Keyboard.KeyStep | client/sdl/i_sdlinput.cpp:574-594 | one fetched event queues nothing exactly when it is not a key event, an SDL 2.0 repeat, ALT+F4, ALT+TAB or a key without translation; otherwise one event, its translation |
| Keyboard.KeyGather | client/sdl/i_sdlinput.cpp:565-596 | a batch queues at most one engine event per fetched event |
| Keyboard.KeyGatherOrigin | client/sdl/i_sdlinput.cpp:574-594 | every queued engine event comes from a fetched key that is not ALT+F4, not ALT+TAB and (SDL 2.0) not a repeat, and carries its non-zero translation |
| Keyboard.InterceptedQueueNothing | client/sdl/i_sdlinput.cpp:574-583 | in any batch the queued events and the intercepted ALT+F4/ALT+TAB keys together are at most the batch, so each intercepted key takes the place of an event; a batch of only intercepted keys queues nothing |
| Keyboard.CountIntercepted | client/sdl/i_sdlinput.cpp:574-583 | at most one intercepted ALT+F4 or ALT+TAB per fetched event |
| Keyboard.SeenAltF4Exactly | client/sdl/i_sdlinput.cpp:574-579 | SDL 1.2's quit_event is set exactly when an ALT+F4 was fetched |
| Keyboard.QuitsPushed12 | client/sdl/i_sdlinput.cpp:600-605 | SDL 1.2 pushes at most one quit per gather, and one exactly when an ALT+F4 was fetched |
| Keyboard.CountQuitTriggersSnoc | client/sdl/i_sdlinput.cpp:1592-1608 | one more event adds one quit trigger exactly when it is a non-repeated ALT+F4 |
| Keyboard.Quits20Exactly | client/sdl/i_sdlinput.cpp:1592-1608 | SDL 2.0 pushes exactly one quit per non-repeated ALT+F4 and nothing else |
| Keyboard.KeyUpCarriesNoText20 | client/sdl/i_sdlinput.cpp:1585-1589 | in the corrected SDL 2.0 gather a queued key-up carries no text |
| Keyboard.KeyStep20AsWritten | client/sdl/i_sdlinput.cpp:1576-1612 | as written, an SDL 2.0 key-up's data2/data3 are whatever was in the uninitialised event |
| Keyboard.KeyUpPayloadIndeterminate | client/sdl/i_sdlinput.cpp:1576-1589 | as written, the same key-up batch queues different events for different stale values |
| Keyboard.KeyboardDevice.constructor | client/sdl/i_sdlinput.cpp:245-254 | the device is built with its tables, enabled, with an empty queue, after a flush of SDL's key events when focused |
| Keyboard.KeyboardDevice.GetEvent | client/sdl/i_sdlinput.cpp:616-621 | getEvent pops the front of the queue (FIFO) and needs a non-empty queue |
| Keyboard.KeyboardDevice.GatherEvents | client/sdl/i_sdlinput.cpp:550-606 | corrected (an SDL 2.0 key-up carries text 0, see Findings): inactive: nothing changes; active: the translated key events are appended in order and SDL keeps every other event, plus the quit requests |
| Keyboard.KeyboardDevice.Translate12 | client/sdl/i_sdlinput.cpp:565-596 | the SDL 1.2 loop appends KeyGather of the batch and reports whether an ALT+F4 was seen |
| Keyboard.KeyboardDevice.Step12 | client/sdl/i_sdlinput.cpp:574-594 | one SDL 1.2 loop turn appends exactly the batch function's step |
| Keyboard.KeyboardDevice.Translate20 | client/sdl/i_sdlinput.cpp:1574-1614 | corrected (a key-up carries text 0, see Findings): the SDL 2.0 loop appends KeyGather of the batch and pushes one quit request per non-repeated ALT+F4 |
| Keyboard.KeyboardDevice.FlushEvents | client/sdl/i_sdlinput.cpp:494-499 | flushEvents gathers, then empties the device queue |
| Keyboard.KeyboardDevice.Reset | client/sdl/i_sdlinput.cpp:505-508 | reset is flushEvents |
| Keyboard.KeyboardDevice.Pause | client/sdl/i_sdlinput.cpp:519-524 | pause disables the device |
| Keyboard.KeyboardDevice.Resume | client/sdl/i_sdlinput.cpp:535-541 | resume enables the device, then flushes, so the queue is empty afterwards |
| Mouse.ButtonKey | client/sdl/i_sdlinput.cpp:806-821 | a button maps to 0 exactly when it is not one of the named buttons |
| Mouse.ButtonKeyInjective | client/sdl/i_sdlinput.cpp:806-821 | two buttons with the same non-zero key are the same button |
| Mouse.MouseStep | client/sdl/i_sdlinput.cpp:794-824 | motion gives ev_mouse with (xrel, -yrel); a button-down gives one ev_keydown and a button-up one ev_keyup, each with the button's key (0 when unnamed) in data1 and 0 in data2/data3; other events give nothing |
| Mouse.WheelDirection | client/sdl/i_sdlinput.cpp:1813-1827 | a wheel event with y != 0 gives one key-down: MWHEELUP iff direction*y > 0, else MWHEELDOWN |
| Mouse.MotionSumSnoc | client/sdl/i_sdlinput.cpp:797-801 | the movement of a queue grows by the one event appended |
| Mouse.MovementPreserved | client/sdl/i_sdlinput.cpp:797-801 | the queued events carry the total horizontal movement and the total vertical movement negated |
| Mouse.MouseGather | client/sdl/i_sdlinput.cpp:789-824 | a batch queues at most one engine event per fetched event |
| Mouse.GatherOnePerEvent12 | client/sdl/i_sdlinput.cpp:789-824 | SDL 1.2 queues one engine event per fetched mouse event |
| Mouse.GatherOnePerEvent20 | client/sdl/i_sdlinput.cpp:1798-1844 | SDL 2.0 queues one per fetched event except flat wheel events |
| Mouse.KeepNotEcho | client/sdl/i_sdlinput.cpp:689-702 | center keeps only fetched events, none of them the warp's own motion, and never more than it fetched |
| Mouse.KeepNotEchoMembers | client/sdl/i_sdlinput.cpp:689-702 | center keeps exactly the fetched events that are not the warp's own motion |
| Mouse.KeepNotEchoAppend | client/sdl/i_sdlinput.cpp:689-702 | the filter works event by event |
| Mouse.KeepNotEchoIdempotent | client/sdl/i_sdlinput.cpp:689-702 | filtering twice is filtering once |
| Mouse.NoMotionAfterMouseTake | client/sdl/i_sdlinput.cpp:785 | after a mouse-class fetch no motion is left |
| Mouse.TakeAfterWarp | client/sdl/i_sdlinput.cpp:675-688 | center's single bounded fetch takes every motion event, the echo last |
| Mouse.DropEchoAtEnd | client/sdl/i_sdlinput.cpp:695-697 | the warp's echo at the end is dropped |
| Mouse.PushBackNotEcho | client/sdl/i_sdlinput.cpp:689-702 | the non-echo events are pushed back in their original order |
| Mouse.MouseDevice.constructor | client/sdl/i_sdlinput.cpp:634-638 | the device starts disabled, so its reset changes nothing |
| Mouse.MouseDevice.GetEvent | client/sdl/i_sdlinput.cpp:840-845 | FIFO pop of a non-empty queue |
| Mouse.MouseDevice.Center | client/sdl/i_sdlinput.cpp:664-704 | inactive: nothing; active: cursor at the centre and SDL's queue is the non-motion events followed by the motion events minus the warp's echo |
| Mouse.MouseDevice.GatherEvents | client/sdl/i_sdlinput.cpp:771-830 | active: every mouse event is translated and appended, none is left in SDL, and the cursor is centred |
| Mouse.MouseDevice.Translate | client/sdl/i_sdlinput.cpp:789-824 | the inner loop appends MouseGather of the batch |
| Mouse.MouseDevice.FlushEvents | client/sdl/i_sdlinput.cpp:710-715 | gathers, then the device queue is empty |
| Mouse.MouseDevice.Reset | client/sdl/i_sdlinput.cpp:721-725 | flush then centre: the queue is empty, SDL holds no mouse event, the cursor is centred |
| Mouse.MouseDevice.Pause | client/sdl/i_sdlinput.cpp:736-743 | disabled and the cursor shown |
| Mouse.MouseDevice.Resume | client/sdl/i_sdlinput.cpp:754-762 | enabled, the cursor hidden, the queue empty |
| Joystick.CodeEvent | client/sdl/i_sdlinput.cpp:1001-1008 | a button or hat event carries its code in data1 and data2 and 0 in data3 |
| Joystick.HatEdgesExact | client/sdl/i_sdlinput.cpp:1026-1049 | a keydown for direction i iff its bit goes 0 to 1, a keyup iff 1 to 0, nothing else, in the order up, right, down, left |
| Joystick.HatEdgesBound | client/sdl/i_sdlinput.cpp:1031-1047 | one hat event queues at most one event per direction |
| Joystick.HatSteady | client/sdl/i_sdlinput.cpp:1037-1046 | an unchanged hat queues nothing |
| Joystick.HatEdgesFour | client/sdl/i_sdlinput.cpp:1031-1047 | the four directions are visited in order |
| Joystick.HatScenario | client/sdl/i_sdlinput.cpp:1026-1049 | example on one input sequence (the general fact is HatEdgesExact): up, then up+right, then right queues UP down, RIGHT down, UP up |
| Joystick.AxisValue | client/sdl/i_sdlinput.cpp:1010-1017 | the axis value is 0 iff it is inside the deadzone, otherwise the value itself |
| Joystick.OtherJoysticksIgnored | client/sdl/i_sdlinput.cpp:1000-1026 | events of another joystick change neither the queue nor the hat states |
| Joystick.HatStateIsLastValue | client/sdl/i_sdlinput.cpp:1049 | after a batch each hat state is the value of the last motion of that hat |
| Joystick.JoyStep | client/sdl/i_sdlinput.cpp:1000-1050 | one event keeps the number of hat states |
| Joystick.JoyStepCases | client/sdl/i_sdlinput.cpp:1000-1050 | a button-down/up of this joystick queues one key-down/up with button + KEY_JOY1 in data1 and data2; an axis queues one ev_joystick with the deadzoned value; a hat queues its edges and stores its new value; any other event, or another joystick's, queues nothing and keeps the hats |
| Joystick.JoyGather | client/sdl/i_sdlinput.cpp:992-1051 | a batch keeps the number of hat states |
| Joystick.JoyGatherSnoc | client/sdl/i_sdlinput.cpp:992-1051 | the gather of one more fetched event extends the gather before it by exactly that event's step |
| Joystick.JoyGatherBound | client/sdl/i_sdlinput.cpp:992-1051 | a batch queues at most four events per fetched event |
| Joystick.JoyGatherAxisOrigin | client/sdl/i_sdlinput.cpp:1010-1017 | every ev_joystick queued is the deadzoned value of a fetched axis event of this joystick |
| Joystick.JoystickDevice.constructor | client/sdl/i_sdlinput.cpp:858-877 | a joystick that fails to open stays closed, disabled and without hats; otherwise there is one centred state per hat and the device is resumed |
| Joystick.JoystickDevice.GetEvent | client/sdl/i_sdlinput.cpp:1063-1068 | FIFO pop of a non-empty queue |
| Joystick.JoystickDevice.ProcessHat | client/sdl/i_sdlinput.cpp:1026-1049 | the hat's edges are appended and its stored state becomes the new value, the others unchanged |
| Joystick.JoystickDevice.QueueEdges | client/sdl/i_sdlinput.cpp:1031-1047 | the loop over the four directions appends HatEdges |
| Joystick.JoystickDevice.Translate | client/sdl/i_sdlinput.cpp:992-1051 | the batch loop appends JoyGather's events and leaves JoyGather's hat states |
| Joystick.JoystickDevice.TranslateOne | client/sdl/i_sdlinput.cpp:1000-1050 | one event: button, axis, hat or another joystick's event |
| Joystick.JoystickDevice.GatherEvents | client/sdl/i_sdlinput.cpp:975-1053 | active: every joystick event is taken from SDL and translated |
| Joystick.JoystickDevice.FlushEvents | client/sdl/i_sdlinput.cpp:910-917 | the queue is empty and every hat state SDL_HAT_CENTERED |
| Joystick.JoystickDevice.Reset | client/sdl/i_sdlinput.cpp:923-926 | reset is flushEvents |
| Joystick.JoystickDevice.Pause | client/sdl/i_sdlinput.cpp:937-945 | disabled |
| Joystick.JoystickDevice.Resume | client/sdl/i_sdlinput.cpp:956-965 | enabled, the queue empty, the hats centred |
| Subsystem.Without | client/sdl/i_sdlinput.cpp:1165-1174 | unregistering removes exactly that device kind |
| Subsystem.WithoutKeepsNoDuplicates | client/sdl/i_sdlinput.cpp:1165-1174 | unregistering keeps the registered list free of duplicates |
| Subsystem.WithoutAbsent | client/sdl/i_sdlinput.cpp:1165-1174 | unregistering an absent kind changes nothing |
| Subsystem.NoKindLeft | client/sdl/i_sdlinput.cpp:1109-1118 | a list with no keyboard, mouse or joystick is empty |
| Subsystem.InputSubsystem.constructor | client/sdl/i_sdlinput.cpp:1079-1102 | no devices, nothing registered, the cursor hidden and the input grabbed |
| Subsystem.InputSubsystem.GrabInput | client/sdl/i_sdlinput.cpp:1362-1366 | mInputGrabbed and SDL's grab set |
| Subsystem.InputSubsystem.ReleaseInput | client/sdl/i_sdlinput.cpp:1372-1376 | mInputGrabbed and SDL's grab cleared |
| Subsystem.InputSubsystem.ShutdownKeyboard | client/sdl/i_sdlinput.cpp:1165-1174 | the slot is emptied and unregistered, the old device paused by its destructor |
| Subsystem.InputSubsystem.InitKeyboard | client/sdl/i_sdlinput.cpp:1142-1159 | shutdown first, then a fresh enabled device registered once: at most one keyboard |
| Subsystem.InputSubsystem.PauseKeyboard | client/sdl/i_sdlinput.cpp:1180-1185 | the device, if any, is paused |
| Subsystem.InputSubsystem.ResumeKeyboard | client/sdl/i_sdlinput.cpp:1191-1196 | the device, if any, is resumed with an empty queue |
| Subsystem.InputSubsystem.ShutdownMouse | client/sdl/i_sdlinput.cpp:1244-1253 | the slot is emptied and unregistered; the destructor's pause shows the cursor |
| Subsystem.InputSubsystem.InitMouse | client/sdl/i_sdlinput.cpp:1220-1238 | shutdown first, then a fresh enabled mouse registered once, the cursor hidden |
| Subsystem.InputSubsystem.PauseMouse | client/sdl/i_sdlinput.cpp:1259-1264 | the mouse, if any, is paused and the cursor shown |
| Subsystem.InputSubsystem.ResumeMouse | client/sdl/i_sdlinput.cpp:1270-1275 | the mouse, if any, is resumed |
| Subsystem.InputSubsystem.ShutdownJoystick | client/sdl/i_sdlinput.cpp:1325-1334 | the slot is emptied and unregistered |
| Subsystem.InputSubsystem.InitJoystick | client/sdl/i_sdlinput.cpp:1302-1319 | shutdown first, then a fresh joystick registered once |
| Subsystem.InputSubsystem.PauseJoystick | client/sdl/i_sdlinput.cpp:1340-1345 | the joystick, if any, is paused |
| Subsystem.InputSubsystem.ResumeJoystick | client/sdl/i_sdlinput.cpp:1351-1356 | the joystick, if any, is resumed |
| Subsystem.InputSubsystem.Shutdown | client/sdl/i_sdlinput.cpp:1109-1118 | every device is shut down and nothing stays registered |
| LegacyPolicy.CheckMouseGrab | client/sdl/i_input.cpp:174-195 | no grab without focus; always in full screen; otherwise none with -nomouse, menu, console or pause; otherwise only in a level or intermission outside demo playback |
| LegacyPolicy.GrabDecision | client/sdl/i_input.cpp:259-269 | grab iff allowed and not grabbed, release iff grabbed and not allowed, otherwise keep |
| LegacyPolicy.UpdateFocusAsWritten | client/sdl/i_input.cpp:242-270 | I_UpdateFocus as written: flush on focus gain, and the grab decision over mouse_grabbed = driver present and not paused |
| LegacyPolicy.NoMouseFullscreenFlushesEveryTick | client/sdl/i_input.cpp:256-263 | without a mouse driver in full screen every tick grabs and flushes, the next tick again |
| LegacyPolicy.NoMouseWindowedGrab | client/sdl/i_input.cpp:256-269 | without a driver in a window with -nomouse, the step as written keeps SDL's grab (so the grab taken on focus is never released); the corrected step releases it exactly when SDL holds it |
| LegacyPolicy.UpdateFocusCorrected | client/sdl/i_input.cpp:242-270 | the same decision, with mouse_grabbed taken from SDL's grab when there is no driver |
| LegacyPolicy.CorrectedAgreesWithDriver | client/sdl/i_input.cpp:256 | with a mouse driver the correction decides exactly as written |
| LegacyPolicy.CorrectedSettles | client/sdl/i_input.cpp:242-270 | after the corrected step acts, the next tick with the same focus and state neither flushes nor changes the grab |
| LegacyPolicy.AsciiText | client/sdl/i_input.cpp:651-654 | the text is the unicode value iff it is 7-bit, else 0 |
| LegacyPolicy.KeyDownText | client/sdl/i_input.cpp:639-654 | keypad 0-9 give '0'+(sym-KP0); KP_PERIOD, KP_DIVIDE and KP_ENTER give '.', '/' and '\r'; otherwise the 7-bit text |
| LegacyPolicy.LegacyAxisValue | client/sdl/i_input.cpp:707-716 | zero iff inside JOY_DEADZONE = 6000, and the same value the joystick device reports |
| LegacyPolicy.LegacyHatCode | client/sdl/i_input.cpp:310-317 | the key of a hat direction is the code the joystick device uses for it, 0 for a value that is not a direction |
| LegacyMouse.MovementEvent | client/sdl/i_input.cpp:1243-1244 | the movement event is posted iff some movement is left |
| LegacyMouse.SdlMouseButtonKey | client/sdl/i_input.cpp:1197-1231 | the key of a button is the device's key; wheel keys only on button-down; 0 for other buttons |
| LegacyMouse.SdlMouseButtonPost | client/sdl/i_input.cpp:1191-1236 | a fetched event posts at most one key event |
| LegacyMouse.SdlMouseButtonsNamed | client/sdl/i_input.cpp:1191-1236 | the posted button events have a non-zero key, are never ev_mouse, and a wheel key is only a key-down |
| LegacyMouse.SdlMouseOneMovement | client/sdl/i_input.cpp:1167-1244 | all motion of a call is posted as one last ev_mouse with (sum of xrel, minus the sum of yrel), and only when it is not zero |
| LegacyMouse.SdlMouseButtons | client/sdl/i_input.cpp:1191-1236 | at most one button post per fetched event |
| LegacyMouse.SdlMousePosts | client/sdl/i_input.cpp:1167-1244 | the posts begin with the button posts, and there is at most one more post than fetched events |
| LegacyMouse.EchoSwallowed | client/sdl/i_input.cpp:1260-1262 | the flush after the warp removes the warp's motion event |
| LegacyMouse.SdlMouse.constructor | client/sdl/i_input.cpp:1123-1126 | the driver starts paused with a positive buffer size |
| LegacyMouse.SdlMouse.FlushEvents | client/sdl/i_input.cpp:1149-1153 | one bounded fetch of mouse events is discarded |
| LegacyMouse.SdlMouse.Center | client/sdl/i_input.cpp:1255-1264 | with a screen: warp to the centre, then flush |
| LegacyMouse.SdlMouse.Aggregate | client/sdl/i_input.cpp:1169-1244 | the accumulation loop posts exactly SdlMousePosts of the batch |
| LegacyMouse.SdlMouse.ProcessEvents | client/sdl/i_input.cpp:1162-1247 | paused: nothing; otherwise the posts of one bounded fetch, then re-centring |
| LegacyMouse.SdlMouse.FrameLeavesNoMouseEvents | client/sdl/i_input.cpp:1177-1262 | when the buffer has room, a frame takes every mouse event and leaves only the others, the warp's echo included |
| LegacyMouse.SdlMouse.Pause | client/sdl/i_input.cpp:1273-1276 | paused |
| LegacyMouse.SdlMouse.Resume | client/sdl/i_input.cpp:1279-1283 | active, then re-centred |
| LegacyMouse.ButtonPosts | client/sdl/i_input.cpp:899-953 | the button posts are key events of the right kind and never wheel keys |
| LegacyMouse.ButtonPostsExact | client/sdl/i_input.cpp:899-953 | a button's event is posted iff its down (or up) bit is set |
| LegacyMouse.ButtonPostsCodes | client/sdl/i_input.cpp:899-953 | the button codes are KEY_MOUSE1..KEY_MOUSE5 |
| LegacyMouse.Short | client/sdl/i_input.cpp:959-964 | usButtonData read as a signed 16-bit value: in range, congruent mod 2^16, negative iff the top bit is set |
| LegacyMouse.WheelPost | client/sdl/i_input.cpp:955-969 | a negative wheel value posts MWHEELDOWN, a positive one MWHEELUP, zero nothing |
| LegacyMouse.DownsBeforeUps | client/sdl/i_input.cpp:899-953 | the downs of buttons 1..5 are posted before the ups |
| LegacyMouse.RawButtons | client/sdl/i_input.cpp:899-969 | one record posts at most eleven events (ten button edges and the wheel) |
| LegacyMouse.RawButtonsKeys | client/sdl/i_input.cpp:899-969 | every post of a record is a key-down or a key-up |
| LegacyMouse.RawButtonsAll | client/sdl/i_input.cpp:871-971 | the records of a frame post at most eleven events each |
| LegacyMouse.RawButtonsAllKeys | client/sdl/i_input.cpp:871-971 | every button post of a frame is a key-down or a key-up |
| LegacyMouse.RawMove | client/sdl/i_input.cpp:875-894 | an absolute sample records its position as the previous one; a relative one keeps the old position and marks it invalid |
| LegacyMouse.RelativeMovementAdds | client/sdl/i_input.cpp:888-894 | relative samples add (x, -y) and clear the previous position |
| LegacyMouse.AbsoluteMovementTelescopes | client/sdl/i_input.cpp:875-887 | consecutive absolute samples add up to the last position minus the first, and record the last |
| LegacyMouse.RawPosts | client/sdl/i_input.cpp:871-975 | the posts begin with the button posts of every record, and number at most eleven per record plus one |
| LegacyMouse.RawPostsOneMovement | client/sdl/i_input.cpp:871-975 | only the last post can be ev_mouse; it is there iff the frame's summed movement is non-zero, and it carries that movement |
| LegacyMouse.LeftAsWritten | client/sdl/i_input.cpp:871-971 | what the as-written loop leaves is at most the queue |
| LegacyMouse.LeftAsWrittenHalf | client/sdl/i_input.cpp:871-971 | the as-written loop leaves the newer half of the queue |
| LegacyMouse.AsWrittenLeavesRecords | client/sdl/i_input.cpp:871-971 | with two or more records queued, n/2 records stay behind |
| LegacyMouse.RawWin32Mouse.constructor | client/sdl/i_input.cpp:781-786 | an empty queue, no previous position, inactive |
| LegacyMouse.RawWin32Mouse.PopRecord | client/sdl/i_input.cpp:873-971 | the oldest record moves the pointer and yields its button posts, then is popped |
| LegacyMouse.RawWin32Mouse.PopAsWritten | client/sdl/i_input.cpp:871-972 | the as-written loop processes the older records and leaves LeftAsWritten of them |
| LegacyMouse.RawWin32Mouse.ProcessEventsAsWritten | client/sdl/i_input.cpp:860-976 | as written: only the older half of the queue is processed, with its posts and pointer |
| LegacyMouse.RawWin32Mouse.ProcessEvents | client/sdl/i_input.cpp:860-976 | corrected: every record is processed in order and the queue is empty |
| LegacyMouse.RawWin32Mouse.FlushEvents | client/sdl/i_input.cpp:849-852 | the queue is cleared |
| LegacyMouse.RawWin32Mouse.Pause | client/sdl/i_input.cpp:988-991 | inactive |
| LegacyMouse.RawWin32Mouse.Resume | client/sdl/i_input.cpp:993-998 | active, then the queue is cleared |
| LegacyEvents.RegisterOne | client/sdl/i_input.cpp:279-329 | a registered direction changes nothing; a new one appends one entry and posts one key-down |
| LegacyEvents.RegisterFlags | client/sdl/i_input.cpp:722-735 | the four direction tests issue no command, keep the list and the posts before them, and add exactly as many posts as new entries, at most one per direction |
| LegacyEvents.RegisterKeepsUnique | client/sdl/i_input.cpp:289-298 | the list never gets two entries for the same joystick, hat and direction |
| LegacyEvents.RegisterFlagsKeepsUnique | client/sdl/i_input.cpp:722-735 | registering the four directions of a hat event keeps the list unique |
| LegacyEvents.DiagonalRegistersBoth | client/sdl/i_input.cpp:726-735 | example on one input (the general facts are RegisterOne and RegisterFlags): an up-right motion registers UP then RIGHT, each posting its key-down |
| LegacyEvents.Dispatch | client/sdl/i_input.cpp:613-738 | nothing posted, issued or registered is lost; a key-up is posted with its 7-bit text; only hat motion touches the hat list |
| LegacyEvents.DispatchCommandCases | client/sdl/i_input.cpp:613-633 | SDL_QUIT issues "quit"; SDL_VIDEORESIZE issues the mode change in a window and nothing in full screen; any event outside the switch changes nothing |
| LegacyEvents.DispatchButtonCases | client/sdl/i_input.cpp:685-706 | a button-down/up of joy_active posts one key-down/up with button + KEY_JOY1 in data1 and data2 |
| LegacyEvents.DispatchAxisHatCases | client/sdl/i_input.cpp:707-736 | an axis of joy_active posts ev_joystick with the deadzoned value; a hat of joy_active registers its four directions; another joystick's event changes nothing |
| LegacyEvents.DispatchAll | client/sdl/i_input.cpp:609-739 | a batch keeps everything posted, issued and registered before it |
| LegacyEvents.DispatchAllKeepsUnique | client/sdl/i_input.cpp:609-739 | dispatching a batch keeps the hat list unique |
| LegacyEvents.AltKeysOnWindows | client/sdl/i_input.cpp:664-672 | on Windows with ALT held, TAB posts nothing and F4 issues "quit" and is still posted |
| LegacyEvents.KeyDownPosted | client/sdl/i_input.cpp:639-673 | otherwise a key-down is posted with its text |
| LegacyEvents.OtherJoystickIgnored | client/sdl/i_input.cpp:685-736 | events of a joystick other than joy_active change nothing |
| LegacyEvents.TickDiff | client/sdl/i_input.cpp:349-350 | tick differences are unsigned 32-bit subtractions |
| LegacyEvents.StillHeld | client/sdl/i_input.cpp:346 | a direction is held only on a hat SDL reports and for a non-zero direction |
| LegacyEvents.RepeatDue | client/sdl/i_input.cpp:349-350 | no repeat on the tick of registration or of the last repeat |
| LegacyEvents.UpdateOne | client/sdl/i_input.cpp:343-380 | a released entry posts one key-up and leaves; a held one stays with its key and registration tick; when the repeat is due it posts one key-down and records now as its last tick, otherwise it is unchanged and posts nothing |
| LegacyEvents.RepeatTiming | client/sdl/i_input.cpp:349-353 | a held direction posts its key-down again exactly when at least 500 ticks have passed since registration and at least 60 since its last key-down, and only then records now as its last tick |
| LegacyEvents.TickDiffNoWrap | client/sdl/i_input.cpp:349-350 | without a wrap of the counter the unsigned difference is the plain one |
| LegacyEvents.UpdateAll | client/sdl/i_input.cpp:340-383 | at most one kept entry and one posted event per entry |
| LegacyEvents.KeysAppend | client/sdl/i_input.cpp:340-383 | the keys of a list distribute over concatenation |
| LegacyEvents.KeyUpsAppend | client/sdl/i_input.cpp:340-383 | the key-ups of a list distribute over concatenation |
| LegacyEvents.UpdateExact | client/sdl/i_input.cpp:340-383 | the kept entries are the held ones in order, and the key-ups are exactly those of the released ones |
| LegacyEvents.HeldKeysMembers | client/sdl/i_input.cpp:340-383 | held keys were in the list |
| LegacyEvents.KeysIndex | client/sdl/i_input.cpp:340-383 | the key list follows the entry list index by index |
| LegacyEvents.HeldKeysUnique | client/sdl/i_input.cpp:340-383 | keeping a sub-list keeps keys unique |
| LegacyEvents.UpdateKeepsUnique | client/sdl/i_input.cpp:340-383 | the update keeps the list unique |
| LegacyInput.MouseTakeKeepsLegacy | client/sdl/i_input.cpp:1177 | the mouse driver's fetch leaves every event I_GetEvent fetches |
| LegacyInput.SameLegacyTake | client/sdl/i_input.cpp:606 | I_GetEvent's fetch depends only on the events of its own mask |
| LegacyInput.NoneLeftAfterCovering | client/sdl/i_input.cpp:606 | a fetch with room for all leaves none of the class |
| LegacyInput.SdlFrameKeepsLegacy | client/sdl/i_input.cpp:1162-1264 | an SDLMouse frame keeps every event I_GetEvent fetches |
| LegacyInput.InputLayer.constructor | client/sdl/i_input.cpp:110-137 | the driver chosen by I_InitMouseDriver: at most one of the two, nothing focused yet, an empty hat list |
| LegacyInput.InputLayer.FlushInput | client/sdl/i_input.cpp:145-151 | SDL's queue is emptied and the driver's own queue flushed; the raw driver's pointer state and activity are kept |
| LegacyInput.InputLayer.PauseMouse | client/sdl/i_input.cpp:565-570 | the cursor is shown and the driver paused; the raw driver's queue and pointer state are kept |
| LegacyInput.InputLayer.ResumeMouse | client/sdl/i_input.cpp:578-583 | the cursor is hidden and the driver resumed: the raw driver's queue emptied with its pointer state kept, SDLMouse re-centred |
| LegacyInput.InputLayer.FlushThenResume | client/sdl/i_input.cpp:262-263 | after the flush and resume of a grab nothing is pending, the driver runs and the raw driver's pointer state is kept |
| LegacyInput.InputLayer.InitFocus | client/sdl/i_input.cpp:216-230 | focused: grabbed, cursor hidden, driver resumed; otherwise released, cursor shown, driver paused; the raw driver's pointer state is kept |
| LegacyInput.InputLayer.UpdateFocus | client/sdl/i_input.cpp:242-270 | the new grab, paused state, cursor and flush are those of the corrected focus step; the raw driver's pointer state is kept |
| LegacyInput.InputLayer.RegisterJoystickEvent | client/sdl/i_input.cpp:279-330 | the list search and append give RegisterOne; 0 iff already registered, 1 iff new |
| LegacyInput.InputLayer.RegisterHat | client/sdl/i_input.cpp:722-736 | the four direction tests give RegisterFlags |
| LegacyInput.InputLayer.DispatchOne | client/sdl/i_input.cpp:613-738 | one switch case gives Dispatch |
| LegacyInput.InputLayer.DispatchBatch | client/sdl/i_input.cpp:609-739 | the loop gives DispatchAll |
| LegacyInput.InputLayer.UpdateJoystickEvents | client/sdl/i_input.cpp:332-384 | the erase loop gives UpdateAll: held entries kept in order, key-ups for released ones |
| LegacyInput.InputLayer.UpdateEntry | client/sdl/i_input.cpp:340-383 | one entry gives UpdateOne |
| LegacyInput.InputLayer.MouseFramePosts | client/sdl/i_input.cpp:595-596 | no driver or a paused one posts nothing; only the last post of a frame can be ev_mouse |
| LegacyInput.InputLayer.ProcessMouse | client/sdl/i_input.cpp:595-596 | corrected (the raw driver drains its whole queue, see Findings): the driver's frame posts MouseFramePosts and keeps every event I_GetEvent fetches; an active raw driver ends with an empty queue and the pointer state folded over all its records |
| LegacyInput.InputLayer.DispatchFrame | client/sdl/i_input.cpp:608-742 | the dispatch loop gives DispatchAll, then with use_joystick the hat update gives UpdateAll; the hat list stays unique |
| LegacyInput.InputLayer.GetEvent | client/sdl/i_input.cpp:588-743 | corrected raw drain as in ProcessMouse: the mouse frame, with the raw pointer folded over every record, then the first 256 events of the mask dispatched in order, then the hat update with use_joystick; no event of the mask is left when there were at most 256 |
| LegacyInput.InputLayer.Shutdown | client/sdl/i_input.cpp:545-556 | the mouse driver is destroyed and the grab released |

## Left out

- SDL and Win32 calls are replaced by the `Backend` class and by parameters.
  - `SDL_PumpEvents` has no counterpart.
  - The queue clearing that `SDL_EventState` performs in `pause`/`resume` is not modelled.
  - `SDL_GetAppState` (I_CheckFocusState) becomes the focus argument of `InitFocus`/`UpdateFocus`.
  - `SDL_GetTicks` becomes `Config.now`.
  - `SDL_GetModState` becomes `Config.modState`.
  - `SDL_JoystickGetHat` becomes a map from hat to position; a missing hat reads as centred.
- The contents of the SDL-to-key tables (`I_BuildSDLKeyTranslationTable`, the SDL 1.2 text table) are parameters: their `SDLK_*`/`KEY_*` values come from headers that are not part of this model. The shift table is written out.
- The engine key codes (`KEY_MOUSE1`, `KEY_HAT1`, `KEY_JOY1`, ...) and the SDL symbol values have placeholder values; only their distinctness and order matter.
- `convUTF8ToUTF32` is a library call; a text event carries its UTF-32 value directly.
- The `RawWin32Mouse` hook, device registration, backup/restore and destructor are Windows message plumbing. The queue they fill is the class's `queue` field.
- Device enumeration, names and `Printf` logging are descriptive output only.
- Cvar callbacks, `I_InitMouseDriver`, `I_OpenJoystick`/`I_CloseJoystick` and the key-repeat setters are configuration. `mouse_input` is the driver the `InputLayer` is built with.
- The `SDL_VIDEORESIZE` case is modelled as the command `SetMode(w, h)` rather than the string it builds, and the `vid_defwidth`/`vid_defheight` update is left out.
- `RegisterJoystickEvent`'s -1 return for a null event and its 0 return for a non-hat event are not modelled: only hat events reach it here.
- `SDLMouse`'s `MAX_EVENTS` is a constructor parameter (`maxEvents`), since its value is defined in a header that is not part of this model.
- LegacyInput.InputLayer.GetEvent: it states the result over one frame; the `SDL_ACTIVEEVENT` case is not modelled because the event mask never fetches it. Its raw mouse frame is the corrected full drain, as in ProcessMouse.
- LegacyInput.InputLayer.UpdateFocus: it uses the corrected focus step (`LegacyPolicy.UpdateFocusCorrected`, second Findings row), where `mouse_grabbed` is SDL's own grab flag when there is no mouse driver, instead of `mouse_input && !mouse_input->paused()`. With a driver the two agree (`CorrectedAgreesWithDriver`). Without one, in full screen the code as written grabs and flushes every tick, while the corrected step grabs once. In a window with `-nomouse`, the code as written never releases the grab taken on focus, while the corrected step releases it on the next tick (`NoMouseWindowedGrab`).
- LegacyInput.InputLayer.ProcessMouse: it uses the corrected `RawWin32Mouse.ProcessEvents`, which processes every queued record; the loop as written processes only the older half (first Findings row, `LegacyMouse.RawWin32Mouse.ProcessEventsAsWritten`).
- Keyboard.KeyboardDevice.GatherEvents and Keyboard.KeyboardDevice.Translate20: an SDL 2.0 key-up carries text 0, the corrected behaviour (third Findings row).
- The Xbox build's `_XBOX` block that gives RETURN the text '\r' (`client/sdl/i_input.cpp:656-660`) is not modelled: only the desktop build is.
- Mouse.MouseDevice.Center: it requires that the motion events fit in center's 1024-event buffer, as the source asserts.
- Joystick.JoystickDevice.GatherEvents: it requires that every hat index of the active joystick is below the number of hats, as the source asserts.
- Floating-point cvars (`mouse_driver`, `mouse_acceleration`) and the SDL 1.2 `SDL_BUTTON_WHEEL*` button numbers above X2 on SDL 2.0 are not modelled.

## Findings

| source | as written | input that shows it | evidently intended | confidence | as-written member | corrected member |
|---|---|---|---|---|---|---|
| client/sdl/i_input.cpp:871-971 | the loop runs while `i < queueSize()`, and each turn pops a record, so it stops half way | three queued records: two are processed and one stays for the next frame (n records leave n/2) | every queued record is processed in one call | not executed | LegacyMouse.RawWin32Mouse.ProcessEventsAsWritten | LegacyMouse.RawWin32Mouse.ProcessEvents |
| client/sdl/i_input.cpp:256-263 | `mouse_grabbed` is false whenever there is no mouse driver | `-nomouse` in full screen with the window focused: every tick grabs again and calls I_FlushInput, discarding pending keyboard events; in a window with `-nomouse` the grab taken on focus (i_input.cpp:222) is never released | without a driver, the grab state is SDL's own grab flag, so the grab happens once | not executed | LegacyPolicy.NoMouseFullscreenFlushesEveryTick | LegacyPolicy.CorrectedSettles |
| client/sdl/i_sdlinput.cpp:1576-1589 | an SDL 2.0 key-up is queued with `data2`/`data3` never assigned | a single key-up of a translated key: its text fields hold stale stack values | a key-up carries no text (0) | not executed | Keyboard.KeyUpPayloadIndeterminate | Keyboard.KeyUpCarriesNoText20 |
