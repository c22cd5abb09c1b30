# NABU USB keyboard converter: key-to-protocol translation

A Dafny model of the decision logic of the NABU USB converter firmware
(`src/main.cpp`): a microcontroller that acts as USB host for a boot-protocol
keyboard and writes the byte protocol of the NABU terminal on a serial link.

- **Keys** (`keys.dfy`): what a key-down sends. A key the keyboard layout resolves
  to a character `c` sends the single byte `c`. Six navigation keys (Page Up/Down,
  cursor left/right/up/down) send fixed two-byte sequences. Every other key sends
  the diagnostic text `[0x` + hex scancode + `]`. The model includes the receiving
  side's decoder and proves it recovers the branch, the character or the scancode
  from the bytes, and that everything it accepts was sent by some key-down.
- **KeepAlive** (`keepalive.dfy`): the ping byte `0x94` goes out when more than
  3700 ms have elapsed since `last_ping`. Elapsed time is 32-bit unsigned
  subtraction, written out as arithmetic modulo 2^32. Lemmas about runs of idle
  iterations: pings are sent at increasing iteration positions, more than one
  interval apart, none while everything stays within the interval, and the first
  one exactly at the first iteration past it.
- **Joystick** (`joystick.dfy`): the five active-low JOY1 lines are packed as
  `101BBBBB` (B1, UP, R, DN, L from bit 4 down). A poll sends the frame `0x80, state`
  only when the state byte changes. Lemmas about runs of polls: the output is a
  sequence of well-formed frames, every frame reports a change, and the stored state
  ends as the last poll's state.
- **Firmware** (`firmware.dfy`): the class `Converter` holds the firmware globals:
  the UART output as a growing `seq<byte>`, `last_ping` and `joyState`. Its
  constructor `Setup` is the globals' initialisation plus `setup()`, which writes
  `0x95`. Its methods are the callbacks `OnKeyDown`, `OnKeyUp` and `OnKeyPressed`,
  plus `SendPing` and one iteration of `loop()`. Each method's `ensures` gives its
  whole new state in terms of the pure functions above. Two methods `IdleRun` and
  `PollRun` call `Loop` repeatedly and prove that the link then carries what the run
  functions of `KeepAlive` and `Joystick` describe.

Inputs the firmware gets from code or hardware outside this file are parameters:
- the keyboard layout lookup `OemToAscii` becomes the resolved character `c` (0 for none);
- `millis()` becomes one `now: u32` per loop iteration, which key-down callbacks in that iteration also use;
- `digitalRead` of the five JOY1 lines becomes a `JoyPins` value of five booleans, each true when its line reads LOW;
- `UsbH.Task()` becomes the sequence of key events it delivers, handled in order before the ping check.

Arduino's `print(n, HEX)` is not part of this model's source. It is assumed to print
upper-case digits, most significant first, with no leading zeros (`0x05` prints as
`5`, zero prints as `0`).

The ping test at src/main.cpp:230 is strict: 3700 ms elapsed sends no ping and
3701 ms does (`KeepAlive.PingBoundary`).

## Model

| member | source | states |
|---|---|---|
| `Keys.NavBytes` | src/main.cpp:75-100 | the switch table: a scancode has a sequence exactly when it is one of the six navigation keys; each sequence is two bytes `0xE0`..`0xE5` followed by the same byte with bit 4 set |
| `Keys.NavTableInverse` | src/main.cpp:75-100 | the table is a bijection: a key maps to a pair exactly when the pair decodes back to that key |
| `Keys.HexDigit` | src/main.cpp:103 | each digit is upper-case hexadecimal and is `'0'` only for zero |
| `Keys.DigitValue` | src/main.cpp:103 | reading a hex digit gives a value below 16 whose digit is the one read |
| `Keys.DigitValueOfHexDigit` | src/main.cpp:103 | printing a digit and reading it back gives the digit's value |
| `Keys.HexString` | src/main.cpp:103 | the scancode printed in hex: one or more upper-case digits without a leading zero, one digit below 16 and two otherwise |
| `Keys.HexRoundTrip` | src/main.cpp:103 | reading the printed digits back gives the scancode |
| `Keys.HexCanonicalRoundTrip` | src/main.cpp:103 | every one- or two-digit canonical hex string is the printing of its value |
| `Keys.Diagnostic` | src/main.cpp:101-105 | the fallback text `[0x`, hex, `]` is five or six bytes long |
| `Keys.Classify` | src/main.cpp:68-105 | the branch taken: character exactly when `c` is non-zero, otherwise navigation exactly when the scancode is in the table, else unmapped, carrying `c` or the scancode |
| `Keys.KeyDownBytes` | src/main.cpp:66-106 | the three branches are exclusive and cover every input: one byte exactly when `c` is non-zero, two bytes exactly for a navigation key, five or more otherwise; the output is never empty |
| `Keys.KeyDownRoundTrip` | src/main.cpp:68-106 | decoding what a key-down sends gives back its branch and its character or scancode |
| `Keys.DecodeKeyDownSound` | src/main.cpp:68-106 | any byte string the decoder accepts is exactly what key-down sends for the action decoded |
| `KeepAlive.Elapsed` | src/main.cpp:230 | `millis() - last_ping` on 32-bit unsigned values: the plain difference when no wrap occurred, the difference plus 2^32 after a wrap, zero only for equal times |
| `KeepAlive.After` | src/main.cpp:230 | adding a delay on the 32-bit clock moves the elapsed time forward by that delay modulo 2^32 |
| `KeepAlive.PingBoundary` | src/main.cpp:230 | the comparison with `kPingInterval` is strict: 3700 ms after `last_ping` is not due, 3701 ms is, even across the clock wrap |
| `KeepAlive.PingDue` | src/main.cpp:230 | the test `millis() - last_ping > kPingInterval`; it is never due at the instant of the last ping |
| `KeepAlive.PingTimes` | src/main.cpp:230-234 | the ping instants of a run of idle iterations; there are never more pings than iterations |
| `KeepAlive.LastPingAfter` | src/main.cpp:233 | `last_ping` after a run of idle iterations is its start value or one of the iteration instants |
| `KeepAlive.PingTimesSnoc` | src/main.cpp:230-234 | one more idle iteration adds a ping exactly when it is due against the `last_ping` reached so far, and then moves `last_ping` to its instant |
| `KeepAlive.PingTimesFromRun` | src/main.cpp:230-234 | the ping instants of a run are the iterations at strictly increasing positions of the run, so pings come in order and at most one per iteration |
| `KeepAlive.PingIndicesSelect` | src/main.cpp:230-234 | each ping instant is the instant of the iteration at its recorded position |
| `KeepAlive.PingIndicesIncrease` | src/main.cpp:230-234 | the positions of the pinging iterations strictly increase |
| `KeepAlive.PingAtFirstDue` | src/main.cpp:230-234 | the first ping of a run is sent at the first iteration that is due, and at its position |
| `KeepAlive.PingsSpaced` | src/main.cpp:230-234 | over idle iterations, the first ping is more than 3700 ms after `last_ping` and each later ping more than 3700 ms after the previous one |
| `KeepAlive.QuietWithinInterval` | src/main.cpp:230-234 | while no iteration is more than 3700 ms after `last_ping`, no ping is sent |
| `KeepAlive.PingEventuallySent` | src/main.cpp:230-234 | once some idle iteration is more than 3700 ms after `last_ping`, a ping is sent |
| `Joystick.IsPressed` | src/main.cpp:206-209 | a line counts as pressed (value 1) exactly when it reads LOW, and 0 otherwise |
| `Joystick.GetJoyState` | src/main.cpp:211-222 | bits 7..5 are always `101`, bits 4..0 are the pressed flags of B1, UP, R, DN, L |
| `Joystick.JoyStateRoundTrip` | src/main.cpp:211-222 | the state byte can be read back into the five readings, and every byte marked `101` is the state of some readings |
| `Joystick.JoyFrame` | src/main.cpp:236-243 | a poll sends something exactly when the new state differs from the stored one, and then it sends `0x80` and the new state |
| `Joystick.JoyOutput` | src/main.cpp:236-243 | the bytes a run of polls sends, at most one two-byte frame per poll |
| `Joystick.LastJoyState` | src/main.cpp:239 | the stored state after a run: unchanged for no poll, otherwise a byte marked `101` |
| `Joystick.JoyOutputSnoc` | src/main.cpp:236-243 | one more poll adds exactly the frame of its state against the state stored so far, and stores its state |
| `Joystick.JoyOutputFramed` | src/main.cpp:236-243 | a run of polls sends whole frames: `0x80` at even positions, a byte marked `101` at odd ones |
| `Joystick.JoyOutputChanges` | src/main.cpp:236-243 | the first frame of a run differs from the stored state, and no two consecutive frames carry the same state |
| `Joystick.JoyOutputLast` | src/main.cpp:236-243 | after a run, the last state sent (or the stored state if none was sent) is the state of the last poll |
| `Joystick.RepeatedReadingSilent` | src/main.cpp:236-243 | two identical polls in a row send at most one frame |
| `Firmware.EventsBytes` | src/main.cpp:62-107 | the bytes a batch of key events sends, in delivery order; at most six per event |
| `Firmware.LastActivity` | src/main.cpp:71 | `last_ping` after a batch of events is either its old value or the current time |
| `Firmware.LastActivityCases` | src/main.cpp:68-72 | a batch of events with a key that resolves to a character sets `last_ping` to now; a batch without one leaves it unchanged |
| `Firmware.KeyUpsSilent` | src/main.cpp:153-157 | key-up events send nothing, whatever their scancode and modifiers |
| `Firmware.ActivitySuppressesPing` | src/main.cpp:226-234 | an iteration in which a key resolved to a character sends no ping |
| `Firmware.Converter.Setup` | src/main.cpp:173-198 | after start-up the output is `[0x95]`, `last_ping` is 0 and `joyState` is `0b10100000` |
| `Firmware.Converter.Write` | src/main.cpp:10 | `conswrite` appends one byte to the output |
| `Firmware.Converter.Print` | src/main.cpp:9 | `consprint` of a string appends its characters in order |
| `Firmware.Converter.OnKeyPressed` | src/main.cpp:159-164 | the resolved character is appended as one byte |
| `Firmware.Converter.OnKeyDown` | src/main.cpp:62-107 | appends exactly the key-down bytes of `(c, key)`; sets `last_ping` to now when `c` is non-zero and leaves it unchanged otherwise |
| `Firmware.Converter.OnKeyUp` | src/main.cpp:153-157 | output, `last_ping` and `joyState` are unchanged |
| `Firmware.Converter.SendPing` | src/main.cpp:200-204 | appends the ping byte `0x94` |
| `Firmware.Converter.Dispatch` | src/main.cpp:228 | one delivered event appends that event's bytes and moves `last_ping` only if it is a printable key-down |
| `Firmware.Converter.DeliverEvents` | src/main.cpp:228 | the events of one USB task run append their bytes in order and leave `last_ping` at the batch's last activity |
| `Firmware.IdleRun` | src/main.cpp:226-244 | repeated `loop()` iterations without key events and with the joystick at rest send exactly one `0x94` per instant of `PingTimes`, leave `last_ping` at `LastPingAfter` and send no joystick frame |
| `Firmware.PollRun` | src/main.cpp:226-244 | repeated `loop()` iterations without key events, none due for a ping, send exactly `JoyOutput` of the readings, leave `joyState` at `LastJoyState` and `last_ping` unchanged |
| `Firmware.Converter.Loop` | src/main.cpp:226-244 | one iteration appends the event bytes, then `0x94` exactly when the elapsed time since `last_ping` exceeds 3700 (and then sets `last_ping` to now), then `0x80, state` exactly when the packed state differs from `joyState`; afterwards `joyState` is the packed state of this poll |

## Left out

- The USB host stack (`UsbH.Init`, `UsbH.Task`, `HidKeyboard.SetReportParser`) is foreign code; its effect is modelled only as the sequence of key events one task run delivers.
- `OemToAscii` is a keyboard-layout lookup in the USB library; its result is the parameter `c`.
- Arduino's `print(n, HEX)` is library code not shown here; its output is modelled by `Keys.HexString` under the assumption stated above.
- `PrintKey`, `OnControlKeysChanged` and every `dbprint`/`dbprintln` produce debug output only. With `DEBUG_ON` set to 0 they expand to nothing, so they have no effect on the link. The modifier-change detection they perform is therefore not modelled.
- The report that USB initialisation failed is debug output only; the firmware carries on, and so does the model.
- Pin modes, the LED, the UART baud rate (`consbegin(6992)`) and `delay(200)` in `setup()` are hardware plumbing with no effect on the byte stream.
- `loop()` reads `millis()` twice (src/main.cpp:230 and src/main.cpp:233), and `OnKeyDown` reads it once more during the USB task (src/main.cpp:71). The model uses one `now` per iteration for all three, so it does not model the jitter between these reads. `Firmware.ActivitySuppressesPing` depends on that choice: in the firmware it needs the USB task to finish within 3700 ms of the key-down.
- `getJoyState`'s `stick` argument is ignored by the source (only JOY1 lines are read), so it is not a parameter of `Joystick.GetJoyState`; the JOY2 pins and B2 lines, configured but never read, are not modelled.
- The endless repetition of `loop()` by the Arduino runtime is modelled by `Firmware.IdleRun` and `Firmware.PollRun`, two finite runs. They cover idle runs with the joystick at rest and joystick runs with no ping due. Runs that mix pings, joystick frames and key events are covered only one `Loop` at a time.
