/**
 * The firmware's global state and its callbacks: the output UART as a growing byte
 * sequence, `last_ping` and `joyState` as fields, and one `loop()` iteration.
 */
module Firmware {
  import opened Base
  import opened Keys
  import opened KeepAlive
  import opened Joystick

  const STARTUP_MARKER: byte := 0x95

  /**
   * A key event the USB host stack delivers during `UsbH.Task()`. For a key-down, `c`
   * is what the keyboard layout (`OemToAscii`) resolved the key to, 0 for nothing.
   */
  datatype KeyEvent = KeyDown(mod: byte, key: byte, c: byte) | KeyUp(mod: byte, key: byte)

  predicate IsPrintable(ev: KeyEvent) {
    ev.KeyDown? && ev.c != 0
  }

  /** The bytes one event puts on the link. */
  function EventBytes(ev: KeyEvent): seq<byte>
  {
    match ev
    case KeyDown(_, key, c) => KeyDownBytes(c, key)
    case KeyUp(_, _) => []
  }

  /** The bytes a batch of events puts on the link, in delivery order. */
  function EventsBytes(evs: seq<KeyEvent>): (r: seq<byte>)
    ensures |r| <= 6 * |evs|
    decreases |evs|
  {
    if evs == [] then [] else EventsBytes(evs[..|evs| - 1]) + EventBytes(evs[|evs| - 1])
  }

  /**
   * `last_ping` after a batch of events handled at time `now`: the last event that
   * resolves to a character sets it to `now`; nothing else touches it.
   */
  function LastActivity(last: u32, evs: seq<KeyEvent>, now: u32): (r: u32)
    ensures r == last || r == now
    decreases |evs|
  {
    if evs == [] then last
    else if IsPrintable(evs[|evs| - 1]) then now
    else LastActivity(last, evs[..|evs| - 1], now)
  }

  /** A printable key in the batch moves `last_ping` to `now`; without one it stays put. */
  lemma {:induction false} LastActivityCases(last: u32, evs: seq<KeyEvent>, now: u32)
    ensures (exists i :: 0 <= i < |evs| && IsPrintable(evs[i])) ==> LastActivity(last, evs, now) == now
    ensures (forall i :: 0 <= i < |evs| ==> !IsPrintable(evs[i])) ==> LastActivity(last, evs, now) == last
    decreases |evs|
  {
    if evs != [] && !IsPrintable(evs[|evs| - 1]) {
      var init := evs[..|evs| - 1];
      assert forall i :: 0 <= i < |init| ==> init[i] == evs[i];
      LastActivityCases(last, init, now);
      if exists i :: 0 <= i < |evs| && IsPrintable(evs[i]) {
        var i :| 0 <= i < |evs| && IsPrintable(evs[i]);
        assert init[i] == evs[i];
      }
    }
  }

  /** Handling one more event of a batch extends the output and `last_ping` by that event alone. */
  lemma EventsStep(last: u32, evs: seq<KeyEvent>, i: nat, now: u32)
    requires i < |evs|
    ensures EventsBytes(evs[..i + 1]) == EventsBytes(evs[..i]) + EventBytes(evs[i])
    ensures LastActivity(last, evs[..i + 1], now)
            == if IsPrintable(evs[i]) then now else LastActivity(last, evs[..i], now)
  {
    assert evs[..i + 1][..i] == evs[..i];
  }

  /** Key-up events add nothing to the output, whatever their scancodes and modifiers. */
  lemma {:induction false} KeyUpsSilent(evs: seq<KeyEvent>)
    requires forall i :: 0 <= i < |evs| ==> evs[i].KeyUp?
    ensures EventsBytes(evs) == []
    decreases |evs|
  {
    if evs != [] {
      var init := evs[..|evs| - 1];
      assert forall i :: 0 <= i < |init| ==> init[i] == evs[i];
      KeyUpsSilent(init);
    }
  }

  /**
   * A printable key in an iteration's events rules out a ping in the same iteration.
   * This rests on the single `now` per iteration: in the firmware the key-down reads
   * `millis()` itself, so it holds there as long as the USB task finishes within
   * 3700 ms of the key-down.
   */
  lemma ActivitySuppressesPing(last: u32, evs: seq<KeyEvent>, now: u32)
    requires exists i :: 0 <= i < |evs| && IsPrintable(evs[i])
    ensures !PingDue(now, LastActivity(last, evs, now))
  {
    LastActivityCases(last, evs, now);
  }

  class Converter {
    /** Everything written to the terminal UART so far. */
    var output: seq<byte>
    /** `last_ping`: the time of the last printable key or ping. */
    var lastPing: u32
    /** `joyState`: the joystick state byte last sent (or the initial idle state). */
    var joyState: byte

    /** The globals' initial values, then `setup()`: its only output is the startup marker. */
    constructor Setup()
      ensures output == [STARTUP_MARKER]
      ensures lastPing == 0 && joyState == JOY_IDLE
    {
      output := [];
      lastPing := 0;
      joyState := JOY_IDLE;
      new;
      Write(STARTUP_MARKER);
    }

    /** `conswrite`: one byte to the terminal UART. */
    method Write(b: byte)
      modifies this`output
      ensures output == old(output) + [b]
    {
      output := output + [b];
    }

    /** `consprint` of a string: its characters, in order. */
    method Print(s: seq<byte>)
      modifies this`output
      ensures output == old(output) + s
    {
      output := output + s;
    }

    /** `OnKeyPressed`: the resolved character goes out as one byte. */
    method OnKeyPressed(c: byte)
      modifies this`output
      ensures output == old(output) + [c]
    {
      Write(c);
    }

    /** `OnKeyDown` at time `now`, given the layout's resolution `c` of the key. */
    method OnKeyDown(mod: byte, key: byte, c: byte, now: u32)
      modifies this`output, this`lastPing
      ensures output == old(output) + KeyDownBytes(c, key)
      ensures lastPing == if c != 0 then now else old(lastPing)
    {
      if c != 0 {
        OnKeyPressed(c);
        lastPing := now;
      } else if key == PAGE_UP {
        Write(0xE5); Write(0xF5);
      } else if key == PAGE_DOWN {
        Write(0xE4); Write(0xF4);
      } else if key == CURSOR_LEFT {
        Write(0xE1); Write(0xF1);
      } else if key == CURSOR_RIGHT {
        Write(0xE0); Write(0xF0);
      } else if key == CURSOR_UP {
        Write(0xE2); Write(0xF2);
      } else if key == CURSOR_DOWN {
        Write(0xE3); Write(0xF3);
      } else {
        Print(DIAG_OPEN);
        Print(HexString(key));
        Print([DIAG_CLOSE]);
      }
    }

    /** `OnKeyUp`: only debug output, which is compiled out, so the link sees nothing. */
    method OnKeyUp(mod: byte, key: byte)
      ensures output == old(output) && lastPing == old(lastPing) && joyState == old(joyState)
    {
    }

    /** `SendPing`: the keep-alive byte. */
    method SendPing()
      modifies this`output
      ensures output == old(output) + [PING]
    {
      Write(PING);
    }

    /** The report parser's call of the callback that matches one event. */
    method Dispatch(ev: KeyEvent, now: u32)
      modifies this`output, this`lastPing
      ensures output == old(output) + EventBytes(ev)
      ensures lastPing == if IsPrintable(ev) then now else old(lastPing)
    {
      match ev {
        case KeyDown(mod, key, c) => OnKeyDown(mod, key, c, now);
        case KeyUp(mod, key) => OnKeyUp(mod, key);
      }
    }

    /** `UsbH.Task()`: the host stack hands this iteration's events to the report parser. */
    method DeliverEvents(events: seq<KeyEvent>, now: u32)
      modifies this`output, this`lastPing
      ensures output == old(output) + EventsBytes(events)
      ensures lastPing == LastActivity(old(lastPing), events, now)
    {
      var i := 0;
      while i < |events|
        invariant 0 <= i <= |events|
        invariant output == old(output) + EventsBytes(events[..i])
        invariant lastPing == LastActivity(old(lastPing), events[..i], now)
      {
        EventsStep(old(lastPing), events, i, now);
        ConcatAssoc(old(output), EventsBytes(events[..i]), EventBytes(events[i]));
        Dispatch(events[i], now);
        i := i + 1;
      }
      assert events[..i] == events;
    }

    /**
     * One `loop()` iteration at time `now`: the key events the USB task delivers, then the
     * ping check, then one joystick poll with the JOY1 readings `pins`.
     */
    method Loop(events: seq<KeyEvent>, now: u32, pins: JoyPins)
      modifies this
      ensures var keyed := LastActivity(old(lastPing), events, now);
        output == old(output) + EventsBytes(events)
                  + (if PingDue(now, keyed) then [PING] else [])
                  + JoyFrame(old(joyState), GetJoyState(pins)) &&
        lastPing == (if PingDue(now, keyed) then now else keyed)
      ensures joyState == GetJoyState(pins)
    {
      DeliverEvents(events, now);

      if Elapsed(now, lastPing) > PING_INTERVAL {
        SendPing();
        lastPing := now;
      }

      var newJoyState := GetJoyState(pins);
      if joyState != newJoyState {
        joyState := newJoyState;
        Write(JOY_MARKER);
        Write(joyState);
      }
    }
  }

  /**
   * The Arduino runtime calling `loop()` at the instants `nows` with no key events and the
   * joystick at rest in `pins`: the link carries exactly one ping per instant of `PingTimes`.
   */
  method IdleRun(cv: Converter, nows: seq<u32>, pins: JoyPins)
    requires cv.joyState == GetJoyState(pins)
    modifies cv
    ensures cv.output == old(cv.output) + seq(|PingTimes(old(cv.lastPing), nows)|, _ => PING)
    ensures cv.lastPing == LastPingAfter(old(cv.lastPing), nows)
    ensures cv.joyState == GetJoyState(pins)
  {
    var i := 0;
    while i < |nows|
      invariant 0 <= i <= |nows|
      invariant cv.output == old(cv.output) + seq(|PingTimes(old(cv.lastPing), nows[..i])|, _ => PING)
      invariant cv.lastPing == LastPingAfter(old(cv.lastPing), nows[..i])
      invariant cv.joyState == GetJoyState(pins)
    {
      assert nows[..i + 1] == nows[..i] + [nows[i]];
      PingTimesSnoc(old(cv.lastPing), nows[..i], nows[i]);
      ghost var n := |PingTimes(old(cv.lastPing), nows[..i])|;
      cv.Loop([], nows[i], pins);
      assert seq(n, _ => PING) + [PING] == seq(n + 1, _ => PING);
      i := i + 1;
    }
    assert nows[..i] == nows;
  }

  /**
   * `loop()` called at instants `nows` with no key events and JOY1 readings `readings`,
   * none of the instants being due for a ping: the link carries exactly `JoyOutput`.
   */
  method PollRun(cv: Converter, nows: seq<u32>, readings: seq<JoyPins>)
    requires |nows| == |readings|
    requires forall i :: 0 <= i < |nows| ==> !PingDue(nows[i], cv.lastPing)
    modifies cv
    ensures cv.output == old(cv.output) + JoyOutput(old(cv.joyState), readings)
    ensures cv.joyState == LastJoyState(old(cv.joyState), readings)
    ensures cv.lastPing == old(cv.lastPing)
  {
    var i := 0;
    while i < |readings|
      invariant 0 <= i <= |readings|
      invariant cv.output == old(cv.output) + JoyOutput(old(cv.joyState), readings[..i])
      invariant cv.joyState == LastJoyState(old(cv.joyState), readings[..i])
      invariant cv.lastPing == old(cv.lastPing)
    {
      assert readings[..i + 1] == readings[..i] + [readings[i]];
      JoyOutputSnoc(old(cv.joyState), readings[..i], readings[i]);
      ConcatAssoc(old(cv.output), JoyOutput(old(cv.joyState), readings[..i]),
                  JoyFrame(cv.joyState, GetJoyState(readings[i])));
      cv.Loop([], nows[i], readings[i]);
      i := i + 1;
    }
    assert readings[..i] == readings;
  }

  /** A letter, then idle time past the interval, then Page Up, with the joystick at rest. */
  method ScenarioLetterIdlePageUp()
  {
    var rest := JoyPins(false, false, false, false, false);
    var cv := new Converter.Setup();
    cv.Loop([KeyDown(0x02, 0x04, 0x41)], 1000, rest);
    assert KeyDownBytes(0x41, 0x04) == [0x41];
    assert cv.output == [0x95, 0x41];
    cv.Loop([], 4700, rest);
    assert cv.output == [0x95, 0x41];
    cv.Loop([], 4701, rest);
    assert cv.output == [0x95, 0x41, 0x94];
    var pageUp := [KeyDown(0, PAGE_UP, 0), KeyUp(0, PAGE_UP)];
    assert pageUp[..1] == [KeyDown(0, PAGE_UP, 0)];
    assert EventsBytes(pageUp) == [0xE5, 0xF5];
    LastActivityCases(4701, pageUp, 4800);
    cv.Loop(pageUp, 4800, rest);
    assert cv.output == [0x95, 0x41, 0x94, 0xE5, 0xF5];
  }
}
