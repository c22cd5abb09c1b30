/**
 * The joystick encoder: the five active-low JOY1 lines are packed under the fixed
 * marker bits 101, and the frame 0x80, state goes out only when the state changes.
 */
module Joystick {
  import opened Base

  const JOY_MARKER: byte := 0x80
  /** 0b10100000: the 101 marker with no line pressed; also the initial `joyState`. */
  const JOY_IDLE: byte := 0xA0
  const MARKER_MASK: byte := 0xE0

  /** One poll of the JOY1 lines: each flag is true when `digitalRead` gives LOW. */
  datatype JoyPins = JoyPins(b1: bool, up: bool, right: bool, down: bool, left: bool)

  /** `isPressed`: a line wired with a pull-up is pressed when it reads LOW. */
  function IsPressed(low: bool): (r: byte)
    ensures r <= 1 && (r == 1 <==> low)
  {
    if low then 1 else 0
  }

  /**
   * `getJoyState`: bits 7..5 carry 101, bits 4..0 the pressed flags of B1, UP, R, DN, L.
   * The `stick` argument of the source is not used there, so it is not a parameter here.
   */
  function GetJoyState(pins: JoyPins): (state: byte)
    ensures state & MARKER_MASK == JOY_IDLE
    ensures ((state & 0x10) != 0) == pins.b1
    ensures ((state & 0x08) != 0) == pins.up
    ensures ((state & 0x04) != 0) == pins.right
    ensures ((state & 0x02) != 0) == pins.down
    ensures ((state & 0x01) != 0) == pins.left
  {
    JOY_IDLE
    | (IsPressed(pins.b1) << 4)
    | (IsPressed(pins.up) << 3)
    | (IsPressed(pins.right) << 2)
    | (IsPressed(pins.down) << 1)
    | IsPressed(pins.left)
  }

  /** The receiver's reading of a state byte. */
  function Unpack(state: byte): JoyPins
  {
    JoyPins((state & 0x10) != 0, (state & 0x08) != 0, (state & 0x04) != 0,
            (state & 0x02) != 0, (state & 0x01) != 0)
  }

  /** The state byte loses nothing: it can be read back, and every marked byte is some poll's state. */
  lemma JoyStateRoundTrip(pins: JoyPins, state: byte)
    ensures Unpack(GetJoyState(pins)) == pins
    ensures state & MARKER_MASK == JOY_IDLE ==> GetJoyState(Unpack(state)) == state
  {
  }

  /** What one poll sends, given the last state sent and the new one. */
  function JoyFrame(prev: byte, next: byte): (r: seq<byte>)
    ensures r != [] <==> next != prev
    ensures r != [] ==> r == [JOY_MARKER, next]
  {
    if prev != next then [JOY_MARKER, next] else []
  }

  /** The bytes a run of polls sends, starting from the stored state `prev`. */
  function JoyOutput(prev: byte, readings: seq<JoyPins>): (r: seq<byte>)
    ensures |r| <= 2 * |readings|
    decreases |readings|
  {
    if readings == [] then []
    else
      var s := GetJoyState(readings[0]);
      JoyFrame(prev, s) + JoyOutput(s, readings[1..])
  }

  /** The stored `joyState` after a run of polls. */
  function LastJoyState(prev: byte, readings: seq<JoyPins>): (state: byte)
    ensures readings == [] ==> state == prev
    ensures readings != [] ==> state & MARKER_MASK == JOY_IDLE
  {
    if readings == [] then prev else GetJoyState(readings[|readings| - 1])
  }

  /** One more poll adds the frame of its state against the state stored so far. */
  lemma {:induction false} JoyOutputSnoc(prev: byte, readings: seq<JoyPins>, pins: JoyPins)
    ensures JoyOutput(prev, readings + [pins])
            == JoyOutput(prev, readings) + JoyFrame(LastJoyState(prev, readings), GetJoyState(pins))
    ensures LastJoyState(prev, readings + [pins]) == GetJoyState(pins)
    decreases |readings|
  {
    if readings == [] {
      assert [] + [pins] == [pins] && [pins][1..] == [];
    } else {
      var s := GetJoyState(readings[0]);
      assert (readings + [pins])[0] == readings[0];
      assert (readings + [pins])[1..] == readings[1..] + [pins];
      JoyOutputSnoc(s, readings[1..], pins);
      ConcatAssoc(JoyFrame(prev, s), JoyOutput(s, readings[1..]),
                  JoyFrame(LastJoyState(s, readings[1..]), GetJoyState(pins)));
      if |readings| > 1 {
        assert readings[1..][|readings| - 2] == readings[|readings| - 1];
      }
    }
  }

  /** The output of a run is a sequence of frames: 0x80, then a state byte marked 101. */
  lemma {:induction false} JoyOutputFramed(prev: byte, readings: seq<JoyPins>)
    ensures var r := JoyOutput(prev, readings);
      |r| % 2 == 0 &&
      forall i :: 0 <= i < |r| ==>
        (i % 2 == 0 ==> r[i] == JOY_MARKER) && (i % 2 == 1 ==> r[i] & MARKER_MASK == JOY_IDLE)
    decreases |readings|
  {
    if readings != [] {
      var s := GetJoyState(readings[0]);
      JoyOutputFramed(s, readings[1..]);
      var f, rest := JoyFrame(prev, s), JoyOutput(s, readings[1..]);
      assert JoyOutput(prev, readings) == f + rest;
      assert forall i :: |f| <= i < |f| + |rest| ==> (f + rest)[i] == rest[i - |f|];
    }
  }

  /**
   * Frames report changes only: the first reported state differs from `prev` and no two
   * consecutive frames carry the same state.
   */
  lemma {:induction false} JoyOutputChanges(prev: byte, readings: seq<JoyPins>)
    ensures var r := JoyOutput(prev, readings);
      (|r| >= 2 ==> r[1] != prev) &&
      forall i :: 1 <= i && i + 2 < |r| && i % 2 == 1 ==> r[i] != r[i + 2]
    decreases |readings|
  {
    if readings != [] {
      var s := GetJoyState(readings[0]);
      JoyOutputChanges(s, readings[1..]);
      JoyOutputFramed(s, readings[1..]);
      var f, rest := JoyFrame(prev, s), JoyOutput(s, readings[1..]);
      var r := f + rest;
      assert JoyOutput(prev, readings) == r;
      if f != [] {
        assert r[1] == s;
        assert forall i :: 2 <= i < |r| ==> r[i] == rest[i - 2];
      } else {
        assert r == rest && s == prev;
      }
    }
  }

  /** After a run, the last state sent, or `prev` when none was, is the last poll's state. */
  lemma {:induction false} JoyOutputLast(prev: byte, readings: seq<JoyPins>)
    ensures var r := JoyOutput(prev, readings);
      (if r == [] then prev else r[|r| - 1]) == LastJoyState(prev, readings)
    decreases |readings|
  {
    if readings != [] {
      var s := GetJoyState(readings[0]);
      var tail := readings[1..];
      JoyOutputLast(s, tail);
      var f, rest := JoyFrame(prev, s), JoyOutput(s, tail);
      assert JoyOutput(prev, readings) == f + rest;
      if tail != [] {
        assert tail[|tail| - 1] == readings[|readings| - 1];
      }
    }
  }

  /** Two identical polls in a row send at most one frame. */
  lemma RepeatedReadingSilent(prev: byte, pins: JoyPins)
    ensures JoyOutput(prev, [pins, pins]) == JoyFrame(prev, GetJoyState(pins))
  {
    var s := GetJoyState(pins);
    assert [pins, pins][1..] == [pins];
    assert [pins][1..] == [];
    assert JoyOutput(s, [pins]) == JoyFrame(s, s) + JoyOutput(s, []);
  }
}
