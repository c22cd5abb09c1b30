/**
 * What a key-down event puts on the terminal link: one ASCII byte, one of the six
 * two-byte navigation sequences, or the diagnostic text "[0x" hex "]".
 */
module Keys {
  import opened Base

  // Scancodes of the six keys that have no ASCII resolution but a protocol sequence.
  const PAGE_UP: byte := 0x4B
  const PAGE_DOWN: byte := 0x4E
  const CURSOR_LEFT: byte := 0x50
  const CURSOR_RIGHT: byte := 0x4F
  const CURSOR_UP: byte := 0x52
  const CURSOR_DOWN: byte := 0x51

  const NavKeys: set<byte> := {PAGE_UP, PAGE_DOWN, CURSOR_LEFT, CURSOR_RIGHT, CURSOR_UP, CURSOR_DOWN}

  // ASCII codes of the characters of the diagnostic text.
  const ZERO: byte := 0x30      // '0'
  const DIAG_OPEN: seq<byte> := [0x5B, 0x30, 0x78]   // "[0x"
  const DIAG_CLOSE: byte := 0x5D                      // ']'

  /** The `switch (key)` table of `OnKeyDown`: the two bytes a navigation key sends. */
  function NavBytes(key: byte): (r: Option<seq<byte>>)
    ensures r.Some? <==> key in NavKeys
    ensures r.Some? ==> |r.value| == 2 && 0xE0 <= r.value[0] <= 0xE5 && r.value[1] == r.value[0] | 0x10
  {
    if key == PAGE_UP then Some([0xE5, 0xF5])
    else if key == PAGE_DOWN then Some([0xE4, 0xF4])
    else if key == CURSOR_LEFT then Some([0xE1, 0xF1])
    else if key == CURSOR_RIGHT then Some([0xE0, 0xF0])
    else if key == CURSOR_UP then Some([0xE2, 0xF2])
    else if key == CURSOR_DOWN then Some([0xE3, 0xF3])
    else None
  }

  /** The terminal's reading of a two-byte sequence: which navigation key sent it. */
  function NavKeyOf(first: byte, second: byte): Option<byte>
  {
    if second != first | 0x10 then None
    else if first == 0xE0 then Some(CURSOR_RIGHT)
    else if first == 0xE1 then Some(CURSOR_LEFT)
    else if first == 0xE2 then Some(CURSOR_UP)
    else if first == 0xE3 then Some(CURSOR_DOWN)
    else if first == 0xE4 then Some(PAGE_DOWN)
    else if first == 0xE5 then Some(PAGE_UP)
    else None
  }

  /** The table is a bijection between NavKeys and its six sequences. */
  lemma NavTableInverse(key: byte, first: byte, second: byte)
    ensures NavBytes(key) == Some([first, second]) <==> NavKeyOf(first, second) == Some(key)
  {
  }

  // ---- Arduino `print(n, HEX)` ----

  predicate IsHexDigit(b: byte) {
    (0x30 <= b <= 0x39) || (0x41 <= b <= 0x46)
  }

  predicate AllHex(s: seq<byte>) {
    forall i :: 0 <= i < |s| ==> IsHexDigit(s[i])
  }

  /** The shape `print(n, HEX)` produces: at least one upper-case digit, no leading zero. */
  predicate IsCanonicalHex(s: seq<byte>) {
    |s| >= 1 && AllHex(s) && (|s| > 1 ==> s[0] != ZERO)
  }

  /** The digit `print(n, HEX)` uses for `d`: '0'..'9', then upper-case 'A'..'F'. */
  function HexDigit(d: byte): (r: byte)
    requires d < 16
    ensures IsHexDigit(r)
    ensures r == ZERO <==> d == 0
  {
    if d < 10 then 0x30 + d else 0x37 + d
  }

  function DigitValue(b: byte): (d: byte)
    requires IsHexDigit(b)
    ensures d < 16 && HexDigit(d) == b
  {
    if b <= 0x39 then b - 0x30 else b - 0x37
  }

  lemma DigitValueOfHexDigit(d: byte)
    requires d < 16
    ensures DigitValue(HexDigit(d)) == d
  {
  }

  /**
   * `print(n, HEX)` for an 8-bit `n`: upper-case hexadecimal, most significant digit
   * first, without leading zeros (so 0x05 prints as "5" and 0 as "0").
   */
  function HexString(n: byte): (r: seq<byte>)
    ensures IsCanonicalHex(r)
    ensures |r| == if n < 16 then 1 else 2
  {
    if n < 16 then [HexDigit(n)] else [HexDigit(n >> 4), HexDigit(n & 0x0F)]
  }

  /** The byte a string of one or two hexadecimal digits denotes. */
  function HexValue(s: seq<byte>): byte
    requires 1 <= |s| <= 2 && AllHex(s)
  {
    if |s| == 1 then DigitValue(s[0]) else (DigitValue(s[0]) << 4) | DigitValue(s[1])
  }

  /** Reading back what `print(n, HEX)` printed gives `n`. */
  lemma HexRoundTrip(n: byte)
    ensures HexValue(HexString(n)) == n
  {
    if n < 16 {
      DigitValueOfHexDigit(n);
    } else {
      DigitValueOfHexDigit(n >> 4);
      DigitValueOfHexDigit(n & 0x0F);
    }
  }

  /** Every canonical one- or two-digit string is the printing of its value. */
  lemma HexCanonicalRoundTrip(s: seq<byte>)
    requires IsCanonicalHex(s) && |s| <= 2
    ensures HexString(HexValue(s)) == s
  {
    if |s| == 2 {
      var hi, lo := DigitValue(s[0]), DigitValue(s[1]);
      var v := (hi << 4) | lo;
      assert v >> 4 == hi && v & 0x0F == lo && v >= 16;
      assert s == [s[0], s[1]];
    } else {
      assert s == [s[0]];
    }
  }

  /** The fallback text for a scancode the table does not know: "[0x" + hex + "]". */
  function Diagnostic(key: byte): (r: seq<byte>)
    ensures 5 <= |r| <= 6
  {
    DIAG_OPEN + HexString(key) + [DIAG_CLOSE]
  }

  // ---- OnKeyDown ----

  /** Which branch of `OnKeyDown` an event takes. */
  datatype KeyAction = Char(c: byte) | Nav(key: byte) | Unmapped(key: byte)

  function Classify(c: byte, key: byte): (a: KeyAction)
    ensures a.Char? <==> c != 0
    ensures a.Char? ==> a.c == c
    ensures !a.Char? ==> a.key == key && (a.Nav? <==> key in NavKeys)
  {
    if c != 0 then Char(c) else if key in NavKeys then Nav(key) else Unmapped(key)
  }

  /**
   * The bytes `OnKeyDown` writes, given the layout's resolution `c` of the key (0 for none).
   * The length alone tells the three branches apart, and the output is never empty.
   */
  function KeyDownBytes(c: byte, key: byte): (r: seq<byte>)
    ensures |r| == 1 <==> c != 0
    ensures |r| == 2 <==> c == 0 && key in NavKeys
    ensures |r| >= 5 <==> c == 0 && key !in NavKeys
  {
    if c != 0 then [c]
    else match NavBytes(key)
      case Some(pair) => pair
      case None => Diagnostic(key)
  }

  /** The terminal's reading of the bytes of one key-down: which key action sent them. */
  function DecodeKeyDown(out: seq<byte>): Option<KeyAction>
  {
    if |out| == 1 then
      (if out[0] != 0 then Some(Char(out[0])) else None)
    else if |out| == 2 then
      (match NavKeyOf(out[0], out[1])
       case Some(k) => Some(Nav(k))
       case None => None)
    else if 5 <= |out| <= 6 && out[..3] == DIAG_OPEN && out[|out| - 1] == DIAG_CLOSE
            && IsCanonicalHex(out[3..|out| - 1]) then
      var v := HexValue(out[3..|out| - 1]);
      if v !in NavKeys then Some(Unmapped(v)) else None
    else None
  }

  /** Decoding the bytes of a key-down recovers its branch, its character or its scancode. */
  lemma KeyDownRoundTrip(c: byte, key: byte)
    ensures DecodeKeyDown(KeyDownBytes(c, key)) == Some(Classify(c, key))
  {
    if c == 0 {
      if key in NavKeys {
        var p := NavBytes(key).value;
        NavTableInverse(key, p[0], p[1]);
      } else {
        var out := KeyDownBytes(c, key);
        var h := HexString(key);
        assert out[..3] == DIAG_OPEN;
        assert out[3..|out| - 1] == h;
        HexRoundTrip(key);
      }
    }
  }

  /** Whatever decodes was written by `OnKeyDown` for the key action it decodes to. */
  lemma DecodeKeyDownSound(out: seq<byte>)
    requires DecodeKeyDown(out).Some?
    ensures var a := DecodeKeyDown(out).value;
      (a.Char? ==> a.c != 0 && forall key :: KeyDownBytes(a.c, key) == out) &&
      (!a.Char? ==> Classify(0, a.key) == a && KeyDownBytes(0, a.key) == out)
  {
    var a := DecodeKeyDown(out).value;
    if a.Nav? {
      NavTableInverse(a.key, out[0], out[1]);
      assert out == [out[0], out[1]];
    } else if a.Unmapped? {
      var h := out[3..|out| - 1];
      HexCanonicalRoundTrip(h);
      assert out == out[..3] + h + [out[|out| - 1]];
    }
  }
}
