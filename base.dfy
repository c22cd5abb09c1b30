/** Machine types shared by the whole model. */
module Base {

  /** An 8-bit unsigned value (`uint8_t`, `unsigned char`): one byte on the terminal link. */
  type byte = bv8

  /** A 32-bit `unsigned long`, the type of `millis()` and of `last_ping`. */
  newtype u32 = x: int | 0 <= x < 0x1_0000_0000

  datatype Option<T> = None | Some(value: T)

  lemma ConcatAssoc<T>(a: seq<T>, b: seq<T>, c: seq<T>)
    ensures a + b + c == a + (b + c)
  {
  }
}
