/** The machine types of the wire format: octets, the fixed-width integers and UTF-8 text. */
module Bytes {

  type byte = b: int | 0 <= b < 0x100
  type bytes = seq<byte>

  type u32 = x: int | 0 <= x < 0x1_0000_0000
  type u64 = x: int | 0 <= x < 0x1_0000_0000_0000_0000
  type i32 = x: int | -0x8000_0000 <= x < 0x8000_0000
  type i64 = x: int | -0x8000_0000_0000_0000 <= x < 0x8000_0000_0000_0000

  /** A Rust `bool`, held as the 0 or 1 it is written as. */
  type bit = x: int | 0 <= x < 2

  /** The bytes of a Rust `String`. */
  type text = s: bytes | ValidUtf8(s) witness []

  /** Every length the model writes as a 64-bit prefix stays below this bound. */
  const ADDRESS_SPACE := 0x1_0000_0000_0000_0000

  /** Success or failure; the model keeps no error values. */
  datatype Option<+T> = None | Some(value: T) {
    predicate IsFailure() {
      None?
    }

    function PropagateFailure<U>(): Option<U>
      requires None?
    {
      None
    }

    function Extract(): T
      requires Some?
    {
      value
    }
  }

  predicate Continuation(s: bytes, i: nat) {
    i < |s| && 0x80 <= s[i] <= 0xBF
  }

  /** The length of the well-formed UTF-8 sequence at `i` (Table 3-7 of the Unicode Standard), or 0. */
  function CharWidth(s: bytes, i: nat): (n: nat)
    requires i < |s|
    ensures i + n <= |s|
  {
    if s[i] <= 0x7F then 1
    else if 0xC2 <= s[i] <= 0xDF && Continuation(s, i + 1) then 2
    else if && 0xE0 <= s[i] <= 0xEF && Continuation(s, i + 1) && Continuation(s, i + 2)
            && (s[i] == 0xE0 ==> s[i + 1] >= 0xA0) && (s[i] == 0xED ==> s[i + 1] <= 0x9F) then 3
    else if && 0xF0 <= s[i] <= 0xF4
            && Continuation(s, i + 1) && Continuation(s, i + 2) && Continuation(s, i + 3)
            && (s[i] == 0xF0 ==> s[i + 1] >= 0x90) && (s[i] == 0xF4 ==> s[i + 1] <= 0x8F) then 4
    else 0
  }

  predicate Utf8From(s: bytes, i: nat)
    requires i <= |s|
    decreases |s| - i
  {
    i == |s| || (CharWidth(s, i) > 0 && Utf8From(s, i + CharWidth(s, i)))
  }

  /** What `str::from_utf8` accepts. */
  predicate ValidUtf8(s: bytes) {
    Utf8From(s, 0)
  }
}
