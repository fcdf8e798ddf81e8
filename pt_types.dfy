// Shared value types of the PeerTalk model: bytes, fixed-width unsigned
// integers, and the Option/Result wrappers used for error paths.
module PtTypes {

  /** One octet on the wire or in a C buffer. */
  type byte = b: int | 0 <= b < 0x100

  /** Values a C `uint16_t` can hold. */
  type uint16 = n: int | 0 <= n < 0x1_0000

  /** Values a C `uint32_t` can hold. */
  type uint32 = n: int | 0 <= n < 0x1_0000_0000

  /** A byte string. */
  type bytes = seq<byte>

  datatype Option<T> = None | Some(value: T)

  /** Outcome of an operation that either yields a value or a PeerTalk error code. */
  datatype Result<T> = Ok(value: T) | Err(code: int)

  /** Truncation to 16 bits, as a store into a `uint16_t` does. */
  function U16(n: int): (r: uint16)
    ensures 0 <= n < 0x1_0000 ==> r == n
  {
    n % 0x1_0000
  }

  /** Truncation to 32 bits, as a store into a `uint32_t` does. */
  function U32(n: int): (r: uint32)
    ensures 0 <= n < 0x1_0000_0000 ==> r == n
  {
    n % 0x1_0000_0000
  }

  /** Truncation to 8 bits, as a store into a `uint8_t` does. */
  function U8(n: int): (r: byte)
    ensures 0 <= n < 0x100 ==> r == n
  {
    n % 0x100
  }

  function Min(a: int, b: int): (r: int)
    ensures r <= a && r <= b && (r == a || r == b)
  {
    if a <= b then a else b
  }

  function Max(a: int, b: int): (r: int)
    ensures r >= a && r >= b && (r == a || r == b)
  {
    if a >= b then a else b
  }

  /** The byte string of an ASCII text (characters are assumed below 256). */
  function Ascii(s: string): (r: bytes)
    requires forall i :: 0 <= i < |s| ==> s[i] as int < 0x100
    ensures |r| == |s|
    ensures forall i :: 0 <= i < |s| ==> r[i] == s[i] as int
  {
    if |s| == 0 then [] else [s[0] as int] + Ascii(s[1..])
  }
}
