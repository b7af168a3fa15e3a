/** Value types of the Go program that the model needs: bytes and byte
    strings (Go's `string` is a byte sequence and `len` counts bytes), the
    64-bit unsigned `uint` with its wrap-around, and an Option for the
    results that are either a value or nothing. */
module GoTypes {

  newtype byte = b: int | 0 <= b < 256

  /** A Go `string`: an immutable sequence of bytes. */
  type Bytes = seq<byte>

  /** Go's `uint` on a 64-bit platform. */
  const UintModulus: int := 0x1_0000_0000_0000_0000
  newtype uint = x: int | 0 <= x < 0x1_0000_0000_0000_0000

  /** The value `x++` leaves in a `uint` variable: one more, wrapping to 0
      past the largest value. */
  function Succ(x: uint): (r: uint)
    ensures r as int == (x as int + 1) % UintModulus
    ensures x as int + 1 < UintModulus ==> r as int == x as int + 1
  {
    if x as int == UintModulus - 1 then 0 else x + 1
  }

  datatype Option<+T> = None | Some(value: T)

  /** The bytes of a string literal whose characters are all ASCII, the
      one case in which Go's UTF-8 encoding is one byte per character. A
      character outside ASCII keeps only its low eight bits here. */
  function Ascii(s: string): (r: Bytes)
    ensures |r| == |s|
    ensures forall i :: 0 <= i < |s| && s[i] as int < 128 ==> r[i] as int == s[i] as int
  {
    seq(|s|, i requires 0 <= i < |s| => (s[i] as int % 256) as byte)
  }
}
