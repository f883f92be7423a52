/** Eight-bit values as the PIC18 firmware sees them, and the C conversions
    between them and integers. */
module Bytes {

  /** An `unsigned char`: the element type of the report buffers and of the
      report identifiers. Bit k of `b` is `(b / 2^k) % 2`. */
  newtype byte = x: int | 0 <= x < 256

  /** Bit 0 of `b` is set (`b & 0x01` used as a condition). */
  predicate LowBit(b: byte)
  {
    b % 2 == 1
  }

  /** Bit 1 of `b` is set (`b & 0x02` used as a condition). */
  predicate Bit1(b: byte)
  {
    (b / 2) % 2 == 1
  }

  /** Converting an integer to `unsigned char`, as an assignment of an
      integer expression to a byte location does in C: the value is reduced
      modulo 256. */
  function ToByte(x: int): (b: byte)
    ensures b as int == x % 256
    ensures 0 <= x < 256 ==> b as int == x
  {
    (x % 256) as byte
  }

  /** Reading a byte as a two's-complement `signed char`: negative exactly
      when bit 7 is set. */
  function SignedChar(b: byte): (x: int)
    ensures -128 <= x <= 127
    ensures x < 0 <==> b >= 0x80
    ensures x % 256 == b as int
  {
    if b < 0x80 then b as int else b as int - 256
  }

  /** Storing a byte that was read as `signed char` gives the byte back. */
  lemma ToByteOfSignedChar(b: byte)
    ensures ToByte(SignedChar(b)) == b
  {
  }

  /** Every `signed char` value survives being stored in a byte and read back
      as `signed char`. */
  lemma {:induction false} SignedCharOfToByte(x: int)
    requires -128 <= x <= 127
    ensures SignedChar(ToByte(x)) == x
  {
    if x < 0 {
      assert x % 256 == x + 256;
    }
  }

  /** Subtracting 128 from a byte and storing the result as a byte is the
      same as adding 128 modulo 256. */
  lemma ToByteShiftedBy128(b: byte)
    ensures ToByte(b as int - 128) as int == (b as int + 128) % 256
  {
    var n := b as int;
    if n < 128 {
      assert (n - 128) % 256 == n + 128 == (n + 128) % 256;
    } else {
      assert (n - 128) % 256 == n - 128 == (n + 128) % 256;
    }
  }
}
