/**
  Bytes and small wire-format helpers shared by the DNS message parser, the
  record printer and the lookup driver.
 */
module Bytes {

  /** An `unsigned char` / `uint8_t`. */
  type uint8 = b: int | 0 <= b < 256

  datatype Option<+T> = None | Some(value: T)

  /** A 16-bit field stored big-endian (network byte order) as its high and low byte. */
  function BigEndian16(hi: uint8, lo: uint8): (v: nat)
    ensures v < 0x1_0000
  {
    hi * 256 + lo
  }

  /** The two bytes of a 16-bit field are recovered from its value. */
  lemma BigEndian16Bytes(hi: uint8, lo: uint8)
    ensures BigEndian16(hi, lo) / 256 == hi && BigEndian16(hi, lo) % 256 == lo
  {
  }

  /** The C idiom `!!b`: 1 for a non-zero byte, 0 for a zero byte. */
  function NonZero(b: uint8): (r: nat)
    ensures r <= 1 && (r == 1 <==> b != 0)
  {
    if b != 0 then 1 else 0
  }
}
