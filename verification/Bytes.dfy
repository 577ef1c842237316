/** Bytes, and the fixed-width integers the file and wire formats use, each with the encoding and
    decoding of Python's `struct`. */
module Bytes {

  type Byte = b: int | 0 <= b < 256

  /** An unsigned 16-bit number. */
  type Word = w: int | 0 <= w < 0x1_0000

  const U16 := 0x1_0000
  const U32 := 0x1_0000_0000
  const I32 := 0x8000_0000

  /** `struct` format `!H`: an unsigned 16-bit number, high byte first. */
  function PutBE16(n: nat): (bs: seq<Byte>)
    requires n < U16
    ensures |bs| == 2 && GetBE16(bs) == n
  {
    [n / 256, n % 256]
  }

  function GetBE16(bs: seq<Byte>): (n: nat)
    requires |bs| == 2
    ensures n < U16
  {
    var high: int, low: int := bs[0], bs[1];
    high * 256 + low
  }

  /** `struct` format `<L`: an unsigned 32-bit number, low byte first. */
  function PutLE32(n: nat): (bs: seq<Byte>)
    requires n < U32
    ensures |bs| == 4 && GetLE32(bs) == n
  {
    var low, high := n % U16, n / U16;
    [low % 256, low / 256, high % 256, high / 256]
  }

  function GetLE32(bs: seq<Byte>): (n: nat)
    requires |bs| == 4
    ensures n < U32
  {
    var a: int, b: int, c: int, d: int := bs[0], bs[1], bs[2], bs[3];
    a + b * 0x100 + c * 0x1_0000 + d * 0x100_0000
  }

  /** `struct` format `<i`: a 32-bit number in two's complement. */
  function PutInt32(n: int): (bs: seq<Byte>)
    requires -I32 <= n < I32
    ensures |bs| == 4 && GetInt32(bs) == n
  {
    PutLE32(if n < 0 then n + U32 else n)
  }

  function GetInt32(bs: seq<Byte>): (n: int)
    requires |bs| == 4
    ensures -I32 <= n < I32
  {
    var u := GetLE32(bs);
    if u < I32 then u else u - U32
  }
}
