/**
 * Octets and the 4-byte big-endian unsigned integers (`htobe32` / `be32toh`)
 * that prefix every frame on a cast connection.
 */
module Bytes {
  type byte = x: int | 0 <= x < 256
  type uint32 = x: int | 0 <= x < 0x1_0000_0000

  /** `htobe32`: most significant byte first. */
  function BE32(n: uint32): (b: seq<byte>)
    ensures |b| == 4
  {
    [n / 0x100_0000, (n / 0x1_0000) % 0x100, (n / 0x100) % 0x100, n % 0x100]
  }

  /** `be32toh` on the four bytes read into the header. */
  function ReadBE32(b: seq<byte>): (n: uint32)
    requires |b| == 4
  {
    (b[0] as int) * 0x100_0000 + (b[1] as int) * 0x1_0000 + (b[2] as int) * 0x100 + b[3] as int
  }

  /** Reading back a written length gives that length. */
  lemma BE32RoundTrip(n: uint32)
    ensures ReadBE32(BE32(n)) == n
  {
    var b := BE32(n);
    assert n / 0x100 == (n / 0x1_0000) * 0x100 + (n / 0x100) % 0x100;
    assert n / 0x1_0000 == (n / 0x100_0000) * 0x100 + (n / 0x1_0000) % 0x100;
    assert n == (n / 0x100) * 0x100 + n % 0x100;
  }
}
