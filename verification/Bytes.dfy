/** Byte strings and the fixed-width integers written into them. */
module Bytes {
  type Byte = b: int | 0 <= b < 256

  type ByteString = seq<Byte>

  const TWO_TO_32 := 0x1_0000_0000

  /** JavaScript's `n >>> 0`. */
  function ToUint32(n: int): (u: nat)
    ensures u < TWO_TO_32
  {
    n % TWO_TO_32
  }

  /** Four bytes, most significant first. */
  function WriteUint32BE(u: nat): (bytes: ByteString)
    requires u < TWO_TO_32
    ensures |bytes| == 4
  {
    [u / 0x100_0000, u / 0x1_0000 % 256, u / 0x100 % 256, u % 256]
  }

  function ReadUint32BE(bytes: ByteString): (u: nat)
    requires |bytes| == 4
    ensures u < TWO_TO_32
  {
    var b: seq<int> := bytes;
    ((b[0] * 256 + b[1]) * 256 + b[2]) * 256 + b[3]
  }

  lemma ReadUndoesWrite(u: nat)
    requires u < TWO_TO_32
    ensures ReadUint32BE(WriteUint32BE(u)) == u
  {
    assert u / 0x1_0000 == u / 0x100 / 256 && u / 0x100_0000 == u / 0x1_0000 / 256;
  }

  lemma WriteUndoesRead(bytes: ByteString)
    requires |bytes| == 4
    ensures WriteUint32BE(ReadUint32BE(bytes)) == bytes
  {
    var u, b: seq<int> := ReadUint32BE(bytes), bytes;
    assert u / 0x100 == (b[0] * 256 + b[1]) * 256 + b[2];
    assert u / 0x1_0000 == b[0] * 256 + b[1];
    assert u / 0x100_0000 == b[0];
  }
}
