/** The byte lanes of a doubleword in terms of its bits. */
module LaneBits {
  import opened BitString
  import opened Lanes

  /** Byte k of a doubleword as a doubleword. */
  function WideByte(x: bv64, k: nat): bv64
    requires k < 8
  {
    ByteAt(x, k) as bv64
  }

  lemma LowByteKept(x: bv64)
    ensures LowByte(x) as bv64 == And(x, 0xFF)
  {}

  lemma ByteIsLowByte(x: bv64, k: nat)
    requires k < 8
    ensures ByteAt(x, k) == LowByte(Bytes(x, k))
  {
    hide LowByte, Bytes;
    BytesAreShifts(x);
    BytesNone(x);
  }

  lemma WideByteIs(x: bv64, k: nat)
    requires k < 8
    ensures WideByte(x, k) == And(Bytes(x, k), 0xFF)
  {
    hide LowByte, And, Bytes, ByteAt;
    ByteIsLowByte(x, k);
    LowByteKept(Bytes(x, k));
  }

  lemma BytesNone(x: bv64)
    ensures Bytes(x, 0) == x
  {}

  lemma ByteMaskBits(j: nat)
    requires j < 64
    ensures Bit(0xFF, j) <==> j < 8
  {
    hide Bit, Drop;
    if j < 8 {
      LowByteOnes(0xFF, j);
    } else {
      BitDrop(0xFF, 8, j - 8);
      DropByte(0xFF);
      NoHighByte();
      ZeroBits(j - 8);
    }
  }

  lemma NoHighByte()
    ensures Byte(0xFF) == 0
  {}

  /** Byte k holds bits 8k to 8k + 7. */
  lemma ByteBits(x: bv64, k: nat, j: nat)
    requires k < 8 && j < 64
    ensures Bit(WideByte(x, k), j) <==> j < 8 && Bit(x, 8 * k + j)
  {
    hide *;
    WideByteIs(x, k);
    BitOps(Bytes(x, k), 0xFF, j);
    ByteMaskBits(j);
    DropBytes(x, k);
    BitDrop(x, 8 * k, j);
  }
}
