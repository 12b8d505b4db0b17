/** Bytes as bit vectors. */
module ByteBits {
  import opened Common

  lemma ByteBack(x: int)
    requires 0 <= x < 256
    ensures (x as bv8) as int == x
  {
  }

  lemma SameBits(x: byte, y: byte)
    ensures x as bv8 == y as bv8 <==> x == y
  {
    ByteBack(x);
    ByteBack(y);
  }

  /** The byte with these bits. */
  function FromBits(x: bv8): byte {
    x as int
  }

  lemma BitsBack(x: bv8)
    ensures FromBits(x) as bv8 == x
  {
  }
}
