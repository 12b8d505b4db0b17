/** Words of memory: comparing eight bytes at a time. */
module WordTest {
  import opened Common
  import opened ByteBits

  const WORD: nat := 8

  const ONES: bv64 := 0x0101_0101_0101_0101

  /** The expression that the encoder evaluates on the exclusive or of two words. */
  predicate ZeroByteTest(x: bv64) {
    (x - ONES) & !x & (ONES << 7) != 0
  }

  /** The words agree in some byte. */
  predicate AgreeInByte(x: bv64, y: bv64) {
    || x & 0xff == y & 0xff
    || x & 0xff00 == y & 0xff00
    || x & 0xff_0000 == y & 0xff_0000
    || x & 0xff00_0000 == y & 0xff00_0000
    || x & 0xff_0000_0000 == y & 0xff_0000_0000
    || x & 0xff00_0000_0000 == y & 0xff00_0000_0000
    || x & 0xff_0000_0000_0000 == y & 0xff_0000_0000_0000
    || x & 0xff00_0000_0000_0000 == y & 0xff00_0000_0000_0000
  }

  /** The test holds exactly when the two words agree in some byte. */
  lemma ZeroByteTestExact(x: bv64, y: bv64)
    ensures ZeroByteTest(x ^ y) <==> AgreeInByte(x, y)
  {
    assert ZeroByteTest(x ^ y) <==> AgreeInByte(x ^ y, 0);
  }

  /** The test on two words: whether they agree in some byte. */
  method TestWords(x: bv64, y: bv64) returns (r: bool)
    ensures r <==> AgreeInByte(x, y)
  {
    ZeroByteTestExact(x, y);
    r := ZeroByteTest(x ^ y);
  }

  /** A word, put together from its bytes. */
  function Join(a: bv8, b: bv8, c: bv8, d: bv8, e: bv8, f: bv8, g: bv8, h: bv8): bv64 {
    (a as bv64) | ((b as bv64) << 8) | ((c as bv64) << 16) | ((d as bv64) << 24)
    | ((e as bv64) << 32) | ((f as bv64) << 40) | ((g as bv64) << 48) | ((h as bv64) << 56)
  }

  lemma JoinParts(a: bv8, b: bv8, c: bv8, d: bv8, e: bv8, f: bv8, g: bv8, h: bv8)
    ensures var w := Join(a, b, c, d, e, f, g, h);
            && w & 0xff == a as bv64 && w & 0xff00 == (b as bv64) << 8
            && w & 0xff_0000 == (c as bv64) << 16 && w & 0xff00_0000 == (d as bv64) << 24
            && w & 0xff_0000_0000 == (e as bv64) << 32 && w & 0xff00_0000_0000 == (f as bv64) << 40
            && w & 0xff_0000_0000_0000 == (g as bv64) << 48 && w & 0xff00_0000_0000_0000 == (h as bv64) << 56
  {
  }

  /** Shifting a byte to its place keeps bytes apart. */
  lemma ShiftedByte(a: bv8, b: bv8)
    ensures (a as bv64) == (b as bv64) <==> a == b
    ensures (a as bv64) << 8 == (b as bv64) << 8 <==> a == b
    ensures (a as bv64) << 16 == (b as bv64) << 16 <==> a == b
    ensures (a as bv64) << 24 == (b as bv64) << 24 <==> a == b
    ensures (a as bv64) << 32 == (b as bv64) << 32 <==> a == b
    ensures (a as bv64) << 40 == (b as bv64) << 40 <==> a == b
    ensures (a as bv64) << 48 == (b as bv64) << 48 <==> a == b
    ensures (a as bv64) << 56 == (b as bv64) << 56 <==> a == b
  {
  }

  /** Words agree in a byte exactly if one of their bytes is the same. */
  lemma JoinAgree(a: bv8, b: bv8, c: bv8, d: bv8, e: bv8, f: bv8, g: bv8, h: bv8,
                  a': bv8, b': bv8, c': bv8, d': bv8, e': bv8, f': bv8, g': bv8, h': bv8)
    ensures AgreeInByte(Join(a, b, c, d, e, f, g, h), Join(a', b', c', d', e', f', g', h')) <==>
            a == a' || b == b' || c == c' || d == d' || e == e' || f == f' || g == g' || h == h'
    ensures Join(a, b, c, d, e, f, g, h) == Join(a', b', c', d', e', f', g', h') <==>
            a == a' && b == b' && c == c' && d == d' && e == e' && f == f' && g == g' && h == h'
  {
    JoinParts(a, b, c, d, e, f, g, h);
    JoinParts(a', b', c', d', e', f', g', h');
    ShiftedByte(a, a');
    ShiftedByte(b, b');
    ShiftedByte(c, c');
    ShiftedByte(d, d');
    ShiftedByte(e, e');
    ShiftedByte(f, f');
    ShiftedByte(g, g');
    ShiftedByte(h, h');
  }

  /** The word at position `i` of some memory. */
  function WordAt(m: seq<byte>, i: nat): bv64
    requires i + WORD <= |m|
  {
    Join(m[i] as bv8, m[i + 1] as bv8, m[i + 2] as bv8, m[i + 3] as bv8,
         m[i + 4] as bv8, m[i + 5] as bv8, m[i + 6] as bv8, m[i + 7] as bv8)
  }

  /** Words are equal exactly if all their bytes are, and agree in a byte exactly if one
      of their bytes is the same. */
  lemma WordBytes(x: seq<byte>, y: seq<byte>, i: nat)
    requires i + WORD <= |x| && i + WORD <= |y|
    ensures WordAt(x, i) == WordAt(y, i) <==> forall k | i <= k < i + WORD :: x[k] == y[k]
    ensures AgreeInByte(WordAt(x, i), WordAt(y, i)) <==> exists k :: i <= k < i + WORD && x[k] == y[k]
  {
    JoinAgree(x[i] as bv8, x[i + 1] as bv8, x[i + 2] as bv8, x[i + 3] as bv8,
              x[i + 4] as bv8, x[i + 5] as bv8, x[i + 6] as bv8, x[i + 7] as bv8,
              y[i] as bv8, y[i + 1] as bv8, y[i + 2] as bv8, y[i + 3] as bv8,
              y[i + 4] as bv8, y[i + 5] as bv8, y[i + 6] as bv8, y[i + 7] as bv8);
    forall k | i <= k < i + WORD
      ensures x[k] as bv8 == y[k] as bv8 <==> x[k] == y[k]
    {
      SameBits(x[k], y[k]);
    }
  }
}
