/** The page bitmap of a kdump file: built bit by bit in a buffer of one page, which is
    written to both bitmaps whenever the next bit lies beyond it. */
module DumpBitmap {
  import opened Common
  import opened Target
  import opened FlatFile
  import opened ByteBits

  const BUFSIZE_BITMAP: nat := TARGET_PAGE_SIZE
  const PFN_BUFBITMAP: nat := 8 * TARGET_PAGE_SIZE

  // ---------------------------------------------------------------------
  // Bits of bytes
  // ---------------------------------------------------------------------

  /** `1u << k`. */
  function Mask(k: nat): bv8
    requires k < 8
  {
    if k == 0 then 1 else Mask(k - 1) << 1
  }

  predicate BitOf(b: byte, k: nat)
    requires k < 8
  {
    (b as bv8) & Mask(k) != 0
  }

  /** A byte with one bit set or cleared. */
  function WithBit(b: byte, k: nat, value: bool): byte
    requires k < 8
  {
    FromBits(Changed(b as bv8, Mask(k), value))
  }

  function Changed(x: bv8, m: bv8, value: bool): bv8 {
    if value then x | m else x & !m
  }

  /** A mask of one bit is not changed by the test that clears its lowest bit. */
  predicate OneBitMask(m: bv8) {
    m != 0 && m & (m - 1) == 0
  }

  lemma ChangedBit(x: bv8, m: bv8, m': bv8, value: bool)
    requires OneBitMask(m) && OneBitMask(m')
    ensures Changed(x, m, value) & m' != 0 <==> if m == m' then value else x & m' != 0
  {
  }

  lemma Masks(k: nat, j: nat)
    requires k < 8 && j < 8
    ensures OneBitMask(Mask(k)) && (Mask(k) == Mask(j) <==> k == j)
  {
    assert Mask(0) == 1 && Mask(1) == 2;
    assert Mask(2) == 4 && Mask(3) == 8;
    assert Mask(4) == 16 && Mask(5) == 32;
    assert Mask(6) == 64 && Mask(7) == 128;
  }

  lemma WithBitMeaning(b: byte, k: nat, value: bool, j: nat)
    requires k < 8 && j < 8
    ensures BitOf(WithBit(b, k, value), j) == if j == k then value else BitOf(b, j)
  {
    Masks(k, j);
    Masks(j, k);
    BitsBack(Changed(b as bv8, Mask(k), value));
    ChangedBit(b as bv8, Mask(k), Mask(j), value);
  }

  lemma NoBits(k: nat)
    requires k < 8
    ensures !BitOf(0, k)
  {
  }

  // ---------------------------------------------------------------------
  // Bits of the bitmap
  // ---------------------------------------------------------------------

  /** Bit `p` of a bitmap. */
  predicate Bit(bytes: seq<byte>, p: nat)
    requires p < 8 * |bytes|
  {
    BitOf(bytes[p / 8], p % 8)
  }

  /** The bits that are set are those of `pages`. */
  ghost predicate BitsAre(bytes: seq<byte>, pages: set<nat>) {
    forall p: nat | p < 8 * |bytes| :: Bit(bytes, p) <==> p in pages
  }

  ghost predicate Below(pages: set<nat>, n: nat) {
    forall p | p in pages :: p < n
  }

  function Zeroes(): seq<byte> {
    seq(BUFSIZE_BITMAP, _ => 0)
  }

  /** A further buffer of zeroes. */
  lemma MoreZeroes(bytes: seq<byte>, pages: set<nat>)
    requires BitsAre(bytes, pages) && Below(pages, 8 * |bytes|)
    ensures BitsAre(bytes + Zeroes(), pages)
  {
    var more := bytes + Zeroes();
    forall p: nat | p < 8 * |more|
      ensures Bit(more, p) <==> p in pages
    {
      if p < 8 * |bytes| {
        assert Bit(more, p) == Bit(bytes, p);
      } else {
        NoBits(p % 8);
      }
    }
  }

  /** The bitmap with one bit changed. */
  lemma OneBit(bytes: seq<byte>, pages: set<nat>, p: nat, value: bool)
    requires BitsAre(bytes, pages) && p < 8 * |bytes|
    ensures BitsAre(bytes[p / 8 := WithBit(bytes[p / 8], p % 8, value)], if value then pages + {p} else pages - {p})
  {
    var bytes' := bytes[p / 8 := WithBit(bytes[p / 8], p % 8, value)];
    forall q: nat | q < 8 * |bytes'|
      ensures Bit(bytes', q) <==> q in if value then pages + {p} else pages - {p}
    {
      WithBitMeaning(bytes[p / 8], p % 8, value, q % 8);
      assert Bit(bytes, q) <==> q in pages;
      SameBit(p, q);
    }
  }

  lemma SameBit(p: nat, q: nat)
    ensures p == q <==> p / 8 == q / 8 && p % 8 == q % 8
  {
  }

  /** Both bitmaps hold `done`. */
  ghost predicate PutsBoth(rs: seq<Record>, offset: nat, len: nat, done: seq<byte>) {
    Puts(rs, offset, done) && Puts(rs, offset + len, done)
  }

  /** Writing a buffer to both bitmaps. */
  lemma PutsBothMore(rs: seq<Record>, offset: nat, len: nat, done: seq<byte>, buf: seq<byte>)
    requires PutsBoth(rs, offset, len, done) && |done| + |buf| <= len
    ensures PutsBoth(rs + [Record(offset + |done|, buf)] + [Record(offset + len + |done|, buf)], offset, len,
                     done + buf)
  {
    var r1, r2 := Record(offset + |done|, buf), Record(offset + len + |done|, buf);
    PutsMore(rs, r1, offset, done);
    PutsStay(rs + [r1], r2, offset, done + buf);
    PutsStay(rs, r1, offset + len, done);
    PutsMore(rs + [r1], r2, offset + len, done);
  }

  lemma PlaceOfBit(pfn: nat, n: nat)
    requires n == BUFSIZE_BITMAP * (pfn / PFN_BUFBITMAP)
    ensures n + pfn % PFN_BUFBITMAP / 8 == pfn / 8 && pfn % PFN_BUFBITMAP % 8 == pfn % 8
  {
  }

  class BitmapBuffer {
    const vmcore: Vmcore
    /** Where the first bitmap begins, and how long each of the two is. */
    const offset: nat
    const len: nat
    const buf: array<byte>
    /** What has been written, and the pages whose bits were set. */
    ghost var done: seq<byte>
    ghost var pages: set<nat>

    ghost predicate Valid()
      reads this, buf, vmcore
    {
      && buf.Length == BUFSIZE_BITMAP
      && BitsAre(done + buf[..], pages) && Below(pages, 8 * |done + buf[..]|)
      && PutsBoth(vmcore.records, offset, len, done)
    }

    constructor (vmcore: Vmcore, offset: nat, len: nat)
      ensures Valid() && fresh(buf) && this.vmcore == vmcore && this.offset == offset && this.len == len && done == []
              && pages == {}
    {
      this.vmcore, this.offset, this.len := vmcore, offset, len;
      buf := new byte[BUFSIZE_BITMAP](_ => 0);
      done, pages := [], {};
      new;
      assert buf[..] == Zeroes();
      MoreZeroes([], {});
    }

    /** One round of the loop in `set_dump_bitmap`. */
    method Flush(oldOffset: nat)
      requires Valid() && oldOffset == |done| && oldOffset + BUFSIZE_BITMAP <= len
      modifies this`done, buf, vmcore
      ensures Valid() && |done| == old(|done|) + BUFSIZE_BITMAP
      ensures Extends(old(vmcore.records), vmcore.records, offset, offset + 2 * len)
    {
      PutsBothMore(vmcore.records, offset, len, done, buf[..]);
      MoreZeroes(done + buf[..], pages);
      vmcore.WriteBuffer(offset + oldOffset, buf[..]);
      vmcore.WriteBuffer(offset + len + oldOffset, buf[..]);
      done := done + buf[..];
      forall i | 0 <= i < buf.Length {
        buf[i] := 0;
      }
      assert buf[..] == Zeroes();
    }

    /** The loop of `set_dump_bitmap`: buffers are written until the next one is for
        `newOffset`. */
    method FlushUpTo(oldOffset: nat, newOffset: nat)
      requires Valid() && oldOffset == |done| <= newOffset <= len
      requires oldOffset % BUFSIZE_BITMAP == 0 == newOffset % BUFSIZE_BITMAP
      modifies this`done, buf, vmcore
      ensures Valid() && |done| == newOffset
      ensures Extends(old(vmcore.records), vmcore.records, offset, offset + 2 * len)
    {
      var at := oldOffset;
      while at < newOffset
        invariant Valid() && at == |done| <= newOffset && at % BUFSIZE_BITMAP == 0
        invariant Extends(old(vmcore.records), vmcore.records, offset, offset + 2 * len)
      {
        ghost var rs := vmcore.records;
        Flush(at);
        ExtendsTransitive(old(vmcore.records), rs, vmcore.records, offset, offset + 2 * len, offset, offset + 2 * len);
        at := at + BUFSIZE_BITMAP;
      }
    }

    /** `set_dump_bitmap`. */
    method Set(lastPfn: nat, pfn: nat, value: bool)
      requires Valid() && lastPfn <= pfn && |done| == BUFSIZE_BITMAP * (lastPfn / PFN_BUFBITMAP)
      requires BUFSIZE_BITMAP * (pfn / PFN_BUFBITMAP) <= len
      modifies this`done, this`pages, buf, vmcore
      ensures Valid() && |done| == BUFSIZE_BITMAP * (pfn / PFN_BUFBITMAP)
      ensures pages == if value then old(pages) + {pfn} else old(pages) - {pfn}
      ensures Extends(old(vmcore.records), vmcore.records, offset, offset + 2 * len)
    {
      FlushUpTo(BUFSIZE_BITMAP * (lastPfn / PFN_BUFBITMAP), BUFSIZE_BITMAP * (pfn / PFN_BUFBITMAP));
      PutBit(pfn, value);
    }

    /** Sets or clears a bit in the buffer. */
    method PutBit(pfn: nat, value: bool)
      requires Valid() && |done| == BUFSIZE_BITMAP * (pfn / PFN_BUFBITMAP)
      modifies this`pages, buf
      ensures Valid() && pages == if value then old(pages) + {pfn} else old(pages) - {pfn}
    {
      var at, bit := pfn % PFN_BUFBITMAP / 8, pfn % PFN_BUFBITMAP % 8;
      ghost var bytes := done + buf[..];
      PlaceOfBit(pfn, |done|);
      OneBit(bytes, pages, pfn, value);
      buf[at] := WithBit(buf[at], bit, value);
      assert done + buf[..] == bytes[pfn / 8 := WithBit(bytes[pfn / 8], pfn % 8, value)];
      pages := if value then pages + {pfn} else pages - {pfn};
    }
  }
}
