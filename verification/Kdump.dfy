/** The kdump-compressed core file: header, two page bitmaps, page descriptors and page
    data.  A reader finds every guest page again. */
module Kdump {
  import opened Common
  import opened Target
  import opened FlatFile
  import opened TargetBytes
  import opened ElfDump
  import opened DumpPages
  import opened DumpBitmap

  // ---------------------------------------------------------------------
  // Page descriptors
  // ---------------------------------------------------------------------

  const DESC_SIZE: nat := 24

  datatype PageDescriptor = PageDescriptor(offset: nat, size: nat, flags: nat)

  predicate Fits(d: PageDescriptor) {
    d.offset < Range(8) && d.size < Range(4) && d.flags < Range(4)
  }

  function Encode(d: PageDescriptor, big: bool): (r: seq<byte>)
    ensures |r| == DESC_SIZE
  {
    Word(d.offset, 8, big) + Word(d.size, 4, big) + Word(d.flags, 4, big) + Word(0, 8, big)
  }

  function Decode(bytes: seq<byte>, big: bool): PageDescriptor
    requires |bytes| == DESC_SIZE
  {
    PageDescriptor(Value(bytes[..8], big), Value(bytes[8..12], big), Value(bytes[12..16], big))
  }

  lemma DecodeEncode(d: PageDescriptor, big: bool)
    requires Fits(d)
    ensures Decode(Encode(d, big), big) == d
  {
    var r := Encode(d, big);
    var a, b, c := Word(d.offset, 8, big), Word(d.size, 4, big), Word(d.flags, 4, big);
    assert r[..8] == a && r[8..12] == b && r[12..16] == c;
    ValueOfWord(d.offset, 8, big);
    ValueOfWord(d.size, 4, big);
    ValueOfWord(d.flags, 4, big);
  }

  function EncodeAll(ds: seq<PageDescriptor>, big: bool): (r: seq<byte>)
    ensures |r| == DESC_SIZE * |ds|
  {
    if ds == [] then [] else EncodeAll(ds[..|ds| - 1], big) + Encode(ds[|ds| - 1], big)
  }

  lemma {:induction false} EncodeAllAt(ds: seq<PageDescriptor>, big: bool, i: nat)
    requires i < |ds|
    ensures EncodeAll(ds, big)[DESC_SIZE * i..DESC_SIZE * i + DESC_SIZE] == Encode(ds[i], big)
  {
    var n := |ds| - 1;
    var front := EncodeAll(ds[..n], big);
    if i < n {
      EncodeAllAt(ds[..n], big, i);
      assert EncodeAll(ds, big)[DESC_SIZE * i..DESC_SIZE * i + DESC_SIZE] ==
             front[DESC_SIZE * i..DESC_SIZE * i + DESC_SIZE];
    }
  }

  // ---------------------------------------------------------------------
  // Reading the file
  // ---------------------------------------------------------------------

  /** `n` bytes of the file from `x` on. */
  function Read(rs: seq<Record>, x: nat, n: nat): seq<byte> {
    seq<byte>(n, k requires 0 <= k < n => At(rs, x + k))
  }

  lemma ReadPuts(rs: seq<Record>, base: nat, bytes: seq<byte>)
    requires Puts(rs, base, bytes)
    ensures Read(rs, base, |bytes|) == bytes
  {
  }

  /** How pages are compressed: the flag of the method, and what it makes of a page. */
  datatype Codec = Codec(flag: nat, compress: seq<byte> -> Option<seq<byte>>, expand: seq<byte> -> seq<byte>)

  ghost predicate GoodCodec(c: Codec) {
    0 < c.flag < Range(4) && forall p :: c.compress(p).Some? ==> c.expand(c.compress(p).value) == p
  }

  /** The bytes of a page that is stored with some flags; a reader knows no other ones. */
  function Plain(raw: seq<byte>, flags: nat, c: Codec): Option<seq<byte>> {
    if flags == 0 then Some(raw) else if flags == c.flag then Some(c.expand(raw)) else None
  }

  /** The contents of the page that a descriptor points to. */
  function Contents(rs: seq<Record>, d: PageDescriptor, c: Codec): Option<seq<byte>> {
    Plain(Read(rs, d.offset, d.size), d.flags, c)
  }

  /** The page of the `i`-th descriptor, as a reader finds it. */
  function ReadPage(rs: seq<Record>, offsetDesc: nat, i: nat, big: bool, c: Codec): Option<seq<byte>> {
    Contents(rs, Decode(Read(rs, offsetDesc + DESC_SIZE * i, DESC_SIZE), big), c)
  }

  /** The bit of page `p` in the bitmap at `offset`, as a reader finds it. */
  predicate ReadBit(rs: seq<Record>, offset: nat, p: nat) {
    BitOf(At(rs, offset + p / 8), p % 8)
  }

  // ---------------------------------------------------------------------
  // Storing pages
  // ---------------------------------------------------------------------

  /** The data stream from `base` on holds `page` where the descriptor says. */
  ghost predicate Describes(d: PageDescriptor, page: Page, base: nat, stream: seq<byte>, c: Codec) {
    && Fits(d) && base <= d.offset && d.offset - base + d.size <= |stream|
    && Plain(stream[d.offset - base..d.offset - base + d.size], d.flags, c) == Some(page.data)
  }

  /** The stream only grows. */
  lemma StillDescribes(d: PageDescriptor, page: Page, base: nat, stream: seq<byte>, more: seq<byte>, c: Codec)
    requires Describes(d, page, base, stream, c)
    ensures Describes(d, page, base, stream + more, c)
  {
    var a, n := d.offset - base, d.size;
    assert (stream + more)[a..a + n] == stream[a..a + n];
  }

  /** New data at the end of the stream. */
  lemma NewDescribes(d: PageDescriptor, page: Page, base: nat, stream: seq<byte>, bytes: seq<byte>, c: Codec)
    requires Fits(d) && d.offset == base + |stream| && d.size == |bytes|
    requires Plain(bytes, d.flags, c) == Some(page.data)
    ensures Describes(d, page, base, stream + bytes, c)
  {
    assert (stream + bytes)[|stream|..|stream| + |bytes|] == bytes;
  }

  ghost predicate AllDescribed(ds: seq<PageDescriptor>, pages: seq<Page>, base: nat, stream: seq<byte>, c: Codec) {
    |ds| == |pages| && forall i | 0 <= i < |ds| :: Describes(ds[i], pages[i], base, stream, c)
  }

  lemma DescribeOneMore(ds: seq<PageDescriptor>, pages: seq<Page>, base: nat, stream: seq<byte>, c: Codec,
                        d: PageDescriptor, page: Page, bytes: seq<byte>)
    requires AllDescribed(ds, pages, base, stream, c) && Describes(d, page, base, stream + bytes, c)
    ensures AllDescribed(ds + [d], pages + [page], base, stream + bytes, c)
  {
    forall i | 0 <= i < |ds|
      ensures Describes((ds + [d])[i], (pages + [page])[i], base, stream + bytes, c)
    {
      StillDescribes(ds[i], pages[i], base, stream, bytes, c);
    }
  }

  lemma DescriptorReadable(rs: seq<Record>, offsetDesc: nat, ds: seq<PageDescriptor>, big: bool, i: nat)
    requires Puts(rs, offsetDesc, EncodeAll(ds, big)) && i < |ds| && Fits(ds[i])
    ensures Decode(Read(rs, offsetDesc + DESC_SIZE * i, DESC_SIZE), big) == ds[i]
  {
    var at := DESC_SIZE * i;
    assert at + DESC_SIZE <= |EncodeAll(ds, big)|;
    PutsPart(rs, offsetDesc, EncodeAll(ds, big), at, DESC_SIZE);
    EncodeAllAt(ds, big, i);
    ReadPuts(rs, offsetDesc + at, Encode(ds[i], big));
    DecodeEncode(ds[i], big);
  }

  lemma DataReadable(rs: seq<Record>, d: PageDescriptor, page: Page, base: nat, stream: seq<byte>, c: Codec)
    requires Puts(rs, base, stream) && Describes(d, page, base, stream, c)
    ensures Contents(rs, d, c) == Some(page.data)
  {
    PutsPart(rs, base, stream, d.offset - base, d.size);
    ReadPuts(rs, d.offset, stream[d.offset - base..d.offset - base + d.size]);
  }

  /** A file with these descriptors and this data gives back the pages. */
  lemma PagesReadable(rs: seq<Record>, offsetDesc: nat, ds: seq<PageDescriptor>, big: bool, pages: seq<Page>, base: nat,
                      stream: seq<byte>, c: Codec, i: nat)
    requires Puts(rs, offsetDesc, EncodeAll(ds, big)) && Puts(rs, base, stream)
    requires AllDescribed(ds, pages, base, stream, c) && i < |pages|
    ensures ReadPage(rs, offsetDesc, i, big, c) == Some(pages[i].data)
  {
    assert Describes(ds[i], pages[i], base, stream, c);
    DescriptorReadable(rs, offsetDesc, ds, big, i);
    DataReadable(rs, ds[i], pages[i], base, stream, c);
  }

  lemma SmallSizes()
    ensures TARGET_PAGE_SIZE < Range(4)
  {
    assert Range(2) == 0x1_0000;
  }

  lemma StillAllDescribed(ds: seq<PageDescriptor>, pages: seq<Page>, base: nat, stream: seq<byte>, more: seq<byte>,
                          c: Codec)
    requires AllDescribed(ds, pages, base, stream, c)
    ensures AllDescribed(ds, pages, base, stream + more, c)
  {
    forall i | 0 <= i < |ds|
      ensures Describes(ds[i], pages[i], base, stream + more, c)
    {
      StillDescribes(ds[i], pages[i], base, stream, more, c);
    }
  }

  /** The room that a page takes: what it is compressed to, if that is less than a page. */
  function StoredSize(c: Codec, data: seq<byte>): nat {
    var z := c.compress(data);
    if z.Some? && |z.value| < |data| then |z.value| else |data|
  }

  const BUFSIZE_DATA_CACHE: nat := 4 * TARGET_PAGE_SIZE

  function ZeroPage(): seq<byte> {
    seq(TARGET_PAGE_SIZE, _ => 0)
  }

  lemma EncodeAllAppend(ds: seq<PageDescriptor>, d: PageDescriptor, big: bool)
    ensures EncodeAll(ds + [d], big) == EncodeAll(ds, big) + Encode(d, big)
  {
    assert (ds + [d])[..|ds|] == ds;
  }

  /** `write_dump_pages`: descriptors and data go through two caches into the same
      file, the data right behind the space for `num` descriptors. */
  class PageWriter {
    const vmcore: Vmcore
    const desc: DataCache
    const data: DataCache
    const big: bool
    const codec: Codec
    const num: nat
    const zeroOffset: nat
    var offsetData: nat
    ghost var ds: seq<PageDescriptor>
    ghost var pages: seq<Page>

    ghost predicate Shape()
      reads this, desc, data
    {
      && desc != data && desc.vmcore == vmcore == data.vmcore
      && desc.bufSize == BUFSIZE_DATA_CACHE == data.bufSize
      && desc.base + DESC_SIZE * num == data.base == zeroOffset
    }

    ghost predicate Valid()
      reads this, desc, data, vmcore
    {
      && Shape() && desc.Valid() && data.Valid() && GoodCodec(codec)
      && |ds| <= num && desc.all == EncodeAll(ds, big)
      && offsetData == data.base + |data.all|
      && ZeroPage() <= data.all
      && AllDescribed(ds, pages, data.base, data.all, codec)
    }

    /** The caches are opened, and the page for all zero pages is stored. */
    constructor (vmcore: Vmcore, offsetDesc: nat, num: nat, big: bool, codec: Codec)
      requires GoodCodec(codec)
      modifies vmcore
      ensures Valid() && fresh(desc) && fresh(data) && pages == []
      ensures this.vmcore == vmcore && desc.base == offsetDesc && this.num == num && this.big == big
              && this.codec == codec
      ensures |data.all| == TARGET_PAGE_SIZE
      ensures Extends(old(vmcore.records), vmcore.records, data.base, data.base + |data.all|)
    {
      this.vmcore, this.num, this.big, this.codec := vmcore, num, big, codec;
      zeroOffset := offsetDesc + DESC_SIZE * num;
      offsetData := offsetDesc + DESC_SIZE * num + TARGET_PAGE_SIZE;
      desc := new DataCache(vmcore, offsetDesc, BUFSIZE_DATA_CACHE);
      data := new DataCache(vmcore, offsetDesc + DESC_SIZE * num, BUFSIZE_DATA_CACHE);
      ds, pages := [], [];
      new;
      AddData(ZeroPage());
    }

    /** Data is added; the descriptors are not disturbed. */
    method AddData(bytes: seq<byte>)
      requires Shape() && desc.Valid() && data.Valid() && |bytes| <= TARGET_PAGE_SIZE
      requires |desc.all| <= DESC_SIZE * num
      modifies data, vmcore
      ensures Shape() && desc.Valid() && data.Valid() && data.all == old(data.all) + bytes
      ensures Extends(old(vmcore.records), vmcore.records, data.base, data.base + |data.all|)
    {
      ghost var rs := vmcore.records;
      data.Write(bytes);
      OthersKeep(rs, vmcore.records, data.base, data.base + |data.all|, desc.base, desc.offset, desc.buf, desc.all);
    }

    /** A descriptor is added; the data is not disturbed. */
    method AddDescriptor(d: PageDescriptor)
      requires Shape() && desc.Valid() && data.Valid()
      requires |desc.all| + DESC_SIZE <= DESC_SIZE * num
      modifies desc, vmcore
      ensures Shape() && desc.Valid() && data.Valid() && desc.all == old(desc.all) + Encode(d, big)
      ensures Extends(old(vmcore.records), vmcore.records, desc.base, data.base)
    {
      ghost var rs := vmcore.records;
      desc.Write(Encode(d, big));
      OthersKeep(rs, vmcore.records, desc.base, desc.base + |desc.all|, data.base, data.offset, data.buf, data.all);
    }

    /** What is stored of a page that is not zero: its bytes as the codec makes them, if
        that is shorter, or as they are. */
    method Stored(page: Page) returns (bytes: seq<byte>, flags: nat)
      requires GoodCodec(codec) && |page.data| == TARGET_PAGE_SIZE
      ensures |bytes| == StoredSize(codec, page.data) <= TARGET_PAGE_SIZE && flags < Range(4)
      ensures Plain(bytes, flags, codec) == Some(page.data)
      ensures flags == if StoredSize(codec, page.data) < TARGET_PAGE_SIZE then codec.flag else 0
    {
      var z := codec.compress(page.data);
      if z.Some? && |z.value| < TARGET_PAGE_SIZE {
        bytes, flags := z.value, codec.flag;
      } else {
        bytes, flags := page.data, 0;
        assert Range(4) > 0;
      }
    }

    /** Stores a page that is not zero, and gives its descriptor. */
    method PutData(page: Page) returns (d: PageDescriptor)
      requires Valid() && |page.data| == TARGET_PAGE_SIZE && data.base + |data.all| + TARGET_PAGE_SIZE <= Range(8)
      modifies this`offsetData, data, vmcore
      ensures Valid() && Describes(d, page, data.base, data.all, codec)
      ensures |data.all| == old(|data.all|) + StoredSize(codec, page.data) <= old(|data.all|) + TARGET_PAGE_SIZE
      ensures Extends(old(vmcore.records), vmcore.records, data.base, data.base + |data.all|)
    {
      var bytes, flags := Stored(page);
      ghost var stream := data.all;
      AddData(bytes);
      d := PageDescriptor(offsetData, |bytes|, flags);
      offsetData := offsetData + |bytes|;
      SmallSizes();
      NewDescribes(d, page, data.base, stream, bytes, codec);
      StillAllDescribed(ds, pages, data.base, stream, bytes, codec);
    }

    /** The descriptor of a zero page. */
    lemma DescribesZero(d: PageDescriptor, page: Page)
      requires Valid() && page.data == ZeroPage() && d == PageDescriptor(zeroOffset, TARGET_PAGE_SIZE, 0)
               && zeroOffset < Range(8)
      ensures Describes(d, page, data.base, data.all, codec)
    {
      SmallSizes();
      assert data.all[..TARGET_PAGE_SIZE] == ZeroPage();
    }

    /** Adds the descriptor of a page that is stored. */
    method PutDescriptor(d: PageDescriptor, ghost page: Page)
      requires Valid() && |ds| < num && Describes(d, page, data.base, data.all, codec)
      modifies this`ds, this`pages, desc, vmcore
      ensures Valid() && pages == old(pages) + [page]
      ensures Extends(old(vmcore.records), vmcore.records, desc.base, data.base)
    {
      AddDescriptor(d);
      EncodeAllAppend(ds, d, big);
      assert data.all + [] == data.all;
      DescribeOneMore(ds, pages, data.base, data.all, codec, d, page, []);
      ds, pages := ds + [d], pages + [page];
    }

    /** One page of the loop in `write_dump_pages`. */
    method Put(page: Page)
      requires Valid() && |ds| < num && |page.data| == TARGET_PAGE_SIZE
      requires data.base + |data.all| + TARGET_PAGE_SIZE <= Range(8)
      modifies this`offsetData, this`ds, this`pages, desc, data, vmcore
      ensures Valid() && pages == old(pages) + [page]
      ensures old(|data.all|) <= |data.all| <= old(|data.all|) + TARGET_PAGE_SIZE
      ensures |data.all| == old(|data.all|) + if page.data == ZeroPage() then 0 else StoredSize(codec, page.data)
      ensures Extends(old(vmcore.records), vmcore.records, desc.base, data.base + |data.all|)
    {
      var d;
      if page.data == ZeroPage() {
        d := PageDescriptor(zeroOffset, TARGET_PAGE_SIZE, 0);
        DescribesZero(d, page);
        PutDescriptor(d, page);
      } else {
        d := PutData(page);
        ghost var rs := vmcore.records;
        PutDescriptor(d, page);
        ExtendsTransitive(old(vmcore.records), rs, vmcore.records, data.base, data.base + |data.all|, desc.base,
                          data.base);
      }
    }

    /** The end of `write_dump_pages`: both caches are written out. */
    method Finish()
      requires Valid()
      modifies desc, data, vmcore
      ensures desc.all == old(desc.all) && data.all == old(data.all)
      ensures Puts(vmcore.records, desc.base, EncodeAll(ds, big)) && Puts(vmcore.records, data.base, data.all)
      ensures Extends(old(vmcore.records), vmcore.records, desc.base, data.base + |data.all|)
    {
      ghost var rs0 := vmcore.records;
      desc.Sync();
      ghost var rs1 := vmcore.records;
      OthersKeep(rs0, rs1, desc.base, desc.base + |desc.all|, data.base, data.offset, data.buf, data.all);
      data.Sync();
      PutsUndisturbed(rs1, vmcore.records, data.base, data.base + |data.all|, desc.base, desc.all);
      ExtendsTransitive(rs0, rs1, vmcore.records, desc.base, desc.base + |desc.all|, data.base, data.base + |data.all|);
    }
  }

  // ---------------------------------------------------------------------
  // Layout
  // ---------------------------------------------------------------------

  function DivRoundUp(n: nat, d: nat): nat
    requires d > 0
  {
    (n + d - 1) / d
  }

  /** The length of one bitmap: whole pages. */
  function LenBitmap(maxMapnr: nat): nat {
    DivRoundUp(DivRoundUp(maxMapnr, 8), TARGET_PAGE_SIZE) * TARGET_PAGE_SIZE
  }

  /** Every page below the end has its bit in the bitmap, and the last one is in the
      last buffer. */
  lemma LenCovers(maxMapnr: nat, p: nat)
    requires p < maxMapnr
    ensures BUFSIZE_BITMAP * (p / PFN_BUFBITMAP) + BUFSIZE_BITMAP <= LenBitmap(maxMapnr)
    ensures p + 1 == maxMapnr ==> BUFSIZE_BITMAP * (p / PFN_BUFBITMAP) + BUFSIZE_BITMAP == LenBitmap(maxMapnr)
  {
  }

  const UINT32: nat := 0x1_0000_0000

  /** The sizes of the headers: a sub header of `kh` bytes with `note` bytes of notes. */
  function SubHdrSize(kh: nat, note: nat): nat {
    DivRoundUp(kh + note, TARGET_PAGE_SIZE)
  }

  function BitmapBlocks(len: nat): nat {
    DivRoundUp(len, TARGET_PAGE_SIZE) * 2
  }

  /** `offset_dump_bitmap` and `offset_page`, in 32-bit arithmetic. */
  function OffsetBitmap(kh: nat, note: nat): nat {
    (1 + SubHdrSize(kh, note)) * TARGET_PAGE_SIZE % UINT32
  }

  function OffsetPage(kh: nat, note: nat, len: nat): nat {
    (1 + SubHdrSize(kh, note) + BitmapBlocks(len)) * TARGET_PAGE_SIZE % UINT32
  }

  /** The end of the bitmaps without 32-bit arithmetic. */
  function EndOfBitmaps(kh: nat, note: nat, len: nat): nat {
    (1 + SubHdrSize(kh, note) + BitmapBlocks(len)) * TARGET_PAGE_SIZE
  }

  /** The headers, the bitmaps and the pages follow each other without overlap exactly
      when the end of the bitmaps fits into 32 bits. */
  lemma LayoutIff(kh: nat, note: nat, maxMapnr: nat)
    ensures var len := LenBitmap(maxMapnr);
            (&& TARGET_PAGE_SIZE + kh + note <= OffsetBitmap(kh, note)
             && OffsetBitmap(kh, note) + 2 * len == OffsetPage(kh, note, len))
            <==> EndOfBitmaps(kh, note, len) < UINT32
  {
    var len := LenBitmap(maxMapnr);
    var front := (1 + SubHdrSize(kh, note)) * TARGET_PAGE_SIZE;
    assert EndOfBitmaps(kh, note, len) == front + 2 * len;
    assert TARGET_PAGE_SIZE + kh + note <= front;
    if front + 2 * len >= UINT32 {
      assert OffsetPage(kh, note, len) < UINT32;
    }
  }

  /** As many blocks as some bytes need. */
  lemma BlocksFor(n: nat, blocks: nat)
    requires blocks == DivRoundUp(n, TARGET_PAGE_SIZE)
    ensures n <= TARGET_PAGE_SIZE * blocks < n + TARGET_PAGE_SIZE
  {
  }

  lemma SmallSum(front: nat, rest: nat)
    requires front + rest < UINT32
    ensures front % UINT32 == front
  {
  }

  /** Nothing is wasted: the bitmaps begin with the first block after the headers, ... */
  lemma BitmapPlace(kh: nat, note: nat, len: nat)
    requires EndOfBitmaps(kh, note, len) < UINT32
    ensures var offset := OffsetBitmap(kh, note);
            && offset % TARGET_PAGE_SIZE == 0
            && TARGET_PAGE_SIZE + kh + note <= offset < 2 * TARGET_PAGE_SIZE + kh + note
  {
    var blocks := SubHdrSize(kh, note);
    BlocksFor(kh + note, blocks);
    SmallSum((1 + blocks) * TARGET_PAGE_SIZE, BitmapBlocks(len) * TARGET_PAGE_SIZE);
  }

  /** ... and have as many blocks as the page numbers need. */
  lemma BitmapLength(maxMapnr: nat)
    ensures var len := LenBitmap(maxMapnr);
            && len % TARGET_PAGE_SIZE == 0 && maxMapnr <= 8 * len
            && (maxMapnr > 0 ==> 8 * (len - TARGET_PAGE_SIZE) < maxMapnr)
  {
    var bytes := DivRoundUp(maxMapnr, 8);
    assert maxMapnr <= 8 * bytes < maxMapnr + 8;
    BlocksFor(bytes, DivRoundUp(bytes, TARGET_PAGE_SIZE));
  }

  /** With 2^34 page numbers the pages are placed on top of the first bitmap. */
  lemma LayoutWraps()
    ensures var len := LenBitmap(0x4_0000_0000);
            len > 0 && OffsetPage(1, 0, len) == OffsetBitmap(1, 0)
  {
    assert LenBitmap(0x4_0000_0000) == 0x8000_0000;
    assert BitmapBlocks(0x8000_0000) * TARGET_PAGE_SIZE == UINT32;
  }

  // ---------------------------------------------------------------------
  // The bitmaps
  // ---------------------------------------------------------------------

  ghost function Pfns(pages: seq<Page>): set<nat> {
    set k | 0 <= k < |pages| :: pages[k].pfn
  }

  lemma PfnsAppend(pages: seq<Page>, p: Page)
    ensures Pfns(pages + [p]) == Pfns(pages) + {p.pfn}
  {
    assert forall k | 0 <= k < |pages| :: (pages + [p])[k] == pages[k];
    assert (pages + [p])[|pages|] == p;
  }

  lemma BitsOfFront(done: seq<byte>, rest: seq<byte>, pages: set<nat>)
    requires BitsAre(done + rest, pages)
    ensures BitsAre(done, pages)
  {
    forall p: nat | p < 8 * |done|
      ensures Bit(done, p) <==> p in pages
    {
      assert Bit(done, p) == Bit(done + rest, p);
    }
  }

  /** Both bitmaps are complete: each holds `done`, whose bits are those of `pages`. */
  ghost predicate BitmapsDone(rs: seq<Record>, offset: nat, len: nat, done: seq<byte>, pages: set<nat>) {
    |done| == len && PutsBoth(rs, offset, len, done) && BitsAre(done, pages)
  }

  /** The end of `write_dump_bitmap`: a bit beyond the last buffer flushes it. */
  method SyncBitmap(bb: BitmapBuffer, lastPfn: nat)
    requires bb.Valid() && |bb.done| == BUFSIZE_BITMAP * (lastPfn / PFN_BUFBITMAP)
    requires BUFSIZE_BITMAP * (lastPfn / PFN_BUFBITMAP) + BUFSIZE_BITMAP == bb.len
    modifies bb, bb.buf, bb.vmcore
    ensures BitmapsDone(bb.vmcore.records, bb.offset, bb.len, bb.done, old(bb.pages))
    ensures Extends(old(bb.vmcore.records), bb.vmcore.records, bb.offset, bb.offset + 2 * bb.len)
  {
    var pfn := lastPfn + PFN_BUFBITMAP;
    assert pfn / PFN_BUFBITMAP == lastPfn / PFN_BUFBITMAP + 1;
    assert pfn !in bb.pages;
    bb.Set(lastPfn, pfn, false);
    assert bb.pages == old(bb.pages);
    BitsOfFront(bb.done, bb.buf[..], bb.pages);
  }

  /** The loop of `write_dump_bitmap`. */
  method MarkPages(bb: BitmapBuffer, blocks: seq<GuestPhysBlock>, max: nat) returns (num: nat, lastPfn: nat)
    requires PageBlocks(blocks) && max == MaxMapnr(blocks) && bb.Valid() && bb.done == [] && bb.pages == {}
             && bb.len == LenBitmap(max)
    modifies bb, bb.buf, bb.vmcore
    ensures bb.Valid() && |bb.done| == BUFSIZE_BITMAP * (lastPfn / PFN_BUFBITMAP) && lastPfn + 1 == max
    ensures num == |AllPages(blocks)| && bb.pages == Pfns(AllPages(blocks))
    ensures Extends(old(bb.vmcore.records), bb.vmcore.records, bb.offset, bb.offset + 2 * bb.len)
  {
    var iter := new PageIterator(blocks);
    num, lastPfn := 0, 0;
    ghost var seen := [];
    var page := iter.Next();
    while page.Some?
      invariant fresh(iter) && iter.blocks == blocks && bb.Valid()
                && |bb.done| == BUFSIZE_BITMAP * (lastPfn / PFN_BUFBITMAP)
      invariant num == |seen| && bb.pages == Pfns(seen)
      invariant page.Some? ==> iter.Valid() && iter.Seen() == seen + [page.value] && |iter.Seen()| <= |AllPages(blocks)|
      invariant page.Some? ==> iter.block.Some? && iter.pfn == page.value.pfn < max && lastPfn <= page.value.pfn
      invariant page.None? ==> seen == AllPages(blocks) && lastPfn + 1 == max
      invariant Extends(old(bb.vmcore.records), bb.vmcore.records, bb.offset, bb.offset + 2 * bb.len)
      decreases |AllPages(blocks)| - num
    {
      ghost var rs := bb.vmcore.records;
      LenCovers(max, page.value.pfn);
      bb.Set(lastPfn, page.value.pfn, true);
      ExtendsTransitive(old(bb.vmcore.records), rs, bb.vmcore.records, bb.offset, bb.offset + 2 * bb.len, bb.offset,
                        bb.offset + 2 * bb.len);
      PfnsAppend(seen, page.value);
      lastPfn := page.value.pfn;
      num := num + 1;
      seen := seen + [page.value];
      page := iter.Next();
    }
  }

  /** `write_dump_bitmap`: the bits of both bitmaps are those of the guest's pages. */
  method WriteDumpBitmap(vmcore: Vmcore, blocks: seq<GuestPhysBlock>, offset: nat, len: nat)
    returns (num: nat, ghost done: seq<byte>)
    requires PageBlocks(blocks) && len == LenBitmap(MaxMapnr(blocks))
    modifies vmcore
    ensures num == |AllPages(blocks)|
    ensures BitmapsDone(vmcore.records, offset, len, done, Pfns(AllPages(blocks)))
    ensures Extends(old(vmcore.records), vmcore.records, offset, offset + 2 * len)
  {
    var max := MaxMapnr(blocks);
    var bb := new BitmapBuffer(vmcore, offset, len);
    var lastPfn;
    num, lastPfn := MarkPages(bb, blocks, max);
    LenCovers(max, lastPfn);
    ghost var rs := vmcore.records;
    SyncBitmap(bb, lastPfn);
    ExtendsTransitive(old(vmcore.records), rs, vmcore.records, offset, offset + 2 * len, offset, offset + 2 * len);
    done := bb.done;
  }

  // ---------------------------------------------------------------------
  // The pages
  // ---------------------------------------------------------------------

  /** Every page can be read back through its descriptor. */
  ghost predicate PagesDone(rs: seq<Record>, offset: nat, pages: seq<Page>, big: bool, codec: Codec) {
    forall i | 0 <= i < |pages| :: ReadPage(rs, offset, i, big, codec) == Some(pages[i].data)
  }

  /** The pages that were put are those that the iterator has seen, but for the one at
      hand. */
  ghost predicate InStep(w: PageWriter, iter: PageIterator, page: Option<Page>)
    reads w, iter
  {
    if page.None? then w.pages == AllPages(iter.blocks)
    else
      && iter.Valid() && iter.block.Some? && iter.Seen() == w.pages + [page.value]
      && |iter.Seen()| <= |AllPages(iter.blocks)|
  }

  /** One round of the loop in `write_dump_pages`. */
  method PutNext(w: PageWriter, iter: PageIterator, page: Page) returns (next: Option<Page>)
    requires w.Valid() && InStep(w, iter, Some(page)) && w.num == |AllPages(iter.blocks)|
    requires w.data.base + |w.data.all| + TARGET_PAGE_SIZE <= Range(8)
    modifies w, w.desc, w.data, w.vmcore, iter
    ensures w.Valid() && InStep(w, iter, next) && |w.pages| == old(|w.pages|) + 1 <= w.num
    ensures old(|w.data.all|) <= |w.data.all| <= old(|w.data.all|) + TARGET_PAGE_SIZE
    ensures Extends(old(w.vmcore.records), w.vmcore.records, w.desc.base, w.data.base + |w.data.all|)
  {
    SeenIsPage(iter, w.pages, page);
    w.Put(page);
    next := iter.Next();
  }

  /** The loop of `write_dump_pages`. */
  method PutPages(w: PageWriter, blocks: seq<GuestPhysBlock>)
    requires PageBlocks(blocks) && w.Valid() && w.pages == [] && w.num == |AllPages(blocks)|
    requires |w.data.all| == TARGET_PAGE_SIZE
    requires w.data.base + TARGET_PAGE_SIZE * (w.num + 1) <= Range(8)
    modifies w, w.desc, w.data, w.vmcore
    ensures w.Valid() && w.pages == AllPages(blocks)
    ensures |w.data.all| <= TARGET_PAGE_SIZE * (w.num + 1)
    ensures Extends(old(w.vmcore.records), w.vmcore.records, w.desc.base, w.data.base + |w.data.all|)
  {
    var iter := new PageIterator(blocks);
    var page := iter.Next();
    while page.Some?
      invariant fresh(iter) && iter.blocks == blocks && w.Valid() && InStep(w, iter, page)
      invariant |w.data.all| <= TARGET_PAGE_SIZE * (|w.pages| + 1) && |w.pages| <= w.num
      invariant Extends(old(w.vmcore.records), w.vmcore.records, w.desc.base, w.data.base + |w.data.all|)
      decreases w.num - |w.pages|
    {
      ghost var rs, n := w.vmcore.records, |w.data.all|;
      assert |w.pages| + 1 <= w.num;
      page := PutNext(w, iter, page.value);
      ExtendsTransitive(old(w.vmcore.records), rs, w.vmcore.records, w.desc.base, w.data.base + n, w.desc.base,
                        w.data.base + |w.data.all|);
    }
  }

  /** What the iterator gives is a whole page. */
  lemma SeenIsPage(iter: PageIterator, front: seq<Page>, p: Page)
    requires iter.Valid() && iter.block.Some? && iter.Seen() == front + [p]
    ensures |p.data| == TARGET_PAGE_SIZE
  {
    assert iter.Seen()[|front|] == p;
    PagesAreMemory(iter.blocks, iter.block.value, iter.j + 1, |front|);
  }

  /** `write_dump_pages`: every page can be read back. */
  method WriteDumpPages(vmcore: Vmcore, blocks: seq<GuestPhysBlock>, offset: nat, num: nat, big: bool, codec: Codec)
    requires PageBlocks(blocks) && GoodCodec(codec) && num == |AllPages(blocks)|
    requires EndOfPages(offset, num) <= Range(8)
    modifies vmcore
    ensures PagesDone(vmcore.records, offset, AllPages(blocks), big, codec)
    ensures Extends(old(vmcore.records), vmcore.records, offset, EndOfPages(offset, num))
  {
    var w := new PageWriter(vmcore, offset, num, big, codec);
    ghost var rs1 := vmcore.records;
    PutPages(w, blocks);
    ghost var rs2 := vmcore.records;
    ghost var ds, stream, pages := w.ds, w.data.all, w.pages;
    assert AllDescribed(ds, pages, w.data.base, stream, codec);
    w.Finish();
    forall i | 0 <= i < |pages|
      ensures ReadPage(vmcore.records, offset, i, big, codec) == Some(pages[i].data)
    {
      PagesReadable(vmcore.records, offset, ds, big, pages, w.data.base, stream, codec, i);
    }
    Extended3(old(vmcore.records), rs1, rs2, vmcore.records, offset, EndOfPages(offset, num));
  }

  /** The end of the page data at most. */
  function EndOfPages(offset: nat, num: nat): nat {
    offset + DESC_SIZE * num + TARGET_PAGE_SIZE * (num + 1)
  }

  lemma Extended3(a: seq<Record>, b: seq<Record>, c: seq<Record>, d: seq<Record>, lo: nat, hi: nat)
    requires Extends(a, b, lo, hi) && Extends(b, c, lo, hi) && Extends(c, d, lo, hi)
    ensures Extends(a, d, lo, hi)
  {
    ExtendsTransitive(a, b, c, lo, hi, lo, hi);
    ExtendsTransitive(a, c, d, lo, hi, lo, hi);
  }

  // ---------------------------------------------------------------------
  // The whole file
  // ---------------------------------------------------------------------

  /** The page numbers in the list are the guest's pages. */
  lemma PfnsAreGuestPages(blocks: seq<GuestPhysBlock>, p: nat)
    requires PageBlocks(blocks)
    ensures p in Pfns(AllPages(blocks)) <==> GuestPage(blocks, p)
  {
    var pages := AllPages(blocks);
    if p in Pfns(pages) {
      var k :| 0 <= k < |pages| && pages[k].pfn == p;
      PagesAreMemory(blocks, |blocks|, 0, k);
      var i :| 0 <= i < |blocks| && BlockHas(blocks[i], p * TARGET_PAGE_SIZE, pages[k].data);
      assert InBlock(blocks[i], p * TARGET_PAGE_SIZE);
    }
    if GuestPage(blocks, p) {
      GuestPageListed(blocks, p);
    }
  }

  /** A bitmap as a reader finds it. */
  lemma BitReadable(rs: seq<Record>, offset: nat, done: seq<byte>, pages: set<nat>, p: nat)
    requires Puts(rs, offset, done) && BitsAre(done, pages) && p < 8 * |done|
    ensures ReadBit(rs, offset, p) <==> p in pages
  {
    assert Bit(done, p) <==> p in pages;
    assert At(rs, offset + p / 8) == done[p / 8];
  }

  /** The headers are in place. */
  ghost predicate HeadersDone(rs: seq<Record>, dh: seq<byte>, kh: seq<byte>, note: seq<byte>) {
    Puts(rs, 0, dh) && Puts(rs, TARGET_PAGE_SIZE, kh) && Puts(rs, TARGET_PAGE_SIZE + |kh|, note)
  }

  /** The writing part of `create_header32` and `create_header64`. */
  method WriteDumpHeader(vmcore: Vmcore, dh: seq<byte>, kh: seq<byte>, note: seq<byte>)
    requires |dh| <= TARGET_PAGE_SIZE
    modifies vmcore
    ensures HeadersDone(vmcore.records, dh, kh, note)
  {
    ghost var rs0 := vmcore.records;
    var r1, r2, r3 := Record(0, dh), Record(TARGET_PAGE_SIZE, kh), Record(TARGET_PAGE_SIZE + |kh|, note);
    vmcore.WriteBuffer(0, dh);
    PutsMore(rs0, r1, 0, []);
    ghost var rs1 := vmcore.records;
    vmcore.WriteBuffer(TARGET_PAGE_SIZE, kh);
    PutsStay(rs1, r2, 0, dh);
    PutsMore(rs1, r2, TARGET_PAGE_SIZE, []);
    ghost var rs2 := vmcore.records;
    vmcore.WriteBuffer(TARGET_PAGE_SIZE + |kh|, note);
    PutsStay(rs2, r3, 0, dh);
    PutsStay(rs2, r3, TARGET_PAGE_SIZE, kh);
    PutsMore(rs2, r3, TARGET_PAGE_SIZE + |kh|, []);
    assert [] + dh == dh && [] + kh == kh && [] + note == note;
  }

  lemma HeadersStay(rs: seq<Record>, rs': seq<Record>, lo: nat, hi: nat, dh: seq<byte>, kh: seq<byte>, note: seq<byte>)
    requires HeadersDone(rs, dh, kh, note) && |dh| <= TARGET_PAGE_SIZE
    requires Extends(rs, rs', lo, hi) && TARGET_PAGE_SIZE + |kh| + |note| <= lo
    ensures HeadersDone(rs', dh, kh, note)
  {
    PutsUndisturbed(rs, rs', lo, hi, 0, dh);
    PutsUndisturbed(rs, rs', lo, hi, TARGET_PAGE_SIZE, kh);
    PutsUndisturbed(rs, rs', lo, hi, TARGET_PAGE_SIZE + |kh|, note);
  }

  lemma BitmapsStay(rs: seq<Record>, rs': seq<Record>, lo: nat, hi: nat, offset: nat, len: nat, done: seq<byte>,
                    pages: set<nat>)
    requires BitmapsDone(rs, offset, len, done, pages) && Extends(rs, rs', lo, hi) && offset + 2 * len <= lo
    ensures BitmapsDone(rs', offset, len, done, pages)
  {
    PutsUndisturbed(rs, rs', lo, hi, offset, done);
    PutsUndisturbed(rs, rs', lo, hi, offset + len, done);
  }

  /** What a reader finds in a complete file: the headers, the bit of every page in
      both bitmaps, and the contents of every page. */
  ghost predicate Readable(rs: seq<Record>, blocks: seq<GuestPhysBlock>, offset: nat, len: nat, offsetPage: nat,
                           big: bool, codec: Codec)
    requires PageBlocks(blocks)
  {
    && (forall p: nat | p < 8 * len :: ReadBit(rs, offset, p) == GuestPage(blocks, p))
    && (forall p: nat | p < 8 * len :: ReadBit(rs, offset + len, p) == GuestPage(blocks, p))
    && PagesDone(rs, offsetPage, AllPages(blocks), big, codec)
  }

  lemma BitmapsReadable(rs: seq<Record>, blocks: seq<GuestPhysBlock>, offset: nat, len: nat, done: seq<byte>, p: nat)
    requires PageBlocks(blocks) && BitmapsDone(rs, offset, len, done, Pfns(AllPages(blocks))) && p < 8 * len
    ensures ReadBit(rs, offset, p) == GuestPage(blocks, p) && ReadBit(rs, offset + len, p) == GuestPage(blocks, p)
  {
    PfnsAreGuestPages(blocks, p);
    BitReadable(rs, offset, done, Pfns(AllPages(blocks)), p);
    BitReadable(rs, offset + len, done, Pfns(AllPages(blocks)), p);
  }

  /** The headers and bitmaps of a file in which the pages come after the bitmaps. */
  lemma FrontStays(rs1: seq<Record>, rs2: seq<Record>, rs: seq<Record>, blocks: seq<GuestPhysBlock>, offset: nat,
                   len: nat, offsetPage: nat, end: nat, done: seq<byte>, dh: seq<byte>, kh: seq<byte>, note: seq<byte>)
    requires PageBlocks(blocks) && HeadersDone(rs1, dh, kh, note) && |dh| <= TARGET_PAGE_SIZE
    requires BitmapsDone(rs2, offset, len, done, Pfns(AllPages(blocks)))
    requires Extends(rs1, rs2, offset, offset + 2 * len) && Extends(rs2, rs, offsetPage, end)
    requires TARGET_PAGE_SIZE + |kh| + |note| <= offset && offset + 2 * len == offsetPage
    ensures HeadersDone(rs, dh, kh, note)
    ensures forall p: nat | p < 8 * len :: ReadBit(rs, offset, p) == GuestPage(blocks, p)
    ensures forall p: nat | p < 8 * len :: ReadBit(rs, offset + len, p) == GuestPage(blocks, p)
  {
    HeadersStay(rs1, rs2, offset, offset + 2 * len, dh, kh, note);
    HeadersStay(rs2, rs, offsetPage, end, dh, kh, note);
    BitmapsStay(rs2, rs, offsetPage, end, offset, len, done, Pfns(AllPages(blocks)));
    forall p: nat | p < 8 * len
      ensures ReadBit(rs, offset, p) == GuestPage(blocks, p) && ReadBit(rs, offset + len, p) == GuestPage(blocks, p)
    {
      BitmapsReadable(rs, blocks, offset, len, done, p);
    }
  }

  /** `create_kdump_vmcore`: the pages can be read in any case, the headers and the
      bitmaps if the bitmaps end below 4 GiB. */
  method CreateKdumpVmcore(vmcore: Vmcore, blocks: seq<GuestPhysBlock>, dh: seq<byte>, kh: seq<byte>, note: seq<byte>,
                           big: bool, codec: Codec)
    returns (offset: nat, len: nat, offsetPage: nat)
    requires PageBlocks(blocks) && GoodCodec(codec) && |dh| <= TARGET_PAGE_SIZE
    requires EndOfPages(UINT32, |AllPages(blocks)|) <= Range(8)
    modifies vmcore
    ensures len == LenBitmap(MaxMapnr(blocks)) && PagesDone(vmcore.records, offsetPage, AllPages(blocks), big, codec)
    ensures EndOfBitmaps(|kh|, |note|, len) < UINT32 ==>
              && HeadersDone(vmcore.records, dh, kh, note)
              && Readable(vmcore.records, blocks, offset, len, offsetPage, big, codec)
  {
    len := LenBitmap(MaxMapnr(blocks));
    LayoutIff(|kh|, |note|, MaxMapnr(blocks));
    WriteDumpHeader(vmcore, dh, kh, note);
    offset := OffsetBitmap(|kh|, |note|);
    offsetPage := OffsetPage(|kh|, |note|, len);
    ghost var rs1 := vmcore.records;
    var num, done := WriteDumpBitmap(vmcore, blocks, offset, len);
    ghost var rs2 := vmcore.records;
    WriteDumpPages(vmcore, blocks, offsetPage, num, big, codec);
    if EndOfBitmaps(|kh|, |note|, len) < UINT32 {
      FrontStays(rs1, rs2, vmcore.records, blocks, offset, len, offsetPage, EndOfPages(offsetPage, num), done,
                 dh, kh, note);
    }
  }
}
