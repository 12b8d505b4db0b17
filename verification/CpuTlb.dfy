/** The software TLB.  It holds single pages only, so that the region covered by
    larger pages is remembered as one address and mask; flushing any address in
    that region flushes everything. */
module CpuTlb {
  import opened Common
  import opened Target

  type ulong = bv64

  const TLB_INVALID: ulong := 0x08
  const TLB_NOTDIRTY: ulong := 0x10
  const TLB_MMIO: ulong := 0x20
  const NONE: ulong := 0xffff_ffff_ffff_ffff
  const NB_MMU_MODES: nat := 2
  const CPU_TLB_SIZE: nat := 256

  // ---------------------------------------------------------------------
  // Pages and masks
  // ---------------------------------------------------------------------

  /** A power of two, at least the page size. */
  predicate GoodSize(size: ulong) {
    size & (size - 1) == 0 && size >= PAGE_SIZE
  }

  function SizeMask(size: ulong): ulong {
    !(size - 1)
  }

  function PageOf(a: ulong): ulong {
    a & PAGE_MASK
  }

  predicate Aligned(a: ulong) {
    a & PAGE_MASK == a
  }

  /** Address `a` is in the page of size `size` around `v`. */
  predicate Within(v: ulong, size: ulong, a: ulong) {
    a & SizeMask(size) == v & SizeMask(size)
  }

  /** Ones from some bit on up. */
  predicate HighMask(m: ulong) {
    (m << 1) & m == m << 1
  }

  predicate Coarser(m: ulong, m': ulong) {
    m & m' == m
  }

  lemma SizeMaskIsHigh(size: ulong)
    requires GoodSize(size)
    ensures HighMask(SizeMask(size))
  {
  }

  lemma AndIsHigh(m: ulong, m': ulong)
    requires HighMask(m) && HighMask(m')
    ensures HighMask(m & m') && Coarser(m & m', m) && Coarser(m & m', m')
  {
  }

  lemma ShiftIsCoarser(m: ulong, m0: ulong)
    requires HighMask(m) && m != 0 && Coarser(m, m0)
    ensures m << 1 < m && HighMask(m << 1) && Coarser(m << 1, m0)
  {
  }

  /** The flush region of `addr` and `mask` covers the page around `v`. */
  predicate Covered(v: ulong, size: ulong, addr: ulong, mask: ulong) {
    Coarser(mask, SizeMask(size)) && v & mask == addr
  }

  lemma CoveredAddresses(v: ulong, size: ulong, addr: ulong, mask: ulong, a: ulong)
    requires Covered(v, size, addr, mask) && Within(v, size, a)
    ensures a & mask == addr
  {
  }

  lemma CoveredWider(v: ulong, size: ulong, addr: ulong, mask: ulong, mask': ulong)
    requires Covered(v, size, addr, mask) && Coarser(mask', mask)
    ensures Covered(v, size, addr & mask', mask')
  {
  }

  lemma CoveredNew(v: ulong, size: ulong, addr: ulong, mask: ulong)
    requires Coarser(mask, SizeMask(size)) && (addr ^ v) & mask == 0
    ensures Covered(v, size, addr & mask, mask)
  {
  }

  lemma RegionIsNotNone(addr: ulong, mask: ulong, size: ulong)
    requires GoodSize(size) && Coarser(mask, SizeMask(size))
    ensures addr & mask != NONE
  {
  }

  lemma NonZeroMask(x: ulong, mask: ulong)
    requires x & mask != 0
    ensures mask != 0
  {
  }

  function IndexBits(a: ulong): ulong {
    (a >> 10) & 0xff
  }

  function Index(a: ulong): (i: nat)
    ensures i < CPU_TLB_SIZE
  {
    IndexBits(a) as nat
  }

  /** The index is made of the eight bits above the offset in the page, so that 256 pages
      in a row have their own entries. */
  lemma IndexBitsMeaning(a: ulong, b: ulong)
    ensures IndexBits(a) == IndexBits(b) <==> (a ^ b) & 0x3_fc00 == 0
  {
  }

  lemma SamePageSameIndex(a: ulong, b: ulong)
    requires PageOf(a) == PageOf(b)
    ensures Index(a) == Index(b)
  {
    assert (a >> 10) & 0xff == (PageOf(a) >> 10) & 0xff;
    assert (b >> 10) & 0xff == (PageOf(b) >> 10) & 0xff;
  }

  // ---------------------------------------------------------------------
  // Entries
  // ---------------------------------------------------------------------

  datatype CPUTLBEntry = CPUTLBEntry(addrRead: ulong, addrWrite: ulong, addrCode: ulong)

  const EMPTY := CPUTLBEntry(NONE, NONE, NONE)

  /** The part of a tag that is compared. */
  function Tag(t: ulong): ulong {
    t & (PAGE_MASK | TLB_INVALID)
  }

  /** The test that translated code and the slow path make before using an entry. */
  predicate Match(t: ulong, page: ulong) {
    page == Tag(t)
  }

  predicate Hits(e: CPUTLBEntry, page: ulong) {
    Match(e.addrRead, page) || Match(e.addrWrite, page) || Match(e.addrCode, page)
  }

  /** The entry is for the page at `v`, as far as it is in use. */
  predicate EntryFor(e: CPUTLBEntry, v: ulong) {
    && (e.addrRead == NONE || Tag(e.addrRead) == v)
    && (e.addrWrite == NONE || Tag(e.addrWrite) == v)
    && (e.addrCode == NONE || Tag(e.addrCode) == v)
  }

  lemma NoneMatches(a: ulong)
    ensures !Match(NONE, PageOf(a))
  {
  }

  lemma EmptyHitsNothing(a: ulong)
    ensures !Hits(EMPTY, PageOf(a))
  {
    NoneMatches(a);
  }

  /** Page bits and flag bits do not get into each other's way. */
  lemma TagOfFlags(v: ulong, flags: ulong)
    requires Aligned(v) && flags & (PAGE_MASK | TLB_INVALID) == 0
    ensures Tag(v | flags) == v && PageOf(v) == v
  {
  }

  lemma EntryHitsItsPage(e: CPUTLBEntry, v: ulong, a: ulong)
    requires EntryFor(e, v) && Hits(e, PageOf(a))
    ensures PageOf(a) == v
  {
    NoneMatches(a);
  }

  // ---------------------------------------------------------------------
  // The region of larger pages
  // ---------------------------------------------------------------------

  /** A page as the target's MMU knows it. */
  datatype Page = Page(vaddr: ulong, size: ulong)

  predicate InPage(p: Page, a: ulong) {
    Within(p.vaddr, p.size, a)
  }

  /** A page that is not of the smallest size lies in the flush region. */
  ghost predicate Tracked(p: Page, addr: ulong, mask: ulong) {
    && GoodSize(p.size) && Aligned(p.vaddr)
    && (p.size != PAGE_SIZE ==> addr != NONE && Covered(p.vaddr, p.size, addr, mask))
  }

  ghost predicate AllTracked(pages: set<Page>, addr: ulong, mask: ulong) {
    forall p | p in pages :: Tracked(p, addr, mask)
  }

  /** The region `addr`, `mask` is the page itself if there was none, and otherwise what the
      old region becomes under a mask that no mask `m` that joins it with the page is finer
      than. */
  ghost predicate Smallest(addr0: ulong, mask0: ulong, v: ulong, size: ulong, addr: ulong, mask: ulong, m: ulong) {
    SmallestVerdict(addr0, mask0, v, size, addr, mask, m) == Holds
  }

  ghost function SmallestVerdict(addr0: ulong, mask0: ulong, v: ulong, size: ulong, addr: ulong, mask: ulong, m: ulong)
    : Verdict
  {
    if
      if addr0 == NONE then mask == SizeMask(size) && addr == v & mask
      else addr == addr0 & mask && (Candidate(m, SizeMask(size), mask0, addr0 ^ v) ==> Coarser(m, mask))
    then Holds else Broken
  }

  /** The first larger page makes the region. */
  method FirstRegion(ghost pages: set<Page>, ghost mask0: ulong, v: ulong, size: ulong, ghost m: ulong)
    returns (addr: ulong, mask: ulong)
    requires AllTracked(pages, NONE, mask0) && GoodSize(size)
    ensures Smallest(NONE, mask0, v, size, addr, mask, m)
    ensures AllTracked(pages, addr, mask) && addr != NONE && HighMask(mask) && Covered(v, size, addr, mask)
  {
    mask := SizeMask(size);
    addr := v & mask;
    FirstCovered(v, size, mask);
    forall p | p in pages
      ensures Tracked(p, addr, mask)
    {
      assert Tracked(p, NONE, mask0);
    }
  }

  /** A further page widens the region. */
  method ExtendRegion(ghost pages: set<Page>, addr0: ulong, mask0: ulong, v: ulong, size: ulong, ghost m: ulong)
    returns (addr: ulong, mask: ulong)
    requires AllTracked(pages, addr0, mask0) && addr0 != NONE && HighMask(mask0) && GoodSize(size)
    ensures Smallest(addr0, mask0, v, size, addr, mask, m)
    ensures AllTracked(pages, addr, mask) && addr != NONE && HighMask(mask) && Covered(v, size, addr, mask)
  {
    SizeMaskIsHigh(size);
    mask := Widen(addr0 ^ v, SizeMask(size), mask0, m);
    addr := addr0 & mask;
    WiderRegion(pages, addr0, mask0, v, size, mask, addr);
    ExtendedIsSmallest(addr0, mask0, v, size, addr, mask, m);
  }

  lemma ExtendedIsSmallest(addr0: ulong, mask0: ulong, v: ulong, size: ulong, addr: ulong, mask: ulong, m: ulong)
    requires addr0 != NONE && addr == addr0 & mask && Between(mask, SizeMask(size), mask0, addr0 ^ v, m)
    ensures Smallest(addr0, mask0, v, size, addr, mask, m)
  {
  }

  lemma FirstCovered(v: ulong, size: ulong, mask: ulong)
    requires GoodSize(size) && mask == SizeMask(size)
    ensures Covered(v, size, v & mask, mask) && v & mask != NONE && HighMask(mask)
  {
  }

  /** A coarser mask keeps every page in the region. */
  lemma WiderRegion(pages: set<Page>, addr: ulong, mask: ulong, v: ulong, size: ulong, mask': ulong, addr': ulong)
    requires AllTracked(pages, addr, mask) && addr != NONE && GoodSize(size)
    requires Coarser(mask', mask) && Coarser(mask', SizeMask(size)) && (addr ^ v) & mask' == 0 && addr' == addr & mask'
    ensures AllTracked(pages, addr', mask') && addr' != NONE && Covered(v, size, addr', mask')
  {
    CoveredNew(v, size, addr, mask');
    RegionIsNotNone(addr, mask', size);
    forall p | p in pages
      ensures Tracked(p, addr', mask')
    {
      StaysTracked(p, addr, mask, mask', addr');
    }
  }

  lemma StaysTracked(p: Page, addr: ulong, mask: ulong, mask': ulong, addr': ulong)
    requires Tracked(p, addr, mask) && Coarser(mask', mask) && addr' == addr & mask' && addr' != NONE
    ensures Tracked(p, addr', mask')
  {
    if p.size != PAGE_SIZE {
      CoveredWider(p.vaddr, p.size, addr, mask, mask');
    }
  }

  /** A mask under which the new page and the old region are the same. */
  predicate Candidate(m: ulong, m0: ulong, m1: ulong, x: ulong) {
    HighMask(m) && Coarser(m, m0) && Coarser(m, m1) && x & m == 0
  }

  lemma CoarserThanBoth(m: ulong, m0: ulong, m1: ulong)
    requires Coarser(m, m0) && Coarser(m, m1)
    ensures Coarser(m, m0 & m1)
  {
  }

  lemma CoarserStill(m: ulong, mask: ulong, x: ulong)
    requires HighMask(m) && HighMask(mask) && Coarser(m, mask) && x & m == 0 && x & mask != 0
    ensures Coarser(m, mask << 1)
  {
  }

  /** The mask is coarser than both, and no coarser than the candidate `m`. */
  ghost predicate Between(mask: ulong, m0: ulong, m1: ulong, x: ulong, m: ulong) {
    && HighMask(mask) && Coarser(mask, m0) && Coarser(mask, m1)
    && (Candidate(m, m0, m1, x) ==> Coarser(m, mask))
  }

  lemma WidenStart(x: ulong, m0: ulong, m1: ulong, m: ulong)
    requires HighMask(m0) && HighMask(m1)
    ensures Between(m0 & m1, m0, m1, x, m)
  {
    AndIsHigh(m0, m1);
    if Candidate(m, m0, m1, x) {
      CoarserThanBoth(m, m0, m1);
    }
  }

  lemma WidenStep(mask: ulong, m0: ulong, m1: ulong, x: ulong, m: ulong, mask': ulong)
    requires Between(mask, m0, m1, x, m) && x & mask != 0 && mask' == mask << 1
    ensures Between(mask', m0, m1, x, m) && mask' < mask
  {
    NonZeroMask(x, mask);
    ShiftIsCoarser(mask, m0);
    ShiftIsCoarser(mask, m1);
    if Candidate(m, m0, m1, x) {
      CoarserStill(m, mask, x);
    }
  }

  /** The loop of `tlb_add_large_page`: the finest of the coarser masks under which
      nothing is left of the difference `x`, finer than any other candidate `m`. */
  method Widen(x: ulong, m0: ulong, m1: ulong, ghost m: ulong) returns (mask: ulong)
    requires HighMask(m0) && HighMask(m1)
    ensures Between(mask, m0, m1, x, m) && x & mask == 0
  {
    WidenStart(x, m0, m1, m);
    mask := m0 & m1;
    while x & mask != 0
      invariant Between(mask, m0, m1, x, m)
      decreases mask
    {
      var mask' := mask << 1;
      WidenStep(mask, m0, m1, x, m, mask');
      mask := mask';
    }
  }

  // ---------------------------------------------------------------------
  // The entries of one MMU mode
  // ---------------------------------------------------------------------

  type Row = r: seq<CPUTLBEntry> | |r| == CPU_TLB_SIZE witness seq(CPU_TLB_SIZE, _ => EMPTY)

  function EmptyRow(): Row {
    seq(CPU_TLB_SIZE, _ => EMPTY)
  }

  lemma EmptyRowMisses(a: ulong)
    ensures !Hit(EmptyRow(), a)
  {
    EmptyHitsNothing(a);
  }

  /** An address that is translated without asking the MMU. */
  predicate Hit(row: Row, a: ulong) {
    Hits(row[Index(a)], PageOf(a))
  }

  /** An entry in use is in its place, for a page that was entered. */
  ghost predicate Placed(pages: set<Page>, e: CPUTLBEntry, i: nat) {
    e == EMPTY || exists p :: p in pages && EntryFor(e, p.vaddr) && Index(p.vaddr) == i
  }

  ghost predicate GoodRow(pages: set<Page>, row: Row) {
    forall i | 0 <= i < |row| :: Placed(pages, row[i], i)
  }

  /** Only pages that were entered are translated. */
  lemma HitIsEntered(pages: set<Page>, row: Row, a: ulong)
    requires GoodRow(pages, row) && Hit(row, a)
    ensures exists p :: p in pages && p.vaddr == PageOf(a)
  {
    var e := row[Index(a)];
    EmptyHitsNothing(a);
    assert Placed(pages, e, Index(a));
    var p :| p in pages && EntryFor(e, p.vaddr) && Index(p.vaddr) == Index(a);
    EntryHitsItsPage(e, p.vaddr, a);
  }

  /** `tlb_flush_entry`. */
  function FlushEntry(e: CPUTLBEntry, page: ulong): CPUTLBEntry {
    if Hits(e, page) then EMPTY else e
  }

  /** One round of the loop in `tlb_flush_page`. */
  function FlushRow(row: Row, addr: ulong): Row {
    row[Index(addr) := FlushEntry(row[Index(addr)], PageOf(addr))]
  }

  lemma FlushRowGood(pages: set<Page>, row: Row, addr: ulong)
    requires GoodRow(pages, row)
    ensures GoodRow(pages, FlushRow(row, addr))
  {
    var row' := FlushRow(row, addr);
    forall i | 0 <= i < |row'|
      ensures Placed(pages, row'[i], i)
    {
      assert Placed(pages, row[i], i);
    }
  }

  /** After the flush the page is gone. */
  lemma FlushRowGone(row: Row, addr: ulong, b: ulong)
    requires PageOf(b) == PageOf(addr)
    ensures !Hit(FlushRow(row, addr), b)
  {
    SamePageSameIndex(b, addr);
    EmptyHitsNothing(b);
  }

  /** An entry is for one page only. */
  lemma EntryHitsOnePage(e: CPUTLBEntry, v: ulong, a: ulong, b: ulong)
    requires EntryFor(e, v) && Hits(e, PageOf(a)) && PageOf(b) != PageOf(a)
    ensures !Hits(e, PageOf(b))
  {
    EntryHitsItsPage(e, v, a);
    if Hits(e, PageOf(b)) {
      EntryHitsItsPage(e, v, b);
    }
  }

  lemma PlacedHitsOnePage(pages: set<Page>, e: CPUTLBEntry, i: nat, a: ulong, b: ulong)
    requires Placed(pages, e, i) && Hits(e, PageOf(a)) && PageOf(b) != PageOf(a)
    ensures !Hits(e, PageOf(b))
  {
    EmptyHitsNothing(a);
    var p :| p in pages && EntryFor(e, p.vaddr) && Index(p.vaddr) == i;
    EntryHitsOnePage(e, p.vaddr, a, b);
  }

  /** Entry `j` still hits page `q` after entry `i` has been flushed for page `p`. */
  lemma FlushedElsewhere(row: Row, i: nat, p: ulong, j: nat, q: ulong)
    requires i < |row| && j < |row| && !Hits(EMPTY, q) && (Hits(row[i], p) ==> !Hits(row[i], q))
    ensures Hits(row[i := FlushEntry(row[i], p)][j], q) == Hits(row[j], q)
  {
  }

  lemma RowHitsOnePage(pages: set<Page>, row: Row, i: nat, a: ulong, b: ulong)
    requires GoodRow(pages, row) && i < |row| && PageOf(b) != PageOf(a)
    ensures !Hits(EMPTY, PageOf(b)) && (Hits(row[i], PageOf(a)) ==> !Hits(row[i], PageOf(b)))
  {
    assert Placed(pages, row[i], i);
    EmptyHitsNothing(b);
    if Hits(row[i], PageOf(a)) {
      PlacedHitsOnePage(pages, row[i], i, a, b);
    }
  }

  /** Other pages are as they were. */
  lemma FlushRowKeeps(pages: set<Page>, row: Row, addr: ulong, b: ulong)
    requires GoodRow(pages, row) && PageOf(b) != PageOf(addr)
    ensures Hit(FlushRow(row, addr), b) == Hit(row, b)
  {
    var i, p, j, q := Index(addr), PageOf(addr), Index(b), PageOf(b);
    RowHitsOnePage(pages, row, i, addr, b);
    FlushedElsewhere(row, i, p, j, q);
  }

  /** And so are the entries that translate them. */
  lemma FlushRowEntries(pages: set<Page>, row: Row, addr: ulong, b: ulong)
    requires GoodRow(pages, row) && PageOf(b) != PageOf(addr) && Hit(row, b)
    ensures FlushRow(row, addr)[Index(b)] == row[Index(b)]
  {
    RowHitsOnePage(pages, row, Index(addr), addr, b);
  }

  // ---------------------------------------------------------------------
  // Entering a page
  // ---------------------------------------------------------------------

  datatype Prot = Prot(read: bool, write: bool, exec: bool)

  /** What the memory section behind a page is. */
  datatype Backing = Backing(ram: bool, romd: bool, readonly: bool, clean: bool, watched: bool)

  predicate OnlyFlags(flags: ulong) {
    flags & (PAGE_MASK | TLB_INVALID) == 0
  }

  function CodeFlags(b: Backing): (flags: ulong)
    ensures OnlyFlags(flags)
  {
    if !b.ram && !b.romd then TLB_MMIO else 0
  }

  function ReadFlags(b: Backing): (flags: ulong)
    ensures OnlyFlags(flags)
  {
    if (!b.ram && !b.romd) || b.watched then TLB_MMIO else 0
  }

  function WriteFlags(b: Backing): (flags: ulong)
    ensures OnlyFlags(flags)
  {
    if (b.ram && b.readonly) || b.romd then TLB_MMIO
    else if b.ram && b.clean then ReadFlags(b) | TLB_NOTDIRTY
    else ReadFlags(b)
  }

  function TagIf(allowed: bool, v: ulong, flags: ulong): ulong {
    if allowed then v | flags else NONE
  }

  /** The entry that `tlb_set_page` makes. */
  function NewEntry(v: ulong, prot: Prot, b: Backing): CPUTLBEntry {
    CPUTLBEntry(TagIf(prot.read, v, ReadFlags(b)), TagIf(prot.write, v, WriteFlags(b)),
                TagIf(prot.exec, v, CodeFlags(b)))
  }

  /** A tag matches just the addresses of its page, if the access is allowed. */
  lemma TagIfMatches(allowed: bool, v: ulong, flags: ulong, a: ulong)
    requires Aligned(v) && OnlyFlags(flags)
    ensures Match(TagIf(allowed, v, flags), PageOf(a)) <==> allowed && PageOf(a) == v
    ensures TagIf(allowed, v, flags) == NONE || Tag(TagIf(allowed, v, flags)) == v
  {
    NoneMatches(a);
    TagOfFlags(v, flags);
  }

  /** The new entry allows just the accesses that the page allows. */
  lemma NewEntryMatches(v: ulong, prot: Prot, b: Backing, a: ulong)
    requires Aligned(v)
    ensures var e := NewEntry(v, prot, b);
            && (Match(e.addrRead, PageOf(a)) <==> prot.read && PageOf(a) == v)
            && (Match(e.addrWrite, PageOf(a)) <==> prot.write && PageOf(a) == v)
            && (Match(e.addrCode, PageOf(a)) <==> prot.exec && PageOf(a) == v)
  {
    TagIfMatches(prot.read, v, ReadFlags(b), a);
    TagIfMatches(prot.write, v, WriteFlags(b), a);
    TagIfMatches(prot.exec, v, CodeFlags(b), a);
  }

  /** An access with this tag goes to the memory of the host directly; a write may have to
      be recorded first. */
  predicate Direct(t: ulong) {
    t & TLB_MMIO == 0
  }

  predicate Recorded(t: ulong) {
    t & TLB_NOTDIRTY != 0
  }

  lemma FlagBits(v: ulong, flags: ulong)
    requires Aligned(v)
    ensures Direct(v | flags) == Direct(flags) && Recorded(v | flags) == Recorded(flags)
  {
  }

  lemma TagIfFlags(allowed: bool, v: ulong, flags: ulong)
    requires Aligned(v) && allowed
    ensures Direct(TagIf(allowed, v, flags)) == Direct(flags) && Recorded(TagIf(allowed, v, flags)) == Recorded(flags)
  {
    FlagBits(v, flags);
  }

  lemma NoFlags()
    ensures Direct(0) && !Recorded(0) && !Direct(TLB_MMIO) && !Recorded(TLB_MMIO)
  {
  }

  lemma WithNotDirty(flags: ulong)
    ensures Direct(flags | TLB_NOTDIRTY) == Direct(flags) && Recorded(flags | TLB_NOTDIRTY)
  {
  }

  lemma ReadFlagsMeaning(b: Backing)
    ensures Direct(ReadFlags(b)) <==> (b.ram || b.romd) && !b.watched
    ensures !Recorded(ReadFlags(b))
  {
    NoFlags();
  }

  lemma CodeFlagsMeaning(b: Backing)
    ensures Direct(CodeFlags(b)) <==> b.ram || b.romd
    ensures !Recorded(CodeFlags(b))
  {
    NoFlags();
  }

  lemma WriteFlagsMeaning(b: Backing)
    ensures Direct(WriteFlags(b)) <==> b.ram && !b.readonly && !b.romd && !b.watched
    ensures Recorded(WriteFlags(b)) <==> b.ram && !b.readonly && !b.romd && b.clean
  {
    NoFlags();
    ReadFlagsMeaning(b);
    WithNotDirty(ReadFlags(b));
  }

  /** Which accesses to a new page go to memory: reads of RAM and ROM, unless a watchpoint
      is set. */
  lemma NewReadTag(v: ulong, prot: Prot, b: Backing)
    requires Aligned(v) && prot.read
    ensures var t := NewEntry(v, prot, b).addrRead;
            (Direct(t) <==> (b.ram || b.romd) && !b.watched) && !Recorded(t)
  {
    ReadFlagsMeaning(b);
    TagIfFlags(prot.read, v, ReadFlags(b));
  }

  /** Writes to RAM that is not read-only; those to clean RAM are recorded. */
  lemma NewWriteTag(v: ulong, prot: Prot, b: Backing)
    requires Aligned(v) && prot.write
    ensures var t := NewEntry(v, prot, b).addrWrite;
            && (Direct(t) <==> b.ram && !b.readonly && !b.romd && !b.watched)
            && (Recorded(t) <==> b.ram && !b.readonly && !b.romd && b.clean)
  {
    WriteFlagsMeaning(b);
    TagIfFlags(prot.write, v, WriteFlags(b));
  }

  /** Instructions are fetched from RAM and ROM. */
  lemma NewCodeTag(v: ulong, prot: Prot, b: Backing)
    requires Aligned(v) && prot.exec
    ensures var t := NewEntry(v, prot, b).addrCode; (Direct(t) <==> b.ram || b.romd) && !Recorded(t)
  {
    CodeFlagsMeaning(b);
    TagIfFlags(prot.exec, v, CodeFlags(b));
  }

  lemma NewEntryFor(v: ulong, prot: Prot, b: Backing)
    requires Aligned(v)
    ensures EntryFor(NewEntry(v, prot, b), v)
  {
    TagIfMatches(prot.read, v, ReadFlags(b), v);
    TagIfMatches(prot.write, v, WriteFlags(b), v);
    TagIfMatches(prot.exec, v, CodeFlags(b), v);
  }

  lemma SetRowGood(pages: set<Page>, row: Row, p: Page, prot: Prot, b: Backing)
    requires GoodRow(pages, row) && Aligned(p.vaddr)
    ensures GoodRow(pages + {p}, row[Index(p.vaddr) := NewEntry(p.vaddr, prot, b)])
  {
    NewEntryFor(p.vaddr, prot, b);
    MorePages(pages, row, p);
    PutEntry(pages + {p}, row, p, NewEntry(p.vaddr, prot, b));
  }

  lemma MorePages(pages: set<Page>, row: Row, p: Page)
    requires GoodRow(pages, row)
    ensures GoodRow(pages + {p}, row)
  {
    forall i | 0 <= i < |row|
      ensures Placed(pages + {p}, row[i], i)
    {
      assert Placed(pages, row[i], i);
    }
  }

  lemma PutEntry(pages: set<Page>, row: Row, p: Page, e: CPUTLBEntry)
    requires GoodRow(pages, row) && p in pages && EntryFor(e, p.vaddr)
    ensures GoodRow(pages, row[Index(p.vaddr) := e])
  {
    var row' := row[Index(p.vaddr) := e];
    forall i | 0 <= i < |row'|
      ensures Placed(pages, row'[i], i)
    {
      assert Placed(pages, row[i], i);
    }
  }

  /** `b` is on the same entry as `a`, or both are in a page that was entered. */
  ghost predicate Related(pages: set<Page>, a: ulong, b: ulong) {
    PageOf(b) == PageOf(a) || exists p :: p in pages && InPage(p, a) && InPage(p, b)
  }

  /** Outside of the flush region, pages have the smallest size. */
  lemma OutsideIsSmall(p: Page, addr: ulong, mask: ulong, a: ulong)
    requires Tracked(p, addr, mask) && InPage(p, a) && a & mask != addr
    ensures p.size == PAGE_SIZE
  {
    if p.size != PAGE_SIZE {
      CoveredAddresses(p.vaddr, p.size, addr, mask, a);
    }
  }

  lemma BothInSmallPage(v: ulong, size: ulong, a: ulong, b: ulong)
    requires Aligned(v) && size == PAGE_SIZE && Within(v, size, a) && Within(v, size, b)
    ensures PageOf(b) == PageOf(a)
  {
  }

  lemma SharedPage(p: Page, addr: ulong, mask: ulong, a: ulong, b: ulong)
    requires Tracked(p, addr, mask) && InPage(p, a) && InPage(p, b) && a & mask != addr
    ensures PageOf(b) == PageOf(a)
  {
    OutsideIsSmall(p, addr, mask, a);
    BothInSmallPage(p.vaddr, p.size, a, b);
  }

  lemma RelatedIsSame(pages: set<Page>, addr: ulong, mask: ulong, a: ulong, b: ulong)
    requires AllTracked(pages, addr, mask) && a & mask != addr && Related(pages, a, b)
    ensures PageOf(b) == PageOf(a)
  {
    if p :| p in pages && InPage(p, a) && InPage(p, b) {
      assert Tracked(p, addr, mask);
      SharedPage(p, addr, mask, a, b);
    }
  }

  // ---------------------------------------------------------------------
  // The TLB of a CPU
  // ---------------------------------------------------------------------

  class CPUTLB {
    var table: seq<Row>
    var flushAddr: ulong
    var flushMask: ulong
    /** The pages that were entered since the last full flush. */
    ghost var pages: set<Page>

    ghost predicate Valid()
      reads this
    {
      && |table| == NB_MMU_MODES
      && AllTracked(pages, flushAddr, flushMask)
      && (flushAddr != NONE ==> HighMask(flushMask))
      && (forall m | 0 <= m < NB_MMU_MODES :: GoodRow(pages, table[m]))
    }

    constructor ()
      ensures Valid() && pages == {} && flushAddr == NONE
    {
      table := seq(NB_MMU_MODES, _ => EmptyRow());
      flushAddr, flushMask, pages := NONE, 0, {};
    }

    /** `tlb_flush`. */
    method Flush()
      requires Valid()
      modifies this
      ensures Valid() && pages == {} && flushAddr == NONE
      ensures forall m: nat, a: ulong | m < NB_MMU_MODES :: !Hit(table[m], a)
    {
      table := seq(NB_MMU_MODES, _ => EmptyRow());
      flushAddr, flushMask, pages := NONE, 0, {};
      forall a: ulong
        ensures !Hit(EmptyRow(), a)
      {
        EmptyRowMisses(a);
      }
    }

    /** `tlb_add_large_page`: the region takes in the new page and keeps the others, and it
        is the smallest one that does: no other mask `m` that joins the two is finer. */
    method AddLargePage(vaddr: ulong, size: ulong, ghost m: ulong)
      requires AllTracked(pages, flushAddr, flushMask) && (flushAddr != NONE ==> HighMask(flushMask)) && GoodSize(size)
      modifies this`flushAddr, this`flushMask
      ensures AllTracked(pages, flushAddr, flushMask) && flushAddr != NONE && HighMask(flushMask)
      ensures Covered(vaddr, size, flushAddr, flushMask)
      ensures Smallest(old(flushAddr), old(flushMask), vaddr, size, flushAddr, flushMask, m)
    {
      if flushAddr == NONE {
        flushAddr, flushMask := FirstRegion(pages, flushMask, vaddr, size, m);
      } else {
        flushAddr, flushMask := ExtendRegion(pages, flushAddr, flushMask, vaddr, size, m);
      }
    }

    /** The part of `tlb_flush_page` that flushes the entries of one page, mode by
        mode. */
    method FlushEntries(addr: ulong)
      requires Valid()
      modifies this`table
      ensures Valid()
      ensures forall m: nat | m < NB_MMU_MODES :: table[m] == FlushRow(old(table)[m], addr)
    {
      for m := 0 to NB_MMU_MODES
        invariant Valid()
        invariant forall m' | 0 <= m' < NB_MMU_MODES :: table[m'] == if m' < m then FlushRow(old(table)[m'], addr)
                                                        else old(table)[m']
      {
        FlushRowGood(pages, table[m], addr);
        table := table[m := FlushRow(table[m], addr)];
      }
    }

    /** `tlb_flush_page`.  No mode translates the address any more, nor any address
        that shares with it a page that was entered, of whatever size.  Everything is
        flushed exactly if the address is in the region of larger pages; otherwise other
        pages are as they were. */
    method FlushPage(addr: ulong)
      requires Valid()
      modifies this
      ensures Valid()
      ensures forall m: nat, b: ulong | m < NB_MMU_MODES && Related(old(pages), addr, b) :: !Hit(table[m], b)
      ensures if addr & old(flushMask) == old(flushAddr) then
                pages == {} && flushAddr == NONE && forall m: nat, a: ulong | m < NB_MMU_MODES :: !Hit(table[m], a)
              else
                && pages == old(pages) && flushAddr == old(flushAddr) && flushMask == old(flushMask)
                && (forall m: nat | m < NB_MMU_MODES :: table[m] == FlushRow(old(table)[m], addr))
                && (forall m: nat, b: ulong | m < NB_MMU_MODES && PageOf(b) != PageOf(addr) ::
                      Hit(table[m], b) == Hit(old(table)[m], b))
    {
      if addr & flushMask == flushAddr {
        Flush();
        return;
      }
      ghost var rows, ps := table, pages;
      FlushEntries(addr);
      forall m: nat, b: ulong | m < NB_MMU_MODES && Related(ps, addr, b)
        ensures !Hit(table[m], b)
      {
        RelatedIsSame(ps, flushAddr, flushMask, addr, b);
        FlushRowGone(rows[m], addr, b);
      }
      forall m: nat, b: ulong | m < NB_MMU_MODES && PageOf(b) != PageOf(addr)
        ensures Hit(table[m], b) == Hit(rows[m], b)
      {
        FlushRowKeeps(ps, rows[m], addr, b);
      }
    }

    /** `tlb_set_page`, as far as tags are concerned: mode `m` translates the page as
        `prot` allows, and nothing else at that place. */
    method SetPage(vaddr: ulong, size: ulong, prot: Prot, m: nat, backing: Backing, ghost m': ulong)
      requires Valid() && Aligned(vaddr) && GoodSize(size) && m < NB_MMU_MODES
      modifies this
      ensures Valid() && pages == old(pages) + {Page(vaddr, size)}
      ensures table == old(table)[m := old(table)[m][Index(vaddr) := NewEntry(vaddr, prot, backing)]]
      ensures if size == PAGE_SIZE then flushAddr == old(flushAddr) && flushMask == old(flushMask)
              else
                && Covered(vaddr, size, flushAddr, flushMask)
                && Smallest(old(flushAddr), old(flushMask), vaddr, size, flushAddr, flushMask, m')
    {
      ghost var p := Page(vaddr, size);
      if size != PAGE_SIZE {
        AddLargePage(vaddr, size, m');
      }
      EnterRows(vaddr, size, prot, m, backing);
    }

    method EnterRows(vaddr: ulong, size: ulong, prot: Prot, m: nat, backing: Backing)
      requires Valid() && Tracked(Page(vaddr, size), flushAddr, flushMask) && m < NB_MMU_MODES
      modifies this`table, this`pages
      ensures Valid() && pages == old(pages) + {Page(vaddr, size)}
      ensures table == old(table)[m := old(table)[m][Index(vaddr) := NewEntry(vaddr, prot, backing)]]
    {
      ghost var p := Page(vaddr, size);
      SetRowGood(pages, table[m], p, prot, backing);
      forall m' | 0 <= m' < NB_MMU_MODES
        ensures GoodRow(pages + {p}, table[m'])
      {
        MorePages(pages, table[m'], p);
      }
      table := table[m := table[m][Index(vaddr) := NewEntry(vaddr, prot, backing)]];
      pages := pages + {p};
    }
  }
}
