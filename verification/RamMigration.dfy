/** Live migration of guest RAM: the dirty log of the running guest, the
    migration bitmap, the XBZRLE page cache and the copy on the destination.

    Page numbers are RAM addresses divided by the page size.  The guest runs
    while pages are sent, so reading a guest page returns its contents only if
    the page is not dirty in the log; otherwise it may return anything.
  */
module RamMigration {
  import opened Common
  import opened Target
  import Xbzrle

  const BITS_PER_LONG: nat := 64

  type Page = p: seq<byte> | |p| == TARGET_PAGE_SIZE witness seq(TARGET_PAGE_SIZE, _ => 0)

  function ZeroPage(): Page {
    seq(TARGET_PAGE_SIZE, _ => 0)
  }

  /** A RAM block: `pages` pages from page number `base` on. */
  datatype Block = Block(base: nat, pages: nat)

  predicate InBlock(b: Block, p: nat) {
    b.base <= p < b.base + b.pages
  }

  ghost predicate InRam(blocks: seq<Block>, p: nat) {
    exists i :: 0 <= i < |blocks| && InBlock(blocks[i], p)
  }

  /** The block list: not empty, of non-empty disjoint blocks below `size`. */
  ghost predicate GoodBlocks(blocks: seq<Block>, size: nat) {
    && blocks != []
    && (forall i | 0 <= i < |blocks| :: blocks[i].pages > 0 && blocks[i].base + blocks[i].pages <= size)
    && (forall i, j, p: nat | 0 <= i < j < |blocks| && InBlock(blocks[i], p) :: !InBlock(blocks[j], p))
  }

  /** The RAM pages whose bit is set. */
  ghost function DirtySet(blocks: seq<Block>, bits: seq<bool>): set<nat> {
    set p | 0 <= p < |bits| && bits[p] && InRam(blocks, p)
  }

  lemma DirtySetClear(blocks: seq<Block>, bits: seq<bool>, p: nat)
    requires p < |bits| && bits[p] && InRam(blocks, p)
    ensures DirtySet(blocks, bits[p := false]) == DirtySet(blocks, bits) - {p}
    ensures |DirtySet(blocks, bits[p := false])| == |DirtySet(blocks, bits)| - 1
  {
    var s := DirtySet(blocks, bits);
    assert DirtySet(blocks, bits[p := false]) == s - {p};
    assert p in s;
  }

  /** The first set bit in `[lo, hi)`, or `hi`. */
  function FirstDirty(bits: seq<bool>, lo: nat, hi: nat): (r: nat)
    requires lo <= hi <= |bits|
    ensures lo <= r <= hi
    ensures r < hi ==> bits[r]
    ensures forall p | lo <= p < r :: !bits[p]
    decreases hi - lo
  {
    if lo == hi || bits[lo] then lo else FirstDirty(bits, lo + 1, hi)
  }

  // ---------------------------------------------------------------------
  // The stream
  // ---------------------------------------------------------------------

  datatype Message = Zero(p: nat) | Full(p: nat, data: Page) | Delta(p: nat, enc: seq<byte>)

  /** The page cases of `ram_load`; a delta that does not decode fails the load. */
  function Load(page: Page, m: Message): (r: Option<Page>) {
    match m
    case Zero(_) => Some(ZeroPage())
    case Full(_, data) => Some(data)
    case Delta(_, enc) =>
      var r := Xbzrle.DecodeFrom(enc, 0, page, 0);
      if r.None? then None else Some(r.value)
  }

  /** A delta against an older copy of the page: none if the page did not change, or if
      there is no room for it. */
  method MakeDelta(p: nat, prev: Page, current: Page) returns (len: int, enc: seq<byte>)
    ensures len == 0 <==> prev == current
    ensures len == -1 <==> Xbzrle.RoomNeeded(prev, current) > TARGET_PAGE_SIZE
    ensures len != 0 && len != -1 ==> Load(prev, Delta(p, enc)) == Some(current)
  {
    len, enc := Xbzrle.EncodeBuffer(prev, current, TARGET_PAGE_SIZE);
  }

  // ---------------------------------------------------------------------
  // The page cache
  // ---------------------------------------------------------------------

  /** A slot of the direct-mapped cache; its buffer is allocated on first use. */
  datatype Slot = Empty | Item(p: nat, data: Page)

  predicate Cached(cache: seq<Slot>, p: nat)
    requires cache != []
  {
    cache[p % |cache|].Item? && cache[p % |cache|].p == p
  }

  /** `cache_insert`; it fails only when a new buffer cannot be allocated. */
  function Inserted(cache: seq<Slot>, p: nat, data: Page): seq<Slot>
    requires cache != []
  {
    cache[p % |cache| := Item(p, data)]
  }

  // ---------------------------------------------------------------------
  // The order of the search
  // ---------------------------------------------------------------------

  /** The bits of pages `lo` to `hi` of a block are clear. */
  ghost predicate Clear(b: Block, bits: seq<bool>, lo: nat, hi: nat) {
    forall p | b.base + lo <= p < b.base + hi && InBlock(b, p) && p < |bits| :: !bits[p]
  }

  ghost predicate ClearBlocks(blocks: seq<Block>, bits: seq<bool>, from: nat, to: nat) {
    forall i | from <= i < to && i < |blocks| :: Clear(blocks[i], bits, 0, blocks[i].pages)
  }

  /** The search that began at page `from` of block `s` has reached page `offset`
      of block `block` without leaving a dirty page behind. */
  ghost predicate Swept(blocks: seq<Block>, bits: seq<bool>, s: nat, from: nat, block: nat, offset: nat,
                        complete: bool) {
    && s < |blocks| && block < |blocks|
    && (if !complete then
          && s <= block
          && Clear(blocks[s], bits, from, if block == s then offset else blocks[s].pages)
          && ClearBlocks(blocks, bits, s + 1, block)
          && (block != s ==> Clear(blocks[block], bits, 0, offset))
        else
          && block <= s
          && Clear(blocks[s], bits, from, blocks[s].pages) && ClearBlocks(blocks, bits, s + 1, |blocks|)
          && ClearBlocks(blocks, bits, 0, block) && Clear(blocks[block], bits, 0, offset))
  }

  /** Where the search really starts: at the wrap that ends the bulk pass the page
      sent last has not been looked at. */
  function SearchFrom(wasBulk: bool, lastOffset: nat): nat {
    if wasBulk && lastOffset > 0 then lastOffset + 1 else lastOffset
  }

  /** In the bulk stage every page after the last one sent is dirty. */
  ghost predicate AllAhead(blocks: seq<Block>, bits: seq<bool>, lastSeen: Option<nat>, lastOffset: nat) {
    match lastSeen
    case None => lastOffset == 0 && forall i, p: nat | 0 <= i < |blocks| && InBlock(blocks[i], p) && p < |bits| ::
                   bits[p]
    case Some(s) =>
      && s < |blocks| && lastOffset < blocks[s].pages
      && (forall p: nat | blocks[s].base + lastOffset < p && InBlock(blocks[s], p) && p < |bits| :: bits[p])
      && (forall i, p: nat | s < i < |blocks| && InBlock(blocks[i], p) && p < |bits| :: bits[p])
  }

  /** Where a search began and in which stage, and where it is now. */
  datatype Origin = Origin(wasBulk: bool, lastSeen: Option<nat>, lastOffset: nat)
  datatype Cursor = Cursor(block: nat, offset: nat, complete: bool)

  /** A search that is still in the bulk stage has at most left the block it began
      in. */
  ghost predicate BulkSearch(blocks: seq<Block>, bits: seq<bool>, og: Origin, c: Cursor) {
    && og.wasBulk && !c.complete && AllAhead(blocks, bits, og.lastSeen, og.lastOffset)
    && match og.lastSeen
       case None => c.block == 0 && c.offset == 0
       case Some(s) =>
         || (c.block == s && c.offset == og.lastOffset)
         || (&& c.block == s + 1 && c.offset == 0 && og.lastOffset + 1 == blocks[s].pages
             && (og.lastOffset == 0 && blocks[s].base < |bits| ==> !bits[blocks[s].base]))
  }

  /** A search outside the bulk stage has left no dirty page behind; if it began in
      the bulk stage, it has wrapped after the last page of the last block. */
  ghost predicate PlainSearch(blocks: seq<Block>, bits: seq<bool>, og: Origin, c: Cursor) {
    && og.lastSeen.Some? && og.lastSeen.value < |blocks| && og.lastOffset <= blocks[og.lastSeen.value].pages
    && Swept(blocks, bits, og.lastSeen.value, SearchFrom(og.wasBulk, og.lastOffset), c.block, c.offset, c.complete)
    && (og.wasBulk ==> c.complete && og.lastSeen.value == |blocks| - 1
                       && og.lastOffset + 1 == blocks[|blocks| - 1].pages)
  }

  ghost predicate SearchOk(blocks: seq<Block>, bits: seq<bool>, bulk: bool, og: Origin, c: Cursor) {
    && c.block < |blocks| && c.offset <= blocks[c.block].pages
    && SearchVerdict(blocks, bits, bulk, og, c) == Holds
  }

  ghost function SearchVerdict(blocks: seq<Block>, bits: seq<bool>, bulk: bool, og: Origin, c: Cursor): Verdict {
    if (if bulk then BulkSearch(blocks, bits, og, c) else PlainSearch(blocks, bits, og, c)) then Holds else Broken
  }

  /** Page `q` comes no later than the cursor in a search that began at page `from` of
      block `s`. */
  ghost predicate Behind(blocks: seq<Block>, s: nat, from: nat, c: Cursor, q: nat) {
    exists i: nat :: i < |blocks| && InBlock(blocks[i], q) && BehindIn(blocks[i], i, s, from, c, q)
  }

  predicate BehindIn(b: Block, i: nat, s: nat, from: nat, c: Cursor, q: nat) {
    var begun := i > s || (i == s && q >= b.base + from);
    var reached := i < c.block || (i == c.block && q <= b.base + c.offset);
    if c.complete then begun || reached else begun && reached
  }

  /** The cursor is past where the search began. */
  predicate Reached(s: nat, from: nat, c: Cursor) {
    c.complete || c.block > s || (c.block == s && c.offset >= from)
  }

  /** Of the bits, only some of pages behind the cursor were cleared since, and none at all
      unless pages may be skipped. */
  ghost predicate Trail(blocks: seq<Block>, s: nat, from: nat, c: Cursor, bits: seq<bool>, bits': seq<bool>,
                        skips: bool) {
    TrailVerdict(blocks, s, from, c, bits, bits', skips) == Holds
  }

  ghost function TrailVerdict(blocks: seq<Block>, s: nat, from: nat, c: Cursor, bits: seq<bool>, bits': seq<bool>,
                              skips: bool): Verdict
  {
    if Reached(s, from, c) && |bits'| == |bits| && forall q | 0 <= q < |bits| && bits'[q] != bits[q] ::
                              skips && bits[q] && Behind(blocks, s, from, c, q)
    then Holds else Broken
  }

  /** The cursor goes to the next block, or further inside its block. */
  predicate Onward(blocks: seq<Block>, c: Cursor, c': Cursor) {
    || (c.block < |blocks| && c' == NextBlock(blocks, c) && (c.complete ==> c.block + 1 < |blocks|))
    || (c' == c.(offset := c'.offset) && c.offset <= c'.offset)
  }

  /** What is behind the cursor stays behind it. */
  lemma BehindLater(blocks: seq<Block>, s: nat, from: nat, c: Cursor, c': Cursor, q: nat)
    requires Behind(blocks, s, from, c, q)
    requires Onward(blocks, c, c')
    ensures Behind(blocks, s, from, c', q)
  {
    var i: nat :| i < |blocks| && InBlock(blocks[i], q) && BehindIn(blocks[i], i, s, from, c, q);
    assert BehindIn(blocks[i], i, s, from, c', q);
  }

  lemma TrailLater(blocks: seq<Block>, s: nat, from: nat, c: Cursor, c': Cursor, bits: seq<bool>, bits': seq<bool>,
                   skips: bool)
    requires Trail(blocks, s, from, c, bits, bits', skips)
    requires Onward(blocks, c, c')
    ensures Trail(blocks, s, from, c', bits, bits', skips)
  {
    forall q | 0 <= q < |bits| && bits'[q] != bits[q]
      ensures Behind(blocks, s, from, c', q)
    {
      BehindLater(blocks, s, from, c, c', q);
    }
  }

  /** The page at the cursor is skipped. */
  lemma TrailSkip(blocks: seq<Block>, s: nat, from: nat, c: Cursor, bits: seq<bool>, bits0: seq<bool>, bits': seq<bool>)
    requires Trail(blocks, s, from, c, bits, bits0, true) && c.block < |blocks| && c.offset < blocks[c.block].pages
    requires var p := blocks[c.block].base + c.offset; p < |bits0| && bits0[p] && bits' == bits0[p := false]
    ensures Trail(blocks, s, from, c, bits, bits', true)
  {
    var p := blocks[c.block].base + c.offset;
    assert InBlock(blocks[c.block], p) && BehindIn(blocks[c.block], c.block, s, from, c, p);
    assert Behind(blocks, s, from, c, p);
  }

  /** The page at the cursor was sent in its turn: it was dirty, no dirty page is left
      between where the search began and there, and but for pages that were skipped on the
      way no other bit has changed. */
  ghost predicate InTurn(blocks: seq<Block>, og: Origin, c: Cursor, bits: seq<bool>, bits': seq<bool>, skips: bool) {
    og.lastSeen.Some? && c.block < |blocks| && InTurnVerdict(blocks, og, c, bits, bits', skips) == Holds
  }

  ghost function InTurnVerdict(blocks: seq<Block>, og: Origin, c: Cursor, bits: seq<bool>, bits': seq<bool>,
                               skips: bool): Verdict
    requires og.lastSeen.Some? && c.block < |blocks|
  {
    var s, from, p := og.lastSeen.value, SearchFrom(og.wasBulk, og.lastOffset), blocks[c.block].base + c.offset;
    if
      && p < |bits| == |bits'| && bits[p] && !bits'[p]
      && Swept(blocks, bits', s, from, c.block, c.offset, c.complete)
      && Trail(blocks, s, og.lastOffset, c, bits, bits'[p := true], skips)
    then Holds else Broken
  }

  /** What `migration_bitmap_find_and_reset_dirty` finds. */
  ghost predicate Found(blocks: seq<Block>, bits: seq<bool>, bulk: bool, c: Cursor, o: nat)
    requires c.block < |blocks|
  {
    if bulk && c.offset > 0 then o == c.offset + 1
    else
      && c.offset <= o <= blocks[c.block].pages
      && Clear(blocks[c.block], bits, c.offset, o)
      && (o < blocks[c.block].pages ==> blocks[c.block].base + o < |bits| && bits[blocks[c.block].base + o])
  }

  /** The round is complete: the search is back where it began. */
  predicate Closing(og: Origin, c: Cursor, o: nat) {
    c.complete && Some(c.block) == og.lastSeen && o >= og.lastOffset
  }

  function NextBlock(blocks: seq<Block>, c: Cursor): Cursor {
    if c.block + 1 == |blocks| then Cursor(0, 0, true) else Cursor(c.block + 1, 0, c.complete)
  }

  /** The rest of a block is clean: the search goes on at the next block. */
  lemma SweptNext(blocks: seq<Block>, bits: seq<bool>, s: nat, from: nat, c: Cursor)
    requires Swept(blocks, bits, s, from, c.block, c.offset, c.complete)
    requires Clear(blocks[c.block], bits, c.offset, blocks[c.block].pages)
    requires c.complete ==> c.block < s
    ensures var n := NextBlock(blocks, c); Swept(blocks, bits, s, from, n.block, n.offset, n.complete)
  {
    if c.block != s || c.complete {
      assert Clear(blocks[c.block], bits, 0, blocks[c.block].pages);
    }
  }

  /** The search has come to the end of a block. */
  lemma SearchNext(blocks: seq<Block>, bits: seq<bool>, bulk: bool, og: Origin, c: Cursor, o: nat)
    requires GoodBlocks(blocks, |bits|) && SearchOk(blocks, bits, bulk, og, c) && Found(blocks, bits, bulk, c, o)
    requires o >= blocks[c.block].pages && !Closing(og, c, o)
    ensures SearchOk(blocks, bits, bulk && c.block + 1 < |blocks|, og, NextBlock(blocks, c))
  {
    if !bulk {
      SweptNext(blocks, bits, og.lastSeen.value, SearchFrom(og.wasBulk, og.lastOffset), c);
    } else {
      BulkEnd(blocks, bits, og, c, o);
      assert InBlock(blocks[c.block], blocks[c.block].base);
    }
  }

  /** In the bulk stage a call finds no page only after the last page of a block. */
  lemma BulkEnd(blocks: seq<Block>, bits: seq<bool>, og: Origin, c: Cursor, o: nat)
    requires GoodBlocks(blocks, |bits|) && c.block < |blocks| && BulkSearch(blocks, bits, og, c)
    requires Found(blocks, bits, true, c, o) && o >= blocks[c.block].pages
    ensures og.lastSeen == Some(c.block) && og.lastOffset + 1 == blocks[c.block].pages
    ensures Clear(blocks[c.block], bits, SearchFrom(true, og.lastOffset), blocks[c.block].pages)
  {
    var b := blocks[c.block];
    if c.offset == 0 {
      assert InBlock(b, b.base);
      assert b.pages > 1 ==> InBlock(b, b.base + 1);
    }
  }

  /** In the bulk stage the page that is found is dirty, and everything after it
      is dirty too. */
  lemma BulkFound(blocks: seq<Block>, bits: seq<bool>, og: Origin, c: Cursor, o: nat)
    requires GoodBlocks(blocks, |bits|) && c.block < |blocks| && BulkSearch(blocks, bits, og, c)
    requires Found(blocks, bits, true, c, o) && o < blocks[c.block].pages
    ensures bits[blocks[c.block].base + o]
    ensures AllAhead(blocks, bits[blocks[c.block].base + o := false], Some(c.block), o)
  {
    var b := blocks[c.block];
    var x := b.base + o;
    assert InBlock(b, x);
    assert bits[x];
    forall i, p: nat | c.block <= i < |blocks| && InBlock(blocks[i], p) && (i > c.block || p > x)
      ensures p < |bits| && bits[p] && p != x
    {
    }
  }

  /** The page that the next call sends in the bulk stage; none if it is the call that
      ends the stage.  The first page of a block is sent again if it is dirty again. */
  ghost function BulkNext(blocks: seq<Block>, bits: seq<bool>, og: Origin): Option<Cursor> {
    match og.lastSeen
    case None => Some(Cursor(0, 0, false))
    case Some(s) =>
      if s >= |blocks| then None
      else if og.lastOffset == 0 && blocks[s].base < |bits| && bits[blocks[s].base] then Some(Cursor(s, 0, false))
      else if og.lastOffset + 1 < blocks[s].pages then Some(Cursor(s, og.lastOffset + 1, false))
      else if s + 1 < |blocks| then Some(Cursor(s + 1, 0, false))
      else None
  }

  /** In the bulk stage the search stops at that page. */
  lemma BulkNextFound(blocks: seq<Block>, bits: seq<bool>, og: Origin, c: Cursor, o: nat)
    requires GoodBlocks(blocks, |bits|) && c.block < |blocks| && BulkSearch(blocks, bits, og, c)
    requires Found(blocks, bits, true, c, o) && o < blocks[c.block].pages
    ensures BulkNext(blocks, bits, og) == Some(c.(offset := o))
  {
    var b := blocks[c.block];
    assert InBlock(b, b.base);
    if b.pages > 1 {
      assert InBlock(b, b.base + 1);
    }
  }

  /** A search that has left the bulk stage had no such page. */
  lemma NoBulkNext(blocks: seq<Block>, bits: seq<bool>, og: Origin, c: Cursor)
    requires GoodBlocks(blocks, |bits|) && og.wasBulk && PlainSearch(blocks, bits, og, c)
    ensures BulkNext(blocks, bits, og) == None
  {
    var b := blocks[|blocks| - 1];
    assert InBlock(b, b.base);
  }

  /** A page was found and its bit cleared; the search stays in its block. */
  lemma SearchStay(blocks: seq<Block>, bits: seq<bool>, og: Origin, c: Cursor, o: nat)
    requires GoodBlocks(blocks, |bits|) && !og.wasBulk && SearchOk(blocks, bits, false, og, c)
    requires Found(blocks, bits, false, c, o) && o < blocks[c.block].pages
    ensures SearchOk(blocks, bits[blocks[c.block].base + o := false], false, og, c.(offset := o))
  {
  }

  function LastPage(blocks: seq<Block>): int
    requires blocks != []
  {
    blocks[|blocks| - 1].base + blocks[|blocks| - 1].pages - 1
  }

  /** The search begins at the last page of RAM, in the bulk stage, and that page is
      the only dirty one. */
  ghost predicate LossyStart(blocks: seq<Block>, bits: seq<bool>, og: Origin) {
    && blocks != [] && og.wasBulk && og.lastSeen == Some(|blocks| - 1)
    && 0 < og.lastOffset == blocks[|blocks| - 1].pages - 1
    && DirtySet(blocks, bits) == {blocks[|blocks| - 1].base + og.lastOffset}
  }

  /** A page found before the round closes is not the page that would be lost. */
  lemma FoundIsNotLossy(blocks: seq<Block>, bits: seq<bool>, bulk: bool, og: Origin, c: Cursor, o: nat)
    requires GoodBlocks(blocks, |bits|) && SearchOk(blocks, bits, bulk, og, c) && Found(blocks, bits, bulk, c, o)
    requires o < blocks[c.block].pages && !Closing(og, c, o)
    ensures !LossyStart(blocks, bits, og)
  {
    var n := |blocks| - 1;
    if og.wasBulk && og.lastSeen == Some(n) && 0 < og.lastOffset == blocks[n].pages - 1 && !bulk {
      var x, last := blocks[c.block].base + o, blocks[n].base + og.lastOffset;
      assert InBlock(blocks[c.block], x) && InBlock(blocks[n], last);
      assert x in DirtySet(blocks, bits) && x != last;
    }
  }

  /** What follows from finding a page, once its bit is cleared. */
  lemma FoundPage(blocks: seq<Block>, bits: seq<bool>, bulk: bool, og: Origin, c: Cursor, o: nat, bits': seq<bool>,
                  c': Cursor)
    requires GoodBlocks(blocks, |bits|) && SearchOk(blocks, bits, bulk, og, c) && Found(blocks, bits, bulk, c, o)
    requires o < blocks[c.block].pages && !Closing(og, c, o)
    requires bits' == bits[blocks[c.block].base + o := false] && c' == c.(offset := o)
    ensures !LossyStart(blocks, bits, og)
    ensures bulk ==> og.wasBulk && AllAhead(blocks, bits', Some(c'.block), c'.offset)
    ensures !og.wasBulk ==> SearchOk(blocks, bits', bulk, og, c')
    ensures og.wasBulk && BulkNext(blocks, bits, og).Some? ==> bulk && BulkNext(blocks, bits, og) == Some(c')
  {
    FoundIsNotLossy(blocks, bits, bulk, og, c, o);
    if bulk {
      BulkFound(blocks, bits, og, c, o);
      BulkNextFound(blocks, bits, og, c, o);
    } else if og.wasBulk {
      NoBulkNext(blocks, bits, og, c);
    } else {
      SearchStay(blocks, bits, og, c, o);
    }
  }

  /** A page found outside the bulk stage is sent in its turn, or skipped. */
  lemma FoundInTurn(blocks: seq<Block>, bits: seq<bool>, bits0: seq<bool>, og: Origin, c: Cursor, o: nat,
                    bits': seq<bool>, c': Cursor, skips: bool)
    requires GoodBlocks(blocks, |bits0|) && SearchOk(blocks, bits0, false, og, c) && Found(blocks, bits0, false, c, o)
    requires o < blocks[c.block].pages && bits' == bits0[blocks[c.block].base + o := false] && c' == c.(offset := o)
    requires Trail(blocks, og.lastSeen.value, og.lastOffset, c, bits, bits0, skips)
    ensures InTurn(blocks, og, c', bits, bits', skips)
    ensures skips ==> Trail(blocks, og.lastSeen.value, og.lastOffset, c', bits, bits', skips)
  {
    var p := blocks[c.block].base + o;
    TrailLater(blocks, og.lastSeen.value, og.lastOffset, c, c', bits, bits0, skips);
    assert bits'[p := true] == bits0;
    WasDirty(blocks, og.lastSeen.value, og.lastOffset, c', bits, bits0, skips, p);
    SweptTo(blocks, bits0, og.lastSeen.value, SearchFrom(og.wasBulk, og.lastOffset), c, o, bits');
    if skips {
      TrailSkip(blocks, og.lastSeen.value, og.lastOffset, c', bits, bits0, bits');
    }
  }

  lemma WasDirty(blocks: seq<Block>, s: nat, from: nat, c: Cursor, bits: seq<bool>, bits': seq<bool>, skips: bool,
                 p: nat)
    requires Trail(blocks, s, from, c, bits, bits', skips) && p < |bits'| && bits'[p]
    ensures p < |bits| && bits[p]
  {
  }

  lemma SweptTo(blocks: seq<Block>, bits: seq<bool>, s: nat, from: nat, c: Cursor, o: nat, bits': seq<bool>)
    requires c.block < |blocks| && Swept(blocks, bits, s, from, c.block, c.offset, c.complete) && c.offset <= o
    requires Clear(blocks[c.block], bits, c.offset, o)
    requires |bits'| == |bits| && forall q | 0 <= q < |bits| :: bits'[q] ==> bits[q]
    ensures Swept(blocks, bits', s, from, c.block, o, c.complete)
  {
  }

  /** One dirty page: the count says so. */
  lemma SoleDirty(blocks: seq<Block>, bits: seq<bool>, p: nat)
    requires p < |bits| && InRam(blocks, p)
    ensures DirtySet(blocks, bits) == {p} <==> bits[p] && |DirtySet(blocks, bits)| == 1
  {
    var d := DirtySet(blocks, bits);
    assert bits[p] <==> p in d;
    if p in d && |d| == 1 {
      assert |d - {p}| == 0;
      assert d == {p};
    }
  }

  ghost predicate NoneDirty(blocks: seq<Block>, bits: seq<bool>) {
    forall p | 0 <= p < |bits| && InRam(blocks, p) :: !bits[p]
  }

  /** When the round closes, no page but the one that was found is dirty. */
  lemma OnlyFound(blocks: seq<Block>, bits: seq<bool>, og: Origin, c: Cursor, o: nat, i: nat, p: nat)
    requires GoodBlocks(blocks, |bits|) && SearchOk(blocks, bits, false, og, c) && Found(blocks, bits, false, c, o)
    requires Closing(og, c, o) && i < |blocks| && p < |bits| && InBlock(blocks[i], p)
    ensures bits[p] ==> o < blocks[c.block].pages && p == blocks[c.block].base + o
  {
    if i != c.block {
      assert Clear(blocks[i], bits, 0, blocks[i].pages);
    }
  }

  /** A complete round outside the bulk stage has seen every page. */
  lemma SearchOver(blocks: seq<Block>, bits: seq<bool>, og: Origin, c: Cursor, o: nat)
    requires GoodBlocks(blocks, |bits|) && SearchOk(blocks, bits, false, og, c) && Found(blocks, bits, false, c, o)
    requires Closing(og, c, o)
    ensures !og.wasBulk ==> o == blocks[c.block].pages
    ensures o == blocks[c.block].pages ==> NoneDirty(blocks, bits)
    ensures o < blocks[c.block].pages ==> o == og.lastOffset > 0 && DirtySet(blocks, bits) == {blocks[c.block].base + o}
  {
    var b := blocks[c.block];
    forall p | 0 <= p < |bits| && InRam(blocks, p)
      ensures bits[p] ==> o < b.pages && p == b.base + o
    {
      var i :| 0 <= i < |blocks| && InBlock(blocks[i], p);
      OnlyFound(blocks, bits, og, c, o, i, p);
    }
    if o < b.pages {
      assert InBlock(b, b.base + o);
    }
  }

  // ---------------------------------------------------------------------
  // The migration state
  // ---------------------------------------------------------------------

  /** The memories, bitmaps and cache of a migration.  `pending` are pages queued
      by reference: their contents are read when the stream is written out. */
  datatype Ram = Ram(
    blocks: seq<Block>,
    src: seq<Page>,
    dst: seq<Page>,
    log: seq<bool>,
    bitmap: seq<bool>,
    dirtyPages: int,
    cache: seq<Slot>,
    lastStage: bool,
    cacheOff: bool,
    pending: set<nat>)

  ghost predicate Shape(r: Ram) {
    && |r.src| == |r.dst| == |r.log| == |r.bitmap| && |r.bitmap| % BITS_PER_LONG == 0
    && GoodBlocks(r.blocks, |r.bitmap|) && r.cache != []
    && (forall i | 0 <= i < |r.cache| && r.cache[i].Item? :: r.cache[i].p < |r.dst| && r.cache[i].p % |r.cache| == i)
    && (forall p | p in r.pending :: p < |r.dst|)
  }

  /** The destination has, or will get, what the source has. */
  ghost predicate Synced(r: Ram, p: nat)
    requires p < |r.src| == |r.dst|
  {
    p in r.pending || r.dst[p] == r.src[p]
  }

  /** The cache holds the destination's copy of the page. */
  ghost predicate CacheFresh(r: Ram, p: nat)
    requires r.cache != [] && p < |r.dst|
  {
    Cached(r.cache, p) ==> p !in r.pending && r.cache[p % |r.cache|].data == r.dst[p]
  }

  /** A page that is clean in both bitmaps is on the destination. */
  ghost predicate CleanIsSynced(r: Ram, x: nat)
    requires Shape(r)
  {
    forall p | 0 <= p < |r.bitmap| && !r.bitmap[p] && !r.log[p] && InRam(r.blocks, p) && p != x :: Synced(r, p)
  }

  /** The cache is right, except for clean pages in the last stage. */
  ghost predicate CacheRight(r: Ram, x: nat)
    requires Shape(r)
  {
    forall p | 0 <= p < |r.bitmap| :: CacheFresh(r, p) || (r.lastStage && !r.bitmap[p] && p != x)
  }

  /** Outside RAM a bit that is set in the log is set in the bitmap too. */
  ghost predicate GapsCovered(r: Ram)
    requires Shape(r)
  {
    forall p | 0 <= p < |r.bitmap| && !InRam(r.blocks, p) :: r.bitmap[p] || !r.log[p]
  }

  /** What every step keeps, with the possible exception of page `x`. */
  ghost predicate CoreBut(r: Ram, x: nat) {
    CoreVerdict(r, x) == Holds
  }

  ghost function CoreVerdict(r: Ram, x: nat): Verdict {
    if && Shape(r) && CleanIsSynced(r, x) && CacheRight(r, x) && GapsCovered(r)
       && r.dirtyPages == |DirtySet(r.blocks, r.bitmap)|
       && (r.cacheOff ==> forall i | 0 <= i < |r.cache| :: r.cache[i].Empty?)
    then Holds else Broken
  }

  ghost predicate Core(r: Ram) {
    CoreBut(r, |r.bitmap|)
  }

  /** Clearing the bit of a page about to be sent. */
  lemma ResetKeeps(r: Ram, p: nat)
    requires Core(r) && p < |r.bitmap| && r.bitmap[p] && InRam(r.blocks, p)
    ensures CoreBut(r.(bitmap := r.bitmap[p := false], dirtyPages := r.dirtyPages - 1), p)
  {
    var r' := r.(bitmap := r.bitmap[p := false], dirtyPages := r.dirtyPages - 1);
    DirtySetClear(r.blocks, r.bitmap, p);
    forall q | 0 <= q < |r.bitmap|
      ensures CacheFresh(r', q) || (r'.lastStage && !r'.bitmap[q] && q != p)
    {
      assert CacheFresh(r, q) || (r.lastStage && !r.bitmap[q]);
      assert CacheFresh(r', q) == CacheFresh(r, q);
    }
    forall q | 0 <= q < |r.bitmap| && !r'.bitmap[q] && !r'.log[q] && InRam(r.blocks, q) && q != p
      ensures Synced(r', q)
    {
      assert Synced(r, q);
    }
  }

  /** Leaving the bulk stage turns the cache on. */
  lemma CacheOn(r: Ram, off: bool)
    requires Core(r) && r.cacheOff
    ensures Core(r.(cacheOff := off))
  {
    var r' := r.(cacheOff := off);
    assert forall q | 0 <= q < |r.bitmap| :: CacheFresh(r', q) == CacheFresh(r, q) && Synced(r', q) == Synced(r, q);
  }

  /** Only page `p` differs on the destination and in the cache. */
  ghost predicate OnlyPage(r: Ram, r': Ram, p: nat) {
    && r' == r.(dst := r'.dst, cache := r'.cache, pending := r'.pending)
    && |r'.dst| == |r.dst| && (forall q | 0 <= q < |r.dst| && q != p :: r'.dst[q] == r.dst[q])
    && (forall q | q != p :: q in r'.pending <==> q in r.pending)
    && |r'.cache| == |r.cache| && r.cache != []
    && (forall i | 0 <= i < |r.cache| && i != p % |r.cache| :: r'.cache[i] == r.cache[i])
    && (r'.cache[p % |r.cache|] == r.cache[p % |r.cache|]
        || (r'.cache[p % |r.cache|].Item? && r'.cache[p % |r.cache|].p == p && !r.cacheOff))
  }

  /** A page is done when the destination has it, or will get it, or when it is
      dirty in the log again. */
  lemma PageDone(r: Ram, r': Ram, p: nat)
    requires CoreBut(r, p) && OnlyPage(r, r', p) && p < |r.bitmap| && !r.bitmap[p]
    requires r'.log[p] || Synced(r', p)
    requires CacheFresh(r', p) || r.lastStage
    ensures Core(r')
  {
    forall q | 0 <= q < |r'.bitmap|
      ensures CacheFresh(r', q) || (r'.lastStage && !r'.bitmap[q])
    {
      if q != p {
        assert CacheFresh(r, q) || (r.lastStage && !r.bitmap[q]);
        assert Cached(r'.cache, q) ==> Cached(r.cache, q);
      }
    }
    forall q | 0 <= q < |r'.bitmap| && !r'.bitmap[q] && !r'.log[q] && InRam(r'.blocks, q)
      ensures Synced(r', q)
    {
      if q != p {
        assert Synced(r, q);
      }
    }
  }

  /** With all but one page in order, all is in order exactly if that page is on the
      destination or dirty in the log. */
  lemma CoreIff(r: Ram, p: nat)
    requires CoreBut(r, p) && p < |r.bitmap| && !r.bitmap[p] && InRam(r.blocks, p)
    requires forall i | 0 <= i < |r.cache| :: r.cache[i].Empty?
    ensures Core(r) <==> r.log[p] || Synced(r, p)
  {
    if r.log[p] || Synced(r, p) {
      PageDone(r, r, p);
    }
  }

  /** A write of the guest goes to the dirty log. */
  lemma WriteKeeps(r: Ram, p: nat, data: Page)
    requires Core(r) && p < |r.bitmap| && InRam(r.blocks, p)
    ensures Core(r.(src := r.src[p := data], log := r.log[p := true]))
  {
    var r' := r.(src := r.src[p := data], log := r.log[p := true]);
    assert forall q | 0 <= q < |r.bitmap| :: CacheFresh(r', q) == CacheFresh(r, q);
    assert forall q | 0 <= q < |r.bitmap| && q != p :: Synced(r', q) == Synced(r, q);
  }

  /** Writing out a queued page. */
  lemma FlushKeeps(r: Ram, p: nat, data: Page)
    requires Core(r) && p in r.pending && p < |r.bitmap| && (data == r.src[p] || r.log[p])
    ensures Core(r.(dst := r.dst[p := data], pending := r.pending - {p}))
  {
    var r' := r.(dst := r.dst[p := data], pending := r.pending - {p});
    forall q | 0 <= q < |r.bitmap|
      ensures CacheFresh(r', q) || (r'.lastStage && !r'.bitmap[q])
    {
      assert CacheFresh(r, q) || (r.lastStage && !r.bitmap[q]);
    }
    assert forall q | 0 <= q < |r.bitmap| && q != p :: Synced(r', q) == Synced(r, q);
  }

  // ---------------------------------------------------------------------
  // Moving the dirty log to the migration bitmap
  // ---------------------------------------------------------------------

  /** The pages in `moved` have been moved from the log to the bitmap. */
  ghost predicate Moved(r: Ram, r': Ram, moved: set<nat>) {
    && r' == r.(log := r'.log, bitmap := r'.bitmap, dirtyPages := r'.dirtyPages)
    && |r'.log| == |r.log| && |r'.bitmap| == |r.bitmap| == |r.log|
    && (forall p | 0 <= p < |r.bitmap| :: r'.bitmap[p] == (r.bitmap[p] || (p in moved && r.log[p])))
    && (forall p | 0 <= p < |r.log| :: r'.log[p] == (r.log[p] && p !in moved))
    && r'.dirtyPages == r.dirtyPages + |NewlyDirty(r, moved)|
  }

  ghost function NewlyDirty(r: Ram, moved: set<nat>): set<nat>
    requires |r.bitmap| == |r.log|
  {
    set p | p in moved && p < |r.bitmap| && !r.bitmap[p] && r.log[p]
  }

  /** Newly set bits are bits of RAM pages, so the count stays right even where a
      whole word of the bitmap is moved at once. */
  lemma MovedCount(r: Ram, r': Ram, moved: set<nat>)
    requires Shape(r) && GapsCovered(r) && Moved(r, r', moved)
    ensures |DirtySet(r'.blocks, r'.bitmap)| == |DirtySet(r.blocks, r.bitmap)| + |NewlyDirty(r, moved)|
  {
    var d, n := DirtySet(r.blocks, r.bitmap), NewlyDirty(r, moved);
    assert forall p | p in n :: InRam(r.blocks, p);
    assert DirtySet(r'.blocks, r'.bitmap) == d + n;
    assert d !! n;
  }

  lemma MovedSync(r: Ram, r': Ram, moved: set<nat>)
    requires Shape(r) && Moved(r, r', moved)
    requires CleanIsSynced(r, |r.bitmap|) && CacheRight(r, |r.bitmap|) && GapsCovered(r) && !r.lastStage
    ensures Shape(r') && CleanIsSynced(r', |r'.bitmap|) && CacheRight(r', |r'.bitmap|) && GapsCovered(r')
  {
    forall p | 0 <= p < |r.bitmap|
      ensures CacheFresh(r', p) && (!r'.bitmap[p] && !r'.log[p] && InRam(r'.blocks, p) ==> Synced(r', p))
    {
      assert CacheFresh(r, p);
      assert !r.bitmap[p] && !r.log[p] && InRam(r.blocks, p) ==> Synced(r, p);
    }
  }

  lemma MovedKeeps(r: Ram, r': Ram, moved: set<nat>)
    requires Core(r) && !r.lastStage && Moved(r, r', moved)
    ensures Core(r')
  {
    MovedCount(r, r', moved);
    MovedSync(r, r', moved);
  }

  /** What a sequence of moves amounts to. */
  ghost predicate MovedSome(r: Ram, r': Ram) {
    && r' == r.(log := r'.log, bitmap := r'.bitmap, dirtyPages := r'.dirtyPages)
    && |r'.log| == |r.log| == |r'.bitmap| == |r.bitmap|
    && (forall p | 0 <= p < |r.bitmap| ::
          && (r'.bitmap[p] || r'.log[p] <==> r.bitmap[p] || r.log[p])
          && (r.bitmap[p] ==> r'.bitmap[p]) && (r'.log[p] ==> r.log[p]))
  }

  /** The number of set bits in `[lo, hi)`. */
  function CountBits(bits: seq<bool>, lo: nat, hi: nat): nat
    requires lo <= hi <= |bits|
    decreases hi - lo
  {
    if lo == hi then 0 else (if bits[lo] then 1 else 0) + CountBits(bits, lo + 1, hi)
  }

  lemma {:induction false} CountIsSize(bits: seq<bool>, lo: nat, hi: nat)
    requires lo <= hi <= |bits|
    ensures CountBits(bits, lo, hi) == |set p | lo <= p < hi && bits[p]|
    decreases hi - lo
  {
    var all := set p | lo <= p < hi && bits[p];
    if lo < hi {
      var rest := set p | lo + 1 <= p < hi && bits[p];
      CountIsSize(bits, lo + 1, hi);
      assert all == rest + (if bits[lo] then {lo} else {});
    }
  }

  predicate InWord(k: nat, p: int) {
    k * BITS_PER_LONG <= p < (k + 1) * BITS_PER_LONG
  }

  ghost function WordBits(k: nat): set<nat> {
    set p | k * BITS_PER_LONG <= p < (k + 1) * BITS_PER_LONG && InWord(k, p)
  }

  /** The bits of word `k` that are set in the log and not in the bitmap. */
  function NewDirty(bitmap: seq<bool>, log: seq<bool>, k: nat): (r: seq<bool>)
    requires |bitmap| == |log|
    ensures |r| == |bitmap| && forall p | 0 <= p < |r| :: r[p] == (InWord(k, p) && !bitmap[p] && log[p])
  {
    seq(|bitmap|, p requires 0 <= p < |bitmap| => InWord(k, p) && !bitmap[p] && log[p])
  }

  function OrWord(bitmap: seq<bool>, log: seq<bool>, k: nat): (r: seq<bool>)
    requires |bitmap| == |log|
    ensures |r| == |bitmap| && forall p | 0 <= p < |r| :: r[p] == (bitmap[p] || (InWord(k, p) && log[p]))
  {
    seq(|bitmap|, p requires 0 <= p < |bitmap| => bitmap[p] || (InWord(k, p) && log[p]))
  }

  function ClearWord(log: seq<bool>, k: nat): (r: seq<bool>)
    ensures |r| == |log| && forall p | 0 <= p < |r| :: r[p] == (log[p] && !InWord(k, p))
  {
    seq(|log|, p requires 0 <= p < |log| => log[p] && !InWord(k, p))
  }

  /** Moving a word is a move of its bits. */
  lemma WordMoved(r: Ram, k: nat)
    requires |r.bitmap| == |r.log| && (k + 1) * BITS_PER_LONG <= |r.bitmap|
    ensures Moved(r, r.(bitmap := OrWord(r.bitmap, r.log, k), log := ClearWord(r.log, k),
                        dirtyPages := r.dirtyPages +
                        CountBits(NewDirty(r.bitmap, r.log, k), k * BITS_PER_LONG, (k + 1) * BITS_PER_LONG)),
                  WordBits(k))
  {
    var lo, hi := k * BITS_PER_LONG, (k + 1) * BITS_PER_LONG;
    var bits := NewDirty(r.bitmap, r.log, k);
    CountIsSize(bits, lo, hi);
    assert NewlyDirty(r, WordBits(k)) == set p | lo <= p < hi && bits[p];
  }

  lemma MovedSomeTrans(r: Ram, r': Ram, r'': Ram)
    requires MovedSome(r, r') && MovedSome(r', r'')
    ensures MovedSome(r, r'')
  {
  }

  lemma AheadGrows(blocks: seq<Block>, bits: seq<bool>, bits': seq<bool>, lastSeen: Option<nat>, lastOffset: nat)
    requires |bits'| == |bits| && forall p | 0 <= p < |bits| && bits[p] :: bits'[p]
    requires AllAhead(blocks, bits, lastSeen, lastOffset)
    ensures AllAhead(blocks, bits', lastSeen, lastOffset)
  {
  }

  /** A new cache: as after a change of the cache size. */
  lemma NewCacheKeeps(r: Ram, cache: seq<Slot>)
    requires Core(r) && cache != [] && forall i | 0 <= i < |cache| :: cache[i].Empty?
    ensures Core(r.(cache := cache))
  {
    var r' := r.(cache := cache);
    assert forall p | 0 <= p < |r.bitmap| :: CacheFresh(r', p) && Synced(r', p) == Synced(r, p);
  }

  lemma LastStageKeeps(r: Ram)
    requires Core(r)
    ensures Core(r.(lastStage := true))
  {
    var r' := r.(lastStage := true);
    assert forall p | 0 <= p < |r.bitmap| :: CacheFresh(r', p) == CacheFresh(r, p) && Synced(r', p) == Synced(r, p);
  }

  /** All pages of the first `n` blocks. */
  function TotalPages(blocks: seq<Block>, n: nat): nat
    requires n <= |blocks|
  {
    if n == 0 then 0 else TotalPages(blocks, n - 1) + blocks[n - 1].pages
  }

  function RamEnd(blocks: seq<Block>, n: nat): (r: nat)
    requires n <= |blocks|
    ensures forall i | 0 <= i < n :: blocks[i].base + blocks[i].pages <= r
  {
    if n == 0 then 0
    else
      var e, last := RamEnd(blocks, n - 1), blocks[n - 1].base + blocks[n - 1].pages;
      if last > e then last else e
  }

  ghost function PagesOf(blocks: seq<Block>, n: nat, size: nat): set<nat>
    requires n <= |blocks|
  {
    set p | 0 <= p < size && InRam(blocks[..n], p)
  }

  ghost function BlockPages(b: Block): set<nat> {
    set p | b.base <= p < b.base + b.pages && InBlock(b, p)
  }

  lemma {:induction false} BlockPagesSize(b: Block)
    ensures |BlockPages(b)| == b.pages
    decreases b.pages
  {
    if b.pages > 0 {
      var b' := Block(b.base, b.pages - 1);
      BlockPagesSize(b');
      assert BlockPages(b) == BlockPages(b') + {b.base + b.pages - 1};
    } else {
      assert BlockPages(b) == {};
    }
  }

  /** Blocks are disjoint, so their pages add up. */
  lemma {:induction false} PagesAddUp(blocks: seq<Block>, n: nat, size: nat)
    requires GoodBlocks(blocks, size) && n <= |blocks|
    ensures |PagesOf(blocks, n, size)| == TotalPages(blocks, n)
    decreases n
  {
    if n == 0 {
      assert PagesOf(blocks, 0, size) == {};
    } else {
      var b := blocks[n - 1];
      PagesAddUp(blocks, n - 1, size);
      BlockPagesSize(b);
      var init := PagesOf(blocks, n - 1, size);
      PagesSplit(blocks, n, size);
      assert init !! BlockPages(b) by {
        forall p | p in init
          ensures !InBlock(b, p)
        {
          var i :| 0 <= i < n - 1 && InBlock(blocks[..n - 1][i], p);
          assert InBlock(blocks[i], p);
        }
      }
    }
  }

  lemma PagesSplit(blocks: seq<Block>, n: nat, size: nat)
    requires GoodBlocks(blocks, size) && 0 < n <= |blocks|
    ensures PagesOf(blocks, n, size) == PagesOf(blocks, n - 1, size) + BlockPages(blocks[n - 1])
  {
    forall p | 0 <= p < size
      ensures InRam(blocks[..n], p) <==> InRam(blocks[..n - 1], p) || InBlock(blocks[n - 1], p)
    {
      if InRam(blocks[..n], p) {
        var i :| 0 <= i < n && InBlock(blocks[..n][i], p);
        assert i < n - 1 ==> InBlock(blocks[..n - 1][i], p);
      }
      if InRam(blocks[..n - 1], p) {
        var i :| 0 <= i < n - 1 && InBlock(blocks[..n - 1][i], p);
        assert InBlock(blocks[..n][i], p);
      }
      if InBlock(blocks[n - 1], p) {
        assert InBlock(blocks[..n][n - 1], p);
      }
    }
  }

  /** The state that `ram_save_setup` prepares. */
  lemma SetupCore(r: Ram)
    requires Shape(r) && r.pending == {} && !r.lastStage
    requires forall i | 0 <= i < |r.cache| :: r.cache[i].Empty?
    requires r.dirtyPages == TotalPages(r.blocks, |r.blocks|)
    requires forall p | 0 <= p < |r.bitmap| :: r.bitmap[p] == (p < RamEnd(r.blocks, |r.blocks|))
    requires forall p | RamEnd(r.blocks, |r.blocks|) <= p < |r.log| :: !r.log[p]
    ensures Core(r)
  {
    var n := |r.blocks|;
    PagesAddUp(r.blocks, n, |r.bitmap|);
    assert r.blocks[..n] == r.blocks;
    assert DirtySet(r.blocks, r.bitmap) == PagesOf(r.blocks, n, |r.bitmap|);
  }

  class Migration {
    const blocks: seq<Block>
    const useXbzrle: bool
    var src: seq<Page>
    var dst: seq<Page>
    var log: seq<bool>
    var bitmap: seq<bool>
    var dirtyPages: int
    var lastSeen: Option<nat>
    var lastOffset: nat
    var bulk: bool
    var cache: seq<Slot>
    var lastStage: bool
    var pending: set<nat>

    ghost function Now(): Ram
      reads this
    {
      Ram(blocks, src, dst, log, bitmap, dirtyPages, cache, lastStage, bulk || !useXbzrle, pending)
    }

    // -----------------------------------------------------------------
    // Sending a page
    // -----------------------------------------------------------------

    /** The contents of a guest page while the guest may be writing to it. */
    method GuestRead(p: nat) returns (r: Page)
      requires p < |src| == |log|
      ensures r == src[p] || log[p]
    {
      r := *;
      if !log[p] {
        r := src[p];
      }
    }

    /** A message takes effect on the destination. */
    method Deliver(p: nat, m: Message)
      requires p < |dst| && Load(dst[p], m).Some?
      modifies this`dst, this`pending
      ensures dst == old(dst)[p := Load(old(dst)[p], m).value]
      ensures pending == old(pending) - {p}
    {
      dst := dst[p := Load(dst[p], m).value];
      pending := pending - {p};
    }

    /** `cache_insert`. */
    method CacheInsert(p: nat, data: Page) returns (ok: bool)
      requires cache != []
      modifies this`cache
      ensures ok ==> cache == Inserted(old(cache), p, data)
      ensures !ok ==> cache == old(cache) && cache[p % |cache|].Empty?
    {
      var pos := p % |cache|;
      if cache[pos].Empty? {
        var gotBuffer: bool := *;
        if !gotBuffer {
          return false;
        }
      }
      cache := cache[pos := Item(p, data)];
      ok := true;
    }

    /** `save_xbzrle_page`: the page is unmodified, or sent as a delta, or to be
        sent in full, from the cache if it has just been copied there. */
    method SaveXbzrlePage(p: nat) returns (sent: Option<bool>, copy: Option<Page>)
      requires CoreBut(Now(), p) && p < |bitmap| && !bitmap[p] && !bulk && useXbzrle
      modifies this`dst, this`cache, this`pending
      ensures OnlyPage(old(Now()), Now(), p)
      ensures sent.Some? ==> copy.None? && Core(Now())
      ensures sent.Some? ==> old(Cached(cache, p))
      ensures sent == Some(false) ==> dst == old(dst) && pending == old(pending) && cache == old(cache)
      ensures old(Cached(cache, p)) && !log[p] ==>
                var prev := old(cache)[p % |old(cache)|].data;
                && (sent == Some(false) <==> prev == src[p])
                && (sent == Some(true) <==> prev != src[p] && Xbzrle.RoomNeeded(prev, src[p]) <= TARGET_PAGE_SIZE)
      ensures sent.None? ==> dst == old(dst) && pending == old(pending)
      ensures sent.None? && copy.None? ==> cache == old(cache) && (Cached(cache, p) ==> lastStage)
      ensures sent.None? && copy.Some? ==>
                !lastStage && (copy.value == src[p] || log[p]) && cache == Inserted(old(cache), p, copy.value)
    {
      sent, copy := None, None;
      if !Cached(cache, p) {
        if !lastStage {
          var r := GuestRead(p);
          var ok := CacheInsert(p, r);
          if ok {
            copy := Some(r);
          }
        }
        return;
      }
      assert CacheFresh(Now(), p);
      var prev := cache[p % |cache|].data;
      var current := GuestRead(p);
      var len, enc := MakeDelta(p, prev, current);
      if len == 0 {
        sent := Some(false);
        PageDone(old(Now()), Now(), p);
      } else if len == -1 {
        if !lastStage {
          var r := GuestRead(p);
          cache := Inserted(cache, p, r);
          copy := Some(r);
        }
      } else {
        if !lastStage {
          cache := Inserted(cache, p, current);
        }
        Deliver(p, Delta(p, enc));
        sent := Some(true);
        PageDone(old(Now()), Now(), p);
      }
    }

    /** Sends a page that is not zero when the cache is in use: as a delta, or in full
        from the copy in the cache or from the guest. */
    method SaveWithCache(p: nat) returns (sent: bool)
      requires CoreBut(Now(), p) && p < |bitmap| && !bitmap[p] && !bulk && useXbzrle
      modifies this`dst, this`cache, this`pending
      ensures Core(Now()) && OnlyPage(old(Now()), Now(), p)
      ensures !sent ==> useXbzrle && !bulk && old(Cached(cache, p))
      ensures !sent ==> dst == old(dst) && pending == old(pending) && cache == old(cache)
    {
      var result, copy := SaveXbzrlePage(p);
      if result.Some? {
        return result.value;
      }
      sent := true;
      if lastStage {
        pending := pending + {p};
      } else if copy.Some? {
        Deliver(p, Full(p, copy.value));
      } else {
        var r := GuestRead(p);
        Deliver(p, Full(p, r));
      }
      PageDone(old(Now()), Now(), p);
    }

    /** The page part of `ram_save_block`: sends page `p`, whose bit has just been
        cleared.  `sent` is false only for a page found unmodified. */
    method SavePage(p: nat) returns (sent: bool)
      requires CoreBut(Now(), p) && p < |bitmap| && !bitmap[p]
      modifies this`dst, this`cache, this`pending
      ensures Core(Now()) && OnlyPage(old(Now()), Now(), p)
      ensures !sent ==> useXbzrle && !bulk && old(Cached(cache, p))
      ensures !sent ==> dst == old(dst) && pending == old(pending) && cache == old(cache)
    {
      var r0 := GuestRead(p);
      sent := true;
      if r0 == ZeroPage() {
        Deliver(p, Zero(p));
        if !bulk && useXbzrle {
          var ok := CacheInsert(p, ZeroPage());
        }
      } else if !bulk && useXbzrle {
        sent := SaveWithCache(p);
        return;
      } else {
        pending := pending + {p};
      }
      PageDone(old(Now()), Now(), p);
    }

    // -----------------------------------------------------------------
    // Searching for dirty pages
    // -----------------------------------------------------------------

    /** `find_next_bit` on the migration bitmap. */
    method FindNextBit(size: nat, nr: nat) returns (next: nat)
      requires size <= |bitmap|
      ensures next == if nr <= size then FirstDirty(bitmap, nr, size) else size
    {
      if nr >= size {
        return size;
      }
      next := nr;
      while next < size && !bitmap[next]
        invariant nr <= next <= size
        invariant FirstDirty(bitmap, nr, size) == FirstDirty(bitmap, next, size)
      {
        next := next + 1;
      }
    }

    /** Clears the bit of a dirty RAM page and counts it. */
    method ResetBit(p: nat)
      requires Core(Now()) && p < |bitmap| && bitmap[p] && InRam(blocks, p)
      modifies this`bitmap, this`dirtyPages
      ensures bitmap == old(bitmap)[p := false] && CoreBut(Now(), p)
      ensures |DirtySet(blocks, bitmap)| < old(|DirtySet(blocks, bitmap)|)
    {
      ResetKeeps(Now(), p);
      DirtySetClear(blocks, bitmap, p);
      bitmap := bitmap[p := false];
      dirtyPages := dirtyPages - 1;
    }

    /** The search part of `migration_bitmap_find_and_reset_dirty`: in the bulk stage
        the page after `start` is taken without looking at its bit. */
    method NextDirty(ghost c: Cursor, b: nat, start: nat) returns (o: nat)
      requires b < |blocks| && start <= blocks[b].pages && blocks[b].base + blocks[b].pages <= |bitmap|
      requires c.block == b && c.offset == start
      ensures Found(blocks, bitmap, bulk, c, o)
    {
      var base := blocks[b].base;
      var nr := base + start;
      var size := base + blocks[b].pages;
      var next;
      if bulk && nr > base {
        next := nr + 1;
      } else {
        next := FindNextBit(size, nr);
      }
      o := next - base;
    }

    /** `migration_bitmap_find_and_reset_dirty`. */
    method FindAndResetDirty(ghost og: Origin, ghost c: Cursor, b: nat, start: nat) returns (o: nat)
      requires Core(Now()) && SearchOk(blocks, bitmap, bulk, og, c) && c.block == b && c.offset == start
      modifies this`bitmap, this`dirtyPages
      ensures Found(blocks, old(bitmap), bulk, c, o)
      ensures o >= blocks[b].pages ==> Now() == old(Now())
      ensures o < blocks[b].pages ==>
                && bitmap == old(bitmap)[blocks[b].base + o := false]
                && CoreBut(Now(), blocks[b].base + o)
                && |DirtySet(blocks, bitmap)| < old(|DirtySet(blocks, bitmap)|)
    {
      o := NextDirty(c, b, start);
      if o < blocks[b].pages {
        if bulk {
          BulkFound(blocks, bitmap, og, c, o);
        }
        assert InBlock(blocks[b], blocks[b].base + o);
        ResetBit(blocks[b].base + o);
      }
    }

    ghost predicate Valid()
      reads this
    {
      && Core(Now())
      && (lastSeen.None? ==> bulk && lastOffset == 0)
      && (lastSeen.Some? ==> lastSeen.value < |blocks| && lastOffset <= blocks[lastSeen.value].pages)
      && (bulk ==> AllAhead(blocks, bitmap, lastSeen, lastOffset))
    }

    /** The only dirty page is the one sent last, at the very end of the bulk pass:
        the next call clears its bit without sending the page. */
    predicate Lossy()
      reads this
    {
      && blocks != [] && bulk && lastSeen == Some(|blocks| - 1)
      && 0 < lastOffset == blocks[|blocks| - 1].pages - 1
      && dirtyPages == 1
      && blocks[|blocks| - 1].base + lastOffset < |bitmap| && bitmap[blocks[|blocks| - 1].base + lastOffset]
    }

    /** And the page is neither on the destination, nor queued, nor dirty in the log. */
    predicate Loses()
      reads this
    {
      Lossy() &&
      var last := LastPage(blocks);
      0 <= last < |src| == |dst| == |log| && !log[last] && last !in pending && dst[last] != src[last]
    }

    lemma LossyMeaning()
      requires Valid()
      ensures Lossy() <==> LossyStart(blocks, bitmap, Origin(bulk, lastSeen, lastOffset))
    {
      if bulk && lastSeen == Some(|blocks| - 1) && 0 < lastOffset == blocks[|blocks| - 1].pages - 1 {
        assert Shape(Now());
        SoleDirty(blocks, bitmap, blocks[|blocks| - 1].base + lastOffset);
      }
    }

    /** The state inside the loop of `ram_save_block`. */
    ghost predicate Searching(og: Origin, c: Cursor, bits: seq<bool>)
      reads this
    {
      && Core(Now()) && SearchOk(blocks, bitmap, bulk, og, c)
      && og.lastSeen == lastSeen && og.lastOffset == lastOffset
      && (og.wasBulk ==> bitmap == bits && NoCache())
      && (!bulk ==> og.lastSeen.Some? && Trail(blocks, og.lastSeen.value, og.lastOffset, c, bits, bitmap, useXbzrle))
    }

    ghost predicate NoCache()
      reads this
    {
      forall i | 0 <= i < |cache| :: cache[i].Empty?
    }

    /** The state when the loop stops at cursor `c`. */
    ghost predicate Stopped(og: Origin, bits: seq<bool>, sent: bool, c: Cursor)
      reads this
    {
      && c.block < |blocks| && c.offset <= blocks[c.block].pages
      && (LossyStart(blocks, bits, og) ==> !sent && CoreBut(Now(), LastPage(blocks)) && NoCache())
      && (!LossyStart(blocks, bits, og) ==> Core(Now()) && (bulk ==> AllAhead(blocks, bitmap, Some(c.block), c.offset)))
      && (!sent ==> !bulk && NoneDirty(blocks, bitmap) && Some(c.block) == og.lastSeen)
      && (!sent ==> c.offset == if LossyStart(blocks, bits, og) then og.lastOffset else blocks[c.block].pages)
      && (sent && !bulk ==> InTurn(blocks, og, c, bits, bitmap, useXbzrle))
      && (og.wasBulk && BulkNext(blocks, bits, og).Some? ==> BulkStop(bits, sent, c, BulkNext(blocks, bits, og).value))
    }

    /** In the bulk stage the page was sent. */
    ghost predicate BulkStop(bits: seq<bool>, sent: bool, c: Cursor, t: Cursor)
      reads this
    {
      && sent && bulk && c == t && c.block < |blocks| && blocks[c.block].base + c.offset < |bits|
      && bitmap == bits[blocks[c.block].base + c.offset := false]
    }

    /** The search leaves a block without a dirty page. */
    method LeaveBlock(ghost og: Origin, ghost bits: seq<bool>, c0: Cursor, ghost o: nat) returns (c: Cursor)
      requires Searching(og, c0, bits) && Found(blocks, bitmap, bulk, c0, o)
      requires o >= blocks[c0.block].pages && !Closing(og, c0, o)
      modifies this`bulk
      ensures Searching(og, c, bits) && Distance(c) < Distance(c0)
    {
      SearchNext(blocks, bitmap, bulk, og, c0, o);
      c := NextBlock(blocks, c0);
      if c0.block + 1 == |blocks| {
        if bulk {
          CacheOn(Now(), !useXbzrle);
        }
        bulk := false;
      }
    }

    /** What is known of a page that was found, once its bit is cleared. */
    lemma FoundFacts(og: Origin, bits: seq<bool>, bits0: seq<bool>, c0: Cursor, o: nat, c: Cursor)
      requires GoodBlocks(blocks, |bits0|) && SearchOk(blocks, bits0, bulk, og, c0) && Found(blocks, bits0, bulk, c0, o)
      requires o < blocks[c0.block].pages && !Closing(og, c0, o) && c == c0.(offset := o)
      requires bitmap == bits0[blocks[c0.block].base + o := false] && (og.wasBulk ==> bits0 == bits)
      requires !bulk ==> Trail(blocks, og.lastSeen.value, og.lastOffset, c0, bits, bits0, useXbzrle)
      ensures !LossyStart(blocks, bits0, og)
      ensures bulk ==> og.wasBulk && AllAhead(blocks, bitmap, Some(c.block), c.offset)
      ensures !og.wasBulk ==> SearchOk(blocks, bitmap, bulk, og, c)
      ensures !bulk ==> InTurn(blocks, og, c, bits, bitmap, useXbzrle)
      ensures !bulk && useXbzrle ==> Trail(blocks, og.lastSeen.value, og.lastOffset, c, bits, bitmap, useXbzrle)
      ensures og.wasBulk && BulkNext(blocks, bits, og).Some? ==>
                BulkStop(bits, true, c, BulkNext(blocks, bits, og).value)
    {
      FoundPage(blocks, bits0, bulk, og, c0, o, bitmap, c);
      if !bulk {
        FoundInTurn(blocks, bits, bits0, og, c0, o, bitmap, c, useXbzrle);
      }
    }

    /** The search has found a page; it goes on only if the page is unmodified. */
    method SendFound(ghost og: Origin, ghost bits: seq<bool>, ghost bits0: seq<bool>, c0: Cursor, o: nat)
      returns (sent: bool)
      requires GoodBlocks(blocks, |bits0|) && SearchOk(blocks, bits0, bulk, og, c0) && Found(blocks, bits0, bulk, c0, o)
      requires o < blocks[c0.block].pages && !Closing(og, c0, o)
      requires bitmap == bits0[blocks[c0.block].base + o := false] && CoreBut(Now(), blocks[c0.block].base + o)
      requires og.lastSeen == lastSeen && og.lastOffset == lastOffset
      requires og.wasBulk ==> NoCache() && bits0 == bits
      requires !bulk ==> Trail(blocks, og.lastSeen.value, og.lastOffset, c0, bits, bits0, useXbzrle)
      modifies this`dst, this`cache, this`pending
      ensures Core(Now())
      ensures !sent ==> !og.wasBulk && Searching(og, c0.(offset := o), bits)
      ensures !sent ==> dst == old(dst) && pending == old(pending)
      ensures sent ==> Stopped(og, bits, true, c0.(offset := o)) && Elsewhere(old(dst), old(pending), c0.(offset := o))
    {
      var p := blocks[c0.block].base + o;
      FoundFacts(og, bits, bits0, c0, o, c0.(offset := o));
      sent := SavePage(p);
    }

    /** The round closes: nothing is left, or the one page left has just been
        forgotten. */
    lemma RoundClosed(og: Origin, bits: seq<bool>, bits0: seq<bool>, c: Cursor, o: nat)
      requires GoodBlocks(blocks, |bits0|) && SearchOk(blocks, bits0, bulk, og, c) && Found(blocks, bits0, bulk, c, o)
      requires Closing(og, c, o) && (og.wasBulk ==> bits0 == bits)
      requires o >= blocks[c.block].pages ==> bitmap == bits0 && Core(Now())
      requires o < blocks[c.block].pages ==>
                 bitmap == bits0[blocks[c.block].base + o := false] && CoreBut(Now(), blocks[c.block].base + o)
      requires og.wasBulk ==> NoCache()
      ensures Stopped(og, bits, false, c.(offset := o))
    {
      SearchOver(blocks, bits0, og, c, o);
      if og.wasBulk {
        NoBulkNext(blocks, bits0, og, c);
      }
      if o < blocks[c.block].pages {
        forall p | 0 <= p < |bitmap| && InRam(blocks, p)
          ensures !bitmap[p]
        {
          assert bits0[p] ==> p in DirtySet(blocks, bits0);
        }
      } else if og.wasBulk && og.lastOffset > 0 {
        var last := blocks[|blocks| - 1].base + og.lastOffset;
        assert last !in DirtySet(blocks, bits);
      }
    }

    /** Only the page at the cursor was touched. */
    ghost predicate Elsewhere(dst0: seq<Page>, pending0: set<nat>, c: Cursor)
      reads this
    {
      c.block < |blocks| && |dst| == |dst0| &&
      var p := blocks[c.block].base + c.offset;
      (forall q | 0 <= q < |dst| && q != p :: dst[q] == dst0[q])
      && (forall q | q != p :: q in pending <==> q in pending0)
    }

    /** How far the search still is from closing its round. */
    ghost function Distance(c: Cursor): nat
      reads this
    {
      if !c.complete && c.block < |blocks| then 2 * |blocks| - c.block
      else if lastSeen.Some? && c.block <= lastSeen.value < |blocks| then lastSeen.value - c.block
      else 0
    }

    /** One round of the loop of `ram_save_block`. */
    method Visit(ghost og: Origin, ghost bits: seq<bool>, c0: Cursor) returns (stop: bool, sent: bool, c: Cursor)
      requires Searching(og, c0, bits)
      modifies this`bitmap, this`dirtyPages, this`dst, this`cache, this`pending, this`bulk
      ensures stop ==> Stopped(og, bits, sent, c)
      ensures !stop ==> !sent && Searching(og, c, bits)
      ensures !stop ==> Distance(c) < Distance(c0)
                        || (Distance(c) == Distance(c0) && |DirtySet(blocks, bitmap)| < old(|DirtySet(blocks, bitmap)|))
      ensures !sent ==> dst == old(dst) && pending == old(pending)
      ensures sent ==> Elsewhere(old(dst), old(pending), c)
      ensures |DirtySet(blocks, bitmap)| <= old(|DirtySet(blocks, bitmap)|) - (if sent then 1 else 0)
      ensures !old(bulk) ==> !bulk
    {
      stop, sent, c := false, false, c0;
      var o := FindAndResetDirty(og, c0, c0.block, c0.offset);
      if c0.complete && Some(c0.block) == lastSeen && o >= lastOffset {
        RoundClosed(og, bits, old(bitmap), c0, o);
        c := c0.(offset := o);
        stop := true;
      } else if o >= blocks[c0.block].pages {
        c := LeaveBlock(og, bits, c0, o);
      } else {
        sent := SendFound(og, bits, old(bitmap), c0, o);
        c := c0.(offset := o);
        stop := sent;
      }
    }

    /** The loop of `ram_save_block`. */
    method Search(ghost og: Origin) returns (sent: bool, c: Cursor)
      requires Valid() && og == Origin(bulk, lastSeen, lastOffset)
      modifies this`bitmap, this`dirtyPages, this`dst, this`cache, this`pending, this`bulk
      ensures Stopped(og, old(bitmap), sent, c)
      ensures if sent then Elsewhere(old(dst), old(pending), c) else dst == old(dst) && pending == old(pending)
      ensures |DirtySet(blocks, bitmap)| <= old(|DirtySet(blocks, bitmap)|) - (if sent then 1 else 0)
      ensures !og.wasBulk ==> !bulk
    {
      c := Cursor(if lastSeen.None? then 0 else lastSeen.value, lastOffset, false);
      ghost var bits := bitmap;
      sent := false;
      var stop := false;
      while !stop
        invariant if stop then Stopped(og, bits, sent, c) else !sent && Searching(og, c, bits)
        invariant if sent then Elsewhere(old(dst), old(pending), c) else dst == old(dst) && pending == old(pending)
        invariant |DirtySet(blocks, bitmap)| <= |DirtySet(blocks, bits)| - (if sent then 1 else 0)
        invariant !og.wasBulk ==> !bulk
        decreases !stop, Distance(c), |DirtySet(blocks, bitmap)|
      {
        stop, sent, c := Visit(og, bits, c);
      }
    }

    /** `ram_save_block`: sends the next dirty page; `sent` is false when a whole
        round found none to send.  Everything is in order afterwards exactly unless the
        call loses a page.  In the bulk stage the pages are sent one after the other, and
        afterwards the first dirty page from the last one on, in the order of the blocks,
        with pages that are found unmodified skipped. */
    method RamSaveBlock() returns (sent: bool)
      requires Valid()
      modifies this`bitmap, this`dirtyPages, this`dst, this`cache, this`pending, this`bulk, this`lastSeen,
               this`lastOffset
      ensures Valid() <==> !old(Loses())
      ensures !sent ==> NoneDirty(blocks, bitmap) && !bulk
      ensures old(Lossy()) ==> !sent
      ensures !sent ==> dst == old(dst) && pending == old(pending) && lastSeen == old(lastSeen) && lastSeen.Some?
      ensures !sent ==> lastOffset == if old(Lossy()) then old(lastOffset) else blocks[lastSeen.value].pages
      ensures sent ==> lastSeen.Some? && Elsewhere(old(dst), old(pending), Cursor(lastSeen.value, lastOffset, false))
      ensures sent && !bulk ==> exists complete :: InTurn(blocks, old(Origin(bulk, lastSeen, lastOffset)),
                Cursor(lastSeen.value, lastOffset, complete), old(bitmap), bitmap, useXbzrle)
      ensures sent ==> |DirtySet(blocks, bitmap)| < old(|DirtySet(blocks, bitmap)|)
      ensures !old(bulk) ==> !bulk
      ensures old(bulk && Upcoming().Some?) ==> SentNext(old(Now()), sent, old(Upcoming()).value)
    {
      LossyMeaning();
      var c;
      sent, c := Search(Origin(bulk, lastSeen, lastOffset));
      lastSeen, lastOffset := Some(c.block), c.offset;
      assert c == Cursor(lastSeen.value, lastOffset, c.complete);
      if old(Lossy()) {
        LastInRam();
        CoreIff(Now(), LastPage(blocks));
      }
    }

    lemma LastInRam()
      requires GoodBlocks(blocks, |bitmap|)
      ensures 0 <= LastPage(blocks) < |bitmap| && InRam(blocks, LastPage(blocks))
    {
      assert InBlock(blocks[|blocks| - 1], LastPage(blocks));
    }

    /** The page that is sent next in the bulk stage. */
    ghost function Upcoming(): Option<Cursor>
      reads this
    {
      BulkNext(blocks, bitmap, Origin(bulk, lastSeen, lastOffset))
    }

    /** That page was sent, and nothing else. */
    ghost predicate SentNext(r: Ram, sent: bool, t: Cursor)
      reads this
    {
      && sent && bulk && lastSeen == Some(t.block) && lastOffset == t.offset && t.block < |blocks|
      && var p := blocks[t.block].base + t.offset;
         && p < |r.bitmap| && bitmap == r.bitmap[p := false]
         && |dst| == |r.dst| && (forall q | 0 <= q < |dst| && q != p :: dst[q] == r.dst[q])
         && (forall q | q != p :: q in pending <==> q in r.pending)
    }

    // -----------------------------------------------------------------
    // The dirty log
    // -----------------------------------------------------------------

    /** Moves one word of the log, as `migration_bitmap_sync_range` does for a block
        that starts on a word boundary. */
    method SyncWord(k: nat)
      requires Core(Now()) && !lastStage && (k + 1) * BITS_PER_LONG <= |bitmap|
      modifies this`log, this`bitmap, this`dirtyPages
      ensures Core(Now()) && Moved(old(Now()), Now(), WordBits(k))
    {
      var lo, hi := k * BITS_PER_LONG, (k + 1) * BITS_PER_LONG;
      if true in log[lo..hi] {
        ghost var r := Now();
        WordMoved(r, k);
        dirtyPages := dirtyPages + CountBits(NewDirty(bitmap, log, k), lo, hi);
        bitmap := OrWord(bitmap, log, k);
        log := ClearWord(log, k);
        MovedKeeps(r, Now(), WordBits(k));
      } else {
        assert forall p | lo <= p < hi :: log[p] == log[lo..hi][p - lo];
        assert NewlyDirty(Now(), WordBits(k)) == {};
      }
    }

    /** Moves one page of the log, as `migration_bitmap_sync_range` does for other
        blocks. */
    method SyncPage(p: nat)
      requires Core(Now()) && !lastStage && p < |bitmap|
      modifies this`log, this`bitmap, this`dirtyPages
      ensures Core(Now()) && Moved(old(Now()), Now(), {p})
    {
      if log[p] {
        ghost var r := Now();
        log := log[p := false];
        if !bitmap[p] {
          dirtyPages := dirtyPages + 1;
        }
        bitmap := bitmap[p := true];
        assert NewlyDirty(r, {p}) == if r.bitmap[p] then {} else {p};
        MovedKeeps(r, Now(), {p});
      } else {
        assert NewlyDirty(Now(), {p}) == {};
      }
    }

    /** Moves the words from `first` up to `end`. */
    method SyncWords(first: nat, end: nat)
      requires Core(Now()) && !lastStage && end * BITS_PER_LONG <= |bitmap|
      modifies this`log, this`bitmap, this`dirtyPages
      ensures Core(Now()) && MovedSome(old(Now()), Now())
      ensures forall p | first * BITS_PER_LONG <= p < end * BITS_PER_LONG :: !log[p]
    {
      ghost var r := Now();
      var k := first;
      while k < end
        invariant Core(Now()) && MovedSome(r, Now()) && (first <= end ==> k <= end) && first <= k
        invariant forall p | first * BITS_PER_LONG <= p < k * BITS_PER_LONG && p < |log| :: !log[p]
      {
        ghost var r1 := Now();
        SyncWord(k);
        MovedSomeTrans(r, r1, Now());
        assert forall p | k * BITS_PER_LONG <= p < (k + 1) * BITS_PER_LONG && p < |log| :: InWord(k, p)
                                                                                           && p in WordBits(k);
        k := k + 1;
      }
    }

    /** Moves the pages from `first` up to `end`. */
    method SyncPages(first: nat, end: nat)
      requires Core(Now()) && !lastStage && first <= end <= |bitmap|
      modifies this`log, this`bitmap, this`dirtyPages
      ensures Core(Now()) && MovedSome(old(Now()), Now())
      ensures forall p | first <= p < end :: !log[p]
    {
      ghost var r := Now();
      for i := first to end
        invariant Core(Now()) && MovedSome(r, Now())
        invariant forall p | first <= p < i && p < |log| :: !log[p]
      {
        ghost var r1 := Now();
        SyncPage(i);
        MovedSomeTrans(r, r1, Now());
      }
    }

    /** `migration_bitmap_sync_range` for one block. */
    method SyncRange(b: Block)
      requires Core(Now()) && !lastStage && b.base + b.pages <= |bitmap|
      modifies this`log, this`bitmap, this`dirtyPages
      ensures Core(Now()) && MovedSome(old(Now()), Now())
      ensures forall p | 0 <= p < |log| && InBlock(b, p) :: !log[p]
    {
      if b.base % BITS_PER_LONG == 0 {
        var first, count := b.base / BITS_PER_LONG, (b.pages + BITS_PER_LONG - 1) / BITS_PER_LONG;
        SyncWords(first, first + count);
      } else {
        SyncPages(b.base, b.base + b.pages);
      }
    }

    /** `migration_bitmap_sync`: on RAM pages, the bitmap takes over the log. */
    method Sync()
      requires Valid() && !lastStage
      modifies this`log, this`bitmap, this`dirtyPages
      ensures Valid() && MovedSome(old(Now()), Now())
      ensures forall p | 0 <= p < |log| && InRam(blocks, p) :: !log[p] && bitmap[p] == (old(bitmap)[p] || old(log)[p])
    {
      ghost var r := Now();
      for i := 0 to |blocks|
        invariant Core(Now()) && MovedSome(r, Now())
        invariant forall j, p | 0 <= j < i && 0 <= p < |log| && InBlock(blocks[j], p) :: !log[p]
      {
        ghost var r1 := Now();
        SyncRange(blocks[i]);
        MovedSomeTrans(r, r1, Now());
      }
      forall p | 0 <= p < |log| && InRam(blocks, p)
        ensures !log[p]
      {
        var j :| 0 <= j < |blocks| && InBlock(blocks[j], p);
      }
      if bulk {
        AheadGrows(blocks, old(bitmap), bitmap, lastSeen, lastOffset);
      }
    }

    // -----------------------------------------------------------------
    // A whole migration
    // -----------------------------------------------------------------

    /** `ram_save_setup`: every bit up to the end of RAM is set.  Beyond the end of
        RAM the log must be clear. */
    constructor (blocks: seq<Block>, src: seq<Page>, dst: seq<Page>, log: seq<bool>, slots: nat, useXbzrle: bool)
      requires |src| == |dst| == |log| && |log| % BITS_PER_LONG == 0 && slots > 0
      requires GoodBlocks(blocks, |log|)
      requires forall p | RamEnd(blocks, |blocks|) <= p < |log| :: !log[p]
      ensures Valid() && bulk && lastSeen.None? && !lastStage && pending == {}
      ensures this.blocks == blocks && this.src == src && this.dst == dst && LogClean()
      ensures forall p | 0 <= p < |bitmap| && InRam(blocks, p) :: bitmap[p]
    {
      this.blocks, this.useXbzrle := blocks, useXbzrle;
      this.src, this.dst, this.log := src, dst, log;
      var end := RamEnd(blocks, |blocks|);
      bitmap := seq(|log|, p => p < end);
      dirtyPages := TotalPages(blocks, |blocks|);
      lastSeen, lastOffset, bulk := None, 0, true;
      cache := seq(slots, _ => Empty);
      lastStage, pending := false, {};
      new;
      SetupCore(Now());
      Sync();
    }

    /** The guest writes to one of its pages. */
    method GuestWrite(p: nat, data: Page)
      requires Valid() && !lastStage && p < |src| && InRam(blocks, p)
      modifies this`src, this`log
      ensures Valid() && src == old(src)[p := data] && log == old(log)[p := true]
    {
      WriteKeeps(Now(), p, data);
      src := src[p := data];
      log := log[p := true];
    }

    /** The stream writes out a page that was queued by reference. */
    method Flush(p: nat)
      requires Valid() && p in pending && p < |src|
      modifies this`dst, this`pending
      ensures Valid() && pending == old(pending) - {p} && |dst| == |old(dst)|
      ensures forall q | 0 <= q < |dst| && q != p :: dst[q] == old(dst)[q]
      ensures dst[p] == src[p] || log[p]
    {
      var r := GuestRead(p);
      FlushKeeps(Now(), p, r);
      dst := dst[p := r];
      pending := pending - {p};
    }

    /** `xbzrle_cache_resize`, from another thread. */
    method ResizeCache(slots: nat)
      requires Valid() && slots > 0
      modifies this`cache
      ensures Valid() && |cache| == slots && forall i | 0 <= i < slots :: cache[i].Empty?
    {
      var fresh' := seq(slots, _ => Empty);
      NewCacheKeeps(Now(), fresh');
      cache := fresh';
    }

    /** No RAM page is dirty in the log. */
    ghost predicate LogClean()
      reads this
    {
      |log| == |src| && forall p | 0 <= p < |log| && InRam(blocks, p) :: !log[p]
    }

    /** The last page of RAM is not, and will not be, on the destination. */
    ghost predicate Missing()
      reads this
    {
      && blocks != [] && 0 <= LastPage(blocks) < |src| == |dst| && InRam(blocks, LastPage(blocks))
      && !Synced(Now(), LastPage(blocks))
    }

    /** The loop of `ram_save_complete`. */
    method SendRest() returns (lost: bool)
      requires Valid() && LogClean()
      modifies this`bitmap, this`dirtyPages, this`dst, this`cache, this`pending, this`bulk, this`lastSeen,
               this`lastOffset
      ensures !lost ==> Valid() && NoneDirty(blocks, bitmap)
      ensures lost ==> Missing()
      ensures !old(bulk) ==> !lost
    {
      lost := false;
      var more := true;
      while more
        invariant !old(bulk) ==> !bulk && !lost
        invariant !lost ==> Valid()
        invariant lost ==> Missing()
        invariant !more ==> NoneDirty(blocks, bitmap)
        invariant more ==> !lost
        decreases more, |DirtySet(blocks, bitmap)|
      {
        lost := Loses();
        LastInRam();
        more := RamSaveBlock();
      }
    }

    /** `ram_save_complete`, with the guest stopped.  `lost` tells whether a call of
        `ram_save_block` has lost a page: all of RAM is on the destination, or queued,
        exactly if it is false.  After the bulk stage it is. */
    method RamSaveComplete() returns (lost: bool)
      requires Valid() && !lastStage
      modifies this
      ensures src == old(src) && LogClean()
      ensures !lost ==> Valid() && lastStage
      ensures |dst| == |src|
      ensures !lost <==> forall p | 0 <= p < |src| && InRam(blocks, p) :: Synced(Now(), p)
      ensures !old(bulk) ==> !lost
    {
      Sync();
      LastStageKeeps(Now());
      lastStage := true;
      lost := SendRest();
    }
  }

  /** What can happen while a migration is running. */
  datatype Action =
    | Write(block: nat, offset: nat, data: Page)
    | SyncLog
    | Save
    | WriteOut(p: nat)
    | SetCacheSize(slots: nat)

  /** The memory of the guest after one action, and after several. */
  ghost function AfterAction(blocks: seq<Block>, src: seq<Page>, a: Action): (r: seq<Page>)
    ensures |r| == |src|
  {
    if && a.Write? && a.block < |blocks| && a.offset < blocks[a.block].pages
       && blocks[a.block].base + a.offset < |src|
    then src[blocks[a.block].base + a.offset := a.data] else src
  }

  ghost function GuestMemory(blocks: seq<Block>, src: seq<Page>, script: seq<Action>): (r: seq<Page>)
    ensures |r| == |src|
  {
    if script == [] then src
    else AfterAction(blocks, GuestMemory(blocks, src, script[..|script| - 1]), script[|script| - 1])
  }

  /** One action; false, and nothing is done, if it is a send that would lose a page. */
  method Act(m: Migration, a: Action) returns (ok: bool)
    requires m.Valid() && !m.lastStage
    modifies m
    ensures m.Valid() && !m.lastStage && (!old(m.bulk) ==> ok && !m.bulk)
    ensures m.src == AfterAction(m.blocks, old(m.src), a)
    ensures ok <==> !(a.Save? && old(m.Loses()))
    ensures !ok ==> m.Loses()
  {
    ok := true;
    match a {
      case Write(block, offset, data) =>
        if block < |m.blocks| && offset < m.blocks[block].pages {
          var p := m.blocks[block].base + offset;
          assert InBlock(m.blocks[block], p);
          m.GuestWrite(p, data);
        }
      case SyncLog =>
        m.Sync();
      case Save =>
        if m.Loses() {
          return false;
        }
        var sent := m.RamSaveBlock();
      case WriteOut(p) =>
        if p in m.pending && p < |m.src| {
          m.Flush(p);
        }
      case SetCacheSize(slots) =>
        if slots > 0 {
          m.ResizeCache(slots);
        }
    }
  }

  /** Any interleaving of guest writes, syncs, sends and writes to the network; the first
      `n` actions are done.  `ok` is false when a send was about to lose a page; that is
      the only way to lose the invariant, and it needs the bulk stage. */
  method RunLive(m: Migration, script: seq<Action>) returns (ok: bool, ghost n: nat)
    requires m.Valid() && !m.lastStage
    modifies m
    ensures m.Valid() && !m.lastStage
    ensures n <= |script| && m.src == GuestMemory(m.blocks, old(m.src), script[..n])
    ensures if ok then n == |script| else n < |script| && script[n].Save? && m.Loses()
    ensures !old(m.bulk) ==> ok && !m.bulk
  {
    ok, n := true, 0;
    for i := 0 to |script|
      invariant m.Valid() && !m.lastStage && (!old(m.bulk) ==> !m.bulk)
      invariant ok && n == i && m.src == GuestMemory(m.blocks, old(m.src), script[..n])
    {
      assert script[..i + 1][..i] == script[..i];
      ok := Act(m, script[i]);
      if !ok {
        return;
      }
      n := n + 1;
    }
    assert script[..|script|] == script;
  }

  /** Writes out everything that is still queued. */
  method FlushAll(m: Migration)
    requires m.Valid()
    modifies m`dst, m`pending
    ensures m.Valid()
    ensures m.pending == {}
    ensures forall p | 0 <= p < |m.src| && !m.log[p] && Synced(old(m.Now()), p) :: m.dst[p] == m.src[p]
  {
    ghost var r := m.Now();
    while m.pending != {}
      invariant m.Valid()
      invariant forall p | 0 <= p < |m.src| && !m.log[p] && Synced(r, p) :: Synced(m.Now(), p)
      decreases m.pending
    {
      var p :| p in m.pending;
      m.Flush(p);
    }
  }

  /** A whole migration: whatever the guest does and however the sends interleave, both
      memories are equal in the end exactly if the completion loses no page.  `ok` is
      false if a send before that would lose one, and then the run ends there.  What is
      in the memories is what the guest wrote in the first `n` actions. */
  method Migrate(m: Migration, script: seq<Action>) returns (ok: bool, lost: bool, ghost n: nat)
    requires m.Valid() && !m.lastStage
    modifies m
    ensures n <= |script| && (ok ==> n == |script|) && m.src == GuestMemory(m.blocks, old(m.src), script[..n])
    ensures |m.dst| == |m.src|
    ensures !lost <==> forall p | 0 <= p < |m.src| && InRam(m.blocks, p) :: p !in m.pending && m.dst[p] == m.src[p]
    ensures !old(m.bulk) ==> ok && !lost
  {
    ok, n := RunLive(m, script);
    lost := m.RamSaveComplete();
    if !lost {
      FlushAll(m);
    }
  }

  /** A run that loses a page: of a block of two pages both are sent and written out, the
      guest writes to the last one, a sync finds it dirty, and the next send clears its
      bit without sending it. */
  method PageIsLost(src: seq<Page>, dst: seq<Page>, data: Page, useXbzrle: bool) returns (m: Migration)
    requires |src| == |dst| == 64 && data != src[1]
    ensures fresh(m) && m.blocks == [Block(0, 2)] && |m.src| == |m.dst| == |m.log| == 64
    ensures NoneDirty(m.blocks, m.bitmap) && !m.log[1] && 1 !in m.pending && m.src[1] == data && m.dst[1] == src[1]
    ensures !m.Valid()
  {
    var blocks := [Block(0, 2)];
    assert InBlock(blocks[0], 0) && InBlock(blocks[0], 1);
    m := new Migration(blocks, src, dst, seq(64, _ => false), 1, useXbzrle);
    SendTwo(m);
    LoseLast(m, data);
  }

  /** Sends the two pages of the only block, and writes out the second. */
  method SendTwo(m: Migration)
    requires m.Valid() && m.blocks == [Block(0, 2)] && m.bulk && m.lastSeen.None? && m.LogClean() && |m.src| >= 2
    requires m.bitmap[0] && m.bitmap[1] && !m.lastStage
    modifies m`bitmap, m`dirtyPages, m`dst, m`cache, m`pending, m`bulk, m`lastSeen, m`lastOffset
    ensures BothSent(m) && m.Valid()
  {
    var sent := m.RamSaveBlock();
    sent := m.RamSaveBlock();
    assert InBlock(m.blocks[0], 1);
    if 1 in m.pending {
      m.Flush(1);
    }
  }

  ghost predicate BothSent(m: Migration)
    reads m
  {
    && m.blocks == [Block(0, 2)] && m.bulk && m.lastSeen == Some(0) && m.lastOffset == 1 && !m.lastStage
    && |m.src| == |m.dst| == |m.log| == |m.bitmap| >= 2 && !m.bitmap[0] && !m.bitmap[1] && !m.log[0] && !m.log[1]
    && 1 !in m.pending && m.dst[1] == m.src[1]
  }

  /** The guest writes to the last page, and the next send loses it. */
  method LoseLast(m: Migration, data: Page)
    requires m.Valid() && BothSent(m) && data != m.src[1]
    modifies m
    ensures |m.src| == |m.dst| == |m.log| == old(|m.src|)
    ensures NoneDirty(m.blocks, m.bitmap) && !m.log[1] && 1 !in m.pending && m.src[1] == data
            && m.dst[1] == old(m.src[1])
    ensures !m.Valid()
  {
    assert InBlock(m.blocks[0], 0) && InBlock(m.blocks[0], 1);
    m.GuestWrite(1, data);
    m.Sync();
    DirtyAgain(m);
    var sent := m.RamSaveBlock();
  }

  /** The last page is the only dirty one. */
  lemma DirtyAgain(m: Migration)
    requires m.Valid() && m.blocks == [Block(0, 2)] && m.bulk && m.lastSeen == Some(0) && m.lastOffset == 1
    requires |m.bitmap| >= 2 && !m.bitmap[0] && m.bitmap[1]
    ensures m.Lossy()
  {
    assert InBlock(m.blocks[0], 1);
    assert DirtySet(m.blocks, m.bitmap) == {1};
  }
}
