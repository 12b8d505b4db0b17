/** The pages of guest memory in order, as a dump goes through them. */
module DumpPages {
  import opened Common
  import opened Target
  import opened ElfDump

  datatype Page = Page(pfn: nat, data: seq<byte>)

  /** Blocks are made of whole pages. */
  predicate PageBlock(b: GuestPhysBlock) {
    b.start % TARGET_PAGE_SIZE == 0 && |b.data| % TARGET_PAGE_SIZE == 0 && b.data != []
  }

  ghost predicate PageBlocks(blocks: seq<GuestPhysBlock>) {
    blocks != [] && Ordered(blocks) && forall i | 0 <= i < |blocks| :: PageBlock(blocks[i])
  }

  function Count(b: GuestPhysBlock): nat {
    |b.data| / TARGET_PAGE_SIZE
  }

  function PageAt(b: GuestPhysBlock, j: nat): Page
    requires j < Count(b)
  {
    Page(b.start / TARGET_PAGE_SIZE + j, b.data[j * TARGET_PAGE_SIZE..j * TARGET_PAGE_SIZE + TARGET_PAGE_SIZE])
  }

  /** The pages before page `j` of block `i`. */
  function PagesUpTo(blocks: seq<GuestPhysBlock>, i: nat, j: nat): seq<Page>
    requires i <= |blocks| && (if i < |blocks| then j <= Count(blocks[i]) else j == 0)
    decreases i, j
  {
    if j > 0 then PagesUpTo(blocks, i, j - 1) + [PageAt(blocks[i], j - 1)]
    else if i > 0 then PagesUpTo(blocks, i - 1, Count(blocks[i - 1]))
    else []
  }

  /** All pages of guest memory. */
  function AllPages(blocks: seq<GuestPhysBlock>): seq<Page> {
    PagesUpTo(blocks, |blocks|, 0)
  }

  /** Page `p` is guest memory. */
  ghost predicate GuestPage(blocks: seq<GuestPhysBlock>, p: nat) {
    exists i :: 0 <= i < |blocks| && InBlock(blocks[i], p * TARGET_PAGE_SIZE)
  }

  lemma {:induction false} PagesPrefix(blocks: seq<GuestPhysBlock>, i: nat, j: nat)
    requires i <= |blocks| && (if i < |blocks| then j <= Count(blocks[i]) else j == 0)
    ensures PagesUpTo(blocks, i, j) <= AllPages(blocks)
    decreases |blocks| - i, if i < |blocks| then Count(blocks[i]) - j else 0
  {
    if i < |blocks| {
      if j < Count(blocks[i]) {
        PagesPrefix(blocks, i, j + 1);
      } else {
        PagesPrefix(blocks, i + 1, 0);
      }
    }
  }

  /** Every page of the list is guest memory, with its contents. */
  lemma {:induction false} PagesAreMemory(blocks: seq<GuestPhysBlock>, i: nat, j: nat, k: nat)
    requires forall b | b in blocks :: PageBlock(b)
    requires i <= |blocks| && (if i < |blocks| then j <= Count(blocks[i]) else j == 0)
    requires k < |PagesUpTo(blocks, i, j)|
    ensures var p := PagesUpTo(blocks, i, j)[k];
            |p.data| == TARGET_PAGE_SIZE && Memory(blocks, p.pfn * TARGET_PAGE_SIZE, p.data)
    decreases i, j
  {
    if j > 0 {
      if k < |PagesUpTo(blocks, i, j - 1)| {
        PagesAreMemory(blocks, i, j - 1, k);
      } else {
        PageIsMemory(blocks, i, j - 1);
      }
    } else if i > 0 {
      PagesAreMemory(blocks, i - 1, Count(blocks[i - 1]), k);
    }
  }

  lemma PageIsMemory(blocks: seq<GuestPhysBlock>, i: nat, j: nat)
    requires i < |blocks| && j < Count(blocks[i]) && PageBlock(blocks[i])
    ensures var p := PageAt(blocks[i], j);
            |p.data| == TARGET_PAGE_SIZE && Memory(blocks, p.pfn * TARGET_PAGE_SIZE, p.data)
  {
    var p := PageAt(blocks[i], j);
    assert p.pfn * TARGET_PAGE_SIZE == blocks[i].start + j * TARGET_PAGE_SIZE;
    assert BlockHas(blocks[i], p.pfn * TARGET_PAGE_SIZE, p.data);
  }

  /** Every guest page is in the list. */
  lemma GuestPageListed(blocks: seq<GuestPhysBlock>, p: nat)
    requires (forall b | b in blocks :: PageBlock(b)) && GuestPage(blocks, p)
    ensures exists k :: 0 <= k < |AllPages(blocks)| && AllPages(blocks)[k].pfn == p
  {
    var i :| 0 <= i < |blocks| && InBlock(blocks[i], p * TARGET_PAGE_SIZE);
    var b := blocks[i];
    assert PageBlock(b);
    var j := p - b.start / TARGET_PAGE_SIZE;
    assert 0 <= j < Count(b);
    PagesPrefix(blocks, i, j + 1);
    var k := |PagesUpTo(blocks, i, j)|;
    assert PagesUpTo(blocks, i, j + 1)[k] == PageAt(b, j);
  }

  /** The end of guest memory, in pages: `max_mapnr`. */
  function MaxMapnr(blocks: seq<GuestPhysBlock>): nat
    requires blocks != []
  {
    End(blocks[|blocks| - 1]) / TARGET_PAGE_SIZE
  }

  class PageIterator {
    const blocks: seq<GuestPhysBlock>
    var block: Option<nat>
    var pfn: nat
    /** The page of the block that the iterator is at. */
    ghost var j: nat

    ghost predicate Valid()
      reads this
    {
      && PageBlocks(blocks)
      && (block.Some? ==> block.value < |blocks| && j < Count(blocks[block.value])
                          && pfn == blocks[block.value].start / TARGET_PAGE_SIZE + j)
    }

    /** The pages that the iterator has gone through. */
    ghost function Seen(): seq<Page>
      requires Valid()
      reads this
    {
      if block.None? then [] else PagesUpTo(blocks, block.value, j + 1)
    }

    constructor (blocks: seq<GuestPhysBlock>)
      requires PageBlocks(blocks)
      ensures Valid() && this.blocks == blocks && Seen() == []
    {
      this.blocks, block, pfn, j := blocks, None, 0, 0;
    }

    /** The pages before the one that the iterator is at. */
    ghost function Before(): seq<Page>
      requires Valid() && block.Some?
      reads this
    {
      PagesUpTo(blocks, block.value, j)
    }

    /** Moves on within a block, or to the next block. */
    method Advance() returns (more: bool)
      requires Valid() && block.Some?
      modifies this
      ensures more ==> Valid() && block.Some? && Before() == old(Seen()) && old(pfn) < pfn
      ensures !more ==> old(Seen()) == AllPages(blocks) && old(pfn) + 1 == MaxMapnr(blocks)
    {
      var i := block.value;
      var b := blocks[i];
      pfn := pfn + 1;
      var addr := pfn * TARGET_PAGE_SIZE;
      assert PageBlock(b);
      PlaceInBlock(b, j + 1, pfn);
      more := true;
      if addr >= b.start && addr + TARGET_PAGE_SIZE <= End(b) {
        j := j + 1;
      } else if i + 1 == |blocks| {
        more := false;
      } else {
        LaterBlock(blocks, i);
        assert PageBlock(blocks[i + 1]);
        block, pfn, j := Some(i + 1), blocks[i + 1].start / TARGET_PAGE_SIZE, 0;
      }
    }

    /** `get_next_page`: the next page, or nothing when all pages have been seen. */
    method Next() returns (r: Option<Page>)
      requires Valid()
      modifies this
      ensures r.Some? ==> Valid() && Seen() == old(Seen()) + [r.value] && |Seen()| <= |AllPages(blocks)|
      ensures r.Some? && old(block).Some? ==> old(pfn) < r.value.pfn
      ensures r.Some? ==> block.Some? && pfn == r.value.pfn < MaxMapnr(blocks)
      ensures r.None? ==> old(Seen()) == AllPages(blocks) && old(block).Some? && old(pfn) + 1 == MaxMapnr(blocks)
    {
      if block.None? {
        assert PageBlock(blocks[0]);
        block, pfn, j := Some(0), blocks[0].start / TARGET_PAGE_SIZE, 0;
      } else {
        var more := Advance();
        if !more {
          return None;
        }
      }
      assert Before() == old(Seen());
      r := AtPage();
      assert Seen() == Before() + [PageAt(blocks[block.value], j)];
    }

    /** The page at the iterator's place. */
    method AtPage() returns (r: Option<Page>)
      requires Valid() && block.Some?
      ensures r.Some? && r.value == PageAt(blocks[block.value], j) && pfn == r.value.pfn < MaxMapnr(blocks)
      ensures |Seen()| <= |AllPages(blocks)|
    {
      var b := blocks[block.value];
      BelowMax(blocks, block.value, j);
      PagesPrefix(blocks, block.value, j + 1);
      var at := pfn * TARGET_PAGE_SIZE - b.start;
      PlaceInBlock(b, j, pfn);
      r := Some(Page(pfn, b.data[at..at + TARGET_PAGE_SIZE]));
    }
  }

  lemma PlaceInBlock(b: GuestPhysBlock, j: nat, pfn: nat)
    requires PageBlock(b) && pfn == b.start / TARGET_PAGE_SIZE + j
    ensures pfn * TARGET_PAGE_SIZE == b.start + j * TARGET_PAGE_SIZE
    ensures j < Count(b) <==> pfn * TARGET_PAGE_SIZE + TARGET_PAGE_SIZE <= End(b)
  {
  }

  lemma LaterBlock(blocks: seq<GuestPhysBlock>, i: nat)
    requires PageBlocks(blocks) && i + 1 < |blocks|
    ensures blocks[i].start / TARGET_PAGE_SIZE + Count(blocks[i]) <= blocks[i + 1].start / TARGET_PAGE_SIZE
  {
    assert End(blocks[i]) <= blocks[i + 1].start;
    assert PageBlock(blocks[i]) && PageBlock(blocks[i + 1]);
  }

  lemma BelowMax(blocks: seq<GuestPhysBlock>, i: nat, j: nat)
    requires PageBlocks(blocks) && i < |blocks| && j < Count(blocks[i])
    ensures blocks[i].start / TARGET_PAGE_SIZE + j < MaxMapnr(blocks)
  {
    var n := |blocks| - 1;
    assert i < n ==> End(blocks[i]) <= blocks[n].start;
    assert PageBlock(blocks[i]) && PageBlock(blocks[n]);
  }

  /** The page numbers increase and stay below `n`. */
  ghost predicate IncreaseBelow(ps: seq<Page>, n: nat) {
    && (forall a, b | 0 <= a < b < |ps| :: ps[a].pfn < ps[b].pfn)
    && (forall a | 0 <= a < |ps| :: ps[a].pfn < n)
  }

  lemma IncreaseAppend(ps: seq<Page>, p: Page)
    requires IncreaseBelow(ps, p.pfn)
    ensures IncreaseBelow(ps + [p], p.pfn + 1)
  {
  }

  /** Pages come in the order of their numbers, so that the descriptors are in the order
      of the bits. */
  lemma {:induction false} PagesIncrease(blocks: seq<GuestPhysBlock>, i: nat, j: nat)
    requires PageBlocks(blocks) && i < |blocks| && j <= Count(blocks[i])
    ensures IncreaseBelow(PagesUpTo(blocks, i, j), blocks[i].start / TARGET_PAGE_SIZE + j)
    decreases i, j
  {
    if j > 0 {
      PagesIncrease(blocks, i, j - 1);
      IncreaseAppend(PagesUpTo(blocks, i, j - 1), PageAt(blocks[i], j - 1));
    } else if i > 0 {
      PagesIncrease(blocks, i - 1, Count(blocks[i - 1]));
      LaterBlock(blocks, i - 1);
    }
  }

  lemma AllPagesIncrease(blocks: seq<GuestPhysBlock>, a: nat, b: nat)
    requires PageBlocks(blocks) && a < b < |AllPages(blocks)|
    ensures AllPages(blocks)[a].pfn < AllPages(blocks)[b].pfn
  {
    var n := |blocks| - 1;
    PagesIncrease(blocks, n, Count(blocks[n]));
  }
}
