/** The list of RAM blocks: where a new block goes in the space of RAM addresses,
    the order of the list, and the lookup that remembers the block it found last. */
module RamList {
  import opened Common
  import opened Target

  const RAM_ADDR_MAX: nat := 0xffff_ffff_ffff_ffff

  datatype RAMBlock = RAMBlock(offset: nat, length: nat)

  function End(b: RAMBlock): nat {
    b.offset + b.length
  }

  predicate Contains(b: RAMBlock, addr: nat) {
    b.offset <= addr < End(b)
  }

  predicate Apart(b: RAMBlock, c: RAMBlock) {
    End(b) <= c.offset || End(c) <= b.offset
  }

  ghost predicate Disjoint(blocks: seq<RAMBlock>) {
    forall i, j | 0 <= i < j < |blocks| :: Apart(blocks[i], blocks[j])
  }

  /** From biggest to smallest. */
  ghost predicate Sorted(blocks: seq<RAMBlock>) {
    forall i, j | 0 <= i < j < |blocks| :: blocks[i].length >= blocks[j].length
  }

  predicate Proper(b: RAMBlock) {
    0 < b.length && End(b) <= RAM_ADDR_MAX
  }

  ghost predicate Good(blocks: seq<RAMBlock>) {
    && (forall i | 0 <= i < |blocks| :: Proper(blocks[i]))
    && Disjoint(blocks) && Sorted(blocks)
  }

  // ---------------------------------------------------------------------
  // Lookup
  // ---------------------------------------------------------------------

  /** The containment test as written, with one unsigned subtraction. */
  predicate ContainsWrapped(b: RAMBlock, addr: nat) {
    (addr - b.offset) % ADDR_SPACE < b.length
  }

  lemma WrappedTestExact(b: RAMBlock, addr: nat)
    requires End(b) <= ADDR_SPACE && addr < ADDR_SPACE
    ensures ContainsWrapped(b, addr) <==> Contains(b, addr)
  {
    if addr < b.offset {
      assert (addr - b.offset) % ADDR_SPACE == addr - b.offset + ADDR_SPACE;
    }
  }

  /** A search through the whole list. */
  function Search(blocks: seq<RAMBlock>, addr: nat): (r: Option<RAMBlock>)
    ensures r.Some? ==> r.value in blocks && Contains(r.value, addr)
    ensures r.None? ==> forall i | 0 <= i < |blocks| :: !Contains(blocks[i], addr)
  {
    if blocks == [] then None
    else if Contains(blocks[0], addr) then Some(blocks[0])
    else Search(blocks[1..], addr)
  }

  lemma SearchFinds(blocks: seq<RAMBlock>, addr: nat, b: RAMBlock)
    requires Disjoint(blocks) && b in blocks && Contains(b, addr)
    ensures Search(blocks, addr) == Some(b)
  {
    var i :| 0 <= i < |blocks| && blocks[i] == b;
    var r := Search(blocks, addr);
    assert r.Some?;
    var j :| 0 <= j < |blocks| && blocks[j] == r.value;
  }

  // ---------------------------------------------------------------------
  // Gaps
  // ---------------------------------------------------------------------

  /** Where the gap that begins at `end` ends: the first of the blocks from there on
      begins, or the address space ends. */
  function NextStart(blocks: seq<RAMBlock>, end: nat): (next: nat)
    ensures next <= RAM_ADDR_MAX
  {
    if blocks == [] then RAM_ADDR_MAX
    else
      var n := |blocks| - 1;
      var next := NextStart(blocks[..n], end);
      if end <= blocks[n].offset < next then blocks[n].offset else next
  }

  lemma {:induction false} NextStartMeaning(blocks: seq<RAMBlock>, end: nat)
    ensures var next := NextStart(blocks, end);
            && (next == RAM_ADDR_MAX || exists i :: 0 <= i < |blocks| && blocks[i].offset == next && end <= next)
            && (forall i | 0 <= i < |blocks| && blocks[i].offset >= end :: next <= blocks[i].offset
                                                                           || blocks[i].offset > RAM_ADDR_MAX)
  {
    if blocks != [] {
      var n := |blocks| - 1;
      var rest := blocks[..n];
      NextStartMeaning(rest, end);
      if i :| 0 <= i < |rest| && rest[i].offset == NextStart(rest, end) && end <= rest[i].offset {
        assert blocks[i] == rest[i];
      }
      forall i | 0 <= i < n
        ensures blocks[i] == rest[i]
      {
      }
    }
  }

  /** The size of the gap after block `i`. */
  function Gap(blocks: seq<RAMBlock>, i: nat): int
    requires i < |blocks|
  {
    NextStart(blocks, End(blocks[i])) - End(blocks[i])
  }

  /** The gap after block `i` is fitting, and of the first `n` gaps no fitting one is
      smaller, nor as small before it. */
  ghost predicate BestGap(blocks: seq<RAMBlock>, size: nat, i: nat, n: nat) {
    && i < |blocks| && Gap(blocks, i) >= size
    && (forall j | 0 <= j < n && j < |blocks| && Gap(blocks, j) >= size :: Gap(blocks, i) <= Gap(blocks, j))
    && (forall j | 0 <= j < i && j < |blocks| && Gap(blocks, j) >= size :: Gap(blocks, i) < Gap(blocks, j))
  }

  ghost predicate NoGap(blocks: seq<RAMBlock>, size: nat, n: nat) {
    forall j | 0 <= j < n && j < |blocks| :: Gap(blocks, j) < size
  }

  /** A fitting gap holds no part of a block. */
  lemma GapIsFree(blocks: seq<RAMBlock>, i: nat, size: nat)
    requires Good(blocks) && i < |blocks| && Gap(blocks, i) >= size
    ensures forall j | 0 <= j < |blocks| :: Apart(RAMBlock(End(blocks[i]), size), blocks[j])
    ensures End(blocks[i]) + size <= RAM_ADDR_MAX
  {
    NextStartMeaning(blocks, End(blocks[i]));
    forall j | 0 <= j < |blocks|
      ensures Apart(RAMBlock(End(blocks[i]), size), blocks[j])
    {
      assert i != j ==> Apart(blocks[i], blocks[j]);
      assert Proper(blocks[i]) && Proper(blocks[j]);
    }
  }

  /** The place that `find_ram_offset` chooses. */
  ghost predicate Chosen(blocks: seq<RAMBlock>, size: nat, offset: nat) {
    if blocks == [] then offset == 0
    else exists i: nat :: BestGap(blocks, size, i, |blocks|) && offset == End(blocks[i])
  }

  lemma ChosenIsFree(blocks: seq<RAMBlock>, size: nat, offset: nat)
    requires Good(blocks) && 0 < size <= RAM_ADDR_MAX && Chosen(blocks, size, offset)
    ensures Proper(RAMBlock(offset, size))
    ensures forall j | 0 <= j < |blocks| :: Apart(RAMBlock(offset, size), blocks[j])
  {
    if blocks != [] {
      var i: nat :| BestGap(blocks, size, i, |blocks|) && offset == End(blocks[i]);
      GapIsFree(blocks, i, size);
    }
  }

  // ---------------------------------------------------------------------
  // Changing the list
  // ---------------------------------------------------------------------

  function Inserted(blocks: seq<RAMBlock>, i: nat, b: RAMBlock): (r: seq<RAMBlock>)
    requires i <= |blocks|
    ensures |r| == |blocks| + 1
    ensures forall k | 0 <= k < |r| :: r[k] == if k < i then blocks[k] else if k == i then b else blocks[k - 1]
    ensures multiset(r) == multiset(blocks) + multiset{b}
  {
    assert blocks == blocks[..i] + blocks[i..];
    blocks[..i] + [b] + blocks[i..]
  }

  /** The list with one block more, before the first that is smaller. */
  ghost predicate InsertedInOrder(blocks: seq<RAMBlock>, b: RAMBlock, blocks': seq<RAMBlock>) {
    exists i: nat :: i <= |blocks| && blocks' == Inserted(blocks, i, b)
                     && (i < |blocks| ==> blocks[i].length < b.length)
                     && forall j | 0 <= j < i :: blocks[j].length >= b.length
  }

  function Removed(blocks: seq<RAMBlock>, i: nat): (r: seq<RAMBlock>)
    requires i < |blocks|
    ensures |r| == |blocks| - 1
    ensures forall k | 0 <= k < |r| :: r[k] == if k < i then blocks[k] else blocks[k + 1]
    ensures multiset(r) == multiset(blocks) - multiset{blocks[i]}
  {
    assert blocks == blocks[..i] + [blocks[i]] + blocks[i + 1..];
    blocks[..i] + blocks[i + 1..]
  }

  lemma InsertDisjoint(blocks: seq<RAMBlock>, i: nat, b: RAMBlock)
    requires Disjoint(blocks) && i <= |blocks| && forall j | 0 <= j < |blocks| :: Apart(b, blocks[j])
    ensures Disjoint(Inserted(blocks, i, b))
  {
  }

  lemma InsertSorted(blocks: seq<RAMBlock>, i: nat, b: RAMBlock)
    requires Sorted(blocks) && i <= |blocks|
    requires forall j | 0 <= j < i :: blocks[j].length >= b.length
    requires i < |blocks| ==> blocks[i].length < b.length
    ensures Sorted(Inserted(blocks, i, b))
  {
  }

  lemma RemoveKeeps(blocks: seq<RAMBlock>, i: nat)
    requires Good(blocks) && i < |blocks|
    ensures Good(Removed(blocks, i))
  {
  }

  class RAMList {
    var blocks: seq<RAMBlock>
    var mru: Option<RAMBlock>

    ghost predicate Valid()
      reads this
    {
      Good(blocks) && (mru.Some? ==> mru.value in blocks)
    }

    constructor ()
      ensures Valid() && blocks == []
    {
      blocks, mru := [], None;
    }

    /** `qemu_get_ram_block`: with its cache, the same as a search of the whole list;
        `None` where the program aborts. */
    method GetRamBlock(addr: nat) returns (r: Option<RAMBlock>)
      requires Valid() && addr < ADDR_SPACE
      modifies this`mru
      ensures Valid() && r == Search(blocks, addr)
    {
      if mru.Some? {
        WrappedTestExact(mru.value, addr);
        if ContainsWrapped(mru.value, addr) {
          SearchFinds(blocks, addr, mru.value);
          return mru;
        }
      }
      for i := 0 to |blocks|
        invariant mru == old(mru)
        invariant forall j | 0 <= j < i :: !Contains(blocks[j], addr)
      {
        WrappedTestExact(blocks[i], addr);
        if ContainsWrapped(blocks[i], addr) {
          SearchFinds(blocks, addr, blocks[i]);
          mru := Some(blocks[i]);
          return mru;
        }
      }
      r := None;
    }

    /** The inner loop of `find_ram_offset`. */
    method NextBlock(end: nat) returns (next: nat)
      requires end <= RAM_ADDR_MAX
      ensures next == NextStart(blocks, end)
    {
      next := RAM_ADDR_MAX;
      for i := 0 to |blocks|
        invariant next == NextStart(blocks[..i], end)
      {
        assert blocks[..i + 1][..i] == blocks[..i];
        if blocks[i].offset >= end {
          next := if next < blocks[i].offset then next else blocks[i].offset;
        }
      }
      assert blocks[..|blocks|] == blocks;
    }

    /** `find_ram_offset`: the smallest fitting gap that follows some block; `None`
        where the program aborts. */
    method FindRamOffset(size: nat) returns (r: Option<nat>)
      requires Valid() && 0 < size
      ensures r.Some? ==> Chosen(blocks, size, r.value)
      ensures r.None? <==> blocks != [] && NoGap(blocks, size, |blocks|)
    {
      if blocks == [] {
        return Some(0);
      }
      var offset, mingap := RAM_ADDR_MAX, RAM_ADDR_MAX;
      ghost var at: nat := 0;
      for i := 0 to |blocks|
        invariant offset == RAM_ADDR_MAX ==> mingap == RAM_ADDR_MAX && NoGap(blocks, size, i)
        invariant offset != RAM_ADDR_MAX ==>
                    at < i && offset == End(blocks[at]) && mingap == Gap(blocks, at) && BestGap(blocks, size, at, i)
      {
        assert Proper(blocks[i]);
        var end := End(blocks[i]);
        var next := NextBlock(end);
        assert next - end == Gap(blocks, i);
        if next - end >= size && next - end < mingap {
          offset, mingap, at := end, next - end, i;
        }
      }
      if offset == RAM_ADDR_MAX {
        return None;
      }
      r := Some(offset);
    }

    /** The place of a block of this size in the list. */
    method FindPlace(length: nat) returns (i: nat)
      requires Valid()
      ensures i <= |blocks| && (i < |blocks| ==> blocks[i].length < length)
      ensures forall j | 0 <= j < i :: blocks[j].length >= length
    {
      i := 0;
      while i < |blocks| && blocks[i].length >= length
        invariant 0 <= i <= |blocks|
        invariant forall j | 0 <= j < i :: blocks[j].length >= length
      {
        i := i + 1;
      }
    }

    /** Puts a block into its place in the list. */
    method Insert(b: RAMBlock)
      requires Valid() && Proper(b) && forall j | 0 <= j < |blocks| :: Apart(b, blocks[j])
      modifies this
      ensures Valid() && InsertedInOrder(old(blocks), b, blocks) && mru.None?
    {
      var i := FindPlace(b.length);
      InsertDisjoint(blocks, i, b);
      InsertSorted(blocks, i, b);
      blocks := Inserted(blocks, i, b);
      mru := None;
    }

    /** The list part of `qemu_ram_alloc_from_ptr`; `None` where the program aborts,
        for want of a gap or because the rounded size is zero. */
    method Alloc(bytes: nat) returns (r: Option<nat>)
      requires Valid() && bytes < ADDR_SPACE
      modifies this
      ensures Valid()
      ensures r.None? <==> PageAlign(bytes) == 0
                           || (old(blocks) != [] && NoGap(old(blocks), PageAlign(bytes), |old(blocks)|))
      ensures r.None? ==> blocks == old(blocks)
      ensures r.Some? ==> Chosen(old(blocks), PageAlign(bytes), r.value)
      ensures r.Some? ==> InsertedInOrder(old(blocks), RAMBlock(r.value, PageAlign(bytes)), blocks)
    {
      var size := PageAlign(bytes);
      if size == 0 {
        return None;
      }
      r := FindRamOffset(size);
      if r.Some? {
        ChosenIsFree(blocks, size, r.value);
        Insert(RAMBlock(r.value, size));
      }
    }

    /** `qemu_ram_free`: the block at `addr` goes, if there is one. */
    method Free(addr: nat)
      requires Valid()
      modifies this
      ensures Valid()
      ensures forall k | 0 <= k < |blocks| :: blocks[k].offset != addr
      ensures blocks == old(blocks) || exists i: nat :: i < |old(blocks)| && old(blocks)[i].offset == addr
                                                        && blocks == Removed(old(blocks), i)
    {
      for i := 0 to |blocks|
        invariant blocks == old(blocks) && mru == old(mru)
        invariant forall j | 0 <= j < i :: blocks[j].offset != addr
      {
        if blocks[i].offset == addr {
          RemoveKeeps(blocks, i);
          forall j | 0 <= j < |blocks| && j != i ensures blocks[j].offset != addr { OnlyOneAt(blocks, i, j); }
          blocks := Removed(blocks, i);
          mru := None;
          return;
        }
      }
    }
  }

  /** `TARGET_PAGE_ALIGN` on 64 bits. */
  function PageAlign(bytes: nat): (r: nat)
    ensures r % TARGET_PAGE_SIZE == 0 && r < ADDR_SPACE
    ensures bytes <= ADDR_SPACE - TARGET_PAGE_SIZE ==> bytes <= r < bytes + TARGET_PAGE_SIZE
    ensures ADDR_SPACE - TARGET_PAGE_SIZE < bytes < ADDR_SPACE ==> r == 0
  {
    (bytes + TARGET_PAGE_SIZE - 1) / TARGET_PAGE_SIZE * TARGET_PAGE_SIZE % ADDR_SPACE
  }

  /** Two blocks do not begin at the same place. */
  lemma OnlyOneAt(blocks: seq<RAMBlock>, i: nat, j: nat)
    requires Good(blocks) && i < |blocks| && j < |blocks| && i != j
    ensures blocks[i].offset != blocks[j].offset
  {
    assert Proper(blocks[i]) && Proper(blocks[j]);
    assert if i < j then Apart(blocks[i], blocks[j]) else Apart(blocks[j], blocks[i]);
  }
}
