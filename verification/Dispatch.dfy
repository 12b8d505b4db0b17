/** The memory dispatcher of an address space: the page map, the section table
    and the sub-page tables below it, built by one `MemAdd` per section and
    compared with a plain search of the list of sections.
  */
module Dispatch {
  import opened Target
  import opened PhysPageMap

  const UNASSIGNED_SECTION: Section := Section(IoUnassigned, 0, ADDR_SPACE, 0)

  /** A sub-page table: one section number for each byte of the page at `base`. */
  datatype SubpageTable = SubpageTable(base: nat, sub: seq<nat>)

  /** The meaning of an address: nothing, or an offset into a region. */
  datatype Meaning = Unassigned | To(mr: Region, offset: int)

  predicate Contains(s: Section, addr: nat) {
    s.offset <= addr < s.offset + s.size
  }

  function TargetOf(s: Section, addr: nat): Meaning {
    if s.mr == IoUnassigned then Unassigned else To(s.mr, addr - s.offset + s.offsetInRegion)
  }

  /** What the dispatcher must answer: the section of the list that contains the
      address. */
  function Search(added: seq<Section>, addr: nat): Meaning {
    if added == [] then Unassigned
    else
      var s := added[|added| - 1];
      if Contains(s, addr) then TargetOf(s, addr) else Search(added[..|added| - 1], addr)
  }

  ghost predicate Disjoint(added: seq<Section>) {
    forall i, j, addr: nat | 0 <= i < j < |added| && Contains(added[i], addr) :: !Contains(added[j], addr)
  }

  /** A section that the memory core hands to the dispatcher: not empty, inside
      the address space, and showing an ordinary region. */
  ghost predicate Proper(s: Section) {
    s.mr.Device? && 0 < s.size && s.offset + s.size <= ADDR_SPACE
  }

  lemma {:induction false} SearchMisses(added: seq<Section>, addr: nat)
    requires forall i | 0 <= i < |added| :: !Contains(added[i], addr)
    ensures Search(added, addr) == Unassigned
  {
    if added != [] {
      SearchMisses(added[..|added| - 1], addr);
    }
  }

  /** In a disjoint list the order of the search does not matter. */
  lemma {:induction false} SearchHits(added: seq<Section>, i: nat, addr: nat)
    requires Disjoint(added) && i < |added| && Contains(added[i], addr)
    ensures Search(added, addr) == TargetOf(added[i], addr)
  {
    var n := |added| - 1;
    if i < n {
      assert Disjoint(added[..n]);
      assert !Contains(added[n], addr);
      SearchHits(added[..n], i, addr);
    }
  }

  /** A page-aligned section used as a leaf covers exactly its pages. */
  lemma CoversPages(s: Section, addr: nat)
    requires 0 < s.size && s.offset + s.size <= ADDR_SPACE && addr < ADDR_SPACE
    ensures CoversByte(s, addr) <==> Contains(s, addr)
  {
  }

  /** Registering a leaf section on fresh pages keeps the table exact. */
  lemma ExactAdd(sections: seq<Section>, view: nat -> nat, leafs: set<nat>, s: Section, view': nat -> nat)
    requires Exact(sections, view, leafs)
    requires forall p: nat :: view(p) == SECTION_UNASSIGNED || view(p) in leafs
    requires SECTION_UNASSIGNED !in leafs
    requires s.offset % TARGET_PAGE_SIZE == 0 && s.size % TARGET_PAGE_SIZE == 0
    requires 0 < s.size && s.offset + s.size <= ADDR_SPACE
    requires forall p: nat :: view'(p) == if Contains(s, p * TARGET_PAGE_SIZE) then |sections| else view(p)
    requires forall p: nat | Contains(s, p * TARGET_PAGE_SIZE) :: view(p) == SECTION_UNASSIGNED
    ensures Exact(sections + [s], view', leafs + {|sections|})
  {
    forall x, addr: nat | x in leafs + {|sections|} && addr < ADDR_SPACE
      ensures CoversByte((sections + [s])[x], addr) <==> view'(addr / TARGET_PAGE_SIZE) == x
    {
      var p := addr / TARGET_PAGE_SIZE;
      assert Contains(s, p * TARGET_PAGE_SIZE) <==> Contains(s, addr);
      if x == |sections| {
        CoversPages(s, addr);
      } else {
        assert (sections + [s])[x] == sections[x];
      }
    }
  }

  ghost function Mapped(spec: nat -> Meaning, s: Section): nat -> Meaning {
    (addr: nat) => if Contains(s, addr) then TargetOf(s, addr) else spec(addr)
  }

  /** The tables of a dispatcher, with the view of the page map below them and
      the meaning they are to have. */
  datatype Tables = Tables(
    sections: seq<Section>,
    subpages: seq<SubpageTable>,
    view: nat -> nat,
    leafs: set<nat>,
    spec: nat -> Meaning)

  function PageOf(addr: nat): nat {
    addr / TARGET_PAGE_SIZE
  }

  /** The section an address resolves to once its page shows section `s`. */
  function ResolveIn(sections: seq<Section>, subpages: seq<SubpageTable>, s: nat, addr: nat): nat {
    if s < |sections| && sections[s].mr.Subpage? && sections[s].mr.table < |subpages|
       && |subpages[sections[s].mr.table].sub| == TARGET_PAGE_SIZE
    then subpages[sections[s].mr.table].sub[addr % TARGET_PAGE_SIZE]
    else s
  }

  ghost function Resolve(t: Tables, addr: nat): nat {
    ResolveIn(t.sections, t.subpages, t.view(PageOf(addr)), addr)
  }

  ghost predicate GoodTable(t: Tables, k: nat)
    requires k < |t.subpages|
  {
    && |t.subpages[k].sub| == TARGET_PAGE_SIZE
    && t.subpages[k].base % TARGET_PAGE_SIZE == 0
    && (forall i | 0 <= i < TARGET_PAGE_SIZE :: t.subpages[k].sub[i] < |t.sections|
          && (t.subpages[k].sub[i] == SECTION_UNASSIGNED || t.sections[t.subpages[k].sub[i]].mr.Device?))
  }

  ghost predicate Used(t: Tables, k: nat)
    requires k < |t.subpages|
  {
    exists i :: 0 <= i < |t.subpages[k].sub| && t.subpages[k].sub[i] != SECTION_UNASSIGNED
  }

  ghost predicate GoodLeaf(t: Tables, s: nat)
    requires s < |t.sections|
  {
    match t.sections[s].mr
    case Device(_) => true
    case Subpage(k) =>
      && k < |t.subpages|
      && t.sections[s].offset == t.subpages[k].base
      && t.sections[s].size == TARGET_PAGE_SIZE && t.sections[s].offsetInRegion == 0
    case _ => false
  }

  ghost predicate Resolves(t: Tables, addr: nat) {
    Resolve(t, addr) < |t.sections| && TargetOf(t.sections[Resolve(t, addr)], addr) == t.spec(addr)
  }

  /** The tables fit together and resolve every address as `spec` says. */
  ghost predicate Sound(t: Tables) {
    && 4 <= |t.sections| <= TARGET_PAGE_SIZE && t.sections[SECTION_UNASSIGNED] == UNASSIGNED_SECTION
    && Exact(t.sections, t.view, t.leafs)
    && (forall p: nat :: t.view(p) == SECTION_UNASSIGNED || t.view(p) in t.leafs)
    && (forall k | 0 <= k < |t.subpages| :: GoodTable(t, k))
    && (forall s | s in t.leafs :: 4 <= s && GoodLeaf(t, s))
    && (forall addr: nat | addr < ADDR_SPACE :: Resolves(t, addr))
  }

  /** Every sub-page table on the map has an entry. */
  ghost predicate TablesUsed(t: Tables) {
    forall s | s in t.leafs && s < |t.sections| && t.sections[s].mr.Subpage? && t.sections[s].mr.table < |t.subpages| ::
      Used(t, t.sections[s].mr.table)
  }

  ghost predicate Coherent(t: Tables) {
    Sound(t) && TablesUsed(t)
  }

  /** Every page with a section of its own has a byte with a meaning. */
  lemma ClaimedByte(t: Tables, p: nat) returns (addr: nat)
    requires Coherent(t) && p < ADDR_SPACE / TARGET_PAGE_SIZE
    requires t.view(p) != SECTION_UNASSIGNED
    ensures PageOf(addr) == p && addr < ADDR_SPACE && t.spec(addr) != Unassigned
  {
    var s := t.view(p);
    addr := p * TARGET_PAGE_SIZE;
    assert GoodLeaf(t, s);
    if t.sections[s].mr.Subpage? {
      var k := t.sections[s].mr.table;
      assert GoodTable(t, k) && Used(t, k);
      var i :| 0 <= i < |t.subpages[k].sub| && t.subpages[k].sub[i] != SECTION_UNASSIGNED;
      addr := addr + i;
    }
    assert Resolves(t, addr);
  }

  /** A byte without a meaning lies on an unassigned or a sub-page page. */
  lemma UnclaimedByte(t: Tables, addr: nat)
    requires Sound(t) && addr < ADDR_SPACE && t.spec(addr) == Unassigned
    ensures Resolve(t, addr) == SECTION_UNASSIGNED
    ensures var s := t.view(PageOf(addr));
            s == SECTION_UNASSIGNED || (s in t.leafs && t.sections[s].mr.Subpage?)
  {
    assert Resolves(t, addr);
    var s := t.view(PageOf(addr));
    if s != SECTION_UNASSIGNED {
      assert GoodLeaf(t, s);
      if t.sections[s].mr.Subpage? {
        assert GoodTable(t, t.sections[s].mr.table);
      }
    }
  }

  /** Registering whole unclaimed pages gives their bytes a meaning and changes
      nothing else. */
  ghost function WithPages(t: Tables, s: Section, view': nat -> nat): Tables {
    Tables(t.sections + [s], t.subpages, view', t.leafs + {|t.sections|}, Mapped(t.spec, s))
  }

  ghost predicate CanMapPages(t: Tables, s: Section) {
    && Coherent(t) && Proper(s) && |t.sections| < TARGET_PAGE_SIZE
    && s.offset % TARGET_PAGE_SIZE == 0 && s.size % TARGET_PAGE_SIZE == 0
    && (forall addr: nat | Contains(s, addr) :: t.spec(addr) == Unassigned)
  }

  lemma PagesFresh(t: Tables, s: Section, p: nat)
    requires CanMapPages(t, s) && Contains(s, p * TARGET_PAGE_SIZE)
    ensures t.view(p) == SECTION_UNASSIGNED
  {
    if t.view(p) != SECTION_UNASSIGNED {
      var addr := ClaimedByte(t, p);
    }
  }

  lemma WithPagesCoherent(t: Tables, s: Section, view': nat -> nat)
    requires CanMapPages(t, s)
    requires forall p: nat :: view'(p) == if Contains(s, p * TARGET_PAGE_SIZE) then |t.sections| else t.view(p)
    ensures Coherent(WithPages(t, s, view'))
  {
    var t' := WithPages(t, s, view');
    forall p: nat | Contains(s, p * TARGET_PAGE_SIZE)
      ensures t.view(p) == SECTION_UNASSIGNED
    {
      PagesFresh(t, s, p);
    }
    ExactAdd(t.sections, t.view, t.leafs, s, view');
    UsedFrame(t, t');
    forall k | 0 <= k < |t'.subpages|
      ensures GoodTable(t', k)
    {
      assert GoodTable(t, k);
    }
    forall x | x in t'.leafs
      ensures 4 <= x && GoodLeaf(t', x)
    {
      if x in t.leafs {
        LeafFrame(t, t', x);
      }
    }
    forall addr: nat | addr < ADDR_SPACE
      ensures Resolves(t', addr)
    {
      assert Contains(s, PageOf(addr) * TARGET_PAGE_SIZE) <==> Contains(s, addr);
      assert Resolves(t, addr);
      if !Contains(s, addr) {
        ResolveFrame(t, t', addr);
      }
    }
  }

  /** Adding sections does not disturb a leaf whose table is kept. */
  lemma LeafFrame(t: Tables, t': Tables, x: nat)
    requires x < |t.sections| && t.sections <= t'.sections && GoodLeaf(t, x)
    requires t.subpages <= t'.subpages
    ensures GoodLeaf(t', x)
  {
    assert t'.sections[x] == t.sections[x];
  }

  lemma UsedFrame(t: Tables, t': Tables)
    requires Sound(t) && TablesUsed(t) && t.sections <= t'.sections && t.subpages <= t'.subpages
    ensures forall s | s in t.leafs && t.sections[s].mr.Subpage? :: Used(t', t.sections[s].mr.table)
  {
    forall s | s in t.leafs && t.sections[s].mr.Subpage?
      ensures Used(t', t.sections[s].mr.table)
    {
      var k := t.sections[s].mr.table;
      assert GoodLeaf(t, s) && Used(t, k);
      var i :| 0 <= i < |t.subpages[k].sub| && t.subpages[k].sub[i] != SECTION_UNASSIGNED;
      assert t'.subpages[k].sub[i] != SECTION_UNASSIGNED;
    }
  }

  lemma ResolveFrame(t: Tables, t': Tables, addr: nat)
    requires Resolves(t, addr) && t.sections <= t'.sections && t.subpages <= t'.subpages
    requires t'.view(PageOf(addr)) == t.view(PageOf(addr)) && t'.spec(addr) == t.spec(addr)
    requires t.view(PageOf(addr)) < |t.sections|
    requires t.sections[t.view(PageOf(addr))].mr.Subpage? ==> t.sections[t.view(PageOf(addr))].mr.table < |t.subpages|
    ensures Resolves(t', addr)
  {
    var s := t.view(PageOf(addr));
    assert t'.sections[s] == t.sections[s];
    if t.sections[s].mr.Subpage? {
      assert t'.subpages[t.sections[s].mr.table] == t.subpages[t.sections[s].mr.table];
    }
  }

  // ---------------------------------------------------------------------
  // Sub-pages
  // ---------------------------------------------------------------------

  function EmptyTable(): seq<nat> {
    seq(TARGET_PAGE_SIZE, _ => SECTION_UNASSIGNED)
  }

  /** The section that stands for a sub-page table on the page map. */
  function TableSection(k: nat, base: nat): Section {
    Section(Subpage(k), base, TARGET_PAGE_SIZE, 0)
  }

  /** A new, empty sub-page table for the page at `base`. */
  ghost function WithTable(t: Tables, base: nat, view': nat -> nat): Tables {
    Tables(t.sections + [TableSection(|t.subpages|, base)], t.subpages + [SubpageTable(base, EmptyTable())],
           view', t.leafs + {|t.sections|}, t.spec)
  }

  lemma WithTableSound(t: Tables, base: nat, view': nat -> nat)
    requires Coherent(t) && |t.sections| < TARGET_PAGE_SIZE
    requires base % TARGET_PAGE_SIZE == 0 && base < ADDR_SPACE
    requires t.view(PageOf(base)) == SECTION_UNASSIGNED
    requires forall p: nat :: view'(p) == if p == PageOf(base) then |t.sections| else t.view(p)
    ensures Sound(WithTable(t, base, view'))
    ensures var t' := WithTable(t, base, view');
            forall s | s in t.leafs && t.sections[s].mr.Subpage? :: Used(t', t.sections[s].mr.table)
  {
    var t' := WithTable(t, base, view');
    var ts := TableSection(|t.subpages|, base);
    assert forall p: nat :: Contains(ts, p * TARGET_PAGE_SIZE) <==> p == PageOf(base);
    ExactAdd(t.sections, t.view, t.leafs, ts, view');
    UsedFrame(t, t');
    forall k | 0 <= k < |t'.subpages|
      ensures GoodTable(t', k)
    {
      if k < |t.subpages| {
        assert GoodTable(t, k);
      }
    }
    forall x | x in t'.leafs
      ensures 4 <= x && GoodLeaf(t', x)
    {
      if x in t.leafs {
        LeafFrame(t, t', x);
      }
    }
    forall addr: nat | addr < ADDR_SPACE
      ensures Resolves(t', addr)
    {
      assert Resolves(t, addr);
      if PageOf(addr) != PageOf(base) {
        ResolveFrame(t, t', addr);
      }
    }
  }

  /** A sub-page table with the bytes of section `s` set to section number `x`. */
  function Entered(sub: seq<nat>, s: Section, x: nat): seq<nat>
    requires |sub| == TARGET_PAGE_SIZE
  {
    var start := s.offset % TARGET_PAGE_SIZE;
    seq(|sub|, i requires 0 <= i < |sub| => if start <= i < start + s.size then x else sub[i])
  }

  /** Entering a piece of a page in sub-page table `k`. */
  ghost function WithPiece(t: Tables, k: nat, s: Section): Tables
    requires k < |t.subpages| && |t.subpages[k].sub| == TARGET_PAGE_SIZE
  {
    Tables(t.sections + [s],
           t.subpages[k := SubpageTable(t.subpages[k].base, Entered(t.subpages[k].sub, s, |t.sections|))],
           t.view, t.leafs, Mapped(t.spec, s))
  }

  /** `s` lies inside the page that sub-page table `k` serves. */
  ghost predicate CanEnter(t: Tables, k: nat, s: Section) {
    && Sound(t) && Proper(s) && |t.sections| < TARGET_PAGE_SIZE
    && k < |t.subpages|
    && s.offset % TARGET_PAGE_SIZE + s.size <= TARGET_PAGE_SIZE
    && t.view(PageOf(s.offset)) in t.leafs && t.sections[t.view(PageOf(s.offset))].mr == Subpage(k)
    && t.subpages[k].base == PageOf(s.offset) * TARGET_PAGE_SIZE
    && (forall x | x in t.leafs && t.sections[x].mr.Subpage? && t.sections[x].mr.table != k ::
          Used(t, t.sections[x].mr.table))
  }

  /** No other page uses the same table. */
  lemma TableServesPage(t: Tables, k: nat, addr: nat)
    requires Sound(t) && addr < ADDR_SPACE
    requires t.view(PageOf(addr)) in t.leafs && t.sections[t.view(PageOf(addr))].mr == Subpage(k)
    ensures k < |t.subpages| && t.subpages[k].base == PageOf(addr) * TARGET_PAGE_SIZE
  {
    var x := t.view(PageOf(addr));
    assert GoodLeaf(t, x);
    assert GoodTable(t, k);
    assert CoversByte(t.sections[x], addr);
    assert CoversByte(t.sections[x], PageOf(addr) * TARGET_PAGE_SIZE);
    assert t.sections[x].offset + TARGET_PAGE_SIZE <= ADDR_SPACE by {
      assert t.sections[x].offset % TARGET_PAGE_SIZE == 0;
    }
  }

  lemma PieceResolves(t: Tables, k: nat, s: Section, addr: nat)
    requires CanEnter(t, k, s) && addr < ADDR_SPACE && GoodTable(t, k)
    ensures Resolves(WithPiece(t, k, s), addr)
  {
    var t' := WithPiece(t, k, s);
    var x := t.view(PageOf(addr));
    assert Resolves(t, addr);
    if x != SECTION_UNASSIGNED {
      assert GoodLeaf(t, x);
      assert t'.sections[x] == t.sections[x];
      if t.sections[x].mr.Subpage? {
        var k' := t.sections[x].mr.table;
        TableServesPage(t, k', addr);
        assert GoodTable(t, k');
        assert k' == k ==> PageOf(addr) == PageOf(s.offset);
      }
    }
    assert Contains(s, addr) ==> PageOf(addr) == PageOf(s.offset);
  }

  lemma WithPieceCoherent(t: Tables, k: nat, s: Section)
    requires CanEnter(t, k, s) && |t.subpages[k].sub| == TARGET_PAGE_SIZE
    ensures Coherent(WithPiece(t, k, s))
  {
    var t' := WithPiece(t, k, s);
    assert GoodTable(t, k);
    forall x | x in t'.leafs
      ensures 4 <= x && GoodLeaf(t', x)
      ensures t'.sections[x].mr.Subpage? ==> Used(t', t'.sections[x].mr.table)
    {
      assert GoodLeaf(t, x);
      if t.sections[x].mr.Subpage? {
        var k' := t.sections[x].mr.table;
        if k' == k {
          assert t'.subpages[k].sub[s.offset % TARGET_PAGE_SIZE] != SECTION_UNASSIGNED;
        } else {
          assert Used(t, k');
          var i :| 0 <= i < |t.subpages[k'].sub| && t.subpages[k'].sub[i] != SECTION_UNASSIGNED;
          assert t'.subpages[k'].sub[i] != SECTION_UNASSIGNED;
        }
      }
    }
    forall j | 0 <= j < |t'.subpages|
      ensures GoodTable(t', j)
    {
      assert GoodTable(t, j);
    }
    forall addr: nat | addr < ADDR_SPACE
      ensures Resolves(t', addr)
    {
      PieceResolves(t, k, s, addr);
    }
  }

  // ---------------------------------------------------------------------
  // The length of an access
  // ---------------------------------------------------------------------

  /** How many of `plen` bytes from byte `at` of a section on are accessed; `size` is the
      size of the region. */
  function Shortened(size: nat, at: int, plen: nat): int {
    if size - at < plen then size - at else plen
  }

  /** The access ends within the region exactly if the section shows the region from its
      start on, or the region is long enough anyway. */
  lemma ShortenedIff(s: Section, size: nat, at: int, plen: nat)
    ensures at + s.offsetInRegion + Shortened(size, at, plen) <= size <==>
            s.offsetInRegion == 0 || at + s.offsetInRegion + plen <= size
  {
  }

  /** A section that shows the second page of a region of two pages. */
  lemma ShortenedTooLong()
    ensures var s, size, plen := Section(Device(0), 0, 0x400, 0x400), 0x800, 0x800;
            0 + s.offsetInRegion + Shortened(size, 0, plen) > size
  {
  }

  // ---------------------------------------------------------------------
  // The dispatcher
  // ---------------------------------------------------------------------

  class AddressSpaceDispatch {
    const pages: PageMap
    var sections: seq<Section>
    var subpages: seq<SubpageTable>
    ghost var spec: nat -> Meaning

    ghost function T(): Tables
      reads this, pages
    {
      Tables(sections, subpages, pages.view, pages.leafs, spec)
    }

    /** Between `mem_begin` and `mem_commit`. */
    ghost predicate Filling()
      reads this, pages
    {
      pages.Filling() && Coherent(T()) && |pages.nodes| <= 11 * |sections|
    }

    /** After `mem_commit`. */
    ghost predicate Committed()
      reads this, pages
    {
      Compacted(pages.Snap()) && Coherent(T())
    }

    /** `mem_begin`. */
    constructor ()
      ensures Filling() && fresh(pages)
      ensures forall addr: nat :: spec(addr) == Unassigned
      ensures |sections| == 4 && sections[0].mr == IoUnassigned && sections[1].mr == IoNotDirty
      ensures sections[2].mr == IoRom && sections[3].mr == IoWatch
      ensures forall s, addr: nat | s in sections && addr < ADDR_SPACE ::
                Contains(s, addr) && addr - s.offset + s.offsetInRegion == addr
    {
      pages := new PageMap();
      sections := [UNASSIGNED_SECTION,
                   Section(IoNotDirty, 0, ADDR_SPACE, 0),
                   Section(IoRom, 0, ADDR_SPACE, 0),
                   Section(IoWatch, 0, ADDR_SPACE, 0)];
      subpages := [];
      spec := (addr: nat) => Unassigned;
    }

    /** `ok` is false when the assertion on the number of sections fires. */
    method SectionAdd(s: Section) returns (ok: bool, index: nat)
      modifies this`sections
      ensures ok == (|old(sections)| < TARGET_PAGE_SIZE)
      ensures index == |old(sections)|
      ensures sections == if ok then old(sections) + [s] else old(sections)
    {
      index := |sections|;
      ok := |sections| < TARGET_PAGE_SIZE;
      if ok {
        sections := sections + [s];
      }
    }

    /** Registers whole pages with one leaf section. */
    method RegisterMultipage(s: Section) returns (ok: bool)
      requires Filling() && Proper(s)
      requires s.offset % TARGET_PAGE_SIZE == 0 && s.size % TARGET_PAGE_SIZE == 0
      requires forall addr: nat | Contains(s, addr) :: spec(addr) == Unassigned
      modifies this, pages
      ensures ok == (old(|sections|) < TARGET_PAGE_SIZE)
      ensures ok ==> Filling() && spec == Mapped(old(spec), s) && |sections| == old(|sections|) + 1
    {
      ghost var t := T();
      var start, num := s.offset / TARGET_PAGE_SIZE, s.size / TARGET_PAGE_SIZE;
      assert forall p: nat :: start <= p < start + num <==> Contains(s, p * TARGET_PAGE_SIZE);
      var index;
      ok, index := SectionAdd(s);
      if !ok {
        return;
      }
      forall p: nat | start <= p < start + num
        ensures pages.view(p) == SECTION_UNASSIGNED
      {
        PagesFresh(t, s, p);
      }
      spec := Mapped(spec, s);
      pages.AddLeaf(index);
      RootCovers(0);
      pages.PageSet(start, num, index);
      WithPagesCoherent(t, s, pages.view);
      assert T() == WithPages(t, s, pages.view);
    }

    /** Sets the entries `start` to `end` of a sub-page table. */
    method SubpageRegister(k: nat, start: nat, end: int, x: nat) returns (ret: int)
      requires k < |subpages| && |subpages[k].sub| == TARGET_PAGE_SIZE
      modifies this`subpages
      ensures start >= TARGET_PAGE_SIZE || end >= TARGET_PAGE_SIZE ==> ret == -1 && subpages == old(subpages)
      ensures start < TARGET_PAGE_SIZE && end < TARGET_PAGE_SIZE ==>
                && ret == 0
                && |subpages| == |old(subpages)|
                && (forall j | 0 <= j < |subpages| && j != k :: subpages[j] == old(subpages)[j])
                && subpages[k].base == old(subpages)[k].base && |subpages[k].sub| == TARGET_PAGE_SIZE
                && (forall i | 0 <= i < TARGET_PAGE_SIZE ::
                      subpages[k].sub[i] == if start <= i <= end then x else old(subpages)[k].sub[i])
    {
      if start >= TARGET_PAGE_SIZE || end >= TARGET_PAGE_SIZE {
        return -1;
      }
      var idx := start;
      while idx <= end
        invariant start <= idx && (idx == start || idx <= end + 1)
        invariant |subpages| == |old(subpages)|
        invariant forall j | 0 <= j < |subpages| && j != k :: subpages[j] == old(subpages)[j]
        invariant subpages[k].base == old(subpages)[k].base && |subpages[k].sub| == TARGET_PAGE_SIZE
        invariant forall i | 0 <= i < TARGET_PAGE_SIZE ::
                    subpages[k].sub[i] == if start <= i < idx then x else old(subpages)[k].sub[i]
      {
        subpages := subpages[k := SubpageTable(subpages[k].base, subpages[k].sub[idx := x])];
        idx := idx + 1;
      }
      ret := 0;
    }

    /** Puts a new sub-page table on the map. */
    method SubpageInit(base: nat) returns (ok: bool, k: nat)
      requires Filling() && base % TARGET_PAGE_SIZE == 0 && base < ADDR_SPACE
      requires pages.view(PageOf(base)) == SECTION_UNASSIGNED
      modifies this, pages
      ensures ok == (old(|sections|) < TARGET_PAGE_SIZE)
      ensures k == old(|subpages|) && spec == old(spec)
      ensures ok ==> T() == WithTable(old(T()), base, pages.view) && Sound(T()) && pages.Filling()
      ensures ok ==> forall p: nat :: pages.view(p) == if p == PageOf(base) then old(|sections|) else old(pages.view)(p)
      ensures ok ==> |pages.nodes| <= 11 * |sections|
      ensures ok ==> forall x | x in old(pages.leafs) && old(sections)[x].mr.Subpage? ::
                       Used(T(), old(sections)[x].mr.table)
    {
      ghost var t := T();
      k := |subpages|;
      subpages := subpages + [SubpageTable(base, EmptyTable())];
      var index;
      ok, index := SectionAdd(TableSection(k, base));
      if !ok {
        return;
      }
      pages.AddLeaf(index);
      RootCovers(PageOf(base));
      pages.PageSet(PageOf(base), 1, index);
      WithTableSound(t, base, pages.view);
      assert T() == WithTable(t, base, pages.view);
    }

    /** The sub-page table of the page at `base`, created when there is none. */
    method FindTable(base: nat) returns (ok: bool, k: nat)
      requires Filling() && base % TARGET_PAGE_SIZE == 0 && base < ADDR_SPACE
      requires exists addr: nat :: PageOf(addr) == PageOf(base) && addr < ADDR_SPACE && spec(addr) == Unassigned
      modifies this, pages
      ensures old(|sections|) + 1 <= TARGET_PAGE_SIZE ==> ok
      ensures ok ==> Sound(T()) && pages.Filling() && |pages.nodes| <= 11 * |sections|
      ensures ok ==> k < |subpages| && subpages[k].base == base && |sections| <= old(|sections|) + 1
      ensures ok ==> pages.view(PageOf(base)) in pages.leafs && sections[pages.view(PageOf(base))].mr == Subpage(k)
      ensures ok ==> forall x | x in pages.leafs && sections[x].mr.Subpage? && sections[x].mr.table != k ::
                       Used(T(), sections[x].mr.table)
      ensures spec == old(spec)
    {
      BuiltIsCompacted(pages.Snap());
      ghost var addr: nat :| PageOf(addr) == PageOf(base) && addr < ADDR_SPACE && spec(addr) == Unassigned;
      UnclaimedByte(T(), addr);
      var existing := pages.Find(base, sections);
      assert sections[existing].mr.Subpage? || sections[existing].mr == IoUnassigned;
      if !sections[existing].mr.Subpage? {
        ok, k := SubpageInit(base);
      } else {
        ok, k := true, sections[existing].mr.table;
        TableServesPage(T(), k, base);
      }
    }

    /** Enters a piece of a page in its sub-page table. */
    method EnterPiece(k: nat, s: Section) returns (ok: bool)
      requires Sound(T()) && pages.Filling() && |pages.nodes| <= 11 * |sections|
      requires |sections| < TARGET_PAGE_SIZE ==> CanEnter(T(), k, s)
      requires k < |subpages|
      modifies this`sections, this`subpages, this`spec
      ensures ok == (old(|sections|) < TARGET_PAGE_SIZE)
      ensures ok ==> Filling() && spec == Mapped(old(spec), s) && |sections| == old(|sections|) + 1
    {
      ghost var t := T();
      assert GoodTable(t, k);
      var index;
      ok, index := SectionAdd(s);
      if !ok {
        return;
      }
      var start := s.offset % TARGET_PAGE_SIZE;
      var ret := SubpageRegister(k, start, start + s.size - 1, index);
      spec := Mapped(spec, s);
      assert subpages[k].sub == Entered(t.subpages[k].sub, s, |t.sections|);
      assert T() == WithPiece(t, k, s);
      WithPieceCoherent(t, k, s);
    }

    /** Registers a piece of one page. */
    method RegisterSubpage(s: Section) returns (ok: bool)
      requires Filling() && Proper(s)
      requires s.offset % TARGET_PAGE_SIZE + s.size <= TARGET_PAGE_SIZE
      requires forall addr: nat | Contains(s, addr) :: spec(addr) == Unassigned
      modifies this, pages
      ensures old(|sections|) + 2 <= TARGET_PAGE_SIZE ==> ok
      ensures ok ==> Filling() && spec == Mapped(old(spec), s) && |sections| <= old(|sections|) + 2
    {
      var base := s.offset / TARGET_PAGE_SIZE * TARGET_PAGE_SIZE;
      assert Contains(s, s.offset) && PageOf(s.offset) == PageOf(base);
      var k;
      ok, k := FindTable(base);
      if ok {
        ok := EnterPiece(k, s);
      }
    }

    /** The loop of `MemAdd` has registered the section up to address `done`. */
    ghost predicate Added(section: Section, done: nat, spec0: nat -> Meaning)
      reads this
    {
      && section.offset <= done <= section.offset + section.size
      && (forall addr: nat :: spec(addr) == if section.offset <= addr < done then TargetOf(section, addr)
                              else spec0(addr))
    }

    /** The leading piece of a section that does not start on a page boundary. */
    method AddHead(section: Section) returns (ok: bool, now: Section)
      requires Filling() && Proper(section)
      requires forall addr: nat | Contains(section, addr) :: spec(addr) == Unassigned
      modifies this, pages
      ensures now.size <= section.size
      ensures ok ==> Filling() && Added(section, section.offset + now.size, old(spec))
      ensures ok ==> |sections| <= old(|sections|) + 2
      ensures now.size < section.size ==> (section.offset + now.size) % TARGET_PAGE_SIZE == 0
      ensures old(|sections|) + 2 <= TARGET_PAGE_SIZE ==> ok
    {
      now := section;
      if now.offset % TARGET_PAGE_SIZE != 0 {
        var aligned := (now.offset + TARGET_PAGE_SIZE - 1) % ADDR_SPACE / TARGET_PAGE_SIZE * TARGET_PAGE_SIZE;
        var left := (aligned - now.offset) % ADDR_SPACE;
        assert left == TARGET_PAGE_SIZE - now.offset % TARGET_PAGE_SIZE;
        now := now.(size := if left < now.size then left else now.size);
        ok := RegisterSubpage(now);
      } else {
        now := now.(size := 0);
        ok := true;
      }
    }

    /** The next piece of what remains of a section, which starts on a page
        boundary: the unaligned branch is never taken. */
    method AddNext(remain: Section) returns (ok: bool, now: Section)
      requires Filling() && Proper(remain) && remain.offset % TARGET_PAGE_SIZE == 0
      requires forall addr: nat | Contains(remain, addr) :: spec(addr) == Unassigned
      modifies this, pages
      ensures 0 < now.size <= remain.size
      ensures ok ==> Filling() && Added(remain, remain.offset + now.size, old(spec))
      ensures remain.size < TARGET_PAGE_SIZE ==> now.size == remain.size
      ensures remain.size - now.size < TARGET_PAGE_SIZE
              && now.size % TARGET_PAGE_SIZE == (if remain.size < TARGET_PAGE_SIZE then remain.size else 0)
      ensures ok ==> |sections| <= old(|sections|) + (if remain.size < TARGET_PAGE_SIZE then 2 else 1)
      ensures old(|sections|) + (if remain.size < TARGET_PAGE_SIZE then 2 else 1) <= TARGET_PAGE_SIZE ==> ok
    {
      now := remain;
      if remain.size < TARGET_PAGE_SIZE {
        ok := RegisterSubpage(now);
      } else if remain.offset % TARGET_PAGE_SIZE != 0 {
        assert false;
      } else {
        now := now.(size := now.size - now.size % TARGET_PAGE_SIZE);
        ok := RegisterMultipage(now);
      }
    }

    /** Sections used at most when `left` bytes of the section remain. */
    static function SectionsUsed(left: nat): nat {
      if left == 0 then 5 else if left < TARGET_PAGE_SIZE then 3 else 2
    }

    /** `mem_add`: splits a section into a leading piece of a page, whole pages
        and a trailing piece of a page.  `ok` is false when the section table is
        full. */
    method MemAdd(section: Section) returns (ok: bool)
      requires Filling() && Proper(section)
      requires forall addr: nat | Contains(section, addr) :: spec(addr) == Unassigned
      modifies this, pages
      ensures ok ==> Filling() && |sections| <= old(|sections|) + 5
      ensures ok ==> forall addr: nat :: spec(addr) == Mapped(old(spec), section)(addr)
      ensures old(|sections|) + 5 <= TARGET_PAGE_SIZE ==> ok
    {
      ghost var spec0 := spec;
      var now, remain := section, section;
      ok, now := AddHead(section);
      while ok && remain.size != now.size
        invariant remain.mr == section.mr && now.size <= remain.size
        invariant remain.offset + remain.size == section.offset + section.size
        invariant remain.offsetInRegion - remain.offset == section.offsetInRegion - section.offset
        invariant ok ==> Filling() && Added(section, remain.offset + now.size, spec0)
        invariant now.size < remain.size ==> (remain.offset + now.size) % TARGET_PAGE_SIZE == 0
        invariant ok ==> |sections| <= old(|sections|) + SectionsUsed(remain.size - now.size)
        invariant old(|sections|) + 5 <= TARGET_PAGE_SIZE ==> ok
        decreases remain.size - now.size
      {
        remain := Section(remain.mr, remain.offset + now.size, remain.size - now.size,
                          remain.offsetInRegion + now.size);
        assert forall addr: nat | Contains(remain, addr) :: Contains(section, addr) && spec(addr) == spec0(addr);
        assert forall addr: nat :: TargetOf(remain, addr) == TargetOf(section, addr);
        ok, now := AddNext(remain);
      }
    }

    /** `mem_commit`: the tree answers as before, and is compressed. */
    method Commit()
      requires Filling()
      modifies pages
      ensures Committed() && Short(pages.nodes, pages.physMap, P_L2_LEVELS)
    {
      pages.CompactAll(sections);
    }

    /** The section that the tables give for an address, with sub-pages resolved. */
    function Answer(addr: nat): nat
      reads this, pages
    {
      ResolveIn(sections, subpages, Lookup(pages.physMap, pages.nodes, sections, addr), addr)
    }

    /** The tables say what they are to say. */
    lemma AnswerIsSpec(addr: nat)
      requires Committed() && addr < ADDR_SPACE
      ensures Answer(addr) < |sections| && TargetOf(sections[Answer(addr)], addr) == spec(addr)
    {
      LookupIsView(pages.Snap(), sections, addr);
      assert Resolves(T(), addr);
    }

    /** The section of a whole page: all its bytes go to one region, or through a
        sub-page table for this page, which leads each byte where it is to go. */
    ghost predicate WholePage(s: Section, addr: nat)
      reads this
    {
      if s.mr.Subpage? then
        && s.offset == PageOf(addr) * TARGET_PAGE_SIZE && s.size == TARGET_PAGE_SIZE && s.offsetInRegion == 0
        && s.mr.table < |subpages| && |subpages[s.mr.table].sub| == TARGET_PAGE_SIZE
        && forall a: nat | a < ADDR_SPACE && PageOf(a) == PageOf(addr) :: TableLeads(s.mr.table, a)
      else
        forall a: nat | a < ADDR_SPACE && PageOf(a) == PageOf(addr) :: TargetOf(s, a) == spec(a)
    }

    ghost predicate TableLeads(k: nat, a: nat)
      requires k < |subpages| && |subpages[k].sub| == TARGET_PAGE_SIZE
      reads this
    {
      var x := subpages[k].sub[a % TARGET_PAGE_SIZE];
      x < |sections| && !sections[x].mr.Subpage? && TargetOf(sections[x], a) == spec(a)
    }

    lemma LeafIsWholePage(addr: nat)
      requires Committed() && addr < ADDR_SPACE
      ensures var x := pages.view(PageOf(addr)); x < |sections| && WholePage(sections[x], addr)
    {
      var x := pages.view(PageOf(addr));
      assert x == SECTION_UNASSIGNED || GoodLeaf(T(), x);
      forall a: nat | a < ADDR_SPACE && PageOf(a) == PageOf(addr)
        ensures Resolves(T(), a)
      {
      }
      if sections[x].mr.Subpage? {
        TableServesPage(T(), sections[x].mr.table, addr);
        assert GoodTable(T(), sections[x].mr.table);
      }
    }

    /** `address_space_lookup_region`: with sub-pages resolved, the section of the
        address, and otherwise the section of its whole page. */
    method LookupRegion(addr: nat, resolveSubpage: bool) returns (s: Section)
      requires Committed() && addr < ADDR_SPACE
      ensures resolveSubpage ==> Answer(addr) < |sections| && s == sections[Answer(addr)]
                                 && TargetOf(s, addr) == spec(addr)
      ensures !resolveSubpage ==> s in sections && WholePage(s, addr)
    {
      AnswerIsSpec(addr);
      LeafIsWholePage(addr);
      var x := pages.Find(addr, sections);
      s := sections[x];
      if resolveSubpage && s.mr.Subpage? {
        var table := subpages[s.mr.table];
        s := sections[table.sub[addr % TARGET_PAGE_SIZE]];
      }
    }

    /** `address_space_translate_internal`: the region, the offset in it and how many of
        `plen` bytes can be accessed there; `sizes` are the sizes of the regions.  `ok`
        is false where the assertion on the length fires.  The length stops the access
        at the end of the region for all lengths only if the section shows the region
        from its start on: the offset of the section in its region is not counted. */
    method Translate(addr: nat, plen: nat, sizes: Region -> nat, resolveSubpage: bool)
      returns (ok: bool, mr: Region, xlat: int, len: int, ghost s: Section)
      requires Committed() && addr < ADDR_SPACE && plen < ADDR_SPACE
      ensures resolveSubpage || !mr.Subpage? ==>
                if mr == IoUnassigned then spec(addr) == Unassigned else spec(addr) == To(mr, xlat)
      ensures !resolveSubpage ==> WholePage(s, addr) && (mr.Subpage? ==> xlat == addr % TARGET_PAGE_SIZE)
      ensures s in sections && mr == s.mr && xlat == addr - s.offset + s.offsetInRegion
      ensures ok <==> addr - s.offset <= sizes(mr)
      ensures len == Shortened(sizes(mr), addr - s.offset, plen)
      ensures xlat + len <= sizes(mr) <==> s.offsetInRegion == 0 || xlat + plen <= sizes(mr)
    {
      var section := LookupRegion(addr, resolveSubpage);
      var at := addr - section.offset;
      mr, xlat, s := section.mr, at + section.offsetInRegion, section;
      var diff := sizes(mr) - at;
      len := if diff < plen then diff else plen;
      ok := 0 <= len;
      ShortenedIff(section, sizes(mr), at, plen);
    }
  }

  /** A whole update of the memory map: `mem_begin`, one `mem_add` for each
      section and `mem_commit`.  The tables then answer every address as a search of
      the list of sections does: with the section that contains it, if there is one. */
  method Rebuild(added: seq<Section>) returns (ok: bool, d: AddressSpaceDispatch)
    requires Disjoint(added) && forall i | 0 <= i < |added| :: Proper(added[i])
    ensures ok ==> d.Committed() && forall addr: nat :: d.spec(addr) == Search(added, addr)
    ensures ok ==> forall addr: nat | addr < ADDR_SPACE ::
              d.Answer(addr) < |d.sections| && TargetOf(d.sections[d.Answer(addr)], addr) == Search(added, addr)
    ensures forall i, addr: nat | 0 <= i < |added| && Contains(added[i], addr) ::
              Search(added, addr) == TargetOf(added[i], addr)
    ensures 4 + 5 * |added| <= TARGET_PAGE_SIZE ==> ok
  {
    forall i, addr: nat | 0 <= i < |added| && Contains(added[i], addr)
      ensures Search(added, addr) == TargetOf(added[i], addr)
    {
      SearchHits(added, i, addr);
    }
    d := new AddressSpaceDispatch();
    ok := true;
    for i := 0 to |added|
      invariant fresh(d) && fresh(d.pages) && d.Filling() && ok
      invariant |d.sections| <= 4 + 5 * i
      invariant forall addr: nat :: d.spec(addr) == Search(added[..i], addr)
    {
      forall addr: nat | Contains(added[i], addr)
        ensures d.spec(addr) == Unassigned
      {
        SearchMisses(added[..i], addr);
      }
      assert added[..i + 1][..i] == added[..i];
      ok := d.MemAdd(added[i]);
      if !ok {
        return;
      }
    }
    assert added[..|added|] == added;
    d.Commit();
    forall addr: nat | addr < ADDR_SPACE
      ensures d.Answer(addr) < |d.sections| && TargetOf(d.sections[d.Answer(addr)], addr) == Search(added, addr)
    {
      d.AnswerIsSpec(addr);
    }
  }
}
