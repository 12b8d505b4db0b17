/** The KVM memory slots: guest physical memory as a set of intervals, kept in a
    fixed array and mirrored in the kernel.  Adding a section overwrites its
    range, deleting it erases the range, and slots that stick out are cut. */
module KvmSlots {
  import opened Common
  import opened Target

  /** Host addresses are plain integers. */
  datatype KVMSlot = KVMSlot(start: nat, size: nat, ram: int)

  predicate In(x: KVMSlot, a: nat) {
    x.start <= a < x.start + x.size
  }

  predicate Meets(x: KVMSlot, s: nat, e: nat) {
    x.size > 0 && e > x.start && s < x.start + x.size
  }

  ghost predicate Apart(x: KVMSlot, y: KVMSlot) {
    x.size > 0 ==> !Meets(y, x.start, x.start + x.size)
  }

  ghost predicate Disjoint(ss: seq<KVMSlot>) {
    forall i, j | 0 <= i < |ss| && 0 <= j < |ss| && i != j :: Apart(ss[i], ss[j])
  }

  /** No slot ends beyond 2^64. */
  ghost predicate Bounded(ss: seq<KVMSlot>) {
    forall i | 0 <= i < |ss| :: ss[i].start + ss[i].size <= ADDR_SPACE
  }

  /** The meaning of the slots: guest address `a` is host address `h`. */
  ghost predicate Maps(ss: seq<KVMSlot>, a: nat, h: int) {
    exists i :: 0 <= i < |ss| && In(ss[i], a) && h == ss[i].ram + a - ss[i].start
  }

  lemma MapsOnce(ss: seq<KVMSlot>, a: nat, h: int, h': int)
    requires Disjoint(ss) && Maps(ss, a, h) && Maps(ss, a, h')
    ensures h == h'
  {
    var i :| 0 <= i < |ss| && In(ss[i], a) && h == ss[i].ram + a - ss[i].start;
    var j :| 0 <= j < |ss| && In(ss[j], a) && h' == ss[j].ram + a - ss[j].start;
    assert Apart(ss[i], ss[j]) || i == j;
  }

  // ---------------------------------------------------------------------
  // What a section asks for
  // ---------------------------------------------------------------------

  datatype MemoryRegion = MemoryRegion(isRam: bool, readonly: bool, romDevice: bool, romdMode: bool, ramPtr: int)
  datatype Section = Section(mr: MemoryRegion, offsetInRegion: nat, start: nat, size: nat)
  datatype Change = Change(start: nat, size: nat, add: bool, ram: int)

  /** Bytes by which `size` falls short of whole pages. */
  function Delta(size: nat): (r: nat)
    ensures (size + r) % TARGET_PAGE_SIZE == 0 && r < TARGET_PAGE_SIZE
  {
    (TARGET_PAGE_SIZE - size % TARGET_PAGE_SIZE) % TARGET_PAGE_SIZE
  }

  /** The whole pages in `size` bytes. */
  function Whole(size: nat): (r: nat)
    ensures r % TARGET_PAGE_SIZE == 0 && r <= size < r + TARGET_PAGE_SIZE
  {
    size - size % TARGET_PAGE_SIZE
  }

  /** The change that `kvm_set_phys_mem` makes for a section, if any. */
  function Wanted(x: Section, add: bool, readonlyAllowed: bool): (r: Option<Change>)
    ensures r.Some? ==> x.start <= r.value.start && r.value.start + r.value.size <= x.start + x.size
    ensures r.Some? ==> 0 < r.value.size && r.value.start % TARGET_PAGE_SIZE == 0 == r.value.size % TARGET_PAGE_SIZE
    ensures r.Some? && r.value.add ==> add
  {
    var delta := Delta(x.size);
    if delta > x.size then None
    else
      var start := x.start + delta;
      var whole := Whole(x.size - delta);
      if whole == 0 || start % TARGET_PAGE_SIZE != 0 then None
      else if !x.mr.isRam && ((!x.mr.readonly && !x.mr.romDevice) || !readonlyAllowed) then None
      else Some(Change(start, whole, add && (x.mr.isRam || x.mr.romdMode), x.mr.ramPtr + x.offsetInRegion + delta))
  }

  /** Page `k` lies in the section as a whole. */
  predicate WholePage(x: Section, k: nat) {
    x.start <= k * TARGET_PAGE_SIZE && (k + 1) * TARGET_PAGE_SIZE <= x.start + x.size
  }

  /** Whether KVM takes notice of a region: of RAM, and, if the kernel knows read-only
      memory, of ROM and of ROM devices. */
  predicate Noticed(mr: MemoryRegion, readonlyAllowed: bool) {
    mr.isRam || (readonlyAllowed && (mr.readonly || mr.romDevice))
  }

  /** Whether the guest can access a region directly, once it is added: a ROM device
      that is not in ROM mode traps. */
  predicate Direct(mr: MemoryRegion) {
    mr.isRam || mr.romdMode
  }

  /** The update of a section decides what is at address `a`: the address is in one of
      its whole pages, and the adjustment does not miss those. */
  predicate Decides(x: Section, readonlyAllowed: bool, a: nat) {
    && Noticed(x.mr, readonlyAllowed) && x.start % TARGET_PAGE_SIZE == x.size % TARGET_PAGE_SIZE
    && WholePage(x, a / TARGET_PAGE_SIZE)
  }

  /** Where address `a` of a section is in the memory of the host. */
  function HostAddress(x: Section, a: nat): int {
    x.mr.ramPtr + x.offsetInRegion + (a - x.start)
  }

  predicate InChange(r: Option<Change>, a: nat) {
    r.Some? && r.value.start <= a < r.value.start + r.value.size
  }

  /** A run of whole pages holds an address exactly if it holds the page of the address. */
  lemma PagesHold(start: nat, size: nat, a: nat)
    requires start % TARGET_PAGE_SIZE == 0 == size % TARGET_PAGE_SIZE
    ensures start <= a < start + size <==>
            var k := a / TARGET_PAGE_SIZE;
            start <= k * TARGET_PAGE_SIZE && (k + 1) * TARGET_PAGE_SIZE <= start + size
  {
  }

  /** The change concerns exactly the addresses that the section decides, and puts them
      where they are in the section's region, or nowhere. */
  lemma WantedMeaning(x: Section, add: bool, readonlyAllowed: bool, a: nat)
    ensures var r := Wanted(x, add, readonlyAllowed);
            && (InChange(r, a) <==> Decides(x, readonlyAllowed, a))
            && (r.Some? ==> (r.value.add <==> add && Direct(x.mr)))
            && (r.Some? ==> r.value.ram + a - r.value.start == HostAddress(x, a))
  {
    var r, k := Wanted(x, add, readonlyAllowed), a / TARGET_PAGE_SIZE;
    DeltaAligns(x.start, x.size);
    if r.Some? {
      PagesHold(r.value.start, r.value.size, a);
    }
    if Decides(x, readonlyAllowed, a) {
      FirstBoundary(x.start, Delta(x.size), k);
      LastBoundary(x.start + Delta(x.size), x.size - Delta(x.size), k + 1);
    }
  }

  /** The map of the slots after an update: the addresses that the section decides are in
      its region, or nowhere, and all others are where they were. */
  ghost predicate Applied(ss: seq<KVMSlot>, ss': seq<KVMSlot>, x: Section, add: bool, readonlyAllowed: bool) {
    forall a: nat, h: int :: Maps(ss', a, h) <==>
      if Decides(x, readonlyAllowed, a) then add && Direct(x.mr) && h == HostAddress(x, a) else Maps(ss, a, h)
  }

  lemma AppliedIff(ss: seq<KVMSlot>, ss': seq<KVMSlot>, x: Section, add: bool, readonlyAllowed: bool)
    ensures var r := Wanted(x, add, readonlyAllowed);
            if r.None? then ss' == ss ==> Applied(ss, ss', x, add, readonlyAllowed)
            else Applied(ss, ss', x, add, readonlyAllowed) <==> Changed(ss, ss', r.value)
  {
    var r := Wanted(x, add, readonlyAllowed);
    forall a: nat
      ensures InChange(r, a) <==> Decides(x, readonlyAllowed, a)
      ensures r.Some? ==> r.value.ram + a - r.value.start == HostAddress(x, a)
      ensures r.Some? ==> (r.value.add <==> add && Direct(x.mr))
    {
      WantedMeaning(x, add, readonlyAllowed, a);
    }
  }

  ghost predicate AllWholePages(x: Section, r: Option<Change>) {
    forall k: nat | WholePage(x, k) ::
      r.Some? && r.value.start <= k * TARGET_PAGE_SIZE && (k + 1) * TARGET_PAGE_SIZE <= r.value.start + r.value.size
  }

  lemma DeltaAligns(start: nat, size: nat)
    ensures (start + Delta(size)) % TARGET_PAGE_SIZE == 0 <==> start % TARGET_PAGE_SIZE == size % TARGET_PAGE_SIZE
  {
    var a, b := start % 1024, size % 1024;
    assert Delta(size) == if b == 0 then 0 else 1024 - b;
    assert (start + Delta(size)) % 1024 == (a + Delta(size)) % 1024;
  }

  /** The first page boundary at or after `start` is no later than any other. */
  lemma FirstBoundary(start: nat, delta: nat, k: nat)
    requires delta < TARGET_PAGE_SIZE && (start + delta) % TARGET_PAGE_SIZE == 0 && start <= k * TARGET_PAGE_SIZE
    ensures start + delta <= k * TARGET_PAGE_SIZE
  {
  }

  /** The last page boundary within `size` bytes. */
  lemma LastBoundary(start: nat, size: nat, k: nat)
    requires start % TARGET_PAGE_SIZE == 0 && start <= k * TARGET_PAGE_SIZE <= start + size
    ensures k * TARGET_PAGE_SIZE <= start + Whole(size)
  {
  }

  /** The adjustment takes every whole page of a RAM section exactly when the start
      and the size are the same number of bytes past a page boundary, or when there
      is no whole page to take. */
  lemma WholePagesTaken(x: Section, add: bool, readonlyAllowed: bool)
    requires x.mr.isRam
    ensures AllWholePages(x, Wanted(x, add, readonlyAllowed))
            <==> (x.start % TARGET_PAGE_SIZE == x.size % TARGET_PAGE_SIZE || forall k: nat :: !WholePage(x, k))
  {
    DeltaAligns(x.start, x.size);
    if x.start % TARGET_PAGE_SIZE == x.size % TARGET_PAGE_SIZE {
      forall k: nat | WholePage(x, k)
        ensures var r := Wanted(x, add, readonlyAllowed);
                r.Some? && r.value.start <= k * TARGET_PAGE_SIZE
                && (k + 1) * TARGET_PAGE_SIZE <= r.value.start + r.value.size
      {
        PageTaken(x, add, readonlyAllowed, k);
      }
    }
  }

  /** A page and a half from a page boundary on: the page is missed. */
  lemma PageMissed()
    ensures var x := Section(MemoryRegion(true, false, false, false, 0), 0, 0, TARGET_PAGE_SIZE + 0x200);
            WholePage(x, 0) && Wanted(x, true, true) == None
  {
    assert Delta(TARGET_PAGE_SIZE + 0x200) == 0x200;
  }

  lemma PageTaken(x: Section, add: bool, readonlyAllowed: bool, k: nat)
    requires x.mr.isRam && WholePage(x, k) && (x.start + Delta(x.size)) % TARGET_PAGE_SIZE == 0
    ensures var r := Wanted(x, add, readonlyAllowed);
            r.Some? && r.value.start <= k * TARGET_PAGE_SIZE
            && (k + 1) * TARGET_PAGE_SIZE <= r.value.start + r.value.size
  {
    var delta := Delta(x.size);
    FirstBoundary(x.start, delta, k);
    LastBoundary(x.start + delta, x.size - delta, k + 1);
  }

  // ---------------------------------------------------------------------
  // The end of the address space
  // ---------------------------------------------------------------------

  /** The overlap test as written, with 64-bit sums. */
  predicate MeetsWrapped(x: KVMSlot, s: nat, n: nat) {
    && x.size > 0
    && (s + n) % ADDR_SPACE > x.start
    && s < (x.start + x.size) % ADDR_SPACE
  }

  /** The wrapped test finds an overlap exactly if neither end is 2^64. */
  lemma WrappedTest(x: KVMSlot, s: nat, n: nat)
    requires 0 < n && s + n <= ADDR_SPACE && x.start + x.size <= ADDR_SPACE
    ensures MeetsWrapped(x, s, n) <==> Meets(x, s, s + n) && s + n < ADDR_SPACE && x.start + x.size < ADDR_SPACE
  {
    if s + n < ADDR_SPACE {
      assert (s + n) % ADDR_SPACE == s + n;
    } else {
      assert (s + n) % ADDR_SPACE == 0;
    }
    if x.start + x.size < ADDR_SPACE {
      assert (x.start + x.size) % ADDR_SPACE == x.start + x.size;
    } else {
      assert (x.start + x.size) % ADDR_SPACE == 0;
    }
  }

  /** The wrapped test is exact unless an overlapping slot or section ends at 2^64. */
  lemma WrappedTestExact(x: KVMSlot, s: nat, n: nat)
    requires 0 < n && s + n <= ADDR_SPACE && x.start + x.size <= ADDR_SPACE
    ensures (MeetsWrapped(x, s, n) <==> Meets(x, s, s + n))
            <==> (s + n < ADDR_SPACE && x.start + x.size < ADDR_SPACE) || !Meets(x, s, s + n)
  {
    WrappedTest(x, s, n);
  }

  /** A slot with the last page of the address space does not even meet itself. */
  lemma LastPageUnseen()
    ensures var x := KVMSlot(ADDR_SPACE - TARGET_PAGE_SIZE, TARGET_PAGE_SIZE, 0);
            Meets(x, x.start, x.start + x.size) && !MeetsWrapped(x, x.start, x.size)
  {
    var x := KVMSlot(ADDR_SPACE - TARGET_PAGE_SIZE, TARGET_PAGE_SIZE, 0);
    WrappedTest(x, x.start, x.size);
  }

  /** Some slot meets the range of a change, and the test does not see it. */
  ghost predicate Blind(ss: seq<KVMSlot>, c: Change) {
    exists i :: 0 <= i < |ss| && Meets(ss[i], c.start, c.start + c.size) && !MeetsWrapped(ss[i], c.start, c.size)
  }

  /** The update of a section decides an address of a slot that is not found: the slot or
      the last page of the section is at the end of the address space. */
  ghost predicate Unseen(ss: seq<KVMSlot>, x: Section, readonlyAllowed: bool) {
    exists i, a: nat :: 0 <= i < |ss| && In(ss[i], a) && Decides(x, readonlyAllowed, a)
                        && (Hidden(ss[i]) || Decides(x, readonlyAllowed, ADDR_SPACE - 1))
  }

  lemma UnseenIff(ss: seq<KVMSlot>, x: Section, add: bool, readonlyAllowed: bool)
    requires Bounded(ss) && x.start + x.size <= ADDR_SPACE
    ensures var r := Wanted(x, add, readonlyAllowed);
            Unseen(ss, x, readonlyAllowed) <==> r.Some? && Blind(ss, r.value)
  {
    var r := Wanted(x, add, readonlyAllowed);
    WantedMeaning(x, add, readonlyAllowed, ADDR_SPACE - 1);
    if Unseen(ss, x, readonlyAllowed) {
      var i, a: nat :| 0 <= i < |ss| && In(ss[i], a) && Decides(x, readonlyAllowed, a)
                       && (Hidden(ss[i]) || Decides(x, readonlyAllowed, ADDR_SPACE - 1));
      WantedMeaning(x, add, readonlyAllowed, a);
      WrappedTest(ss[i], r.value.start, r.value.size);
    }
    if r.Some? && Blind(ss, r.value) {
      var c := r.value;
      var i :| 0 <= i < |ss| && Meets(ss[i], c.start, c.start + c.size) && !MeetsWrapped(ss[i], c.start, c.size);
      WrappedTest(ss[i], c.start, c.size);
      var a := if ss[i].start < c.start then c.start else ss[i].start;
      WantedMeaning(x, add, readonlyAllowed, a);
      assert In(ss[i], a);
    }
  }

  /** Slot `m` is found and maps the whole range of an addition as it is to be. */
  ghost predicate FitsInto(ss: seq<KVMSlot>, m: nat, c: Change)
    requires m < |ss|
  {
    && c.add && MeetsWrapped(ss[m], c.start, c.size) && ss[m].start <= c.start
    && c.start + c.size <= ss[m].start + ss[m].size && c.ram - c.start == ss[m].ram - ss[m].start
  }

  ghost predicate Present(ss: seq<KVMSlot>, c: Change) {
    exists m: nat :: m < |ss| && FitsInto(ss, m, c)
  }

  /** No other slot is found for the range. */
  lemma PresentIsFound(ss: seq<KVMSlot>, c: Change, i: nat)
    requires Disjoint(ss) && Bounded(ss) && 0 < c.size && c.start + c.size <= ADDR_SPACE && Present(ss, c)
    requires i < |ss| && MeetsWrapped(ss[i], c.start, c.size)
    ensures FitsInto(ss, i, c)
  {
    var m: nat :| m < |ss| && FitsInto(ss, m, c);
    WrappedTest(ss[i], c.start, c.size);
    WrappedTest(ss[m], c.start, c.size);
    OnlyMeeting(ss, m, c.start, c.start + c.size);
  }

  /** Slots that end at 2^64 are as they were, and no other one does. */
  ghost predicate SameHidden(ss: seq<KVMSlot>, ss': seq<KVMSlot>) {
    |ss| == |ss'| && forall i | 0 <= i < |ss| && (Hidden(ss[i]) || Hidden(ss'[i])) :: ss'[i] == ss[i]
  }

  predicate Hidden(x: KVMSlot) {
    x.size > 0 && x.start + x.size == ADDR_SPACE
  }

  ghost predicate NoneHidden(ss: seq<KVMSlot>) {
    forall i | 0 <= i < |ss| :: !Hidden(ss[i])
  }

  lemma HiddenTransitive(ss: seq<KVMSlot>, ss': seq<KVMSlot>, ss'': seq<KVMSlot>)
    requires SameHidden(ss, ss') && SameHidden(ss', ss'')
    ensures SameHidden(ss, ss'')
  {
  }

  /** When no slot that is seen meets the range, the slots that do are those that were
      not seen before. */
  lemma BlindStays(ss: seq<KVMSlot>, ss': seq<KVMSlot>, c: Change)
    requires Bounded(ss) && Bounded(ss') && SameHidden(ss, ss') && 0 < c.size && c.start + c.size <= ADDR_SPACE
    requires c.start + c.size == ADDR_SPACE ==> ss' == ss
    requires forall i | 0 <= i < |ss'| :: !MeetsWrapped(ss'[i], c.start, c.size)
    ensures Blind(ss, c) <==> Meeting(ss', c.start, c.start + c.size) != {}
  {
    forall i | 0 <= i < |ss|
      ensures Meets(ss[i], c.start, c.start + c.size) && !MeetsWrapped(ss[i], c.start, c.size)
              <==> Meets(ss'[i], c.start, c.start + c.size)
    {
      WrappedTest(ss[i], c.start, c.size);
      WrappedTest(ss'[i], c.start, c.size);
    }
    if Blind(ss, c) {
      var i :| 0 <= i < |ss| && Meets(ss[i], c.start, c.start + c.size) && !MeetsWrapped(ss[i], c.start, c.size);
      assert i in Meeting(ss', c.start, c.start + c.size);
    }
    if Meeting(ss', c.start, c.start + c.size) != {} {
      var i :| i in Meeting(ss', c.start, c.start + c.size);
      assert Meets(ss[i], c.start, c.start + c.size);
    }
  }

  /** A slot that covers the range and is seen hides no other. */
  lemma CoveredNotBlind(ss: seq<KVMSlot>, ss': seq<KVMSlot>, m: nat, c: Change)
    requires Bounded(ss) && Bounded(ss') && Disjoint(ss') && SameHidden(ss, ss') && 0 < c.size
             && c.start + c.size <= ADDR_SPACE
    requires m < |ss'| && MeetsWrapped(ss'[m], c.start, c.size)
    requires ss'[m].start <= c.start && c.start + c.size <= ss'[m].start + ss'[m].size
    ensures !Blind(ss, c)
  {
    OnlyMeeting(ss', m, c.start, c.start + c.size);
    WrappedTest(ss'[m], c.start, c.size);
    forall i | 0 <= i < |ss| && Meets(ss[i], c.start, c.start + c.size)
      ensures MeetsWrapped(ss[i], c.start, c.size)
    {
      WrappedTest(ss[i], c.start, c.size);
    }
  }

  // ---------------------------------------------------------------------
  // Cutting a slot
  // ---------------------------------------------------------------------

  ghost function Used(ss: seq<KVMSlot>): set<nat> {
    set i | 0 <= i < |ss| && ss[i].size > 0
  }

  ghost function Meeting(ss: seq<KVMSlot>, s: nat, e: nat): set<nat> {
    set i | 0 <= i < |ss| && Meets(ss[i], s, e)
  }

  lemma UsedFill(ss: seq<KVMSlot>, i: nat, x: KVMSlot)
    requires i < |ss| && ss[i].size == 0 && x.size > 0
    ensures |Used(ss[i := x])| == |Used(ss)| + 1
  {
    assert Used(ss[i := x]) == Used(ss) + {i};
  }

  lemma UsedFree(ss: seq<KVMSlot>, i: nat, x: KVMSlot)
    requires i < |ss| && ss[i].size > 0 && x.size == 0
    ensures |Used(ss[i := x])| == |Used(ss)| - 1
  {
    assert Used(ss[i := x]) == Used(ss) - {i};
  }

  lemma {:induction false} UsedSize(ss: seq<KVMSlot>)
    ensures |Used(ss)| <= |ss|
    ensures |Used(ss)| == |ss| <==> forall i | 0 <= i < |ss| :: ss[i].size > 0
  {
    if ss == [] {
      assert Used(ss) == {};
    } else {
      var n := |ss| - 1;
      var rest := ss[..n];
      UsedSize(rest);
      assert Used(ss) == Used(rest) + if ss[n].size > 0 then {n} else {};
      assert forall i | 0 <= i < n :: ss[i] == rest[i];
    }
  }

  /** The two sets of slots agree on all addresses outside of `[s, e)`. */
  ghost predicate SameOutside(ss: seq<KVMSlot>, ss': seq<KVMSlot>, s: nat, e: nat) {
    forall a: nat, h: int | !(s <= a < e) :: Maps(ss, a, h) <==> Maps(ss', a, h)
  }

  /** The slots after a change `c`: outside of its range every address is where it
      was, inside it is in the new RAM, or nowhere. */
  ghost predicate Changed(ss: seq<KVMSlot>, ss': seq<KVMSlot>, c: Change) {
    && SameOutside(ss, ss', c.start, c.start + c.size)
    && (forall a: nat, h: int | c.start <= a < c.start + c.size ::
          Maps(ss', a, h) <==> c.add && h == c.ram + a - c.start)
  }

  /** The part of slot `x` below `s`, and the part from `e` on. */
  function Prefix(x: KVMSlot, s: nat): KVMSlot
    requires x.start < s
  {
    KVMSlot(x.start, s - x.start, x.ram)
  }

  function Suffix(x: KVMSlot, e: nat): KVMSlot
    requires x.start <= e < x.start + x.size
  {
    KVMSlot(e, x.size - (e - x.start), x.ram + (e - x.start))
  }

  ghost predicate ApartFromAll(x: KVMSlot, ss: seq<KVMSlot>) {
    forall j | 0 <= j < |ss| :: Apart(x, ss[j])
  }

  /** Freeing a slot unmaps exactly its addresses. */
  lemma FreeMaps(ss: seq<KVMSlot>, m: nat, ss': seq<KVMSlot>)
    requires Disjoint(ss) && m < |ss| && ss[m].size > 0 && ss' == ss[m := ss[m].(size := 0)]
    ensures Disjoint(ss') && ApartFromAll(ss[m], ss')
    ensures forall a: nat, h: int :: Maps(ss', a, h) <==> Maps(ss, a, h) && !In(ss[m], a)
  {
    forall a: nat, h: int
      ensures Maps(ss', a, h) <==> Maps(ss, a, h) && !In(ss[m], a)
    {
      if Maps(ss', a, h) {
        var i :| 0 <= i < |ss'| && In(ss'[i], a) && h == ss'[i].ram + a - ss'[i].start;
        assert i != m && Apart(ss[m], ss[i]);
        assert In(ss[i], a);
      }
      if Maps(ss, a, h) && !In(ss[m], a) {
        var i :| 0 <= i < |ss| && In(ss[i], a) && h == ss[i].ram + a - ss[i].start;
        assert In(ss'[i], a);
      }
    }
  }

  /** Filling a free slot maps exactly its addresses in addition. */
  lemma FillMaps(ss: seq<KVMSlot>, m: nat, x: KVMSlot, ss': seq<KVMSlot>)
    requires Disjoint(ss) && m < |ss| && ss[m].size == 0 && x.size > 0 && ApartFromAll(x, ss) && ss' == ss[m := x]
    ensures Disjoint(ss')
    ensures forall a: nat, h: int :: Maps(ss', a, h) <==> Maps(ss, a, h) || (In(x, a) && h == x.ram + a - x.start)
  {
    forall a: nat, h: int
      ensures Maps(ss', a, h) <==> Maps(ss, a, h) || (In(x, a) && h == x.ram + a - x.start)
    {
      if Maps(ss, a, h) {
        var i :| 0 <= i < |ss| && In(ss[i], a) && h == ss[i].ram + a - ss[i].start;
        assert In(ss'[i], a);
      }
      if In(x, a) && h == x.ram + a - x.start {
        assert In(ss'[m], a);
      }
    }
  }

  /** A slot that covers the whole range is the only one that meets it. */
  lemma OnlyMeeting(ss: seq<KVMSlot>, m: nat, s: nat, e: nat)
    requires Disjoint(ss) && m < |ss| && s < e && ss[m].start <= s && e <= ss[m].start + ss[m].size
    ensures forall i | 0 <= i < |ss| && i != m :: !Meets(ss[i], s, e)
  {
    forall i | 0 <= i < |ss| && i != m
      ensures !Meets(ss[i], s, e)
    {
      assert Apart(ss[m], ss[i]);
    }
  }

  /** `ss'` is `ss`, or `ss` with slot `x` in a free place where `x` is wanted. */
  ghost predicate Filled(ss: seq<KVMSlot>, ss': seq<KVMSlot>, wanted: bool, i: nat, x: KVMSlot) {
    if wanted then i < |ss| && ss[i].size == 0 && x.size > 0 && ApartFromAll(x, ss) && ss' == ss[i := x]
    else ss' == ss
  }

  /** Slot `m` is cut at `s` and `e`: `s1` without the slot, `s2` with its prefix
      and `s3` with its suffix. */
  ghost predicate IsCut(ss: seq<KVMSlot>, m: nat, s: nat, e: nat, s1: seq<KVMSlot>, i: nat, s2: seq<KVMSlot>, j: nat,
                        s3: seq<KVMSlot>) {
    && Disjoint(ss) && m < |ss| && s < e && Meets(ss[m], s, e)
    && s1 == ss[m := ss[m].(size := 0)]
    && Filled(s1, s2, ss[m].start < s, i, if ss[m].start < s then Prefix(ss[m], s) else ss[m])
    && Filled(s2, s3, ss[m].start + ss[m].size > e, j, if ss[m].start + ss[m].size > e then Suffix(ss[m], e) else ss[m])
  }

  /** Cutting a slot changes nothing outside of the range. */
  lemma CutMaps(ss: seq<KVMSlot>, m: nat, s: nat, e: nat, s1: seq<KVMSlot>, i: nat, s2: seq<KVMSlot>, j: nat,
                s3: seq<KVMSlot>)
    requires IsCut(ss, m, s, e, s1, i, s2, j, s3)
    ensures SameOutside(ss, s3, s, e)
  {
    var x := ss[m];
    FreeMaps(ss, m, s1);
    if x.start < s {
      FillMaps(s1, i, Prefix(x, s), s2);
    }
    if x.start + x.size > e {
      FillMaps(s2, j, Suffix(x, e), s3);
    }
    forall a: nat, h: int | !(s <= a < e)
      ensures Maps(ss, a, h) <==> Maps(s3, a, h)
    {
      assert In(ss[m], a) && h == x.ram + a - x.start ==> Maps(ss, a, h);
      if Maps(ss, a, h) && In(x, a) {
        MapsOnce(ss, a, h, x.ram + a - x.start);
      }
    }
  }

  /** Cutting a slot leaves one slot less in the range. */
  lemma CutMeets(ss: seq<KVMSlot>, m: nat, s: nat, e: nat, s1: seq<KVMSlot>, i: nat, s2: seq<KVMSlot>, j: nat,
                 s3: seq<KVMSlot>)
    requires IsCut(ss, m, s, e, s1, i, s2, j, s3)
    ensures Meeting(s3, s, e) == Meeting(ss, s, e) - {m}
    ensures ss[m].start < s && ss[m].start + ss[m].size > e ==> Meeting(s3, s, e) == {}
  {
    assert Meeting(s1, s, e) == Meeting(ss, s, e) - {m};
    assert Meeting(s2, s, e) == Meeting(s1, s, e);
    assert Meeting(s3, s, e) == Meeting(s2, s, e);
    if ss[m].start < s && ss[m].start + ss[m].size > e {
      OnlyMeeting(ss, m, s, e);
    }
  }

  /** No slot meets a range exactly if no address of it is mapped. */
  lemma InsideIff(ss: seq<KVMSlot>, s: nat, e: nat)
    requires s < e
    ensures Meeting(ss, s, e) == {} <==> forall a: nat, h: int | s <= a < e :: !Maps(ss, a, h)
  {
    if Meeting(ss, s, e) == {} {
      assert forall i | 0 <= i < |ss| :: Meets(ss[i], s, e) ==> i in Meeting(ss, s, e);
    } else {
      var i :| i in Meeting(ss, s, e);
      var a := if ss[i].start < s then s else ss[i].start;
      assert In(ss[i], a) && Maps(ss, a, ss[i].ram + a - ss[i].start);
    }
  }

  lemma ApartIff(x: KVMSlot, ss: seq<KVMSlot>)
    requires x.size > 0
    ensures ApartFromAll(x, ss) <==> Meeting(ss, x.start, x.start + x.size) == {}
  {
    assert forall i | 0 <= i < |ss| :: Meets(ss[i], x.start, x.start + x.size)
                                       <==> i in Meeting(ss, x.start, x.start + x.size);
  }

  // ---------------------------------------------------------------------
  // The slots of a virtual machine
  // ---------------------------------------------------------------------

  class KVMState {
    const slots: array<KVMSlot>
    /** What the kernel has been told. */
    var kernel: seq<KVMSlot>
    const readonlyAllowed: bool

    ghost predicate Valid()
      reads this, slots
    {
      Disjoint(slots[..]) && Bounded(slots[..]) && kernel == slots[..]
    }

    constructor (nrSlots: nat, readonlyAllowed: bool)
      ensures Valid() && fresh(slots) && slots.Length == nrSlots && Used(slots[..]) == {}
      ensures this.readonlyAllowed == readonlyAllowed
    {
      slots := new KVMSlot[nrSlots](_ => KVMSlot(0, 0, 0));
      kernel := seq(nrSlots, _ => KVMSlot(0, 0, 0));
      this.readonlyAllowed := readonlyAllowed;
    }

    /** `kvm_alloc_slot`; `None` where the program aborts. */
    method AllocSlot() returns (r: Option<nat>)
      ensures r.Some? ==> r.value < slots.Length && slots[r.value].size == 0
      ensures r.None? <==> |Used(slots[..])| == slots.Length
    {
      for i := 0 to slots.Length
        invariant forall j | 0 <= j < i :: slots[j].size > 0
      {
        if slots[i].size == 0 {
          UsedSize(slots[..]);
          return Some(i);
        }
      }
      UsedSize(slots[..]);
      return None;
    }

    /** `kvm_lookup_overlapping_slot`: the slot with the lowest start among those that are
        seen to meet the range of `n` bytes from `s` on. */
    method LookupOverlapping(s: nat, n: nat) returns (found: Option<nat>)
      ensures found.None? ==> forall i | 0 <= i < slots.Length :: !MeetsWrapped(slots[i], s, n)
      ensures found.Some? ==> found.value < slots.Length && MeetsWrapped(slots[found.value], s, n)
      ensures found.Some? ==> forall i | 0 <= i < slots.Length && MeetsWrapped(slots[i], s, n) ::
                slots[found.value].start <= slots[i].start
    {
      found := None;
      var e := (s + n) % ADDR_SPACE;
      for i := 0 to slots.Length
        invariant found.None? ==> forall j | 0 <= j < i :: !MeetsWrapped(slots[j], s, n)
        invariant found.Some? ==> found.value < i && MeetsWrapped(slots[found.value], s, n)
        invariant found.Some? ==> forall j | 0 <= j < i && MeetsWrapped(slots[j], s, n) ::
                                    slots[found.value].start <= slots[j].start
      {
        var mem := slots[i];
        if mem.size == 0 || (found.Some? && slots[found.value].start < mem.start) {
          continue;
        }
        if e > mem.start && s < (mem.start + mem.size) % ADDR_SPACE {
          found := Some(i);
        }
      }
    }

    /** `kvm_set_user_memory_region`.  The kernel takes a region only if it meets no
        other one, and only into a slot that is free. */
    method SetUserMemoryRegion(i: nat) returns (ok: bool)
      requires i < slots.Length == |kernel| && kernel == slots[..][i := kernel[i]]
      modifies this`kernel
      ensures ok <==> (slots[i].size > 0 ==> old(kernel)[i].size == 0 && ApartFromAll(slots[i], old(kernel)))
      ensures ok ==> kernel == slots[..]
    {
      ok := slots[i].size == 0 || kernel[i].size == 0;
      if slots[i].size > 0 {
        for j := 0 to |kernel|
          invariant ok <==> kernel[i].size == 0 && forall k | 0 <= k < j :: Apart(slots[i], kernel[k])
        {
          if Meets(kernel[j], slots[i].start, slots[i].start + slots[i].size) {
            ok := false;
          }
        }
      }
      if ok {
        kernel := kernel[i := slots[i]];
      }
    }

    /** Puts a slot to use; false where the kernel refuses and the program aborts. */
    method Register(i: nat, x: KVMSlot) returns (ok: bool)
      requires Valid() && i < slots.Length && slots[i].size == 0
      requires 0 < x.size && x.start + x.size <= ADDR_SPACE
      modifies slots, this`kernel
      ensures ok <==> ApartFromAll(x, old(slots[..]))
      ensures ok ==> Valid() && slots[..] == old(slots[..])[i := x]
      ensures ok ==> |Used(slots[..])| == old(|Used(slots[..])|) + 1
    {
      ghost var ss := slots[..];
      slots[i] := x;
      ok := SetUserMemoryRegion(i);
      if ok {
        FillMaps(ss, i, x, ss[i := x]);
        UsedFill(ss, i, x);
      }
    }

    method Unregister(i: nat)
      requires Valid() && i < slots.Length && slots[i].size > 0
      modifies slots, this`kernel
      ensures Valid() && slots[..] == old(slots[..][i := slots[i].(size := 0)])
      ensures |Used(slots[..])| == old(|Used(slots[..])|) - 1
    {
      FreeMaps(slots[..], i, slots[..][i := slots[i].(size := 0)]);
      UsedFree(slots[..], i, slots[i].(size := 0));
      slots[i] := slots[i].(size := 0);
      var ok := SetUserMemoryRegion(i);
    }

    /** How many more slots a change may need. */
    static function Extra(add: bool): nat {
      if add then 2 else 1
    }

    /** Puts a part of a slot that was taken away back; false where the program aborts. */
    method PutBack(x: KVMSlot) returns (ok: bool, ghost at: nat)
      requires Valid() && 0 < x.size && x.start + x.size <= ADDR_SPACE && ApartFromAll(x, slots[..])
      modifies slots, this`kernel
      ensures ok <==> old(|Used(slots[..])|) < slots.Length
      ensures ok ==> Valid() && at < slots.Length && old(slots[..])[at].size == 0
                     && slots[..] == old(slots[..])[at := x]
      ensures ok ==> |Used(slots[..])| == old(|Used(slots[..])|) + 1
    {
      at := 0;
      UsedSize(slots[..]);
      var i := AllocSlot();
      if i.None? {
        return false, at;
      }
      ok := Register(i.value, x);
      at := i.value;
    }

    /** Cuts the range `[s, e)` out of slot `m`; false where the program aborts. */
    method Cut(m: nat, s: nat, e: nat) returns (ok: bool)
      requires Valid() && m < slots.Length && s < e < ADDR_SPACE && Meets(slots[m], s, e) && !Hidden(slots[m])
      modifies slots, this`kernel
      ensures ok ==> Valid() && SameOutside(old(slots[..]), slots[..], s, e) && SameHidden(old(slots[..]), slots[..])
      ensures ok ==> Meeting(slots[..], s, e) < old(Meeting(slots[..], s, e))
      ensures ok ==> |Used(slots[..])| <= old(|Used(slots[..])|) + 1
      ensures ok && |Used(slots[..])| > old(|Used(slots[..])|) ==> Meeting(slots[..], s, e) == {}
      ensures old(|Used(slots[..])|) < slots.Length ==> ok
    {
      ghost var ss := slots[..];
      ghost var at, at' := 0, 0;
      var old' := slots[m];
      Unregister(m);
      ghost var s1 := slots[..];
      FreeMaps(ss, m, s1);
      if old'.start < s {
        ok, at := PutBack(Prefix(old', s));
        if !ok {
          return;
        }
      }
      ghost var s2 := slots[..];
      if old'.start + old'.size > e {
        ok, at' := PutBack(Suffix(old', e));
        if !ok {
          return;
        }
      }
      CutMaps(ss, m, s, e, s1, at, s2, at', slots[..]);
      CutMeets(ss, m, s, e, s1, at, s2, at', slots[..]);
      assert m in Meeting(ss, s, e);
      ok := true;
    }

    /** The section fits into a slot that already maps it the same way. */
    lemma AlreadyThere(m: nat, c: Change)
      requires Valid() && m < slots.Length && slots[m].start <= c.start
               && c.start + c.size <= slots[m].start + slots[m].size
      requires c.ram - c.start == slots[m].ram - slots[m].start
      ensures forall a: nat, h: int | c.start <= a < c.start + c.size ::
                Maps(slots[..], a, h) <==> h == c.ram + a - c.start
    {
      forall a: nat, h: int | c.start <= a < c.start + c.size
        ensures Maps(slots[..], a, h) <==> h == c.ram + a - c.start
      {
        var x := slots[..][m];
        assert In(x, a) && c.ram + a - c.start == x.ram + a - x.start;
        assert Maps(slots[..], a, c.ram + a - c.start);
        if Maps(slots[..], a, h) {
          MapsOnce(slots[..], a, h, c.ram + a - c.start);
        }
      }
    }

    /** Cuts the range out of every slot that is seen to meet it, unless a slot already
        maps the section the same way. */
    method ClearRange(c: Change) returns (ok: bool, done: bool)
      requires Valid() && 0 < c.size && c.start + c.size <= ADDR_SPACE
      modifies slots, this`kernel
      ensures ok ==> Valid() && SameOutside(old(slots[..]), slots[..], c.start, c.start + c.size)
      ensures ok ==> SameHidden(old(slots[..]), slots[..])
      ensures ok && c.start + c.size == ADDR_SPACE ==> slots[..] == old(slots[..])
      ensures ok && done ==> c.add && Changed(old(slots[..]), slots[..], c) && !Blind(old(slots[..]), c)
      ensures ok && !done ==> (Blind(old(slots[..]), c) <==> Meeting(slots[..], c.start, c.start + c.size) != {})
      ensures ok ==> |Used(slots[..])| <= old(|Used(slots[..])|) + 1
      ensures ok && done ==> |Used(slots[..])| <= old(|Used(slots[..])|)
      ensures old(|Used(slots[..])|) < slots.Length ==> ok
      ensures Present(old(slots[..]), c) ==> ok && done && slots[..] == old(slots[..])
    {
      ghost var ss := slots[..];
      var s, e := c.start, c.start + c.size;
      while true
        invariant Present(ss, c) ==> slots[..] == ss
        invariant Valid() && SameOutside(ss, slots[..], s, e) && SameHidden(ss, slots[..])
        invariant e == ADDR_SPACE ==> slots[..] == ss
        invariant |Used(slots[..])| <= |Used(ss)| + 1
        invariant |Used(slots[..])| > |Used(ss)| ==> Meeting(slots[..], s, e) == {}
        decreases Meeting(slots[..], s, e)
      {
        var found := LookupOverlapping(s, c.size);
        if found.None? {
          BlindStays(ss, slots[..], c);
          return true, false;
        }
        var m := found.value;
        var mem := slots[m];
        WrappedTest(mem, s, c.size);
        assert m in Meeting(slots[..], s, e);
        if Present(ss, c) {
          PresentIsFound(ss, c, m);
        }
        if c.add && s >= mem.start && e <= mem.start + mem.size && c.ram - c.start == mem.ram - mem.start {
          AlreadyThere(m, c);
          CoveredNotBlind(ss, slots[..], m, c);
          return true, true;
        }
        ghost var ss1 := slots[..];
        ok := Cut(m, s, e);
        if !ok {
          return false, false;
        }
        HiddenTransitive(ss, ss1, slots[..]);
      }
    }

    /** The first part of `kvm_set_phys_mem`: the range that is left of a section, and
        what is to become of it. */
    method Adjust(x: Section, add: bool) returns (r: Option<Change>)
      ensures r == Wanted(x, add, readonlyAllowed)
    {
      var delta := Delta(x.size);
      if delta > x.size {
        return None;
      }
      var start, size := x.start + delta, x.size - delta;
      size := Whole(size);
      if size == 0 || start % TARGET_PAGE_SIZE != 0 {
        return None;
      }
      var add' := add;
      if !x.mr.isRam {
        var writeable := !x.mr.readonly && !x.mr.romDevice;
        if writeable || !readonlyAllowed {
          return None;
        } else if !x.mr.romdMode {
          add' := false;
        }
      }
      return Some(Change(start, size, add', x.mr.ramPtr + x.offsetInRegion + delta));
    }

    /** `kvm_set_phys_mem` on a KVM without the join bug; false where the program aborts,
        for want of slots or because the kernel refuses.  The update is made exactly
        unless some slot in its range is not seen: then a section that is deleted stays
        where that slot is, and one that is added makes the program abort. */
    method SetPhysMem(x: Section, add: bool) returns (ok: bool)
      requires Valid() && x.start + x.size <= ADDR_SPACE
      modifies slots, this`kernel
      ensures ok ==> Valid() && |Used(slots[..])| <= old(|Used(slots[..])|) + Extra(add)
      ensures ok && BelowTop(x) && NoneHidden(old(slots[..])) ==> NoneHidden(slots[..])
      ensures ok ==> (Applied(old(slots[..]), slots[..], x, add, readonlyAllowed)
                      <==> !Unseen(old(slots[..]), x, readonlyAllowed))
      ensures add && Direct(x.mr) && Unseen(old(slots[..]), x, readonlyAllowed) ==> !ok
      ensures ok && !(add && Direct(x.mr)) && Decides(x, readonlyAllowed, ADDR_SPACE - 1) ==>
                slots[..] == old(slots[..])
      ensures (forall a: nat :: !Decides(x, readonlyAllowed, a)) ==> ok && slots[..] == old(slots[..])
      ensures var r := Wanted(x, add, readonlyAllowed);
              r.Some? && Present(old(slots[..]), r.value) ==> ok && slots[..] == old(slots[..])
      ensures old(|Used(slots[..])|) + Extra(add) <= slots.Length ==>
                ok || (add && Direct(x.mr) && Unseen(old(slots[..]), x, readonlyAllowed))
    {
      ghost var ss := slots[..];
      var r := Adjust(x, add);
      UnseenIff(ss, x, add, readonlyAllowed);
      if r.None? {
        AppliedIff(ss, ss, x, add, readonlyAllowed);
        return true;
      }
      WantedMeaning(x, add, readonlyAllowed, ADDR_SPACE - 1);
      WantedMeaning(x, add, readonlyAllowed, r.value.start);
      ok := ApplyChange(r.value);
      AppliedIff(ss, slots[..], x, add, readonlyAllowed);
    }

    /** The slots take on a change. */
    method ApplyChange(c: Change) returns (ok: bool)
      requires Valid() && 0 < c.size && c.start + c.size <= ADDR_SPACE
      modifies slots, this`kernel
      ensures ok ==> Valid() && |Used(slots[..])| <= old(|Used(slots[..])|) + Extra(c.add)
      ensures ok ==> (Changed(old(slots[..]), slots[..], c) <==> !Blind(old(slots[..]), c))
      ensures c.add && Blind(old(slots[..]), c) ==> !ok
      ensures ok && !c.add && c.start + c.size == ADDR_SPACE ==> slots[..] == old(slots[..])
      ensures ok && c.start + c.size < ADDR_SPACE && NoneHidden(old(slots[..])) ==> NoneHidden(slots[..])
      ensures old(|Used(slots[..])|) + Extra(c.add) <= slots.Length && !(c.add && Blind(old(slots[..]), c)) ==> ok
      ensures Present(old(slots[..]), c) ==> ok && slots[..] == old(slots[..])
    {
      var done;
      ok, done := ClearRange(c);
      if !ok || done {
        return;
      }
      ghost var ss := slots[..];
      InsideIff(ss, c.start, c.start + c.size);
      if !c.add {
        return;
      }
      var i := AllocSlot();
      if i.None? {
        return false;
      }
      var x := KVMSlot(c.start, c.size, c.ram);
      ApartIff(x, ss);
      ok := Register(i.value, x);
      if ok {
        FillMaps(ss, i.value, x, ss[i.value := x]);
      }
    }
  }

  // ---------------------------------------------------------------------
  // Whole runs
  // ---------------------------------------------------------------------

  datatype Update = Update(section: Section, add: bool)

  /** Where the guest finds address `a` after a run: the latest section that covers
      it decides. */
  ghost function Latest(run: seq<Update>, readonlyAllowed: bool, a: nat): Option<int>
    decreases |run|
  {
    if run == [] then None
    else
      var last := run[|run| - 1];
      if Decides(last.section, readonlyAllowed, a) then
        if last.add && Direct(last.section.mr) then Some(HostAddress(last.section, a)) else None
      else Latest(run[..|run| - 1], readonlyAllowed, a)
  }

  ghost predicate Follows(ss: seq<KVMSlot>, run: seq<Update>, readonlyAllowed: bool) {
    forall a: nat, h: int :: Maps(ss, a, h) <==> Latest(run, readonlyAllowed, a) == Some(h)
  }

  lemma FollowsStep(k: KVMState, ss: seq<KVMSlot>, run: seq<Update>, u: Update)
    requires Follows(ss, run, k.readonlyAllowed)
    requires Applied(ss, k.slots[..], u.section, u.add, k.readonlyAllowed)
    ensures Follows(k.slots[..], run + [u], k.readonlyAllowed)
  {
    assert (run + [u])[..|run|] == run;
  }

  lemma NothingMapped(ss: seq<KVMSlot>)
    requires Used(ss) == {}
    ensures forall a: nat, h: int :: !Maps(ss, a, h)
  {
    assert forall i | 0 <= i < |ss| :: ss[i].size > 0 ==> i in Used(ss);
  }

  predicate BelowTop(x: Section) {
    x.start + x.size < ADDR_SPACE
  }

  lemma NothingUnseen(ss: seq<KVMSlot>, x: Section, readonlyAllowed: bool)
    requires NoneHidden(ss) && BelowTop(x)
    ensures !Unseen(ss, x, readonlyAllowed)
  {
  }

  /** Any run of sections added to and deleted from an empty machine: the slots map
      each address as the latest section says, as long as no update hits a slot that is
      not seen, which never happens if no section ends at 2^64.  Two slots per section
      then suffice. */
  method Replay(k: KVMState, run: seq<Update>) returns (ok: bool, ghost clear: bool)
    requires k.Valid() && Used(k.slots[..]) == {}
    requires forall i | 0 <= i < |run| :: run[i].section.start + run[i].section.size <= ADDR_SPACE
    modifies k, k.slots
    ensures ok ==> k.Valid()
    ensures ok && clear ==> Follows(k.slots[..], run, k.readonlyAllowed)
    ensures (forall i | 0 <= i < |run| :: BelowTop(run[i].section)) ==> clear
    ensures (forall i | 0 <= i < |run| :: BelowTop(run[i].section)) && 2 * |run| <= k.slots.Length ==> ok
  {
    NothingMapped(k.slots[..]);
    assert run[..0] == [];
    clear := true;
    ghost var low := forall i | 0 <= i < |run| :: BelowTop(run[i].section);
    assert forall i | 0 <= i < |k.slots[..]| :: k.slots[..][i].size > 0 ==> i in Used(k.slots[..]);
    for i := 0 to |run|
      invariant k.Valid() && (clear ==> Follows(k.slots[..], run[..i], k.readonlyAllowed))
      invariant low ==> clear && NoneHidden(k.slots[..])
      invariant |Used(k.slots[..])| <= 2 * i
    {
      assert run[..i + 1] == run[..i] + [run[i]];
      ghost var follows;
      ok, follows := Replay1(k, run[..i], run[i]);
      if !ok {
        return;
      }
      clear := clear && follows;
    }
    assert run[..|run|] == run;
    ok := true;
  }

  /** One update of a run. */
  method Replay1(k: KVMState, ghost run: seq<Update>, u: Update) returns (ok: bool, ghost follows: bool)
    requires k.Valid() && u.section.start + u.section.size <= ADDR_SPACE
    modifies k, k.slots
    ensures follows == !Unseen(old(k.slots[..]), u.section, k.readonlyAllowed)
    ensures ok ==> k.Valid() && |Used(k.slots[..])| <= old(|Used(k.slots[..])|) + 2
    ensures ok && follows && Follows(old(k.slots[..]), run, k.readonlyAllowed) ==>
              Follows(k.slots[..], run + [u], k.readonlyAllowed)
    ensures ok && BelowTop(u.section) && NoneHidden(old(k.slots[..])) ==> NoneHidden(k.slots[..])
    ensures BelowTop(u.section) && NoneHidden(old(k.slots[..])) ==> follows
    ensures follows && old(|Used(k.slots[..])|) + 2 <= k.slots.Length ==> ok
  {
    ghost var ss := k.slots[..];
    follows := !Unseen(ss, u.section, k.readonlyAllowed);
    if BelowTop(u.section) && NoneHidden(ss) {
      NothingUnseen(ss, u.section, k.readonlyAllowed);
    }
    ok := k.SetPhysMem(u.section, u.add);
    if ok && follows && Follows(ss, run, k.readonlyAllowed) {
      FollowsStep(k, ss, run, u);
    }
  }

  /** A section at the end of the address space can be added and then not be deleted. */
  method StaysForEver(mr: MemoryRegion) returns (k: KVMState)
    requires mr.isRam
    ensures Maps(k.slots[..], ADDR_SPACE - 1, mr.ramPtr + TARGET_PAGE_SIZE - 1)
  {
    var x := Section(mr, 0, ADDR_SPACE - TARGET_PAGE_SIZE, TARGET_PAGE_SIZE);
    k := new KVMState(4, true);
    ghost var empty := k.slots[..];
    assert forall i | 0 <= i < |empty| :: empty[i].size > 0 ==> i in Used(empty);
    assert Used(empty) == {};
    assert !Unseen(empty, x, true);
    assert WholePage(x, (ADDR_SPACE - 1) / TARGET_PAGE_SIZE);
    var ok := k.SetPhysMem(x, true);
    assert Maps(k.slots[..], ADDR_SPACE - 1, HostAddress(x, ADDR_SPACE - 1));
    ok := k.SetPhysMem(x, false);
  }
}
