/** The ELF core file: the program headers are written first, with offsets computed
    from the list of memory blocks, and the memory is written afterwards, block by
    block.  A filter may leave out part of the memory. */
module ElfDump {
  import opened Common
  import opened Target
  import opened Pieces
  import opened ElfHeaders
  import TargetBytes

  /** Guest memory from `start` on. */
  datatype GuestPhysBlock = GuestPhysBlock(start: nat, data: seq<byte>)

  function End(b: GuestPhysBlock): nat {
    b.start + |b.data|
  }

  predicate InBlock(b: GuestPhysBlock, a: nat) {
    b.start <= a < End(b)
  }

  /** `n` bytes of a block from address `a` on. */
  function Bytes(b: GuestPhysBlock, a: nat, n: nat): seq<byte>
    requires b.start <= a && a + n <= End(b)
  {
    b.data[a - b.start..a - b.start + n]
  }

  predicate BlockHas(b: GuestPhysBlock, a: nat, bytes: seq<byte>) {
    b.start <= a && a + |bytes| <= End(b) && Bytes(b, a, |bytes|) == bytes
  }

  /** Memory holds `bytes` from address `a` on. */
  ghost predicate Memory(blocks: seq<GuestPhysBlock>, a: nat, bytes: seq<byte>) {
    exists i :: 0 <= i < |blocks| && BlockHas(blocks[i], a, bytes)
  }

  /** Blocks come in the order of their addresses. */
  ghost predicate Ordered(blocks: seq<GuestPhysBlock>) {
    forall i, j | 0 <= i < j < |blocks| :: End(blocks[i]) <= blocks[j].start
  }

  lemma OneBlock(blocks: seq<GuestPhysBlock>, i: nat, j: nat, a: nat)
    requires Ordered(blocks) && i < |blocks| && j < |blocks| && InBlock(blocks[i], a) && InBlock(blocks[j], a)
    ensures i == j
  {
  }

  /** Memory has one content. */
  lemma MemoryIsUnique(blocks: seq<GuestPhysBlock>, a: nat, bytes: seq<byte>, bytes': seq<byte>)
    requires Ordered(blocks) && |bytes| == |bytes'| > 0 && Memory(blocks, a, bytes) && Memory(blocks, a, bytes')
    ensures bytes == bytes'
  {
    var i :| 0 <= i < |blocks| && BlockHas(blocks[i], a, bytes);
    var j :| 0 <= j < |blocks| && BlockHas(blocks[j], a, bytes');
    OneBlock(blocks, i, j, a);
  }

  // ---------------------------------------------------------------------
  // The filter
  // ---------------------------------------------------------------------

  datatype Filter = All | Window(begin: nat, length: nat)

  predicate Passes(f: Filter, a: nat) {
    f.All? || f.begin <= a < f.begin + f.length
  }

  predicate OutOfRange(f: Filter, b: GuestPhysBlock) {
    f.Window? && (b.start >= f.begin + f.length || End(b) <= f.begin)
  }

  /** The part of a block that passes the filter. */
  function Clipped(f: Filter, b: GuestPhysBlock): (c: GuestPhysBlock)
    ensures b.start <= c.start && End(c) <= End(b) && c.data == Bytes(b, c.start, |c.data|)
  {
    if OutOfRange(f, b) then GuestPhysBlock(b.start, [])
    else if f.All? then b
    else
      var lo := if f.begin <= b.start then b.start else f.begin;
      var hi := if f.begin + f.length < End(b) then f.begin + f.length else End(b);
      GuestPhysBlock(lo, b.data[lo - b.start..hi - b.start])
  }

  lemma ClippedMeaning(f: Filter, b: GuestPhysBlock, a: nat)
    ensures InBlock(Clipped(f, b), a) <==> InBlock(b, a) && Passes(f, a)
  {
  }

  /** The parts of the blocks that pass the filter. */
  ghost predicate AreParts(parts: seq<GuestPhysBlock>, f: Filter, blocks: seq<GuestPhysBlock>) {
    && |parts| == |blocks|
    && (forall i {:trigger Clipped(f, blocks[i])} | 0 <= i < |blocks| :: parts[i] == Clipped(f, blocks[i]))
  }

  lemma BytesOfBytes(b: GuestPhysBlock, c: GuestPhysBlock, a: nat, n: nat)
    requires b.start <= c.start <= a && a + n <= End(c) <= End(b) && c.data == Bytes(b, c.start, |c.data|)
    ensures Bytes(c, a, n) == Bytes(b, a, n)
  {
    var l, r := Bytes(c, a, n), Bytes(b, a, n);
    forall k | 0 <= k < n
      ensures l[k] == r[k]
    {
      assert l[k] == c.data[a - c.start + k];
    }
  }

  /** What the filter lets through is guest memory. */
  lemma PartsAreMemory(parts: seq<GuestPhysBlock>, f: Filter, blocks: seq<GuestPhysBlock>, a: nat, bytes: seq<byte>)
    requires AreParts(parts, f, blocks) && Memory(parts, a, bytes)
    ensures Memory(blocks, a, bytes)
  {
    var i :| 0 <= i < |parts| && BlockHas(parts[i], a, bytes);
    var b, c := blocks[i], Clipped(f, blocks[i]);
    BytesOfBytes(b, c, a, |bytes|);
    assert BlockHas(b, a, bytes);
  }

  // ---------------------------------------------------------------------
  // The memory part of the file
  // ---------------------------------------------------------------------

  /** The first `n` parts one after the other. */
  function Image(parts: seq<GuestPhysBlock>, n: nat): seq<byte>
    requires n <= |parts|
  {
    if n == 0 then [] else Image(parts, n - 1) + parts[n - 1].data
  }

  function Size(parts: seq<GuestPhysBlock>, n: nat): nat
    requires n <= |parts|
  {
    if n == 0 then 0 else Size(parts, n - 1) + |parts[n - 1].data|
  }

  lemma {:induction false} ImageSize(parts: seq<GuestPhysBlock>, n: nat)
    requires n <= |parts|
    ensures |Image(parts, n)| == Size(parts, n)
  {
    if n > 0 {
      ImageSize(parts, n - 1);
    }
  }

  lemma {:induction false} ImagePrefix(parts: seq<GuestPhysBlock>, n: nat, m: nat)
    requires n <= m <= |parts|
    ensures Image(parts, n) <= Image(parts, m)
    decreases m
  {
    if n < m {
      ImagePrefix(parts, n, m - 1);
    }
  }

  lemma PrefixSlice(front: seq<byte>, part: seq<byte>, image: seq<byte>, x: nat, n: nat)
    requires front + part <= image && x + n <= |part|
    ensures |front| + x + n <= |image| && image[|front| + x..|front| + x + n] == part[x..x + n]
  {
    assert part[x..x + n] == (front + part)[|front| + x..|front| + x + n];
  }

  /** Addresses of part `i` are found after the parts before it. */
  lemma ImageAt(parts: seq<GuestPhysBlock>, image: seq<byte>, i: nat, a: nat, n: nat, at: nat)
    requires i < |parts| && parts[i].start <= a && a + n <= End(parts[i]) && image == Image(parts, |parts|)
    requires at == Size(parts, i) + a - parts[i].start
    ensures at + n <= |image| && image[at..at + n] == Bytes(parts[i], a, n)
  {
    ImagePrefix(parts, i + 1, |parts|);
    ImageSize(parts, i);
    PrefixSlice(Image(parts, i), parts[i].data, image, a - parts[i].start, n);
  }

  /** What a program header says of guest memory from `phys` on is true of the memory
      part of the file, which begins at `base`. */
  ghost predicate Truthful(image: seq<byte>, parts: seq<GuestPhysBlock>, base: nat, phys: nat, length: nat, offset: nat,
                           filesz: nat) {
    && base <= offset && filesz <= length && offset - base + filesz <= |image|
    && Memory(parts, phys, image[offset - base..offset - base + filesz])
  }

  lemma FoundIsTruthful(image: seq<byte>, parts: seq<GuestPhysBlock>, base: nat, i: nat, phys: nat, length: nat,
                        at: nat, offset: nat, n: nat)
    requires i < |parts| && n <= length && at + n <= |image| && offset == base + at
    requires parts[i].start <= phys && phys + n <= End(parts[i]) && image[at..at + n] == Bytes(parts[i], phys, n)
    ensures Truthful(image, parts, base, phys, length, offset, n)
  {
    assert BlockHas(parts[i], phys, image[at..at + n]);
  }

  /** The offset and file size of `length` bytes from `phys` on: as many of them as are
      in one part, or nothing if the first byte is not written. */
  ghost predicate Answer(image: seq<byte>, parts: seq<GuestPhysBlock>, base: nat, phys: nat, length: nat,
                         offset: Option<nat>, filesz: nat) {
    if offset.None? then filesz == 0 && NotIn(parts, |parts|, phys)
    else FoundVerdict(image, parts, base, phys, length, offset.value, filesz) == Holds
  }

  ghost predicate NotIn(parts: seq<GuestPhysBlock>, n: nat, phys: nat) {
    forall i | 0 <= i < n && i < |parts| :: !InBlock(parts[i], phys)
  }

  ghost function FoundVerdict(image: seq<byte>, parts: seq<GuestPhysBlock>, base: nat, phys: nat, length: nat,
                              offset: nat, filesz: nat): Verdict {
    if
      && Truthful(image, parts, base, phys, length, offset, filesz)
      && (exists i :: 0 <= i < |parts| && InBlock(parts[i], phys)
                      && (filesz == length || phys + filesz == End(parts[i])))
    then Holds else Broken
  }

  lemma FilteredOut(parts: seq<GuestPhysBlock>, f: Filter, blocks: seq<GuestPhysBlock>, phys: nat)
    requires AreParts(parts, f, blocks) && !Passes(f, phys)
    ensures NotIn(parts, |parts|, phys)
  {
    forall i | 0 <= i < |blocks|
      ensures !InBlock(parts[i], phys)
    {
      ClippedMeaning(f, blocks[i], phys);
    }
  }

  lemma FoundAnswer(image: seq<byte>, parts: seq<GuestPhysBlock>, base: nat, i: nat, phys: nat, length: nat, at: nat,
                    offset: nat, n: nat)
    requires i < |parts| && InBlock(parts[i], phys) && offset == base + at
    requires n == if phys + length <= End(parts[i]) then length else End(parts[i]) - phys
    requires at + n <= |image| && image[at..at + n] == Bytes(parts[i], phys, n)
    ensures Answer(image, parts, base, phys, length, Some(offset), n)
  {
    FoundIsTruthful(image, parts, base, i, phys, length, at, offset, n);
    FoundInPart(image, parts, base, i, phys, length, offset, n);
  }

  lemma FoundInPart(image: seq<byte>, parts: seq<GuestPhysBlock>, base: nat, i: nat, phys: nat, length: nat,
                    offset: nat, n: nat)
    requires Truthful(image, parts, base, phys, length, offset, n)
    requires i < |parts| && InBlock(parts[i], phys) && (n == length || phys + n == End(parts[i]))
    ensures FoundVerdict(image, parts, base, phys, length, offset, n) == Holds
  {
  }

  datatype Mapping = Mapping(phys: nat, virt: nat, length: nat)

  /** What is put into the program header of a mapping. */
  datatype Load = Load(m: Mapping, offset: Option<nat>, filesz: nat)

  /** The offset that says that the memory is not in the file. */
  const NO_OFFSET: nat := 0xffff_ffff_ffff_ffff

  function LoadPhdr(l: Load): Phdr {
    Phdr(PT_LOAD, if l.offset.Some? then l.offset.value else NO_OFFSET, l.m.virt, l.m.phys, l.filesz, l.m.length)
  }

  function NotePhdr(memoryOffset: nat, noteSize: nat): Phdr
    requires noteSize <= memoryOffset
  {
    Phdr(PT_NOTE, memoryOffset - noteSize, 0, 0, noteSize, noteSize)
  }

  function LoadPhdrs(loads: seq<Load>): (r: seq<Phdr>)
    ensures |r| == |loads|
  {
    seq(|loads|, i requires 0 <= i < |loads| => LoadPhdr(loads[i]))
  }

  /** The part of `dump_init` that lays out the file. */
  method LayOut(c: Class, n: nat, noteSize: nat) returns (haveSection: bool, maxIndex: nat, memoryOffset: nat)
    ensures haveSection == HaveSection(n) && maxIndex == MaxIndex(n) && memoryOffset == MemoryOffset(c, n, noteSize)
  {
    var num := n % 0x1_0000_0000;
    var phdrNum, shInfo := 1, 0;
    if num < UINT16_MAX - 2 {
      phdrNum := phdrNum + num;
      haveSection := false;
    } else {
      haveSection := true;
      shInfo := 1;
      if num <= UINT32_MAX - 1 {
        shInfo := shInfo + num;
      } else {
        shInfo := UINT32_MAX;
      }
    }
    if haveSection {
      memoryOffset := EhdrSize(c) + PhdrSize(c) * shInfo + ShdrSize(c) + noteSize;
    } else {
      memoryOffset := EhdrSize(c) + PhdrSize(c) * phdrNum + noteSize;
    }
    maxIndex := if haveSection then shInfo else phdrNum;
  }

  class DumpState {
    const blocks: seq<GuestPhysBlock>
    const filter: Filter
    const cls: Class
    const big: bool
    const mappings: seq<Mapping>
    const noteSize: nat
    const haveSection: bool
    const maxIndex: nat
    const memoryOffset: nat
    var file: seq<byte>
    var nextBlock: nat
    var start: nat
    /** What is to be written. */
    ghost const parts: seq<GuestPhysBlock>

    ghost predicate Valid() {
      && AreParts(parts, filter, blocks)
      && haveSection == HaveSection(|mappings|) && maxIndex == MaxIndex(|mappings|)
      && memoryOffset == MemoryOffset(cls, |mappings|, noteSize)
    }

    constructor (blocks: seq<GuestPhysBlock>, filter: Filter, cls: Class, big: bool, mappings: seq<Mapping>,
                 noteSize: nat,
                 haveSection: bool, maxIndex: nat, memoryOffset: nat)
      requires haveSection == HaveSection(|mappings|) && maxIndex == MaxIndex(|mappings|)
      requires memoryOffset == MemoryOffset(cls, |mappings|, noteSize)
      ensures Valid() && this.blocks == blocks && this.filter == filter && this.cls == cls && this.big == big
      ensures this.mappings == mappings && this.noteSize == noteSize && file == []
    {
      this.blocks, this.filter, this.cls, this.big := blocks, filter, cls, big;
      this.mappings, this.noteSize := mappings, noteSize;
      this.haveSection, this.maxIndex, this.memoryOffset := haveSection, maxIndex, memoryOffset;
      file, nextBlock, start := [], 0, 0;
      parts := seq(|blocks|, i requires 0 <= i < |blocks| => Clipped(filter, blocks[i]));
    }

    /** Where the part of a block begins, and its size, as `get_offset_range` computes
        them. */
    method BlockRange(i: nat) returns (skip: bool, lo: nat, size: nat)
      requires Valid() && i < |blocks|
      ensures skip ==> parts[i].data == []
      ensures !skip ==> lo == parts[i].start && size == |parts[i].data|
    {
      var b := blocks[i];
      assert parts[i] == Clipped(filter, blocks[i]);
      skip := OutOfRange(filter, b);
      if skip {
        lo, size := 0, 0;
      } else if filter.Window? {
        lo := if filter.begin <= b.start then b.start else filter.begin;
        size := End(b) - lo;
        if filter.begin + filter.length < End(b) {
          size := size - (End(b) - (filter.begin + filter.length));
        }
      } else {
        lo := b.start;
        size := End(b) - b.start;
      }
    }

    /** The loop of `get_offset_range`: the part that holds an address, and where it is
        in the file. */
    method FindPart(phys: nat) returns (found: bool, ghost i: nat, lo: nat, size: nat, at: nat)
      requires Valid()
      ensures !found ==> NotIn(parts, |parts|, phys)
      ensures found ==> i < |parts| && InBlock(parts[i], phys)
      ensures found ==> lo == parts[i].start && size == |parts[i].data| && at == memoryOffset + Size(parts, i)
    {
      at := memoryOffset;
      for k := 0 to |blocks|
        invariant at == memoryOffset + Size(parts, k)
        invariant NotIn(parts, k, phys)
      {
        var skip;
        skip, lo, size := BlockRange(k);
        if skip {
          continue;
        }
        if lo <= phys < lo + size {
          found, i := true, k;
          return;
        }
        at := at + size;
      }
      found, i, lo, size := false, 0, 0, 0;
    }

    /** `get_offset_range`. */
    method GetOffsetRange(phys: nat, length: nat) returns (offset: Option<nat>, filesz: nat)
      requires Valid()
      ensures Answer(Image(parts, |parts|), parts, memoryOffset, phys, length, offset, filesz)
    {
      offset, filesz := None, 0;
      if filter.Window? && (phys < filter.begin || phys >= filter.begin + filter.length) {
        FilteredOut(parts, filter, blocks, phys);
        return;
      }
      var found, i, lo, size, at := FindPart(phys);
      if found {
        offset := Some(phys - lo + at);
        filesz := if phys + length <= lo + size then length else size - (phys - lo);
        ghost var image, x := Image(parts, |parts|), Size(parts, i) + phys - lo;
        ImageAt(parts, image, i, phys, filesz, x);
        FoundAnswer(image, parts, memoryOffset, i, phys, length, x, offset.value, filesz);
      }
    }

    /** `write_memory`: page by page, and the rest. */
    method WriteMemory(b: GuestPhysBlock, from: nat, size: nat)
      requires from + size <= |b.data|
      modifies this`file
      ensures file == old(file) + b.data[from..from + size]
    {
      var pages := size / TARGET_PAGE_SIZE;
      for i := 0 to pages
        invariant file == old(file) + b.data[from..from + i * TARGET_PAGE_SIZE]
      {
        var at := from + i * TARGET_PAGE_SIZE;
        file := file + b.data[at..at + TARGET_PAGE_SIZE];
      }
      var at := from + pages * TARGET_PAGE_SIZE;
      if size % TARGET_PAGE_SIZE != 0 {
        file := file + b.data[at..at + size % TARGET_PAGE_SIZE];
      }
    }

    /** The cursor is at block `n`, the next one that is not filtered out. */
    ghost predicate AtBlock(n: nat)
      reads this
    {
      && n == nextBlock < |blocks| == |parts| && !OutOfRange(filter, blocks[n])
      && blocks[n].start + start == parts[n].start && start + |parts[n].data| <= |blocks[n].data|
      && parts[n].data == blocks[n].data[start..start + |parts[n].data|]
    }

    /** Puts the cursor on a block, if it is in range. */
    method Enter(n: nat) returns (ok: bool)
      requires Valid() && n < |blocks|
      modifies this`nextBlock, this`start
      ensures ok ==> AtBlock(n)
      ensures !ok ==> parts[n].data == []
    {
      var b := blocks[n];
      assert parts[n] == Clipped(filter, blocks[n]);
      nextBlock, start := n, 0;
      if filter.Window? {
        if b.start >= filter.begin + filter.length || End(b) <= filter.begin {
          return false;
        }
        if filter.begin > b.start {
          start := filter.begin - b.start;
        }
      }
      ok := true;
    }

    /** `get_start_block` and `get_next_block`: the first block from `n` on that is in
        range. */
    method Seek(n: nat) returns (ok: bool)
      requires Valid() && n <= |blocks|
      modifies this`nextBlock, this`start
      ensures ok ==> n <= nextBlock && AtBlock(nextBlock) && Image(parts, nextBlock) == Image(parts, n)
      ensures !ok ==> Image(parts, |parts|) == Image(parts, n)
    {
      for i := n to |blocks|
        invariant Image(parts, i) == Image(parts, n)
      {
        ok := Enter(i);
        if ok {
          return;
        }
      }
      ok := false;
    }

    /** The number of bytes that `dump_iterate` writes of a block. */
    method PartSize() returns (size: nat)
      requires Valid() && AtBlock(nextBlock)
      ensures size == |parts[nextBlock].data|
    {
      var b := blocks[nextBlock];
      assert parts[nextBlock] == Clipped(filter, blocks[nextBlock]);
      size := End(b) - b.start;
      if filter.Window? {
        size := size - start;
        if filter.begin + filter.length < End(b) {
          size := size - (End(b) - (filter.begin + filter.length));
        }
      }
    }

    /** `dump_iterate`, from a cursor that `get_start_block` has set: the whole memory
        part is written. */
    method DumpIterate()
      requires Valid() && AtBlock(nextBlock) && Image(parts, nextBlock) == []
      modifies this`file, this`nextBlock, this`start
      ensures file == old(file) + Image(parts, |parts|)
    {
      var more := true;
      while more
        invariant more ==> AtBlock(nextBlock) && file == old(file) + Image(parts, nextBlock)
        invariant !more ==> file == old(file) + Image(parts, |parts|)
        decreases more, |blocks| - nextBlock
      {
        var size := PartSize();
        WriteMemory(blocks[nextBlock], start, size);
        more := Seek(nextBlock + 1);
      }
    }

    ghost predicate LoadFor(l: Load, m: Mapping) {
      l.m == m && Answer(Image(parts, |parts|), parts, memoryOffset, m.phys, m.length, l.offset, l.filesz)
    }

    /** The mappings that get a program header, each with a true one. */
    ghost predicate Loads(loads: seq<Load>) {
      && |loads| == LoadCount(|mappings|) <= |mappings|
      && forall i | 0 <= i < |loads| :: LoadFor(loads[i], mappings[i])
    }

    method WriteLoad(m: Mapping) returns (l: Load)
      requires Valid()
      modifies this`file
      ensures LoadFor(l, m) && file == old(file) + EncodePhdr(cls, LoadPhdr(l), big)
    {
      var offset, filesz := GetOffsetRange(m.phys, m.length);
      l := Load(m, offset, filesz);
      file := file + EncodePhdr(cls, LoadPhdr(l), big);
    }

    /** `write_elf_loads`: a program header for each mapping, until the headers that the
        file is laid out for are used up; `ps` are the headers so far, after `ehdr`. */
    method WriteElfLoads(ghost ehdr: seq<byte>, ghost ps: seq<Phdr>) returns (loads: seq<Load>)
      requires Valid() && file == ehdr + Table(cls, ps, big)
      modifies this`file
      ensures Loads(loads) && file == ehdr + Table(cls, ps + LoadPhdrs(loads), big)
    {
      loads := [];
      LoadCountIff(|mappings|);
      assert ps + LoadPhdrs(loads) == ps;
      var phdrIndex := 1;
      for i := 0 to |mappings|
        invariant |loads| == i && phdrIndex == i + 1 && (i == 0 || phdrIndex < maxIndex)
        invariant forall j | 0 <= j < i :: LoadFor(loads[j], mappings[j])
        invariant file == ehdr + Table(cls, ps + LoadPhdrs(loads), big)
      {
        var l := WriteLoad(mappings[i]);
        OneMoreLoad(ehdr, ps, loads, l);
        loads := loads + [l];
        phdrIndex := phdrIndex + 1;
        if phdrIndex >= maxIndex {
          break;
        }
      }
    }

    lemma OneMoreLoad(ehdr: seq<byte>, ps: seq<Phdr>, loads: seq<Load>, l: Load)
      ensures ehdr + Table(cls, ps + LoadPhdrs(loads), big) + EncodePhdr(cls, LoadPhdr(l), big)
              == ehdr + Table(cls, ps + LoadPhdrs(loads + [l]), big)
    {
      assert ps + LoadPhdrs(loads + [l]) == ps + LoadPhdrs(loads) + [LoadPhdr(l)];
      TableAppend(cls, ps + LoadPhdrs(loads), LoadPhdr(l), big);
      Associative(ehdr, Table(cls, ps + LoadPhdrs(loads), big), EncodePhdr(cls, LoadPhdr(l), big));
    }

    /** The program headers of the file. */
    ghost function Phdrs(loads: seq<Load>): seq<Phdr>
      requires Valid()
    {
      [NotePhdr(memoryOffset, noteSize)] + LoadPhdrs(loads)
    }

    /** What the file holds before the memory. */
    ghost function FrontOf(ehdr: seq<byte>, loads: seq<Load>, section: seq<byte>, notes: seq<byte>): seq<byte>
      requires Valid()
    {
      Front(ehdr, Table(cls, Phdrs(loads), big), if haveSection then section else [], notes)
    }

    /** `dump_begin`: everything before the memory.  The ELF header, the section header
        and the notes are given. */
    method DumpBegin(ehdr: seq<byte>, section: seq<byte>, notes: seq<byte>) returns (loads: seq<Load>)
      requires Valid() && file == []
      modifies this`file
      ensures Loads(loads) && file == FrontOf(ehdr, loads, section, notes)
    {
      file := ehdr;
      var note := NotePhdr(memoryOffset, noteSize);
      TableAppend(cls, [], note, big);
      assert [] + [note] == [note] && [] + EncodePhdr(cls, note, big) == EncodePhdr(cls, note, big);
      assert Records(cls, [], big) == [];
      file := file + EncodePhdr(cls, note, big);
      loads := WriteElfLoads(ehdr, [note]);
      if haveSection {
        file := file + section;
      }
      file := file + notes;
    }

    /** `create_vmcore`, after `get_start_block` has found a block to begin with: headers
        that were laid out before, and the memory. */
    method CreateVmcore(ehdr: seq<byte>, section: seq<byte>, notes: seq<byte>) returns (loads: seq<Load>)
      requires Valid() && file == [] && AtBlock(nextBlock) && Image(parts, nextBlock) == []
      modifies this
      ensures Loads(loads) && file == FrontOf(ehdr, loads, section, notes) + Image(parts, |parts|)
    {
      loads := DumpBegin(ehdr, section, notes);
      DumpIterate();
    }

    /** With headers of their proper sizes, the memory begins where the program headers
        say exactly unless the count of the mappings has come back to zero. */
    lemma MemoryBeginsIff(ehdr: seq<byte>, loads: seq<Load>, section: seq<byte>, notes: seq<byte>)
      requires Valid() && Loads(loads) && |ehdr| == EhdrSize(cls) && |section| == ShdrSize(cls) && |notes| == noteSize
      ensures |FrontOf(ehdr, loads, section, notes)| == memoryOffset <==> |mappings| == 0 || Num(|mappings|) != 0
    {
      JoinedSize(Records(cls, Phdrs(loads), big), PhdrSize(cls));
      FrontFillsIff(cls, |mappings|, ehdr, Table(cls, Phdrs(loads), big), if haveSection then section else [], notes);
    }

    /** A program header with an offset: the bytes of the file that it names are the
        guest memory that it names. */
    lemma LoadIsTrue(l: Load, m: Mapping, front: seq<byte>)
      requires Valid() && |front| == memoryOffset && file == front + Image(parts, |parts|)
      requires LoadFor(l, m) && l.offset.Some?
      ensures l.offset.value + l.filesz <= |file| && l.filesz <= m.length
      ensures Memory(blocks, m.phys, file[l.offset.value..l.offset.value + l.filesz])
    {
      var image := Image(parts, |parts|);
      var at := l.offset.value - memoryOffset;
      assert file[l.offset.value..l.offset.value + l.filesz] == image[at..at + l.filesz];
      PartsAreMemory(parts, filter, blocks, m.phys, image[at..at + l.filesz]);
    }

    /** A program header without an offset: its memory does not begin with a written
        address. */
    lemma NoOffsetIsTrue(l: Load, m: Mapping)
      requires Valid() && LoadFor(l, m)
      ensures l.offset.None? <==> !(Passes(filter, m.phys) && exists i :: 0 <= i < |blocks|
                                                                          && InBlock(blocks[i], m.phys))
    {
      forall i | 0 <= i < |blocks|
        ensures InBlock(parts[i], m.phys) <==> InBlock(blocks[i], m.phys) && Passes(filter, m.phys)
      {
        ClippedMeaning(filter, blocks[i], m.phys);
      }
    }

    /** A reader of the finished file: program header `i + 1` is that of mapping `i`
        exactly if its numbers fit into its fields. */
    lemma ReaderFindsLoad(ehdr: seq<byte>, loads: seq<Load>, section: seq<byte>, notes: seq<byte>, i: nat)
      requires Valid() && i < |loads| && |ehdr| == EhdrSize(cls)
      requires file == FrontOf(ehdr, loads, section, notes) + Image(parts, |parts|)
      ensures EhdrSize(cls) + PhdrSize(cls) * (i + 2) <= |file|
      ensures ReadPhdr(cls, file, i + 1, big) == LoadPhdr(loads[i]) <==> Fits(cls, LoadPhdr(loads[i]))
    {
      var ps := Phdrs(loads);
      FrontBegins(ehdr, Table(cls, ps, big), if haveSection then section else [], notes, Image(parts, |parts|));
      ReadPhdrIs(cls, file, ehdr, ps, big, i + 1);
      PhdrReadIff(cls, ps[i + 1], big, Width(cls), TargetBytes.Range(Width(cls)));
    }

    /** What a reader finds in the program header of mapping `i`, whether its numbers fit or
        not: addresses and size of the mapping, and where it is in the file.  Without an
        offset the field has all its bits set. */
    lemma ReaderReads(ehdr: seq<byte>, loads: seq<Load>, section: seq<byte>, notes: seq<byte>, i: nat, m: nat, p: Phdr)
      requires Valid() && Loads(loads) && i < |loads| && |ehdr| == EhdrSize(cls) && m == TargetBytes.Range(Width(cls))
      requires file == FrontOf(ehdr, loads, section, notes) + Image(parts, |parts|)
      requires EhdrSize(cls) + PhdrSize(cls) * (i + 2) <= |file| && p == ReadPhdr(cls, file, i + 1, big)
      ensures p.kind == PT_LOAD
      ensures p.vaddr == mappings[i].virt % m && p.paddr == mappings[i].phys % m && p.memsz == mappings[i].length % m
      ensures if loads[i].offset.None? then p.offset == m - 1 && p.filesz == 0
              else p.offset == loads[i].offset.value % m && p.filesz == loads[i].filesz % m
    {
      var ps := Phdrs(loads);
      FrontBegins(ehdr, Table(cls, ps, big), if haveSection then section else [], notes, Image(parts, |parts|));
      ReadPhdrIs(cls, file, ehdr, ps, big, i + 1);
      PhdrCut(cls, ps[i + 1], big, Width(cls), m);
      AllOnes(cls, m);
    }

    /** What the header of a mapping says to a reader is true of the file. */
    lemma ReaderIsTold(ehdr: seq<byte>, loads: seq<Load>, section: seq<byte>, notes: seq<byte>, i: nat, p: Phdr)
      requires Valid() && Loads(loads) && i < |loads|
      requires file == FrontOf(ehdr, loads, section, notes) + Image(parts, |parts|)
      requires |ehdr| == EhdrSize(cls) && |section| == ShdrSize(cls) && |notes| == noteSize && Num(|mappings|) != 0
      requires p == LoadPhdr(loads[i]) && loads[i].offset.Some?
      ensures p.kind == PT_LOAD && p.vaddr == mappings[i].virt && p.paddr == mappings[i].phys
      ensures p.filesz <= p.memsz == mappings[i].length
      ensures p.offset + p.filesz <= |file| && Memory(blocks, p.paddr, file[p.offset..p.offset + p.filesz])
    {
      MemoryBeginsIff(ehdr, loads, section, notes);
      LoadIsTrue(loads[i], mappings[i], FrontOf(ehdr, loads, section, notes));
    }

    /** The first program header leads to the notes. */
    lemma ReaderFindsNotes(ehdr: seq<byte>, loads: seq<Load>, section: seq<byte>, notes: seq<byte>)
      requires Valid() && Loads(loads) && file == FrontOf(ehdr, loads, section, notes) + Image(parts, |parts|)
      requires |ehdr| == EhdrSize(cls) && |section| == ShdrSize(cls) && |notes| == noteSize
      requires (|mappings| == 0 || Num(|mappings|) != 0) && Fits(cls, NotePhdr(memoryOffset, noteSize))
      ensures EhdrSize(cls) + PhdrSize(cls) <= |file|
      ensures var p := ReadPhdr(cls, file, 0, big);
              && p.kind == PT_NOTE && p.offset + p.filesz <= |file| && file[p.offset..p.offset + p.filesz] == notes
              && p.vaddr == 0 == p.paddr && p.memsz == |notes|
    {
      var ps, image := Phdrs(loads), Image(parts, |parts|);
      var front := FrontOf(ehdr, loads, section, notes);
      FrontBegins(ehdr, Table(cls, ps, big), if haveSection then section else [], notes, image);
      ReadPhdrIs(cls, file, ehdr, ps, big, 0);
      PhdrReadIff(cls, ps[0], big, Width(cls), TargetBytes.Range(Width(cls)));
      MemoryBeginsIff(ehdr, loads, section, notes);
      assert file[memoryOffset - noteSize..memoryOffset] == front[memoryOffset - noteSize..] == notes;
    }
  }

  /** The low bits of the offset that says that there is none, and what fits anyway. */
  lemma AllOnes(c: Class, m: nat)
    requires m == TargetBytes.Range(Width(c))
    ensures m > 0 && NO_OFFSET % m == m - 1 && 0 % m == 0 && PT_LOAD % TargetBytes.Range(4) == PT_LOAD
  {
    assert TargetBytes.Range(4) == 0x1_0000_0000;
    assert TargetBytes.Range(8) == TargetBytes.Range(4) * TargetBytes.Range(4);
  }

  lemma FrontBegins(ehdr: seq<byte>, table: seq<byte>, section: seq<byte>, notes: seq<byte>, image: seq<byte>)
    ensures ehdr + table <= Front(ehdr, table, section, notes) + image
  {
  }

  /** `dump_init` and `create_vmcore`; false if the filter lets nothing through.  The ELF
      header, the section header and the notes are given. */
  method DumpGuestMemory(blocks: seq<GuestPhysBlock>, filter: Filter, cls: Class, big: bool, mappings: seq<Mapping>,
                         ehdr: seq<byte>, section: seq<byte>, notes: seq<byte>)
      returns (ok: bool, s: DumpState, loads: seq<Load>)
    requires |ehdr| == EhdrSize(cls) && |section| == ShdrSize(cls)
    ensures s.Valid() && s.blocks == blocks && s.filter == filter && s.mappings == mappings && s.cls == cls
            && s.big == big
    ensures !ok ==> Image(s.parts, |s.parts|) == []
    ensures ok ==> s.Loads(loads) && s.file == s.FrontOf(ehdr, loads, section, notes) + Image(s.parts, |s.parts|)
    ensures ok && |mappings| < UINT32_MAX ==>
              |loads| == |mappings| && |s.FrontOf(ehdr, loads, section, notes)| == s.memoryOffset
  {
    loads := [];
    var haveSection, maxIndex, memoryOffset := LayOut(cls, |mappings|, |notes|);
    s := new DumpState(blocks, filter, cls, big, mappings, |notes|, haveSection, maxIndex, memoryOffset);
    ok := s.Seek(0);
    if ok {
      loads := s.CreateVmcore(ehdr, section, notes);
      s.MemoryBeginsIff(ehdr, loads, section, notes);
      AllLoadsIff(|mappings|);
    }
  }
}
