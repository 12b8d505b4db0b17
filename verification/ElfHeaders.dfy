/** The headers of an ELF core file: how many there are, where they are, and what a
    reader finds in them. */
module ElfHeaders {
  import opened Common
  import opened Pieces
  import opened TargetBytes

  datatype Class = Elf32 | Elf64

  function EhdrSize(c: Class): nat {
    if c.Elf64? then 64 else 52
  }

  function PhdrSize(c: Class): nat {
    if c.Elf64? then 56 else 32
  }

  function ShdrSize(c: Class): nat {
    if c.Elf64? then 64 else 40
  }

  // ---------------------------------------------------------------------
  // The number of program headers
  // ---------------------------------------------------------------------

  const UINT16_MAX: nat := 0xffff
  const UINT32_MAX: nat := 0xffff_ffff

  /** The length of the list of mappings, as it is counted. */
  function Num(n: nat): nat {
    n % 0x1_0000_0000
  }

  predicate HaveSection(n: nat) {
    Num(n) >= UINT16_MAX - 2
  }

  /** `sh_info` with a section header, `phdr_num` without: the number of program headers
      that the file is laid out for. */
  function MaxIndex(n: nat): nat {
    if !HaveSection(n) || Num(n) <= UINT32_MAX - 1 then 1 + Num(n) else UINT32_MAX
  }

  /** The number of mappings that get a program header: the loop stops when the headers
      are used up, but not before it has written one. */
  function LoadCount(n: nat): nat {
    if n == 0 then 0 else if MaxIndex(n) <= 2 then 1 else if n < MaxIndex(n) - 1 then n else MaxIndex(n) - 1
  }

  /** There are as many program headers as the file is laid out for exactly unless the
      count of the mappings has come back to zero. */
  lemma LoadCountIff(n: nat)
    ensures 1 + LoadCount(n) == MaxIndex(n) <==> n == 0 || Num(n) != 0
    ensures LoadCount(n) <= n
  {
  }

  /** Every mapping gets its header exactly when there are fewer than 2^32 - 1. */
  lemma AllLoadsIff(n: nat)
    ensures LoadCount(n) == n <==> n < UINT32_MAX
  {
  }

  // ---------------------------------------------------------------------
  // Program headers
  // ---------------------------------------------------------------------

  const PT_LOAD: nat := 1
  const PT_NOTE: nat := 4

  datatype Phdr = Phdr(kind: nat, offset: nat, vaddr: nat, paddr: nat, filesz: nat, memsz: nat)

  function Width(c: Class): nat {
    if c.Elf64? then 8 else 4
  }

  predicate Fits(c: Class, p: Phdr) {
    && p.kind < Range(4) && p.offset < Range(Width(c)) && p.vaddr < Range(Width(c)) && p.paddr < Range(Width(c))
    && p.filesz < Range(Width(c)) && p.memsz < Range(Width(c))
  }

  function Middle(c: Class, p: Phdr, big: bool): (r: seq<byte>)
    ensures |r| == 5 * Width(c)
  {
    var w := Width(c);
    Word(p.offset, w, big) + Word(p.vaddr, w, big) + Word(p.paddr, w, big) + Word(p.filesz, w, big) +
    Word(p.memsz, w, big)
  }

  /** The flags, which are zero, come second in one class and last in the other. */
  function EncodePhdr(c: Class, p: Phdr, big: bool): (r: seq<byte>)
    ensures |r| == PhdrSize(c)
  {
    if c.Elf64? then Word(p.kind, 4, big) + Word(0, 4, big) + Middle(c, p, big) + Word(0, 8, big)
    else Word(p.kind, 4, big) + Middle(c, p, big) + Word(0, 4, big) + Word(0, 4, big)
  }

  /** The bytes of the fields of a header. */
  datatype Fields = Fields(kind: seq<byte>, offset: seq<byte>, vaddr: seq<byte>, paddr: seq<byte>, filesz: seq<byte>,
                           memsz: seq<byte>)

  function FieldsOf(c: Class, bytes: seq<byte>): Fields
    requires |bytes| == PhdrSize(c)
  {
    var w, at := Width(c), if c.Elf64? then 8 else 4;
    Fields(bytes[..4], bytes[at..at + w], bytes[at + w..at + 2 * w], bytes[at + 2 * w..at + 3 * w],
           bytes[at + 3 * w..at + 4 * w], bytes[at + 4 * w..at + 5 * w])
  }

  function FieldValues(f: Fields, big: bool): Phdr {
    Phdr(Value(f.kind, big), Value(f.offset, big), Value(f.vaddr, big), Value(f.paddr, big), Value(f.filesz, big),
         Value(f.memsz, big))
  }

  function DecodePhdr(c: Class, bytes: seq<byte>, big: bool): Phdr
    requires |bytes| == PhdrSize(c)
  {
    FieldValues(FieldsOf(c, bytes), big)
  }

  lemma MiddleParts(c: Class, p: Phdr, big: bool, front: seq<byte>, back: seq<byte>)
    ensures var w, at, r := Width(c), |front|, front + Middle(c, p, big) + back;
            && r[at..at + w] == Word(p.offset, w, big) && r[at + w..at + 2 * w] == Word(p.vaddr, w, big)
            && r[at + 2 * w..at + 3 * w] == Word(p.paddr, w, big) && r[at + 3 * w..at + 4 * w] == Word(p.filesz, w, big)
            && r[at + 4 * w..at + 5 * w] == Word(p.memsz, w, big)
  {
  }

  function WordFields(c: Class, p: Phdr, big: bool): Fields {
    var w := Width(c);
    Fields(Word(p.kind, 4, big), Word(p.offset, w, big), Word(p.vaddr, w, big), Word(p.paddr, w, big),
           Word(p.filesz, w, big), Word(p.memsz, w, big))
  }

  lemma EncodedFields(c: Class, p: Phdr, big: bool)
    ensures FieldsOf(c, EncodePhdr(c, p, big)) == WordFields(c, p, big)
  {
    var w, kind := Width(c), Word(p.kind, 4, big);
    var front := if c.Elf64? then kind + Word(0, 4, big) else kind;
    var back := if c.Elf64? then Word(0, 8, big) else Word(0, 4, big) + Word(0, 4, big);
    var r := EncodePhdr(c, p, big);
    assert r == front + Middle(c, p, big) + back && r[..4] == kind;
    MiddleParts(c, p, big, front, back);
  }

  lemma WordFieldValues(c: Class, p: Phdr, big: bool, w: nat, m: nat)
    requires w == Width(c) && m == Range(w)
    ensures FieldValues(WordFields(c, p, big), big)
            == Phdr(p.kind % Range(4), p.offset % m, p.vaddr % m, p.paddr % m, p.filesz % m, p.memsz % m)
  {
    ValueOfWord(p.kind, 4, big);
    ValueOfWord(p.offset, w, big);
    ValueOfWord(p.vaddr, w, big);
    ValueOfWord(p.paddr, w, big);
    ValueOfWord(p.filesz, w, big);
    ValueOfWord(p.memsz, w, big);
  }

  /** A reader finds the header that was written, cut down to the width of its fields. */
  lemma PhdrCut(c: Class, p: Phdr, big: bool, w: nat, m: nat)
    requires w == Width(c) && m == Range(w)
    ensures DecodePhdr(c, EncodePhdr(c, p, big), big)
            == Phdr(p.kind % Range(4), p.offset % m, p.vaddr % m, p.paddr % m, p.filesz % m, p.memsz % m)
  {
    EncodedFields(c, p, big);
    WordFieldValues(c, p, big, w, m);
  }

  lemma RemainderIff(x: nat, m: nat)
    requires m > 0
    ensures x % m == x <==> x < m
  {
  }

  /** It is the header that was meant exactly if every field fits. */
  lemma PhdrReadIff(c: Class, p: Phdr, big: bool, w: nat, m: nat)
    requires w == Width(c) && m == Range(w)
    ensures DecodePhdr(c, EncodePhdr(c, p, big), big) == p <==> Fits(c, p)
  {
    PhdrCut(c, p, big, w, m);
    RemainderIff(p.kind, Range(4));
    RemainderIff(p.offset, m);
    RemainderIff(p.vaddr, m);
    RemainderIff(p.paddr, m);
    RemainderIff(p.filesz, m);
    RemainderIff(p.memsz, m);
  }

  /** The program headers, each in its bytes. */
  function Records(c: Class, ps: seq<Phdr>, big: bool): (r: seq<seq<byte>>)
    ensures |r| == |ps| && forall i | 0 <= i < |r| :: |r[i]| == PhdrSize(c)
  {
    seq(|ps|, i requires 0 <= i < |ps| => EncodePhdr(c, ps[i], big))
  }

  function Table(c: Class, ps: seq<Phdr>, big: bool): seq<byte> {
    Joined(Records(c, ps, big))
  }

  lemma TableAppend(c: Class, ps: seq<Phdr>, p: Phdr, big: bool)
    ensures Table(c, ps + [p], big) == Table(c, ps, big) + EncodePhdr(c, p, big)
  {
    assert Records(c, ps + [p], big) == Records(c, ps, big) + [EncodePhdr(c, p, big)];
    JoinedOne(Records(c, ps, big), EncodePhdr(c, p, big));
  }

  // ---------------------------------------------------------------------
  // The part of the file before the memory
  // ---------------------------------------------------------------------

  /** Where the memory is to begin, for `n` mappings. */
  function MemoryOffset(c: Class, n: nat, noteSize: nat): nat {
    EhdrSize(c) + PhdrSize(c) * MaxIndex(n) + (if HaveSection(n) then ShdrSize(c) else 0) + noteSize
  }

  /** ELF header, program headers, section header if there is one, and notes. */
  function Front(ehdr: seq<byte>, table: seq<byte>, section: seq<byte>, notes: seq<byte>): seq<byte> {
    ehdr + table + section + notes
  }

  /** The headers fill the room before the memory exactly unless the count of the
      mappings has come back to zero. */
  lemma FrontFillsIff(c: Class, n: nat, ehdr: seq<byte>, table: seq<byte>, section: seq<byte>, notes: seq<byte>)
    requires |ehdr| == EhdrSize(c) && |table| == PhdrSize(c) * (1 + LoadCount(n))
    requires |section| == if HaveSection(n) then ShdrSize(c) else 0
    ensures |Front(ehdr, table, section, notes)| == MemoryOffset(c, n, |notes|) <==> n == 0 || Num(n) != 0
    ensures n > 0 && Num(n) == 0 ==> |Front(ehdr, table, section, notes)| == MemoryOffset(c, n, |notes|) + PhdrSize(c)
  {
    LoadCountIff(n);
    assert n > 0 && Num(n) == 0 ==> LoadCount(n) == 1 && MaxIndex(n) == 1;
  }

  /** Program header `i` of a file. */
  function ReadPhdr(c: Class, file: seq<byte>, i: nat, big: bool): Phdr
    requires EhdrSize(c) + PhdrSize(c) * (i + 1) <= |file|
  {
    var at := EhdrSize(c) + PhdrSize(c) * i;
    DecodePhdr(c, file[at..at + PhdrSize(c)], big)
  }

  lemma ReadPhdrIs(c: Class, file: seq<byte>, ehdr: seq<byte>, ps: seq<Phdr>, big: bool, i: nat)
    requires |ehdr| == EhdrSize(c) && i < |ps| && ehdr + Table(c, ps, big) <= file
    ensures EhdrSize(c) + PhdrSize(c) * (i + 1) <= |file|
    ensures ReadPhdr(c, file, i, big) == DecodePhdr(c, EncodePhdr(c, ps[i], big), big)
  {
    var records, w := Records(c, ps, big), PhdrSize(c);
    JoinedAt(records, w, i);
    assert w * (i + 1) == w * i + w;
    FoundIn(file, ehdr, Joined(records), w * i, w);
    assert records[i] == EncodePhdr(c, ps[i], big);
  }

  lemma FoundIn(file: seq<byte>, a: seq<byte>, b: seq<byte>, x: nat, n: nat)
    requires a + b <= file && x + n <= |b|
    ensures |a| + x + n <= |file| && file[|a| + x..|a| + x + n] == b[x..x + n]
  {
    Shifted(a, b, x, n);
    assert file[|a| + x..|a| + x + n] == (a + b)[|a| + x..|a| + x + n];
  }
}
