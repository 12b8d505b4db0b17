/** The flattened dump format: the file is a sequence of records, each of which puts
    bytes at an offset; and the write cache that collects bytes before it makes a
    record of them. */
module FlatFile {
  import opened Common

  datatype Record = Record(offset: nat, data: seq<byte>)

  predicate Covers(r: Record, x: nat) {
    r.offset <= x < r.offset + |r.data|
  }

  /** The byte at `x` after all records have been applied. */
  function At(rs: seq<Record>, x: nat): byte {
    if rs == [] then 0
    else
      var last := rs[|rs| - 1];
      if Covers(last, x) then last.data[x - last.offset] else At(rs[..|rs| - 1], x)
  }

  /** The records put `bytes` at `base`. */
  ghost predicate Puts(rs: seq<Record>, base: nat, bytes: seq<byte>) {
    forall k {:trigger bytes[k]} | 0 <= k < |bytes| :: At(rs, base + k) == bytes[k]
  }

  lemma AtLast(rs: seq<Record>, r: Record, x: nat)
    ensures At(rs + [r], x) == if Covers(r, x) then r.data[x - r.offset] else At(rs, x)
  {
    assert (rs + [r])[..|rs|] == rs;
  }

  /** A record elsewhere changes nothing. */
  lemma PutsStay(rs: seq<Record>, r: Record, base: nat, bytes: seq<byte>)
    requires Puts(rs, base, bytes) && (r.offset + |r.data| <= base || base + |bytes| <= r.offset)
    ensures Puts(rs + [r], base, bytes)
  {
    forall k | 0 <= k < |bytes|
      ensures At(rs + [r], base + k) == bytes[k]
    {
      AtLast(rs, r, base + k);
    }
  }

  /** A record right behind adds its bytes. */
  lemma PutsMore(rs: seq<Record>, r: Record, base: nat, bytes: seq<byte>)
    requires Puts(rs, base, bytes) && r.offset == base + |bytes|
    ensures Puts(rs + [r], base, bytes + r.data)
  {
    forall k | 0 <= k < |bytes + r.data|
      ensures At(rs + [r], base + k) == (bytes + r.data)[k]
    {
      AtLast(rs, r, base + k);
    }
  }

  lemma PutsPart(rs: seq<Record>, base: nat, bytes: seq<byte>, i: nat, n: nat)
    requires Puts(rs, base, bytes) && i + n <= |bytes|
    ensures Puts(rs, base + i, bytes[i..i + n])
  {
    var part := bytes[i..i + n];
    forall k | 0 <= k < |part|
      ensures At(rs, base + i + k) == part[k]
    {
      assert part[k] == bytes[i + k];
    }
  }

  predicate Within(r: Record, lo: nat, hi: nat) {
    lo <= r.offset && r.offset + |r.data| <= hi
  }

  /** The records that were added lie between `lo` and `hi`. */
  ghost predicate Extends(rs: seq<Record>, rs': seq<Record>, lo: nat, hi: nat) {
    rs <= rs' && forall i | |rs| <= i < |rs'| :: Within(rs'[i], lo, hi)
  }

  lemma ExtendsTransitive(rs: seq<Record>, rs': seq<Record>, rs'': seq<Record>, lo: nat, hi: nat, lo': nat, hi': nat)
    requires Extends(rs, rs', lo, hi) && Extends(rs', rs'', lo', hi')
    ensures Extends(rs, rs'', if lo < lo' then lo else lo', if hi > hi' then hi else hi')
  {
    forall i | |rs| <= i < |rs''|
      ensures Within(rs''[i], if lo < lo' then lo else lo', if hi > hi' then hi else hi')
    {
      assert i < |rs'| ==> rs''[i] == rs'[i] && Within(rs'[i], lo, hi);
      assert i >= |rs'| ==> Within(rs''[i], lo', hi');
    }
  }

  /** Records elsewhere change nothing. */
  lemma {:induction false} PutsUndisturbed(rs: seq<Record>, rs': seq<Record>, lo: nat, hi: nat, base: nat,
                                           bytes: seq<byte>)
    requires Puts(rs, base, bytes) && Extends(rs, rs', lo, hi) && (hi <= base || base + |bytes| <= lo)
    ensures Puts(rs', base, bytes)
    decreases |rs'|
  {
    if |rs'| == |rs| {
      assert rs' == rs;
    } else {
      var n := |rs'| - 1;
      var front := rs'[..n];
      assert rs' == front + [rs'[n]] && Within(rs'[n], lo, hi);
      assert forall i | |rs| <= i < n :: front[i] == rs'[i];
      PutsUndisturbed(rs, front, lo, hi, base, bytes);
      PutsStay(front, rs'[n], base, bytes);
    }
  }

  class Vmcore {
    var records: seq<Record>

    constructor ()
      ensures records == []
    {
      records := [];
    }

    /** `write_buffer`. */
    method WriteBuffer(offset: nat, data: seq<byte>)
      modifies this
      ensures records == old(records) + [Record(offset, data)]
    {
      records := records + [Record(offset, data)];
    }
  }

  /** The cache was opened at `base` and has been given `all`: what is not in the file
      yet is in the buffer. */
  ghost predicate Buffered(rs: seq<Record>, base: nat, offset: nat, buf: seq<byte>, all: seq<byte>) {
    && |buf| <= |all| && offset == base + |all| - |buf|
    && all[|all| - |buf|..] == buf
    && Puts(rs, base, all[..|all| - |buf|])
  }

  lemma FlushKeeps(rs: seq<Record>, base: nat, offset: nat, buf: seq<byte>, all: seq<byte>)
    requires Buffered(rs, base, offset, buf, all)
    ensures Buffered(rs + [Record(offset, buf)], base, offset + |buf|, [], all)
  {
    PutsMore(rs, Record(offset, buf), base, all[..|all| - |buf|]);
    assert all == all[..|all| - |buf|] + buf;
    assert all[..|all|] == all;
  }

  lemma AppendKeeps(rs: seq<Record>, base: nat, offset: nat, buf: seq<byte>, all: seq<byte>, bytes: seq<byte>)
    requires Buffered(rs, base, offset, buf, all)
    ensures Buffered(rs, base, offset, buf + bytes, all + bytes)
  {
    var n := |all| - |buf|;
    assert (all + bytes)[..n] == all[..n];
    assert (all + bytes)[n..] == all[n..] + bytes;
  }

  /** Records elsewhere do not disturb the cache. */
  lemma OthersKeep(rs: seq<Record>, rs': seq<Record>, lo: nat, hi: nat, base: nat, offset: nat, buf: seq<byte>,
                   all: seq<byte>)
    requires Buffered(rs, base, offset, buf, all) && Extends(rs, rs', lo, hi) && (hi <= base || base + |all| <= lo)
    ensures Buffered(rs', base, offset, buf, all)
  {
    PutsUndisturbed(rs, rs', lo, hi, base, all[..|all| - |buf|]);
  }

  class DataCache {
    const vmcore: Vmcore
    const bufSize: nat
    var offset: nat
    var buf: seq<byte>
    ghost const base: nat
    /** Everything that was written to the cache. */
    ghost var all: seq<byte>

    ghost predicate Valid()
      reads this, vmcore
    {
      |buf| <= bufSize && Buffered(vmcore.records, base, offset, buf, all)
    }

    /** `prepare_data_cache`. */
    constructor (vmcore: Vmcore, offset: nat, bufSize: nat)
      ensures Valid() && this.vmcore == vmcore && base == offset && all == [] && this.bufSize == bufSize
    {
      this.vmcore, this.bufSize, this.offset, buf, base, all := vmcore, bufSize, offset, [], offset, [];
    }

    /** The flushing part of `write_cache`. */
    method Flush()
      requires Valid()
      modifies this`offset, this`buf, vmcore
      ensures Valid() && buf == []
      ensures vmcore.records == old(vmcore.records) + [Record(old(offset), old(buf))]
    {
      FlushKeeps(vmcore.records, base, offset, buf, all);
      vmcore.WriteBuffer(offset, buf);
      offset := offset + |buf|;
      buf := [];
    }

    /** `write_cache` without the sync flag. */
    method Write(bytes: seq<byte>)
      requires Valid() && |bytes| <= bufSize
      modifies this, vmcore
      ensures Valid() && all == old(all) + bytes
      ensures Extends(old(vmcore.records), vmcore.records, base, base + |all|)
    {
      if |buf| + |bytes| > bufSize {
        Flush();
      }
      AppendKeeps(vmcore.records, base, offset, buf, all, bytes);
      buf := buf + bytes;
      all := all + bytes;
    }

    /** `write_cache` with the sync flag: the file holds everything that was written. */
    method Sync()
      requires Valid()
      modifies this, vmcore
      ensures Valid() && all == old(all) && Puts(vmcore.records, base, all)
      ensures Extends(old(vmcore.records), vmcore.records, base, base + |all|)
    {
      if |buf| > 0 {
        Flush();
      }
      assert all[..|all|] == all;
    }
  }
}
