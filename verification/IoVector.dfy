/** Vectors of pieces of memory: what `qemu_iovec_concat` takes from them. */
module IoVector {
  import opened Common
  import opened Pieces

  const SECTOR: nat := 512

  /** The pieces, with their bytes, and the number of bytes that was counted. */
  datatype QEMUIOVector = QEMUIOVector(iov: seq<seq<byte>>, size: nat)

  predicate Counted(q: QEMUIOVector) {
    q.size == |Joined(q.iov)|
  }

  function Min(a: int, b: int): int {
    if a <= b then a else b
  }

  /** The pieces of `size` bytes from byte `off` on, as far as there are any. */
  function Slice(iov: seq<seq<byte>>, off: nat, size: nat): seq<seq<byte>> {
    if size == 0 || iov == [] then []
    else if off < |iov[0]| then
      var len := Min(|iov[0]| - off, size);
      [iov[0][off..off + len]] + Slice(iov[1..], 0, size - len)
    else Slice(iov[1..], off - |iov[0]|, size)
  }

  /** The pieces hold exactly those bytes, and there are no more pieces than before. */
  lemma {:induction false} SliceMeaning(iov: seq<seq<byte>>, off: nat, size: nat)
    ensures |Slice(iov, off, size)| <= |iov|
    ensures var all := Joined(iov);
            Joined(Slice(iov, off, size)) == all[Min(off, |all|)..Min(off + size, |all|)]
  {
    if size > 0 && iov != [] {
      var p, rest := iov[0], iov[1..];
      if off < |p| {
        var len := Min(|p| - off, size);
        SliceMeaning(rest, 0, size - len);
        assert Slice(iov, off, size)[1..] == Slice(rest, 0, size - len);
        CutHead(p, Joined(rest), off, size);
      } else {
        SliceMeaning(rest, off - |p|, size);
        CutTail(p, Joined(rest), off, size);
      }
    }
  }

  lemma CutHead(p: seq<byte>, rest: seq<byte>, off: nat, size: nat)
    requires off < |p|
    ensures var len := Min(|p| - off, size);
            p[off..off + len] + rest[..Min(size - len, |rest|)] == (p + rest)[off..Min(off + size, |p + rest|)]
  {
  }

  lemma CutTail(p: seq<byte>, rest: seq<byte>, off: nat, size: nat)
    requires off >= |p|
    ensures var all := p + rest;
            rest[Min(off - |p|, |rest|)..Min(off - |p| + size, |rest|)] == all[Min(off, |all|)..Min(off + size, |all|)]
  {
  }

  /** The first bytes of one vector, and all of another one. */
  lemma JoinedSlices(a: seq<seq<byte>>, b: seq<seq<byte>>, n: nat, size: nat)
    requires n <= |Joined(a)| && size == |Joined(b)|
    ensures Joined(Slice(a, 0, n) + Slice(b, 0, size)) == Joined(a)[..n] + Joined(b)
    ensures |Slice(a, 0, n) + Slice(b, 0, size)| <= |a| + |b|
  {
    SliceMeaning(a, 0, n);
    SliceMeaning(b, 0, size);
    JoinedAppend(Slice(a, 0, n), Slice(b, 0, size));
    assert Joined(b)[0..size] == Joined(b);
  }

  /** `qemu_iovec_add`. */
  method Add(q: QEMUIOVector, piece: seq<byte>) returns (r: QEMUIOVector)
    requires Counted(q)
    ensures r.iov == q.iov + [piece] && Counted(r)
  {
    r := QEMUIOVector(q.iov + [piece], q.size + |piece|);
    JoinedAppend(q.iov, [piece]);
    assert Joined([piece]) == piece + Joined([]);
  }

  /** `qemu_iovec_concat`: adds the pieces of `sbytes` bytes of `src` from `soffset` on. */
  method Concat(dst: QEMUIOVector, src: QEMUIOVector, soffset: nat, sbytes: nat) returns (r: QEMUIOVector)
    requires Counted(dst) && soffset <= |Joined(src.iov)|
    ensures r.iov == dst.iov + Slice(src.iov, soffset, sbytes) && Counted(r)
  {
    r := dst;
    if sbytes == 0 {
      return;
    }
    var i, done, off := 0, 0, soffset;
    ghost var goal := Slice(src.iov, soffset, sbytes);
    while done < sbytes && i < |src.iov|
      invariant 0 <= i <= |src.iov| && 0 <= done <= sbytes && 0 <= off <= |Joined(src.iov[i..])|
      invariant done > 0 ==> off == 0
      invariant Counted(r) && r.iov + Slice(src.iov[i..], off, sbytes - done) == dst.iov + goal
    {
      SliceNext(r.iov, src.iov, i, off, sbytes - done);
      if off < |src.iov[i]| {
        var len := Min(|src.iov[i]| - off, sbytes - done);
        r := Add(r, src.iov[i][off..off + len]);
        done, off := done + len, 0;
      } else {
        off := off - |src.iov[i]|;
      }
      i := i + 1;
    }
    assert off == 0;
    assert Slice(src.iov[i..], off, sbytes - done) == [];
  }

  /** The next piece of a slice. */
  lemma SliceNext(a: seq<seq<byte>>, iov: seq<seq<byte>>, i: nat, off: nat, size: nat)
    requires i < |iov| && size > 0
    ensures Joined(iov[i..]) == iov[i] + Joined(iov[i + 1..])
    ensures var len := Min(|iov[i]| - off, size);
            off < |iov[i]| ==> a + Slice(iov[i..], off, size) == (a + [iov[i][off..off + len]]) +
                               Slice(iov[i + 1..], 0, size - len)
    ensures off >= |iov[i]| ==> Slice(iov[i..], off, size) == Slice(iov[i + 1..], off - |iov[i]|, size)
  {
    assert iov[i..][1..] == iov[i + 1..];
    if off < |iov[i]| {
      var len := Min(|iov[i]| - off, size);
      Regroup(a, iov[i][off..off + len], Slice(iov[i + 1..], 0, size - len));
    }
  }

  lemma Regroup(a: seq<seq<byte>>, p: seq<byte>, b: seq<seq<byte>>)
    ensures a + ([p] + b) == (a + [p]) + b
  {
  }

  /** One sector of some data. */
  function Sector(bytes: seq<byte>, k: nat): seq<byte>
    requires SECTOR * (k + 1) <= |bytes|
  {
    bytes[SECTOR * k..SECTOR * (k + 1)]
  }

  lemma OneSector(x: seq<byte>)
    requires |x| == SECTOR
    ensures Joined([x]) == x && Sector(x, 0) == x
  {
    assert [x][1..] == [] && x + [] == x;
  }

  /** The sectors of the first part of some data and other data after it. */
  lemma SectorOfJoin(x: seq<byte>, y: seq<byte>, n: nat, k: nat)
    requires SECTOR * n <= |x| && SECTOR * (k + 1) <= SECTOR * n + |y|
    ensures Sector(x[..SECTOR * n] + y, k) == if k < n then Sector(x, k) else Sector(y, k - n)
  {
  }
}
