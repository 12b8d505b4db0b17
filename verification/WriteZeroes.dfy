/** Splitting of a zero write into the pieces that the block driver is given, and the
    bounce buffer for drivers that cannot write zeroes. */
module WriteZeroes {
  import opened Arith
  import opened Common

  const MAX_WRITE_ZEROES_DEFAULT: nat := 32768
  const SECTOR_SIZE: nat := 512
  const ENOTSUP: int := 95

  /** `maxWriteZeroes` and `alignment` are 0 where the driver sets no limit. */
  datatype BlockLimits = BlockLimits(maxWriteZeroes: nat, alignment: nat)

  datatype Chunk = Chunk(sector: nat, num: nat)

  function Limit(bl: BlockLimits): (r: nat)
    ensures r > 0
  {
    if bl.maxWriteZeroes > 0 then bl.maxWriteZeroes else MAX_WRITE_ZEROES_DEFAULT
  }

  /** The size of the next piece. */
  function Next(bl: BlockLimits, sector: nat, nb: nat): (num: nat)
    requires nb > 0
    ensures 0 < num <= nb && num <= Limit(bl)
  {
    var num :=
      if bl.alignment == 0 || nb <= bl.alignment then nb
      else if sector % bl.alignment != 0 then bl.alignment - sector % bl.alignment
      else nb - (sector + nb) % bl.alignment;
    if num > Limit(bl) then Limit(bl) else num
  }

  /** All pieces of a request. */
  function Chunks(bl: BlockLimits, sector: nat, nb: nat): seq<Chunk>
    decreases nb
  {
    if nb == 0 then []
    else
      var num := Next(bl, sector, nb);
      [Chunk(sector, num)] + Chunks(bl, sector + num, nb - num)
  }

  /** The pieces follow each other from `sector` up to `end`. */
  ghost predicate Tiles(chunks: seq<Chunk>, sector: nat, end: nat) {
    if chunks == [] then sector == end
    else chunks[0].sector == sector && chunks[0].num > 0 && Tiles(chunks[1..], sector + chunks[0].num, end)
  }

  /** The pieces tile the request exactly, in order, and stay within the limit. */
  lemma {:induction false} ChunksTile(bl: BlockLimits, sector: nat, nb: nat)
    ensures Tiles(Chunks(bl, sector, nb), sector, sector + nb)
    ensures forall i | 0 <= i < |Chunks(bl, sector, nb)| :: 0 < Chunks(bl, sector, nb)[i].num <= Limit(bl)
    decreases nb
  {
    if nb > 0 {
      var num := Next(bl, sector, nb);
      ChunksTile(bl, sector + num, nb - num);
      assert Chunks(bl, sector, nb)[1..] == Chunks(bl, sector + num, nb - num);
    }
  }

  /** A sector is in one of the pieces. */
  ghost predicate Hit(chunks: seq<Chunk>, s: nat) {
    exists i :: 0 <= i < |chunks| && InChunk(chunks[i], s)
  }

  predicate InChunk(c: Chunk, s: nat) {
    c.sector <= s < c.sector + c.num
  }

  /** Pieces that tile a range write each of its sectors and no other. */
  lemma {:induction false} TilesHit(chunks: seq<Chunk>, sector: nat, end: nat, s: nat)
    requires Tiles(chunks, sector, end)
    ensures sector <= end && (Hit(chunks, s) <==> sector <= s < end)
    decreases |chunks|
  {
    if chunks != [] {
      var rest := chunks[1..];
      TilesHit(rest, sector + chunks[0].num, end, s);
      if Hit(rest, s) {
        var i :| 0 <= i < |rest| && InChunk(rest[i], s);
        assert chunks[i + 1] == rest[i];
      }
      if Hit(chunks, s) {
        var i :| 0 <= i < |chunks| && InChunk(chunks[i], s);
        assert i > 0 ==> rest[i - 1] == chunks[i];
      }
      assert chunks[0].sector == sector;
    }
  }

  ghost predicate AllAligned(chunks: seq<Chunk>, alignment: nat)
    requires alignment > 0
  {
    forall i | 0 <= i < |chunks| :: chunks[i].sector % alignment == 0
  }

  /** Every piece after the first begins on an aligned sector. */
  ghost predicate BulkAligned(bl: BlockLimits, sector: nat, nb: nat)
    requires bl.alignment > 0
  {
    var chunks := Chunks(bl, sector, nb);
    chunks != [] ==> AllAligned(chunks[1..], bl.alignment)
  }

  /** What is left after a piece begins on an aligned sector. */
  lemma RestIsAligned(bl: BlockLimits, sector: nat, nb: nat)
    requires bl.alignment > 0 && Limit(bl) % bl.alignment == 0 && 0 < nb && nb > Next(bl, sector, nb)
    ensures (sector + Next(bl, sector, nb)) % bl.alignment == 0
  {
    var a := bl.alignment;
    MultiplesApart(0, Limit(bl), a);
    if sector % a != 0 {
      RoundDown(sector, a);
    } else {
      RoundDown(sector + nb, a);
      ModAddMultiple(sector, Limit(bl), a);
    }
  }

  lemma {:induction false} AlignedFromHere(bl: BlockLimits, sector: nat, nb: nat)
    requires bl.alignment > 0 && Limit(bl) % bl.alignment == 0 && (nb == 0 || sector % bl.alignment == 0)
    ensures AllAligned(Chunks(bl, sector, nb), bl.alignment)
    decreases nb
  {
    if nb > 0 {
      var num := Next(bl, sector, nb);
      if nb > num {
        RestIsAligned(bl, sector, nb);
      }
      AlignedFromHere(bl, sector + num, nb - num);
    }
  }

  /** The bulk is aligned when the limit is a multiple of the alignment. */
  lemma BulkIsAligned(bl: BlockLimits, sector: nat, nb: nat)
    requires bl.alignment > 0 && Limit(bl) % bl.alignment == 0
    ensures BulkAligned(bl, sector, nb)
  {
    if nb > 0 {
      var num := Next(bl, sector, nb);
      if nb > num {
        RestIsAligned(bl, sector, nb);
      }
      AlignedFromHere(bl, sector + num, nb - num);
      assert Chunks(bl, sector, nb)[1..] == Chunks(bl, sector + num, nb - num);
    }
  }

  /** A request of a multiple of the alignment is cut at the limit. */
  lemma CutAtLimit(bl: BlockLimits, nb: nat)
    requires bl.alignment > 0 && Limit(bl) % bl.alignment != 0 && nb == bl.alignment * (Limit(bl) + 1)
    ensures nb > Limit(bl) && Next(bl, 0, nb) == Limit(bl)
  {
    var a, limit := bl.alignment, Limit(bl);
    MulMod(a, limit + 1);
    SmallMultiple(limit + 1, a);
    assert nb > a by { SmallMultiple(a, limit); assert a * (limit + 1) == a * limit + a; }
  }

  /** Otherwise it is not: a request of `alignment * (limit + 1)` sectors from sector 0
      on is cut at the limit. */
  lemma BulkIsNotAligned(bl: BlockLimits)
    requires bl.alignment > 0 && Limit(bl) % bl.alignment != 0
    ensures !BulkAligned(bl, 0, bl.alignment * (Limit(bl) + 1))
  {
    var limit, nb := Limit(bl), bl.alignment * (Limit(bl) + 1);
    CutAtLimit(bl, nb);
    var rest := Chunks(bl, limit, nb - limit);
    assert Chunks(bl, 0, nb)[1..] == rest;
    assert rest[0].sector == limit;
  }

  /** The drivers' expectation holds for every request exactly when the limit is a
      multiple of the alignment. */
  lemma BulkAlignedIff(bl: BlockLimits)
    requires bl.alignment > 0
    ensures (forall sector: nat, nb: nat :: BulkAligned(bl, sector, nb)) <==> Limit(bl) % bl.alignment == 0
  {
    if Limit(bl) % bl.alignment == 0 {
      forall sector: nat, nb: nat
        ensures BulkAligned(bl, sector, nb)
      {
        BulkIsAligned(bl, sector, nb);
      }
    } else {
      BulkIsNotAligned(bl);
    }
  }

  /** A piece longer than the alignment begins and ends on aligned sectors. */
  ghost predicate BulkWhole(bl: BlockLimits, sector: nat, nb: nat)
    requires bl.alignment > 0
  {
    forall c | c in Chunks(bl, sector, nb) && c.num > bl.alignment ::
      c.sector % bl.alignment == 0 && (c.sector + c.num) % bl.alignment == 0
  }

  lemma PieceIsWhole(bl: BlockLimits, sector: nat, nb: nat)
    requires bl.alignment > 0 && (Limit(bl) % bl.alignment == 0 || Limit(bl) < bl.alignment)
    requires 0 < nb && Next(bl, sector, nb) > bl.alignment
    ensures sector % bl.alignment == 0 && (sector + Next(bl, sector, nb)) % bl.alignment == 0
  {
    RoundDown(sector + nb, bl.alignment);
    ModAddMultiple(sector, Limit(bl), bl.alignment);
  }

  lemma {:induction false} BulkIsWhole(bl: BlockLimits, sector: nat, nb: nat)
    requires bl.alignment > 0 && (Limit(bl) % bl.alignment == 0 || Limit(bl) < bl.alignment)
    ensures BulkWhole(bl, sector, nb)
    decreases nb
  {
    if nb > 0 {
      var num := Next(bl, sector, nb);
      BulkIsWhole(bl, sector + num, nb - num);
      if num > bl.alignment {
        PieceIsWhole(bl, sector, nb);
      }
    }
  }

  lemma NotWhole(bl: BlockLimits, nb: nat, limit: nat)
    requires 0 < bl.alignment < limit && limit % bl.alignment != 0 && 0 < nb && Next(bl, 0, nb) == limit
    ensures !BulkWhole(bl, 0, nb)
  {
    assert Chunks(bl, 0, nb)[0] == Chunk(0, limit);
  }

  /** The bulk is whole for every request exactly when the limit is a multiple of the
      alignment, or too small for a piece that is longer than the alignment. */
  lemma BulkWholeIff(bl: BlockLimits)
    requires bl.alignment > 0
    ensures (forall sector: nat, nb: nat :: BulkWhole(bl, sector, nb))
            <==> Limit(bl) % bl.alignment == 0 || Limit(bl) < bl.alignment
  {
    if Limit(bl) % bl.alignment == 0 || Limit(bl) < bl.alignment {
      forall sector: nat, nb: nat
        ensures BulkWhole(bl, sector, nb)
      {
        BulkIsWhole(bl, sector, nb);
      }
    } else {
      var nb := bl.alignment * (Limit(bl) + 1);
      CutAtLimit(bl, nb);
      NotWhole(bl, nb, Limit(bl));
    }
  }

  /** Pieces are as long as they may be: a piece that is within the limit and does not end
      the request ends on an aligned sector, the next one if it begins inside an aligned
      block, and the last one otherwise. */
  lemma PieceIsLong(bl: BlockLimits, sector: nat, nb: nat)
    requires nb > 0
    ensures var num, a := Next(bl, sector, nb), bl.alignment;
            || num == Limit(bl) || num == nb
            || (&& 0 < a < nb && (sector + num) % a == 0
                && (if sector % a == 0 then nb - num < a else num < a))
  {
    if bl.alignment > 0 {
      RoundDown(sector, bl.alignment);
      RoundDown(sector + nb, bl.alignment);
    }
  }

  /** The first part of the loop in `bdrv_co_do_write_zeroes`. */
  method NextSize(bl: BlockLimits, sector: nat, nb: nat, limit: nat) returns (num: nat)
    requires nb > 0 && limit == Limit(bl)
    ensures num == Next(bl, sector, nb)
  {
    num := nb;
    if bl.alignment > 0 && num > bl.alignment {
      if sector % bl.alignment != 0 {
        num := bl.alignment - sector % bl.alignment;
      } else if (sector + num) % bl.alignment != 0 {
        num := num - (sector + num) % bl.alignment;
      }
    }
    if num > limit {
      num := limit;
    }
  }

  /** What the driver answers in round `k`: to `bdrv_co_write_zeroes` for a piece, if it
      has that operation, and to `bdrv_co_writev` of some bytes for it. */
  datatype Driver = Driver(hasWriteZeroes: bool, zeroes: (nat, Chunk) -> int, writev: (nat, Chunk, nat) -> int)

  /** What becomes of a piece: the driver writes the zeroes, or, if it cannot, as many
      bytes as the piece has. */
  function Answer(d: Driver, k: nat, c: Chunk): int {
    if d.hasWriteZeroes && d.zeroes(k, c) != -ENOTSUP then d.zeroes(k, c)
    else d.writev(k, c, c.num * SECTOR_SIZE)
  }

  /** The pieces were taken one after the other, up to one that failed with `ret`. */
  ghost predicate Answered(d: Driver, given: seq<Chunk>, ret: int) {
    var n := |given| - 1;
    && (forall j | 0 <= j < n :: Answer(d, j, given[j]) == 0)
    && ret == if given == [] then 0 else Answer(d, n, given[n])
  }

  lemma AnsweredNext(d: Driver, given: seq<Chunk>, c: Chunk)
    requires Answered(d, given, 0)
    ensures Answered(d, given + [c], Answer(d, |given|, c))
  {
  }

  lemma TakeNext(bl: BlockLimits, all: seq<Chunk>, given: seq<Chunk>, sector: nat, nb: nat, num: nat)
    requires nb > 0 && num == Next(bl, sector, nb) && all == given + Chunks(bl, sector, nb)
    ensures all == given + [Chunk(sector, num)] + Chunks(bl, sector + num, nb - num)
  {
  }

  class ZeroWriter {
    /** The sectors that hold zeroes, as far as the driver has said so. */
    ghost var zeroed: set<nat>
    /** The bounce buffer: its size, or nothing. */
    var bounce: Option<nat>

    constructor ()
      ensures zeroed == {} && bounce.None?
    {
      zeroed, bounce := {}, None;
    }

    ghost function Range(sector: nat, num: nat): set<nat> {
      set s | sector <= s < sector + num && InChunk(Chunk(sector, num), s)
    }

    lemma RangesJoin(from: nat, sector: nat, num: nat, before: set<nat>)
      requires from <= sector
      ensures before + Range(from, sector - from) + Range(sector, num) == before + Range(from, sector - from + num)
    {
    }

    /** Writes one piece, with the bounce buffer where the driver cannot write
        zeroes.  The buffer is never too small. */
    method WriteChunk(d: Driver, k: nat, sector: nat, num: nat, limit: nat) returns (ret: int)
      requires 0 < num <= limit && (bounce.Some? ==> bounce.value == limit * SECTOR_SIZE)
      modifies this
      ensures ret == Answer(d, k, Chunk(sector, num))
      ensures bounce.Some? ==> bounce.value == limit * SECTOR_SIZE
      ensures zeroed == if ret == 0 then old(zeroed) + Range(sector, num) else old(zeroed)
    {
      ret := -ENOTSUP;
      if d.hasWriteZeroes {
        ret := d.zeroes(k, Chunk(sector, num));
      }
      if ret == -ENOTSUP {
        var len := num * SECTOR_SIZE;
        if bounce.None? {
          bounce := Some(num * SECTOR_SIZE);
        }
        assert bounce.value >= len;
        ret := d.writev(k, Chunk(sector, num), len);
        if num < limit {
          bounce := None;
        }
      }
      if ret == 0 {
        zeroed := zeroed + Range(sector, num);
      }
    }

    /** `bdrv_co_do_write_zeroes`: the driver gets the pieces of the request one by
        one, up to the first that fails. */
    method DoWriteZeroes(d: Driver, bl: BlockLimits, sector0: nat, nb0: nat) returns (ret: int, ghost given: seq<Chunk>)
      requires bounce.None?
      modifies this
      ensures given <= Chunks(bl, sector0, nb0)
      ensures Answered(d, given, ret)
      ensures ret == 0 ==> given == Chunks(bl, sector0, nb0) && zeroed == old(zeroed) + Range(sector0, nb0)
      ensures ret != 0 ==> given != [] && sector0 <= given[|given| - 1].sector
                           && zeroed == old(zeroed) + Range(sector0, given[|given| - 1].sector - sector0)
    {
      ret, given := 0, [];
      var sector, nb, k := sector0, nb0, 0;
      var limit := Limit(bl);
      ghost var done, all := sector0, Chunks(bl, sector0, nb0);
      while nb > 0 && ret == 0
        invariant sector0 <= done <= sector && 0 <= nb && sector + nb == sector0 + nb0
        invariant bounce.Some? ==> bounce.value == limit * SECTOR_SIZE
        invariant k == |given| && Answered(d, given, ret)
        invariant all == given + Chunks(bl, sector, nb)
        invariant zeroed == old(zeroed) + Range(sector0, done - sector0)
        invariant if ret == 0 then done == sector else given != [] && given[|given| - 1].sector == done
        decreases nb
      {
        var num := NextSize(bl, sector, nb, limit);
        ret := WriteChunk(d, k, sector, num, limit);
        AnsweredNext(d, given, Chunk(sector, num));
        TakeNext(bl, all, given, sector, nb, num);
        RangesJoin(sector0, sector, num, old(zeroed));
        given := given + [Chunk(sector, num)];
        sector, nb, k := sector + num, nb - num, k + 1;
        done := if ret == 0 then sector else done;
      }
    }
  }
}
