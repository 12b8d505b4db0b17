/** Batches of writes: adjacent requests are merged before they are submitted, and the
    callbacks of the whole batch are called when the last write is complete. */
module Multiwrite {
  import opened Common
  import opened Pieces
  import opened IoVector

  const IOV_MAX: nat := 1024

  type SectorData = seq<byte>

  datatype BlockRequest = BlockRequest(sector: nat, nbSectors: nat, qiov: QEMUIOVector)

  function End(r: BlockRequest): nat {
    r.sector + r.nbSectors
  }

  function Bytes(r: BlockRequest): seq<byte> {
    Joined(r.qiov.iov)
  }

  /** The vector holds as many bytes as the request has sectors. */
  predicate Sized(r: BlockRequest) {
    Counted(r.qiov) && r.qiov.size == SECTOR * r.nbSectors
  }

  predicate AllSized(rs: seq<BlockRequest>) {
    forall i | 0 <= i < |rs| :: Sized(rs[i])
  }

  /** The number of pieces: `niov`. */
  function Niov(r: BlockRequest): nat {
    |r.qiov.iov|
  }

  /** All the pieces of some requests. */
  function AllPieces(rs: seq<BlockRequest>): nat {
    if rs == [] then 0 else AllPieces(rs[..|rs| - 1]) + Niov(rs[|rs| - 1])
  }

  lemma {:induction false} PiecesUpTo(rs: seq<BlockRequest>, i: nat)
    requires i < |rs|
    ensures AllPieces(rs[..i]) + Niov(rs[i]) == AllPieces(rs[..i + 1]) <= AllPieces(rs)
    decreases |rs|
  {
    assert rs[..i + 1][..i] == rs[..i];
    if i + 1 < |rs| {
      PiecesUpTo(rs[..|rs| - 1], i);
      assert rs[..|rs| - 1][..i] == rs[..i] && rs[..|rs| - 1][..i + 1] == rs[..i + 1];
    } else {
      assert rs[..i + 1] == rs;
    }
  }

  // ---------------------------------------------------------------------
  // What requests write
  // ---------------------------------------------------------------------

  /** What a request writes to a sector: that sector of its joined pieces. */
  function Value(r: BlockRequest, s: nat): (v: Option<SectorData>)
    ensures Sized(r) ==> (v.Some? <==> r.sector <= s < End(r))
  {
    if r.sector <= s < End(r) && SECTOR * (s - r.sector + 1) <= |Bytes(r)| then Some(Sector(Bytes(r), s - r.sector))
    else None
  }

  /** What is in a sector after the requests, one after the other. */
  function Written(rs: seq<BlockRequest>, s: nat): Option<SectorData> {
    if rs == [] then None
    else
      var n := |rs| - 1;
      if Value(rs[n], s).Some? then Value(rs[n], s) else Written(rs[..n], s)
  }

  ghost predicate WritesAny(rs: seq<BlockRequest>, s: nat, d: SectorData) {
    exists i :: 0 <= i < |rs| && Value(rs[i], s) == Some(d)
  }

  /** Two batches write the same data to the same sectors. */
  ghost predicate SameWrites(rs: seq<BlockRequest>, rs': seq<BlockRequest>) {
    forall s: nat, d: SectorData :: WritesAny(rs, s, d) <==> WritesAny(rs', s, d)
  }

  predicate Apart(a: BlockRequest, b: BlockRequest) {
    End(a) <= b.sector || End(b) <= a.sector
  }

  ghost predicate Disjoint(rs: seq<BlockRequest>) {
    forall i, j | 0 <= i < j < |rs| :: Apart(rs[i], rs[j])
  }

  predicate NonEmpty(rs: seq<BlockRequest>) {
    forall i | 0 <= i < |rs| :: rs[i].nbSectors > 0
  }

  ghost predicate Sorted(rs: seq<BlockRequest>) {
    forall i, j | 0 <= i < j < |rs| :: rs[i].sector <= rs[j].sector
  }

  /** Each request ends before the next one begins. */
  ghost predicate InOrder(rs: seq<BlockRequest>) {
    forall i, j | 0 <= i < j < |rs| :: End(rs[i]) <= rs[j].sector
  }

  /** There is a gap between any two requests. */
  ghost predicate Gaps(rs: seq<BlockRequest>) {
    forall i, j | 0 <= i < j < |rs| :: End(rs[i]) < rs[j].sector
  }

  lemma SortedDisjointInOrder(rs: seq<BlockRequest>)
    requires Sorted(rs) && Disjoint(rs) && NonEmpty(rs)
    ensures InOrder(rs)
  {
    forall i, j | 0 <= i < j < |rs|
      ensures End(rs[i]) <= rs[j].sector
    {
      assert Apart(rs[i], rs[j]) && rs[i].sector <= rs[j].sector && rs[j].nbSectors > 0;
    }
  }

  /** Where requests do not overlap, their order does not matter. */
  lemma {:induction false} InOrderWrites(rs: seq<BlockRequest>, s: nat, d: SectorData)
    requires InOrder(rs)
    ensures WritesAny(rs, s, d) <==> Written(rs, s) == Some(d)
  {
    if rs != [] {
      var n := |rs| - 1;
      InOrderWrites(rs[..n], s, d);
      assert WritesAny(rs, s, d) <==> WritesAny(rs[..n], s, d) || Value(rs[n], s) == Some(d) by {
        assert forall i | 0 <= i < n :: rs[..n][i] == rs[i];
      }
      forall i | 0 <= i < n
        ensures Value(rs[n], s).None? || Value(rs[..n][i], s).None?
      {
        assert End(rs[i]) <= rs[n].sector;
      }
    }
  }

  // ---------------------------------------------------------------------
  // Sorting
  // ---------------------------------------------------------------------

  function Insert(x: BlockRequest, rs: seq<BlockRequest>): seq<BlockRequest> {
    if rs == [] || x.sector <= rs[0].sector then [x] + rs else [rs[0]] + Insert(x, rs[1..])
  }

  /** The requests by start sector. */
  function Sort(rs: seq<BlockRequest>): seq<BlockRequest> {
    if rs == [] then [] else Insert(rs[0], Sort(rs[1..]))
  }

  lemma {:induction false} InsertMeaning(x: BlockRequest, rs: seq<BlockRequest>)
    ensures |Insert(x, rs)| == |rs| + 1 && multiset(Insert(x, rs)) == multiset(rs) + multiset{x}
    ensures forall r :: r in Insert(x, rs) <==> r == x || r in rs
  {
    if rs != [] && x.sector > rs[0].sector {
      InsertMeaning(x, rs[1..]);
      assert rs == [rs[0]] + rs[1..];
    }
  }

  lemma {:induction false} InsertSorted(x: BlockRequest, rs: seq<BlockRequest>)
    requires Sorted(rs)
    ensures Sorted(Insert(x, rs))
  {
    if rs != [] && x.sector > rs[0].sector {
      var out := Insert(x, rs[1..]);
      InsertSorted(x, rs[1..]);
      InsertMeaning(x, rs[1..]);
      forall r | r in out
        ensures rs[0].sector <= r.sector
      {
        assert r == x || r in rs[1..];
      }
    }
  }

  lemma {:induction false} InsertDisjoint(x: BlockRequest, rs: seq<BlockRequest>)
    requires Disjoint(rs) && forall r | r in rs :: Apart(x, r)
    ensures Disjoint(Insert(x, rs))
  {
    if rs != [] && x.sector > rs[0].sector {
      InsertDisjoint(x, rs[1..]);
      InsertMeaning(x, rs[1..]);
      var out := Insert(x, rs[1..]);
      assert rs[0] in rs && Apart(x, rs[0]);
      forall r | r in out
        ensures Apart(rs[0], r)
      {
        if r != x {
          var k :| 0 <= k < |rs[1..]| && rs[1..][k] == r;
          assert Apart(rs[0], rs[k + 1]);
        }
      }
    }
  }

  lemma {:induction false} SortMeaning(rs: seq<BlockRequest>)
    ensures |Sort(rs)| == |rs| && multiset(Sort(rs)) == multiset(rs) && Sorted(Sort(rs))
    ensures forall r :: r in Sort(rs) <==> r in rs
  {
    if rs != [] {
      SortMeaning(rs[1..]);
      InsertMeaning(rs[0], Sort(rs[1..]));
      InsertSorted(rs[0], Sort(rs[1..]));
      assert rs == [rs[0]] + rs[1..];
    }
  }

  lemma {:induction false} SortDisjoint(rs: seq<BlockRequest>)
    requires Disjoint(rs)
    ensures Disjoint(Sort(rs))
  {
    if rs != [] {
      SortDisjoint(rs[1..]);
      SortMeaning(rs[1..]);
      InsertDisjoint(rs[0], Sort(rs[1..]));
    }
  }

  // ---------------------------------------------------------------------
  // Merging two requests
  // ---------------------------------------------------------------------

  /** One request after the other. */
  function ValueOfBoth(a: BlockRequest, b: BlockRequest, s: nat): Option<SectorData> {
    if Value(b, s).Some? then Value(b, s) else Value(a, s)
  }

  /** The request with the pieces of the first one up to the start of the second, and
      then those of the second. */
  function Merged(a: BlockRequest, b: BlockRequest): BlockRequest {
    var n := if a.sector <= b.sector then b.sector - a.sector else 0;
    var iov := Slice(a.qiov.iov, 0, SECTOR * n) + Slice(b.qiov.iov, 0, b.qiov.size);
    BlockRequest(a.sector, |Joined(iov)| / SECTOR, QEMUIOVector(iov, |Joined(iov)|))
  }

  /** The bytes of the merged vector: as many of the first request as it has sectors
      before the second, and all of the second.  The length in sectors follows, and
      the vector needs no more pieces than the two had. */
  lemma MergedBytes(a: BlockRequest, b: BlockRequest)
    requires a.sector <= b.sector <= End(a) && Sized(a) && Sized(b)
    ensures Bytes(Merged(a, b)) == Bytes(a)[..SECTOR * (b.sector - a.sector)] + Bytes(b)
    ensures Sized(Merged(a, b)) && End(Merged(a, b)) == End(b)
    ensures Niov(Merged(a, b)) <= Niov(a) + Niov(b)
  {
    var n := b.sector - a.sector;
    JoinedSlices(a.qiov.iov, b.qiov.iov, SECTOR * n, b.qiov.size);
    assert SECTOR * n + SECTOR * b.nbSectors == SECTOR * (n + b.nbSectors);
  }

  /** What the merged request writes, sector by sector. */
  lemma MergedValue(a: BlockRequest, b: BlockRequest, s: nat)
    requires a.sector <= b.sector <= End(a) && Sized(a) && Sized(b)
    ensures Value(Merged(a, b), s) ==
            if b.sector <= s then Value(b, s) else Value(a, s)
  {
    var m, n := Merged(a, b), b.sector - a.sector;
    MergedBytes(a, b);
    if a.sector <= s < End(b) {
      SectorOfJoin(Bytes(a), Bytes(b), n, s - a.sector);
    }
  }

  /** Merging two requests writes what the two would write, one after the other,
      exactly when the second does not end inside the first. */
  lemma MergedIsBoth(a: BlockRequest, b: BlockRequest)
    requires a.sector <= b.sector <= End(a) && Sized(a) && Sized(b)
    ensures (forall s: nat :: Value(Merged(a, b), s) == ValueOfBoth(a, b, s)) <==> End(a) <= End(b)
  {
    forall s: nat
      ensures Value(Merged(a, b), s) == ValueOfBoth(a, b, s) || End(b) <= s < End(a)
    {
      MergedValue(a, b, s);
    }
    MergedValue(a, b, End(b));
  }

  /** An empty request wipes out a request that begins at the same sector, if it
      comes second, although the two do not overlap. */
  lemma EmptyRequestWipesOut(x: SectorData)
    requires |x| == SECTOR
    ensures var a, b := BlockRequest(0, 1, QEMUIOVector([x], SECTOR)), BlockRequest(0, 0, QEMUIOVector([], 0));
            && Sized(a) && Sized(b) && Apart(a, b) && Sorted([a, b])
            && Written([a, b], 0) == Some(x) && Value(Merged(a, b), 0) == None
  {
    var a, b := BlockRequest(0, 1, QEMUIOVector([x], SECTOR)), BlockRequest(0, 0, QEMUIOVector([], 0));
    assert [a, b][..1] == [a];
    OneSector(x);
    MergedValue(a, b, 0);
  }

  // ---------------------------------------------------------------------
  // What merging makes of sorted requests
  // ---------------------------------------------------------------------

  /** What the requests before number `i` that were merged together have become. */
  function Group(sorted: seq<BlockRequest>, i: nat): BlockRequest
    requires 0 < i <= |sorted|
    decreases i, 0
  {
    if i > 1 && Joins(sorted, i - 1) then Merged(Group(sorted, i - 1), sorted[i - 1]) else sorted[i - 1]
  }

  /** Request `i` touches or overlaps what comes before it, and the pieces are not too
      many. */
  predicate Joins(sorted: seq<BlockRequest>, i: nat)
    requires 0 < i < |sorted|
    decreases i, 1
  {
    && sorted[i].sector <= End(Group(sorted, i))
    && Niov(Group(sorted, i)) + Niov(sorted[i]) + 1 <= IOV_MAX
  }

  /** The first request that became a part of `Group(sorted, i)`. */
  function Start(sorted: seq<BlockRequest>, i: nat): (r: nat)
    requires 0 < i <= |sorted|
    ensures r < i
  {
    if i > 1 && Joins(sorted, i - 1) then Start(sorted, i - 1) else i - 1
  }

  /** Request `j` ends inside the request before it, which it is merged to, and the
      sector is one of those that are left over. */
  predicate LosesAt(sorted: seq<BlockRequest>, j: nat, s: nat) {
    0 < j < |sorted| && Joins(sorted, j) && End(sorted[j]) <= s < End(sorted[j - 1])
  }

  /** What is left in a sector by the first `i` requests: what the last one that covers
      it writes.  A sector that is left over falls back to what was in it before the
      requests that were merged. */
  function Left(sorted: seq<BlockRequest>, i: nat, s: nat): Option<SectorData>
    requires i <= |sorted|
    decreases i
  {
    if i == 0 then None
    else if Value(sorted[i - 1], s).Some? then Value(sorted[i - 1], s)
    else if LosesAt(sorted, i - 1, s) then Left(sorted, Start(sorted, i - 1), s)
    else Left(sorted, i - 1, s)
  }

  /** The group ends where its last request ends. */
  lemma {:induction false} GroupMeaning(sorted: seq<BlockRequest>, i: nat)
    requires 0 < i <= |sorted| && Sorted(sorted) && AllSized(sorted)
    ensures Sized(Group(sorted, i)) && End(Group(sorted, i)) == End(sorted[i - 1])
    ensures Group(sorted, i).sector == sorted[Start(sorted, i)].sector <= sorted[i - 1].sector
    ensures Niov(Group(sorted, i)) <= AllPieces(sorted[..i])
    decreases i
  {
    PiecesUpTo(sorted, i - 1);
    if i > 1 {
      GroupMeaning(sorted, i - 1);
      assert sorted[i - 2].sector <= sorted[i - 1].sector;
      if Joins(sorted, i - 1) {
        MergedBytes(Group(sorted, i - 1), sorted[i - 1]);
      }
    }
  }

  /** With few enough pieces, merging depends on the sectors alone. */
  lemma JoinsTouching(sorted: seq<BlockRequest>, i: nat)
    requires 0 < i < |sorted| && Sorted(sorted) && AllSized(sorted) && AllPieces(sorted) < IOV_MAX
    ensures Joins(sorted, i) <==> sorted[i].sector <= End(sorted[i - 1])
  {
    GroupMeaning(sorted, i);
    PiecesUpTo(sorted, i);
  }

  // ---------------------------------------------------------------------
  // Lost sectors
  // ---------------------------------------------------------------------

  /** A sector that request `j` leaves over and that no later request writes. */
  ghost predicate LostAt(sorted: seq<BlockRequest>, j: nat, n: nat, s: nat)
    requires n <= |sorted|
  {
    j < n && LosesAt(sorted, j, s) && forall k | j < k < n :: Value(sorted[k], s).None?
  }

  ghost predicate Lost(sorted: seq<BlockRequest>, n: nat, s: nat)
    requires n <= |sorted|
  {
    exists j: nat :: LostAt(sorted, j, n, s)
  }

  lemma LostNext(sorted: seq<BlockRequest>, i: nat, s: nat)
    requires i < |sorted|
    ensures Lost(sorted, i + 1, s) <==> Value(sorted[i], s).None? && (LosesAt(sorted, i, s) || Lost(sorted, i, s))
  {
    if Value(sorted[i], s).None? {
      if Lost(sorted, i, s) {
        var j: nat :| LostAt(sorted, j, i, s);
        assert LostAt(sorted, j, i + 1, s);
      } else if LosesAt(sorted, i, s) {
        assert LostAt(sorted, i, i + 1, s);
      }
    }
    if Lost(sorted, i + 1, s) {
      var j: nat :| LostAt(sorted, j, i + 1, s);
      assert j < i ==> LostAt(sorted, j, i, s);
    }
  }

  /** A sector that is not lost holds what the requests leave in it, one after the other. */
  lemma {:induction false} LeftIsWritten(sorted: seq<BlockRequest>, i: nat, s: nat)
    requires i <= |sorted| && !Lost(sorted, i, s)
    ensures Left(sorted, i, s) == Written(sorted[..i], s)
    decreases i
  {
    if i > 0 {
      LostNext(sorted, i - 1, s);
      assert sorted[..i][..i - 1] == sorted[..i - 1];
      if Value(sorted[i - 1], s).None? {
        LeftIsWritten(sorted, i - 1, s);
      }
    }
  }

  /** A lost sector holds what it held before the requests that were merged, although a
      request wrote it later. */
  lemma {:induction false} LeftWhereLost(sorted: seq<BlockRequest>, j: nat, n: nat, s: nat)
    requires n <= |sorted| && Sorted(sorted) && AllSized(sorted) && LostAt(sorted, j, n, s)
    ensures Left(sorted, n, s) == Left(sorted, Start(sorted, j), s)
    ensures Written(sorted[..n], s) == Value(sorted[j - 1], s) && Value(sorted[j - 1], s).Some?
    decreases n
  {
    assert sorted[..n][..n - 1] == sorted[..n - 1];
    if j + 1 < n {
      assert LostAt(sorted, j, n - 1, s);
      LeftWhereLost(sorted, j, n - 1, s);
      LosesOnce(sorted, j, n - 1, s);
    } else {
      assert sorted[..j][..j - 1] == sorted[..j - 1] && sorted[j - 1].sector <= sorted[j].sector;
    }
  }

  /** A sector that was left over is not left over once more. */
  lemma LosesOnce(sorted: seq<BlockRequest>, j: nat, k: nat, s: nat)
    requires Sorted(sorted) && AllSized(sorted) && j < k < |sorted| && LostAt(sorted, j, k, s)
    ensures !LosesAt(sorted, k, s)
  {
    assert sorted[k - 1].sector <= sorted[k].sector;
    assert Value(sorted[k - 1], s).None?;
  }

  /** Without overlap nothing is lost. */
  lemma InOrderLosesNothing(sorted: seq<BlockRequest>, s: nat)
    requires InOrder(sorted) && NonEmpty(sorted)
    ensures !Lost(sorted, |sorted|, s)
  {
  }

  // ---------------------------------------------------------------------
  // Merging a batch
  // ---------------------------------------------------------------------

  lemma WrittenAppend(rs: seq<BlockRequest>, r: BlockRequest, s: nat)
    ensures Written(rs + [r], s) == if Value(r, s).Some? then Value(r, s) else Written(rs, s)
  {
    assert (rs + [r])[..|rs|] == rs;
  }

  /** What the requests so far and what they were merged to leave in a sector, and what
      was in it before the last group. */
  ghost predicate Agree(outs: seq<BlockRequest>, sorted: seq<BlockRequest>, i: nat, s: nat)
    requires outs != [] && 0 < i <= |sorted|
  {
    && Written(outs, s) == Left(sorted, i, s)
    && Written(outs[..|outs| - 1], s) == Left(sorted, Start(sorted, i), s)
  }

  /** The shape of what the first `i` requests were merged to. */
  ghost predicate Shape(outs: seq<BlockRequest>, sorted: seq<BlockRequest>, i: nat) {
    && outs != [] && 0 < i <= |sorted| && Sorted(sorted) && AllSized(sorted) && AllSized(outs)
    && outs[|outs| - 1] == Group(sorted, i)
    && (forall k | 0 <= k < |outs| :: outs[k].sector <= outs[|outs| - 1].sector)
    && (AllPieces(sorted) < IOV_MAX ==> Gaps(outs)) && (InOrder(sorted) ==> InOrder(outs))
  }

  /** Each request was given as it is, or its vector is within the limit on pieces. */
  ghost predicate AllGiven(outs: seq<BlockRequest>, sorted: seq<BlockRequest>) {
    GivenVerdict(outs, sorted) == Holds
  }

  ghost function GivenVerdict(outs: seq<BlockRequest>, sorted: seq<BlockRequest>): Verdict {
    if forall k | 0 <= k < |outs| :: outs[k] in sorted || Niov(outs[k]) < IOV_MAX then Holds else Broken
  }

  lemma GivenGoesOn(outs: seq<BlockRequest>, sorted: seq<BlockRequest>, i: nat)
    requires AllGiven(outs, sorted) && Shape(outs, sorted, i) && i < |sorted|
    ensures AllGiven(Extended(outs, sorted, i), sorted)
  {
    if Joins(sorted, i) {
      GroupMeaning(sorted, i);
      assert sorted[i - 1].sector <= sorted[i].sector;
      MergedBytes(Group(sorted, i), sorted[i]);
    }
  }

  /** The next request is merged to the last of the finished ones, or put after it. */
  function Extended(outs: seq<BlockRequest>, sorted: seq<BlockRequest>, i: nat): seq<BlockRequest>
    requires outs != [] && 0 < i < |sorted|
  {
    if Joins(sorted, i) then outs[|outs| - 1 := Group(sorted, i + 1)] else outs + [Group(sorted, i + 1)]
  }

  lemma GrownShape(outs: seq<BlockRequest>, sorted: seq<BlockRequest>, i: nat)
    requires Shape(outs, sorted, i) && i < |sorted| && Joins(sorted, i)
    ensures Shape(Extended(outs, sorted, i), sorted, i + 1)
  {
    GroupMeaning(sorted, i);
    GroupMeaning(sorted, i + 1);
  }

  lemma AppendedShape(outs: seq<BlockRequest>, sorted: seq<BlockRequest>, i: nat)
    requires Shape(outs, sorted, i) && i < |sorted| && !Joins(sorted, i)
    ensures Shape(Extended(outs, sorted, i), sorted, i + 1)
  {
    GroupMeaning(sorted, i);
    assert sorted[i - 1].sector <= sorted[i].sector;
    if AllPieces(sorted) < IOV_MAX {
      JoinsTouching(sorted, i);
    }
    forall k | 0 <= k < |outs|
      ensures AllPieces(sorted) < IOV_MAX ==> End(outs[k]) < sorted[i].sector
      ensures InOrder(sorted) ==> End(outs[k]) <= sorted[i].sector
    {
      assert Gaps(outs) && k < |outs| - 1 ==> End(outs[k]) < outs[|outs| - 1].sector;
      assert InOrder(outs) && k < |outs| - 1 ==> End(outs[k]) <= outs[|outs| - 1].sector;
      assert InOrder(sorted) ==> End(sorted[i - 1]) <= sorted[i].sector;
    }
  }

  lemma GrownAgrees(outs: seq<BlockRequest>, sorted: seq<BlockRequest>, i: nat, s: nat)
    requires Shape(outs, sorted, i) && i < |sorted| && Joins(sorted, i) && Agree(outs, sorted, i, s)
    ensures Agree(Extended(outs, sorted, i), sorted, i + 1, s)
  {
    var outs' := Extended(outs, sorted, i);
    GroupMeaning(sorted, i);
    assert sorted[i - 1].sector <= sorted[i].sector;
    MergedValue(Group(sorted, i), sorted[i], s);
    assert outs'[..|outs| - 1] == outs[..|outs| - 1];
  }

  lemma AppendedAgrees(outs: seq<BlockRequest>, sorted: seq<BlockRequest>, i: nat, s: nat)
    requires Shape(outs, sorted, i) && i < |sorted| && !Joins(sorted, i) && Agree(outs, sorted, i, s)
    ensures Agree(Extended(outs, sorted, i), sorted, i + 1, s)
  {
    WrittenAppend(outs, sorted[i], s);
    assert Extended(outs, sorted, i)[..|outs|] == outs;
  }

  /** The first `i` requests have become `outs`. */
  ghost predicate Merging(outs: seq<BlockRequest>, sorted: seq<BlockRequest>, i: nat) {
    Shape(outs, sorted, i) && AllGiven(outs, sorted) && forall s: nat :: Agree(outs, sorted, i, s)
  }

  lemma MergingGoesOn(outs: seq<BlockRequest>, sorted: seq<BlockRequest>, i: nat)
    requires Merging(outs, sorted, i) && i < |sorted|
    ensures Merging(Extended(outs, sorted, i), sorted, i + 1)
  {
    GivenGoesOn(outs, sorted, i);
    var outs', i' := Extended(outs, sorted, i), i + 1;
    if Joins(sorted, i) {
      GrownShape(outs, sorted, i);
    } else {
      AppendedShape(outs, sorted, i);
    }
    forall s: nat
      ensures Agree(outs', sorted, i', s)
    {
      if Joins(sorted, i) {
        GrownAgrees(outs, sorted, i, s);
      } else {
        AppendedAgrees(outs, sorted, i, s);
      }
    }
  }

  lemma MergingStarts(sorted: seq<BlockRequest>)
    requires sorted != [] && Sorted(sorted) && AllSized(sorted)
    ensures Merging(sorted[..1], sorted, 1)
  {
    var one := sorted[..1];
    assert one[..0] == [];
    forall s: nat
      ensures Agree(one, sorted, 1, s)
    {
      assert Left(sorted, 0, s) == None;
    }
  }

  lemma SortedBatch(batch: seq<BlockRequest>, sorted: seq<BlockRequest>)
    requires batch != [] && AllSized(batch) && sorted == Sort(batch)
    ensures |sorted| == |batch| && multiset(sorted) == multiset(batch) && Sorted(sorted)
    ensures Merging(sorted[..1], sorted, 1) && SameWrites(sorted, batch)
    ensures Disjoint(batch) && NonEmpty(batch) ==> InOrder(sorted) && NonEmpty(sorted)
  {
    SortMeaning(batch);
    forall i | 0 <= i < |sorted|
      ensures Sized(sorted[i]) && (NonEmpty(batch) ==> sorted[i].nbSectors > 0)
    {
      assert sorted[i] in batch;
    }
    MergingStarts(sorted);
    SameMembers(sorted, batch);
    if Disjoint(batch) && NonEmpty(batch) {
      SortDisjoint(batch);
      SortedDisjointInOrder(sorted);
    }
  }

  lemma SameMembers(rs: seq<BlockRequest>, rs': seq<BlockRequest>)
    requires forall r :: r in rs <==> r in rs'
    ensures SameWrites(rs, rs')
  {
    forall s: nat, d: SectorData
      ensures WritesAny(rs, s, d) <==> WritesAny(rs', s, d)
    {
      if WritesAny(rs, s, d) {
        var i :| 0 <= i < |rs| && Value(rs[i], s) == Some(d);
        assert rs[i] in rs';
      }
      if WritesAny(rs', s, d) {
        var i :| 0 <= i < |rs'| && Value(rs'[i], s) == Some(d);
        assert rs'[i] in rs;
      }
    }
  }

  /** The requests that are left do what the sorted requests do, except in lost sectors:
      those fall back to what was in them before the requests that were merged. */
  ghost predicate Faithful(outs: seq<BlockRequest>, sorted: seq<BlockRequest>) {
    && (forall s: nat :: !Lost(sorted, |sorted|, s) ==> Written(outs, s) == Written(sorted, s))
    && (forall j: nat, s: nat :: LostAt(sorted, j, |sorted|, s) ==>
          && Written(sorted, s) == Value(sorted[j - 1], s)
          && Written(outs, s) == Left(sorted, Start(sorted, j), s))
  }

  /** They go wrong in every lost sector, and no two of them touch. */
  ghost predicate Exact(outs: seq<BlockRequest>, sorted: seq<BlockRequest>) {
    && Gaps(outs)
    && forall s: nat :: Lost(sorted, |sorted|, s) ==> Written(outs, s).None? && Written(sorted, s).Some?
  }

  lemma MergingDone(outs: seq<BlockRequest>, sorted: seq<BlockRequest>)
    requires Merging(outs, sorted, |sorted|)
    ensures Faithful(outs, sorted) && (InOrder(sorted) ==> InOrder(outs))
  {
    var n := |sorted|;
    assert sorted[..n] == sorted;
    forall s: nat | !Lost(sorted, n, s)
      ensures Written(outs, s) == Written(sorted, s)
    {
      LeftIsWritten(sorted, n, s);
      assert Agree(outs, sorted, n, s);
    }
    forall j: nat, s: nat | LostAt(sorted, j, n, s)
      ensures Written(sorted, s) == Value(sorted[j - 1], s) && Written(outs, s) == Left(sorted, Start(sorted, j), s)
    {
      LeftWhereLost(sorted, j, n, s);
      assert Agree(outs, sorted, n, s);
    }
  }

  lemma {:induction false} StartDoesNotJoin(sorted: seq<BlockRequest>, i: nat)
    requires 0 < i <= |sorted|
    ensures Start(sorted, i) > 0 ==> !Joins(sorted, Start(sorted, i))
    decreases i
  {
    if i > 1 && Joins(sorted, i - 1) {
      StartDoesNotJoin(sorted, i - 1);
    }
  }

  /** With few enough pieces nothing is left beyond the end of the last request. */
  lemma {:induction false} NothingBeyond(sorted: seq<BlockRequest>, i: nat, s: nat)
    requires i <= |sorted| && Sorted(sorted) && AllSized(sorted) && AllPieces(sorted) < IOV_MAX
    requires i > 0 ==> End(sorted[i - 1]) <= s
    ensures Left(sorted, i, s) == None
    decreases i
  {
    if i > 1 {
      JoinsTouching(sorted, i - 1);
      if LosesAt(sorted, i - 1, s) {
        NothingBefore(sorted, i - 1, s);
      } else {
        NothingBeyond(sorted, i - 1, s);
      }
    }
  }

  /** Nor where a request that is merged begins or after it, before its group. */
  lemma NothingBefore(sorted: seq<BlockRequest>, j: nat, s: nat)
    requires 0 < j < |sorted| && Sorted(sorted) && AllSized(sorted) && AllPieces(sorted) < IOV_MAX
             && sorted[j].sector <= s
    ensures Left(sorted, Start(sorted, j), s) == None
    decreases j, 0
  {
    var b := Start(sorted, j);
    StartDoesNotJoin(sorted, j);
    assert sorted[b].sector <= sorted[j].sector;
    if b > 0 {
      JoinsTouching(sorted, b);
    }
    NothingBeyond(sorted, b, s);
  }

  lemma FewPiecesExact(outs: seq<BlockRequest>, sorted: seq<BlockRequest>)
    requires Merging(outs, sorted, |sorted|) && Faithful(outs, sorted) && AllPieces(sorted) < IOV_MAX
    ensures Exact(outs, sorted)
  {
    var n := |sorted|;
    assert sorted[..n] == sorted;
    forall s: nat | Lost(sorted, n, s)
      ensures Written(outs, s).None? && Written(sorted, s).Some?
    {
      var j: nat :| LostAt(sorted, j, n, s);
      LeftWhereLost(sorted, j, n, s);
      NothingBefore(sorted, j, s);
    }
  }

  /** For a batch without overlap all is well. */
  lemma FaithfulSameWrites(outs: seq<BlockRequest>, sorted: seq<BlockRequest>, batch: seq<BlockRequest>)
    requires InOrder(sorted) && NonEmpty(sorted) && InOrder(outs) && Faithful(outs, sorted) && SameWrites(sorted, batch)
    ensures SameWrites(outs, batch)
  {
    forall s: nat, d: SectorData
      ensures WritesAny(outs, s, d) <==> WritesAny(batch, s, d)
    {
      InOrderLosesNothing(sorted, s);
      InOrderWrites(outs, s, d);
      InOrderWrites(sorted, s, d);
      assert WritesAny(sorted, s, d) <==> WritesAny(batch, s, d);
    }
  }

  /** Sorts the batch in place. */
  method SortInPlace(reqs: array<BlockRequest>)
    modifies reqs
    ensures reqs[..] == Sort(old(reqs[..]))
  {
    var sorted := Sort(reqs[..]);
    SortMeaning(reqs[..]);
    forall i | 0 <= i < reqs.Length {
      reqs[i] := sorted[i];
    }
  }

  lemma MergedVector(a: BlockRequest, b: BlockRequest, q: QEMUIOVector, size: nat)
    requires a.sector <= b.sector && size == (b.sector - a.sector) * SECTOR && Counted(q)
    requires q.iov == [] + Slice(a.qiov.iov, 0, size) + Slice(b.qiov.iov, 0, b.qiov.size)
    ensures BlockRequest(a.sector, q.size / SECTOR, q) == Merged(a, b)
  {
    assert [] + Slice(a.qiov.iov, 0, size) == Slice(a.qiov.iov, 0, size);
  }

  /** The merged request, with its vector put together from the two vectors. */
  method MergeTwo(last: BlockRequest, r: BlockRequest) returns (m: BlockRequest)
    requires last.sector <= r.sector <= End(last) && Sized(last) && Sized(r)
    ensures m == Merged(last, r)
  {
    var size := (r.sector - last.sector) * SECTOR;
    var qiov := Concat(QEMUIOVector([], 0), last.qiov, 0, size);
    qiov := Concat(qiov, r.qiov, 0, r.qiov.size);
    MergedVector(last, r, qiov, size);
    m := BlockRequest(last.sector, qiov.size / SECTOR, qiov);
  }

  /** One round of the loop in `multiwrite_merge`: request `i` is merged into request
      `outidx`, or moved next to it. */
  method MergeNext(reqs: array<BlockRequest>, ghost sorted: seq<BlockRequest>, outidx: nat, i: nat)
      returns (outidx': nat)
    requires outidx < i < reqs.Length == |sorted| && reqs[i] == sorted[i] && Merging(reqs[..outidx + 1], sorted, i)
    modifies reqs
    ensures outidx' <= i && Merging(reqs[..outidx' + 1], sorted, i + 1)
    ensures forall k | i < k < reqs.Length :: reqs[k] == old(reqs[k])
  {
    ghost var outs := reqs[..outidx + 1];
    outidx' := outidx;
    var last, r := reqs[outidx], reqs[i];
    assert outs[|outs| - 1] == last;
    MergingGoesOn(outs, sorted, i);
    GroupMeaning(sorted, i);
    var merge := r.sector <= End(last);
    if Niov(last) + Niov(r) + 1 > IOV_MAX {
      merge := false;
    }
    if merge {
      assert sorted[i - 1].sector <= sorted[i].sector;
      reqs[outidx] := MergeTwo(last, r);
      assert reqs[..outidx + 1] == Extended(outs, sorted, i);
    } else {
      outidx' := outidx + 1;
      reqs[outidx'] := r;
      assert reqs[..outidx' + 1] == Extended(outs, sorted, i);
    }
  }

  /** The loop in `multiwrite_merge`. */
  method MergeSorted(reqs: array<BlockRequest>, ghost sorted: seq<BlockRequest>) returns (n: nat)
    requires reqs[..] == sorted && sorted != [] && Merging(sorted[..1], sorted, 1)
    modifies reqs
    ensures 0 < n <= reqs.Length && Merging(reqs[..n], sorted, |sorted|)
  {
    var outidx: nat := 0;
    for i := 1 to reqs.Length
      invariant outidx < i && Merging(reqs[..outidx + 1], sorted, i)
      invariant forall k | i <= k < reqs.Length :: reqs[k] == sorted[k]
    {
      outidx := MergeNext(reqs, sorted, outidx, i);
    }
    n := outidx + 1;
  }

  /** `multiwrite_merge`, for any batch: returns how many requests are left.  They leave
      in every sector what the sorted requests leave in it, unless the sector is lost;
      then they leave in it what it held before the requests that were merged.  With few
      enough pieces that is nothing, so that exactly the lost sectors come out wrong, and
      no two requests that are left touch.  No vector is put together with too many
      pieces. */
  method MultiwriteMerge(reqs: array<BlockRequest>) returns (n: nat, ghost sorted: seq<BlockRequest>)
    requires reqs.Length > 0 && AllSized(reqs[..])
    modifies reqs
    ensures multiset(sorted) == multiset(old(reqs[..])) && Sorted(sorted)
    ensures 0 < n <= reqs.Length && AllSized(reqs[..n])
    ensures Faithful(reqs[..n], sorted)
    ensures AllPieces(sorted) < IOV_MAX ==> Exact(reqs[..n], sorted)
    ensures AllGiven(reqs[..n], sorted)
    ensures Disjoint(old(reqs[..])) && NonEmpty(old(reqs[..])) ==>
              SameWrites(reqs[..n], old(reqs[..])) && InOrder(reqs[..n])
  {
    ghost var batch := reqs[..];
    SortInPlace(reqs);
    sorted := reqs[..];
    SortedBatch(batch, sorted);
    n := MergeSorted(reqs, sorted);
    ghost var outs := reqs[..n];
    MergingDone(outs, sorted);
    if AllPieces(sorted) < IOV_MAX {
      FewPiecesExact(outs, sorted);
    }
    if Disjoint(batch) && NonEmpty(batch) {
      FaithfulSameWrites(outs, sorted, batch);
    }
  }

  // ---------------------------------------------------------------------
  // Completion
  // ---------------------------------------------------------------------

  /** The first failure among the results, 0 if there is none. */
  function FirstError(rets: seq<int>): int {
    if rets == [] then 0
    else if FirstError(rets[..|rets| - 1]) != 0 then FirstError(rets[..|rets| - 1])
    else if rets[|rets| - 1] < 0 then rets[|rets| - 1]
    else 0
  }

  lemma {:induction false} FirstErrorMeaning(rets: seq<int>)
    ensures FirstError(rets) == 0 <==> forall i | 0 <= i < |rets| :: rets[i] >= 0
    ensures FirstError(rets) != 0 ==>
              exists i :: 0 <= i < |rets| && rets[i] == FirstError(rets) < 0 && forall j | 0 <= j < i :: rets[j] >= 0
  {
    if rets != [] {
      var n := |rets| - 1;
      var rest := rets[..n];
      FirstErrorMeaning(rest);
      assert forall i | 0 <= i < n :: rest[i] == rets[i];
    }
  }

  /** A callback that was called: whose it was and what it was told. */
  datatype Call = Call(owner: nat, error: int)

  /** Every callback of a batch, once, in order. */
  function AllCalled(callbacks: seq<nat>, error: int): seq<Call> {
    seq(|callbacks|, i requires 0 <= i < |callbacks| => Call(callbacks[i], error))
  }

  class MultiwriteCB {
    var error: int
    var numRequests: nat
    const callbacks: seq<nat>
    var called: seq<Call>
    ghost const total: nat
    ghost var rets: seq<int>

    ghost predicate Valid()
      reads this
    {
      && numRequests + |rets| == total
      && error == FirstError(rets)
      && called == if numRequests == 0 then AllCalled(callbacks, FirstError(rets)) else []
    }

    /** For a batch with these callbacks, merged into `n` writes. */
    constructor (callbacks: seq<nat>, n: nat)
      requires n > 0
      ensures Valid() && rets == [] && total == n && this.callbacks == callbacks && numRequests == n
    {
      error, numRequests, this.callbacks, called := 0, n, callbacks, [];
      total, rets := n, [];
    }

    /** `multiwrite_user_cb`. */
    method UserCb()
      requires called == [] && error == FirstError(rets)
      modifies this`called
      ensures called == AllCalled(callbacks, FirstError(rets))
    {
      for i := 0 to |callbacks|
        invariant called == AllCalled(callbacks, FirstError(rets))[..i]
      {
        called := called + [Call(callbacks[i], error)];
      }
    }

    /** `multiwrite_cb`: one of the merged writes is complete. */
    method Complete(ret: int)
      requires Valid() && numRequests > 0
      modifies this
      ensures Valid() && rets == old(rets) + [ret] && numRequests == old(numRequests) - 1
    {
      rets := rets + [ret];
      assert rets[..|rets| - 1] == old(rets);
      if ret < 0 && error == 0 {
        error := ret;
      }
      numRequests := numRequests - 1;
      if numRequests == 0 {
        UserCb();
      }
    }
  }

  /** A whole batch, whatever the writes return: no callback is called before the last
      write is complete, and then each one is called once with the first error. */
  method RunBatch(callbacks: seq<nat>, rets: seq<int>) returns (called: seq<Call>)
    requires rets != []
    ensures called == AllCalled(callbacks, FirstError(rets))
  {
    var mcb := new MultiwriteCB(callbacks, |rets|);
    for i := 0 to |rets|
      invariant mcb.Valid() && mcb.rets == rets[..i] && mcb.numRequests == |rets| - i
      invariant i < |rets| ==> mcb.called == []
    {
      mcb.Complete(rets[i]);
      assert rets[..i + 1] == rets[..i] + [rets[i]];
    }
    assert rets[..|rets|] == rets;
    called := mcb.called;
  }

  /** -ENOMEDIUM on Linux. */
  const NO_MEDIUM: int := -123

  /** `bdrv_aio_multiwrite` up to the last completion; `result(k)` is what the write that
      completes as number `k` returns.  Without a medium every request gets the error,
      nothing is submitted and no callback is called.  Otherwise each callback of the
      batch is called once, however many writes the batch was merged to. */
  method AioMultiwrite(reqs: array<BlockRequest>, errors: array<int>, medium: bool, callbacks: seq<nat>,
                       result: nat -> int)
      returns (ret: int, n: nat, called: seq<Call>)
    requires |callbacks| == reqs.Length == errors.Length && AllSized(reqs[..])
    modifies reqs, errors
    ensures ret == if medium then 0 else -1
    ensures forall i | 0 <= i < errors.Length :: errors[i] == if medium then old(errors[i]) else NO_MEDIUM
    ensures !medium || reqs.Length == 0 ==> n == 0 && called == [] && reqs[..] == old(reqs[..])
    ensures medium && reqs.Length > 0 ==>
              0 < n <= reqs.Length && called == AllCalled(callbacks, FirstError(seq(n, result)))
    ensures Disjoint(old(reqs[..])) && NonEmpty(old(reqs[..])) && medium ==> SameWrites(reqs[..n], old(reqs[..]))
  {
    ret, n, called := 0, 0, [];
    if !medium {
      for i := 0 to errors.Length
        invariant forall k | 0 <= k < i :: errors[k] == NO_MEDIUM
        invariant reqs[..] == old(reqs[..])
      {
        errors[i] := NO_MEDIUM;
      }
      return -1, n, called;
    }
    if reqs.Length == 0 {
      assert reqs[..0] == reqs[..];
      return;
    }
    ghost var sorted;
    n, sorted := MultiwriteMerge(reqs);
    called := RunBatch(callbacks, seq(n, result));
  }
}
