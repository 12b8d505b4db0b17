/** Whole runs of tracked block requests: serialisation, freedom from deadlock,
    and the contents of the disk.
  */
module BlockRuns {
  import opened Common
  import opened BlockRequests

  // ---------------------------------------------------------------------
  // The disk
  // ---------------------------------------------------------------------

  /** What a buffer holds of the bytes around a request is what the disk holds. */
  ghost predicate BufferOk(job: Job, buf: map<nat, byte>, disk: nat -> byte)
    requires Sane(job)
  {
    forall pos | pos in buf ::
      Lo(job) <= pos < Hi(job) && (Serialises(job) && !Requested(job, pos) ==> buf[pos] == disk(pos))
  }

  ghost predicate Buffered(r: Request, disk: nat -> byte)
    requires Sane(r.job)
  {
    forall k | 0 <= k < |r.bufs| :: BufferOk(r.job, r.bufs[k], disk)
  }

  /** The operations before the current one have read all their bytes, the ones
      after it none; a waiting request has read nothing. */
  ghost predicate ReadInOrder(r: Request)
    requires Sane(r.job) && |r.bufs| == |Program(r.job)|
  {
    && (forall k, pos: nat | 0 <= k < r.pc && k < |r.bufs| && !Program(r.job)[k].write
        && Program(r.job)[k].lo <= pos < Program(r.job)[k].hi ::
          pos in r.bufs[k])
    && (forall k | 0 <= k < |r.bufs| && (k > r.pc || !Past(r)) :: r.bufs[k] == map[])
  }

  ghost predicate GoodData(s: State, r: Request) {
    && WellFormed(r) && Buffered(r, s.disk) && ReadInOrder(r)
    && (forall pos | pos in r.landed && Requested(r.job, pos) :: s.writer(pos).Some?)
  }

  /** Every byte is the original one, or the one its last writer was given. */
  ghost predicate ByteOk(s: State, pos: nat) {
    match s.writer(pos)
    case None => s.disk(pos) == s.start(pos)
    case Some(id) => id in s.jobs && Requested(s.jobs[id], pos)
                     && s.disk(pos) == s.jobs[id].data[pos - s.jobs[id].offset]
  }

  ghost predicate DataInv(s: State) {
    && (forall i | 0 <= i < |s.live| :: GoodData(s, s.live[i]))
    && (forall pos: nat :: ByteOk(s, pos))
    && (forall id, pos: nat | id in s.ended && id in s.jobs && Requested(s.jobs[id], pos) :: s.writer(pos).Some?)
  }

  ghost predicate Inv(s: State) {
    Tracked(s) && Serialised(s) && DataInv(s)
  }

  /** Around its own bytes, a request that writes has read every byte before. */
  lemma PaddingWasRead(r: Request, pos: nat)
    requires WellFormed(r) && Program(r.job)[r.pc].write && ReadInOrder(r)
    requires Lo(r.job) <= pos < Hi(r.job) && !Requested(r.job, pos)
    ensures r.serialising
    ensures var k := if r.job.Write? && HasHead(r.job) && pos >= End(r.job) then 1 else 0;
            k < |r.bufs| && pos in r.bufs[k]
  {
  }

  /** A landing byte of the padding is the byte the disk already holds. */
  lemma LandExact(s: State, i: nat, pos: nat)
    requires Inv(s) && Enabled(s, Land(i, pos))
    ensures Requested(s.live[i].job, pos) ==> OutByte(s.live[i], pos) == s.live[i].job.data[pos - s.live[i].job.offset]
    ensures !Requested(s.live[i].job, pos) ==> OutByte(s.live[i], pos) == s.disk(pos)
  {
    var r := s.live[i];
    assert GoodData(s, r);
    ProgramInRange(r.job, r.pc);
    if !Requested(r.job, pos) {
      PaddingWasRead(r, pos);
    }
  }

  /** The bytes a buffer of `n` bytes read from `lo` on holds. */
  function BlockBytes(buf: map<nat, byte>, lo: nat, n: nat): seq<byte> {
    seq(n, i requires 0 <= i < n => if lo + i in buf then buf[lo + i] else 0)
  }

  /** The vector that an unaligned write passes to the driver: the start of the
      head buffer, the guest's data and the end of the tail buffer. */
  function PaddedVector(r: Request): seq<byte>
    requires WellFormed(r) && r.job.Write?
  {
    var align := r.job.align;
    var h, t := r.job.offset % align, End(r.job) % align;
    (if HasHead(r.job) then BlockBytes(r.bufs[0], Down(r.job.offset, align), align)[..h] else []) +
    r.job.data +
    (if HasTail(r.job) then BlockBytes(r.bufs[if HasHead(r.job) then 1 else 0], Down(End(r.job), align), align)[t..]
     else [])
  }

  /** The padded vector fills the overlap range exactly, byte by byte. */
  lemma PaddedVectorFits(r: Request)
    requires WellFormed(r) && r.job.Write?
    ensures |PaddedVector(r)| == Hi(r.job) - Lo(r.job)
    ensures forall pos: nat | Lo(r.job) <= pos < Hi(r.job) :: PaddedVector(r)[pos - Lo(r.job)] == OutByte(r, pos)
  {
    forall pos: nat | Lo(r.job) <= pos < Hi(r.job)
      ensures PaddedVector(r)[pos - Lo(r.job)] == OutByte(r, pos)
    {
      if pos < r.job.offset {
        assert HasHead(r.job);
      } else if pos >= End(r.job) {
        assert HasTail(r.job);
      }
    }
  }

  // ---------------------------------------------------------------------
  // Every step keeps the disk right
  // ---------------------------------------------------------------------

  /** A request keeps its data when only its waiting state changes before it has
      read anything. */
  lemma UnreadGood(s: State, r: Request)
    requires WellFormed(r) && r.pc == 0 && r.landed == {}
    requires forall k | 0 <= k < |r.bufs| :: r.bufs[k] == map[]
    ensures GoodData(s, r)
  {
  }

  lemma GoodFrame(s: State, s': State, r: Request)
    requires GoodData(s, r)
    requires s'.disk == s.disk && s'.writer == s.writer
    ensures GoodData(s', r)
  {
  }

  /** Looking for blockers changes at most the waiting state of one request. */
  lemma WaitedData(s: State, i: nat)
    requires i < |s.live| && s.live[i].pc == 0 && s.live[i].landed == {}
    requires forall k | 0 <= k < |s.live[i].bufs| :: s.live[i].bufs[k] == map[]
    requires DataInv(s)
    ensures DataInv(Waited(s, i))
  {
    var s' := Waited(s, i);
    assert forall pos: nat :: ByteOk(s, pos) ==> ByteOk(s', pos);
    forall j | 0 <= j < |s'.live|
      ensures GoodData(s', s'.live[j])
    {
      assert GoodData(s, s.live[j]);
      if j == i {
        UnreadGood(s', s'.live[i]);
      } else {
        GoodFrame(s, s', s.live[j]);
      }
    }
  }

  lemma BeginData(s: State, id: nat, job: Job)
    requires Inv(s) && Enabled(s, Begin(id, job))
    ensures DataInv(Next(s, Begin(id, job)))
  {
    var s1 := Begun(s, id, job);
    FreshInRange(id, job);
    UnreadGood(s1, s1.live[0]);
    forall j | 0 <= j < |s1.live|
      ensures GoodData(s1, s1.live[j])
    {
      if j > 0 {
        assert s1.live[j] == s.live[j - 1];
        GoodFrame(s, s1, s.live[j - 1]);
      }
    }
    assert forall pos: nat :: ByteOk(s, pos) ==> ByteOk(s1, pos);
    WaitedData(s1, 0);
  }

  lemma ResumeData(s: State, i: nat)
    requires Inv(s) && Enabled(s, Resume(i))
    ensures DataInv(Next(s, Resume(i)))
  {
    var r := s.live[i].(waitingFor := None, woken := false);
    var s1 := s.(live := s.live[i := r]);
    assert GoodData(s, s.live[i]) && WaitsWell(s.live, s.live[i]);
    UnreadGood(s1, r);
    forall j | 0 <= j < |s1.live|
      ensures GoodData(s1, s1.live[j])
    {
      if j != i {
        GoodFrame(s, s1, s.live[j]);
      }
    }
    assert forall pos: nat :: ByteOk(s, pos) ==> ByteOk(s1, pos);
    WaitedData(s1, i);
  }

  /** Progress of one request that leaves the disk alone. */
  lemma ProgressData(s: State, s': State, i: nat, r: Request)
    requires DataInv(s) && i < |s.live| && s' == s.(live := s.live[i := r]) && GoodData(s', r)
    ensures DataInv(s')
  {
    forall j | 0 <= j < |s'.live|
      ensures GoodData(s', s'.live[j])
    {
      if j != i {
        GoodFrame(s, s', s.live[j]);
      }
    }
    assert forall pos: nat :: ByteOk(s, pos) ==> ByteOk(s', pos);
  }

  lemma BufferedFrame(r: Request, disk: nat -> byte, disk': nat -> byte)
    requires Sane(r.job) && Buffered(r, disk)
    requires Serialises(r.job) ==> forall pos: nat | Lo(r.job) <= pos < Hi(r.job) && !Requested(r.job, pos) ::
                                     disk'(pos) == disk(pos)
    ensures Buffered(r, disk')
  {
    forall k | 0 <= k < |r.bufs|
      ensures BufferOk(r.job, r.bufs[k], disk')
    {
      assert BufferOk(r.job, r.bufs[k], disk);
    }
  }

  /** The request after its current operation has read one byte. */
  function WithByte(r: Request, pos: nat, b: byte): Request
    requires r.pc < |r.bufs|
  {
    r.(bufs := r.bufs[r.pc := Stored(r.bufs[r.pc], pos, b)])
  }

  lemma WithByteBuffered(r: Request, pos: nat, disk: nat -> byte)
    requires Sane(r.job) && r.pc < |r.bufs| && Buffered(r, disk) && Lo(r.job) <= pos < Hi(r.job)
    ensures Buffered(WithByte(r, pos, disk(pos)), disk)
  {
    var r' := WithByte(r, pos, disk(pos));
    forall k | 0 <= k < |r'.bufs|
      ensures BufferOk(r'.job, r'.bufs[k], disk)
    {
      assert BufferOk(r.job, r.bufs[k], disk);
    }
  }

  lemma WithByteInOrder(r: Request, pos: nat, b: byte)
    requires Sane(r.job) && |r.bufs| == |Program(r.job)| && r.pc < |r.bufs| && Past(r) && ReadInOrder(r)
    ensures ReadInOrder(WithByte(r, pos, b))
  {
    var r' := WithByte(r, pos, b);
    assert forall k | 0 <= k < |r.bufs| && k != r.pc :: r'.bufs[k] == r.bufs[k];
  }

  lemma ReadByteData(s: State, i: nat, pos: nat)
    requires Inv(s) && Enabled(s, ReadByte(i, pos))
    ensures Inv(Next(s, ReadByte(i, pos)))
  {
    var r := s.live[i];
    var s' := Next(s, ReadByte(i, pos));
    assert GoodData(s, r);
    ProgramInRange(r.job, r.pc);
    WithByteBuffered(r, pos, s.disk);
    WithByteInOrder(r, pos, s.disk(pos));
    ProgressKeeps(s, s', i, WithByte(r, pos, s.disk(pos)));
    ProgressData(s, s', i, WithByte(r, pos, s.disk(pos)));
  }

  lemma AdvancedInOrder(r: Request)
    requires Sane(r.job) && |r.bufs| == |Program(r.job)| && r.pc < |r.bufs| && Past(r) && ReadInOrder(r)
    requires forall pos: nat | Program(r.job)[r.pc].lo <= pos < Program(r.job)[r.pc].hi :: pos in r.bufs[r.pc]
    ensures ReadInOrder(r.(pc := r.pc + 1))
  {
  }

  lemma AdvanceData(s: State, i: nat)
    requires Inv(s) && Enabled(s, Advance(i))
    ensures Inv(Next(s, Advance(i)))
  {
    var r := s.live[i];
    AdvanceSerialised(s, i);
    assert GoodData(s, r);
    AdvancedInOrder(r);
    var r' := r.(pc := r.pc + 1);
    var s' := Next(s, Advance(i));
    assert s'.live[i] == r' && WellFormed(s'.live[i]);
    assert Buffered(r', s'.disk);
    ProgressData(s, s', i, r');
  }

  /** No other request past its wait is near a byte that lands. */
  lemma LandElsewhere(s: State, i: nat, pos: nat, j: nat)
    requires Inv(s) && Enabled(s, Land(i, pos)) && j < |s.live| && j != i
    requires s.live[j].serialising && Past(s.live[j])
    ensures !(Lo(s.live[j].job) <= pos < Hi(s.live[j].job))
  {
    assert WellFormed(s.live[i]) && WellFormed(s.live[j]);
    ProgramInRange(s.live[i].job, s.live[i].pc);
    assert !Conflict(s.live[i], s.live[j]);
    assert s.live[i].id != s.live[j].id;
  }

  lemma LandOther(s: State, i: nat, pos: nat, j: nat)
    requires Inv(s) && Enabled(s, Land(i, pos)) && j < |s.live| && j != i
    ensures GoodData(Next(s, Land(i, pos)), s.live[j])
  {
    var r := s.live[j];
    var s' := Next(s, Land(i, pos));
    assert GoodData(s, r);
    if !Past(r) {
      UnreadBuffered(r, s'.disk);
    } else {
      if r.serialising {
        LandElsewhere(s, i, pos, j);
      }
      BufferedFrame(r, s.disk, s'.disk);
    }
  }

  lemma UnreadBuffered(r: Request, disk: nat -> byte)
    requires Sane(r.job) && |r.bufs| == |Program(r.job)| && ReadInOrder(r) && !Past(r)
    ensures Buffered(r, disk)
  {
  }

  lemma LandSelf(s: State, i: nat, pos: nat)
    requires Inv(s) && Enabled(s, Land(i, pos))
    ensures GoodData(Next(s, Land(i, pos)), Next(s, Land(i, pos)).live[i])
  {
    var r := s.live[i];
    var s' := Next(s, Land(i, pos));
    assert GoodData(s, r);
    LandExact(s, i, pos);
    BufferedFrame(r, s.disk, s'.disk);
    var r' := r.(landed := r.landed + {pos});
    LandedGood(s', r, r');
  }

  lemma LandedGood(s: State, r: Request, r': Request)
    requires WellFormed(r) && Buffered(r, s.disk) && ReadInOrder(r) && r' == r.(landed := r'.landed)
    requires forall pos | pos in r'.landed && Requested(r.job, pos) :: s.writer(pos).Some?
    ensures GoodData(s, r')
  {
  }

  lemma LandBytes(s: State, i: nat, pos: nat, p: nat)
    requires Inv(s) && Enabled(s, Land(i, pos))
    ensures ByteOk(Next(s, Land(i, pos)), p)
  {
    var r := s.live[i];
    LandExact(s, i, pos);
    assert s.jobs[r.id] == r.job;
    assert ByteOk(s, p);
  }

  lemma LandAll(s: State, i: nat, pos: nat, j: nat)
    requires Inv(s) && Enabled(s, Land(i, pos)) && j < |s.live|
    ensures GoodData(Next(s, Land(i, pos)), Next(s, Land(i, pos)).live[j])
  {
    if j == i {
      LandSelf(s, i, pos);
    } else {
      LandOther(s, i, pos, j);
    }
  }

  lemma LandTracked(s: State, i: nat, pos: nat)
    requires Inv(s) && Enabled(s, Land(i, pos))
    ensures Tracked(Next(s, Land(i, pos))) && Serialised(Next(s, Land(i, pos)))
  {
    var s' := Next(s, Land(i, pos));
    ProgressKeeps(s, s', i, s'.live[i]);
  }

  lemma LandData(s: State, i: nat, pos: nat)
    requires Inv(s) && Enabled(s, Land(i, pos))
    ensures DataInv(Next(s, Land(i, pos)))
  {
    var s' := Next(s, Land(i, pos));
    forall p: nat
      ensures ByteOk(s', p)
    {
      LandBytes(s, i, pos, p);
    }
    forall j | 0 <= j < |s'.live|
      ensures GoodData(s', s'.live[j])
    {
      LandAll(s, i, pos, j);
    }
  }

  lemma FinishedWrote(s: State, i: nat, pos: nat)
    requires Inv(s) && Enabled(s, Finish(i, true)) && Requested(s.live[i].job, pos)
    ensures s.writer(pos).Some?
  {
    var r := s.live[i];
    assert GoodData(s, r);
    PaddedEndIsHi(r.job);
  }

  lemma WokenGood(s: State, s': State, q: Request)
    requires GoodData(s, q) && s'.disk == s.disk && s'.writer == s.writer
    ensures GoodData(s', q) && GoodData(s', q.(woken := true))
  {
    WokenWellFormed(q);
    assert Buffered(q.(woken := true), s'.disk) && ReadInOrder(q.(woken := true));
  }

  lemma FinishGood(s: State, i: nat, ok: bool, j: nat)
    requires Inv(s) && Enabled(s, Finish(i, ok)) && j < |Next(s, Finish(i, ok)).live|
    ensures GoodData(Next(s, Finish(i, ok)), Next(s, Finish(i, ok)).live[j])
  {
    var s' := Next(s, Finish(i, ok));
    assert Removed(s.live, i, s'.live);
    assert GoodData(s, s.live[Skip(i, j)]);
    WokenGood(s, s', s.live[Skip(i, j)]);
  }

  lemma FinishData(s: State, i: nat, ok: bool)
    requires Inv(s) && Enabled(s, Finish(i, ok))
    ensures DataInv(Next(s, Finish(i, ok)))
  {
    var s' := Next(s, Finish(i, ok));
    forall j | 0 <= j < |s'.live|
      ensures GoodData(s', s'.live[j])
    {
      FinishGood(s, i, ok, j);
    }
    assert forall pos: nat :: ByteOk(s, pos) ==> ByteOk(s', pos);
    forall id, pos: nat | id in s'.ended && id in s'.jobs && Requested(s'.jobs[id], pos)
      ensures s'.writer(pos).Some?
    {
      if ok && id == s.live[i].id {
        FinishedWrote(s, i, pos);
      }
    }
  }

  // ---------------------------------------------------------------------
  // Runs
  // ---------------------------------------------------------------------

  lemma StepKeepsInv(s: State, a: Action)
    requires Inv(s) && Enabled(s, a)
    ensures Inv(Next(s, a))
  {
    match a
    case Begin(id, job) =>
      BeginSerialised(s, id, job);
      BeginData(s, id, job);
    case Resume(i) =>
      ResumeSerialised(s, i);
      ResumeData(s, i);
    case ReadByte(i, pos) =>
      ReadByteData(s, i, pos);
    case Advance(i) =>
      AdvanceData(s, i);
    case Land(i, pos) =>
      LandTracked(s, i, pos);
      LandData(s, i, pos);
    case Finish(i, ok) =>
      FinishSerialised(s, i, ok);
      FinishData(s, i, ok);
  }

  /** A run: any interleaving of the steps of any number of requests. */
  ghost predicate Run(run: seq<State>, actions: seq<Action>) {
    && |run| == |actions| + 1
    && Initial(run[0])
    && (forall k | 0 <= k < |actions| :: StepAt(run, actions, k))
  }

  ghost predicate StepAt(run: seq<State>, actions: seq<Action>, k: nat)
    requires k < |actions| && |run| == |actions| + 1
  {
    Enabled(run[k], actions[k]) && run[k + 1] == Next(run[k], actions[k])
  }

  lemma {:induction false} RunInv(run: seq<State>, actions: seq<Action>, k: nat)
    requires Run(run, actions) && k < |run|
    ensures Inv(run[k])
    decreases k
  {
    if k > 0 {
      RunInv(run, actions, k - 1);
      assert StepAt(run, actions, k - 1);
      StepKeepsInv(run[k - 1], actions[k - 1]);
    }
  }

  // ---------------------------------------------------------------------
  // What every run guarantees
  // ---------------------------------------------------------------------

  /** No two requests past their wait overlap when one of them is serialising,
      the counter of serialising requests is right, and the operation a request
      performs lies inside its overlap range. */
  lemma SerialisationSafety(run: seq<State>, actions: seq<Action>, k: nat)
    requires Run(run, actions) && k < |run|
    ensures forall i, j | 0 <= i < |run[k].live| && 0 <= j < |run[k].live| && i != j
                          && Past(run[k].live[i]) && Past(run[k].live[j])
                          && (run[k].live[i].serialising || run[k].live[j].serialising) ::
              !Overlaps(run[k].live[i], run[k].live[j])
    ensures run[k].inFlight == CountSerialising(run[k].live)
    ensures forall i | 0 <= i < |run[k].live| && Running(run[k], i) ::
              && run[k].live[i].overlapOffset <= CurrentIo(run[k], i).lo
              && CurrentIo(run[k], i).hi <= OverlapEnd(run[k].live[i])
  {
    RunInv(run, actions, k);
    var s := run[k];
    forall i, j | 0 <= i < |s.live| && 0 <= j < |s.live| && i != j && Past(s.live[i]) && Past(s.live[j])
                  && (s.live[i].serialising || s.live[j].serialising)
      ensures !Overlaps(s.live[i], s.live[j])
    {
      assert !Conflict(s.live[j], s.live[i]);
      assert s.live[i].id != s.live[j].id;
    }
    forall i | 0 <= i < |s.live| && Running(s, i)
      ensures s.live[i].overlapOffset <= CurrentIo(s, i).lo && CurrentIo(s, i).hi <= OverlapEnd(s.live[i])
    {
      assert WellFormed(s.live[i]);
      ProgramInRange(s.live[i].job, s.live[i].pc);
    }
  }

  /** A request that has done any I/O is never made to wait. */
  lemma WaitsOnlyOnce(run: seq<State>, actions: seq<Action>, k: nat, i: nat)
    requires Run(run, actions) && k < |actions| && actions[k] == Advance(i)
    ensures i < |run[k + 1].live| && Past(run[k + 1].live[i])
    ensures run[k + 1].inFlight == run[k].inFlight
  {
    RunInv(run, actions, k);
    assert StepAt(run, actions, k);
    AdvanceSerialised(run[k], i);
  }

  /** Request `i` waits for request `j`. */
  predicate WaitEdge(s: State, i: nat, j: nat) {
    i < |s.live| && j < |s.live| && s.live[i].waitingFor == Some(s.live[j].id)
  }

  ghost predicate WaitPath(s: State, path: seq<nat>) {
    forall k | 0 <= k < |path| - 1 :: WaitEdge(s, path[k], path[k + 1])
  }

  lemma NoWaitCycle(s: State, path: seq<nat>)
    requires Tracked(s) && Serialised(s) && |path| >= 2 && WaitPath(s, path)
    ensures path[0] != path[|path| - 1]
  {
    assert WaitEdge(s, path[0], path[1]);
    assert WaitEdge(s, path[|path| - 2], path[|path| - 2 + 1]);
    EdgeToPast(s, path[0], path[1]);
    EdgeToPast(s, path[|path| - 2], path[|path| - 1]);
  }

  lemma WaitersCanMove(s: State, i: nat)
    requires Serialised(s) && i < |s.live| && s.live[i].waitingFor.Some? && !s.live[i].woken
    ensures exists j: nat :: WaitEdge(s, i, j) && Past(s.live[j])
  {
    assert WaitsWell(s.live, s.live[i]);
    var j :| 0 <= j < |s.live| && s.live[i].waitingFor == Some(s.live[j].id) && Past(s.live[j]);
    assert WaitEdge(s, i, j);
  }

  /** The waiting graph has no cycle; every request that waits is runnable, or
      waits for a live request that does not wait itself. */
  lemma DeadlockFree(run: seq<State>, actions: seq<Action>, k: nat)
    requires Run(run, actions) && k < |run|
    ensures forall path: seq<nat> | |path| >= 2 && WaitPath(run[k], path) :: path[0] != path[|path| - 1]
    ensures forall i | 0 <= i < |run[k].live| && run[k].live[i].waitingFor.Some? && !run[k].live[i].woken ::
              exists j: nat :: WaitEdge(run[k], i, j) && Past(run[k].live[j])
  {
    RunInv(run, actions, k);
    forall path: seq<nat> | |path| >= 2 && WaitPath(run[k], path)
      ensures path[0] != path[|path| - 1]
    {
      NoWaitCycle(run[k], path);
    }
    forall i | 0 <= i < |run[k].live| && run[k].live[i].waitingFor.Some? && !run[k].live[i].woken
      ensures exists j: nat :: WaitEdge(run[k], i, j) && Past(run[k].live[j])
    {
      WaitersCanMove(run[k], i);
    }
  }

  lemma EdgeToPast(s: State, i: nat, j: nat)
    requires Tracked(s) && Serialised(s) && WaitEdge(s, i, j)
    ensures Past(s.live[j]) && !Past(s.live[i])
  {
    assert WaitsWell(s.live, s.live[i]);
    if !s.live[i].woken {
      var b :| 0 <= b < |s.live| && s.live[i].waitingFor == Some(s.live[b].id) && Past(s.live[b]);
      assert b == j;
    }
  }

  /** No request other than `id` was given the byte at `pos`. */
  ghost predicate OnlyWriter(s: State, id: nat, pos: nat) {
    forall other | other in s.jobs && other != id :: !Requested(s.jobs[other], pos)
  }

  lemma OnlyWriterWins(s: State, id: nat, pos: nat)
    requires ByteOk(s, pos) && s.writer(pos).Some? && id in s.jobs && OnlyWriter(s, id, pos)
    ensures Requested(s.jobs[id], pos) && s.disk(pos) == s.jobs[id].data[pos - s.jobs[id].offset]
  {
  }

  /** A byte that no request was given keeps its value. */
  lemma UntouchedByte(run: seq<State>, actions: seq<Action>, k: nat, pos: nat)
    requires Run(run, actions) && k < |run|
    requires forall id | id in run[k].jobs :: !Requested(run[k].jobs[id], pos)
    ensures run[k].disk(pos) == run[k].start(pos)
  {
    RunInv(run, actions, k);
    assert ByteOk(run[k], pos);
  }

  /** A byte of a completed write that no other request was given holds what that
      write was given -- also when other requests write the rest of the same
      block. */
  lemma NoLostUpdate(run: seq<State>, actions: seq<Action>, k: nat, id: nat, pos: nat)
    requires Run(run, actions) && k < |run|
    requires id in run[k].ended && id in run[k].jobs && Requested(run[k].jobs[id], pos)
    requires OnlyWriter(run[k], id, pos)
    ensures run[k].disk(pos) == run[k].jobs[id].data[pos - run[k].jobs[id].offset]
  {
    RunInv(run, actions, k);
    assert ByteOk(run[k], pos);
    OnlyWriterWins(run[k], id, pos);
  }

  /** Every landing byte changes the disk as the bare request would: positions
      outside the guest's bytes keep their value. */
  lemma LandsOnlyRequested(run: seq<State>, actions: seq<Action>, k: nat, i: nat, pos: nat)
    requires Run(run, actions) && k < |actions| && actions[k] == Land(i, pos)
    ensures i < |run[k].live|
    ensures forall p: nat :: run[k + 1].disk(p) ==
              if p == pos && Requested(run[k].live[i].job, pos)
                then run[k].live[i].job.data[pos - run[k].live[i].job.offset]
              else run[k].disk(p)
  {
    RunInv(run, actions, k);
    assert StepAt(run, actions, k);
    LandExact(run[k], i, pos);
  }

  // ---------------------------------------------------------------------
  // The list of tracked requests
  // ---------------------------------------------------------------------

  class BlockDriverState {
    var live: seq<Request>
    var inFlight: int

    /** The list is the one of machine state `s`. */
    ghost predicate Shows(s: State)
      reads this
    {
      s.live == live && s.inFlight == inFlight
    }

    constructor ()
      ensures live == [] && inFlight == 0
    {
      live, inFlight := [], 0;
    }

    /** `tracked_request_begin`. */
    method TrackedRequestBegin(id: nat, job: Job)
      requires Sane(job)
      modifies this`live
      ensures live == [Fresh(id, job)] + old(live)
    {
      live := [Fresh(id, job)] + live;
    }

    /** `mark_request_serialising`. */
    method MarkRequestSerialising(i: nat, align: nat)
      requires i < |live| && align > 0 && Sane(live[i].job)
      modifies this
      ensures live == old(live)[i := Marked(old(live)[i], align)]
      ensures inFlight == old(inFlight) + if old(live)[i].serialising then 0 else 1
    {
      var r := live[i];
      var lo := Down(TrackedOffset(r.job), align);
      var bytes := Up(TrackedEnd(r.job), align) - lo;
      if !r.serialising {
        inFlight := inFlight + 1;
        r := r.(serialising := true);
      }
      r := r.(overlapOffset := if r.overlapOffset < lo then r.overlapOffset else lo);
      r := r.(overlapBytes := if r.overlapBytes > bytes then r.overlapBytes else bytes);
      live := live[i := r];
    }

    /** `wait_serialising_requests` up to a yield; `blocker` is the request to wait
        for. */
    method WaitSerialisingRequests(i: nat, ghost s: State) returns (blocker: Option<nat>)
      requires i < |live| && Shows(s)
      modifies this`live
      ensures Shows(Waited(s, i))
      ensures blocker == if old(inFlight) == 0 then None else FirstBlocker(old(live), old(live)[i])
    {
      blocker := None;
      if inFlight == 0 {
        return;
      }
      var self := live[i];
      var k := 0;
      while k < |live|
        invariant k <= |live| && blocker.None?
        invariant FirstBlocker(live, self) == FirstBlocker(live[k..], self)
      {
        var req := live[k];
        assert live[k..][1..] == live[k + 1..];
        if req.id == self.id || (!req.serialising && !self.serialising) {
          k := k + 1;
          continue;
        }
        if Overlaps(req, self) && req.waitingFor.None? {
          blocker := Some(req.id);
          break;
        }
        k := k + 1;
      }
      if blocker.Some? {
        live := live[i := self.(waitingFor := blocker, woken := false)];
      }
    }

    /** Wakes the requests that wait for `id`. */
    method RestartAll(id: nat)
      modifies this`live
      ensures live == Woken(old(live), id)
    {
      var k := 0;
      while k < |live|
        invariant k <= |live| == |old(live)|
        invariant forall j | 0 <= j < k :: live[j] == Woken(old(live), id)[j]
        invariant forall j | k <= j < |live| :: live[j] == old(live)[j]
      {
        if live[k].waitingFor == Some(id) {
          live := live[k := live[k].(woken := true)];
        }
        k := k + 1;
      }
    }

    /** `tracked_request_end`: removes the request and wakes its waiters. */
    method TrackedRequestEnd(i: nat, ghost s: State, ghost ok: bool)
      requires Shows(s) && Enabled(s, Finish(i, ok))
      modifies this
      ensures Shows(Next(s, Finish(i, ok)))
    {
      var r := live[i];
      if r.serialising {
        inFlight := inFlight - 1;
      }
      live := live[..i] + live[i + 1..];
      assert live == Without(s.live, i);
      RestartAll(r.id);
    }

    /** The first part of a request: begin, mark and look for blockers. */
    method Enter(id: nat, job: Job, ghost s: State) returns (blocker: Option<nat>)
      requires Shows(s) && Enabled(s, Begin(id, job))
      modifies this
      ensures Shows(Next(s, Begin(id, job)))
      ensures blocker.None? <==> Past(live[0])
    {
      TrackedRequestBegin(id, job);
      var mark := Program(job)[0].mark;
      if mark > 0 {
        MarkRequestSerialising(0, mark);
      }
      assert Shows(Begun(s, id, job));
      blocker := WaitSerialisingRequests(0, Begun(s, id, job));
    }

    /** A request that was woken looks for blockers again. */
    method ResumeRequest(i: nat, ghost s: State) returns (blocker: Option<nat>)
      requires Shows(s) && Enabled(s, Resume(i))
      modifies this`live
      ensures Shows(Next(s, Resume(i)))
      ensures blocker.None? <==> Past(live[i])
    {
      live := live[i := live[i].(waitingFor := None, woken := false)];
      blocker := WaitSerialisingRequests(i, s.(live := live));
    }

    /** A request goes on to its next operation: it is marked once more, if the operation
        needs that, and looks for blockers once more.  The assertions that it has not
        waited hold. */
    method NextOperation(i: nat, ghost s: State)
      requires Shows(s) && Tracked(s) && Serialised(s) && Enabled(s, Advance(i))
      modifies this
      ensures Shows(Next(s, Advance(i))) && Past(live[i])
    {
      var r := live[i].(pc := live[i].pc + 1);
      ghost var s1 := s.(live := s.live[i := r]);
      GoesOn(s, i, r, s1);
      var io := Program(r.job)[r.pc];
      live := live[i := r];
      if io.mark > 0 {
        MarkRequestSerialising(i, io.mark);
      }
      assert Shows(s1);
      var waited := false;
      if io.waits {
        var blocker := WaitSerialisingRequests(i, s1);
        waited := blocker.Some?;
      }
      assert !waited;
    }
  }
}
