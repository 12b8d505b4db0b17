/** What read requests return, in every run of the machine of tracked requests.
  */
module BlockReads {
  import opened Common
  import opened BlockRequests
  import opened BlockRuns

  // ---------------------------------------------------------------------
  // From the buffers to the guest
  // ---------------------------------------------------------------------

  /** How many bytes of the padded read come before the guest's and after them. */
  function HeadPadding(job: Job): nat
    requires job.align > 0
  {
    job.offset % job.align
  }

  function TailPadding(job: Job): nat
    requires job.align > 0
  {
    var offset := job.offset - HeadPadding(job);
    var bytes := Length(job) + HeadPadding(job);
    if (offset + bytes) % job.align != 0 then job.align - (offset + bytes) % job.align else 0
  }

  /** The bytes that the driver delivers for the padded request: what it has read, or
      the part of the bounce buffer that holds the clusters. */
  function Delivered(r: Request): seq<byte>
    requires Sane(r.job) && |r.bufs| == |Program(r.job)| && !r.job.Write?
  {
    var io := Program(r.job)[0];
    if io.lo > TrackedOffset(r.job) || TrackedEnd(r.job) > io.hi then []
    else
      var bounce := BlockBytes(r.bufs[0], io.lo, io.hi - io.lo);
      var skip := TrackedOffset(r.job) - io.lo;
      bounce[skip..skip + (TrackedEnd(r.job) - TrackedOffset(r.job))]
  }

  /** The guest's part of the padded vector: after the head buffer, before the tail. */
  function GuestData(r: Request): seq<byte>
    requires Sane(r.job) && |r.bufs| == |Program(r.job)| && !r.job.Write?
  {
    var all, h := Delivered(r), HeadPadding(r.job);
    if h + Length(r.job) <= |all| then all[h..h + Length(r.job)] else []
  }

  /** Head, guest's bytes and tail fill what is delivered exactly. */
  lemma DeliveredFits(r: Request)
    requires Sane(r.job) && |r.bufs| == |Program(r.job)| && !r.job.Write?
    ensures |Delivered(r)| == HeadPadding(r.job) + Length(r.job) + TailPadding(r.job)
  {
    PaddedLength(r.job.offset, End(r.job), r.job.align);
  }

  lemma DeliveredAt(r: Request, m: nat)
    requires Sane(r.job) && |r.bufs| == |Program(r.job)| && !r.job.Write? && m < |Delivered(r)|
    ensures TrackedOffset(r.job) + m in r.bufs[0] ==> Delivered(r)[m] == r.bufs[0][TrackedOffset(r.job) + m]
  {
    var io := Program(r.job)[0];
    assert Delivered(r)[m] == BlockBytes(r.bufs[0], io.lo, io.hi - io.lo)[TrackedOffset(r.job) - io.lo + m];
  }

  /** The guest gets the bytes at the positions it asked for. */
  lemma GuestDataAt(r: Request, n: nat)
    requires Sane(r.job) && |r.bufs| == |Program(r.job)| && !r.job.Write? && n < Length(r.job)
    ensures |GuestData(r)| == Length(r.job)
    ensures r.job.offset + n in r.bufs[0] ==> GuestData(r)[n] == r.bufs[0][r.job.offset + n]
  {
    DeliveredFits(r);
    DeliveredAt(r, HeadPadding(r.job) + n);
    assert TrackedOffset(r.job) + HeadPadding(r.job) == r.job.offset;
  }

  /** When a read may end, every byte that was asked for has been read. */
  lemma ReadComplete(s: State, i: nat, pos: nat)
    requires Inv(s) && Enabled(s, Finish(i, true)) && !s.live[i].job.Write?
    requires s.live[i].job.offset <= pos < End(s.live[i].job)
    ensures pos in s.live[i].bufs[0]
  {
    var r := s.live[i];
    assert GoodData(s, r);
    assert Program(r.job)[0].lo <= pos < Program(r.job)[0].hi;
  }

  /** When copy-on-read may end, every byte of its clusters has been written back. */
  lemma CopyComplete(s: State, i: nat, pos: nat)
    requires Inv(s) && Enabled(s, Finish(i, true)) && s.live[i].job.CopyOnRead?
    requires Lo(s.live[i].job) <= pos < Hi(s.live[i].job)
    ensures pos in s.live[i].landed
  {
    assert GoodData(s, s.live[i]);
  }

  // ---------------------------------------------------------------------
  // Where bytes in a buffer come from
  // ---------------------------------------------------------------------

  /** A request before a step and after it: what its buffers hold stays, but for the
      byte that is read in the step. */
  ghost predicate SameBuffers(s: State, a: Action, i: nat, q: Request) {
    && i < |s.live| && q.id == s.live[i].id
    && if a.ReadByte? && a.i == i then
         s.live[i].pc < |s.live[i].bufs| && q.bufs == WithByte(s.live[i], a.pos, s.disk(a.pos)).bufs
       else q.bufs == s.live[i].bufs
  }

  lemma WaitedBuffers(s: State, i: nat, j: nat)
    requires i < |s.live| && j < |s.live|
    ensures |Waited(s, i).live| == |s.live|
    ensures Waited(s, i).live[j].id == s.live[j].id && Waited(s, i).live[j].bufs == s.live[j].bufs
  {
  }

  /** Each request after a step was there before, unless it has just begun. */
  lemma StepOrigin(s: State, a: Action, s': State, j: nat) returns (i: nat)
    requires Enabled(s, a) && s' == Next(s, a) && j < |s'.live| && !(a.Begin? && j == 0)
    ensures SameBuffers(s, a, i, s'.live[j])
  {
    match a
    case Begin(id, job) =>
      i := j - 1;
      WaitedBuffers(Begun(s, id, job), 0, j);
    case Resume(k) =>
      i := j;
      WaitedBuffers(s.(live := s.live[k := s.live[k].(waitingFor := None, woken := false)]), k, j);
    case ReadByte(k, pos) =>
      i := j;
    case Advance(k) =>
      i := j;
    case Land(k, pos) =>
      i := j;
    case Finish(k, ok) =>
      i := Skip(k, j);
      assert Removed(s.live, k, s'.live);
  }

  lemma NewIsEmpty(s: State, id: nat, job: Job, n: nat)
    requires Enabled(s, Begin(id, job)) && n < |Next(s, Begin(id, job)).live[0].bufs|
    ensures Next(s, Begin(id, job)).live[0].bufs[n] == map[]
  {
    WaitedBuffers(Begun(s, id, job), 0, 0);
  }

  /** A byte in a buffer after a step was there before, or has just been read. */
  lemma ByteOrigin(s: State, a: Action, s': State, j: nat, n: nat, pos: nat) returns (i: nat)
    requires Tracked(s) && Enabled(s, a) && s' == Next(s, a) && j < |s'.live|
    requires n < |s'.live[j].bufs| && pos in s'.live[j].bufs[n]
    ensures i < |s.live| && s.live[i].id == s'.live[j].id && s.live[i].id in s.jobs && n < |s.live[i].bufs|
    ensures s'.live[j].bufs[n][pos] == s.disk(pos)
            || (pos in s.live[i].bufs[n] && s'.live[j].bufs[n][pos] == s.live[i].bufs[n][pos])
  {
    if a.Begin? && j == 0 {
      NewIsEmpty(s, a.id, a.job, n);
    }
    i := StepOrigin(s, a, s', j);
  }

  /** A byte in a buffer is one that the disk has held since the request began. */
  lemma {:induction false} BufferedByte(run: seq<State>, actions: seq<Action>, k: nat, i: nat, n: nat, pos: nat)
      returns (j: nat)
    requires Run(run, actions) && k < |run| && i < |run[k].live|
    requires n < |run[k].live[i].bufs| && pos in run[k].live[i].bufs[n]
    ensures j <= k && run[k].live[i].id in run[j].jobs
    ensures run[k].live[i].bufs[n][pos] == run[j].disk(pos)
    decreases k
  {
    j := k - 1;
    RunStep(run, actions, j);
    var i' := ByteOrigin(run[j], actions[j], run[k], i, n, pos);
    if run[k].live[i].bufs[n][pos] != run[j].disk(pos) {
      j := BufferedByte(run, actions, j, i', n, pos);
    }
  }

  lemma RunStep(run: seq<State>, actions: seq<Action>, k: nat)
    requires Run(run, actions) && k < |actions|
    ensures Tracked(run[k]) && Enabled(run[k], actions[k]) && run[k + 1] == Next(run[k], actions[k])
  {
    RunInv(run, actions, k);
    assert StepAt(run, actions, k);
  }

  // ---------------------------------------------------------------------
  // Runs
  // ---------------------------------------------------------------------

  /** Requests that have begun or ended stay so, and the original disk stays known. */
  ghost predicate Grown(s: State, s': State) {
    && s'.start == s.start && s.ended <= s'.ended
    && (forall id | id in s.jobs :: id in s'.jobs && s'.jobs[id] == s.jobs[id])
  }

  lemma StepGrows(run: seq<State>, actions: seq<Action>, k: nat)
    requires Run(run, actions) && k < |actions|
    ensures Grown(run[k], run[k + 1])
  {
    assert StepAt(run, actions, k);
  }

  lemma GrownTransitive(s: State, s': State, s'': State)
    requires Grown(s, s') && Grown(s', s'')
    ensures Grown(s, s'')
  {
  }

  lemma {:induction false} GrowsAlong(run: seq<State>, j: nat, k: nat)
    requires j <= k < |run| && forall m | 0 <= m < |run| - 1 :: Grown(run[m], run[m + 1])
    ensures Grown(run[j], run[k])
    decreases k - j
  {
    if j < k {
      GrowsAlong(run, j, k - 1);
      assert Grown(run[k - 1], run[k - 1 + 1]);
      GrownTransitive(run[j], run[k - 1], run[k]);
    }
  }

  lemma RunGrows(run: seq<State>, actions: seq<Action>, j: nat, k: nat)
    requires Run(run, actions) && j <= k < |run|
    ensures Grown(run[j], run[k])
  {
    forall m | 0 <= m < |run| - 1
      ensures Grown(run[m], run[m + 1])
    {
      StepGrows(run, actions, m);
    }
    GrowsAlong(run, j, k);
  }

  /** Byte `n` of a read that is about to end with success. */
  ghost predicate Returns(s: State, i: nat, n: nat) {
    Enabled(s, Finish(i, true)) && !s.live[i].job.Write? && n < Length(s.live[i].job)
  }

  lemma HeldByDisk(s: State, i: nat, pos: nat)
    requires Inv(s) && i < |s.live| && s.live[i].job.CopyOnRead? && 0 < |s.live[i].bufs| && pos in s.live[i].bufs[0]
    ensures s.live[i].bufs[0][pos] == s.disk(pos)
  {
    assert GoodData(s, s.live[i]);
    assert BufferOk(s.live[i].job, s.live[i].bufs[0], s.disk);
  }

  /** What is read has been read completely, and copy-on-read finds it on the disk. */
  lemma ReadHeld(run: seq<State>, actions: seq<Action>, k: nat, i: nat, n: nat, pos: nat)
    requires Run(run, actions) && k < |run| && Returns(run[k], i, n) && pos == run[k].live[i].job.offset + n
    ensures 0 < |run[k].live[i].bufs| && pos in run[k].live[i].bufs[0]
    ensures run[k].live[i].job.CopyOnRead? ==> run[k].live[i].bufs[0][pos] == run[k].disk(pos)
  {
    RunInv(run, actions, k);
    ReadComplete(run[k], i, pos);
    if run[k].live[i].job.CopyOnRead? {
      HeldByDisk(run[k], i, pos);
    }
  }

  /** A read returns every byte it was asked for, each one as the disk held it at some
      moment since the read began. */
  lemma ReadReturns(run: seq<State>, actions: seq<Action>, k: nat, i: nat, n: nat) returns (j: nat)
    requires Run(run, actions) && k < |run| && Returns(run[k], i, n)
    ensures |GuestData(run[k].live[i])| == Length(run[k].live[i].job)
    ensures j <= k && run[k].live[i].id in run[j].jobs
    ensures GuestData(run[k].live[i])[n] == run[j].disk(run[k].live[i].job.offset + n)
  {
    var r := run[k].live[i];
    ReadHeld(run, actions, k, i, n, r.job.offset + n);
    GuestDataAt(r, n);
    j := BufferedByte(run, actions, k, i, 0, r.job.offset + n);
  }

  /** A byte that no request was given is read as it was in the beginning. */
  lemma ReadsUntouched(run: seq<State>, actions: seq<Action>, k: nat, i: nat, n: nat)
    requires Run(run, actions) && k < |run| && Returns(run[k], i, n)
    requires forall id | id in run[k].jobs :: !Requested(run[k].jobs[id], run[k].live[i].job.offset + n)
    ensures |GuestData(run[k].live[i])| == Length(run[k].live[i].job)
    ensures GuestData(run[k].live[i])[n] == run[k].start(run[k].live[i].job.offset + n)
  {
    var j := ReadReturns(run, actions, k, i, n);
    RunGrows(run, actions, j, k);
    UntouchedByte(run, actions, j, run[k].live[i].job.offset + n);
  }

  /** What a write that has ended was given is on the disk once a later request has begun. */
  lemma StaysWritten(run: seq<State>, actions: seq<Action>, b: nat, j: nat, k: nat, id: nat, later: nat, pos: nat)
    requires Run(run, actions) && b <= k && j <= k < |run| && later in run[j].jobs && later !in run[b].jobs
    requires id in run[b].ended && id in run[b].jobs && Requested(run[b].jobs[id], pos) && OnlyWriter(run[k], id, pos)
    ensures run[j].disk(pos) == run[b].jobs[id].data[pos - run[b].jobs[id].offset]
  {
    if j < b {
      RunGrows(run, actions, j, b);
    } else {
      RunGrows(run, actions, b, j);
      RunGrows(run, actions, j, k);
      NoLostUpdate(run, actions, j, id, pos);
    }
  }

  /** A read that begins after a write has ended sees its bytes, unless others write
      them too. */
  lemma ReadsCompletedWrite(run: seq<State>, actions: seq<Action>, b: nat, k: nat, i: nat, n: nat, id: nat, pos: nat)
    requires Run(run, actions) && b <= k < |run| && Returns(run[k], i, n) && pos == run[k].live[i].job.offset + n
    requires run[k].live[i].id !in run[b].jobs && id in run[b].ended && id in run[b].jobs
    requires Requested(run[b].jobs[id], pos) && OnlyWriter(run[k], id, pos)
    ensures |GuestData(run[k].live[i])| == Length(run[k].live[i].job)
    ensures GuestData(run[k].live[i])[n] == run[b].jobs[id].data[pos - run[b].jobs[id].offset]
  {
    var j := ReadReturns(run, actions, k, i, n);
    StaysWritten(run, actions, b, j, k, id, run[k].live[i].id, pos);
  }

  /** Copy-on-read returns what the disk holds when it ends: nothing is written to its
      clusters while it runs. */
  lemma CopyOnReadExact(run: seq<State>, actions: seq<Action>, k: nat, i: nat, n: nat)
    requires Run(run, actions) && k < |run| && Returns(run[k], i, n) && run[k].live[i].job.CopyOnRead?
    ensures |GuestData(run[k].live[i])| == Length(run[k].live[i].job)
    ensures GuestData(run[k].live[i])[n] == run[k].disk(run[k].live[i].job.offset + n)
  {
    ReadHeld(run, actions, k, i, n, run[k].live[i].job.offset + n);
    GuestDataAt(run[k].live[i], n);
  }
}
