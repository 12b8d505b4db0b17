/** Tracked block requests: which requests serialise against which, and how an
    unaligned write becomes a read-modify-write cycle.

    A request is a coroutine.  It runs without interruption between two yields,
    so the model's steps are the pieces of code between yields: entering a
    request up to its first wait, resuming after a wake-up, one byte of driver
    I/O, moving on to the next I/O, and ending.  Driver I/O is not atomic: bytes
    are read and land on the disk one at a time and in any order.
  */
module BlockRequests {
  import opened Arith
  import opened Common

  /** One driver operation of a request, on the bytes from `lo` up to `hi`.
      Before it the request is marked as serialising with alignment `mark`
      (unless 0), and waits for conflicting requests if `waits`. */
  datatype Io = Io(write: bool, lo: nat, hi: nat, mark: nat, waits: bool)

  /** What the guest asked for.  `align` is the alignment the driver needs and
      `cluster` the cluster size that copy-on-read works on. */
  datatype Job =
    | Write(align: nat, offset: nat, data: seq<byte>)
    | Read(align: nat, offset: nat, bytes: nat)
    | CopyOnRead(align: nat, cluster: nat, offset: nat, bytes: nat)

  predicate Sane(job: Job) {
    && job.align > 0
    && (job.CopyOnRead? ==> job.cluster > 0 && job.cluster % job.align == 0)
  }

  function Down(x: nat, align: nat): (r: nat)
    requires align > 0
    ensures r <= x < r + align
  {
    x - x % align
  }

  function Up(x: nat, align: nat): (r: nat)
    requires align > 0
    ensures x <= r < x + align
  {
    if x % align == 0 then x else x - x % align + align
  }

  /** The number of bytes asked for. */
  function Length(job: Job): nat {
    if job.Write? then |job.data| else job.bytes
  }

  function End(job: Job): nat {
    job.offset + Length(job)
  }

  /** The write starts, or ends, inside an aligned block. */
  predicate HasHead(job: Job)
    requires job.align > 0
  {
    job.offset % job.align != 0
  }

  predicate HasTail(job: Job)
    requires job.align > 0
  {
    End(job) % job.align != 0
  }

  /** Offset and length given to `tracked_request_begin`: a read is padded to the
      alignment before, a write only afterwards. */
  function TrackedOffset(job: Job): nat
    requires Sane(job)
  {
    if job.Write? then job.offset else Down(job.offset, job.align)
  }

  function TrackedEnd(job: Job): nat
    requires Sane(job)
  {
    if job.Write? then End(job) else Up(End(job), job.align)
  }

  /** The end of the padded write: the length is rounded up once the offset has
      been rounded down. */
  function PaddedEnd(job: Job): (r: nat)
    requires job.align > 0
  {
    var offset := Down(job.offset, job.align);
    var bytes := End(job) - offset;
    if (offset + bytes) % job.align != 0 then offset + Up(bytes, job.align) else offset + bytes
  }

  /** The driver operations of a request. */
  function Program(job: Job): (prog: seq<Io>)
    requires Sane(job)
    ensures prog != []
  {
    match job
    case Write(align, offset, data) =>
      (if HasHead(job) then [Io(false, Down(offset, align), Down(offset, align) + align, align, true)] else []) +
      (if HasTail(job) then [Io(false, Down(End(job), align), Down(End(job), align) + align, align, true)] else []) +
      [Io(true, Down(offset, align), PaddedEnd(job), 0, true)]
    case Read(align, offset, bytes) =>
      [Io(false, Down(offset, align), Up(End(job), align), 0, true)]
    case CopyOnRead(align, cluster, offset, bytes) =>
      var lo := Down(TrackedOffset(job), cluster);
      var hi := Up(TrackedEnd(job), cluster);
      [Io(false, lo, hi, cluster, true), Io(true, lo, hi, 0, false)]
  }

  // ---------------------------------------------------------------------
  // Requests
  // ---------------------------------------------------------------------

  /** A tracked request.  `pc` is the operation it performs or waits to perform;
      `bufs[k]` holds the bytes operation `k` has read so far and `landed` the
      positions the final write has put on the disk. */
  datatype Request = Request(
    id: nat,
    job: Job,
    serialising: bool,
    overlapOffset: nat,
    overlapBytes: nat,
    waitingFor: Option<nat>,
    woken: bool,
    pc: nat,
    bufs: seq<map<nat, byte>>,
    landed: set<nat>)

  function OverlapEnd(r: Request): nat {
    r.overlapOffset + r.overlapBytes
  }

  /** `tracked_request_overlaps`. */
  predicate Overlaps(r: Request, q: Request) {
    !(q.overlapOffset >= OverlapEnd(r)) && !(r.overlapOffset >= OverlapEnd(q))
  }

  predicate Conflict(self: Request, req: Request) {
    req.id != self.id && (req.serialising || self.serialising) && Overlaps(req, self)
  }

  /** `mark_request_serialising`. */
  function Marked(r: Request, align: nat): Request
    requires align > 0 && Sane(r.job)
  {
    var lo := Down(TrackedOffset(r.job), align);
    var bytes := Up(TrackedEnd(r.job), align) - lo;
    r.(serialising := true,
       overlapOffset := if r.overlapOffset < lo then r.overlapOffset else lo,
       overlapBytes := if r.overlapBytes > bytes then r.overlapBytes else bytes)
  }

  function Fresh(id: nat, job: Job): Request
    requires Sane(job)
  {
    Request(id, job, false, TrackedOffset(job), TrackedEnd(job) - TrackedOffset(job), None, false, 0,
            seq(|Program(job)|, _ => map[]), {})
  }

  /** A request when it is about to wait before operation `k`. */
  function MarkedFor(r: Request, k: nat): Request
    requires Sane(r.job) && k < |Program(r.job)|
  {
    if Program(r.job)[k].mark > 0 then Marked(r, Program(r.job)[k].mark) else r
  }

  /** Rounding the padded length up is rounding the end up. */
  lemma PaddedLength(offset: nat, end: nat, align: nat)
    requires align > 0 && offset <= end
    ensures Down(offset, align) + Up(end - Down(offset, align), align) == Up(end, align)
  {
    RoundDown(offset, align);
    ModAddMultiple(end, Down(offset, align), align);
  }

  // ---------------------------------------------------------------------
  // The range a request keeps to
  // ---------------------------------------------------------------------

  predicate Serialises(job: Job)
    requires Sane(job)
  {
    match job
    case Write(_, _, _) => HasHead(job) || HasTail(job)
    case Read(_, _, _) => false
    case CopyOnRead(_, _, _, _) => true
  }

  function Lo(job: Job): nat
    requires Sane(job)
  {
    if job.CopyOnRead? then Down(TrackedOffset(job), job.cluster) else Down(job.offset, job.align)
  }

  function Hi(job: Job): nat
    requires Sane(job)
  {
    if job.CopyOnRead? then Up(TrackedEnd(job), job.cluster) else Up(End(job), job.align)
  }

  /** The overlap range of a request is the range `[Lo, Hi)` of its job. */
  predicate InRange(r: Request) {
    && Sane(r.job)
    && r.serialising == Serialises(r.job)
    && r.overlapOffset == Lo(r.job)
    && OverlapEnd(r) == Hi(r.job)
  }

  lemma PaddedEndIsHi(job: Job)
    requires Sane(job) && job.Write?
    ensures PaddedEnd(job) == Hi(job)
  {
    PaddedLength(job.offset, End(job), job.align);
  }

  lemma FreshInRange(id: nat, job: Job)
    requires Sane(job)
    ensures InRange(MarkedFor(Fresh(id, job), 0))
  {
    PaddedLength(job.offset, End(job), job.align);
  }

  /** Marking a request again, as before the read of the tail, changes nothing. */
  lemma MarkingAgain(r: Request, k: nat)
    requires InRange(r) && k < |Program(r.job)|
    ensures MarkedFor(r, k) == r
  {
  }

  lemma DownMonotone(x: nat, y: nat, align: nat)
    requires align > 0 && x <= y
    ensures Down(x, align) <= Down(y, align)
  {
    RoundDown(x, align);
    RoundDown(y, align);
    if Down(y, align) < Down(x, align) {
      MultiplesApart(Down(y, align), Down(x, align), align);
    }
  }

  lemma RoundUp(x: nat, align: nat)
    requires align > 0
    ensures Up(x, align) % align == 0
  {
    RoundDown(x, align);
    ModAddMultiple(align, Down(x, align), align);
  }

  /** The aligned block that holds an unaligned start ends before the padded
      range does. */
  lemma HeadBlock(offset: nat, end: nat, align: nat)
    requires align > 0 && offset <= end && offset % align != 0
    ensures Down(offset, align) + align <= Up(end, align)
  {
    RoundDown(offset, align);
    RoundUp(end, align);
    MultiplesApart(Down(offset, align), Up(end, align), align);
  }

  /** Every driver operation stays inside the overlap range. */
  lemma ProgramInRange(job: Job, k: nat)
    requires Sane(job) && k < |Program(job)|
    ensures Lo(job) <= Program(job)[k].lo && Program(job)[k].hi <= Hi(job)
  {
    if job.Write? {
      PaddedEndIsHi(job);
      DownMonotone(job.offset, End(job), job.align);
      if HasHead(job) {
        HeadBlock(job.offset, End(job), job.align);
      }
    }
  }

  lemma MultipleOfCluster(x: nat, cluster: nat, align: nat)
    requires cluster > 0 && align > 0 && cluster % align == 0 && x % cluster == 0
    ensures x % align == 0
  {
    var a, b := cluster / align, x / cluster;
    assert x == cluster * b && cluster == align * a;
    assert x == align * (a * b);
    MulMod(align, a * b);
  }

  /** Every driver operation begins and ends on the alignment of the driver, and those of
      copy-on-read cover whole clusters. */
  lemma ProgramAligned(job: Job, k: nat)
    requires Sane(job) && k < |Program(job)|
    ensures Program(job)[k].lo % job.align == 0 && Program(job)[k].hi % job.align == 0
    ensures job.CopyOnRead? ==> Program(job)[k].lo % job.cluster == 0 && Program(job)[k].hi % job.cluster == 0
  {
    RoundDown(job.offset, job.align);
    RoundDown(End(job), job.align);
    RoundUp(End(job), job.align);
    if job.Write? {
      PaddedEndIsHi(job);
    } else if job.CopyOnRead? {
      var lo, hi := TrackedOffset(job), TrackedEnd(job);
      RoundDown(lo, job.cluster);
      RoundUp(hi, job.cluster);
      MultipleOfCluster(Down(lo, job.cluster), job.cluster, job.align);
      MultipleOfCluster(Up(hi, job.cluster), job.cluster, job.align);
    }
  }

  // ---------------------------------------------------------------------
  // The machine
  // ---------------------------------------------------------------------

  /** `live` is the list of tracked requests, newest first.  `jobs` are all
      requests ever begun, `ended` those that ended without an error, and
      `writer` tells which request last put a byte of its own at a position. */
  datatype State = State(
    live: seq<Request>,
    inFlight: int,
    disk: nat -> byte,
    start: nat -> byte,
    jobs: map<nat, Job>,
    ended: set<nat>,
    writer: nat -> Option<nat>)

  ghost predicate Initial(s: State) {
    && s.live == [] && s.inFlight == 0 && s.jobs == map[] && s.ended == {}
    && (forall pos: nat :: s.disk(pos) == s.start(pos) && s.writer(pos) == None)
  }

  predicate Requested(job: Job, pos: nat) {
    job.Write? && job.offset <= pos < End(job)
  }

  /** The first request in list order that `self` has to wait for. */
  function FirstBlocker(live: seq<Request>, self: Request): Option<nat> {
    if live == [] then None
    else if Conflict(self, live[0]) && live[0].waitingFor.None? then Some(live[0].id)
    else FirstBlocker(live[1..], self)
  }

  /** `wait_serialising_requests` up to its first yield: either the request goes
      on, or it waits for the first blocker. */
  function Waited(s: State, i: nat): State
    requires i < |s.live|
  {
    if s.inFlight == 0 then s
    else
      var blocker := FirstBlocker(s.live, s.live[i]);
      if blocker.None? then s
      else s.(live := s.live[i := s.live[i].(waitingFor := blocker, woken := false)])
  }

  /** The byte that the final write puts at a position: the guest's data inside
      the request, the bytes read before around it. */
  function OutByte(r: Request, pos: nat): byte
    requires Sane(r.job) && |r.bufs| == |Program(r.job)|
  {
    if Requested(r.job, pos) then r.job.data[pos - r.job.offset]
    else
      var k := if r.job.Write? && HasHead(r.job) && pos >= End(r.job) then 1 else 0;
      if k < |r.bufs| && pos in r.bufs[k] then r.bufs[k][pos] else 0
  }

  function Woken(live: seq<Request>, id: nat): (r: seq<Request>)
    ensures |r| == |live|
    ensures forall i | 0 <= i < |live| ::
              r[i] == if live[i].waitingFor == Some(id) then live[i].(woken := true) else live[i]
  {
    if live == [] then []
    else [if live[0].waitingFor == Some(id) then live[0].(woken := true) else live[0]] + Woken(live[1..], id)
  }

  function Stored(buf: map<nat, byte>, pos: nat, b: byte): map<nat, byte> {
    buf[pos := b]
  }

  /** A step of the machine; `i` is a position in the list of requests. */
  datatype Action =
    | Begin(id: nat, job: Job)
    | Resume(i: nat)
    | ReadByte(i: nat, pos: nat)
    | Advance(i: nat)
    | Land(i: nat, pos: nat)
    | Finish(i: nat, ok: bool)

  /** The request at `i` is performing an operation. */
  predicate Running(s: State, i: nat) {
    && i < |s.live| && s.live[i].waitingFor.None?
    && Sane(s.live[i].job) && s.live[i].pc < |Program(s.live[i].job)|
    && |s.live[i].bufs| == |Program(s.live[i].job)|
  }

  function CurrentIo(s: State, i: nat): Io
    requires Running(s, i)
  {
    Program(s.live[i].job)[s.live[i].pc]
  }

  /** The current operation has transferred every byte. */
  ghost predicate IoDone(s: State, i: nat)
    requires Running(s, i)
  {
    var r, io := s.live[i], CurrentIo(s, i);
    forall pos: nat | io.lo <= pos < io.hi :: if io.write then pos in r.landed else pos in r.bufs[r.pc]
  }

  ghost predicate Enabled(s: State, a: Action) {
    match a
    case Begin(id, job) => id !in s.jobs && Sane(job)
    case Resume(i) => i < |s.live| && s.live[i].waitingFor.Some? && s.live[i].woken
    case ReadByte(i, pos) => Running(s, i) && !CurrentIo(s, i).write && CurrentIo(s, i).lo <= pos < CurrentIo(s, i).hi
    case Advance(i) => Running(s, i) && !CurrentIo(s, i).write && IoDone(s, i)
                       && s.live[i].pc + 1 < |Program(s.live[i].job)|
    case Land(i, pos) => Running(s, i) && CurrentIo(s, i).write && CurrentIo(s, i).lo <= pos < CurrentIo(s, i).hi
    case Finish(i, ok) => Running(s, i) && (ok ==> s.live[i].pc + 1 == |Program(s.live[i].job)| && IoDone(s, i))
  }

  ghost function Next(s: State, a: Action): State
    requires Enabled(s, a)
  {
    match a
    case Begin(id, job) =>
      var r := MarkedFor(Fresh(id, job), 0);
      Waited(s.(live := [r] + s.live,
                inFlight := s.inFlight + (if r.serialising then 1 else 0),
                jobs := s.jobs[id := job]), 0)
    case Resume(i) =>
      Waited(s.(live := s.live[i := s.live[i].(waitingFor := None, woken := false)]), i)
    case ReadByte(i, pos) =>
      var r := s.live[i];
      s.(live := s.live[i := r.(bufs := r.bufs[r.pc := Stored(r.bufs[r.pc], pos, s.disk(pos))])])
    case Advance(i) =>
      var r := s.live[i].(pc := s.live[i].pc + 1);
      var r' := MarkedFor(r, r.pc);
      var s' := s.(live := s.live[i := r'],
                   inFlight := s.inFlight + (if r'.serialising && !r.serialising then 1 else 0));
      if Program(r.job)[r.pc].waits then Waited(s', i) else s'
    case Land(i, pos) =>
      var r := s.live[i];
      var b := OutByte(r, pos);
      s.(live := s.live[i := r.(landed := r.landed + {pos})],
         disk := (p: nat) => if p == pos then b else s.disk(p),
         writer := (p: nat) => if p == pos && Requested(r.job, pos) then Some(r.id) else s.writer(p))
    case Finish(i, ok) =>
      var r := s.live[i];
      s.(live := Woken(Without(s.live, i), r.id),
         inFlight := s.inFlight - (if r.serialising then 1 else 0),
         ended := if ok then s.ended + {r.id} else s.ended)
  }

  // ---------------------------------------------------------------------
  // Invariants
  // ---------------------------------------------------------------------

  function CountSerialising(live: seq<Request>): nat {
    if live == [] then 0
    else (if live[0].serialising then 1 else 0) + CountSerialising(live[1..])
  }

  /** The request has no wait before it: it is past its wait. */
  predicate Past(r: Request) {
    r.waitingFor.None?
  }

  ghost predicate WellFormed(r: Request) {
    Sane(r.job) && Form(r) == Holds
  }

  ghost function Form(r: Request): Verdict
    requires Sane(r.job)
  {
    if InRange(r) && r.pc < |Program(r.job)| && |r.bufs| == |Program(r.job)| then Holds else Broken
  }

  /** The list is what the requests in it say: distinct, well-formed requests,
      counted correctly. */
  ghost predicate Tracked(s: State) {
    && (forall i | 0 <= i < |s.live| :: WellFormed(s.live[i]) && s.live[i].id in s.jobs
                                        && s.jobs[s.live[i].id] == s.live[i].job)
    && (forall i, j | 0 <= i < j < |s.live| :: s.live[i].id != s.live[j].id)
    && s.inFlight == CountSerialising(s.live)
    && (forall id | id in s.ended :: id in s.jobs)
    && (forall i | 0 <= i < |s.live| && s.live[i].waitingFor.Some? :: s.live[i].waitingFor.value in s.jobs)
  }

  /** No two requests past their wait conflict. */
  ghost predicate NoConflicts(live: seq<Request>) {
    forall i, j | 0 <= i < |live| && 0 <= j < |live| && i != j && Past(live[i]) && Past(live[j]) ::
      !Conflict(live[i], live[j])
  }

  /** A waiting request waits for the first time.  It waits for a request that is
      past its own wait; once it has been woken, that request has ended. */
  ghost predicate WaitsWell(live: seq<Request>, r: Request) {
    && r.pc == 0 && r.landed == {}
    && (if r.woken then forall j | 0 <= j < |live| :: r.waitingFor != Some(live[j].id)
        else exists j :: 0 <= j < |live| && r.waitingFor == Some(live[j].id) && Past(live[j]))
  }

  ghost predicate Serialised(s: State) {
    && NoConflicts(s.live)
    && (forall i | 0 <= i < |s.live| && s.live[i].waitingFor.Some? :: WaitsWell(s.live, s.live[i]))
  }

  lemma {:induction false} FirstBlockerMeaning(live: seq<Request>, self: Request)
    ensures var b := FirstBlocker(live, self);
            if b.None? then forall j | 0 <= j < |live| && Conflict(self, live[j]) :: !Past(live[j])
            else exists j :: 0 <= j < |live| && b == Some(live[j].id) && Past(live[j]) && Conflict(self, live[j])
  {
    if live != [] && !(Conflict(self, live[0]) && Past(live[0])) {
      FirstBlockerMeaning(live[1..], self);
      if FirstBlocker(live, self).None? {
        forall j | 0 <= j < |live| && Conflict(self, live[j])
          ensures !Past(live[j])
        {
          assert j > 0 ==> live[j] == live[1..][j - 1];
        }
      } else {
        var j :| 0 <= j < |live[1..]| && FirstBlocker(live, self) == Some(live[1..][j].id) && Past(live[1..][j])
                 && Conflict(self, live[1..][j]);
        assert live[j + 1] == live[1..][j];
      }
    }
  }

  lemma {:induction false} CountUpdate(live: seq<Request>, i: nat, r: Request)
    requires i < |live| && r.serialising == live[i].serialising
    ensures CountSerialising(live[i := r]) == CountSerialising(live)
  {
    if i > 0 {
      assert live[i := r][1..] == live[1..][i - 1 := r];
      CountUpdate(live[1..], i - 1, r);
    }
  }

  lemma {:induction false} CountZero(live: seq<Request>, i: nat)
    requires CountSerialising(live) == 0 && i < |live|
    ensures !live[i].serialising
  {
    if i > 0 {
      CountZero(live[1..], i - 1);
    }
  }

  lemma {:induction false} CountRemove(live: seq<Request>, i: nat)
    requires i < |live|
    ensures CountSerialising(live) == CountSerialising(live[..i] + live[i + 1..]) +
            (if live[i].serialising then 1 else 0)
  {
    if i == 0 {
      assert live[..0] + live[1..] == live[1..];
    } else {
      CountRemove(live[1..], i - 1);
      assert (live[..i] + live[i + 1..])[1..] == live[1..][..i - 1] + live[1..][i..];
    }
  }

  lemma {:induction false} CountWoken(live: seq<Request>, id: nat)
    ensures CountSerialising(Woken(live, id)) == CountSerialising(live)
  {
    if live != [] {
      CountWoken(live[1..], id);
      assert Woken(live, id)[1..] == Woken(live[1..], id);
    }
  }

  /** The ranges of two requests have a byte in common. */
  ghost predicate ShareByte(job: Job, job': Job)
    requires Sane(job) && Sane(job')
  {
    exists pos: nat :: InJob(job, pos) && InJob(job', pos)
  }

  predicate InJob(job: Job, pos: nat)
    requires Sane(job)
  {
    Lo(job) <= pos < Hi(job)
  }

  /** Two requests conflict exactly if one of them serialises and their ranges have a byte
      in common, provided that the ranges are not empty. */
  lemma ConflictMeaning(r: Request, q: Request)
    requires WellFormed(r) && WellFormed(q) && r.id != q.id && Lo(r.job) < Hi(r.job) && Lo(q.job) < Hi(q.job)
    ensures Conflict(r, q) <==> (Serialises(r.job) || Serialises(q.job)) && ShareByte(r.job, q.job)
  {
    if Overlaps(q, r) {
      var pos := if Lo(r.job) < Lo(q.job) then Lo(q.job) else Lo(r.job);
      assert InJob(r.job, pos) && InJob(q.job, pos);
    }
  }

  /** A request waits only for one that it conflicts with, and only if there is such a
      request that does not wait itself. */
  lemma WaitsForReason(s: State, i: nat)
    requires i < |s.live| && Tracked(s) && Past(s.live[i])
    ensures !Past(Waited(s, i).live[i]) <==>
            exists j :: 0 <= j < |s.live| && Past(s.live[j]) && Conflict(s.live[i], s.live[j])
    ensures !Past(Waited(s, i).live[i]) ==>
              exists j :: 0 <= j < |s.live| && Past(s.live[j]) && Conflict(s.live[i], s.live[j])
                          && Waited(s, i).live[i].waitingFor == Some(s.live[j].id)
  {
    FirstBlockerMeaning(s.live, s.live[i]);
    if s.inFlight == 0 {
      forall j | 0 <= j < |s.live|
        ensures !Conflict(s.live[i], s.live[j])
      {
        CountZero(s.live, i);
        CountZero(s.live, j);
      }
    }
  }

  /** Everything but request `i`, which is about to look for blockers, is
      serialised. */
  ghost predicate SerialisedBut(s: State, i: nat)
    requires i < |s.live|
  {
    && (forall a, b | 0 <= a < |s.live| && 0 <= b < |s.live| && a != b && a != i && b != i && Past(s.live[a])
        && Past(s.live[b]) ::
          !Conflict(s.live[a], s.live[b]))
    && (forall j | 0 <= j < |s.live| && s.live[j].waitingFor.Some? ::
          && s.live[j].pc == 0 && s.live[j].landed == {}
          && (if s.live[j].woken then forall b | 0 <= b < |s.live| :: s.live[j].waitingFor != Some(s.live[b].id)
              else exists b :: 0 <= b < |s.live| && b != i && s.live[j].waitingFor == Some(s.live[b].id)
                               && Past(s.live[b])))
    && Past(s.live[i]) && s.live[i].pc == 0 && s.live[i].landed == {}
  }

  lemma ConflictSymmetric(r: Request, q: Request)
    ensures Conflict(r, q) == Conflict(q, r)
  {
  }

  lemma WaitedNoConflicts(s: State, i: nat)
    requires i < |s.live| && Tracked(s) && SerialisedBut(s, i)
    ensures NoConflicts(Waited(s, i).live)
  {
    var s' := Waited(s, i);
    FirstBlockerMeaning(s.live, s.live[i]);
    if Past(s'.live[i]) {
      assert s' == s;
      forall j | 0 <= j < |s.live| && j != i && Past(s.live[j])
        ensures !Conflict(s.live[i], s.live[j]) && !Conflict(s.live[j], s.live[i])
      {
        if s.inFlight == 0 {
          CountZero(s.live, i);
          CountZero(s.live, j);
        }
        ConflictSymmetric(s.live[i], s.live[j]);
      }
    }
  }

  lemma WaitedWaitsWell(s: State, i: nat, j: nat)
    requires i < |s.live| && j < |s.live| && SerialisedBut(s, i)
    requires Waited(s, i).live[j].waitingFor.Some?
    ensures WaitsWell(Waited(s, i).live, Waited(s, i).live[j])
  {
    var s' := Waited(s, i);
    if j == i {
      FirstBlockerMeaning(s.live, s.live[i]);
      var b :| 0 <= b < |s.live| && s'.live[i].waitingFor == Some(s.live[b].id) && Past(s.live[b])
               && Conflict(s.live[i], s.live[b]);
      assert s'.live[b] == s.live[b];
    } else if !s.live[j].woken {
      var b :| 0 <= b < |s.live| && b != i && s.live[j].waitingFor == Some(s.live[b].id) && Past(s.live[b]);
      assert s'.live[b] == s.live[b];
    }
  }

  /** Looking for blockers makes the whole machine serialised. */
  lemma WaitedSerialised(s: State, i: nat)
    requires i < |s.live| && Tracked(s) && SerialisedBut(s, i)
    ensures Tracked(Waited(s, i)) && Serialised(Waited(s, i))
  {
    var s' := Waited(s, i);
    CountUpdate(s.live, i, s'.live[i]);
    WaitedNoConflicts(s, i);
    forall j | 0 <= j < |s'.live| && s'.live[j].waitingFor.Some?
      ensures WaitsWell(s'.live, s'.live[j])
    {
      WaitedWaitsWell(s, i, j);
    }
  }

  /** A request past its wait never waits again: neither before the read of its
      tail nor before its final write. */
  lemma NeverWaitsAgain(s: State, i: nat)
    requires i < |s.live| && Serialised(s) && Past(s.live[i])
    ensures Waited(s, i) == s
  {
    FirstBlockerMeaning(s.live, s.live[i]);
  }

  // ---------------------------------------------------------------------
  // Every step keeps the machine serialised
  // ---------------------------------------------------------------------

  /** The state of `Begin` just before the new request looks for blockers. */
  ghost function Begun(s: State, id: nat, job: Job): State
    requires Sane(job)
  {
    var r := MarkedFor(Fresh(id, job), 0);
    s.(live := [r] + s.live,
       inFlight := s.inFlight + (if r.serialising then 1 else 0),
       jobs := s.jobs[id := job])
  }

  lemma BegunTracked(s: State, id: nat, job: Job)
    requires Tracked(s) && id !in s.jobs && Sane(job)
    ensures Tracked(Begun(s, id, job))
  {
    FreshInRange(id, job);
    var s1 := Begun(s, id, job);
    assert s1.live[1..] == s.live;
    assert WellFormed(s1.live[0]);
  }

  lemma BegunSerialisedBut(s: State, id: nat, job: Job)
    requires Serialised(s) && Sane(job) && id !in s.jobs
    requires forall i | 0 <= i < |s.live| && s.live[i].waitingFor.Some? :: s.live[i].waitingFor.value in s.jobs
    ensures SerialisedBut(Begun(s, id, job), 0)
  {
    var s1 := Begun(s, id, job);
    assert forall j | 0 < j < |s1.live| :: s1.live[j] == s.live[j - 1];
    forall j | 0 <= j < |s1.live| && s1.live[j].waitingFor.Some?
      ensures s1.live[j].pc == 0 && s1.live[j].landed == {}
      ensures if s1.live[j].woken then forall b | 0 <= b < |s1.live| :: s1.live[j].waitingFor != Some(s1.live[b].id)
              else exists b :: 0 <= b < |s1.live| && b != 0 && s1.live[j].waitingFor == Some(s1.live[b].id)
                               && Past(s1.live[b])
    {
      assert WaitsWell(s.live, s.live[j - 1]);
      if !s1.live[j].woken {
        var b :| 0 <= b < |s.live| && s.live[j - 1].waitingFor == Some(s.live[b].id) && Past(s.live[b]);
        assert s1.live[b + 1] == s.live[b];
      }
    }
  }

  lemma BeginSerialised(s: State, id: nat, job: Job)
    requires Tracked(s) && Serialised(s) && Enabled(s, Begin(id, job))
    ensures Tracked(Next(s, Begin(id, job))) && Serialised(Next(s, Begin(id, job)))
  {
    BegunTracked(s, id, job);
    BegunSerialisedBut(s, id, job);
    WaitedSerialised(Begun(s, id, job), 0);
  }

  /** The state of `Resume` just before the request looks for blockers again. */
  ghost function Resumed(s: State, i: nat): State
    requires i < |s.live|
  {
    s.(live := s.live[i := s.live[i].(waitingFor := None, woken := false)])
  }

  lemma ResumedTracked(s: State, i: nat)
    requires Tracked(s) && i < |s.live|
    ensures Tracked(Resumed(s, i))
  {
    var r := s.live[i].(waitingFor := None, woken := false);
    CountUpdate(s.live, i, r);
    assert WellFormed(s.live[i]);
    assert WellFormed(r);
  }

  lemma ResumedWaits(s: State, i: nat, j: nat)
    requires Serialised(s) && i < |s.live| && s.live[i].waitingFor.Some?
    requires j < |s.live| && j != i && s.live[j].waitingFor.Some?
    ensures var live := Resumed(s, i).live;
            if live[j].woken then forall b | 0 <= b < |live| :: live[j].waitingFor != Some(live[b].id)
            else exists b :: 0 <= b < |live| && b != i && live[j].waitingFor == Some(live[b].id) && Past(live[b])
  {
    var live := Resumed(s, i).live;
    assert WaitsWell(s.live, s.live[j]);
    if !s.live[j].woken {
      var b :| 0 <= b < |s.live| && s.live[j].waitingFor == Some(s.live[b].id) && Past(s.live[b]);
      assert live[b] == s.live[b];
    }
  }

  lemma ResumedSerialisedBut(s: State, i: nat)
    requires Serialised(s) && i < |s.live| && s.live[i].waitingFor.Some?
    ensures SerialisedBut(Resumed(s, i), i)
  {
    var s1 := Resumed(s, i);
    assert WaitsWell(s.live, s.live[i]);
    forall j | 0 <= j < |s1.live| && s1.live[j].waitingFor.Some?
      ensures s1.live[j].pc == 0 && s1.live[j].landed == {}
      ensures if s1.live[j].woken then forall b | 0 <= b < |s1.live| :: s1.live[j].waitingFor != Some(s1.live[b].id)
              else exists b :: 0 <= b < |s1.live| && b != i && s1.live[j].waitingFor == Some(s1.live[b].id)
                               && Past(s1.live[b])
    {
      assert WaitsWell(s.live, s.live[j]);
      ResumedWaits(s, i, j);
    }
  }

  lemma ResumeSerialised(s: State, i: nat)
    requires Tracked(s) && Serialised(s) && Enabled(s, Resume(i))
    ensures Tracked(Next(s, Resume(i))) && Serialised(Next(s, Resume(i)))
  {
    ResumedTracked(s, i);
    ResumedSerialisedBut(s, i);
    WaitedSerialised(Resumed(s, i), i);
  }

  /** What the other requests see of a request. */
  predicate Alike(r: Request, q: Request) {
    && r.id == q.id && r.serialising == q.serialising && r.waitingFor == q.waitingFor
    && r.overlapOffset == q.overlapOffset && r.overlapBytes == q.overlapBytes
  }

  /** Changing the progress of a running request. */
  lemma ProgressSerialised(live: seq<Request>, i: nat, r: Request, live': seq<Request>)
    requires i < |live| && Past(live[i]) && Alike(live[i], r) && live' == live[i := r]
    requires NoConflicts(live)
    requires forall j | 0 <= j < |live| && live[j].waitingFor.Some? :: WaitsWell(live, live[j])
    ensures NoConflicts(live')
    ensures forall j | 0 <= j < |live'| && live'[j].waitingFor.Some? :: WaitsWell(live', live'[j])
    ensures CountSerialising(live') == CountSerialising(live)
  {
    CountUpdate(live, i, r);
    forall a, b | 0 <= a < |live'| && 0 <= b < |live'| && a != b && Past(live'[a]) && Past(live'[b])
      ensures !Conflict(live'[a], live'[b])
    {
      assert !Conflict(live[a], live[b]);
    }
    forall j | 0 <= j < |live'| && live'[j].waitingFor.Some?
      ensures WaitsWell(live', live'[j])
    {
      assert WaitsWell(live, live[j]);
      if !live[j].woken {
        var b :| 0 <= b < |live| && live[j].waitingFor == Some(live[b].id) && Past(live[b]);
        assert live'[b].id == live[b].id && Past(live'[b]);
      }
    }
  }

  lemma ProgressKeeps(s: State, s': State, i: nat, r: Request)
    requires Tracked(s) && Serialised(s) && i < |s.live| && Past(s.live[i])
    requires s'.live == s.live[i := r] && s'.jobs == s.jobs && s'.ended == s.ended && s'.inFlight == s.inFlight
    requires Alike(s.live[i], r) && r.job == s.live[i].job && r.pc < |Program(r.job)| && |r.bufs| == |Program(r.job)|
    ensures Tracked(s') && Serialised(s')
  {
    ProgressSerialised(s.live, i, r, s'.live);
    assert WellFormed(s.live[i]);
    assert WellFormed(s'.live[i]);
  }

  /** A request that goes on: marking it once more changes nothing, and it finds no
      blocker. */
  lemma GoesOn(s: State, i: nat, r: Request, s1: State)
    requires Tracked(s) && Serialised(s) && Enabled(s, Advance(i))
    requires r == s.live[i].(pc := s.live[i].pc + 1) && s1 == s.(live := s.live[i := r])
    ensures MarkedFor(r, r.pc) == r && (Program(r.job)[r.pc].mark > 0 ==> r.serialising)
    ensures FirstBlocker(s1.live, r).None? && r.waitingFor.None?
    ensures Next(s, Advance(i)) == s1
  {
    AdvanceSerialised(s, i);
    MarkingAgain(r, r.pc);
    FirstBlockerMeaning(s1.live, s1.live[i]);
  }

  lemma AdvanceSerialised(s: State, i: nat)
    requires Tracked(s) && Serialised(s) && Enabled(s, Advance(i))
    ensures Next(s, Advance(i)) == s.(live := s.live[i := s.live[i].(pc := s.live[i].pc + 1)])
    ensures Tracked(Next(s, Advance(i))) && Serialised(Next(s, Advance(i)))
  {
    var r := s.live[i].(pc := s.live[i].pc + 1);
    MarkingAgain(r, r.pc);
    var s1 := s.(live := s.live[i := r]);
    ProgressKeeps(s, s1, i, r);
    NeverWaitsAgain(s1, i);
  }

  /** The position in a list of the `j`-th element that is not at `i`. */
  function Skip(i: nat, j: nat): nat {
    if j < i then j else j + 1
  }

  function Without(live: seq<Request>, i: nat): (rest: seq<Request>)
    requires i < |live|
    ensures |rest| == |live| - 1
    ensures forall j | 0 <= j < |rest| :: rest[j] == live[Skip(i, j)]
  {
    live[..i] + live[i + 1..]
  }

  /** `live'` is `live` without request `i`, whose waiters have been woken. */
  ghost predicate Removed(live: seq<Request>, i: nat, live': seq<Request>) {
    && i < |live| && |live'| == |live| - 1
    && (forall j | 0 <= j < |live'| ::
          live'[j] == if live[Skip(i, j)].waitingFor == Some(live[i].id) then live[Skip(i, j)].(woken := true)
          else live[Skip(i, j)])
  }

  /** A waiter of the request that ends is woken, the others keep their target. */
  lemma FinishWaitsWell(live: seq<Request>, i: nat, live': seq<Request>, j: nat)
    requires Removed(live, i, live') && j < |live'| && live'[j].waitingFor.Some?
    requires forall a, b | 0 <= a < b < |live| :: live[a].id != live[b].id
    requires forall a | 0 <= a < |live| && live[a].waitingFor.Some? :: WaitsWell(live, live[a])
    ensures WaitsWell(live', live'[j])
  {
    var r := live[Skip(i, j)];
    assert WaitsWell(live, r);
    if !live'[j].woken {
      var b :| 0 <= b < |live| && r.waitingFor == Some(live[b].id) && Past(live[b]);
      var b' := if b < i then b else b - 1;
      assert Skip(i, b') == b;
      assert live'[b'] == live[b];
    }
  }

  lemma FinishNoConflicts(live: seq<Request>, i: nat, live': seq<Request>)
    requires Removed(live, i, live') && NoConflicts(live)
    ensures NoConflicts(live')
  {
    forall a, b | 0 <= a < |live'| && 0 <= b < |live'| && a != b && Past(live'[a]) && Past(live'[b])
      ensures !Conflict(live'[a], live'[b])
    {
      assert !Conflict(live[Skip(i, a)], live[Skip(i, b)]);
    }
  }

  lemma RemovedDistinct(live: seq<Request>, i: nat, live': seq<Request>)
    requires Removed(live, i, live')
    requires forall a, b | 0 <= a < b < |live| :: live[a].id != live[b].id
    ensures forall a, b | 0 <= a < b < |live'| :: live'[a].id != live'[b].id
  {
    assert forall a | 0 <= a < |live'| :: live'[a].id == live[Skip(i, a)].id;
    assert forall a, b | 0 <= a < b < |live'| :: Skip(i, a) < Skip(i, b);
  }

  lemma WokenWellFormed(r: Request)
    requires WellFormed(r)
    ensures WellFormed(r.(woken := true))
  {
  }

  lemma FinishTracked(s: State, i: nat, ok: bool, s': State)
    requires Tracked(s) && Enabled(s, Finish(i, ok)) && s' == Next(s, Finish(i, ok))
    requires Removed(s.live, i, s'.live)
    ensures Tracked(s')
  {
    CountRemove(s.live, i);
    CountWoken(Without(s.live, i), s.live[i].id);
    forall j | 0 <= j < |s'.live|
      ensures WellFormed(s'.live[j]) && s'.live[j].id in s'.jobs && s'.jobs[s'.live[j].id] == s'.live[j].job
    {
      WokenWellFormed(s.live[Skip(i, j)]);
    }
    RemovedDistinct(s.live, i, s'.live);
  }

  lemma FinishSerialised(s: State, i: nat, ok: bool)
    requires Tracked(s) && Serialised(s) && Enabled(s, Finish(i, ok))
    ensures Tracked(Next(s, Finish(i, ok))) && Serialised(Next(s, Finish(i, ok)))
  {
    var s' := Next(s, Finish(i, ok));
    assert Removed(s.live, i, s'.live);
    FinishTracked(s, i, ok, s');
    FinishNoConflicts(s.live, i, s'.live);
    forall j | 0 <= j < |s'.live| && s'.live[j].waitingFor.Some?
      ensures WaitsWell(s'.live, s'.live[j])
    {
      FinishWaitsWell(s.live, i, s'.live, j);
    }
  }
}
