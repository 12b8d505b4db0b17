/** What is called, and what that says about bottom halves that were pending and handlers
    that were ready: each is called, unless it is taken back, changed or removed first,
    whatever the callbacks of others do. */
module AioCalls {
  import opened Common
  import opened EventLoop

  /** A callback is called: of a bottom half, of a handler, or of a timer; or a read
      callback returns, of the handler of the notifier or of another one.  Or the handler
      of a file descriptor is changed or removed, or a bottom half cancelled or deleted. */
  datatype Event =
    | CallBh(bh: nat, idle: bool)
    | CallRead(handler: nat)
    | ReadDone(handler: nat, notifier: bool)
    | CallWrite(handler: nat)
    | CallTimer
    | Changed(handler: nat)
    | TakenBack(bh: nat)

  /** With the number of callbacks that are being executed around it. */
  datatype Entry = Entry(depth: nat, what: Event)

  /** What counts as progress: of bottom halves, and of handlers and timers. */
  datatype Progress = Progress(bhs: bool, others: bool) {
    predicate Any() {
      bhs || others
    }

    function Plus(p: Progress): Progress {
      Progress(bhs || p.bhs, others || p.others)
    }
  }

  const NO_PROGRESS := Progress(false, false)

  function Worth(ev: Event): Progress {
    match ev
    case CallBh(_, idle) => Progress(!idle, false)
    case ReadDone(_, notifier) => Progress(false, !notifier)
    case CallWrite(_) => Progress(false, true)
    case CallTimer => Progress(false, true)
    case _ => NO_PROGRESS
  }

  /** A live handler has something to read, or can write. */
  predicate Readable(h: AioHandler) {
    !h.deleted && h.read && h.revents * h.events * {In, Hup, Err} != {}
  }

  predicate Writable(h: AioHandler) {
    !h.deleted && h.write && h.revents * h.events * {Out, Err} != {}
  }

  /** A bottom half is to be called. */
  predicate Waiting(bh: QEMUBH) {
    bh.scheduled && !bh.deleted
  }

  /** Handlers and bottom halves at one moment, and what has happened so far. */
  datatype Ears = Ears(handlers: map<nat, AioHandler>, bhs: map<nat, QEMUBH>, depth: nat, events: seq<Entry>)

  // ---------------------------------------------------------------------
  // What has happened since
  // ---------------------------------------------------------------------

  ghost predicate Since(e: Ears, e': Ears, ev: Event) {
    exists k :: |e.events| <= k < |e'.events| && e'.events[k].what == ev
  }

  lemma SinceAppended(e: Ears, e': Ears, entry: Entry)
    requires e.events + [entry] <= e'.events
    ensures Since(e, e', entry.what)
  {
    assert e'.events[|e.events|] == (e.events + [entry])[|e.events|] == entry;
  }

  /** A longer stretch of time holds what a shorter one holds. */
  lemma SinceWider(e: Ears, e1: Ears, e2: Ears, e': Ears, ev: Event)
    requires e.events <= e1.events && e2.events <= e'.events && Since(e1, e2, ev)
    ensures Since(e, e', ev)
  {
    var k :| |e1.events| <= k < |e2.events| && e2.events[k].what == ev;
    assert e'.events[k].what == ev;
  }

  lemma SinceEither(e: Ears, e': Ears, e'': Ears)
    requires e.events <= e'.events <= e''.events
    ensures forall ev | Since(e, e', ev) || Since(e', e'', ev) :: Since(e, e'', ev)
  {
    forall ev | Since(e, e', ev) || Since(e', e'', ev)
      ensures Since(e, e'', ev)
    {
      if Since(e, e', ev) {
        SinceWider(e, e, e', e'', ev);
      } else {
        SinceWider(e, e', e'', e'', ev);
      }
    }
  }

  /** Whatever happened since happened inside this stretch of the program. */
  ghost predicate Within(e: Ears, e': Ears, d: nat) {
    e.events <= e'.events && forall k | |e.events| <= k < |e'.events| :: e'.events[k].depth >= d
  }

  /** Something has happened since, other than in callbacks. */
  ghost predicate Here(e: Ears, e': Ears, k: int) {
    |e.events| <= k < |e'.events| && e'.events[k].depth == e.depth
  }

  ghost predicate HereSince(e: Ears, e': Ears, ev: Event) {
    exists k :: Here(e, e', k) && e'.events[k].what == ev
  }

  /** What that was worth. */
  ghost function Gain(e: Ears, e': Ears): Progress {
    Progress(exists k :: Here(e, e', k) && Worth(e'.events[k].what).bhs,
             exists k :: Here(e, e', k) && Worth(e'.events[k].what).others)
  }

  lemma HereEither(e: Ears, e': Ears, e'': Ears, k: int)
    requires e.depth == e'.depth && e.events <= e'.events <= e''.events
    ensures Here(e, e'', k) <==> Here(e, e', k) || Here(e', e'', k)
    ensures Here(e, e', k) ==> e''.events[k] == e'.events[k]
  {
  }

  lemma GainPlus(e: Ears, e': Ears, e'': Ears)
    requires e.depth == e'.depth && e.events <= e'.events <= e''.events
    ensures Gain(e, e'') == Gain(e, e').Plus(Gain(e', e''))
  {
    forall k: int
      ensures Here(e, e'', k) <==> Here(e, e', k) || Here(e', e'', k)
      ensures Here(e, e', k) ==> e''.events[k] == e'.events[k]
    {
      HereEither(e, e', e'', k);
    }
  }

  lemma HereSinceEither(e: Ears, e': Ears, e'': Ears, ev: Event)
    requires e.depth == e'.depth && e.events <= e'.events <= e''.events
    ensures HereSince(e, e'', ev) <==> HereSince(e, e', ev) || HereSince(e', e'', ev)
  {
    forall k: int
      ensures Here(e, e'', k) <==> Here(e, e', k) || Here(e', e'', k)
      ensures Here(e, e', k) ==> e''.events[k] == e'.events[k]
    {
      HereEither(e, e', e'', k);
    }
  }

  /** One event, and then only what happens inside a callback. */
  lemma GainOne(e: Ears, e': Ears, e'': Ears, ev: Event)
    requires e'.events == e.events + [Entry(e.depth, ev)] && Within(e', e'', e.depth + 1)
    ensures Gain(e, e'') == Worth(ev) && forall x :: HereSince(e, e'', x) <==> x == ev
  {
    assert e''.events[|e.events|] == e'.events[|e.events|] == Entry(e.depth, ev);
    assert Here(e, e'', |e.events|);
    forall k | |e.events| < k < |e''.events|
      ensures e''.events[k].depth != e.depth
    {
      assert |e'.events| <= k;
    }
  }

  // ---------------------------------------------------------------------
  // What is kept by any activity
  // ---------------------------------------------------------------------

  /** A live handler is still there with the settings it had. */
  predicate SameSettings(h: AioHandler, h': AioHandler) {
    !h'.deleted && h'.fd == h.fd && h'.read == h.read && h'.write == h.write && h'.events == h.events
  }

  /** A live handler was changed since, or is still there, and still ready for what it
      was ready for unless it was called for it. */
  ghost function HeedsVerdict(e: Ears, e': Ears, id: nat): Verdict
    requires id in e.handlers
  {
    var h := e.handlers[id];
    if
      || h.deleted || Since(e, e', Changed(id))
      || (&& id in e'.handlers && SameSettings(h, e'.handlers[id])
          && (Readable(h) ==> Readable(e'.handlers[id]) || Since(e, e', CallRead(id)))
          && (Writable(h) ==> Writable(e'.handlers[id]) || Since(e, e', CallWrite(id))))
    then Holds else Broken
  }

  ghost predicate HeedsOne(e: Ears, e': Ears, id: nat)
    requires id in e.handlers
  {
    HeedsVerdict(e, e', id) == Holds
  }

  ghost predicate CalledOrTaken(e: Ears, e': Ears, id: nat) {
    Since(e, e', CallBh(id, false)) || Since(e, e', CallBh(id, true)) || Since(e, e', TakenBack(id))
  }

  /** A bottom half that was pending still is, or was called or taken back since. */
  ghost function BhVerdict(e: Ears, e': Ears, id: nat): Verdict
    requires id in e.bhs
  {
    if !Waiting(e.bhs[id]) || (id in e'.bhs && Waiting(e'.bhs[id])) || CalledOrTaken(e, e', id) then Holds else Broken
  }

  ghost predicate HeedsBh(e: Ears, e': Ears, id: nat)
    requires id in e.bhs
  {
    BhVerdict(e, e', id) == Holds
  }

  ghost predicate Heeds(e: Ears, e': Ears) {
    && e'.depth == e.depth && Within(e, e', e.depth)
    && (forall id {:trigger HeedsOne(e, e', id)} | id in e.handlers :: HeedsOne(e, e', id))
    && (forall id {:trigger HeedsBh(e, e', id)} | id in e.bhs :: HeedsBh(e, e', id))
  }

  /** Handlers and bottom halves that were to be called still are. */
  lemma HeedsStay(e: Ears, e': Ears)
    requires e'.depth == e.depth && Within(e, e', e.depth)
    requires forall x | x in e.handlers && !e.handlers[x].deleted :: x in e'.handlers && e'.handlers[x] == e.handlers[x]
    requires forall x | x in e.bhs && Waiting(e.bhs[x]) :: x in e'.bhs && Waiting(e'.bhs[x])
    ensures Heeds(e, e')
  {
  }

  lemma HeedsNothing(e: Ears)
    ensures Heeds(e, e) && Gain(e, e) == NO_PROGRESS
  {
  }

  lemma HeedsTransitive(e: Ears, e': Ears, e'': Ears)
    requires Heeds(e, e') && Heeds(e', e'')
    ensures Heeds(e, e'')
    ensures Gain(e, e'') == Gain(e, e').Plus(Gain(e', e''))
  {
    SinceEither(e, e', e'');
    GainPlus(e, e', e'');
    forall id | id in e.handlers
      ensures HeedsOne(e, e'', id)
    {
      assert HeedsOne(e, e', id);
      assert id in e'.handlers ==> HeedsOne(e', e'', id);
    }
    forall id | id in e.bhs
      ensures HeedsBh(e, e'', id)
    {
      assert HeedsBh(e, e', id);
      assert id in e'.bhs ==> HeedsBh(e', e'', id);
    }
  }

  /** A handler is changed or removed, and that is recorded. */
  lemma HeedsChange(e: Ears, e': Ears, id: nat)
    requires e'.events == e.events + [Entry(e.depth, Changed(id))] && e'.depth == e.depth && e'.bhs == e.bhs
    requires forall x | x in e.handlers && x != id :: x in e'.handlers && e'.handlers[x] == e.handlers[x]
    ensures Heeds(e, e')
  {
    SinceAppended(e, e', Entry(e.depth, Changed(id)));
  }

  /** A bottom half is cancelled or deleted, and that is recorded. */
  lemma HeedsTake(e: Ears, e': Ears, id: nat)
    requires e'.events == e.events + [Entry(e.depth, TakenBack(id))] && e'.depth == e.depth && e'.handlers == e.handlers
    requires forall x | x in e.bhs && x != id :: x in e'.bhs && e'.bhs[x] == e.bhs[x]
    ensures Heeds(e, e')
  {
    SinceAppended(e, e', Entry(e.depth, TakenBack(id)));
  }

  /** A callback is called and does what it does. */
  lemma HeedsCall(e: Ears, e1: Ears, e2: Ears, e': Ears, ev: Event)
    requires e1 == e.(events := e.events + [Entry(e.depth, ev)])
    requires Heeds(e1.(depth := e.depth + 1), e2) && e' == e2.(depth := e.depth)
    ensures Heeds(e, e') && e.events + [Entry(e.depth, ev)] <= e'.events
    ensures Gain(e, e') == Worth(ev) && forall x :: HereSince(e, e', x) <==> x == ev
  {
    var e1' := e1.(depth := e.depth + 1);
    GainOne(e, e1, e', ev);
    assert forall x :: Since(e1', e2, x) ==> Since(e, e', x) by {
      forall x | Since(e1', e2, x)
        ensures Since(e, e', x)
      {
        SinceWider(e, e1', e2, e', x);
      }
    }
    forall id | id in e.handlers
      ensures HeedsOne(e, e', id)
    {
      assert HeedsOne(e1', e2, id);
    }
    forall id | id in e.bhs
      ensures HeedsBh(e, e', id)
    {
      assert HeedsBh(e1', e2, id);
    }
  }

  // ---------------------------------------------------------------------
  // Visits
  // ---------------------------------------------------------------------

  /** A handler that was ready was called for it since, or changed. */
  ghost predicate Heard(e: Ears, e': Ears, id: nat)
    requires id in e.handlers
  {
    && (Readable(e.handlers[id]) ==> Since(e, e', CallRead(id)) || Since(e, e', Changed(id)))
    && (Writable(e.handlers[id]) ==> Since(e, e', CallWrite(id)) || Since(e, e', Changed(id)))
  }

  /** A bottom half that was pending was called since, or taken back. */
  ghost predicate BhHeard(e: Ears, e': Ears, id: nat)
    requires id in e.bhs
  {
    Waiting(e.bhs[id]) ==> CalledOrTaken(e, e', id)
  }

  ghost predicate AllHeard(e: Ears, e': Ears) {
    forall id {:trigger Heard(e, e', id)} | id in e.handlers :: Heard(e, e', id)
  }

  ghost predicate AllBhsHeard(e: Ears, e': Ears) {
    forall id {:trigger BhHeard(e, e', id)} | id in e.bhs :: BhHeard(e, e', id)
  }

  /** What was heard stays heard. */
  lemma HeardLater(e: Ears, e': Ears, e'': Ears)
    requires e.events <= e'.events <= e''.events
    ensures forall id {:trigger Heard(e, e'', id)} | id in e.handlers && Heard(e, e', id) :: Heard(e, e'', id)
    ensures forall id {:trigger BhHeard(e, e'', id)} | id in e.bhs && BhHeard(e, e', id) :: BhHeard(e, e'', id)
  {
    SinceEither(e, e', e'');
  }

  /** A handler that is heard now was heard since any earlier moment. */
  lemma HeardSince(e: Ears, e': Ears, e'': Ears, id: nat)
    requires id in e.handlers && Heeds(e, e') && e'.events <= e''.events
    requires id in e'.handlers ==> Heard(e', e'', id)
    ensures Heard(e, e'', id)
  {
    assert HeedsOne(e, e', id);
    SinceEither(e, e', e'');
  }

  lemma BhHeardSince(e: Ears, e': Ears, e'': Ears, id: nat)
    requires id in e.bhs && Heeds(e, e') && e'.events <= e''.events
    requires id in e'.bhs ==> BhHeard(e', e'', id)
    ensures BhHeard(e, e'', id)
  {
    assert HeedsBh(e, e', id);
    SinceEither(e, e', e'');
  }

  /** A visit to a bottom half: it is not pending any more (`e1`) when it is called. */
  lemma HeedsVisitBh(e: Ears, e1: Ears, e2: Ears, id: nat)
    requires id in e.bhs && e1 == e.(bhs := e.bhs[id := e.bhs[id].(scheduled := false, idle := false)])
    requires Heeds(e1, e2) && e1.events + [Entry(e.depth, CallBh(id, e.bhs[id].idle))] <= e2.events
    ensures Heeds(e, e2) && BhHeard(e, e2, id) && Gain(e, e2) == Gain(e1, e2)
  {
    SinceAppended(e1, e2, Entry(e.depth, CallBh(id, e.bhs[id].idle)));
    assert forall ev :: Since(e, e2, ev) == Since(e1, e2, ev);
    forall x | x in e.handlers
      ensures HeedsOne(e, e2, x)
    {
      assert HeedsOne(e1, e2, x);
    }
    forall x | x in e.bhs
      ensures HeedsBh(e, e2, x)
    {
      assert HeedsBh(e1, e2, x);
    }
  }

  /** A visit to a handler: what it was ready for is taken (`e1`), the read callback is
      called if it was ready to read (`e2`), and the write callback if it was ready to
      write and was not changed in between. */
  lemma HeedsVisit(e: Ears, e1: Ears, e2: Ears, e3: Ears, id: nat)
    requires id in e.handlers && e1 == e.(handlers := e.handlers[id := e.handlers[id].(revents := {})])
    requires Heeds(e1, e2) && Heeds(e2, e3) && id in e2.handlers
    requires Readable(e.handlers[id]) ==> Since(e1, e2, CallRead(id))
    requires Writable(e.handlers[id]) && !e2.handlers[id].deleted && e2.handlers[id].write ==>
               Since(e2, e3, CallWrite(id))
    ensures Heeds(e, e3) && Heard(e, e3, id)
    ensures Gain(e, e3) == Gain(e1, e2).Plus(Gain(e2, e3))
  {
    HeedsTransitive(e1, e2, e3);
    SinceEither(e1, e2, e3);
    assert HeedsOne(e1, e2, id);
    assert forall ev :: Since(e, e3, ev) == Since(e1, e3, ev);
    forall x | x in e.handlers
      ensures HeedsOne(e, e3, x)
    {
      assert x in e1.handlers && HeedsOne(e1, e3, x);
    }
    forall x | x in e.bhs
      ensures HeedsBh(e, e3, x)
    {
      assert HeedsBh(e1, e3, x);
    }
  }

  /** Waiting for events overwrites what handlers are ready for, which does no harm
      after all of them have been heard. */
  lemma HeedsWait(e: Ears, e1: Ears, e2: Ears)
    requires Heeds(e, e1) && AllHeard(e, e1) && e2 == e1.(handlers := e2.handlers)
    requires forall id | id in e1.handlers :: id in e2.handlers &&
               e2.handlers[id] == e1.handlers[id].(revents := e2.handlers[id].revents,
                                                   pollIdx := e2.handlers[id].pollIdx)
    ensures Heeds(e, e2) && AllHeard(e, e2)
  {
    assert forall ev :: Since(e, e2, ev) == Since(e, e1, ev);
    forall id | id in e.handlers
      ensures HeedsOne(e, e2, id) && Heard(e, e2, id)
    {
      assert HeedsOne(e, e1, id) && Heard(e, e1, id);
    }
    forall id | id in e.bhs
      ensures HeedsBh(e, e2, id)
    {
      assert HeedsBh(e, e1, id);
    }
  }

  // ---------------------------------------------------------------------
  // Walks
  // ---------------------------------------------------------------------

  /** The handlers of a list from position `k` on have been heard, and nothing was
      forgotten. */
  ghost function HearingVerdict(e: Ears, e': Ears, list: seq<nat>, k: nat): Verdict {
    if Heeds(e, e') && forall j {:trigger Heard(e, e', list[j])} | k <= j < |list| && list[j] in e.handlers ::
        Heard(e, e', list[j])
    then Holds else Broken
  }

  ghost predicate Hearing(e: Ears, e': Ears, list: seq<nat>, k: nat) {
    HearingVerdict(e, e', list, k) == Holds
  }

  lemma HearingStarts(e: Ears, list: seq<nat>)
    ensures Hearing(e, e, list, |list|)
  {
    HeedsNothing(e);
  }

  lemma OneMoreHeard(e: Ears, e': Ears, e'': Ears, list: seq<nat>, k: nat)
    requires 0 < k <= |list| && Hearing(e, e', list, k) && Heeds(e', e'')
    requires list[k - 1] in e'.handlers ==> Heard(e', e'', list[k - 1])
    ensures Hearing(e, e'', list, k - 1)
    ensures Gain(e, e'') == Gain(e, e').Plus(Gain(e', e''))
  {
    HeedsTransitive(e, e', e'');
    HeardLater(e, e', e'');
    forall j | k - 1 <= j < |list| && list[j] in e.handlers
      ensures Heard(e, e'', list[j])
    {
      if j == k - 1 {
        HeardSince(e, e', e'', list[j]);
      } else {
        assert Heard(e, e', list[j]);
      }
    }
  }

  lemma ListHeard(e: Ears, e': Ears, e'': Ears, list: seq<nat>)
    requires Hearing(e, e', list, 0) && Heeds(e', e'')
    requires forall id | id in e.handlers :: id in list
    ensures AllHeard(e, e'') && Heeds(e, e'')
    ensures Gain(e, e'') == Gain(e, e').Plus(Gain(e', e''))
  {
    HeedsTransitive(e, e', e'');
    HeardLater(e, e', e'');
    forall id | id in e.handlers
      ensures Heard(e, e'', id)
    {
      var j :| 0 <= j < |list| && list[j] == id;
      assert Heard(e, e', list[j]);
    }
  }

  /** The same for bottom halves. */
  ghost function BhHearingVerdict(e: Ears, e': Ears, list: seq<nat>, k: nat): Verdict {
    if Heeds(e, e') && forall j {:trigger BhHeard(e, e', list[j])} | k <= j < |list| && list[j] in e.bhs ::
        BhHeard(e, e', list[j])
    then Holds else Broken
  }

  ghost predicate BhHearing(e: Ears, e': Ears, list: seq<nat>, k: nat) {
    BhHearingVerdict(e, e', list, k) == Holds
  }

  lemma BhHearingStarts(e: Ears, list: seq<nat>)
    ensures BhHearing(e, e, list, |list|)
  {
    HeedsNothing(e);
  }

  lemma OneMoreBhHeard(e: Ears, e': Ears, e'': Ears, list: seq<nat>, k: nat)
    requires 0 < k <= |list| && BhHearing(e, e', list, k) && Heeds(e', e'')
    requires list[k - 1] in e'.bhs ==> BhHeard(e', e'', list[k - 1])
    ensures BhHearing(e, e'', list, k - 1)
    ensures Gain(e, e'') == Gain(e, e').Plus(Gain(e', e''))
  {
    HeedsTransitive(e, e', e'');
    HeardLater(e, e', e'');
    forall j | k - 1 <= j < |list| && list[j] in e.bhs
      ensures BhHeard(e, e'', list[j])
    {
      if j == k - 1 {
        BhHeardSince(e, e', e'', list[j]);
      } else {
        assert BhHeard(e, e', list[j]);
      }
    }
  }

  lemma ListBhsHeard(e: Ears, e': Ears, e'': Ears, list: seq<nat>)
    requires BhHearing(e, e', list, 0) && Heeds(e', e'')
    requires forall id | id in e.bhs :: id in list
    ensures AllBhsHeard(e, e'') && Heeds(e, e'')
    ensures Gain(e, e'') == Gain(e, e').Plus(Gain(e', e''))
  {
    HeedsTransitive(e, e', e'');
    HeardLater(e, e', e'');
    forall id | id in e.bhs
      ensures BhHeard(e, e'', id)
    {
      var j :| 0 <= j < |list| && list[j] == id;
      assert BhHeard(e, e', list[j]);
    }
  }

  /** What was heard in a later stretch of time was heard in a longer one, and what was
      heard in an earlier one too. */
  lemma AllHeardSince(e: Ears, e': Ears, e'': Ears)
    requires Heeds(e, e') && Heeds(e', e'') && AllHeard(e', e'')
    ensures AllHeard(e, e'')
  {
    forall id | id in e.handlers
      ensures Heard(e, e'', id)
    {
      assert id in e'.handlers ==> Heard(e', e'', id);
      HeardSince(e, e', e'', id);
    }
  }

  lemma AllHeardLater(e: Ears, e': Ears, e'': Ears)
    requires AllHeard(e, e') && e.events <= e'.events <= e''.events
    ensures AllHeard(e, e'')
  {
    HeardLater(e, e', e'');
    forall id | id in e.handlers
      ensures Heard(e, e'', id)
    {
      assert Heard(e, e', id);
    }
  }

  lemma AllBhsHeardLater(e: Ears, e': Ears, e'': Ears)
    requires AllBhsHeard(e, e') && e.events <= e'.events <= e''.events
    ensures AllBhsHeard(e, e'')
  {
    HeardLater(e, e', e'');
    forall id | id in e.bhs
      ensures BhHeard(e, e'', id)
    {
      assert BhHeard(e, e', id);
    }
  }
}
