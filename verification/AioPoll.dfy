/** An AioContext whose callbacks may do anything a callback can do: add, schedule,
    cancel and delete bottom halves, set and remove handlers, and poll again.

    A callback is a script; a poll comes with the scripts that its callbacks
    follow, in the order in which they are called. */
module AioPoll {
  import opened Common
  import opened EventLoop
  import opened AioCalls

  datatype Action =
    | NewBh
    | Schedule(bh: nat)
    | ScheduleIdle(bh: nat)
    | Cancel(bh: nat)
    | DeleteBh(bh: nat)
    | SetFd(fd: int, read: bool, write: bool, notifier: bool)
    | Poll(blocking: bool, ready: map<int, set<Cond>>, callbacks: Scripts)

  datatype Script = Done | Then(action: Action, rest: Script)
  datatype Scripts = NoMore | Next(script: Script, rest: Scripts)

  function Rest(scripts: Scripts): (r: Scripts)
    ensures r == scripts || r < scripts
  {
    if scripts.Next? then scripts.rest else scripts
  }

  /** The two lists and the walks over them at one moment, and what has happened so far. */
  datatype Moment = Moment(l: List, t: History, h: Handlers, walkingBh: nat, walkingHandlers: nat, events: seq<Entry>)

  ghost function GoodVerdict(m: Moment): Verdict {
    if Linked(m.l) && GoodHistory(m.l.nodes, m.t) && GoodHandlers(m.h) then Holds else Broken
  }

  ghost predicate Good(m: Moment) {
    GoodVerdict(m) == Holds
  }

  /** What any activity keeps, as long as walks are going on around it: nodes that
      a walk may hold are neither freed nor moved. */
  ghost function AfterVerdict(m: Moment, m': Moment): Verdict {
    if
      && m'.walkingBh == m.walkingBh && m'.walkingHandlers == m.walkingHandlers
      && Later(m.t, m'.t) && LaterHandlers(m.h, m'.h) && m.events <= m'.events
      && (m.walkingBh > 0 ==> m.l.order <= m'.l.order)
      && (m.walkingHandlers > 0 ==> m.h.list <= m'.h.list)
    then Holds else Broken
  }

  ghost predicate After(m: Moment, m': Moment) {
    AfterVerdict(m, m') == Holds
  }

  lemma AfterTransitive(m: Moment, m': Moment, m'': Moment)
    requires Good(m) && After(m, m') && After(m', m'')
    ensures After(m, m'')
  {
    LaterTransitive(m.t, m'.t, m''.t);
    LaterHandlersTransitive(m.h, m'.h, m''.h);
  }

  lemma AfterEvent(m: Moment, m': Moment)
    requires Good(m) && m.events <= m'.events && m' == m.(events := m'.events)
    ensures Good(m') && After(m, m')
  {
  }

  lemma AfterNothing(m: Moment)
    ensures After(m, m)
  {
  }

  /** The moment after a new bottom half. */
  ghost function WithNew(m: Moment): Moment {
    m.(l := Pushed(m.l, m.t.nextId),
       t := History(m.t.tally[m.t.nextId := Tally(0, 0, 0)], m.t.doomed, m.t.nextId + 1))
  }

  lemma NewKeeps(m: Moment)
    requires Good(m)
    ensures Good(WithNew(m)) && After(m, WithNew(m))
  {
    assert m.t.nextId !in m.t.tally;
    PushKeeps(m.l, m.t.nextId);
    NewHistory(m.l.nodes, m.t, QEMUBH(m.l.first, false, false, false), WithNew(m).t);
  }

  /** The moment after bottom half `id` has changed its flags. */
  ghost function WithFlags(m: Moment, id: nat, bh: QEMUBH, t: Tally): Moment {
    m.(l := m.l.(nodes := m.l.nodes[id := bh]),
       t := History(m.t.tally[id := t], if bh.deleted then m.t.doomed + {id} else m.t.doomed, m.t.nextId))
  }

  lemma FlagsKeep(m: Moment, id: nat, bh: QEMUBH, t: Tally)
    requires Good(m) && id in m.l.nodes && id in m.t.tally && bh.next == m.l.nodes[id].next
    requires m.l.nodes[id].deleted ==> bh.deleted && t.runs == m.t.tally[id].runs
    requires !m.l.nodes[id].deleted && bh.deleted ==> !bh.scheduled
    requires t.schedules == t.runs + t.cancels + if bh.scheduled then 1 else 0
    requires m.t.tally[id].runs <= t.runs && m.t.tally[id].cancels <= t.cancels
             && m.t.tally[id].schedules <= t.schedules
    ensures Good(WithFlags(m, id, bh, t)) && After(m, WithFlags(m, id, bh, t))
  {
    FlagsKeepLinks(m.l, id, bh);
    FlagsHistory(m.l.nodes, m.t, id, bh, t, WithFlags(m, id, bh, t).t);
  }

  /** The nodes that a walk has still ahead of it stay where they are. */
  lemma Ahead(m: Moment, m': Moment, k: nat)
    requires Good(m') && After(m, m') && m.walkingBh > 0 && 0 < k <= |m.l.order|
    ensures m.l.order[k - 1] in m'.l.nodes && m'.l.nodes[m.l.order[k - 1]].next == Below(m.l.order, k - 1)
  {
    assert LinkAt(m'.l, k - 1);
  }

  lemma ListedBhs(m: Moment)
    requires Good(m)
    ensures forall id | id in m.l.nodes :: id in m.l.order
    ensures m.t.nextId !in m.l.nodes
  {
  }

  /** The end of a walk over the bottom halves. */
  lemma LeaveBhWalk(m0: Moment, m: Moment, m1: Moment)
    requires After(m, m1) && m == m0.(walkingBh := m0.walkingBh + 1)
    ensures After(m0, m1.(walkingBh := m0.walkingBh))
  {
  }

  /** A handler that is in the list of a walk is not freed. */
  lemma StaysHandler(m: Moment, m': Moment, id: nat)
    requires Good(m) && Good(m') && After(m, m') && m.walkingHandlers > 0 && id in m.h.nodes
    ensures id in m'.h.nodes
  {
    var i :| 0 <= i < |m.h.list| && m.h.list[i] == id;
    assert m'.h.list[i] == id;
  }

  /** In an outermost walk over the handlers, the ones that were deleted before it
      are gone or still ahead. */
  ghost predicate DeadAhead(m: Moment, h: Handlers, k: nat)
    requires k <= |m.h.list|
  {
    m.walkingHandlers == 0 ==>
      forall id | id in h.nodes && id in m.h.nodes && m.h.nodes[id].deleted :: id in m.h.list[..k]
  }

  /** The walk over the handlers that began at moment `m` has `k` nodes ahead, and
      they are where they were. */
  ghost function WalkVerdict(m: Moment, m': Moment, k: nat): Verdict {
    if
      && Good(m) && Good(m') && After(m, m') && k <= |m.h.list| && k <= |m'.h.list|
      && m'.h.list[..k] == m.h.list[..k]
      && DeadAhead(m, m'.h, k)
    then Holds else Broken
  }

  ghost predicate Walking(m: Moment, m': Moment, k: nat) {
    WalkVerdict(m, m', k) == Holds
  }

  lemma WalkStart(m: Moment)
    requires Good(m)
    ensures Walking(m, m, |m.h.list|)
  {
    AfterNothing(m);
    assert m.h.list[..|m.h.list|] == m.h.list;
  }

  /** The handler that the walk comes to next. */
  lemma WalkingAt(m: Moment, m': Moment, k: nat)
    requires Walking(m, m', k) && k > 0
    ensures k <= |m.h.list| && k <= |m'.h.list| && m.h.list[k - 1] == m'.h.list[k - 1]
  {
    SamePrefix(m.h.list, m'.h.list, k);
  }

  lemma WalkShape(m: Moment, m': Moment, k: nat)
    requires Walking(m, m', k)
    ensures Good(m') && k <= |m'.h.list|
  {
  }

  /** A handler was visited: whatever its callbacks do, nothing is forgotten. */
  ghost predicate Visited(e: Ears, e': Ears, id: nat, progress: bool) {
    Heeds(e, e') && (id in e.handlers ==> Heard(e, e', id)) && Gain(e, e') == Progress(false, progress)
  }

  lemma VisitedLater(e: Ears, e': Ears, e'': Ears, id: nat, progress: bool)
    requires Visited(e, e', id, progress) && Heeds(e', e'') && e''.events == e'.events
    ensures Visited(e, e'', id, progress)
  {
    HeedsTransitive(e, e', e'');
    HeardLater(e, e', e'');
  }

  /** Which callbacks of a handler were called, other than in callbacks. */
  ghost predicate Called(e: Ears, e': Ears, id: nat, read: bool, write: bool) {
    HereSince(e, e', CallRead(id)) == read && HereSince(e, e', CallWrite(id)) == write
  }

  lemma CalledNone(e: Ears, id: nat)
    ensures Called(e, e, id, false, false)
  {
  }

  /** The two callbacks of a visit, one after the other. */
  lemma CalledBoth(e: Ears, e': Ears, e'': Ears, id: nat, read: bool, write: bool)
    requires e.depth == e'.depth && e.events <= e'.events <= e''.events
    requires Called(e, e', id, read, false) && Called(e', e'', id, false, write)
    ensures Called(e, e'', id, read, write)
  {
    HereSinceEither(e, e', e'', CallRead(id));
    HereSinceEither(e, e', e'', CallWrite(id));
  }

  lemma CalledFrom(e: Ears, e1: Ears, e': Ears, id: nat, read: bool, write: bool)
    requires e1.depth == e.depth && e1.events == e.events && Called(e1, e', id, read, write)
    ensures Called(e, e', id, read, write)
  {
    assert forall k :: Here(e, e', k) == Here(e1, e', k);
  }

  lemma ReadReturns(e: Ears, e': Ears, e'': Ears, id: nat)
    requires id in e'.handlers && Heeds(e, e') && Since(e, e', CallRead(id)) && Gain(e, e') == NO_PROGRESS
    requires e'' == e'.(events := e'.events + [Entry(e'.depth, ReadDone(id, e'.handlers[id].notifier))])
    requires Called(e, e', id, true, false)
    ensures Heeds(e, e'') && Since(e, e'', CallRead(id)) && Gain(e, e'') == Progress(false, !e'.handlers[id].notifier)
    ensures Called(e, e'', id, true, false)
  {
    HereSinceEither(e, e', e'', CallRead(id));
    HereSinceEither(e, e', e'', CallWrite(id));
    HeedsStay(e', e'');
    HeedsTransitive(e, e', e'');
    SinceWider(e, e, e', e'', CallRead(id));
    GainOne(e', e'', e'', ReadDone(id, e'.handlers[id].notifier));
  }

  /** A round of the walk: callbacks lead from `m1` to `m2`, then handler `id` is left,
      with `k - 1` handlers ahead. */
  ghost function RoundVerdict(m1: Moment, m2: Moment, m3: Moment, id: nat, k: nat): Verdict {
    if
      && After(m1, m2) && Good(m3) && After(m2, m3)
      && 0 < k <= |m1.h.list| && k <= |m2.h.list| && m2.h.list[..k] == m1.h.list[..k] && m1.h.list[k - 1] == id
      && id in m2.h.nodes
      && k - 1 <= |m3.h.list| && m3.h.list[..k - 1] == m2.h.list[..k - 1]
      && m3.h.nodes == (if m2.walkingHandlers == 0 && m2.h.nodes[id].deleted then m2.h.nodes - {id} else m2.h.nodes)
    then Holds else Broken
  }

  ghost predicate Round(m1: Moment, m2: Moment, m3: Moment, id: nat, k: nat) {
    RoundVerdict(m1, m2, m3, id, k) == Holds
  }

  lemma WalkOn(m: Moment, m1: Moment, m2: Moment, m3: Moment, id: nat, k: nat)
    requires Walking(m, m1, k) && Round(m1, m2, m3, id, k)
    ensures Walking(m, m3, k - 1)
  {
    AfterTransitive(m, m1, m2);
    AfterTransitive(m, m2, m3);
    DeadAheadLater(m, m1.h, m2.h, k);
    SamePrefix(m.h.list, m1.h.list, k);
    SamePrefix(m1.h.list, m2.h.list, k);
    DeadAheadStep(m, m2.h, m3.h, id, k);
  }

  lemma SamePrefix(a: seq<nat>, b: seq<nat>, k: nat)
    requires 0 < k <= |a| && k <= |b| && a[..k] == b[..k]
    ensures a[k - 1] == b[k - 1] && a[..k - 1] == b[..k - 1]
  {
    assert a[k - 1] == a[..k][k - 1];
    assert a[..k - 1] == a[..k][..k - 1] && b[..k - 1] == b[..k][..k - 1];
  }

  lemma WalkEnd(m: Moment, m': Moment, m'': Moment)
    requires Walking(m, m', 0) && Good(m'') && After(m', m'')
    ensures After(m, m'')
    ensures m.walkingHandlers == 0 ==> forall id | id in m''.h.nodes && id in m.h.nodes :: !m.h.nodes[id].deleted
  {
    AfterTransitive(m, m', m'');
    DeadAheadLater(m, m'.h, m''.h, 0);
  }

  lemma DeadAheadLater(m: Moment, h: Handlers, h': Handlers, k: nat)
    requires Good(m) && LaterHandlers(m.h, h) && LaterHandlers(h, h') && k <= |m.h.list| && DeadAhead(m, h, k)
    ensures DeadAhead(m, h', k)
  {
  }

  lemma DeadAheadStep(m: Moment, h: Handlers, h': Handlers, id: nat, k: nat)
    requires LaterHandlers(m.h, h) && 0 < k <= |m.h.list| && DeadAhead(m, h, k) && m.h.list[k - 1] == id
    requires id in h.nodes
    requires h'.nodes == if m.walkingHandlers == 0 && h.nodes[id].deleted then h.nodes - {id} else h.nodes
    ensures DeadAhead(m, h', k - 1)
  {
    if m.walkingHandlers == 0 {
      forall x | x in h'.nodes && x in m.h.nodes && m.h.nodes[x].deleted
        ensures x in m.h.list[..k - 1]
      {
        assert x in m.h.list[..k] && x != id;
        assert m.h.list[..k] == m.h.list[..k - 1] + [id];
      }
    }
  }

  lemma LeaveHandlerWalk(m0: Moment, m: Moment, m1: Moment)
    requires After(m, m1) && m == m0.(walkingHandlers := m0.walkingHandlers + 1)
    ensures After(m0, m1.(walkingHandlers := m0.walkingHandlers))
  {
  }

  lemma InHistory(m: Moment, id: nat)
    requires Good(m) && id in m.l.nodes
    ensures id in m.t.tally && Balanced(m.l.nodes, m.t, id)
  {
  }

  /** Position `j` of the list and the one above it are proper nodes. */
  ghost predicate CanUnlink(l: List, j: nat) {
    LinkAt(l, j) && (j + 1 < |l.order| ==> LinkAt(l, j + 1))
  }

  /** The history after bottom half `id` has been freed. */
  ghost function Buried(nodes: map<nat, QEMUBH>, t: History, id: nat): History
    requires id in t.tally
  {
    t.(tally := t.tally[id := t.tally[id].(cancels := t.tally[id].cancels + Pending(nodes, id))])
  }

  /** The list after `*bhp = bh->next`, where `bhp` is the head of the list or the link
      of the node `prev`, and after `g_free(bh)`. */
  ghost function Cut(l: List, j: nat, prev: Option<nat>, id: nat): List
    requires j < |l.order| && id in l.nodes && (prev.Some? ==> prev.value in l.nodes)
  {
    var next := l.nodes[id].next;
    if prev.None? then List(l.nodes - {id}, next, l.order[..j] + l.order[j + 1..])
    else List(l.nodes[prev.value := l.nodes[prev.value].(next := next)] - {id}, l.first,
              l.order[..j] + l.order[j + 1..])
  }

  lemma CutIsUnlinked(l: List, j: nat, prev: Option<nat>, id: nat)
    requires j < |l.order| && l.order[j] == id && prev == Above(l.order, j) && CanUnlink(l, j)
    ensures Cut(l, j, prev, id) == Unlinked(l, j)
  {
  }

  /** Nothing but the links has changed, and only deleted bottom halves are gone. */
  ghost predicate Survivors(bhs: map<nat, QEMUBH>, bhs': map<nat, QEMUBH>) {
    && (forall x | x in bhs' :: x in bhs && bhs'[x] == bhs[x].(next := bhs'[x].next))
    && (forall x | x in bhs && !bhs[x].deleted :: x in bhs')
  }

  lemma FreeKeeps(m: Moment, j: nat, prev: Option<nat>, id: nat, m': Moment)
    requires Good(m) && m.walkingBh == 0 && j < |m.l.order| && m.l.order[j] == id && prev == Above(m.l.order, j)
             && CanUnlink(m.l, j)
    requires m.l.nodes[id].deleted && id in m.t.tally
    requires m' == m.(l := Cut(m.l, j, prev, id), t := Buried(m.l.nodes, m.t, id))
    ensures Good(m') && After(m, m')
    ensures Survivors(m.l.nodes, m'.l.nodes)
  {
    CutIsUnlinked(m.l, j, prev, id);
    FreeParts(m.l, m.t, j, id, m'.l, m'.t);
    AfterFree(m, m');
  }

  /** The moment after a bottom half has been freed. */
  lemma Unlinking(m: Moment, j: nat, prev: Option<nat>, id: nat) returns (m': Moment)
    requires Good(m) && m.walkingBh == 0 && j < |m.l.order| && m.l.order[j] == id && prev == Above(m.l.order, j)
    requires id in m.l.nodes && m.l.nodes[id].deleted
    ensures id in m.t.tally && (prev.Some? ==> prev.value in m.l.nodes)
    ensures m' == m.(l := Cut(m.l, j, prev, id), t := m.t.(tally := m'.t.tally))
    ensures Good(m') && After(m, m') && Survivors(m.l.nodes, m'.l.nodes)
    ensures m'.l.order == m.l.order[..j] + m.l.order[j + 1..]
  {
    InHistory(m, id);
    assert CanUnlink(m.l, j);
    m' := m.(l := Cut(m.l, j, prev, id), t := Buried(m.l.nodes, m.t, id));
    FreeKeeps(m, j, prev, id, m');
  }

  lemma FreeParts(l: List, t: History, j: nat, id: nat, l': List, t': History)
    requires Linked(l) && GoodHistory(l.nodes, t) && j < |l.order| && l.order[j] == id && CanUnlink(l, j)
    requires l.nodes[id].deleted && id in t.tally && l' == Unlinked(l, j) && t' == Buried(l.nodes, t, id)
    ensures Linked(l') && GoodHistory(l'.nodes, t') && Later(t, t')
    ensures Survivors(l.nodes, l'.nodes)
  {
    UnlinkKeeps(l, j);
    UnlinkFlags(l, j);
    FreeHistory(l.nodes, t, id, l'.nodes, t');
  }

  lemma AfterFree(m: Moment, m': Moment)
    requires Good(m) && m.walkingBh == 0 && Linked(m'.l) && GoodHistory(m'.l.nodes, m'.t) && Later(m.t, m'.t)
    requires m' == m.(l := m'.l, t := m'.t)
    ensures Good(m') && After(m, m')
  {
  }

  /** The node on the other side of position `j`, if it is not the head. */
  function Above(order: seq<nat>, j: nat): Option<nat> {
    if j + 1 < |order| then Some(order[j + 1]) else None
  }

  ghost predicate NoneDead(ids: seq<nat>, bhs: map<nat, QEMUBH>) {
    forall id | id in ids && id in bhs :: !bhs[id].deleted
  }

  function IndexOf(s: seq<nat>, id: nat): (i: nat)
    requires id in s
    ensures i < |s| && s[i] == id
  {
    if s[|s| - 1] == id then |s| - 1 else IndexOf(s[..|s| - 1], id)
  }

  function Reported(ready: map<int, set<Cond>>, fd: int): set<Cond> {
    if fd in ready then ready[fd] else {}
  }

  /** The place of a handler in the array for `poll`. */
  ghost predicate Placed(h: AioHandler, pollfds: seq<(int, set<Cond>)>) {
    if h.deleted || h.events == {} then h.pollIdx == -1
    else 0 <= h.pollIdx < |pollfds| && pollfds[h.pollIdx] == (h.fd, h.events)
  }

  /** A handler that waits for something has what `poll` reported for it. */
  ghost predicate Informed(h: AioHandler, ready: map<int, set<Cond>>) {
    !h.deleted && h.events != {} ==> h.revents == Reported(ready, h.fd)
  }

  /** Nothing but the fields for `poll` has changed. */
  ghost predicate OnlyPollFields(hs: map<nat, AioHandler>, hs': map<nat, AioHandler>) {
    && hs'.Keys == hs.Keys
    && (forall id | id in hs :: hs'[id] == hs[id].(revents := hs'[id].revents, pollIdx := hs'[id].pollIdx))
  }

  /** The handlers after waiting: each has what was reported for it. */
  ghost predicate Told(hs: map<nat, AioHandler>, ready: map<int, set<Cond>>, e: Ears) {
    && OnlyPollFields(hs, e.handlers)
    && forall id | id in e.handlers :: Informed(e.handlers[id], ready) || Reported(ready, e.handlers[id].fd) == {}
  }

  /** A live handler waits for this. */
  ghost predicate Asked(hs: map<nat, AioHandler>, fd: (int, set<Cond>)) {
    exists id :: id in hs && !hs[id].deleted && hs[id].events != {} && fd == (hs[id].fd, hs[id].events)
  }

  lemma AskedNext(hs: map<nat, AioHandler>, id: nat, h: AioHandler, fds: seq<(int, set<Cond>)>,
                  fds': seq<(int, set<Cond>)>)
    requires id in hs && h == hs[id].(pollIdx := h.pollIdx) && forall fd | fd in fds :: Asked(hs, fd)
    requires fds' == fds || (!h.deleted && h.events != {} && fds' == fds + [(h.fd, h.events)])
    ensures forall fd | fd in fds' :: Asked(hs[id := h], fd)
  {
    forall fd | fd in fds'
      ensures Asked(hs[id := h], fd)
    {
      if fd in fds {
        var x :| x in hs && !hs[x].deleted && hs[x].events != {} && fd == (hs[x].fd, hs[x].events);
        assert hs[id := h][x].events == hs[x].events;
      } else {
        assert hs[id := h][id] == h;
      }
    }
  }

  ghost predicate AllPlaced(hs: map<nat, AioHandler>, list: seq<nat>, pollfds: seq<(int, set<Cond>)>, i: nat) {
    forall j | i <= j < |list| && list[j] in hs :: Placed(hs[list[j]], pollfds)
  }

  ghost predicate AllInformed(hs: map<nat, AioHandler>, list: seq<nat>, ready: map<int, set<Cond>>, i: nat) {
    forall j | i <= j < |list| && list[j] in hs :: Informed(hs[list[j]], ready)
  }

  lemma PlacedNext(hs0: map<nat, AioHandler>, hs: map<nat, AioHandler>, list: seq<nat>, fds: seq<(int, set<Cond>)>,
                   fds': seq<(int, set<Cond>)>, i: nat, h: AioHandler)
    requires OnlyPollFields(hs0, hs) && AllPlaced(hs, list, fds, i + 1) && i < |list| && list[i] in hs
    requires fds <= fds' && Placed(h, fds') && h == hs[list[i]].(pollIdx := h.pollIdx)
    ensures OnlyPollFields(hs0, hs[list[i] := h]) && AllPlaced(hs[list[i] := h], list, fds', i)
  {
    assert forall x | Placed(x, fds) :: Placed(x, fds');
  }

  lemma InformedNext(hs0: map<nat, AioHandler>, hs: map<nat, AioHandler>, list: seq<nat>, fds: seq<(int, set<Cond>)>,
                     ready: map<int, set<Cond>>, i: nat, h: AioHandler)
    requires OnlyPollFields(hs0, hs) && AllPlaced(hs, list, fds, 0) && AllInformed(hs, list, ready, i + 1)
    requires i < |list| && list[i] in hs && Informed(h, ready) && h == hs[list[i]].(revents := h.revents)
    ensures OnlyPollFields(hs0, hs[list[i] := h]) && AllPlaced(hs[list[i] := h], list, fds, 0)
    ensures AllInformed(hs[list[i] := h], list, ready, i)
  {
    assert forall x: AioHandler, r | Placed(x, fds) :: Placed(x.(revents := r), fds);
  }

  /** Every handler has been told, or there was nothing to tell. */
  lemma AllTold(hs: map<nat, AioHandler>, list: seq<nat>, fds: seq<(int, set<Cond>)>, ready: map<int, set<Cond>>,
                any: bool)
    requires forall id | id in hs :: id in list
    requires if any then AllInformed(hs, list, ready, 0) else AllPlaced(hs, list, fds, 0)
    requires !any ==> forall i | 0 <= i < |fds| :: Reported(ready, fds[i].0) == {}
    ensures forall id | id in hs :: Informed(hs[id], ready) || Reported(ready, hs[id].fd) == {}
  {
    forall id | id in hs
      ensures Informed(hs[id], ready) || Reported(ready, hs[id].fd) == {}
    {
      var j :| 0 <= j < |list| && list[j] == id;
      assert any || Placed(hs[list[j]], fds);
    }
  }

  lemma PollFieldsKeep(m: Moment, m': Moment)
    requires Good(m) && OnlyPollFields(m.h.nodes, m'.h.nodes) && m' == m.(h := m.h.(nodes := m'.h.nodes))
    ensures Good(m') && After(m, m')
  {
  }

  lemma ListedHandlers(m: Moment)
    requires Good(m)
    ensures forall j | 0 <= j < |m.h.list| :: m.h.list[j] in m.h.nodes
    ensures forall id | id in m.h.nodes :: id in m.h.list
  {
    assert forall j | 0 <= j < |m.h.list| :: m.h.list[j] in m.h.nodes.Keys;
  }

  /** `QLIST_NEXT`. */
  function Successor(s: seq<nat>, id: nat): Option<nat>
    requires id in s
  {
    Below(s, IndexOf(s, id))
  }

  lemma SuccessorIs(s: seq<nat>, i: nat)
    requires NoRepeats(s) && i < |s|
    ensures Successor(s, s[i]) == Below(s, i)
  {
  }

  class AioContext {
    // Bottom halves
    var bhs: map<nat, QEMUBH>
    var firstBh: Option<nat>
    ghost var order: seq<nat>
    ghost var tally: map<nat, Tally>
    ghost var doomed: set<nat>
    var nextBh: nat
    var walkingBh: nat
    // Handlers
    var handlers: map<nat, AioHandler>
    var handlerList: seq<nat>
    var nextHandler: nat
    var walkingHandlers: nat
    var pollfds: seq<(int, set<Cond>)>
    ghost var events: seq<Entry>
    /** The number of callbacks that are being executed. */
    ghost var depth: nat

    ghost function L(): List
      reads this
    {
      List(bhs, firstBh, order)
    }

    ghost function T(): History
      reads this
    {
      History(tally, doomed, nextBh)
    }

    ghost function H(): Handlers
      reads this
    {
      Handlers(handlers, handlerList, nextHandler)
    }

    ghost function Now(): Moment
      reads this
    {
      Moment(L(), T(), H(), walkingBh, walkingHandlers, events)
    }

    ghost function E(): Ears
      reads this
    {
      Ears(handlers, bhs, depth, events)
    }

    constructor ()
      ensures Good(Now()) && walkingBh == 0 && walkingHandlers == 0 && bhs == map[] && handlers == map[]
    {
      bhs, firstBh, order, tally, doomed, nextBh, walkingBh := map[], None, [], map[], {}, 0, 0;
      handlers, handlerList, nextHandler, walkingHandlers, pollfds := map[], [], 0, 0, [];
      events, depth := [], 0;
    }

    /** `aio_bh_new`. */
    method BhNew() returns (id: nat)
      requires Good(Now())
      modifies this`bhs, this`firstBh, this`order, this`tally, this`doomed, this`nextBh
      ensures Good(Now()) && After(old(Now()), Now()) && Heeds(old(E()), E())
      ensures id !in old(bhs) && bhs == old(bhs)[id := QEMUBH(old(firstBh), false, false, false)]
      ensures firstBh == Some(id) && order == old(order) + [id]
    {
      NewKeeps(Now());
      ListedBhs(Now());
      id := nextBh;
      bhs := bhs[id := QEMUBH(firstBh, false, false, false)];
      firstBh := Some(id);
      order, tally := order + [id], tally[id := Tally(0, 0, 0)];
      nextBh := nextBh + 1;
      assert Now() == WithNew(old(Now()));
      HeedsStay(old(E()), E());
    }

    /** Writes the flags of a bottom half, and its history. */
    method SetFlags(id: nat, scheduled: bool, idle: bool, deleted: bool, ghost t: Tally)
      requires Good(Now()) && id in bhs && id in tally
      requires bhs[id].deleted ==> deleted && t.runs == tally[id].runs
      requires !bhs[id].deleted && deleted ==> !scheduled
      requires t.schedules == t.runs + t.cancels + if scheduled then 1 else 0
      requires tally[id].runs <= t.runs && tally[id].cancels <= t.cancels && tally[id].schedules <= t.schedules
      modifies this`bhs, this`tally, this`doomed
      ensures Good(Now()) && After(old(Now()), Now())
      ensures bhs == old(bhs)[id := QEMUBH(old(bhs)[id].next, scheduled, idle, deleted)] && tally == old(tally)[id := t]
    {
      var bh := QEMUBH(bhs[id].next, scheduled, idle, deleted);
      FlagsKeep(Now(), id, bh, t);
      bhs := bhs[id := bh];
      tally := tally[id := t];
      doomed := if deleted then doomed + {id} else doomed;
      assert Now() == WithFlags(old(Now()), id, bh, t);
    }

    /** `qemu_bh_schedule`. */
    method BhSchedule(id: nat)
      requires Good(Now()) && id in bhs
      modifies this`bhs, this`tally, this`doomed
      ensures Good(Now()) && After(old(Now()), Now()) && Heeds(old(E()), E())
      ensures bhs == if old(bhs)[id].scheduled then old(bhs)
                     else old(bhs)[id := old(bhs)[id].(scheduled := true, idle := false)]
    {
      InHistory(Now(), id);
      if bhs[id].scheduled {
        HeedsNothing(E());
        return;
      }
      SetFlags(id, true, false, bhs[id].deleted, tally[id].(schedules := tally[id].schedules + 1));
      HeedsStay(old(E()), E());
    }

    /** `qemu_bh_schedule_idle`. */
    method BhScheduleIdle(id: nat)
      requires Good(Now()) && id in bhs
      modifies this`bhs, this`tally, this`doomed
      ensures Good(Now()) && After(old(Now()), Now()) && Heeds(old(E()), E())
      ensures bhs == if old(bhs)[id].scheduled then old(bhs)
                     else old(bhs)[id := old(bhs)[id].(scheduled := true, idle := true)]
    {
      InHistory(Now(), id);
      if bhs[id].scheduled {
        HeedsNothing(E());
        return;
      }
      SetFlags(id, true, true, bhs[id].deleted, tally[id].(schedules := tally[id].schedules + 1));
      HeedsStay(old(E()), E());
    }

    /** Records that a bottom half was cancelled or deleted. */
    ghost method NoteTaken(e: Ears, id: nat)
      requires Good(Now()) && e == E().(bhs := e.bhs)
      requires forall x | x in e.bhs && x != id :: x in bhs && bhs[x] == e.bhs[x]
      modifies this`events
      ensures Good(Now()) && After(old(Now()), Now()) && Heeds(e, E())
    {
      events := events + [Entry(depth, TakenBack(id))];
      AfterEvent(old(Now()), Now());
      HeedsTake(e, E(), id);
    }

    /** `qemu_bh_cancel`. */
    method BhCancel(id: nat)
      requires Good(Now()) && id in bhs
      modifies this`bhs, this`tally, this`doomed, this`events
      ensures Good(Now()) && After(old(Now()), Now()) && Heeds(old(E()), E())
      ensures bhs == old(bhs)[id := old(bhs)[id].(scheduled := false)]
    {
      ghost var m, e := Now(), E();
      InHistory(m, id);
      SetFlags(id, false, bhs[id].idle, bhs[id].deleted, tally[id].(cancels := tally[id].cancels + Pending(bhs, id)));
      ghost var m' := Now();
      NoteTaken(e, id);
      AfterTransitive(m, m', Now());
    }

    /** `qemu_bh_delete`. */
    method BhDelete(id: nat)
      requires Good(Now()) && id in bhs
      modifies this`bhs, this`tally, this`doomed, this`events
      ensures Good(Now()) && After(old(Now()), Now()) && Heeds(old(E()), E())
      ensures bhs == old(bhs)[id := old(bhs)[id].(scheduled := false, deleted := true)]
    {
      ghost var m, e := Now(), E();
      InHistory(m, id);
      SetFlags(id, false, bhs[id].idle, true, tally[id].(cancels := tally[id].cancels + Pending(bhs, id)));
      ghost var m' := Now();
      NoteTaken(e, id);
      AfterTransitive(m, m', Now());
    }

    /** Takes a pending bottom half off for its callback. */
    method TakeOff(id: nat) returns (idle: bool)
      requires Good(Now()) && id in bhs && Waiting(bhs[id])
      modifies this`bhs, this`tally, this`doomed
      ensures Good(Now()) && After(old(Now()), Now()) && idle == old(bhs)[id].idle
      ensures bhs == old(bhs)[id := old(bhs)[id].(scheduled := false, idle := false)]
      ensures id in old(tally) && id in tally && tally[id].runs == old(tally)[id].runs + 1
    {
      InHistory(Now(), id);
      idle := bhs[id].idle;
      SetFlags(id, false, false, false, tally[id].(runs := tally[id].runs + 1));
    }

    /** `*bhp = bh->next` and `g_free(bh)`. */
    method CutLink(ghost j: nat, prev: Option<nat>, id: nat)
      requires id in bhs && (prev.Some? ==> prev.value in bhs) && j < |order|
      modifies this`bhs, this`firstBh
      ensures bhs == Cut(old(L()), j, prev, id).nodes && firstBh == Cut(old(L()), j, prev, id).first
    {
      var next := bhs[id].next;
      if prev.None? {
        firstBh := next;
      } else {
        bhs := bhs[prev.value := bhs[prev.value].(next := next)];
      }
      bhs := bhs - {id};
    }

    /** Frees the bottom half at position `j`: `*bhp = bh->next`, where `bhp` is the
        head of the list or the link of the bottom half that points to it. */
    method Unlink(ghost j: nat, prev: Option<nat>, id: nat)
      requires Good(Now()) && walkingBh == 0 && j < |order| && order[j] == id && id in bhs && bhs[id].deleted
      requires prev == Above(order, j)
      modifies this`bhs, this`firstBh, this`order, this`tally
      ensures Good(Now()) && After(old(Now()), Now())
      ensures order == old(order)[..j] + old(order)[j + 1..]
      ensures Survivors(old(bhs), bhs)
    {
      ghost var m := Now();
      ghost var after := Unlinking(m, j, prev, id);
      CutLink(j, prev, id);
      order, tally := after.l.order, after.t.tally;
      assert Now() == after;
    }

    /** Frees the bottom half at position `k` if it was deleted, or passes it. */
    method SweepNext(ghost k: nat, prev: Option<nat>, id: nat) returns (prev': Option<nat>, bh: Option<nat>)
      requires Good(Now()) && walkingBh == 0 && k < |order| && order[k] == id && prev == Above(order, k)
      requires NoneDead(order[k + 1..], bhs)
      modifies this`bhs, this`firstBh, this`order, this`tally
      ensures Good(Now()) && After(old(Now()), Now())
      ensures k <= |order| && bh == Below(order, k) && prev' == Below(order[k..], 1) && NoneDead(order[k..], bhs)
      ensures Survivors(old(bhs), bhs)
    {
      ghost var m := Now();
      assert LinkAt(m.l, k);
      prev', bh := prev, bhs[id].next;
      if bhs[id].deleted {
        Unlink(k, prev, id);
        assert order[k..] == m.l.order[k + 1..];
      } else {
        AfterNothing(m);
        prev' := Some(id);
        assert order[k..] == [id] + order[k + 1..];
      }
    }

    /** The end of the outermost `aio_bh_poll`: frees all deleted bottom halves. */
    method Sweep()
      requires Good(Now()) && walkingBh == 0
      modifies this`bhs, this`firstBh, this`order, this`tally
      ensures Good(Now()) && After(old(Now()), Now()) && Heeds(old(E()), E())
      ensures Survivors(old(bhs), bhs) && forall id | id in bhs :: !bhs[id].deleted
    {
      ghost var m := Now();
      AfterNothing(m);
      var prev := None;
      ghost var k := |order|;
      var bh := firstBh;
      while bh.Some?
        invariant Good(Now()) && After(m, Now())
        invariant 0 <= k <= |order| && bh == Below(order, k) && prev == Below(order[k..], 1)
        invariant NoneDead(order[k..], bhs) && Survivors(m.l.nodes, bhs)
        decreases k
      {
        ghost var before := Now();
        prev, bh := SweepNext(k - 1, prev, bh.value);
        AfterTransitive(m, before, Now());
        k := k - 1;
      }
      assert order[0..] == order;
      HeedsStay(old(E()), E());
    }

    // -----------------------------------------------------------------
    // Handlers
    // -----------------------------------------------------------------

    /** `find_aio_handler`: the handler of `fd` that is not deleted. */
    method FindAioHandler(fd: int) returns (r: Option<nat>)
      requires Good(Now())
      ensures r.Some? ==> r.value in handlers && handlers[r.value].fd == fd && !handlers[r.value].deleted
      ensures r.None? ==> forall id | id in handlers && handlers[id].fd == fd :: handlers[id].deleted
    {
      for i := 0 to |handlerList|
        invariant forall id | id in handlerList[..i] && handlers[id].fd == fd :: handlers[id].deleted
      {
        var node := handlerList[i];
        if handlers[node].fd == fd && !handlers[node].deleted {
          return Some(node);
        }
        assert handlerList[..i + 1] == handlerList[..i] + [node];
      }
      assert handlerList[..|handlerList|] == handlerList;
      return None;
    }

    /** A handler changes in place. */
    method SetHandler(id: nat, n: AioHandler)
      requires Good(Now()) && id in handlers && n.fd == handlers[id].fd && (handlers[id].deleted ==> n.deleted)
      requires n.events == Watched(n.read, n.write)
      modifies this`handlers
      ensures Good(Now()) && After(old(Now()), Now()) && handlers == old(handlers)[id := n]
    {
      UpdateKeeps(H(), id, n);
      handlers := handlers[id := n];
    }

    /** `QLIST_REMOVE` and `g_free`. */
    method FreeHandler(id: nat, ghost k: nat)
      requires Good(Now()) && walkingHandlers == 0 && k < |handlerList| && handlerList[k] == id
      modifies this`handlers, this`handlerList
      ensures Good(Now()) && After(old(Now()), Now()) && handlers == old(handlers) - {id}
      ensures handlerList == old(handlerList)[..k] + old(handlerList)[k + 1..]
    {
      var i := IndexOf(handlerList, id);
      RemoveKeeps(H(), i);
      handlerList := handlerList[..i] + handlerList[i + 1..];
      handlers := handlers - {id};
    }

    method InsertHandler(fd: int) returns (id: nat)
      requires Good(Now()) && forall id | id in handlers && handlers[id].fd == fd :: handlers[id].deleted
      modifies this`handlers, this`handlerList, this`nextHandler
      ensures Good(Now()) && After(old(Now()), Now()) && id in handlers && handlers[id].fd == fd
              && !handlers[id].deleted
      ensures forall x | x in old(handlers) :: x in handlers && handlers[x] == old(handlers)[x]
      ensures forall x | x in handlers && x != id :: x in old(handlers)
      ensures handlerList == old(handlerList) + [id]
    {
      id := nextHandler;
      var n := AioHandler(fd, false, false, false, false, {}, {}, 0);
      InsertKeeps(H(), n);
      handlers := handlers[id := n];
      handlerList := handlerList + [id];
      nextHandler := nextHandler + 1;
    }

    /** Records that a handler was changed or removed. */
    ghost method NoteChange(e: Ears, id: nat)
      requires Good(Now()) && e == E().(handlers := e.handlers)
      requires forall x | x in e.handlers && x != id :: x in handlers && handlers[x] == e.handlers[x]
      modifies this`events
      ensures Good(Now()) && After(old(Now()), Now()) && Heeds(e, E())
    {
      events := events + [Entry(depth, Changed(id))];
      AfterEvent(old(Now()), Now());
      HeedsChange(e, E(), id);
    }

    /** `aio_set_fd_handler` without a callback: the handler goes, at once only when no
        walk is going on. */
    method RemoveFdHandler(id: nat)
      requires Good(Now()) && id in handlers
      modifies this`handlers, this`handlerList, this`events
      ensures Good(Now()) && After(old(Now()), Now()) && Heeds(old(E()), E())
      ensures handlers == if walkingHandlers > 0
              then old(handlers)[id := old(handlers)[id].(deleted := true, revents := {})]
                          else old(handlers) - {id}
    {
      ghost var m, e := Now(), E();
      if walkingHandlers > 0 {
        SetHandler(id, handlers[id].(deleted := true, revents := {}));
      } else {
        ListedHandlers(m);
        FreeHandler(id, IndexOf(handlerList, id));
      }
      ghost var m' := Now();
      NoteChange(e, id);
      AfterTransitive(m, m', Now());
    }

    /** `aio_set_fd_handler` with callbacks: the settings of handler `id` change. */
    method UpdateFdHandler(id: nat, read: bool, write: bool, notifier: bool)
      requires Good(Now()) && id in handlers && !handlers[id].deleted
      modifies this`handlers, this`events
      ensures Good(Now()) && After(old(Now()), Now()) && Heeds(old(E()), E())
      ensures handlers == old(handlers)[id := old(handlers)[id].(read := read, write := write, notifier := notifier,
                                                                 pollIdx := -1, events := Watched(read, write))]
    {
      ghost var m, e := Now(), E();
      SetHandler(id, handlers[id].(read := read, write := write, notifier := notifier, pollIdx := -1,
                                   events := Watched(read, write)));
      ghost var m' := Now();
      NoteChange(e, id);
      AfterTransitive(m, m', Now());
    }

    /** The live handler of a descriptor, a new one if there is none. */
    method HandlerFor(fd: int) returns (id: nat)
      requires Good(Now())
      modifies this`handlers, this`handlerList, this`nextHandler
      ensures Good(Now()) && After(old(Now()), Now()) && Heeds(old(E()), E())
      ensures id in handlers && handlers[id].fd == fd && !handlers[id].deleted
      ensures forall x | x in old(handlers) :: x in handlers && handlers[x] == old(handlers)[x]
      ensures forall x | x in handlers && x != id :: x in old(handlers)
    {
      AfterNothing(Now());
      var node := FindAioHandler(fd);
      if node.None? {
        id := InsertHandler(fd);
      } else {
        id := node.value;
      }
      HeedsStay(old(E()), E());
    }

    /** `aio_set_fd_handler`. */
    method SetFdHandler(fd: int, read: bool, write: bool, notifier: bool)
      requires Good(Now())
      modifies this`handlers, this`handlerList, this`nextHandler, this`events
      ensures Good(Now()) && After(old(Now()), Now()) && Heeds(old(E()), E())
      ensures !read && !write ==> forall id | id in handlers && handlers[id].fd == fd :: handlers[id].deleted
      ensures read || write ==> exists id ::
                && id in handlers && handlers[id].fd == fd && !handlers[id].deleted
                && handlers[id].read == read && handlers[id].write == write && handlers[id].notifier == notifier
                && handlers[id].events == Watched(read, write)
      ensures forall x | x in old(handlers) && (old(handlers)[x].fd != fd || old(handlers)[x].deleted) ::
                x in handlers && handlers[x] == old(handlers)[x]
      ensures forall x | x in handlers && handlers[x].fd != fd :: x in old(handlers)
    {
      ghost var m, e := Now(), E();
      if !read && !write {
        AfterNothing(m);
        HeedsNothing(e);
        var node := FindAioHandler(fd);
        if node.Some? {
          RemoveFdHandler(node.value);
          OnlyOne(m.h, node.value);
        }
      } else {
        var id := HandlerFor(fd);
        ghost var m', e' := Now(), E();
        UpdateFdHandler(id, read, write, notifier);
        AfterTransitive(m, m', Now());
        HeedsTransitive(e, e', E());
        assert handlers[id].events == Watched(read, write);
      }
    }

    // -----------------------------------------------------------------
    // Walks with callbacks
    // -----------------------------------------------------------------

    /** Calls a callback: the next script runs, if there is one. */
    method Callback(ghost call: Event, scripts: Scripts) returns (rest: Scripts)
      requires Good(Now())
      modifies this
      ensures Good(Now()) && After(old(Now()), Now()) && Heeds(old(E()), E())
      ensures old(events) + [Entry(old(depth), call)] <= events && rest == Rest(scripts)
      ensures Gain(old(E()), E()) == Worth(call) && forall x :: HereSince(old(E()), E(), x) <==> x == call
      decreases scripts, 0
    {
      ghost var m, e := Now(), E();
      events := events + [Entry(depth, call)];
      ghost var m', e' := Now(), E();
      AfterEvent(m, m');
      depth := depth + 1;
      HeedsNothing(E());
      if scripts.Next? {
        RunScript(scripts.script);
        AfterTransitive(m, m', Now());
      }
      ghost var e2 := E();
      depth := depth - 1;
      HeedsCall(e, e', e2, E(), call);
      rest := Rest(scripts);
    }

    /** Whatever a callback does.  It may only name bottom halves that are there. */
    method RunScript(script: Script)
      requires Good(Now())
      modifies this
      ensures Good(Now()) && After(old(Now()), Now()) && Heeds(old(E()), E())
      decreases script, 1
    {
      ghost var m, e := Now(), E();
      if script.Done? {
        AfterNothing(m);
        HeedsNothing(e);
        return;
      }
      Perform(script.action);
      ghost var m', e' := Now(), E();
      RunScript(script.rest);
      AfterTransitive(m, m', Now());
      HeedsTransitive(e, e', E());
    }

    method Perform(a: Action)
      requires Good(Now())
      modifies this
      ensures Good(Now()) && After(old(Now()), Now()) && Heeds(old(E()), E())
      decreases a, 0
    {
      AfterNothing(Now());
      HeedsNothing(E());
      match a
      case NewBh => var id := BhNew();
      case Schedule(id) => if id in bhs { BhSchedule(id); }
      case ScheduleIdle(id) => if id in bhs { BhScheduleIdle(id); }
      case Cancel(id) => if id in bhs { BhCancel(id); }
      case DeleteBh(id) => if id in bhs { BhDelete(id); }
      case SetFd(fd, read, write, notifier) => SetFdHandler(fd, read, write, notifier);
      case Poll(blocking, ready, callbacks) => var progress, rest, first, told := RunPoll(blocking, ready, callbacks);
    }

    /** One bottom half of the walk in `aio_bh_poll`. */
    method VisitBh(id: nat, scripts: Scripts) returns (busy: bool, rest: Scripts)
      requires Good(Now()) && walkingBh > 0 && id in bhs
      modifies this
      ensures Good(Now()) && After(old(Now()), Now()) && Heeds(old(E()), E()) && BhHeard(old(E()), E(), id)
      ensures rest == scripts || rest < scripts
      ensures busy == (Waiting(old(bhs)[id]) && !old(bhs)[id].idle) && Gain(old(E()), E()) == Progress(busy, false)
      ensures if Waiting(old(bhs)[id]) then
                old(events) + [Entry(old(depth), CallBh(id, old(bhs)[id].idle))] <= events && rest == Rest(scripts)
              else events == old(events) && rest == scripts
      decreases scripts, 1
    {
      busy, rest := false, scripts;
      ghost var m, e := Now(), E();
      AfterNothing(m);
      HeedsNothing(e);
      if !bhs[id].deleted && bhs[id].scheduled {
        var idle := TakeOff(id);
        busy := !idle;
        ghost var m', e' := Now(), E();
        rest := Callback(CallBh(id, idle), rest);
        AfterTransitive(m, m', Now());
        HeedsVisitBh(e, e', E(), id);
      }
    }

    /** The walk of `aio_bh_poll`; `next` is fetched before the callback is called. */
    method WalkBhs(scripts: Scripts) returns (progress: bool, rest: Scripts)
      requires Good(Now()) && walkingBh > 0
      modifies this
      ensures Good(Now()) && After(old(Now()), Now()) && BhHearing(old(E()), E(), old(order), 0)
      ensures Gain(old(E()), E()) == Progress(progress, false)
      ensures rest == scripts || rest < scripts
      decreases scripts, 2
    {
      progress, rest := false, scripts;
      ghost var m, e, k := Now(), E(), |order|;
      AfterNothing(m);
      HeedsNothing(e);
      BhHearingStarts(e, order);
      var bh := firstBh;
      while bh.Some?
        invariant 0 <= k <= |m.l.order| && bh == Below(m.l.order, k)
        invariant Good(Now()) && After(m, Now()) && BhHearing(e, E(), m.l.order, k)
        invariant Gain(e, E()) == Progress(progress, false)
        invariant rest == scripts || rest < scripts
        decreases k
      {
        var id := bh.value;
        Ahead(m, Now(), k);
        var next := bhs[id].next;
        ghost var m', e' := Now(), E();
        var busy;
        busy, rest := VisitBh(id, rest);
        progress := progress || busy;
        AfterTransitive(m, m', Now());
        OneMoreBhHeard(e, e', E(), m.l.order, k);
        k := k - 1;
        bh := next;
      }
    }

    /** `aio_bh_poll`.  Every bottom half that is pending when the walk begins is called,
        or cancelled or deleted by a callback, and when the outermost walk is over no
        deleted one is left.  It returns whether it called one that is not idle. */
    method BhPoll(scripts: Scripts) returns (progress: bool, rest: Scripts)
      requires Good(Now())
      modifies this
      ensures Good(Now()) && After(old(Now()), Now()) && Heeds(old(E()), E())
      ensures AllBhsHeard(old(E()), E()) && Gain(old(E()), E()) == Progress(progress, false)
      ensures rest == scripts || rest < scripts
      ensures old(walkingBh) == 0 ==> forall id | id in bhs :: !bhs[id].deleted
      decreases scripts, 3
    {
      ghost var m0, e := Now(), E();
      ListedBhs(m0);
      walkingBh := walkingBh + 1;
      ghost var m := Now();
      progress, rest := WalkBhs(scripts);
      ghost var m1, e1 := Now(), E();
      walkingBh := walkingBh - 1;
      LeaveBhWalk(m0, m, m1);
      ghost var m2 := Now();
      AfterNothing(m2);
      HeedsNothing(e1);
      if walkingBh == 0 {
        Sweep();
      }
      AfterTransitive(m0, m2, Now());
      ListBhsHeard(e, e1, E(), m0.l.order);
    }

    /** The read callback of a handler, if it is to be called; `busy` is false for the
        notifier. */
    method CallReader(id: nat, ready: bool, scripts: Scripts) returns (busy: bool, rest: Scripts)
      requires Good(Now()) && walkingHandlers > 0 && id in handlers
      modifies this
      ensures Good(Now()) && After(old(Now()), Now()) && id in handlers && Heeds(old(E()), E())
      ensures Gain(old(E()), E()) == Progress(false, busy) && (rest == scripts || rest < scripts)
      ensures var due := ready && !old(handlers)[id].deleted && old(handlers)[id].read;
              && Called(old(E()), E(), id, due, false)
              && (if due then Since(old(E()), E(), CallRead(id)) else E() == old(E()) && rest == scripts)
      decreases scripts, 1
    {
      ghost var m, e := Now(), E();
      AfterNothing(m);
      HeedsNothing(e);
      CalledNone(e, id);
      busy, rest := false, scripts;
      if !handlers[id].deleted && ready && handlers[id].read {
        rest := Callback(CallRead(id), scripts);
        StaysHandler(m, Now(), id);
        busy := !handlers[id].notifier;
        ghost var m', e' := Now(), E();
        SinceAppended(e, e', Entry(depth, CallRead(id)));
        events := events + [Entry(depth, ReadDone(id, handlers[id].notifier))];
        AfterEvent(m', Now());
        AfterTransitive(m, m', Now());
        ReadReturns(e, e', E(), id);
      }
    }

    /** The write callback of a handler, if it is to be called. */
    method CallWriter(id: nat, ready: bool, scripts: Scripts) returns (busy: bool, rest: Scripts)
      requires Good(Now()) && walkingHandlers > 0 && id in handlers
      modifies this
      ensures Good(Now()) && After(old(Now()), Now()) && id in handlers && Heeds(old(E()), E())
      ensures Gain(old(E()), E()) == Progress(false, busy) && (rest == scripts || rest < scripts)
      ensures var due := ready && !old(handlers)[id].deleted && old(handlers)[id].write;
              && Called(old(E()), E(), id, false, due)
              && (if due then Since(old(E()), E(), CallWrite(id)) else E() == old(E()) && rest == scripts)
      decreases scripts, 1
    {
      ghost var m, e := Now(), E();
      AfterNothing(m);
      HeedsNothing(e);
      CalledNone(e, id);
      busy, rest := false, scripts;
      if !handlers[id].deleted && ready && handlers[id].write {
        rest := Callback(CallWrite(id), scripts);
        StaysHandler(m, Now(), id);
        SinceAppended(e, E(), Entry(depth, CallWrite(id)));
        busy := true;
      }
    }

    /** The callbacks of a handler for `revents`, with the moment between them, and whether
        the write callback is called. */
    method CallBoth(id: nat, revents: set<Cond>, scripts: Scripts)
      returns (progress: bool, rest: Scripts, ghost e: Ears, ghost write: bool)
      requires Good(Now()) && walkingHandlers > 0 && id in handlers
      modifies this
      ensures Good(Now()) && After(old(Now()), Now()) && id in handlers && id in e.handlers
      ensures Heeds(old(E()), e) && Heeds(e, E()) && Gain(old(E()), e).Plus(Gain(e, E())) == Progress(false, progress)
      ensures rest == scripts || rest < scripts
      ensures write <==> revents * {Out, Err} != {} && !e.handlers[id].deleted && e.handlers[id].write
      ensures write ==> Since(e, E(), CallWrite(id))
      ensures var read := revents * {In, Hup, Err} != {} && !old(handlers)[id].deleted && old(handlers)[id].read;
              && Called(old(E()), E(), id, read, write) && (read ==> Since(old(E()), e, CallRead(id)))
              && (!read ==> e == old(E())) && (!read && !write ==> events == old(events) && rest == scripts)
      decreases scripts, 2, 0
    {
      ghost var m := Now();
      progress, rest := CallReader(id, revents * {In, Hup, Err} != {}, scripts);
      ghost var m' := Now();
      e := E();
      write := revents * {Out, Err} != {} && !handlers[id].deleted && handlers[id].write;
      var wrote;
      wrote, rest := CallWriter(id, revents * {Out, Err} != {}, rest);
      progress := progress || wrote;
      AfterTransitive(m, m', Now());
      CalledBoth(old(E()), e, E(), id, HereSince(old(E()), e, CallRead(id)), write);
    }

    /** One handler of the walk in `aio_dispatch`, up to the point where the walk
        moves on: its callbacks are called for what `revents` says. */
    method VisitHandler(id: nat, scripts: Scripts) returns (progress: bool, rest: Scripts)
      requires Good(Now()) && walkingHandlers > 0 && id in handlers
      modifies this
      ensures Good(Now()) && After(old(Now()), Now()) && id in handlers
      ensures Heeds(old(E()), E()) && Heard(old(E()), E(), id) && Gain(old(E()), E()) == Progress(false, progress)
      ensures rest == scripts || rest < scripts
      ensures !Readable(old(handlers)[id]) && !Writable(old(handlers)[id]) ==> events == old(events) && rest == scripts
      ensures HereSince(old(E()), E(), CallRead(id)) <==> Readable(old(handlers)[id])
      ensures HereSince(old(E()), E(), CallWrite(id)) ==>
                old(handlers)[id].revents * old(handlers)[id].events * {Out, Err} != {}
      decreases scripts, 2, 1
    {
      ghost var m, e := Now(), E();
      var revents := handlers[id].revents * handlers[id].events;
      SetHandler(id, handlers[id].(revents := {}));
      ghost var m1, e1 := Now(), E();
      ghost var e2, write;
      progress, rest, e2, write := CallBoth(id, revents, scripts);
      AfterTransitive(m, m1, Now());
      HeedsVisit(e, e1, e2, E(), id);
      CalledFrom(e, e1, E(), id, Readable(e.handlers[id]), write);
    }

    /** The walk of `aio_dispatch` leaves handler `id`, with `k` handlers ahead; the
        outermost walk frees it if it was deleted. */
    method LeaveHandler(id: nat, ghost k: nat)
      requires Good(Now()) && k < |handlerList| && handlerList[k] == id && id in handlers
      modifies this`handlers, this`handlerList
      ensures Good(Now()) && After(old(Now()), Now()) && Heeds(old(E()), E()) && events == old(events)
      ensures k <= |handlerList| && handlerList[..k] == old(handlerList)[..k]
              && Below(handlerList, k) == Below(old(handlerList), k)
      ensures handlers == if walkingHandlers == 0 && old(handlers)[id].deleted then old(handlers) - {id}
              else old(handlers)
    {
      AfterNothing(Now());
      if walkingHandlers == 0 && handlers[id].deleted {
        FreeHandler(id, k);
      }
      HeedsStay(old(E()), E());
    }

    /** The callbacks of handler `id`, and the handler after it. */
    method VisitAndNext(id: nat, ghost k: nat, scripts: Scripts)
      returns (next: Option<nat>, progress: bool, rest: Scripts)
      requires Good(Now()) && k < |handlerList| && handlerList[k] == id
      modifies this
      ensures Good(Now()) && After(old(Now()), Now()) && Visited(old(E()), E(), id, progress)
      ensures k < |handlerList| && handlerList[..k + 1] == old(handlerList)[..k + 1]
      ensures id in handlers && next == Below(handlerList, k)
      ensures rest == scripts || rest < scripts
      decreases scripts, 3
    {
      ghost var m1 := Now();
      walkingHandlers := walkingHandlers + 1;
      ghost var m1' := Now();
      progress, rest := VisitHandler(id, scripts);
      next := Successor(handlerList, id);
      SuccessorIs(handlerList, k);
      LeaveHandlerWalk(m1, m1', Now());
      walkingHandlers := walkingHandlers - 1;
    }

    /** The callbacks of handler `id`; then the walk leaves it. */
    method VisitAndLeave(id: nat, ghost k: nat, scripts: Scripts)
      returns (next: Option<nat>, progress: bool, rest: Scripts, ghost m2: Moment)
      requires Good(Now()) && k < |handlerList| && handlerList[k] == id
      modifies this
      ensures Round(old(Now()), m2, Now(), id, k + 1) && next == Below(handlerList, k)
              && Visited(old(E()), E(), id, progress)
      ensures rest == scripts || rest < scripts
      decreases scripts, 4
    {
      ghost var e := E();
      next, progress, rest := VisitAndNext(id, k, scripts);
      m2 := Now();
      ghost var e2 := E();
      LeaveHandler(id, k);
      VisitedLater(e, e2, E(), id, progress);
    }

    /** One round of the walk in `aio_dispatch`. */
    method DispatchNext(ghost m: Moment, ghost e: Ears, id: nat, ghost k: nat, scripts: Scripts)
      returns (next: Option<nat>, progress: bool, rest: Scripts)
      requires Walking(m, Now(), k + 1) && Below(handlerList, k + 1) == Some(id) && Hearing(e, E(), m.h.list, k + 1)
      modifies this
      ensures Walking(m, Now(), k) && next == Below(handlerList, k) && Hearing(e, E(), m.h.list, k)
      ensures Gain(e, E()) == Gain(e, old(E())).Plus(Progress(false, progress))
      ensures rest == scripts || rest < scripts
      decreases scripts, 5
    {
      ghost var m1, e1 := Now(), E();
      WalkShape(m, m1, k + 1);
      WalkingAt(m, m1, k + 1);
      ghost var m2;
      next, progress, rest, m2 := VisitAndLeave(id, k, scripts);
      WalkOn(m, m1, m2, Now(), id, k + 1);
      OneMoreHeard(e, e1, E(), m.h.list, k + 1);
    }

    /** The walk of `aio_dispatch`. */
    method WalkHandlers(scripts: Scripts) returns (progress: bool, rest: Scripts)
      requires Good(Now())
      modifies this
      ensures Walking(old(Now()), Now(), 0) && Hearing(old(E()), E(), old(handlerList), 0)
      ensures Gain(old(E()), E()) == Progress(false, progress)
      ensures rest == scripts || rest < scripts
      decreases scripts, 6
    {
      progress, rest := false, scripts;
      ghost var m, e, k := Now(), E(), |handlerList|;
      WalkStart(m);
      HeedsNothing(e);
      HearingStarts(e, m.h.list);
      var node := Below(handlerList, |handlerList|);
      while node.Some?
        invariant 0 <= k <= |handlerList| && Walking(m, Now(), k) && node == Below(handlerList, k)
        invariant Hearing(e, E(), m.h.list, k)
        invariant Gain(e, E()) == Progress(false, progress)
        invariant rest == scripts || rest < scripts
        decreases k
      {
        var more;
        node, more, rest := DispatchNext(m, e, node.value, k - 1, rest);
        progress := progress || more;
        k := k - 1;
        WalkShape(m, Now(), k);
      }
    }

    /** The timers that have expired, any number of them. */
    method RunTimers(scripts: Scripts) returns (ran: bool, rest: Scripts)
      requires Good(Now())
      modifies this
      ensures Good(Now()) && After(old(Now()), Now()) && Heeds(old(E()), E())
      ensures Gain(old(E()), E()) == Progress(false, ran)
      ensures rest == scripts || rest < scripts
      decreases scripts, 1
    {
      ghost var m, e := Now(), E();
      AfterNothing(m);
      HeedsNothing(e);
      ran, rest := false, scripts;
      var n: int := *;
      var expired := if n > 0 then n else 0;
      for i := 0 to expired
        invariant Good(Now()) && After(m, Now()) && Heeds(e, E())
        invariant Gain(e, E()) == Progress(false, ran)
        invariant rest == scripts || rest < scripts
      {
        ghost var m', e' := Now(), E();
        rest := Callback(CallTimer, rest);
        AfterTransitive(m, m', Now());
        HeedsTransitive(e, e', E());
        ran := true;
      }
    }

    /** `aio_dispatch`, with the timers at its end.  Every handler that is ready when the
        walk begins is called or changed, and handlers that were deleted before the
        outermost call are gone after it.  It returns whether a callback was called that
        is not the notifier's. */
    method Dispatch(scripts: Scripts) returns (progress: bool, rest: Scripts)
      requires Good(Now())
      modifies this
      ensures Good(Now()) && After(old(Now()), Now()) && Heeds(old(E()), E())
      ensures AllHeard(old(E()), E()) && Gain(old(E()), E()) == Progress(false, progress)
      ensures rest == scripts || rest < scripts
      ensures old(walkingHandlers) == 0 ==>
                forall id | id in handlers && id in old(handlers) :: !old(handlers)[id].deleted
      decreases scripts, 7
    {
      ghost var m, e := Now(), E();
      ListedHandlers(m);
      progress, rest := WalkHandlers(scripts);
      ghost var m', e' := Now(), E();
      WalkShape(m, m', 0);
      var ran;
      ran, rest := RunTimers(rest);
      progress := progress || ran;
      WalkEnd(m, m', Now());
      ListHeard(e, e', E(), m.h.list);
    }

    /** Fills the array for `poll` from the handlers: each handler that waits for
        something knows its place in it. */
    method FillPollfds()
      requires forall j | 0 <= j < |handlerList| :: handlerList[j] in handlers
      modifies this`handlers, this`pollfds
      ensures OnlyPollFields(old(handlers), handlers) && AllPlaced(handlers, handlerList, pollfds, 0)
      ensures forall fd | fd in pollfds :: Asked(handlers, fd)
    {
      pollfds := [];
      ghost var hs := handlers;
      for i := |handlerList| downto 0
        invariant OnlyPollFields(hs, handlers) && AllPlaced(handlers, handlerList, pollfds, i)
        invariant forall fd | fd in pollfds :: Asked(handlers, fd)
      {
        var id := handlerList[i];
        assert id in hs;
        var h := handlers[id].(pollIdx := -1);
        ghost var fds := pollfds;
        if !h.deleted && h.events != {} {
          h := h.(pollIdx := |pollfds|);
          pollfds := pollfds + [(h.fd, h.events)];
        }
        PlacedNext(hs, handlers, handlerList, fds, pollfds, i, h);
        AskedNext(handlers, id, h, fds, pollfds);
        handlers := handlers[id := h];
      }
    }

    /** Hands the results of `poll` to the handlers. */
    method CopyRevents(ready: map<int, set<Cond>>)
      requires AllPlaced(handlers, handlerList, pollfds, 0) && forall j | 0 <= j < |handlerList| ::
                 handlerList[j] in handlers
      modifies this`handlers
      ensures OnlyPollFields(old(handlers), handlers) && AllInformed(handlers, handlerList, ready, 0)
    {
      ghost var hs := handlers;
      for i := |handlerList| downto 0
        invariant OnlyPollFields(hs, handlers) && AllPlaced(handlers, handlerList, pollfds, 0)
        invariant AllInformed(handlers, handlerList, ready, i)
      {
        var id := handlerList[i];
        assert id in hs && Placed(handlers[id], pollfds);
        var h := handlers[id];
        if h.pollIdx != -1 {
          h := h.(revents := Reported(ready, pollfds[h.pollIdx].0));
        }
        InformedNext(hs, handlers, handlerList, pollfds, ready, i, h);
        handlers := handlers[id := h];
      }
    }

    /** Some file descriptor is ready. */
    method AnyReady(ready: map<int, set<Cond>>) returns (r: bool)
      ensures r <==> exists i | 0 <= i < |pollfds| :: Reported(ready, pollfds[i].0) != {}
    {
      r := false;
      for i := 0 to |pollfds|
        invariant r <==> exists j | 0 <= j < i :: Reported(ready, pollfds[j].0) != {}
      {
        r := r || Reported(ready, pollfds[i].0) != {};
      }
    }

    /** `aio_poll`; `ready` is what `poll` would report.  Every bottom half that is pending
        and every handler that is ready when it is called has been called at the moment
        `first`, unless it was taken back or changed.  It stops there exactly if that was
        progress, and it was not to block or a bottom half made progress.  Otherwise each
        handler gets what is reported for it (`told`), and is called for it or changed.
        It returns whether a callback was called that counts as progress. */
    method RunPoll(blocking: bool, ready: map<int, set<Cond>>, scripts: Scripts)
      returns (progress: bool, rest: Scripts, ghost first: Ears, ghost told: Option<Ears>)
      requires Good(Now())
      modifies this
      ensures Good(Now()) && After(old(Now()), Now()) && Heeds(old(E()), E())
      ensures AllBhsHeard(old(E()), first) && AllHeard(old(E()), first) && Heeds(old(E()), first)
      ensures AllBhsHeard(old(E()), E()) && AllHeard(old(E()), E())
      ensures var gain := Gain(old(E()), first); told.None? <==> gain.Any() && (!blocking || gain.bhs)
      ensures told.None? ==> E() == first
      ensures told.Some? ==>
                && Told(first.handlers, ready, told.value) && told.value == first.(handlers := told.value.handlers)
                && AllHeard(told.value, E()) && Heeds(told.value, E())
      ensures progress <==> Gain(old(E()), E()).Any()
      ensures rest == scripts || rest < scripts
      decreases scripts, 9
    {
      ghost var m, e := Now(), E();
      var blocking', more := blocking, false;
      progress, rest := BhPoll(scripts);
      if progress {
        blocking' := false;
      }
      ghost var m1, e1 := Now(), E();
      more, rest := Dispatch(rest);
      AfterTransitive(m, m1, Now());
      HeedsTransitive(e, e1, E());
      AllHeardSince(e, e1, E());
      AllBhsHeardLater(e, e1, E());
      progress := progress || more;
      ghost var m2 := Now();
      first, told := E(), None;
      if progress && !blocking' {
        return;
      }
      ghost var e2;
      more, rest, e2 := WaitAndDispatch(ready, e, rest);
      told := Some(e2);
      AfterTransitive(m, m2, Now());
      AllBhsHeardLater(e, first, E());
      GainPlus(e, first, E());
      progress := progress || more;
    }

    /** The second half of `aio_poll`: every handler that `poll` reports something for
        is called or changed. */
    method WaitAndDispatch(ready: map<int, set<Cond>>, ghost e: Ears, scripts: Scripts)
      returns (more: bool, rest: Scripts, ghost told: Ears)
      requires Good(Now()) && Heeds(e, E()) && AllHeard(e, E())
      modifies this
      ensures Good(Now()) && After(old(Now()), Now()) && Heeds(e, E()) && AllHeard(e, E())
      ensures old(events) <= events && depth == old(depth) && Gain(old(E()), E()) == Progress(false, more)
      ensures Told(old(handlers), ready, told) && told == old(E()).(handlers := told.handlers)
      ensures AllHeard(told, E()) && Heeds(told, E())
      ensures rest == scripts || rest < scripts
      decreases scripts, 8
    {
      ghost var m, e0 := Now(), E();
      WaitForEvents(ready);
      ghost var m1 := Now();
      told := E();
      HeedsWait(e, e0, told);
      more, rest := Dispatch(scripts);
      AfterTransitive(m, m1, Now());
      HeedsTransitive(e, told, E());
      AllHeardLater(e, told, E());
      HeedsNothing(e0);
      GainPlus(e0, told, E());
    }

    /** The waiting part of `aio_poll`: no callback is called here. */
    method WaitForEvents(ready: map<int, set<Cond>>)
      requires Good(Now())
      modifies this`handlers, this`pollfds, this`walkingHandlers
      ensures Good(Now()) && After(old(Now()), Now())
      ensures OnlyPollFields(old(handlers), handlers) && Told(old(handlers), ready, E())
    {
      ghost var m := Now();
      ListedHandlers(m);
      walkingHandlers := walkingHandlers + 1;
      FillPollfds();
      walkingHandlers := walkingHandlers - 1;
      var any := AnyReady(ready);
      if any {
        CopyRevents(ready);
      }
      PollFieldsKeep(m, Now());
      AllTold(handlers, handlerList, pollfds, ready, any);
    }
  }

  /** A live handler waits for exactly what one of its callbacks is called for. */
  lemma WatchesWhatItTakes(h: AioHandler, c: Cond)
    requires h.events == Watched(h.read, h.write) && !h.deleted && c in h.revents
    ensures c in {In, Hup, Err} && h.read ==> Readable(h)
    ensures c in {Out, Err} && h.write ==> Writable(h)
    ensures h.revents == {c} ==> (c in h.events <==> Readable(h) || Writable(h))
  {
    assert c in {In, Hup, Err} && h.read ==> c in h.revents * h.events * {In, Hup, Err};
    assert c in {Out, Err} && h.write ==> c in h.revents * h.events * {Out, Err};
  }

  /** A handler that is there when `aio_poll` is called, if that comes to wait: when
      something is reported for its descriptor, its callback for that is called, unless the
      handler is changed or removed. */
  lemma ReportedIsCalled(m: Moment, e: Ears, first: Ears, told: Ears, e': Ears, ready: map<int, set<Cond>>, id: nat,
                         c: Cond)
    requires Good(m) && m.h.nodes == e.handlers && Heeds(e, first) && first.events <= e'.events
    requires Told(first.handlers, ready, told) && told.events == first.events && AllHeard(told, e')
    requires id in e.handlers && !e.handlers[id].deleted && c in Reported(ready, e.handlers[id].fd)
    ensures e.handlers[id].read && c in {In, Hup, Err} ==> Since(e, e', CallRead(id)) || Since(e, e', Changed(id))
    ensures e.handlers[id].write && c in {Out, Err} ==> Since(e, e', CallWrite(id)) || Since(e, e', Changed(id))
  {
    assert HeedsOne(e, first, id);
    SinceEither(e, first, e');
    if !Since(e, first, Changed(id)) {
      var h := told.handlers[id];
      assert Informed(h, ready) && h.events == Watched(h.read, h.write);
      if h.events != {} {
        WatchesWhatItTakes(h, c);
      }
      assert Heard(told, e', id);
      TellsNoTime(told, first, e', id);
    }
  }

  lemma TellsNoTime(told: Ears, first: Ears, e': Ears, id: nat)
    requires told.events == first.events
    ensures forall ev :: Since(told, e', ev) <==> Since(first, e', ev)
  {
  }

  /** In every run, a bottom half runs at most once per scheduling. */
  lemma RunsAtMostOncePerScheduling(m: Moment, m': Moment, id: nat)
    requires Good(m) && Good(m') && After(m, m') && id in m.t.tally && id in m'.t.tally
    ensures m'.t.tally[id].runs - m.t.tally[id].runs
            <= m'.t.tally[id].schedules - m.t.tally[id].schedules + Pending(m.l.nodes, id)
    ensures id in m.t.doomed ==> m'.t.tally[id].runs == m.t.tally[id].runs
  {
    assert Balanced(m.l.nodes, m.t, id) && Balanced(m'.l.nodes, m'.t, id) && LaterOf(m.t, m'.t, id);
  }

  /** Any program on a new context, with any nesting of polls: at its end all walks
      are over, and after one more poll no deleted bottom half is left. */
  method RunProgram(script: Script, callbacks: Scripts) returns (c: AioContext)
    ensures fresh(c) && Good(c.Now()) && c.walkingBh == 0 && c.walkingHandlers == 0
    ensures forall id | id in c.bhs :: !c.bhs[id].deleted
    ensures OneLive(c.handlers)
  {
    c := new AioContext();
    c.RunScript(script);
    var progress, rest := c.BhPoll(callbacks);
  }
}
