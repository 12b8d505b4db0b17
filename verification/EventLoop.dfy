/** The event loop: bottom halves and file descriptor handlers sit in lists that
    callbacks change while the lists are being walked, also from nested walks.
    Deleted nodes are only marked while a walk is going on.

    A node is live while it is in the heap of its list; reading or writing a node
    that has been freed is reading or writing outside of the heap. */
module EventLoop {
  import opened Common

  ghost predicate NoRepeats(s: seq<nat>) {
    forall i, j | 0 <= i < j < |s| :: s[i] != s[j]
  }

  // ---------------------------------------------------------------------
  // Bottom halves
  // ---------------------------------------------------------------------

  datatype QEMUBH = QEMUBH(next: Option<nat>, scheduled: bool, idle: bool, deleted: bool)

  /** The list as the heap has it, and its nodes, the head of the list last: the
      place of a node does not change when others are added at the head. */
  datatype List = List(nodes: map<nat, QEMUBH>, first: Option<nat>, order: seq<nat>)

  /** The node that a walk meets when it has `i` nodes ahead. */
  function Below(order: seq<nat>, i: nat): Option<nat> {
    if 0 < i <= |order| then Some(order[i - 1]) else None
  }

  /** Position `i` of the list is a live node that points to the one below it. */
  ghost predicate LinkAt(l: List, i: nat) {
    i < |l.order| && l.order[i] in l.nodes && l.nodes[l.order[i]].next == Below(l.order, i)
  }

  ghost function LinkVerdict(l: List): Verdict {
    if
      && NoRepeats(l.order)
      && l.first == Below(l.order, |l.order|)
      && (forall i | 0 <= i < |l.order| :: LinkAt(l, i))
      && (forall id | id in l.nodes :: id in l.order)
    then Holds else Broken
  }

  ghost predicate Linked(l: List) {
    LinkVerdict(l) == Holds
  }

  /** A new node at the head. */
  ghost function Pushed(l: List, id: nat): List {
    List(l.nodes[id := QEMUBH(l.first, false, false, false)], Some(id), l.order + [id])
  }

  lemma PushLinks(l: List, id: nat, i: nat)
    requires Linked(l) && id !in l.nodes && i <= |l.order|
    ensures LinkAt(Pushed(l, id), i)
    ensures i < |l.order| ==> l.order[i] != id
  {
    if i < |l.order| {
      assert LinkAt(l, i);
    }
  }

  lemma PushKeeps(l: List, id: nat)
    requires Linked(l) && id !in l.nodes
    ensures Linked(Pushed(l, id))
  {
    var l' := Pushed(l, id);
    forall i | 0 <= i < |l'.order|
      ensures LinkAt(l', i) && (i < |l.order| ==> l'.order[i] != id)
    {
      PushLinks(l, id, i);
    }
    forall x | x in l'.nodes
      ensures x in l'.order
    {
      assert x == id || x in l.order;
    }
  }

  /** Node `id` changes its flags but not its place. */
  lemma FlagsKeepLinks(l: List, id: nat, bh: QEMUBH)
    requires Linked(l) && id in l.nodes && bh.next == l.nodes[id].next
    ensures Linked(l.(nodes := l.nodes[id := bh]))
  {
    var l' := l.(nodes := l.nodes[id := bh]);
    forall i | 0 <= i < |l'.order|
      ensures LinkAt(l', i)
    {
      assert LinkAt(l, i);
    }
  }

  /** Position `j` is unlinked and its node freed. */
  ghost function Unlinked(l: List, j: nat): List
    requires j < |l.order| && l.order[j] in l.nodes && (j + 1 < |l.order| ==> l.order[j + 1] in l.nodes)
  {
    var id := l.order[j];
    var next := l.nodes[id].next;
    var nodes := if j + 1 == |l.order| then l.nodes
                 else l.nodes[l.order[j + 1] := l.nodes[l.order[j + 1]].(next := next)];
    List(nodes - {id}, if j + 1 == |l.order| then next else l.first, l.order[..j] + l.order[j + 1..])
  }

  lemma UnlinkLinks(l: List, j: nat, i: nat)
    requires Linked(l) && j < |l.order| && LinkAt(l, j) && (j + 1 < |l.order| ==> LinkAt(l, j + 1)) && i + 1 < |l.order|
    ensures LinkAt(Unlinked(l, j), i)
  {
    assert LinkAt(l, if i < j then i else i + 1);
  }

  lemma UnlinkCovers(l: List, j: nat, x: nat)
    requires Linked(l) && j < |l.order| && LinkAt(l, j) && (j + 1 < |l.order| ==> LinkAt(l, j + 1))
    requires x in l.nodes && x != l.order[j]
    ensures x in Unlinked(l, j).order
  {
    var k :| 0 <= k < |l.order| && l.order[k] == x;
    assert x == Unlinked(l, j).order[if k < j then k else k - 1];
  }

  lemma UnlinkKeeps(l: List, j: nat)
    requires Linked(l) && j < |l.order| && LinkAt(l, j) && (j + 1 < |l.order| ==> LinkAt(l, j + 1))
    ensures Linked(Unlinked(l, j))
  {
    var l' := Unlinked(l, j);
    forall i | 0 <= i < |l'.order|
      ensures LinkAt(l', i)
    {
      UnlinkLinks(l, j, i);
    }
    forall x | x in l'.nodes
      ensures x in l'.order
    {
      UnlinkCovers(l, j, x);
    }
  }

  lemma UnlinkFlags(l: List, j: nat)
    requires Linked(l) && j < |l.order| && LinkAt(l, j) && (j + 1 < |l.order| ==> LinkAt(l, j + 1))
    ensures var nodes := Unlinked(l, j).nodes;
            && nodes.Keys == l.nodes.Keys - {l.order[j]}
            && (forall x | x in nodes :: nodes[x] == l.nodes[x].(next := nodes[x].next))
  {
  }

  /** How often a bottom half was scheduled, was run, and was taken back. */
  datatype Tally = Tally(schedules: nat, runs: nat, cancels: nat)

  /** The history of every bottom half there ever was, and those that were
      deleted. */
  datatype History = History(tally: map<nat, Tally>, doomed: set<nat>, nextId: nat)

  function Pending(nodes: map<nat, QEMUBH>, id: nat): nat {
    if id in nodes && nodes[id].scheduled then 1 else 0
  }

  /** Every scheduling is still pending, or was taken back, or has led to one run. */
  ghost predicate Balanced(nodes: map<nat, QEMUBH>, h: History, id: nat)
    requires id in h.tally
  {
    h.tally[id].schedules == h.tally[id].runs + h.tally[id].cancels + Pending(nodes, id)
  }

  ghost function HistoryVerdict(nodes: map<nat, QEMUBH>, h: History): Verdict {
    if
      && (forall id: nat :: id in h.tally <==> id < h.nextId)
      && (forall id | id in h.doomed :: id in h.tally)
      && (forall id | id in nodes :: id in h.tally && (nodes[id].deleted <==> id in h.doomed))
      && (forall id | id in h.tally :: Balanced(nodes, h, id) && (id in nodes || id in h.doomed))
    then Holds else Broken
  }

  ghost predicate GoodHistory(nodes: map<nat, QEMUBH>, h: History) {
    HistoryVerdict(nodes, h) == Holds
  }

  /** What any activity keeps of the history of one bottom half; one that was
      deleted does not run again. */
  ghost predicate LaterOf(h: History, h': History, id: nat)
    requires id in h.tally
  {
    && id in h'.tally
    && h.tally[id].runs <= h'.tally[id].runs && h.tally[id].cancels <= h'.tally[id].cancels
    && h.tally[id].schedules <= h'.tally[id].schedules
    && (id in h.doomed ==> id in h'.doomed && h'.tally[id].runs == h.tally[id].runs)
    && (id !in h.doomed && id in h'.doomed && Open(h, id) > 0 ==> Closed(h, id) < Closed(h', id))
  }

  /** The schedulings that were run or taken back, and the others. */
  ghost function Closed(h: History, id: nat): nat
    requires id in h.tally
  {
    h.tally[id].runs + h.tally[id].cancels
  }

  ghost function Open(h: History, id: nat): int
    requires id in h.tally
  {
    h.tally[id].schedules - Closed(h, id)
  }

  ghost predicate Later(h: History, h': History) {
    h.nextId <= h'.nextId && forall id | id in h.tally :: LaterOf(h, h', id)
  }

  lemma LaterTransitive(h: History, h': History, h'': History)
    requires Later(h, h') && Later(h', h'')
    ensures Later(h, h'')
  {
    forall id | id in h.tally
      ensures LaterOf(h, h'', id)
    {
      assert LaterOf(h, h', id) && LaterOf(h', h'', id);
    }
  }

  lemma NewHistory(nodes: map<nat, QEMUBH>, h: History, bh: QEMUBH, h': History)
    requires GoodHistory(nodes, h) && !bh.scheduled && !bh.deleted
    requires h' == History(h.tally[h.nextId := Tally(0, 0, 0)], h.doomed, h.nextId + 1)
    ensures GoodHistory(nodes[h.nextId := bh], h') && Later(h, h')
  {
    forall x | x in h'.tally
      ensures Balanced(nodes[h.nextId := bh], h', x)
    {
      assert x != h.nextId ==> Balanced(nodes, h, x);
    }
  }

  /** Bottom half `id` changes its flags, and its history with them. */
  lemma FlagsHistory(nodes: map<nat, QEMUBH>, h: History, id: nat, bh: QEMUBH, t: Tally, h': History)
    requires GoodHistory(nodes, h) && id in nodes && id in h.tally
    requires h' == History(h.tally[id := t], if bh.deleted then h.doomed + {id} else h.doomed, h.nextId)
    requires nodes[id].deleted ==> bh.deleted && t.runs == h.tally[id].runs
    requires !nodes[id].deleted && bh.deleted ==> !bh.scheduled
    requires t.schedules == t.runs + t.cancels + if bh.scheduled then 1 else 0
    requires h.tally[id].runs <= t.runs && h.tally[id].cancels <= t.cancels && h.tally[id].schedules <= t.schedules
    ensures GoodHistory(nodes[id := bh], h') && Later(h, h')
  {
    forall x | x in h'.tally
      ensures Balanced(nodes[id := bh], h', x)
    {
      assert x != id ==> Balanced(nodes, h, x);
    }
    assert Balanced(nodes, h, id);
  }

  /** A deleted bottom half is freed; what was scheduled of it is taken back. */
  lemma FreeHistory(nodes: map<nat, QEMUBH>, h: History, id: nat, nodes': map<nat, QEMUBH>, h': History)
    requires GoodHistory(nodes, h) && id in nodes && nodes[id].deleted && id in h.tally
    requires nodes'.Keys == nodes.Keys - {id}
    requires forall x | x in nodes' :: nodes'[x].scheduled == nodes[x].scheduled
                                       && nodes'[x].deleted == nodes[x].deleted
    requires h' == h.(tally := h.tally[id := h.tally[id].(cancels := h.tally[id].cancels + Pending(nodes, id))])
    ensures GoodHistory(nodes', h') && Later(h, h')
  {
    forall x | x in h'.tally
      ensures Balanced(nodes', h', x) && (x in nodes' || x in h'.doomed)
    {
      assert Balanced(nodes, h, x);
      assert x in nodes' <==> x in nodes && x != id;
    }
  }

  // ---------------------------------------------------------------------
  // File descriptor handlers
  // ---------------------------------------------------------------------

  datatype Cond = In | Out | Hup | Err

  datatype AioHandler = AioHandler(
    fd: int, read: bool, write: bool, notifier: bool, deleted: bool,
    events: set<Cond>, revents: set<Cond>, pollIdx: int)

  /** The handlers, the head of the list last. */
  datatype Handlers = Handlers(nodes: map<nat, AioHandler>, list: seq<nat>, nextId: nat)

  /** The sequence holds each element of the set once. */
  ghost function ListVerdict(s: seq<nat>, ids: set<nat>): Verdict {
    if NoRepeats(s) && (forall id | id in s :: id in ids) && (forall id | id in ids :: id in s) then Holds else Broken
  }

  ghost predicate Lists(s: seq<nat>, ids: set<nat>) {
    ListVerdict(s, ids) == Holds
  }

  lemma ListsPush(s: seq<nat>, ids: set<nat>, id: nat)
    requires Lists(s, ids) && id !in ids
    ensures Lists(s + [id], ids + {id})
  {
    assert forall i | 0 <= i < |s| :: s[i] in ids;
  }

  lemma ListsRemove(s: seq<nat>, ids: set<nat>, i: nat)
    requires Lists(s, ids) && i < |s|
    ensures Lists(s[..i] + s[i + 1..], ids - {s[i]})
  {
    var s' := s[..i] + s[i + 1..];
    forall id | id in ids - {s[i]}
      ensures id in s'
    {
      var k :| 0 <= k < |s| && s[k] == id;
      assert id == s'[if k < i then k else k - 1];
    }
    forall id | id in s'
      ensures id in ids - {s[i]}
    {
      var k :| 0 <= k < |s'| && s'[k] == id;
      assert id == s[if k < i then k else k + 1];
    }
  }

  /** At most one handler per file descriptor is not deleted. */
  ghost predicate OneLive(nodes: map<nat, AioHandler>) {
    forall a, b | a in nodes && b in nodes && !nodes[a].deleted && !nodes[b].deleted && nodes[a].fd == nodes[b].fd ::
      a == b
  }

  /** What a handler with these callbacks waits for. */
  function Watched(read: bool, write: bool): set<Cond> {
    (if read then {In, Hup, Err} else {}) + (if write then {Out, Err} else {})
  }

  ghost function HandlerVerdict(h: Handlers): Verdict {
    if
      && Lists(h.list, h.nodes.Keys)
      && (forall id | id in h.nodes ::
            id < h.nextId && h.nodes[id].events == Watched(h.nodes[id].read, h.nodes[id].write))
      && OneLive(h.nodes)
    then Holds else Broken
  }

  ghost predicate GoodHandlers(h: Handlers) {
    HandlerVerdict(h) == Holds
  }

  lemma OnlyOne(h: Handlers, id: nat)
    requires GoodHandlers(h) && id in h.nodes && !h.nodes[id].deleted
    ensures forall x | x in h.nodes && x != id && h.nodes[x].fd == h.nodes[id].fd :: h.nodes[x].deleted
  {
  }

  /** Handlers that are still there or are new; a deleted one stays deleted. */
  ghost predicate LaterHandlers(h: Handlers, h': Handlers) {
    && h.nextId <= h'.nextId
    && (forall id | id in h'.nodes :: id in h.nodes || id >= h.nextId)
    && (forall id | id in h.nodes && id in h'.nodes && h.nodes[id].deleted :: h'.nodes[id].deleted)
  }

  lemma LaterHandlersTransitive(h: Handlers, h': Handlers, h'': Handlers)
    requires LaterHandlers(h, h') && LaterHandlers(h', h'') && GoodHandlers(h)
    ensures LaterHandlers(h, h'')
  {
  }

  /** Handler `id` changes, but keeps its file descriptor and comes back to life
      only if it was alive. */
  lemma UpdateKeeps(h: Handlers, id: nat, n: AioHandler)
    requires GoodHandlers(h) && id in h.nodes && n.fd == h.nodes[id].fd && (h.nodes[id].deleted ==> n.deleted)
    requires n.events == Watched(n.read, n.write)
    ensures var h' := h.(nodes := h.nodes[id := n]); GoodHandlers(h') && LaterHandlers(h, h')
  {
    assert h.nodes[id := n].Keys == h.nodes.Keys;
  }

  lemma InsertKeeps(h: Handlers, n: AioHandler)
    requires GoodHandlers(h) && forall id | id in h.nodes && h.nodes[id].fd == n.fd :: h.nodes[id].deleted
    requires n.events == Watched(n.read, n.write)
    ensures var h' := Handlers(h.nodes[h.nextId := n], h.list + [h.nextId], h.nextId + 1);
            GoodHandlers(h') && LaterHandlers(h, h')
  {
    ListsPush(h.list, h.nodes.Keys, h.nextId);
    assert h.nodes[h.nextId := n].Keys == h.nodes.Keys + {h.nextId};
  }

  lemma RemoveKeeps(h: Handlers, i: nat)
    requires GoodHandlers(h) && i < |h.list|
    ensures var h' := h.(nodes := h.nodes - {h.list[i]}, list := h.list[..i] + h.list[i + 1..]);
            GoodHandlers(h') && LaterHandlers(h, h')
  {
    ListsRemove(h.list, h.nodes.Keys, i);
    assert (h.nodes - {h.list[i]}).Keys == h.nodes.Keys - {h.list[i]};
  }
}
