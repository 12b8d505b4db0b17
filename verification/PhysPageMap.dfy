/** The multi-level physical page map of an address space: a radix tree with
    leaves at every level, kept in an arena of 512-entry nodes.

    The tree is filled by page range (`SetLevel`), path-compressed (`Compact`)
    and searched (`Find`).  Its meaning is a plain function from page number to
    section number, the ghost field `view`.
  */
module PhysPageMap {
  import opened Target
  import opened Arith
  import opened Common

  const P_L2_SIZE: nat := 512
  const P_L2_LEVELS: nat := 6
  const NODE_NIL: nat := 0x3ff_ffff
  const SECTION_UNASSIGNED: nat := 0

  /** `skip` is the number of levels to descend, 0 for a leaf; `ptr` is a section
      number in a leaf and a node number otherwise. */
  datatype Entry = Entry(skip: nat, ptr: nat)

  type Node = s: seq<Entry> | |s| == P_L2_SIZE witness seq(P_L2_SIZE, _ => Entry(0, 0))

  /** A reference to an entry: the root entry, or entry `idx` of a node. */
  datatype EntryRef = Root | Slot(node: nat, idx: nat)

  // ---------------------------------------------------------------------
  // Index arithmetic
  // ---------------------------------------------------------------------

  function Pow(k: nat): (r: nat)
    ensures r >= 1
  {
    if k == 0 then 1 else 512 * Pow(k - 1)
  }

  /** The page number shifted right by `9 * k` bits. */
  function Prefix(p: nat, k: nat): nat {
    if k == 0 then p else Prefix(p, k - 1) / 512
  }

  lemma {:induction false} PrefixFromBottom(p: nat, k: nat)
    requires k > 0
    ensures Prefix(p, k) == Prefix(p / 512, k - 1)
  {
    if k > 1 {
      PrefixFromBottom(p, k - 1);
    }
  }

  /** Pages that agree above level `a` agree above every higher level. */
  lemma {:induction false} PrefixCoarser(p: nat, q: nat, a: nat, b: nat)
    requires a <= b
    requires Prefix(p, a) == Prefix(q, a)
    ensures Prefix(p, b) == Prefix(q, b)
    decreases b
  {
    if a < b {
      PrefixCoarser(p, q, a, b - 1);
    }
  }

  lemma {:induction false} PrefixPrefix(p: nat, a: nat, b: nat)
    ensures Prefix(Prefix(p, a), b) == Prefix(p, a + b)
    decreases b
  {
    if b > 0 {
      PrefixPrefix(p, a, b - 1);
    }
  }

  lemma {:induction false} AlignedQuotient(x: nat, k: nat)
    requires k > 0 && x % Pow(k) == 0
    ensures x % 512 == 0 && (x / 512) % Pow(k - 1) == 0
  {
    var m := Pow(k - 1);
    var q := x / Pow(k);
    assert x == Pow(k) * q;
    assert Pow(k) * q == 512 * (m * q) by {
      assert Pow(k) == 512 * m;
      assert (512 * m) * q == 512 * (m * q);
    }
    assert x / 512 == m * q;
    MulMod(m, q);
  }

  /** An aligned block of `512^k` pages is exactly the set of pages that share
      its prefix. */
  lemma {:induction false} AlignedBlock(x: nat, k: nat, p: nat)
    requires x % Pow(k) == 0
    ensures Prefix(p, k) == Prefix(x, k) <==> x <= p < x + Pow(k)
    decreases k
  {
    if k > 0 {
      AlignedQuotient(x, k);
      PrefixFromBottom(p, k);
      PrefixFromBottom(x, k);
      AlignedBlock(x / 512, k - 1, p / 512);
    }
  }

  /** Crossing into an aligned block moves the prefix on by one. */
  lemma {:induction false} PrefixStep(x: nat, k: nat)
    requires x > 0 && x % Pow(k) == 0
    ensures Prefix(x, k) == Prefix(x - 1, k) + 1
    decreases k
  {
    if k > 0 {
      AlignedQuotient(x, k);
      PrefixFromBottom(x, k);
      PrefixFromBottom(x - 1, k);
      assert (x - 1) / 512 == x / 512 - 1;
      PrefixStep(x / 512, k - 1);
    }
  }

  lemma {:induction false} AlignedUp(x: nat, k: nat)
    requires x % Pow(k) == 0 && Prefix(x, k) % 512 == 0
    ensures x % Pow(k + 1) == 0
    decreases k
  {
    if k == 0 {
    } else {
      AlignedQuotient(x, k);
      PrefixFromBottom(x, k);
      AlignedUp(x / 512, k - 1);
      var m := Pow(k);
      var q := (x / 512) / m;
      assert x / 512 == m * q;
      assert x == 512 * (m * q);
      assert 512 * (m * q) == (512 * m) * q;
      MulMod(512 * m, q);
    }
  }

  lemma {:induction false} AlignedDown(x: nat, k: nat)
    requires k > 0 && x % Pow(k) == 0
    ensures x % Pow(k - 1) == 0
  {
    var m := Pow(k - 1);
    var q := x / Pow(k);
    assert x == (512 * m) * q;
    assert (512 * m) * q == m * (512 * q);
    MulMod(m, 512 * q);
  }

  lemma AlignedNext(x: nat, k: nat)
    requires x % Pow(k) == 0
    ensures (x + Pow(k)) % Pow(k) == 0
  {
    var m := Pow(k);
    var q := x / m;
    assert x + m == m * q + m == m * (q + 1);
    MulMod(m, q + 1);
  }

  /** No aligned page lies strictly inside an aligned block. */
  lemma NotAlignedInside(x: nat, y: nat, k: nat)
    requires x % Pow(k) == 0 && x < y < x + Pow(k)
    ensures y % Pow(k) != 0
  {
    if y % Pow(k) == 0 {
      AlignedBlock(x, k, y);
      AlignedBlock(x, k, y - 1);
      PrefixStep(y, k);
    }
  }

  /** The root covers every page of a 64-bit address space. */
  lemma RootCovers(p: nat)
    requires p < ADDR_SPACE / TARGET_PAGE_SIZE
    ensures Prefix(p, P_L2_LEVELS) == 0
    ensures Pow(P_L2_LEVELS) == ADDR_SPACE / TARGET_PAGE_SIZE
  {
    assert Pow(2) == 0x4_0000;
    assert Pow(4) == 0x10_0000_0000;
    AlignedBlock(0, P_L2_LEVELS, p);
    AlignedBlock(0, P_L2_LEVELS, 0);
    assert Prefix(0, 2) == 0;
    assert Prefix(0, 4) == 0;
  }

  // ---------------------------------------------------------------------
  // The meaning of a tree
  // ---------------------------------------------------------------------

  /** A tree together with its meaning.  Node `n` sits at level `level[n]` and
      covers the pages whose prefix above that level is `tag[n]`; entry `i` of
      the node covers the pages whose prefix is `tag[n] * 512 + i`.  `view` maps
      each page to its section and `leafs` are the sections used as leaves. */
  datatype Tree = Tree(
    root: Entry,
    nodes: seq<Node>,
    level: seq<nat>,
    tag: seq<nat>,
    view: nat -> nat,
    leafs: set<nat>)

  ghost predicate ValidRef(t: Tree, r: EntryRef) {
    |t.level| == |t.tag| == |t.nodes| &&
    (r.Slot? ==> r.node < |t.nodes| && r.idx < P_L2_SIZE)
  }

  ghost function EntryAt(t: Tree, r: EntryRef): Entry
    requires ValidRef(t, r)
  {
    if r.Root? then t.root else t.nodes[r.node][r.idx]
  }

  /** The level and prefix that identify the pages an entry covers. */
  ghost function RefLevel(t: Tree, r: EntryRef): nat
    requires ValidRef(t, r)
  {
    if r.Root? then P_L2_LEVELS else t.level[r.node]
  }

  ghost function RefTag(t: Tree, r: EntryRef): nat
    requires ValidRef(t, r)
  {
    if r.Root? then 0 else t.tag[r.node] * P_L2_SIZE + r.idx
  }

  ghost predicate Covers(t: Tree, r: EntryRef, p: nat)
    requires ValidRef(t, r)
  {
    Prefix(p, RefLevel(t, r)) == RefTag(t, r)
  }

  ghost predicate InNode(t: Tree, n: nat, p: nat)
    requires n < |t.level| == |t.tag|
  {
    Prefix(p, t.level[n] + 1) == t.tag[n]
  }

  /** Some page below the node is assigned. */
  ghost predicate Inhabited(t: Tree, n: nat)
    requires n < |t.level| == |t.tag|
  {
    exists p :: InNode(t, n, p) && t.view(p) != SECTION_UNASSIGNED
  }

  ghost predicate Shaped(t: Tree) {
    && |t.level| == |t.tag| == |t.nodes| < NODE_NIL
    && (forall n | 0 <= n < |t.nodes| :: t.level[n] < P_L2_LEVELS)
    && (forall n, m | 0 <= n < |t.nodes| && 0 <= m < |t.nodes| && t.level[n] == t.level[m] && t.tag[n] == t.tag[m] ::
          n == m)
    && (forall s | s in t.leafs :: 0 < s < NODE_NIL)
  }

  ghost predicate IsLink(e: Entry) {
    e.skip > 0 && e.ptr != NODE_NIL
  }

  /** What an entry of an uncompressed tree says about the pages it covers. */
  ghost predicate BuiltEntry(t: Tree, r: EntryRef)
    requires ValidRef(t, r)
  {
    var e := EntryAt(t, r);
    if e.skip == 0 then
      && (if e.ptr == SECTION_UNASSIGNED then RefLevel(t, r) == 0 else e.ptr in t.leafs)
      && (forall p | Covers(t, r, p) :: t.view(p) == e.ptr)
    else if e.ptr == NODE_NIL then
      && e.skip == 1
      && RefLevel(t, r) >= 1
      && (forall p | Covers(t, r, p) :: t.view(p) == SECTION_UNASSIGNED)
    else
      && e.skip == 1
      && e.ptr < |t.nodes|
      && t.level[e.ptr] + 1 == RefLevel(t, r)
      && t.tag[e.ptr] == RefTag(t, r)
  }

  ghost function BuiltVerdict(t: Tree): Verdict {
    if Shaped(t) && forall r | ValidRef(t, r) :: BuiltEntry(t, r) then Holds else Broken
  }

  ghost predicate Built(t: Tree) {
    BuiltVerdict(t) == Holds
  }

  /** Every node is inhabited, except that nodes at level `l` or above on the way
      to page `index` may still be empty. */
  ghost predicate InhabitedBut(t: Tree, index: nat, l: nat)
    requires |t.level| == |t.tag| == |t.nodes|
  {
    forall n | 0 <= n < |t.nodes| :: Inhabited(t, n) || (t.level[n] >= l && InNode(t, n, index))
  }

  ghost predicate AllInhabited(t: Tree)
    requires |t.level| == |t.tag| == |t.nodes|
  {
    forall n | 0 <= n < |t.nodes| :: Inhabited(t, n)
  }

  /** Every entry at level `l` or above on the way to `index` points to a node. */
  ghost predicate OpenAbove(t: Tree, index: nat, l: nat) {
    forall r | ValidRef(t, r) && RefLevel(t, r) >= l && Covers(t, r, index) :: IsLink(EntryAt(t, r))
  }

  /** Two entries that cover a common page at the same level are the same entry. */
  lemma SameSlot(t: Tree, r: EntryRef, r': EntryRef, p: nat)
    requires Shaped(t) && ValidRef(t, r) && ValidRef(t, r')
    requires RefLevel(t, r) == RefLevel(t, r') && Covers(t, r, p) && Covers(t, r', p)
    ensures r == r'
  {
    if r.Slot? && r'.Slot? {
      var a, b := t.tag[r.node], t.tag[r'.node];
      assert a * P_L2_SIZE + r.idx == b * P_L2_SIZE + r'.idx;
      assert a == b && r.idx == r'.idx;
    }
  }

  ghost function PutEntry(t: Tree, r: EntryRef, e: Entry): Tree
    requires ValidRef(t, r)
  {
    if r.Root? then t.(root := e)
    else t.(nodes := t.nodes[r.node := t.nodes[r.node][r.idx := e]])
  }

  ghost function Assigned(view: nat -> nat, lo: nat, hi: nat, leaf: nat): nat -> nat {
    (p: nat) => if lo <= p < hi then leaf else view(p)
  }

  function FreshNode(level: nat): Node {
    seq(P_L2_SIZE, _ => if level == 0 then Entry(0, SECTION_UNASSIGNED) else Entry(1, NODE_NIL))
  }

  /** The tree after a node has been allocated under entry `r`. */
  ghost function WithNode(t: Tree, r: EntryRef): Tree
    requires ValidRef(t, r) && RefLevel(t, r) >= 1
  {
    var t1 := PutEntry(t, r, Entry(1, |t.nodes|));
    t1.(nodes := t1.nodes + [FreshNode(RefLevel(t, r) - 1)],
        level := t.level + [RefLevel(t, r) - 1],
        tag := t.tag + [RefTag(t, r)])
  }

  /** A node may be allocated under entry `r` on the way to page `index`. */
  ghost predicate CanGrow(t: Tree, r: EntryRef, index: nat) {
    && Built(t) && ValidRef(t, r) && |t.nodes| + 1 < NODE_NIL
    && EntryAt(t, r) == Entry(1, NODE_NIL) && Covers(t, r, index)
    && RefLevel(t, r) >= 1
    && InhabitedBut(t, index, RefLevel(t, r))
    && OpenAbove(t, index, RefLevel(t, r) + 1)
  }

  lemma WithNodeShaped(t: Tree, r: EntryRef, index: nat)
    requires CanGrow(t, r, index)
    ensures Shaped(WithNode(t, r))
  {
    var l := RefLevel(t, r);
    assert BuiltEntry(t, r);
    forall n | 0 <= n < |t.nodes| && t.level[n] == l - 1
      ensures t.tag[n] != RefTag(t, r)
    {
      assert Inhabited(t, n);
      var p :| InNode(t, n, p) && t.view(p) != SECTION_UNASSIGNED;
      assert !Covers(t, r, p);
    }
  }

  /** An entry keeps its meaning when nodes are only added. */
  lemma BuiltEntryFrame(t: Tree, t': Tree, x: EntryRef)
    requires ValidRef(t, x) && ValidRef(t', x) && BuiltEntry(t, x)
    requires t.level <= t'.level && t.tag <= t'.tag
    requires EntryAt(t', x) == EntryAt(t, x)
    requires t'.view == t.view && t'.leafs == t.leafs
    ensures BuiltEntry(t', x)
  {
    assert RefLevel(t', x) == RefLevel(t, x) && RefTag(t', x) == RefTag(t, x);
    assert forall p :: Covers(t', x, p) == Covers(t, x, p);
  }

  lemma FreshEntryBuilt(t: Tree, r: EntryRef, i: nat)
    requires Shaped(t) && ValidRef(t, r) && RefLevel(t, r) >= 1 && i < P_L2_SIZE
    requires EntryAt(t, r) == Entry(1, NODE_NIL) && BuiltEntry(t, r)
    ensures BuiltEntry(WithNode(t, r), Slot(|t.nodes|, i))
  {
    var t' := WithNode(t, r);
    var x := Slot(|t.nodes|, i);
    var l := RefLevel(t, r);
    forall p | Covers(t', x, p)
      ensures t'.view(p) == SECTION_UNASSIGNED
    {
      assert Prefix(p, l) == Prefix(p, l - 1) / 512;
      assert Covers(t, r, p);
    }
  }

  lemma WithNodeBuilt(t: Tree, r: EntryRef, index: nat)
    requires CanGrow(t, r, index)
    ensures Built(WithNode(t, r))
  {
    WithNodeShaped(t, r, index);
    var t' := WithNode(t, r);
    assert BuiltEntry(t, r);
    forall x | ValidRef(t', x)
      ensures BuiltEntry(t', x)
    {
      if x == r {
        assert RefLevel(t', r) == RefLevel(t, r) && RefTag(t', r) == RefTag(t, r);
      } else if x.Slot? && x.node == |t.nodes| {
        FreshEntryBuilt(t, r, x.idx);
      } else {
        assert ValidRef(t, x) && BuiltEntry(t, x);
        BuiltEntryFrame(t, t', x);
      }
    }
  }

  /** Allocating a node below an empty entry keeps the meaning of the tree. */
  lemma WithNodeKeeps(t: Tree, r: EntryRef, index: nat)
    requires CanGrow(t, r, index)
    ensures var t' := WithNode(t, r);
            && Built(t')
            && InhabitedBut(t', index, RefLevel(t, r) - 1)
            && OpenAbove(t', index, RefLevel(t, r))
  {
    WithNodeBuilt(t, r, index);
    var l := RefLevel(t, r);
    var t' := WithNode(t, r);
    forall n | 0 <= n < |t'.nodes|
      ensures Inhabited(t', n) || (t'.level[n] >= l - 1 && InNode(t', n, index))
    {
      if n < |t.nodes| && Inhabited(t, n) {
        var p :| InNode(t, n, p) && t.view(p) != SECTION_UNASSIGNED;
        assert InNode(t', n, p) && t'.view(p) != SECTION_UNASSIGNED;
      }
    }
    forall x | ValidRef(t', x) && RefLevel(t', x) >= l && Covers(t', x, index)
      ensures IsLink(EntryAt(t', x))
    {
      assert ValidRef(t, x) && Covers(t, x, index);
      if x != r && RefLevel(t, x) == l {
        SameSlot(t, x, r, index);
      }
    }
  }

  /** The tree after entry `r` has become a leaf for the pages it covers. */
  ghost function WithLeaf(t: Tree, r: EntryRef, index: nat, leaf: nat): Tree
    requires ValidRef(t, r)
  {
    PutEntry(t, r, Entry(0, leaf)).(view := Assigned(t.view, index, index + Pow(RefLevel(t, r)), leaf))
  }

  /** Entry `r` may become a leaf for the fresh pages it covers, from `index` on. */
  ghost predicate CanLeaf(t: Tree, r: EntryRef, index: nat, leaf: nat) {
    && Built(t) && ValidRef(t, r) && Covers(t, r, index)
    && leaf in t.leafs
    && (forall p: nat :: Covers(t, r, p) <==> index <= p < index + Pow(RefLevel(t, r)))
    && (forall p | Covers(t, r, p) :: t.view(p) == SECTION_UNASSIGNED)
    && InhabitedBut(t, index, RefLevel(t, r))
    && OpenAbove(t, index, RefLevel(t, r) + 1)
  }

  /** Overwriting a whole entry of fresh pages with a leaf assigns exactly the
      pages it covers. */
  lemma WithLeafBuilt(t: Tree, r: EntryRef, index: nat, leaf: nat)
    requires CanLeaf(t, r, index, leaf)
    ensures Built(WithLeaf(t, r, index, leaf))
  {
    var t' := WithLeaf(t, r, index, leaf);
    forall x | ValidRef(t', x)
      ensures BuiltEntry(t', x)
    {
      assert ValidRef(t, x) && BuiltEntry(t, x);
      assert forall p :: Covers(t', x, p) <==> Covers(t, x, p);
      if x != r && !IsLink(EntryAt(t, x)) {
        forall p | Covers(t, x, p)
          ensures !Covers(t, r, p)
        {
          NoOverlap(t, r, index, x, p);
        }
      }
    }
  }

  lemma WithLeafInhabited(t: Tree, r: EntryRef, index: nat, leaf: nat)
    requires CanLeaf(t, r, index, leaf)
    ensures AllInhabited(WithLeaf(t, r, index, leaf))
  {
    var t' := WithLeaf(t, r, index, leaf);
    forall n | 0 <= n < |t'.nodes|
      ensures Inhabited(t', n)
    {
      if Inhabited(t, n) {
        var p :| InNode(t, n, p) && t.view(p) != SECTION_UNASSIGNED;
        assert InNode(t', n, p) && t'.view(p) != SECTION_UNASSIGNED;
      } else {
        assert InNode(t', n, index) && t'.view(index) != SECTION_UNASSIGNED;
      }
    }
  }

  lemma WithLeafExtends(t: Tree, r: EntryRef, index: nat, leaf: nat)
    requires CanLeaf(t, r, index, leaf)
    ensures Extends(t, WithLeaf(t, r, index, leaf), RefLevel(t, r))
  {
    FreshNotLinked(t, r, index);
    var t' := WithLeaf(t, r, index, leaf);
    assert forall x | ValidRef(t, x) && x != r :: EntryAt(t', x) == EntryAt(t, x);
  }

  /** No other leaf or empty entry shares a page with an entry that is about to
      be set: a larger one is open, a smaller one lies in an inhabited node. */
  lemma NoOverlap(t: Tree, r: EntryRef, index: nat, x: EntryRef, p: nat)
    requires Built(t) && ValidRef(t, r) && Covers(t, r, index)
    requires forall q | Covers(t, r, q) :: t.view(q) == SECTION_UNASSIGNED
    requires InhabitedBut(t, index, RefLevel(t, r))
    requires OpenAbove(t, index, RefLevel(t, r) + 1)
    requires ValidRef(t, x) && x != r && !IsLink(EntryAt(t, x))
    requires Covers(t, x, p)
    ensures !Covers(t, r, p)
  {
    var l, l' := RefLevel(t, r), RefLevel(t, x);
    if l' > l {
      assert !Covers(t, x, index);
      if Covers(t, r, p) {
        PrefixCoarser(p, index, l, l');
      }
    } else if l' == l {
      if Covers(t, r, p) {
        SameSlot(t, x, r, p);
      }
    } else {
      assert x.Slot?;
      assert InNode(t, x.node, p) by {
        assert Prefix(p, l' + 1) == Prefix(p, l') / 512;
      }
      assert Inhabited(t, x.node);
      var q :| InNode(t, x.node, q) && t.view(q) != SECTION_UNASSIGNED;
      PrefixCoarser(p, q, l' + 1, l);
      assert !Covers(t, r, q);
    }
  }

  /** The tree only grows, at or below level `lvl`, and linked entries stay
      linked. */
  ghost predicate Extends(t: Tree, t': Tree, lvl: nat) {
    && |t.level| == |t.tag| == |t.nodes| <= |t'.nodes| && |t'.level| == |t'.tag| == |t'.nodes|
    && t.level <= t'.level && t.tag <= t'.tag
    && t.leafs == t'.leafs
    && (forall n | |t.nodes| <= n < |t'.nodes| :: t'.level[n] <= lvl)
    && (forall r | ValidRef(t, r) && IsLink(EntryAt(t, r)) :: EntryAt(t', r) == EntryAt(t, r))
  }

  lemma ExtendsTransitive(t: Tree, t': Tree, t'': Tree, a: nat, b: nat)
    requires Extends(t, t', a) && Extends(t', t'', b) && b <= a
    ensures Extends(t, t'', a)
  {
    forall r | ValidRef(t, r) && IsLink(EntryAt(t, r))
      ensures EntryAt(t'', r) == EntryAt(t, r)
    {
      assert ValidRef(t', r);
    }
  }

  /** Growth below an entry keeps the way to every page of that entry open. */
  lemma StaysOpen(t: Tree, t': Tree, from: nat, to: nat, lvl: nat)
    requires OpenAbove(t, from, lvl + 1) && Extends(t, t', lvl)
    requires Prefix(from, lvl + 1) == Prefix(to, lvl + 1)
    ensures OpenAbove(t', to, lvl + 1)
  {
    forall r | ValidRef(t', r) && RefLevel(t', r) >= lvl + 1 && Covers(t', r, to)
      ensures IsLink(EntryAt(t', r))
    {
      assert ValidRef(t, r);
      PrefixCoarser(from, to, lvl + 1, RefLevel(t, r));
      assert Covers(t, r, from);
    }
  }

  /** An entry that links to a node opens the way one level further. */
  lemma LinkOpens(t: Tree, lp: EntryRef, index: nat)
    requires Shaped(t) && ValidRef(t, lp) && Covers(t, lp, index) && IsLink(EntryAt(t, lp))
    requires OpenAbove(t, index, RefLevel(t, lp) + 1)
    ensures OpenAbove(t, index, RefLevel(t, lp))
  {
    forall r | ValidRef(t, r) && RefLevel(t, r) >= RefLevel(t, lp) && Covers(t, r, index)
      ensures IsLink(EntryAt(t, r))
    {
      if RefLevel(t, r) == RefLevel(t, lp) {
        SameSlot(t, r, lp, index);
      }
    }
  }

  /** An entry whose pages are all fresh does not link to a node. */
  lemma FreshNotLinked(t: Tree, r: EntryRef, index: nat)
    requires Built(t) && ValidRef(t, r)
    requires forall p | Covers(t, r, p) :: t.view(p) == SECTION_UNASSIGNED
    requires InhabitedBut(t, index, RefLevel(t, r))
    ensures !IsLink(EntryAt(t, r))
  {
    assert BuiltEntry(t, r);
  }

  // ---------------------------------------------------------------------
  // Path compression
  // ---------------------------------------------------------------------

  /** The node lies in the part of the tree that belongs to the entry. */
  ghost predicate Under(t: Tree, r: EntryRef, n: nat)
    requires ValidRef(t, r) && n < |t.nodes|
  {
    t.level[n] < RefLevel(t, r) && Prefix(t.tag[n], RefLevel(t, r) - t.level[n] - 1) == RefTag(t, r)
  }

  lemma UnderChain(t: Tree, r: EntryRef, n: nat, i: nat, m: nat)
    requires ValidRef(t, r) && n < |t.nodes| && m < |t.nodes| && i < P_L2_SIZE
    requires Under(t, r, n) && Under(t, Slot(n, i), m)
    ensures Under(t, r, m)
  {
    var a, b := t.level[n] - t.level[m] - 1, RefLevel(t, r) - t.level[n];
    PrefixPrefix(t.tag[m], a, b);
    PrefixFromBottom(t.tag[n] * P_L2_SIZE + i, b);
  }

  /** What an entry of a compressed tree still says: only assigned pages are sure
      to take the right way, other pages may be led anywhere. */
  ghost predicate CompactEntry(t: Tree, r: EntryRef)
    requires ValidRef(t, r)
  {
    var e := EntryAt(t, r);
    if e.skip == 0 then
      && (e.ptr == SECTION_UNASSIGNED || e.ptr in t.leafs)
      && (forall p | Covers(t, r, p) :: t.view(p) == SECTION_UNASSIGNED || t.view(p) == e.ptr)
    else if e.ptr == NODE_NIL then
      && e.skip <= RefLevel(t, r)
      && (forall p | Covers(t, r, p) :: t.view(p) == SECTION_UNASSIGNED)
    else
      && e.skip <= RefLevel(t, r)
      && e.ptr < |t.nodes|
      && t.level[e.ptr] + e.skip == RefLevel(t, r)
      && Under(t, r, e.ptr)
      && (forall p | Covers(t, r, p) :: t.view(p) == SECTION_UNASSIGNED || InNode(t, e.ptr, p))
  }

  ghost function CompactVerdict(t: Tree): Verdict {
    if Shaped(t) && forall r | ValidRef(t, r) :: CompactEntry(t, r) then Holds else Broken
  }

  ghost predicate Compacted(t: Tree) {
    CompactVerdict(t) == Holds
  }

  lemma BuiltIsCompacted(t: Tree)
    requires Built(t)
    ensures Compacted(t)
  {
    forall r | ValidRef(t, r)
      ensures CompactEntry(t, r)
    {
      assert BuiltEntry(t, r);
    }
  }

  /** The entry that replaces a link to a node with a single child. */
  function Bypass(e: Entry, child: Entry): Entry {
    Entry(if child.skip == 0 then 0 else e.skip + child.skip, child.ptr)
  }

  /** An entry keeps its meaning when it keeps its contents. */
  lemma CompactEntryFrame(t: Tree, t': Tree, r: EntryRef)
    requires ValidRef(t, r) && ValidRef(t', r) && CompactEntry(t, r)
    requires t'.level == t.level && t'.tag == t.tag && t'.view == t.view && t'.leafs == t.leafs
    requires EntryAt(t', r) == EntryAt(t, r)
    ensures CompactEntry(t', r)
  {
    assert forall p :: Covers(t', r, p) == Covers(t, r, p);
    assert forall n, p :: 0 <= n < |t.nodes| ==> InNode(t', n, p) == InNode(t, n, p);
  }

  /** The entry that takes the place of its only grandchild says what that one said. */
  lemma BypassEntry(t: Tree, t': Tree, lp: EntryRef, child: EntryRef)
    requires ValidRef(t, lp) && ValidRef(t, child) && CompactEntry(t, lp) && CompactEntry(t, child)
    requires IsLink(EntryAt(t, lp)) && child.Slot? && child.node == EntryAt(t, lp).ptr
             && EntryAt(t, child).ptr != NODE_NIL
    requires forall p | Covers(t, lp, p) && t.view(p) != SECTION_UNASSIGNED :: Covers(t, child, p)
    requires t' == PutEntry(t, lp, Bypass(EntryAt(t, lp), EntryAt(t, child)))
    ensures CompactEntry(t', lp)
  {
    if EntryAt(t, child).skip > 0 {
      UnderChain(t, lp, child.node, child.idx, EntryAt(t, child).ptr);
    }
    assert forall p :: Covers(t', lp, p) == Covers(t, lp, p);
    assert forall n, p :: 0 <= n < |t.nodes| ==> InNode(t', n, p) == InNode(t, n, p);
  }

  /** Skipping a node whose only child is `i` loses index bits but no assigned
      page: such a page had to go through that child. */
  lemma BypassKeeps(t: Tree, lp: EntryRef, i: nat)
    requires Compacted(t) && ValidRef(t, lp) && IsLink(EntryAt(t, lp)) && i < P_L2_SIZE
    requires var n := EntryAt(t, lp).ptr;
             n < |t.nodes| && forall j | 0 <= j < P_L2_SIZE && j != i :: t.nodes[n][j].ptr == NODE_NIL
    requires t.nodes[EntryAt(t, lp).ptr][i].ptr != NODE_NIL
    ensures Compacted(PutEntry(t, lp, Bypass(EntryAt(t, lp), t.nodes[EntryAt(t, lp).ptr][i])))
  {
    var e := EntryAt(t, lp);
    var child := Slot(e.ptr, i);
    var t' := PutEntry(t, lp, Bypass(e, EntryAt(t, child)));
    assert CompactEntry(t, lp) && CompactEntry(t, child);
    forall p | Covers(t, lp, p) && t.view(p) != SECTION_UNASSIGNED
      ensures Covers(t, child, p)
    {
      SoleChild(t, e.ptr, i, p);
    }
    forall r | ValidRef(t', r)
      ensures CompactEntry(t', r)
    {
      assert ValidRef(t, r) && CompactEntry(t, r);
      if r == lp {
        BypassEntry(t, t', lp, child);
      } else {
        CompactEntryFrame(t, t', r);
      }
    }
  }

  lemma SoleChild(t: Tree, n: nat, i: nat, p: nat)
    requires Compacted(t) && n < |t.nodes| && i < P_L2_SIZE
    requires forall j | 0 <= j < P_L2_SIZE && j != i :: t.nodes[n][j].ptr == NODE_NIL
    requires InNode(t, n, p) && t.view(p) != SECTION_UNASSIGNED
    ensures Covers(t, Slot(n, i), p)
  {
    var j := Prefix(p, t.level[n]) % 512;
    assert Prefix(p, t.level[n] + 1) == Prefix(p, t.level[n]) / 512;
    assert Covers(t, Slot(n, j), p);
    assert CompactEntry(t, Slot(n, j));
  }

  /** Nothing has changed but the entry and the nodes under it, and no entry was
      assigned or became unassigned. */
  ghost predicate SameOutside(t: Tree, t': Tree, lp: EntryRef)
    requires ValidRef(t, lp)
  {
    && t'.level == t.level && t'.tag == t.tag && t'.view == t.view && t'.leafs == t.leafs
    && |t'.nodes| == |t.nodes|
    && (forall r | ValidRef(t, r) :: EntryAt(t', r).ptr == NODE_NIL <==> EntryAt(t, r).ptr == NODE_NIL)
    && (forall r | ValidRef(t, r) && r != lp && !(r.Slot? && Under(t, lp, r.node)) :: EntryAt(t', r) == EntryAt(t, r))
  }

  lemma CompactFrame(t0: Tree, t: Tree, t': Tree, lp: EntryRef, x: EntryRef)
    requires ValidRef(t0, lp) && ValidRef(t, x) && x.Slot?
    requires SameOutside(t0, t, lp) && SameOutside(t, t', x)
    requires Under(t0, lp, x.node)
    ensures SameOutside(t0, t', lp) && EntryAt(t', lp) == EntryAt(t, lp)
    ensures forall j | 0 <= j < P_L2_SIZE :: t'.nodes[x.node][j].ptr == NODE_NIL <==> t.nodes[x.node][j].ptr == NODE_NIL
  {
    assert ValidRef(t, lp);
    forall r | ValidRef(t0, r)
      ensures EntryAt(t', r).ptr == NODE_NIL <==> EntryAt(t0, r).ptr == NODE_NIL
      ensures r != lp && !(r.Slot? && Under(t0, lp, r.node)) ==> EntryAt(t', r) == EntryAt(t0, r)
    {
      assert ValidRef(t, r);
      if r.Slot? && Under(t, x, r.node) {
        UnderChain(t0, lp, x.node, x.idx, r.node);
      }
    }
    forall j | 0 <= j < P_L2_SIZE
      ensures t'.nodes[x.node][j].ptr == NODE_NIL <==> t.nodes[x.node][j].ptr == NODE_NIL
    {
      assert ValidRef(t, Slot(x.node, j));
    }
  }

  // ---------------------------------------------------------------------
  // How far paths are compressed
  // ---------------------------------------------------------------------

  /** Exactly one entry of the node is assigned. */
  ghost predicate SingleChild(node: Node) {
    exists i :: 0 <= i < P_L2_SIZE && node[i].ptr != NODE_NIL && forall j | 0 <= j < P_L2_SIZE && j != i ::
                  node[j].ptr == NODE_NIL
  }

  /** On no way down from the entry is there a node with a single child. */
  ghost predicate Short(nodes: seq<Node>, e: Entry, l: nat)
    decreases l, 0
  {
    IsLink(e) ==>
      e.skip <= l && e.ptr < |nodes| && !SingleChild(nodes[e.ptr]) && ShortBelow(nodes, nodes[e.ptr], l - e.skip)
  }

  ghost predicate ShortBelow(nodes: seq<Node>, node: Node, l: nat)
    decreases l, 1
  {
    forall j {:trigger Short(nodes, node[j], l)} | 0 <= j < P_L2_SIZE :: Short(nodes, node[j], l)
  }

  /** Paths stay short where no node changes. */
  lemma {:induction false} ShortFrame(t: Tree, nodes: seq<Node>, r: EntryRef)
    requires Compacted(t) && ValidRef(t, r) && |nodes| == |t.nodes|
    requires forall n | 0 <= n < |nodes| && Under(t, r, n) :: nodes[n] == t.nodes[n]
    requires Short(t.nodes, EntryAt(t, r), RefLevel(t, r))
    ensures Short(nodes, EntryAt(t, r), RefLevel(t, r))
    decreases RefLevel(t, r)
  {
    var e := EntryAt(t, r);
    assert CompactEntry(t, r);
    if IsLink(e) {
      var node, l := t.nodes[e.ptr], t.level[e.ptr];
      forall j | 0 <= j < P_L2_SIZE
        ensures Short(nodes, node[j], l)
      {
        assert Short(t.nodes, node[j], l);
        forall n | 0 <= n < |nodes| && Under(t, Slot(e.ptr, j), n)
          ensures nodes[n] == t.nodes[n]
        {
          UnderChain(t, r, e.ptr, j, n);
        }
        ShortFrame(t, nodes, Slot(e.ptr, j));
      }
    }
  }

  /** The paths down from one entry stay short when another entry of the same node
      is compressed. */
  lemma ShortSibling(t: Tree, t': Tree, n: nat, i: nat, j: nat)
    requires Compacted(t) && n < |t.nodes| && i < P_L2_SIZE && j < P_L2_SIZE && i != j
    requires ValidRef(t, Slot(n, i)) && SameOutside(t, t', Slot(n, i))
    requires Short(t.nodes, t.nodes[n][j], t.level[n])
    ensures t'.nodes[n][j] == t.nodes[n][j] && Short(t'.nodes, t'.nodes[n][j], t.level[n])
  {
    assert ValidRef(t, Slot(n, j));
    forall m | 0 <= m < |t.nodes| && Under(t, Slot(n, j), m)
      ensures t'.nodes[m] == t.nodes[m]
    {
      assert !Under(t, Slot(n, i), m);
      forall k | 0 <= k < P_L2_SIZE
        ensures t'.nodes[m][k] == t.nodes[m][k]
      {
        assert ValidRef(t, Slot(m, k)) && EntryAt(t', Slot(m, k)) == EntryAt(t, Slot(m, k));
      }
    }
    ShortFrame(t, t'.nodes, Slot(n, j));
  }

  /** The first `i` entries of the node lead down short paths. */
  ghost predicate ShortUpTo(t: Tree, n: nat, i: nat)
    requires n < |t.nodes| == |t.level|
  {
    forall j {:trigger Short(t.nodes, t.nodes[n][j], t.level[n])} | 0 <= j < i && j < P_L2_SIZE ::
      Short(t.nodes, t.nodes[n][j], t.level[n])
  }

  lemma ShortNext(t: Tree, t': Tree, n: nat, i: nat)
    requires Compacted(t) && n < |t.nodes| && i < P_L2_SIZE && ShortUpTo(t, n, i)
    requires ValidRef(t, Slot(n, i)) && SameOutside(t, t', Slot(n, i))
    requires Short(t'.nodes, t'.nodes[n][i], t.level[n])
    ensures ShortUpTo(t', n, i + 1)
  {
    forall j | 0 <= j < i
      ensures Short(t'.nodes, t'.nodes[n][j], t.level[n])
    {
      ShortSibling(t, t', n, i, j);
    }
  }

  lemma ShortSkip(nodes: seq<Node>, e: Entry, l: nat, k: nat)
    requires Short(nodes, e, l)
    ensures Short(nodes, Bypass(Entry(k, 0), e), l + k)
  {
    if IsLink(e) {
      assert l + k - (k + e.skip) == l - e.skip;
    }
  }

  /** The entry that skips a node with a single child leads down short paths. */
  lemma BypassShort(t: Tree, t': Tree, lp: EntryRef, i: nat)
    requires Compacted(t) && ValidRef(t, lp) && IsLink(EntryAt(t, lp)) && i < P_L2_SIZE
    requires EntryAt(t, lp).ptr < |t.nodes| && ShortUpTo(t, EntryAt(t, lp).ptr, P_L2_SIZE)
    requires t' == PutEntry(t, lp, Bypass(EntryAt(t, lp), t.nodes[EntryAt(t, lp).ptr][i]))
    ensures Short(t'.nodes, EntryAt(t', lp), RefLevel(t, lp))
  {
    var e := EntryAt(t, lp);
    var child := Slot(e.ptr, i);
    assert CompactEntry(t, lp);
    forall m | 0 <= m < |t.nodes| && Under(t, child, m)
      ensures t'.nodes[m] == t.nodes[m]
    {
      assert t.level[m] < RefLevel(t, lp);
    }
    ShortFrame(t, t'.nodes, child);
    ShortSkip(t'.nodes, EntryAt(t, child), t.level[e.ptr], e.skip);
  }

  // ---------------------------------------------------------------------
  // The entries of a node, one after the other
  // ---------------------------------------------------------------------

  /** `valid` of the first `i` entries are assigned, `validPtr` is the last of them. */
  ghost predicate Counted(node: Node, i: nat, valid: nat, validPtr: nat)
    requires i <= P_L2_SIZE
  {
    && (valid == 0 ==> forall j | 0 <= j < i :: node[j].ptr == NODE_NIL)
    && (valid >= 1 ==> validPtr < i && node[validPtr].ptr != NODE_NIL)
    && (valid == 1 ==> forall j | 0 <= j < i && j != validPtr :: node[j].ptr == NODE_NIL)
    && (valid >= 2 ==> exists j :: 0 <= j < validPtr && node[j].ptr != NODE_NIL)
  }

  lemma CountedNext(node: Node, node': Node, i: nat, valid: nat, validPtr: nat)
    requires i < P_L2_SIZE && Counted(node, i, valid, validPtr)
    requires forall j | 0 <= j < P_L2_SIZE :: node'[j].ptr == NODE_NIL <==> node[j].ptr == NODE_NIL
    ensures node[i].ptr == NODE_NIL ==> Counted(node', i + 1, valid, validPtr)
    ensures node[i].ptr != NODE_NIL ==> Counted(node', i + 1, valid + 1, i)
  {
    if valid >= 2 {
      var j :| 0 <= j < validPtr && node[j].ptr != NODE_NIL;
      assert node'[j].ptr != NODE_NIL;
    }
    if valid >= 1 {
      assert node'[validPtr].ptr != NODE_NIL;
    }
  }

  lemma CountedAll(node: Node, valid: nat, validPtr: nat)
    requires Counted(node, P_L2_SIZE, valid, validPtr)
    ensures SingleChild(node) <==> valid == 1
  {
    if valid >= 2 {
      var j :| 0 <= j < validPtr && node[j].ptr != NODE_NIL;
      assert node[validPtr].ptr != NODE_NIL;
    }
  }

  ghost function CompactingVerdict(t0: Tree, t: Tree, lp: EntryRef, n: nat, i: nat): Verdict
    requires ValidRef(t0, lp) && n < |t0.nodes|
  {
    if Compacted(t) && SameOutside(t0, t, lp) && EntryAt(t, lp) == EntryAt(t0, lp) && ShortUpTo(t, n, i) then Holds
      else Broken
  }

  /** The first `i` entries of the node that `lp` links to have been compressed. */
  ghost predicate Compacting(t0: Tree, t: Tree, lp: EntryRef, n: nat, i: nat)
    requires ValidRef(t0, lp) && n < |t0.nodes|
  {
    CompactingVerdict(t0, t, lp, n, i) == Holds
  }

  lemma CompactingStarts(t: Tree, lp: EntryRef, n: nat)
    requires Compacted(t) && ValidRef(t, lp) && n < |t.nodes|
    ensures Compacting(t, t, lp, n, 0)
  {
  }

  /** An entry without a link needs no compression. */
  lemma CompactingSkip(t0: Tree, t: Tree, lp: EntryRef, n: nat, i: nat)
    requires ValidRef(t0, lp) && n < |t0.nodes| && Compacting(t0, t, lp, n, i)
    requires i < P_L2_SIZE && !IsLink(t.nodes[n][i])
    ensures Compacting(t0, t, lp, n, i + 1)
  {
  }

  lemma CompactingNext(t0: Tree, t: Tree, t': Tree, lp: EntryRef, n: nat, i: nat)
    requires ValidRef(t0, lp) && n < |t0.nodes| && Under(t0, lp, n) && Compacting(t0, t, lp, n, i) && i < P_L2_SIZE
    requires ValidRef(t, Slot(n, i)) && Compacted(t') && SameOutside(t, t', Slot(n, i))
    requires Short(t'.nodes, t'.nodes[n][i], t.level[n])
    ensures Compacting(t0, t', lp, n, i + 1)
    ensures forall j | 0 <= j < P_L2_SIZE :: t'.nodes[n][j].ptr == NODE_NIL <==> t.nodes[n][j].ptr == NODE_NIL
  {
    CompactFrame(t0, t, t', lp, Slot(n, i));
    ShortNext(t, t', n, i);
  }

  /** The node has more than one child, or none. */
  lemma CompactingStops(t0: Tree, t: Tree, lp: EntryRef)
    requires ValidRef(t0, lp) && Compacted(t0) && IsLink(EntryAt(t0, lp)) && EntryAt(t0, lp).ptr < |t0.nodes|
    requires Compacting(t0, t, lp, EntryAt(t0, lp).ptr, P_L2_SIZE) && !SingleChild(t.nodes[EntryAt(t0, lp).ptr])
    ensures Compacted(t) && SameOutside(t0, t, lp) && Short(t.nodes, EntryAt(t, lp), RefLevel(t, lp))
  {
    assert CompactEntry(t0, lp);
  }

  /** The node has a single child, and there is always room for the sum of the skips. */
  lemma CompactingBypasses(t0: Tree, t: Tree, t': Tree, lp: EntryRef, i: nat)
    requires ValidRef(t0, lp) && Compacted(t0) && IsLink(EntryAt(t0, lp)) && EntryAt(t0, lp).ptr < |t0.nodes|
    requires Compacting(t0, t, lp, EntryAt(t0, lp).ptr, P_L2_SIZE)
             && Counted(t.nodes[EntryAt(t0, lp).ptr], P_L2_SIZE, 1, i)
    requires t' == PutEntry(t, lp, Bypass(EntryAt(t, lp), t.nodes[EntryAt(t, lp).ptr][i]))
    ensures Compacted(t') && SameOutside(t0, t', lp) && Short(t'.nodes, EntryAt(t', lp), RefLevel(t', lp))
    ensures EntryAt(t, lp).skip + t.nodes[EntryAt(t, lp).ptr][i].skip <= P_L2_LEVELS
  {
    var e := EntryAt(t, lp);
    assert ValidRef(t, lp) && CompactEntry(t, lp) && CompactEntry(t, Slot(e.ptr, i));
    BypassKeeps(t, lp, i);
    BypassShort(t, t', lp, i);
  }

  // ---------------------------------------------------------------------
  // Sections
  // ---------------------------------------------------------------------

  /** The memory regions that matter to dispatch: the four built-in ones, the
      stand-in region of a sub-page table, and everything else. */
  datatype Region = IoUnassigned | IoNotDirty | IoRom | IoWatch | Subpage(table: nat) | Device(id: nat)

  /** A piece of an address space: `size` bytes at address `offset` that show the
      region from `offsetInRegion` on.  `size` may be as large as `2^64`. */
  datatype Section = Section(mr: Region, offset: nat, size: nat, offsetInRegion: nat)

  /** The final range check of a page lookup, with the 64-bit wrap-around of
      the last address of the range. */
  predicate CoversByte(s: Section, addr: nat) {
    s.size / ADDR_SPACE != 0 ||
    (s.offset <= addr && addr <= (s.offset + s.size % ADDR_SPACE - 1) % ADDR_SPACE)
  }

  /** Every section used as a leaf covers exactly the pages that show it. */
  ghost predicate Exact(sections: seq<Section>, view: nat -> nat, leafs: set<nat>) {
    && |sections| > SECTION_UNASSIGNED
    && (forall s | s in leafs :: s < |sections|)
    && (forall s, addr: nat | s in leafs && addr < ADDR_SPACE ::
          CoversByte(sections[s], addr) <==> view(addr / TARGET_PAGE_SIZE) == s)
  }

  // ---------------------------------------------------------------------
  // Lookup
  // ---------------------------------------------------------------------

  /** The leaf that the walk for a page ends in, from an entry at level `i`.
      Index bits of skipped levels are not compared. */
  function Walk(nodes: seq<Node>, e: Entry, i: nat, index: nat): nat
    decreases i
  {
    if e.skip == 0 || e.skip > i then e.ptr
    else if e.ptr == NODE_NIL || e.ptr >= |nodes| then SECTION_UNASSIGNED
    else Walk(nodes, nodes[e.ptr][Prefix(index, i - e.skip) % P_L2_SIZE], i - e.skip, index)
  }

  function Lookup(root: Entry, nodes: seq<Node>, sections: seq<Section>, addr: nat): nat {
    var leaf := Walk(nodes, root, P_L2_LEVELS, addr / TARGET_PAGE_SIZE);
    if leaf < |sections| && CoversByte(sections[leaf], addr) then leaf else SECTION_UNASSIGNED
  }

  /** The walk ends in a leaf, and for an assigned page that started inside the
      entry it is the right one. */
  lemma {:induction false} WalkReaches(t: Tree, r: EntryRef, index: nat)
    requires Compacted(t) && ValidRef(t, r)
    ensures var leaf := Walk(t.nodes, EntryAt(t, r), RefLevel(t, r), index);
            && (leaf == SECTION_UNASSIGNED || leaf in t.leafs)
            && (Covers(t, r, index) && t.view(index) != SECTION_UNASSIGNED ==> leaf == t.view(index))
    decreases RefLevel(t, r)
  {
    var e := EntryAt(t, r);
    assert CompactEntry(t, r);
    if e.skip > 0 && e.ptr != NODE_NIL {
      var i := RefLevel(t, r) - e.skip;
      assert Prefix(index, i + 1) == Prefix(index, i) / 512;
      WalkReaches(t, Slot(e.ptr, Prefix(index, i) % P_L2_SIZE), index);
    }
  }

  /** With the final range check, lookup computes the view. */
  lemma LookupIsView(t: Tree, sections: seq<Section>, addr: nat)
    requires Compacted(t) && Exact(sections, t.view, t.leafs)
    requires addr < ADDR_SPACE
    ensures Lookup(t.root, t.nodes, sections, addr) == t.view(addr / TARGET_PAGE_SIZE)
  {
    var index := addr / TARGET_PAGE_SIZE;
    RootCovers(index);
    WalkReaches(t, Root, index);
  }

  /** Compression does not change the answer for any address. */
  lemma CompressionPreservesLookup(t: Tree, t': Tree, sections: seq<Section>, addr: nat)
    requires Built(t) && Compacted(t') && t'.view == t.view && t'.leafs == t.leafs
    requires Exact(sections, t.view, t.leafs) && addr < ADDR_SPACE
    ensures Lookup(t'.root, t'.nodes, sections, addr) == Lookup(t.root, t.nodes, sections, addr)
  {
    BuiltIsCompacted(t);
    LookupIsView(t, sections, addr);
    LookupIsView(t', sections, addr);
  }

  // ---------------------------------------------------------------------
  // The map itself
  // ---------------------------------------------------------------------

  class PageMap {
    var physMap: Entry
    var nodes: seq<Node>
    var nodesAlloc: nat
    ghost var level: seq<nat>
    ghost var tag: seq<nat>
    ghost var view: nat -> nat
    ghost var leafs: set<nat>

    ghost function Snap(): Tree
      reads this
    {
      Tree(physMap, nodes, level, tag, view, leafs)
    }

    /** The state between updates, before compaction. */
    ghost predicate Filling()
      reads this
    {
      && Built(Snap())
      && AllInhabited(Snap())
      && physMap.skip == 1
    }

    constructor ()
      ensures Filling() && leafs == {} && nodes == []
      ensures forall p: nat :: view(p) == SECTION_UNASSIGNED
    {
      physMap := Entry(1, NODE_NIL);
      nodes, nodesAlloc := [], 0;
      level, tag, leafs := [], [], {};
      view := (p: nat) => SECTION_UNASSIGNED;
    }

    method NodeReserve(count: nat)
      modifies this`nodesAlloc
      ensures nodesAlloc >= |nodes| + count
      ensures nodesAlloc == old(nodesAlloc) || (nodesAlloc >= 2 * old(nodesAlloc) && nodesAlloc >= 16)
      ensures |nodes| + count <= old(nodesAlloc) ==> nodesAlloc == old(nodesAlloc)
    {
      if |nodes| + count > nodesAlloc {
        nodesAlloc := if nodesAlloc * 2 > 16 then nodesAlloc * 2 else 16;
        nodesAlloc := if nodesAlloc > |nodes| + count then nodesAlloc else |nodes| + count;
      }
    }

    /** The two `requires` are the assertions of the source. */
    method NodeAlloc() returns (ret: nat)
      requires |nodes| < NODE_NIL
      requires |nodes| < nodesAlloc
      modifies this`nodes
      ensures ret == |old(nodes)|
      ensures nodes == old(nodes) + [FreshNode(1)]
    {
      ret := |nodes|;
      nodes := nodes + [seq(P_L2_SIZE, _ => Entry(0, 0))];
      for i := 0 to P_L2_SIZE
        invariant |nodes| == ret + 1 && nodes[..ret] == old(nodes)
        invariant forall j | 0 <= j < i :: nodes[ret][j] == Entry(1, NODE_NIL)
      {
        nodes := nodes[ret := nodes[ret][i := Entry(1, NODE_NIL)]];
      }
      assert nodes[ret] == FreshNode(1);
    }

    /** Turns a newly allocated node into a bottom-level node. */
    method UnassignAll(n: nat)
      requires n + 1 == |nodes|
      modifies this`nodes
      ensures nodes == old(nodes)[..n] + [FreshNode(0)]
    {
      for i := 0 to P_L2_SIZE
        invariant |nodes| == n + 1 && nodes[..n] == old(nodes)[..n]
        invariant forall j | 0 <= j < i :: nodes[n][j] == Entry(0, SECTION_UNASSIGNED)
      {
        nodes := nodes[n := nodes[n][i := Entry(0, SECTION_UNASSIGNED)]];
      }
      assert nodes[n] == FreshNode(0);
    }

    method Put(r: EntryRef, e: Entry)
      requires ValidRef(Snap(), r)
      modifies this`physMap, this`nodes
      ensures Snap() == PutEntry(old(Snap()), r, e)
    {
      if r.Root? {
        physMap := e;
      } else {
        nodes := nodes[r.node := nodes[r.node][r.idx := e]];
      }
    }

    /** Allocates the node below an empty entry and links it. */
    method Grow(lp: EntryRef, lvl: nat, ghost index: nat) returns (n: nat)
      requires CanGrow(Snap(), lp, index) && RefLevel(Snap(), lp) == lvl + 1
      requires |nodes| < nodesAlloc
      modifies this`physMap, this`nodes, this`level, this`tag
      ensures n == old(|nodes|)
      ensures Snap() == WithNode(old(Snap()), lp)
      ensures Built(Snap()) && InhabitedBut(Snap(), index, lvl) && OpenAbove(Snap(), index, lvl + 1)
    {
      WithNodeKeeps(Snap(), lp, index);
      n := Attach(lp, lvl);
    }

    method Attach(lp: EntryRef, lvl: nat) returns (n: nat)
      requires ValidRef(Snap(), lp) && RefLevel(Snap(), lp) == lvl + 1
      requires |nodes| < nodesAlloc && |nodes| + 1 < NODE_NIL
      modifies this`physMap, this`nodes, this`level, this`tag
      ensures n == old(|nodes|) && Snap() == WithNode(old(Snap()), lp)
    {
      ghost var t := Snap();
      n := NodeAlloc();
      if lvl == 0 {
        UnassignAll(n);
      }
      assert nodes == t.nodes + [FreshNode(lvl)];
      level, tag := level + [lvl], tag + [RefTag(t, lp)];
      Put(lp, Entry(1, n));
    }

    function Get(r: EntryRef): Entry
      requires ValidRef(Snap(), r)
      reads this
    {
      if r.Root? then physMap else nodes[r.node][r.idx]
    }

    /** Nodes that setting a range from page `index` inside one entry at level
        `lvl` may allocate. */
    static function Need(index: nat, lvl: nat): nat {
      lvl + (if index % Pow(lvl) == 0 then 0 else lvl)
    }

    /** `count` more nodes have been reserved. */
    predicate Room(count: nat)
      reads this
    {
      |nodes| + count <= nodesAlloc && |nodes| + count < NODE_NIL
    }

    /** A page range may be set starting inside the pages of entry `r`. */
    ghost predicate CanSet(r: EntryRef, index: nat, nb: nat, leaf: nat)
      reads this
    {
      && Built(Snap()) && ValidRef(Snap(), r) && Covers(Snap(), r, index)
      && leaf in leafs
      && (forall p | index <= p < index + nb :: view(p) == SECTION_UNASSIGNED)
      && InhabitedBut(Snap(), index, RefLevel(Snap(), r))
      && OpenAbove(Snap(), index, RefLevel(Snap(), r) + 1)
    }

    /** Makes an entry that the range covers a leaf. */
    method MakeLeaf(r: EntryRef, index: nat, nb: nat, leaf: nat, lvl: nat)
      requires r.Slot? && CanSet(r, index, nb, leaf) && RefLevel(Snap(), r) == lvl
      requires index % Pow(lvl) == 0 && nb >= Pow(lvl)
      modifies this`physMap, this`nodes, this`view
      ensures Built(Snap()) && AllInhabited(Snap()) && Extends(old(Snap()), Snap(), lvl)
      ensures |nodes| == |old(nodes)|
      ensures view == Assigned(old(view), index, index + Pow(lvl), leaf)
    {
      ghost var t := Snap();
      forall p: nat
        ensures Covers(t, r, p) <==> index <= p < index + Pow(lvl)
      {
        AlignedBlock(index, lvl, p);
      }
      WithLeafBuilt(t, r, index, leaf);
      WithLeafInhabited(t, r, index, leaf);
      WithLeafExtends(t, r, index, leaf);
      Put(r, Entry(0, leaf));
      view := Assigned(view, index, index + Pow(lvl), leaf);
      assert Snap() == WithLeaf(t, r, index, leaf);
    }

    /** The range covers the entry: it becomes a leaf, and the rest of the range begins
        at the next entry. */
    method SetWhole(r: EntryRef, index0: nat, nb0: nat, leaf: nat, lvl: nat) returns (index: nat, nb: nat)
      requires r.Slot? && CanSet(r, index0, nb0, leaf) && RefLevel(Snap(), r) == lvl
      requires index0 % Pow(lvl) == 0 && nb0 >= Pow(lvl)
      modifies this`physMap, this`nodes, this`view
      ensures Built(Snap()) && AllInhabited(Snap()) && Extends(old(Snap()), Snap(), lvl)
      ensures forall p: nat :: view(p) == if index0 <= p < index then leaf else old(view)(p)
      ensures index0 < index && index + nb == index0 + nb0 && index % Pow(lvl) == 0
      ensures Prefix(index - 1, lvl) == old(RefTag(Snap(), r)) && |nodes| == old(|nodes|)
    {
      AlignedNext(index0, lvl);
      AlignedBlock(index0, lvl, index0 + Pow(lvl) - 1);
      MakeLeaf(r, index0, nb0, leaf, lvl);
      index, nb := index0 + Pow(lvl), nb0 - Pow(lvl);
    }

    /** One entry of the loop in `SetLevel`: the entry becomes a leaf when the
        range covers it, otherwise the range is set one level down. */
    method SetSlot(r: EntryRef, index0: nat, nb0: nat, leaf: nat, lvl: nat)
      returns (index: nat, nb: nat)
      requires nb0 > 0 && r.Slot? && CanSet(r, index0, nb0, leaf) && RefLevel(Snap(), r) == lvl
      requires Room(Need(index0, lvl))
      modifies this`physMap, this`nodes, this`level, this`tag, this`view
      ensures Built(Snap()) && AllInhabited(Snap()) && Extends(old(Snap()), Snap(), lvl)
      ensures forall p: nat :: view(p) == if index0 <= p < index then leaf else old(view)(p)
      ensures index0 < index && index + nb == index0 + nb0
      ensures Prefix(index - 1, lvl) == old(RefTag(Snap(), r))
      ensures nb > 0 ==> index % Pow(lvl) == 0
      ensures |nodes| <= old(|nodes|) + Used(index0, nb0, nb, lvl)
      decreases lvl, 0
    {
      if index0 % Pow(lvl) == 0 && nb0 >= Pow(lvl) {
        index, nb := SetWhole(r, index0, nb0, leaf, lvl);
      } else {
        assert BuiltEntry(Snap(), r);
        assert lvl > 0;
        NeedStep(index0, lvl);
        index, nb := SetLevel(r, index0, nb0, leaf, lvl - 1);
        UsedStep(index0, nb0, index, nb, lvl);
      }
    }

    /** Nodes allocated while setting a range inside one entry at level `lvl`,
        when `nb` pages are left over. */
    static function Used(index0: nat, nb0: nat, nb: nat, lvl: nat): nat {
      (if index0 % Pow(lvl) == 0 then 0 else lvl) +
      (if nb == 0 && (index0 + nb0) % Pow(lvl) != 0 then lvl else 0)
    }

    static lemma NeedStep(index: nat, lvl: nat)
      requires lvl > 0
      ensures 1 + Need(index, lvl - 1) <= Need(index, lvl)
    {
      if index % Pow(lvl) == 0 {
        AlignedDown(index, lvl);
      }
    }

    static lemma UsedStep(index0: nat, nb0: nat, index: nat, nb: nat, lvl: nat)
      requires lvl > 0 && index0 < index && index + nb == index0 + nb0
      requires index0 % Pow(lvl) != 0 || nb0 < Pow(lvl)
      requires nb > 0 ==> index % Pow(lvl) == 0
      ensures 1 + Used(index0, nb0, nb, lvl - 1) <= Used(index0, nb0, nb, lvl)
    {
      if (index0 + nb0) % Pow(lvl) == 0 {
        AlignedDown(index0 + nb0, lvl);
      }
      if index0 % Pow(lvl) == 0 {
        AlignedDown(index0, lvl);
        NotAlignedInside(index0, index, lvl);
        NotAlignedInside(index0, index0 + nb0, lvl);
      }
    }

    /** After the first entry a range starts aligned. */
    static lemma UsedSum(index0: nat, nb0: nat, index: nat, nb: nat, lvl: nat)
      requires index + nb == index0 + nb0 && nb > 0
      requires index != index0 ==> index % Pow(lvl) == 0
      ensures forall left: nat ::
                (if index == index0 then 0 else Used(index0, nb0, nb, lvl)) + Used(index, nb, left, lvl)
                == Used(index0, nb0, left, lvl)
      ensures (if index == index0 then 0 else Used(index0, nb0, nb, lvl)) + Need(index, lvl) <= Need(index0, lvl)
    {
    }

    /** The node below entry `lp`, allocated when there is none. */
    method OpenNode(lp: EntryRef, ghost index: nat, lvl: nat) returns (n: nat)
      requires Built(Snap()) && ValidRef(Snap(), lp) && Covers(Snap(), lp, index)
      requires RefLevel(Snap(), lp) == lvl + 1 && EntryAt(Snap(), lp).skip == 1
      requires InhabitedBut(Snap(), index, lvl + 1) && OpenAbove(Snap(), index, lvl + 2)
      requires Room(1)
      modifies this`physMap, this`nodes, this`level, this`tag
      ensures Built(Snap()) && InhabitedBut(Snap(), index, lvl) && OpenAbove(Snap(), index, lvl + 1)
      ensures Extends(old(Snap()), Snap(), lvl) && |nodes| <= old(|nodes|) + 1
      ensures Get(lp) == Entry(1, n) && n != NODE_NIL
      ensures n < |nodes| && level[n] == lvl && tag[n] == old(RefTag(Snap(), lp))
    {
      assert BuiltEntry(Snap(), lp);
      if Get(lp).ptr == NODE_NIL {
        n := Grow(lp, lvl, index);
      } else {
        n := Get(lp).ptr;
        LinkOpens(Snap(), lp, index);
      }
    }

    /** A page range is being set in node `n`: the pages from `index0` up to
        `index` are done. */
    ghost predicate Setting(n: nat, index0: nat, index: nat, nb: nat, leaf: nat, lvl: nat, t: Tree)
      reads this
    {
      && Built(Snap()) && Extends(t, Snap(), lvl) && leaf in leafs
      && n < |t.nodes| && t.level[n] == lvl
      && index0 <= index
      && (forall p: nat :: view(p) == if index0 <= p < index then leaf else t.view(p))
      && (if index == index0 then InhabitedBut(Snap(), index0, lvl)
          else AllInhabited(Snap()) && Prefix(index - 1, lvl + 1) == t.tag[n])
      && (index > index0 && nb > 0 ==> index % Pow(lvl) == 0)
    }

    /** One round of the loop in `SetLevel`. */
    method SetNext(n: nat, i: nat, ghost index0: nat, index': nat, nb': nat, leaf: nat, lvl: nat, ghost t: Tree)
      returns (index: nat, nb: nat)
      requires Setting(n, index0, index', nb', leaf, lvl, t) && nb' > 0 && i < P_L2_SIZE
      requires Prefix(index', lvl) == t.tag[n] * P_L2_SIZE + i
      requires Prefix(index0, lvl + 1) == t.tag[n] && OpenAbove(t, index0, lvl + 1)
      requires forall p | index' <= p < index' + nb' :: t.view(p) == SECTION_UNASSIGNED
      requires Room(Need(index', lvl))
      modifies this`physMap, this`nodes, this`level, this`tag, this`view
      ensures Setting(n, index0, index, nb, leaf, lvl, t)
      ensures index' < index && index + nb == index' + nb'
      ensures nb > 0 ==> Prefix(index, lvl) == t.tag[n] * P_L2_SIZE + i + 1
      ensures |nodes| <= old(|nodes|) + Used(index', nb', nb, lvl)
      decreases lvl, 1
    {
      ghost var t1 := Snap();
      assert Prefix(index', lvl + 1) == Prefix(index', lvl) / 512;
      StaysOpen(t, t1, index0, index', lvl);
      index, nb := SetSlot(Slot(n, i), index', nb', leaf, lvl);
      ExtendsTransitive(t, t1, Snap(), lvl, lvl);
      assert Prefix(index - 1, lvl + 1) == Prefix(index - 1, lvl) / 512;
      if nb > 0 {
        PrefixStep(index, lvl);
      }
    }

    /** The loop of `SetLevel` over the entries of node `n`. */
    method FillNode(n: nat, index0: nat, nb0: nat, leaf: nat, lvl: nat, ghost t: Tree)
      returns (index: nat, nb: nat)
      requires nb0 > 0 && Setting(n, index0, index0, nb0, leaf, lvl, t)
      requires Prefix(index0, lvl + 1) == t.tag[n] && OpenAbove(t, index0, lvl + 1)
      requires forall p | index0 <= p < index0 + nb0 :: t.view(p) == SECTION_UNASSIGNED
      requires Room(Need(index0, lvl))
      modifies this`physMap, this`nodes, this`level, this`tag, this`view
      ensures Setting(n, index0, index, nb, leaf, lvl, t)
      ensures index0 < index && index + nb == index0 + nb0
      ensures nb > 0 ==> index % Pow(lvl + 1) == 0
      ensures |nodes| <= old(|nodes|) + Used(index0, nb0, nb, lvl)
      decreases lvl, 2
    {
      index, nb := index0, nb0;
      var i: nat := Prefix(index, lvl) % P_L2_SIZE;
      assert Prefix(index, lvl + 1) == Prefix(index, lvl) / 512;
      while nb != 0 && i < P_L2_SIZE
        invariant i <= P_L2_SIZE && (index == index0 ==> i < P_L2_SIZE)
        invariant Setting(n, index0, index, nb, leaf, lvl, t)
        invariant index + nb == index0 + nb0
        invariant nb > 0 ==> Prefix(index, lvl) == t.tag[n] * P_L2_SIZE + i
        invariant |nodes| <= old(|nodes|) + (if index == index0 then 0 else Used(index0, nb0, nb, lvl))
      {
        UsedSum(index0, nb0, index, nb, lvl);
        index, nb := SetNext(n, i, index0, index, nb, leaf, lvl, t);
        i := i + 1;
      }
      if nb > 0 {
        AlignedUp(index, lvl);
      }
    }

    method SetLevel(lp: EntryRef, index0: nat, nb0: nat, leaf: nat, lvl: nat)
      returns (index: nat, nb: nat)
      requires nb0 > 0 && CanSet(lp, index0, nb0, leaf) && RefLevel(Snap(), lp) == lvl + 1
      requires EntryAt(Snap(), lp).skip == 1
      requires Room(1 + Need(index0, lvl))
      modifies this`physMap, this`nodes, this`level, this`tag, this`view
      ensures Built(Snap()) && AllInhabited(Snap()) && Extends(old(Snap()), Snap(), lvl)
      ensures Get(lp).skip == 1
      ensures forall p: nat :: view(p) == if index0 <= p < index then leaf else old(view)(p)
      ensures index0 < index && index + nb == index0 + nb0
      ensures Prefix(index - 1, lvl + 1) == old(RefTag(Snap(), lp))
      ensures nb > 0 ==> index % Pow(lvl + 1) == 0
      ensures |nodes| <= old(|nodes|) + 1 + Used(index0, nb0, nb, lvl)
      decreases lvl, 3
    {
      ghost var t0 := Snap();
      var n := OpenNode(lp, index0, lvl);
      ghost var t := Snap();
      index, nb := FillNode(n, index0, nb0, leaf, lvl, t);
      ExtendsTransitive(t0, t, Snap(), lvl, lvl);
      assert ValidRef(t, lp) && EntryAt(t, lp) == Entry(1, n);
    }

    /** Declares a section number as a leaf of the tree. */
    ghost method AddLeaf(s: nat)
      requires Filling() && 0 < s < NODE_NIL
      modifies this`leafs
      ensures Filling() && leafs == old(leafs) + {s}
    {
      ghost var t := Snap();
      leafs := leafs + {s};
      forall r | ValidRef(Snap(), r)
        ensures BuiltEntry(Snap(), r)
      {
        assert ValidRef(t, r) && BuiltEntry(t, r);
        assert forall p :: Covers(Snap(), r, p) == Covers(t, r, p);
      }
      forall n | 0 <= n < |nodes|
        ensures Inhabited(Snap(), n)
      {
        assert Inhabited(t, n);
        var p :| InNode(t, n, p) && t.view(p) != SECTION_UNASSIGNED;
        assert InNode(Snap(), n, p);
      }
    }

    /** Sets `nb` fresh pages from `index` on to `leaf`. */
    method PageSet(index: nat, nb: nat, leaf: nat)
      requires Filling() && leaf in leafs
      requires 0 < nb && index + nb <= Pow(P_L2_LEVELS)
      requires forall p | index <= p < index + nb :: view(p) == SECTION_UNASSIGNED
      requires |nodes| + 3 * P_L2_LEVELS < NODE_NIL
      modifies this`physMap, this`nodes, this`nodesAlloc, this`level, this`tag, this`view
      ensures Filling() && leafs == old(leafs)
      ensures forall p: nat :: view(p) == if index <= p < index + nb then leaf else old(view)(p)
      ensures |nodes| <= old(|nodes|) + 2 * P_L2_LEVELS - 1
    {
      NodeReserve(3 * P_L2_LEVELS);
      AlignedBlock(0, P_L2_LEVELS, index);
      AlignedBlock(0, P_L2_LEVELS, 0);
      assert Prefix(0, P_L2_LEVELS) == 0;
      var index', nb' := SetLevel(Root, index, nb, leaf, P_L2_LEVELS - 1);
      if nb' > 0 {
        PrefixStep(index', P_L2_LEVELS);
        AlignedBlock(0, P_L2_LEVELS, index');
      }
      assert nb' == 0;
    }

    /** Compresses the paths below a link. */
    method Compact(lp: EntryRef)
      requires Compacted(Snap()) && ValidRef(Snap(), lp) && Get(lp).skip > 0
      modifies this`physMap, this`nodes
      ensures Compacted(Snap()) && SameOutside(old(Snap()), Snap(), lp)
      ensures Short(nodes, Get(lp), RefLevel(Snap(), lp))
      decreases RefLevel(Snap(), lp)
    {
      ghost var t0 := Snap();
      if Get(lp).ptr == NODE_NIL {
        return;
      }
      assert CompactEntry(t0, lp);
      var n := Get(lp).ptr;
      var validPtr: nat, valid: nat := P_L2_SIZE, 0;
      CompactingStarts(t0, lp, n);
      for i := 0 to P_L2_SIZE
        invariant Compacting(t0, Snap(), lp, n, i)
        invariant Counted(nodes[n], i, valid, validPtr)
      {
        ghost var t := Snap();
        if nodes[n][i].ptr == NODE_NIL {
          CompactingSkip(t0, t, lp, n, i);
          CountedNext(nodes[n], nodes[n], i, valid, validPtr);
          continue;
        }
        if nodes[n][i].skip > 0 {
          Compact(Slot(n, i));
          CompactingNext(t0, t, Snap(), lp, n, i);
        } else {
          CompactingSkip(t0, t, lp, n, i);
        }
        CountedNext(t.nodes[n], nodes[n], i, valid, validPtr);
        validPtr, valid := i, valid + 1;
      }
      CountedAll(nodes[n], valid, validPtr);
      if valid != 1 {
        CompactingStops(t0, Snap(), lp);
        return;
      }
      ghost var t1 := Snap();
      CompactingBypasses(t0, t1, PutEntry(t1, lp, Bypass(Get(lp), nodes[n][validPtr])), lp, validPtr);
      if Get(lp).skip + nodes[n][validPtr].skip >= 8 {
        return;
      }
      Put(lp, Bypass(Get(lp), nodes[n][validPtr]));
    }

    /** Compresses the whole tree: every lookup gives what it gave before, and no
        lookup passes through a node with a single child any more. */
    method CompactAll(ghost sections: seq<Section>)
      requires Filling() && Exact(sections, view, leafs)
      modifies this`physMap, this`nodes
      ensures Compacted(Snap()) && leafs == old(leafs) && view == old(view)
      ensures forall addr: nat | addr < ADDR_SPACE ::
                Lookup(physMap, nodes, sections, addr) == old(Lookup(physMap, nodes, sections, addr))
      ensures Short(nodes, physMap, P_L2_LEVELS)
    {
      ghost var t := Snap();
      BuiltIsCompacted(t);
      if physMap.skip > 0 {
        Compact(Root);
      }
      forall addr: nat | addr < ADDR_SPACE
        ensures Lookup(physMap, nodes, sections, addr) == Lookup(t.root, t.nodes, sections, addr)
      {
        CompressionPreservesLookup(t, Snap(), sections, addr);
      }
    }

    /** The section that shows the page of an address, in a compressed or an
        uncompressed tree alike. */
    method Find(addr: nat, sections: seq<Section>) returns (s: nat)
      requires Compacted(Snap()) && Exact(sections, view, leafs)
      requires addr < ADDR_SPACE
      ensures s == Lookup(physMap, nodes, sections, addr)
      ensures s == view(addr / TARGET_PAGE_SIZE) && s < |sections|
    {
      var lp := physMap;
      var index := addr / TARGET_PAGE_SIZE;
      var i: int := P_L2_LEVELS;
      ghost var r := Root;
      LookupIsView(Snap(), sections, addr);
      while lp.skip > 0
        invariant ValidRef(Snap(), r) && lp == Get(r) && i == RefLevel(Snap(), r)
        invariant Walk(nodes, lp, i, index) == Walk(nodes, physMap, P_L2_LEVELS, index)
        decreases i
      {
        assert CompactEntry(Snap(), r);
        i := i - lp.skip;
        if i < 0 {
          break;
        }
        if lp.ptr == NODE_NIL {
          return SECTION_UNASSIGNED;
        }
        r := Slot(lp.ptr, Prefix(index, i) % P_L2_SIZE);
        lp := nodes[lp.ptr][Prefix(index, i) % P_L2_SIZE];
      }
      WalkReaches(Snap(), r, index);
      if CoversByte(sections[lp.ptr], addr) {
        s := lp.ptr;
      } else {
        s := SECTION_UNASSIGNED;
      }
    }
  }
}
