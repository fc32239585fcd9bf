/**
Eviction on the tree: freeing a snapshot, taking an unlocked leaf out, and eagerly deleting the
snapshot-less leaves that exposes, with the books that say nothing is lost and nothing returned twice.
*/
module RadixEvict {
  import opened Wrappers
  import opened Alignment
  import opened Arithmetic
  import opened RadixTree
  import opened RadixSteps
  import opened RadixLocks

  ghost function FreeLeaves(t: Tree, root: RadixTreeNode): set<RadixTreeNode> {
    set n | n in t && n != root && t[n].children == map[] && t[n].refCount == 0
  }

  ghost function FreeSnaps(t: Tree, root: RadixTreeNode): set<RadixTreeNode> {
    set n | n in t && n != root && t[n].mamba.Some? && t[n].mambaRef == 0
  }

  ghost predicate Submap<K, V>(m: map<K, V>, m': map<K, V>) {
    forall k | k in m :: k in m' && m[k] == m'[k]
  }

  /**
  The books of an eviction that led from t to t': what is left was there before, and what was handed
  out is exactly, with multiplicity, what is missing.
  */
  ghost predicate Balanced(t: Tree, t': Tree, ps: nat, kv: seq<int>, slots: seq<int>) {
    && Submap(Pages(t', ps), Pages(t, ps)) && Submap(Snaps(t'), Snaps(t))
    && PageBag(Pages(t, ps)) == PageBag(Pages(t', ps)) + multiset(kv)
    && SlotBag(Snaps(t)) == SlotBag(Snaps(t')) + multiset(slots)
    && Sums(t).fullEvictable == Sums(t').fullEvictable + |kv|
    && Sums(t).mambaEvictable == Sums(t').mambaEvictable + |slots|
    && Sums(t).fullProtected == Sums(t').fullProtected
    && Sums(t).mambaProtected == Sums(t').mambaProtected
  }

  lemma BalancedNothing(t: Tree, ps: nat)
    ensures Balanced(t, t, ps, [], [])
  {
  }

  lemma BalancedThen(t: Tree, t1: Tree, t2: Tree, ps: nat, kv: seq<int>, slots: seq<int>, kv': seq<int>,
                     slots': seq<int>)
    requires Balanced(t, t1, ps, kv, slots) && Balanced(t1, t2, ps, kv', slots')
    ensures Balanced(t, t2, ps, kv + kv', slots + slots')
  {
    SubmapThen(Pages(t2, ps), Pages(t1, ps), Pages(t, ps));
    SubmapThen(Snaps(t2), Snaps(t1), Snaps(t));
    BagThen(PageBag(Pages(t, ps)), PageBag(Pages(t1, ps)), PageBag(Pages(t2, ps)), kv, kv');
    BagThen(SlotBag(Snaps(t)), SlotBag(Snaps(t1)), SlotBag(Snaps(t2)), slots, slots');
  }

  lemma BagThen(a: multiset<int>, b: multiset<int>, c: multiset<int>, s: seq<int>, s': seq<int>)
    requires a == b + multiset(s) && b == c + multiset(s')
    ensures a == c + multiset(s + s')
  {
    assert multiset(s + s') == multiset(s) + multiset(s');
  }

  lemma SubmapThen<K, V>(a: map<K, V>, b: map<K, V>, c: map<K, V>)
    requires Submap(a, b) && Submap(b, c)
    ensures Submap(a, c)
  {
  }

  // ---------------------------------------------------------------- freeing one snapshot

  /** Taking an unlocked snapshot off a node; only a leaf then lacks what a leaf should have. */
  lemma FreeSnapStep(t: Tree, root: RadixTreeNode, ps: nat, locks: seq<Tokens>, n: RadixTreeNode)
    requires Inv(t, root, ps, locks) && n in t && n != root && t[n].mamba.Some? && t[n].mambaRef == 0
    ensures InvExcept(SnapTree(t, n, None), root, ps, locks, n)
    ensures t[n].children != map[] ==> Inv(SnapTree(t, n, None), root, ps, locks)
    ensures Balanced(t, SnapTree(t, n, None), ps, [], [t[n].mamba.value])
    ensures Sums(SnapTree(t, n, None)) == Sums(t).(mambaEvictable := Sums(t).mambaEvictable - 1)
    ensures FreeLeaves(SnapTree(t, n, None), root) == FreeLeaves(t, root)
    ensures FreeSnaps(SnapTree(t, n, None), root) == FreeSnaps(t, root) - {n}
  {
    SnapWF(t, root, ps, n, None);
    FreeSnapLocks(t, root, ps, locks, n);
    FreeSnapSums(t, n);
    FreeSnapBooks(t, root, ps, n);
    FreeSnapSets(t, root, n);
  }

  lemma FreeSnapSets(t: Tree, root: RadixTreeNode, n: RadixTreeNode)
    requires n in t
    ensures FreeLeaves(SnapTree(t, n, None), root) == FreeLeaves(t, root)
    ensures FreeSnaps(SnapTree(t, n, None), root) == FreeSnaps(t, root) - {n}
  {
  }

  lemma FreeSnapBooks(t: Tree, root: RadixTreeNode, ps: nat, n: RadixTreeNode)
    requires WF(t, root, ps) && n in t && t[n].mamba.Some?
    requires Pages(SnapTree(t, n, None), ps) == Pages(t, ps) && Snaps(SnapTree(t, n, None)) == Snaps(t) - {n.path}
    requires Sums(SnapTree(t, n, None)) == Sums(t).(mambaEvictable := Sums(t).mambaEvictable - 1)
    ensures Balanced(t, SnapTree(t, n, None), ps, [], [t[n].mamba.value])
  {
    SnapsAt(t, root, ps, n);
    SlotBagRemove(Snaps(t), n.path);
    assert multiset([t[n].mamba.value]) == multiset{t[n].mamba.value};
  }

  lemma FreeSnapLocks(t: Tree, root: RadixTreeNode, ps: nat, locks: seq<Tokens>, n: RadixTreeNode)
    requires Inv(t, root, ps, locks) && n in t && n != root && t[n].mamba.Some? && t[n].mambaRef == 0
    requires WF(SnapTree(t, n, None), root, ps)
    ensures InvExcept(SnapTree(t, n, None), root, ps, locks, n)
    ensures t[n].children != map[] ==> Inv(SnapTree(t, n, None), root, ps, locks)
  {
    var t' := SnapTree(t, n, None);
    forall x | x in t'
      ensures LockOk(t', root, locks, x) && (x != n || t[n].children != map[] ==> LeafOk(t', root, x))
    {
      assert LockOk(t, root, locks, x) && LeafOk(t, root, x);
    }
    assert LockOk(t, root, locks, n);
    CountsSeen(locks, n.path);
    forall l | l in locks ensures l in SnapKeys(t') {
      assert Live(t', Holder(t, l));
    }
  }

  lemma FreeSnapSums(t: Tree, n: RadixTreeNode)
    requires n in t && t[n].mamba.Some? && t[n].mambaRef == 0
    ensures Sums(SnapTree(t, n, None)) == Sums(t).(mambaEvictable := Sums(t).mambaEvictable - 1)
  {
    var r := t[n].(mamba := None);
    TotalUpdate(t, FreeTokens, n, r);
    TotalUpdate(t, HeldTokens, n, r);
    TotalUpdate(t, FreeSlots, n, r);
    TotalUpdate(t, HeldSlots, n, r);
  }

  // ---------------------------------------------------------------- unlinking and cascading

  /** Unlinking an unlocked leaf that has no snapshot any more. */
  lemma UnlinkStep(t: Tree, root: RadixTreeNode, ps: nat, locks: seq<Tokens>, n: RadixTreeNode)
    requires InvExcept(t, root, ps, locks, n) && CanUnlink(t, root, ps, n)
    requires t[n].refCount == 0 && t[n].mamba.None?
    ensures InvExcept(UnlinkTree(t, ps, n), root, ps, locks, t[n].parent)
    ensures Balanced(t, UnlinkTree(t, ps, n), ps, t[n].value, [])
    ensures Sums(UnlinkTree(t, ps, n)) == Sums(t).(fullEvictable := Sums(t).fullEvictable - |t[n].key|)
  {
    UnlinkInv(t, root, ps, locks, n);
    UnlinkMaps(t, root, ps, n);
    UnlinkBag(t, root, ps, n);
    BaseFacts(t, root, ps, n);
    assert NodeOk(t, root, ps, n);
    DeadSnap(t, root, ps, n);
    UnlinkTotals(t, ps, n, FreeTokens);
    UnlinkTotals(t, ps, n, HeldTokens);
    UnlinkTotals(t, ps, n, FreeSlots);
    UnlinkTotals(t, ps, n, HeldSlots);
  }

  lemma DeadSnap(t: Tree, root: RadixTreeNode, ps: nat, n: RadixTreeNode)
    requires WF(t, root, ps) && n in t && t[n].mamba.None?
    ensures n.path !in Snaps(t)
    ensures Snaps(t) - {n.path} == Snaps(t)
  {
    assert n.path in Snaps(t) ==> SamePathSameNode(t, n, Holder(t, n.path));
  }

  /**
  t' is t without the leaf n and without the snapshot-less inner nodes above it that became leaves;
  top is the lowest node left on that way up, and the only one that changed.
  */
  ghost predicate Trimmed(t: Tree, t': Tree, n: RadixTreeNode, top: RadixTreeNode) {
    && n in t && n !in t' && top in t && top in t' && t'.Keys <= t.Keys
    && t[top].children != map[] && t'[top] == t[top].(children := t'[top].children)
    && (forall x | x in t' && x != top :: t'[x] == t[x])
    && (forall x | x in t && x !in t' && x != n :: t[x].children != map[] && t[x].mamba.None?)
  }

  lemma TrimFirst(t: Tree, root: RadixTreeNode, ps: nat, n: RadixTreeNode)
    requires CanUnlink(t, root, ps, n)
    ensures Trimmed(t, UnlinkTree(t, ps, n), n, t[n].parent)
  {
    BaseFacts(t, root, ps, n);
    assert ChildLink(t, root, ps, n);
  }

  lemma TrimMore(t: Tree, t': Tree, root: RadixTreeNode, ps: nat, n: RadixTreeNode, top: RadixTreeNode)
    requires Trimmed(t, t', n, top) && CanUnlink(t', root, ps, top) && t'[top].mamba.None?
    ensures Trimmed(t, UnlinkTree(t', ps, top), n, t'[top].parent)
  {
    BaseFacts(t', root, ps, top);
    assert ChildLink(t', root, ps, top);
  }

  /** Which leaves and which snapshots are free after a trim. */
  lemma TrimFree(t: Tree, t': Tree, root: RadixTreeNode, n: RadixTreeNode, top: RadixTreeNode)
    requires Trimmed(t, t', n, top)
    ensures FreeLeaves(t', root) == FreeLeaves(t, root) - {n}
                + (if top != root && t'[top].children == map[] && t'[top].refCount == 0 then {top} else {})
    ensures FreeSnaps(t', root) == FreeSnaps(t, root) - {n}
  {
  }

  /** When the cascade stops, every leaf carries a snapshot again. */
  lemma CascadeDone(t: Tree, root: RadixTreeNode, ps: nat, locks: seq<Tokens>, top: RadixTreeNode)
    requires InvExcept(t, root, ps, locks, top)
    requires t[top].mamba.Some? || t[top].children != map[] || t[top].refCount != 0 || top == root
    ensures Inv(t, root, ps, locks)
  {
    if top != root && t[top].children == map[] { LockedLeafIsLive(t, root, ps, locks, top, top); }
    assert LeafOk(t, root, top);
  }

  // ---------------------------------------------------------------- how far an eviction gets

  lemma NoFreeLeaves(t: Tree, root: RadixTreeNode, ps: nat, locks: seq<Tokens>)
    requires Inv(t, root, ps, locks) && FreeLeaves(t, root) == {}
    ensures Sums(t).fullEvictable == 0
  {
    forall n | n in t && n != root && t[n].children == map[] ensures t[n].refCount != 0 {
      assert n !in FreeLeaves(t, root);
    }
    NothingFree(t, root, ps, locks);
  }

  lemma NoFreeSnaps(t: Tree, root: RadixTreeNode, ps: nat, locks: seq<Tokens>)
    requires Inv(t, root, ps, locks) && FreeSnaps(t, root) == {}
    ensures Sums(t).mambaEvictable == 0
  {
    assert NodeOk(t, root, ps, root);
    forall n | n in t ensures FreeSlots(t[n]) == 0 {
      assert n !in FreeSnaps(t, root);
    }
    TotalZero(t, FreeSlots);
  }

  lemma SumsNonNeg(t: Tree)
    ensures Sums(t).fullEvictable >= 0 && Sums(t).mambaEvictable >= 0
  {
    TotalNonNeg(t, FreeTokens);
    TotalNonNeg(t, FreeSlots);
  }

  /** A free snapshot on a node that is not an unlocked leaf sits on an inner node. */
  lemma TombstoneInner(t: Tree, root: RadixTreeNode, ps: nat, locks: seq<Tokens>, n: RadixTreeNode)
    requires Inv(t, root, ps, locks) && n in FreeSnaps(t, root) && n !in FreeLeaves(t, root)
    ensures t[n].children != map[]
  {
    if |t[n].children| == 0 { LockedLeafIsLive(t, root, ps, locks, n, n); }
  }

  /** An unlocked leaf has a snapshot, and it is unlocked too. */
  lemma FreeLeafFacts(t: Tree, root: RadixTreeNode, ps: nat, locks: seq<Tokens>, n: RadixTreeNode)
    requires Inv(t, root, ps, locks) && n in FreeLeaves(t, root)
    ensures t[n].mamba.Some? && t[n].mambaRef == 0 && t[n].parent != null && t[n].parent in t
    ensures n in FreeSnaps(t, root) && CanUnlink(t, root, ps, n)
  {
    assert LeafOk(t, root, n);
    LockedLeafIsLive(t, root, ps, locks, n, n);
    BaseFacts(t, root, ps, n);
  }

  /** Everything a lock protects survives: its snapshot slot and all pages of its path. */
  lemma LockedKept(t: Tree, t': Tree, root: RadixTreeNode, ps: nat, locks: seq<Tokens>, l: Tokens)
    requires Inv(t', root, ps, locks) && Submap(Pages(t', ps), Pages(t, ps)) && Submap(Snaps(t'), Snaps(t))
    requires l in locks
    ensures l in Snaps(t) && l in Snaps(t') && Snaps(t')[l] == Snaps(t)[l]
    ensures forall q | q in Boundaries(l, ps) ::
              q in Pages(t, ps) && q in Pages(t', ps) && Pages(t', ps)[q] == Pages(t, ps)[q]
  {
    var h := Holder(t', l);
    forall q | q in Boundaries(l, ps) ensures q in Pages(t', ps) {
      var i :| 0 < i <= |l| && Aligned(i, ps) && q == l[..i];
      var o := PrefixStored(t', root, ps, h, q);
      PagesAt(t', root, ps, o, q);
    }
  }

  /** No page is orphaned: each lies on the way to some live snapshot. */
  lemma {:induction false} PageLeadsToSnapshot(t: Tree, root: RadixTreeNode, ps: nat, locks: seq<Tokens>, q: Tokens)
    returns (s: Tokens)
    requires Inv(t, root, ps, locks) && q in Pages(t, ps)
    ensures s in Snaps(t) && q <= s
  {
    var o := Owner(t, ps, q);
    HeadWithin(t, root, ps, o, q);
    var leaf := LiveLeaf(t, root, ps, locks, o);
    s := leaf.path;
    SnapsAt(t, root, ps, leaf);
  }

  lemma {:induction false} LiveLeaf(t: Tree, root: RadixTreeNode, ps: nat, locks: seq<Tokens>, n: RadixTreeNode)
    returns (leaf: RadixTreeNode)
    requires Inv(t, root, ps, locks) && n in t && n != root
    ensures Live(t, leaf) && n.path <= leaf.path
    decreases |Deeper(t, n)|
  {
    if |t[n].children| == 0 {
      assert LeafOk(t, root, n);
      leaf := n;
    } else {
      var k :| k in t[n].children;
      var c := t[n].children[k];
      assert ChildrenOk(t, root, ps, n);
      BaseFacts(t, root, ps, c);
      SetLess(Deeper(t, c), Deeper(t, n), c);
      leaf := LiveLeaf(t, root, ps, locks, c);
    }
  }

  // ---------------------------------------------------------------- one eviction, composed

  /** The tree once leaf n's snapshot and then n itself are gone. */
  ghost function TakenTree(t: Tree, ps: nat, n: RadixTreeNode): Tree
    requires n in t && t[n].parent != null && t[n].parent in t
  {
    UnlinkTree(SnapTree(t, n, None), ps, n)
  }

  /** A tree after a cascade, the node it stopped at, and the KV indices it reclaimed. */
  datatype Cascaded = Cascaded(tree: Tree, top: RadixTreeNode, kv: seq<int>)

  ghost predicate Exposed(t: Tree, n: RadixTreeNode) {
    && n in t && t[n].parent != null && t[n].parent in t
    && t[n].mamba.None? && t[n].children == map[] && t[n].refCount == 0
  }

  /** Deletes the exposed leaves upwards from top. */
  ghost function CascadeTree(t: Tree, ps: nat, top: RadixTreeNode): Cascaded
    decreases |t|
  {
    if Exposed(t, top) then
      TrimSmaller(t, ps, top);
      var r := CascadeTree(UnlinkTree(t, ps, top), ps, t[top].parent);
      r.(kv := t[top].value + r.kv)
    else Cascaded(t, top, [])
  }

  lemma TrimSmaller(t: Tree, ps: nat, n: RadixTreeNode)
    requires n in t && t[n].parent != null && t[n].parent in t
    ensures |UnlinkTree(t, ps, n)| < |t|
  {
    SetLess(UnlinkTree(t, ps, n).Keys, t.Keys, n);
  }

  /** Carrying on from top, with kv collected so far, ends in `want`. */
  ghost predicate CascadeOn(t: Tree, ps: nat, top: RadixTreeNode, kv: seq<int>, want: Cascaded) {
    var r := CascadeTree(t, ps, top);
    want == r.(kv := kv + r.kv)
  }

  lemma CascadeNext(t: Tree, root: RadixTreeNode, ps: nat, top: RadixTreeNode, kv: seq<int>, want: Cascaded)
    requires WF(t, root, ps) && CascadeOn(t, ps, top, kv, want)
    requires top in t && t[top].parent != null && t[top].mamba.None? && t[top].children == map[] && t[top].refCount == 0
    ensures t[top].parent in t && t[top].parent != top && |t[top].key| == |t[top].value|
    ensures WF(UnlinkTree(t, ps, top), root, ps)
    ensures CascadeOn(UnlinkTree(t, ps, top), ps, t[top].parent, kv + t[top].value, want)
  {
    assert NodeOk(t, root, ps, top);
    BaseFacts(t, root, ps, top);
    UnlinkWF(t, root, ps, top);
    var r := CascadeTree(UnlinkTree(t, ps, top), ps, t[top].parent);
    assert kv + (t[top].value + r.kv) == kv + t[top].value + r.kv;
  }

  lemma TakenWF(t: Tree, root: RadixTreeNode, ps: nat, n: RadixTreeNode)
    requires CanUnlink(t, root, ps, n)
    ensures t[n].parent != n && |t[n].key| == |t[n].value|
    ensures WF(TakenTree(t, ps, n), root, ps)
  {
    BaseFacts(t, root, ps, n);
    assert NodeOk(t, root, ps, n);
    SnapWF(t, root, ps, n, None);
    UnlinkWF(SnapTree(t, n, None), root, ps, n);
  }

  /** One eviction: leaf n, then whatever that exposes. */
  ghost function EvictTree(t: Tree, ps: nat, n: RadixTreeNode): Cascaded
    requires n in t && t[n].parent != null && t[n].parent in t
  {
    var r := CascadeTree(TakenTree(t, ps, n), ps, t[n].parent);
    r.(kv := t[n].value + r.kv)
  }

  /** The cascade restores the invariant and hands out exactly what it deletes. */
  lemma {:induction false} CascadeStep(t0: Tree, t: Tree, root: RadixTreeNode, ps: nat, locks: seq<Tokens>,
                                       n: RadixTreeNode, top: RadixTreeNode)
    requires Trimmed(t0, t, n, top) && InvExcept(t, root, ps, locks, top)
    ensures var r := CascadeTree(t, ps, top);
      && Inv(r.tree, root, ps, locks) && Trimmed(t0, r.tree, n, r.top)
      && Balanced(t, r.tree, ps, r.kv, [])
    decreases |t|
  {
    assert NodeOk(t, root, ps, top);
    if Exposed(t, top) {
      var t1 := UnlinkTree(t, ps, top);
      TrimSmaller(t, ps, top);
      TrimMore(t0, t, root, ps, n, top);
      UnlinkStep(t, root, ps, locks, top);
      CascadeStep(t0, t1, root, ps, locks, n, t[top].parent);
      var r := CascadeTree(t1, ps, t[top].parent);
      BalancedThen(t, t1, r.tree, ps, t[top].value, [], r.kv, []);
    } else {
      CascadeDone(t, root, ps, locks, top);
      BalancedNothing(t, ps);
    }
  }

  /** What one eviction, cascade included, leaves behind. */
  ghost predicate Evicted(t: Tree, t': Tree, root: RadixTreeNode, ps: nat, n: RadixTreeNode, top: RadixTreeNode,
                          kv: seq<int>, slots: seq<int>) {
    && n in t && n !in t' && top in t' && t'.Keys <= t.Keys
    && (t'[top].parent == null <==> top == root)
    && Balanced(t, t', ps, kv, slots)
    && FreeSnaps(t', root) == FreeSnaps(t, root) - {n}
    && FreeLeaves(t', root) == FreeLeaves(t, root) - {n}
         + (if top != root && t'[top].children == map[] && t'[top].refCount == 0 then {top} else {})
  }

  lemma TakeStep(t: Tree, root: RadixTreeNode, ps: nat, locks: seq<Tokens>, n: RadixTreeNode)
    requires Inv(t, root, ps, locks) && n in FreeLeaves(t, root)
    ensures t[n].parent != null && t[n].parent in t && t[n].parent != n && t[n].mamba.Some? && t[n].mambaRef == 0
    ensures InvExcept(TakenTree(t, ps, n), root, ps, locks, t[n].parent)
    ensures Trimmed(SnapTree(t, n, None), TakenTree(t, ps, n), n, t[n].parent)
    ensures Balanced(t, TakenTree(t, ps, n), ps, t[n].value, [t[n].mamba.value])
  {
    FreeLeafFacts(t, root, ps, locks, n);
    FreeSnapStep(t, root, ps, locks, n);
    BaseFacts(t, root, ps, n);
    var t1 := SnapTree(t, n, None);
    UnlinkStep(t1, root, ps, locks, n);
    TrimFirst(t1, root, ps, n);
    var slots := [t[n].mamba.value];
    BalancedThen(t, t1, UnlinkTree(t1, ps, n), ps, [], slots, t[n].value, []);
    assert [] + t[n].value == t[n].value && slots + [] == slots;
  }

  /** Evicting an unlocked leaf keeps the invariant and the books. */
  lemma EvictStep(t: Tree, root: RadixTreeNode, ps: nat, locks: seq<Tokens>, n: RadixTreeNode)
    requires Inv(t, root, ps, locks) && n in FreeLeaves(t, root)
    ensures t[n].parent != null && t[n].parent in t && t[n].parent != n && t[n].mamba.Some? && t[n].mambaRef == 0
    ensures var r := EvictTree(t, ps, n);
      Inv(r.tree, root, ps, locks) && Evicted(t, r.tree, root, ps, n, r.top, r.kv, [t[n].mamba.value])
  {
    TakeStep(t, root, ps, locks, n);
    EvictTail(t, root, ps, locks, n);
  }

  lemma EvictTail(t: Tree, root: RadixTreeNode, ps: nat, locks: seq<Tokens>, n: RadixTreeNode)
    requires n in t && t[n].parent != null && t[n].parent in t && t[n].parent != n && t[n].mamba.Some?
    requires InvExcept(TakenTree(t, ps, n), root, ps, locks, t[n].parent)
    requires Trimmed(SnapTree(t, n, None), TakenTree(t, ps, n), n, t[n].parent)
    requires Balanced(t, TakenTree(t, ps, n), ps, t[n].value, [t[n].mamba.value])
    ensures var r := EvictTree(t, ps, n);
      Inv(r.tree, root, ps, locks) && Evicted(t, r.tree, root, ps, n, r.top, r.kv, [t[n].mamba.value])
  {
    var t1, t2, slots := SnapTree(t, n, None), TakenTree(t, ps, n), [t[n].mamba.value];
    CascadeStep(t1, t2, root, ps, locks, n, t[n].parent);
    var r := CascadeTree(t2, ps, t[n].parent);
    BalancedThen(t, t2, r.tree, ps, t[n].value, slots, r.kv, []);
    assert slots + [] == slots;
    EvictSets(t, r.tree, root, n, r.top);
    assert NodeOk(r.tree, root, ps, r.top);
  }

  lemma EvictSets(t: Tree, t': Tree, root: RadixTreeNode, n: RadixTreeNode, top: RadixTreeNode)
    requires n in t && Trimmed(SnapTree(t, n, None), t', n, top)
    ensures n !in t' && top in t' && t'.Keys <= t.Keys
    ensures FreeSnaps(t', root) == FreeSnaps(t, root) - {n}
    ensures FreeLeaves(t', root) == FreeLeaves(t, root) - {n}
              + (if top != root && t'[top].children == map[] && t'[top].refCount == 0 then {top} else {})
  {
    TrimFree(SnapTree(t, n, None), t', root, n, top);
    FreeSnapSets(t, root, n);
  }

  /** Of the leaves that were free at the start, those gone are no younger than those left. */
  ghost predicate OldestGone(start: set<RadixTreeNode>, t: Tree, time: map<RadixTreeNode, int>) {
    start <= time.Keys && forall v, u | v in start && v !in t && u in start && u in t :: time[v] <= time[u]
  }

  /** Evicting the oldest of the free leaves keeps that so. */
  lemma OldestGoneStep(start: set<RadixTreeNode>, t: Tree, t': Tree, root: RadixTreeNode, ps: nat,
                       n: RadixTreeNode, top: RadixTreeNode, kv: seq<int>, slots: seq<int>,
                       time: map<RadixTreeNode, int>)
    requires OldestGone(start, t, time) && Evicted(t, t', root, ps, n, top, kv, slots)
    requires forall x | x in start && x in t :: x in FreeLeaves(t, root)
    requires n in time && forall x | x in FreeLeaves(t, root) && x in time :: time[n] <= time[x]
    ensures OldestGone(start, t', time)
    ensures forall x | x in start && x in t' :: x in FreeLeaves(t', root)
  {
    forall x | x in start && x in t && x != n ensures x in FreeLeaves(t', root) {
      assert x in FreeLeaves(t, root) - {n};
    }
  }

  // ---------------------------------------------------------------- a whole eviction run

  /** A tree after some evictions, and what they handed out so far. */
  datatype Evictions = Evictions(tree: Tree, kv: seq<int>, slots: seq<int>)

  /** Evicting n: an unlocked leaf goes as a whole, any other node only loses its snapshot. */
  ghost function EvictOne(t: Tree, root: RadixTreeNode, ps: nat, n: RadixTreeNode): Evictions {
    if n in t && t[n].mamba.Some? then
      if n in FreeLeaves(t, root) && t[n].parent != null && t[n].parent in t then
        var r := EvictTree(t, ps, n);
        Evictions(r.tree, r.kv, [t[n].mamba.value])
      else Evictions(SnapTree(t, n, None), [], [t[n].mamba.value])
    else Evictions(t, [], [])
  }

  /** Evicting the victims one after the other. */
  ghost function Run(t0: Tree, root: RadixTreeNode, ps: nat, victims: seq<RadixTreeNode>): Evictions {
    if victims == [] then Evictions(t0, [], []) else
    var r := Run(t0, root, ps, victims[..|victims| - 1]);
    var e := EvictOne(r.tree, root, ps, victims[|victims| - 1]);
    Evictions(e.tree, r.kv + e.kv, r.slots + e.slots)
  }

  /** Each victim was the least recently used unlocked leaf when its turn came. */
  ghost predicate OldestLeaves(t0: Tree, root: RadixTreeNode, ps: nat, victims: seq<RadixTreeNode>,
                               time: map<RadixTreeNode, int>)
  {
    victims == [] ||
    (var before, n := victims[..|victims| - 1], victims[|victims| - 1];
     && OldestLeaves(t0, root, ps, before, time)
     && Oldest(FreeLeaves(Run(t0, root, ps, before).tree, root), n, time))
  }

  /** Each victim carried the least recently used unlocked snapshot when its turn came. */
  ghost predicate OldestSnaps(t0: Tree, root: RadixTreeNode, ps: nat, victims: seq<RadixTreeNode>,
                              time: map<RadixTreeNode, int>)
  {
    victims == [] ||
    (var before, n := victims[..|victims| - 1], victims[|victims| - 1];
     && OldestSnaps(t0, root, ps, before, time)
     && Oldest(FreeSnaps(Run(t0, root, ps, before).tree, root), n, time))
  }

  ghost predicate Oldest(heap: set<RadixTreeNode>, n: RadixTreeNode, time: map<RadixTreeNode, int>) {
    n in heap && heap <= time.Keys && forall x | x in heap :: time[n] <= time[x]
  }

  lemma RunNext(t0: Tree, root: RadixTreeNode, ps: nat, victims: seq<RadixTreeNode>, n: RadixTreeNode)
    ensures var r := Run(t0, root, ps, victims);
      var e := EvictOne(r.tree, root, ps, n);
      Run(t0, root, ps, victims + [n]) == Evictions(e.tree, r.kv + e.kv, r.slots + e.slots)
  {
    assert (victims + [n])[..|victims|] == victims;
  }

  lemma OldestSnapsNext(t0: Tree, root: RadixTreeNode, ps: nat, victims: seq<RadixTreeNode>, n: RadixTreeNode,
                        time: map<RadixTreeNode, int>)
    requires OldestSnaps(t0, root, ps, victims, time)
    requires Oldest(FreeSnaps(Run(t0, root, ps, victims).tree, root), n, time)
    ensures OldestSnaps(t0, root, ps, victims + [n], time)
  {
    assert (victims + [n])[..|victims|] == victims;
  }

  /** The sizes after one eviction. */
  ghost function EvictedSizes(c: Counters, e: Evictions): Counters {
    c.(fullEvictable := c.fullEvictable - |e.kv|, mambaEvictable := c.mambaEvictable - |e.slots|)
  }

  /** What every eviction keeps: the invariant and the books. */
  lemma EvictOneStep(t: Tree, root: RadixTreeNode, ps: nat, locks: seq<Tokens>, n: RadixTreeNode)
    requires Inv(t, root, ps, locks) && n in FreeSnaps(t, root)
    ensures n in FreeLeaves(t, root) ==> CanUnlink(t, root, ps, n)
    ensures var e := EvictOne(t, root, ps, n);
      && Inv(e.tree, root, ps, locks) && e.tree.Keys <= t.Keys
      && Balanced(t, e.tree, ps, e.kv, e.slots) && |e.slots| == 1
      && FreeSnaps(e.tree, root) == FreeSnaps(t, root) - {n}
      && Sums(e.tree) == EvictedSizes(Sums(t), e)
  {
    if n in FreeLeaves(t, root) {
      FreeLeafFacts(t, root, ps, locks, n);
      EvictStep(t, root, ps, locks, n);
      BalancedSizes(t, EvictTree(t, ps, n).tree, ps, EvictTree(t, ps, n).kv, [t[n].mamba.value]);
    } else {
      TombstoneInner(t, root, ps, locks, n);
      FreeSnapStep(t, root, ps, locks, n);
      BalancedSizes(t, SnapTree(t, n, None), ps, [], [t[n].mamba.value]);
    }
  }

  lemma BalancedSizes(t: Tree, t': Tree, ps: nat, kv: seq<int>, slots: seq<int>)
    requires Balanced(t, t', ps, kv, slots)
    ensures Sums(t') == EvictedSizes(Sums(t), Evictions(t', kv, slots))
  {
  }

  /** An unlocked leaf's snapshot is unlocked. */
  lemma LeafIsSnap(t: Tree, root: RadixTreeNode, ps: nat, locks: seq<Tokens>)
    requires Inv(t, root, ps, locks)
    ensures FreeLeaves(t, root) <= FreeSnaps(t, root)
  {
    forall n | n in FreeLeaves(t, root) ensures n in FreeSnaps(t, root) {
      FreeLeafFacts(t, root, ps, locks, n);
    }
  }

  /** Evicting KV by leaves, over a whole run. */
  lemma {:induction false} LeafRun(t0: Tree, root: RadixTreeNode, ps: nat, locks: seq<Tokens>,
                                   victims: seq<RadixTreeNode>, time: map<RadixTreeNode, int>)
    requires Inv(t0, root, ps, locks) && time.Keys == t0.Keys && OldestLeaves(t0, root, ps, victims, time)
    ensures var r := Run(t0, root, ps, victims);
      && Inv(r.tree, root, ps, locks) && r.tree.Keys <= t0.Keys
      && Balanced(t0, r.tree, ps, r.kv, r.slots)
      && OldestGone(FreeLeaves(t0, root), r.tree, time)
      && (forall x | x in FreeLeaves(t0, root) && x in r.tree :: x in FreeLeaves(r.tree, root))
    decreases |victims|
  {
    if victims == [] {
      BalancedNothing(t0, ps);
    } else {
      var before, n := victims[..|victims| - 1], victims[|victims| - 1];
      LeafRun(t0, root, ps, locks, before, time);
      var r := Run(t0, root, ps, before);
      LeafIsSnap(r.tree, root, ps, locks);
      EvictOneStep(r.tree, root, ps, locks, n);
      EvictStep(r.tree, root, ps, locks, n);
      var e, c := EvictOne(r.tree, root, ps, n), EvictTree(r.tree, ps, n);
      BalancedThen(t0, r.tree, e.tree, ps, r.kv, r.slots, e.kv, e.slots);
      OldestGoneStep(FreeLeaves(t0, root), r.tree, e.tree, root, ps, n, c.top, e.kv, e.slots, time);
    }
  }

  lemma {:induction false} SnapRunBooks(t0: Tree, root: RadixTreeNode, ps: nat, locks: seq<Tokens>,
                                        victims: seq<RadixTreeNode>,
                                        time: map<RadixTreeNode, int>)
    requires Inv(t0, root, ps, locks) && OldestSnaps(t0, root, ps, victims, time)
    ensures var r := Run(t0, root, ps, victims);
      && Inv(r.tree, root, ps, locks) && r.tree.Keys <= t0.Keys
      && Balanced(t0, r.tree, ps, r.kv, r.slots) && |r.slots| == |victims|
    decreases |victims|
  {
    hide Inv, Balanced, EvictOne;
    if victims == [] {
      BalancedNothing(t0, ps);
    } else {
      var before, n := victims[..|victims| - 1], victims[|victims| - 1];
      SnapRunBooks(t0, root, ps, locks, before, time);
      var r := Run(t0, root, ps, before);
      EvictOneStep(r.tree, root, ps, locks, n);
      var e := EvictOne(r.tree, root, ps, n);
      BalancedThen(t0, r.tree, e.tree, ps, r.kv, r.slots, e.kv, e.slots);
    }
  }

  /** Evicting snapshots, over a whole run: one slot a victim, the oldest first. */
  lemma {:induction false} SnapRun(t0: Tree, root: RadixTreeNode, ps: nat, locks: seq<Tokens>,
                                   victims: seq<RadixTreeNode>, time: map<RadixTreeNode, int>)
    requires Inv(t0, root, ps, locks) && time.Keys == t0.Keys && OldestSnaps(t0, root, ps, victims, time)
    ensures var r := Run(t0, root, ps, victims);
      && Inv(r.tree, root, ps, locks) && r.tree.Keys <= t0.Keys
      && Balanced(t0, r.tree, ps, r.kv, r.slots) && |r.slots| == |victims|
      && FreeSnaps(r.tree, root) <= FreeSnaps(t0, root)
      && (forall v, u | v in FreeSnaps(t0, root) - FreeSnaps(r.tree, root) && u in FreeSnaps(r.tree, root) ::
            time[v] <= time[u])
    decreases |victims|
  {
    SnapRunBooks(t0, root, ps, locks, victims, time);
    if victims != [] {
      var before, n := victims[..|victims| - 1], victims[|victims| - 1];
      SnapRun(t0, root, ps, locks, before, time);
      var r := Run(t0, root, ps, before);
      NextSnaps(r.tree, root, ps, locks, n);
      NextOldest(FreeSnaps(t0, root), FreeSnaps(r.tree, root), n, time);
    }
  }

  lemma NextSnaps(t: Tree, root: RadixTreeNode, ps: nat, locks: seq<Tokens>, n: RadixTreeNode)
    requires Inv(t, root, ps, locks) && n in FreeSnaps(t, root)
    ensures FreeSnaps(EvictOne(t, root, ps, n).tree, root) == FreeSnaps(t, root) - {n}
  {
    EvictOneStep(t, root, ps, locks, n);
  }

  lemma NextOldest(start: set<RadixTreeNode>, left: set<RadixTreeNode>, n: RadixTreeNode, time: map<RadixTreeNode, int>)
    requires left <= start <= time.Keys && Oldest(left, n, time)
    requires forall v, u | v in start - left && u in left :: time[v] <= time[u]
    ensures forall v, u | v in start - (left - {n}) && u in left - {n} :: time[v] <= time[u]
  {
  }

  /** Before each eviction of the run, fewer than `num` tokens were free. */
  ghost predicate ShortBefore(t0: Tree, root: RadixTreeNode, ps: nat, victims: seq<RadixTreeNode>, num: int)
    decreases |victims|
  {
    victims == []
    || (|Run(t0, root, ps, victims[..|victims| - 1]).kv| < num
        && ShortBefore(t0, root, ps, victims[..|victims| - 1], num))
  }

  /** The victims so far lead from t0 to `e`: each was the oldest when its turn came, and was still needed. */
  ghost predicate LeavesTaken(t0: Tree, root: RadixTreeNode, ps: nat, victims: seq<RadixTreeNode>,
                              time: map<RadixTreeNode, int>, num: int, e: Evictions) {
    && OldestLeaves(t0, root, ps, victims, time) && Run(t0, root, ps, victims) == e
    && ShortBefore(t0, root, ps, victims, num)
  }

  lemma LeavesTakenNext(t0: Tree, root: RadixTreeNode, ps: nat, victims: seq<RadixTreeNode>,
                        time: map<RadixTreeNode, int>, num: int, e: Evictions, n: RadixTreeNode)
    requires LeavesTaken(t0, root, ps, victims, time, num, e) && |e.kv| < num
    requires Oldest(FreeLeaves(e.tree, root), n, time)
    ensures var e1 := EvictOne(e.tree, root, ps, n);
            LeavesTaken(t0, root, ps, victims + [n], time, num,
                        Evictions(e1.tree, e.kv + e1.kv, e.slots + e1.slots))
  {
    assert (victims + [n])[..|victims|] == victims;
  }

  /** A run that stopped for want of leaves has freed everything evictable; when nothing was asked for, it is empty. */
  lemma LeafRunDone(t0: Tree, root: RadixTreeNode, ps: nat, locks: seq<Tokens>, victims: seq<RadixTreeNode>,
                    time: map<RadixTreeNode, int>, num: int, e: Evictions)
    requires Inv(t0, root, ps, locks) && time.Keys == t0.Keys && LeavesTaken(t0, root, ps, victims, time, num, e)
    requires |e.kv| >= num || FreeLeaves(e.tree, root) == {}
    ensures OldestLeaves(t0, root, ps, victims, time) && Run(t0, root, ps, victims) == e
    ensures ShortBefore(t0, root, ps, victims, num)
    ensures Inv(e.tree, root, ps, locks) && Balanced(t0, e.tree, ps, e.kv, e.slots)
    ensures num <= Sums(t0).fullEvictable ==> |e.kv| >= num
    ensures |e.kv| < num ==> Sums(e.tree).fullEvictable == 0
    ensures num <= 0 ==> e == Evictions(t0, [], [])
  {
    LeafRun(t0, root, ps, locks, victims, time);
    if FreeLeaves(e.tree, root) == {} { NoFreeLeaves(e.tree, root, ps, locks); }
  }

  /** Exactly as many slots come free as were asked for, or as there were. */
  lemma SnapRunDone(t0: Tree, t: Tree, root: RadixTreeNode, ps: nat, locks: seq<Tokens>, victims: seq<RadixTreeNode>,
                    time: map<RadixTreeNode, int>, kv: seq<int>, slots: seq<int>, num: int)
    requires Inv(t0, root, ps, locks) && time.Keys == t0.Keys && OldestSnaps(t0, root, ps, victims, time)
    requires Run(t0, root, ps, victims) == Evictions(t, kv, slots)
    requires |slots| <= Clamp(num) && (|slots| >= num || FreeSnaps(t, root) == {})
    ensures Inv(t, root, ps, locks) && Balanced(t0, t, ps, kv, slots)
    ensures |slots| == Min(Clamp(num), Sums(t0).mambaEvictable)
  {
    SnapRun(t0, root, ps, locks, victims, time);
    SumsNonNeg(t);
    if FreeSnaps(t, root) == {} { NoFreeSnaps(t, root, ps, locks); }
  }

  function Clamp(n: int): int { if n < 0 then 0 else n }

  // ---------------------------------------------------------------- what one round of the loops needs

  /** Which leaves are free after leaf n and what it exposed are gone. */
  ghost function FreeAfter(free: set<RadixTreeNode>, n: RadixTreeNode, t: Tree, top: RadixTreeNode): set<RadixTreeNode>
    requires top in t
  {
    free - {n} + (if t[top].parent != null && t[top].children == map[] && t[top].refCount == 0 then {top} else {})
  }

  lemma LeafRound(t0: Tree, root: RadixTreeNode, ps: nat, locks: seq<Tokens>, victims: seq<RadixTreeNode>,
                  time: map<RadixTreeNode, int>, num: int, e: Evictions)
    requires Inv(t0, root, ps, locks) && time.Keys == t0.Keys && LeavesTaken(t0, root, ps, victims, time, num, e)
    ensures Inv(e.tree, root, ps, locks) && e.tree.Keys <= t0.Keys
  {
    LeafRun(t0, root, ps, locks, victims, time);
  }

  lemma SnapRound(t0: Tree, t: Tree, root: RadixTreeNode, ps: nat, locks: seq<Tokens>, victims: seq<RadixTreeNode>,
                  time: map<RadixTreeNode, int>, kv: seq<int>, slots: seq<int>)
    requires Inv(t0, root, ps, locks) && time.Keys == t0.Keys && OldestSnaps(t0, root, ps, victims, time)
    requires Run(t0, root, ps, victims) == Evictions(t, kv, slots)
    ensures Inv(t, root, ps, locks) && t.Keys <= t0.Keys && |slots| == |victims|
  {
    SnapRun(t0, root, ps, locks, victims, time);
  }

  lemma LeafVictim(t: Tree, root: RadixTreeNode, ps: nat, locks: seq<Tokens>, n: RadixTreeNode)
    requires Inv(t, root, ps, locks) && n in FreeLeaves(t, root)
    ensures n != root && t[n].mamba.Some? && t[n].mambaRef == 0 && CanUnlink(t, root, ps, n)
    ensures var e, top := EvictOne(t, root, ps, n), EvictTree(t, ps, n).top;
      && top in e.tree && e.tree.Keys < t.Keys
      && FreeLeaves(e.tree, root) == FreeAfter(FreeLeaves(t, root), n, e.tree, top)
      && Sums(e.tree) == EvictedSizes(Sums(t), e)
  {
    LeafIsSnap(t, root, ps, locks);
    FreeLeafFacts(t, root, ps, locks, n);
    EvictOneStep(t, root, ps, locks, n);
    EvictStep(t, root, ps, locks, n);
  }

  lemma SnapVictim(t: Tree, root: RadixTreeNode, ps: nat, locks: seq<Tokens>, n: RadixTreeNode)
    requires Inv(t, root, ps, locks) && n in FreeSnaps(t, root)
    ensures n != root && t[n].mamba.Some? && t[n].mambaRef == 0
    ensures n in FreeLeaves(t, root) ==> CanUnlink(t, root, ps, n)
    ensures var e := EvictOne(t, root, ps, n);
      && e.tree.Keys <= t.Keys && FreeSnaps(e.tree, root) == FreeSnaps(t, root) - {n} && |e.slots| == 1
      && Sums(e.tree) == EvictedSizes(Sums(t), e)
  {
    EvictOneStep(t, root, ps, locks, n);
  }
}
