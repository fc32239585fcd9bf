/**
Locks and the counters they drive.  A lock is the path of the matched node it protects; the
reference counts a node caches are the number of locks at, and at or below, its end.
*/
module RadixLocks {
  import opened Wrappers
  import opened Alignment
  import opened RadixTree
  import opened RadixSteps

  /** How many locks lie at or below the node that ends at p. */
  ghost function Below(locks: seq<Tokens>, p: Tokens): nat {
    if locks == [] then 0 else Below(locks[1..], p) + (if p <= locks[0] then 1 else 0)
  }

  /** How many locks lie exactly at p. */
  ghost function At(locks: seq<Tokens>, p: Tokens): nat {
    if locks == [] then 0 else At(locks[1..], p) + (if p == locks[0] then 1 else 0)
  }

  lemma {:induction false} AddLock(locks: seq<Tokens>, l: Tokens, p: Tokens)
    ensures Below(locks + [l], p) == Below(locks, p) + (if p <= l then 1 else 0)
    ensures At(locks + [l], p) == At(locks, p) + (if p == l then 1 else 0)
  {
    if locks == [] {
      assert locks + [l] == [l];
    } else {
      AddLock(locks[1..], l, p);
      assert (locks + [l])[1..] == locks[1..] + [l];
    }
  }

  /** Removes the first lock at l. */
  ghost function Unlock(locks: seq<Tokens>, l: Tokens): seq<Tokens>
    requires l in locks
  {
    if locks[0] == l then locks[1..] else [locks[0]] + Unlock(locks[1..], l)
  }

  lemma {:induction false} RemoveLock(locks: seq<Tokens>, l: Tokens, p: Tokens)
    requires l in locks
    ensures Below(Unlock(locks, l), p) == Below(locks, p) - (if p <= l then 1 else 0)
    ensures At(Unlock(locks, l), p) == At(locks, p) - (if p == l then 1 else 0)
  {
    if locks[0] != l {
      RemoveLock(locks[1..], l, p);
      assert Unlock(locks, l)[1..] == Unlock(locks[1..], l);
    }
  }

  lemma {:induction false} UnlockSubset(locks: seq<Tokens>, l: Tokens, x: Tokens)
    requires l in locks && x in Unlock(locks, l)
    ensures x in locks
  {
    if locks[0] != l && x != locks[0] { UnlockSubset(locks[1..], l, x); }
  }

  /** Counts say whether there is a lock at all. */
  lemma {:induction false} CountsSeen(locks: seq<Tokens>, p: Tokens)
    ensures Below(locks, p) > 0 <==> exists l :: l in locks && p <= l
    ensures At(locks, p) > 0 <==> p in locks
    ensures At(locks, p) <= Below(locks, p)
  {
    if locks != [] {
      CountsSeen(locks[1..], p);
      assert locks[0] in locks;
      assert forall l | l in locks :: l == locks[0] || l in locks[1..];
      assert forall l | l in locks[1..] :: l in locks;
    }
  }

  lemma {:induction false} BelowAntitone(locks: seq<Tokens>, p: Tokens, q: Tokens)
    requires p <= q
    ensures Below(locks, q) <= Below(locks, p)
  {
    if locks != [] { BelowAntitone(locks[1..], p, q); }
  }

  // ---------------------------------------------------------------- the cache invariant

  ghost predicate LockOk(t: Tree, root: RadixTreeNode, locks: seq<Tokens>, n: RadixTreeNode)
    requires n in t
  {
    && (n != root ==> t[n].refCount == Below(locks, n.path) && t[n].mambaRef == At(locks, n.path))
    && (n == root ==> t[n].refCount == 1 && t[n].mambaRef == 0)
  }

  /** A leaf carries a live snapshot. */
  ghost predicate LeafOk(t: Tree, root: RadixTreeNode, n: RadixTreeNode)
    requires n in t
  {
    n != root && t[n].children == map[] ==> t[n].mamba.Some?
  }

  ghost predicate Inv(t: Tree, root: RadixTreeNode, ps: nat, locks: seq<Tokens>) {
    && WF(t, root, ps)
    && (forall n {:trigger LockOk(t, root, locks, n)} | n in t :: LockOk(t, root, locks, n))
    && (forall n {:trigger LeafOk(t, root, n)} | n in t :: LeafOk(t, root, n))
    && (forall l | l in locks :: l in SnapKeys(t))
  }

  /** As Inv, but the one node h may have become a leaf without a snapshot. */
  ghost predicate InvExcept(t: Tree, root: RadixTreeNode, ps: nat, locks: seq<Tokens>, h: RadixTreeNode) {
    && WF(t, root, ps) && h in t
    && (forall n {:trigger LockOk(t, root, locks, n)} | n in t :: LockOk(t, root, locks, n))
    && (forall n {:trigger LeafOk(t, root, n)} | n in t && n != h :: LeafOk(t, root, n))
    && (forall l | l in locks :: l in SnapKeys(t))
  }

  /**
  Reference counts only shrink towards the leaves, and cover the snapshot's own count.  The root is the exception: its
  count stays 1, so a node just below it has more as soon as two locks lie there.
  */
  lemma RefsOrdered(t: Tree, root: RadixTreeNode, ps: nat, locks: seq<Tokens>, n: RadixTreeNode)
    requires Inv(t, root, ps, locks) && n in t && n != root
    ensures 0 <= t[n].mambaRef <= t[n].refCount
    ensures t[n].parent != null && t[n].parent in t
    ensures t[n].parent != root ==> t[n].refCount <= t[t[n].parent].refCount
    ensures t[n].parent == root ==> (t[n].refCount <= t[root].refCount <==> Below(locks, n.path) <= 1)
  {
    BaseFacts(t, root, ps, n);
    assert LockOk(t, root, locks, n) && LockOk(t, root, locks, t[n].parent);
    CountsSeen(locks, n.path);
    BelowAntitone(locks, t[n].parent.path, n.path);
  }

  /** A locked node that has no children is the locked node itself, so it carries a snapshot. */
  lemma LockedLeafIsLive(t: Tree, root: RadixTreeNode, ps: nat, locks: seq<Tokens>, h: RadixTreeNode, n: RadixTreeNode)
    requires InvExcept(t, root, ps, locks, h) && n in t && n != root && t[n].children == map[]
    ensures t[n].refCount != 0 ==> t[n].mamba.Some?
    ensures t[n].mambaRef == t[n].refCount
  {
    assert LockOk(t, root, locks, n);
    CountsSeen(locks, n.path);
    forall l | l in locks && n.path <= l ensures l == n.path && t[n].mamba.Some? {
      OnlyAtLeaf(t, root, ps, locks, h, n, l);
    }
    SameCounts(locks, n.path);
  }

  /** Between operations every leaf is a boundary one can resume from. */
  lemma LeafHasSnapshot(t: Tree, root: RadixTreeNode, ps: nat, locks: seq<Tokens>, n: RadixTreeNode)
    requires Inv(t, root, ps, locks) && n in t && n != root && t[n].children == map[]
    ensures t[n].mamba.Some? && n.path in Snaps(t) && Snaps(t)[n.path] == t[n].mamba.value
  {
    assert LeafOk(t, root, n);
    SnapsAt(t, root, ps, n);
  }

  lemma OnlyAtLeaf(t: Tree, root: RadixTreeNode, ps: nat, locks: seq<Tokens>, h: RadixTreeNode, n: RadixTreeNode,
                   l: Tokens)
    requires InvExcept(t, root, ps, locks, h) && n in t && n != root && t[n].children == map[]
    requires l in locks && n.path <= l
    ensures l == n.path && t[n].mamba.Some?
  {
    var x := Holder(t, l);
    if x != n {
      ChildToward(t, root, ps, n, x);
      assert false;
    }
  }

  lemma {:induction false} SameCounts(locks: seq<Tokens>, p: Tokens)
    requires forall l | l in locks && p <= l :: l == p
    ensures At(locks, p) == Below(locks, p)
  {
    if locks != [] {
      assert locks[0] in locks && forall l | l in locks[1..] :: l in locks;
      SameCounts(locks[1..], p);
    }
  }

  ghost function Deeper(t: Tree, n: RadixTreeNode): set<RadixTreeNode> {
    set x | x in t && |x.path| > |n.path|
  }

  /** Below every unlocked node there is an unlocked leaf. */
  lemma UnlockedLeaf(t: Tree, root: RadixTreeNode, ps: nat, locks: seq<Tokens>, n: RadixTreeNode)
    returns (leaf: RadixTreeNode)
    requires Inv(t, root, ps, locks) && n in t && n != root && t[n].refCount == 0
    ensures leaf in t && leaf != root && t[leaf].children == map[] && t[leaf].refCount == 0
    decreases |Deeper(t, n)|
  {
    if |t[n].children| == 0 {
      leaf := n;
    } else {
      var k :| k in t[n].children;
      var c := t[n].children[k];
      assert ChildrenOk(t, root, ps, n);
      RefsOrdered(t, root, ps, locks, c);
      BaseFacts(t, root, ps, c);
      SetLess(Deeper(t, c), Deeper(t, n), c);
      leaf := UnlockedLeaf(t, root, ps, locks, c);
    }
  }

  lemma SetLess<T>(a: set<T>, b: set<T>, x: T)
    requires a <= b && x in b && x !in a
    ensures |a| < |b|
  {
    assert a <= b - {x};
    SetAtMost(a, b - {x});
  }

  lemma {:induction false} SetAtMost<T>(a: set<T>, b: set<T>)
    requires a <= b
    ensures |a| <= |b|
    decreases a
  {
    if a != {} {
      var x :| x in a;
      SetAtMost(a - {x}, b - {x});
    }
  }

  lemma {:induction false} TotalZero(t: Tree, f: Rec -> int)
    requires forall n | n in t :: f(t[n]) == 0
    ensures Total(t, f) == 0
    decreases |t|
  {
    if t != map[] {
      var n :| n in t;
      TotalRemove(t, f, n);
      TotalZero(t - {n}, f);
    }
  }

  /** With no unlocked leaf there is nothing evictable at all. */
  lemma NothingFree(t: Tree, root: RadixTreeNode, ps: nat, locks: seq<Tokens>)
    requires Inv(t, root, ps, locks)
    requires forall n | n in t && n != root && t[n].children == map[] :: t[n].refCount != 0
    ensures Total(t, FreeTokens) == 0
  {
    forall n | n in t ensures FreeTokens(t[n]) == 0 {
      assert NodeOk(t, root, ps, n);
      if n != root && t[n].refCount == 0 {
        var leaf := UnlockedLeaf(t, root, ps, locks, n);
        assert false;
      }
    }
    TotalZero(t, FreeTokens);
  }

  // ---------------------------------------------------------------- the invariant through each step

  lemma SplitInv(t: Tree, root: RadixTreeNode, ps: nat, locks: seq<Tokens>, n: RadixTreeNode, k: int, m: RadixTreeNode)
    requires Inv(t, root, ps, locks) && CanSplit(t, root, ps, n, k, m)
    ensures Inv(SplitTree(t, ps, n, k, m), root, ps, locks)
  {
    var t' := SplitTree(t, ps, n, k, m);
    SplitWF(t, root, ps, n, k, m);
    SplitFacts(t, root, ps, n, k, m);
    forall x | x in t' ensures LockOk(t', root, locks, x) && LeafOk(t', root, x) {
      if x == m {
        assert LockOk(t, root, locks, n);
        SplitLockOk(t, root, ps, locks, n, k, m);
        assert FirstPage(t[n].key[k..], ps) in t'[m].children;
      } else {
        assert LockOk(t, root, locks, x) && LeafOk(t, root, x);
      }
    }
    forall l | l in locks ensures l in SnapKeys(t') { assert Live(t', Holder(t, l)); }
  }

  /** Every lock under the new upper half is under the old node, and none sits at the cut. */
  lemma SplitLockOk(t: Tree, root: RadixTreeNode, ps: nat, locks: seq<Tokens>, n: RadixTreeNode, k: int,
                    m: RadixTreeNode)
    requires Inv(t, root, ps, locks) && CanSplit(t, root, ps, n, k, m)
    ensures Below(locks, m.path) == Below(locks, n.path) && At(locks, m.path) == 0
  {
    SplitFacts(t, root, ps, n, k, m);
    forall l | l in locks ensures (m.path <= l <==> n.path <= l) && l != m.path {
      SplitFresh(t, root, ps, n, k, m, Holder(t, l));
      assert OwnsEdge(t, root, ps, n, Holder(t, l));
    }
    SameBelow(locks, m.path, n.path);
    CountsSeen(locks, m.path);
  }

  lemma {:induction false} SameBelow(locks: seq<Tokens>, p: Tokens, q: Tokens)
    requires forall l | l in locks :: p <= l <==> q <= l
    ensures Below(locks, p) == Below(locks, q)
  {
    if locks != [] {
      assert locks[0] in locks && forall l | l in locks[1..] :: l in locks;
      SameBelow(locks[1..], p, q);
    }
  }

  /** A new leaf starts unlocked, and gets its snapshot before anyone looks. */
  lemma AddInv(t: Tree, root: RadixTreeNode, ps: nat, locks: seq<Tokens>, p: RadixTreeNode, w: RadixTreeNode,
               key: Tokens, value: seq<int>, slot: int)
    requires Inv(t, root, ps, locks) && CanAdd(t, root, ps, p, w, key, value)
    ensures var t' := AddTree(t, ps, p, w, key, value);
      w in t' && Inv(t'[w := t'[w].(mamba := Some(slot))], root, ps, locks)
  {
    var t1 := AddTree(t, ps, p, w, key, value);
    AddWF(t, root, ps, p, w, key, value);
    AddUnlocked(t, root, ps, locks, p, w, key, value);
    assert NodeOk(t, root, ps, root);
    SnapWF(t1, root, ps, w, Some(slot));
    var t' := t1[w := t1[w].(mamba := Some(slot))];
    forall x | x in t' ensures LockOk(t', root, locks, x) && LeafOk(t', root, x) {
      if x != w { assert LockOk(t, root, locks, x) && LeafOk(t, root, x); }
    }
    forall l | l in locks ensures l in SnapKeys(t') { assert Live(t', Holder(t, l)); }
  }

  lemma AddUnlocked(t: Tree, root: RadixTreeNode, ps: nat, locks: seq<Tokens>, p: RadixTreeNode, w: RadixTreeNode,
                    key: Tokens, value: seq<int>)
    requires Inv(t, root, ps, locks) && CanAdd(t, root, ps, p, w, key, value)
    ensures Below(locks, w.path) == 0 && At(locks, w.path) == 0
  {
    CountsSeen(locks, w.path);
    forall l | l in locks ensures !(w.path <= l) {
      AddIsNew(t, root, ps, p, w, key, value, Holder(t, l));
      assert p.path + FirstPage(key, ps) <= w.path;
    }
  }

  /** Changing only a node's snapshot or its counts leaves the shape alone. */
  lemma SnapWF(t: Tree, root: RadixTreeNode, ps: nat, n: RadixTreeNode, v: Option<int>)
    requires WF(t, root, ps) && n in t && n != root
    ensures WF(t[n := t[n].(mamba := v)], root, ps)
    ensures Pages(t[n := t[n].(mamba := v)], ps) == Pages(t, ps)
    ensures v.Some? ==> Snaps(t[n := t[n].(mamba := v)]) == Snaps(t)[n.path := v.value]
    ensures v.None? ==> Snaps(t[n := t[n].(mamba := v)]) == Snaps(t) - {n.path}
  {
    assert NodeOk(t, root, ps, root);
    SameShape(t, t[n := t[n].(mamba := v)], root, ps);
    SnapMap(t, root, ps, n, v);
  }

  lemma SnapMap(t: Tree, root: RadixTreeNode, ps: nat, n: RadixTreeNode, v: Option<int>)
    requires WF(t, root, ps) && n in t && WF(t[n := t[n].(mamba := v)], root, ps)
    ensures v.Some? ==> Snaps(t[n := t[n].(mamba := v)]) == Snaps(t)[n.path := v.value]
    ensures v.None? ==> Snaps(t[n := t[n].(mamba := v)]) == Snaps(t) - {n.path}
  {
    var t' := t[n := t[n].(mamba := v)];
    forall q | q in Snaps(t) && q != n.path ensures q in Snaps(t') && Snaps(t')[q] == Snaps(t)[q] {
      var h := Holder(t, q);
      assert Live(t', h);
      SnapsAt(t', root, ps, h);
    }
    forall q | q in Snaps(t') ensures q == n.path || q in Snaps(t) {
      var h := Holder(t', q);
      if h != n { assert Live(t, h); }
    }
    if v.Some? {
      SnapsAt(t', root, ps, n);
    } else {
      forall q | q in Snaps(t') ensures q != n.path {
        assert SamePathSameNode(t', n, Holder(t', q));
      }
    }
  }

  lemma SameShape(t: Tree, t': Tree, root: RadixTreeNode, ps: nat)
    requires WF(t, root, ps) && t'.Keys == t.Keys
    requires forall n | n in t :: t'[n].key == t[n].key && t'[n].value == t[n].value && t'[n].parent == t[n].parent
                                  && t'[n].children == t[n].children
    requires t'[root].mamba.None?
    ensures WF(t', root, ps) && Pages(t', ps) == Pages(t, ps)
  {
    forall n | n in t' ensures NodeOk(t', root, ps, n) && ChildLink(t', root, ps, n) && ChildrenOk(t', root, ps, n) {
      SameShapeNode(t, t', root, ps, n);
    }
    forall a, b | a in t' && b in t' ensures OwnsEdge(t', root, ps, a, b) && SamePathSameNode(t', a, b) {
      SameShapePair(t, t', root, ps, a, b);
    }
    SameShapePages(t, t', root, ps);
  }

  lemma SameShapeNode(t: Tree, t': Tree, root: RadixTreeNode, ps: nat, n: RadixTreeNode)
    requires WF(t, root, ps) && t'.Keys == t.Keys && n in t
    requires forall x | x in t :: t'[x].key == t[x].key && t'[x].value == t[x].value && t'[x].parent == t[x].parent
                                  && t'[x].children == t[x].children
    requires t'[root].mamba.None?
    ensures NodeOk(t', root, ps, n) && ChildLink(t', root, ps, n) && ChildrenOk(t', root, ps, n)
  {
    assert NodeOk(t, root, ps, n) && ChildLink(t, root, ps, n) && ChildrenOk(t, root, ps, n);
  }

  lemma SameShapePair(t: Tree, t': Tree, root: RadixTreeNode, ps: nat, a: RadixTreeNode, b: RadixTreeNode)
    requires WF(t, root, ps) && t'.Keys == t.Keys && a in t && b in t && t'[a].key == t[a].key
    ensures OwnsEdge(t', root, ps, a, b) && SamePathSameNode(t', a, b)
  {
    assert OwnsEdge(t, root, ps, a, b) && SamePathSameNode(t, a, b);
  }

  lemma SameShapePages(t: Tree, t': Tree, root: RadixTreeNode, ps: nat)
    requires WF(t, root, ps) && WF(t', root, ps) && t'.Keys == t.Keys
    requires forall n | n in t :: t'[n].key == t[n].key && t'[n].value == t[n].value
    ensures Pages(t', ps) == Pages(t, ps)
  {
    forall n, p {:trigger Owns(t, ps, n, p)} | Owns(t, ps, n, p)
      ensures exists n' :: Owns(t', ps, n', p) && PageValue(t', ps, n', p) == PageValue(t, ps, n, p)
    {
      assert Owns(t', ps, n, p) && PageValue(t', ps, n, p) == PageValue(t, ps, n, p);
    }
    forall n, p {:trigger Owns(t', ps, n, p)} | Owns(t', ps, n, p) ensures exists n' :: Owns(t, ps, n', p) {
      assert Owns(t, ps, n, p);
    }
    SamePages(t, t', root, ps);
  }

  lemma UnlinkInv(t: Tree, root: RadixTreeNode, ps: nat, locks: seq<Tokens>, n: RadixTreeNode)
    requires InvExcept(t, root, ps, locks, n) && CanUnlink(t, root, ps, n) && t[n].refCount == 0
    ensures InvExcept(UnlinkTree(t, ps, n), root, ps, locks, t[n].parent)
  {
    var t' := UnlinkTree(t, ps, n);
    UnlinkWF(t, root, ps, n);
    BaseFacts(t, root, ps, n);
    forall x | x in t' ensures LockOk(t', root, locks, x) && (x != t[n].parent ==> LeafOk(t', root, x)) {
      assert LockOk(t, root, locks, x) && LeafOk(t, root, x);
    }
    assert LockOk(t, root, locks, n);
    CountsSeen(locks, n.path);
    forall l | l in locks ensures l in SnapKeys(t') { assert Live(t', Holder(t, l)); }
  }

  /** The four sizes the cache keeps up to date instead of summing the tree. */
  datatype Counters = Counters(fullEvictable: int, fullProtected: int, mambaEvictable: int, mambaProtected: int)

  ghost function Sums(t: Tree): Counters {
    Counters(Total(t, FreeTokens), Total(t, HeldTokens), Total(t, FreeSlots), Total(t, HeldSlots))
  }

  /** A split changes neither map, no lock and none of the four sums. */
  lemma SplitStep(t: Tree, root: RadixTreeNode, ps: nat, locks: seq<Tokens>, n: RadixTreeNode, k: int, m: RadixTreeNode)
    requires Inv(t, root, ps, locks) && CanSplit(t, root, ps, n, k, m)
    ensures var t' := SplitTree(t, ps, n, k, m);
      && Inv(t', root, ps, locks)
      && Pages(t', ps) == Pages(t, ps) && Snaps(t') == Snaps(t) && Sums(t') == Sums(t)
  {
    SplitInv(t, root, ps, locks, n, k, m);
    SplitKeepsMaps(t, root, ps, n, k, m);
    SplitTotals(t, root, ps, n, k, m, FreeTokens);
    SplitTotals(t, root, ps, n, k, m, HeldTokens);
    SplitTotals(t, root, ps, n, k, m, FreeSlots);
    SplitTotals(t, root, ps, n, k, m, HeldSlots);
  }

  lemma CanSplitAt(t: Tree, root: RadixTreeNode, ps: nat, n: RadixTreeNode, k: int)
    requires WF(t, root, ps) && n in t && n != root && 0 < k < |t[n].key| && Aligned(k, ps)
    ensures |t[n].key| == |t[n].value| && |t[n].key| <= |n.path|
    ensures t[n].parent != null && t[n].parent in t && t[n].parent != n
    ensures forall m: RadixTreeNode | m !in t && m.path == n.path[..Base(t, n) + k] :: CanSplit(t, root, ps, n, k, m)
  {
    assert NodeOk(t, root, ps, n);
    BaseFacts(t, root, ps, n);
  }

  // ---------------------------------------------------------------- taking and releasing a lock

  /** The tree after d was added to the counts of the nodes on the way from `from` down to `to`. */
  ghost function Bumped(t: Tree, from: Tokens, to: Tokens, d: int): Tree {
    map n | n in t :: if |from| < |n.path| && n.path <= to then t[n].(refCount := t[n].refCount + d) else t[n]
  }

  /** Climbing one node adds exactly that node to the ones already counted. */
  lemma BumpStep(t: Tree, root: RadixTreeNode, ps: nat, cur: RadixTreeNode, to: Tokens, d: int)
    requires WF(t, root, ps) && cur in t && cur != root && cur.path <= to
    ensures t[cur].parent != null && t[cur].parent in t && t[cur].parent.path <= to
    ensures |t[cur].parent.path| < |cur.path|
    ensures cur in Bumped(t, cur.path, to, d) && Bumped(t, cur.path, to, d)[cur] == t[cur]
    ensures Bumped(t, t[cur].parent.path, to, d)
         == Bumped(t, cur.path, to, d)[cur := t[cur].(refCount := t[cur].refCount + d)]
  {
    BaseFacts(t, root, ps, cur);
    forall n | n in t && |t[cur].parent.path| < |n.path| <= |cur.path| && n.path <= to ensures n == cur {
      PrefixChain(n.path, cur.path, to);
      if n != cur { AboveParent(t, root, ps, n, cur); assert false; }
    }
    assert t[cur].parent.path <= cur.path;
  }

  /** The tree after one lock at n was counted in (d == 1) or out (d == -1). */
  ghost function LockTree(t: Tree, n: RadixTreeNode, d: int): Tree
    requires n in t
  {
    var b := Bumped(t, [], n.path, d);
    b[n := b[n].(mambaRef := b[n].mambaRef + d)]
  }

  lemma LockTreeFields(t: Tree, n: RadixTreeNode, d: int)
    requires n in t
    ensures LockTree(t, n, d).Keys == t.Keys
    ensures forall x | x in t :: LockTree(t, n, d)[x] == t[x].(
        refCount := t[x].refCount + (if 0 < |x.path| && x.path <= n.path then d else 0),
        mambaRef := t[x].mambaRef + (if x == n then d else 0))
  {
  }

  /** Counting a lock in, or out, on the way to its node keeps the invariant. */
  lemma LockedInv(t: Tree, root: RadixTreeNode, ps: nat, locks: seq<Tokens>, locks': seq<Tokens>, n: RadixTreeNode,
                  d: int)
    requires Inv(t, root, ps, locks) && Live(t, n)
    requires forall p :: Below(locks', p) == Below(locks, p) + (if p <= n.path then d else 0)
    requires forall p :: At(locks', p) == At(locks, p) + (if p == n.path then d else 0)
    requires forall l | l in locks' :: l in locks || l == n.path
    ensures Inv(LockTree(t, n, d), root, ps, locks')
  {
    var t' := LockTree(t, n, d);
    LockTreeFields(t, n, d);
    assert NodeOk(t, root, ps, root);
    SameShape(t, t', root, ps);
    forall x | x in t' ensures LockOk(t', root, locks', x) && LeafOk(t', root, x) {
      assert LockOk(t, root, locks, x) && LeafOk(t, root, x) && NodeOk(t, root, ps, x);
      assert SamePathSameNode(t, x, n);
    }
    forall l | l in locks' ensures l in SnapKeys(t') {
      if l == n.path { assert Live(t', n); } else { assert Live(t', Holder(t, l)); }
    }
  }

  /** Neither map sees the counts. */
  lemma LockedMaps(t: Tree, root: RadixTreeNode, ps: nat, n: RadixTreeNode, d: int)
    requires WF(t, root, ps) && Live(t, n)
    ensures Pages(LockTree(t, n, d), ps) == Pages(t, ps) && Snaps(LockTree(t, n, d)) == Snaps(t)
  {
    LockTreeFields(t, n, d);
    assert NodeOk(t, root, ps, root);
    SameShape(t, LockTree(t, n, d), root, ps);
    SameSnaps(t, LockTree(t, n, d), root, ps);
  }

  // ---------------------------------------------------------------- attaching a snapshot

  ghost function SnapTree(t: Tree, n: RadixTreeNode, v: Option<int>): Tree
    requires n in t
  {
    t[n := t[n].(mamba := v)]
  }

  /** A donated snapshot at an existing boundary that has none. */
  lemma FillStep(t: Tree, root: RadixTreeNode, ps: nat, locks: seq<Tokens>, n: RadixTreeNode, slot: int)
    requires Inv(t, root, ps, locks) && n in t && n != root && t[n].mamba.None?
    ensures var t' := SnapTree(t, n, Some(slot));
      && Inv(t', root, ps, locks)
      && Pages(t', ps) == Pages(t, ps) && Snaps(t') == Snaps(t)[n.path := slot]
      && Sums(t') == Sums(t).(mambaEvictable := Sums(t).mambaEvictable + 1)
      && t[n].mambaRef == 0 && n.path !in Snaps(t)
  {
    var t' := SnapTree(t, n, Some(slot));
    SnapWF(t, root, ps, n, Some(slot));
    forall x | x in t' ensures LockOk(t', root, locks, x) && LeafOk(t', root, x) {
      assert LockOk(t, root, locks, x) && LeafOk(t, root, x);
    }
    forall l | l in locks ensures l in SnapKeys(t') { assert Live(t', Holder(t, l)); }
    NoLockHere(t, root, ps, locks, n);
    TotalUpdate(t, FreeTokens, n, t'[n]);
    TotalUpdate(t, HeldTokens, n, t'[n]);
    TotalUpdate(t, FreeSlots, n, t'[n]);
    TotalUpdate(t, HeldSlots, n, t'[n]);
  }

  lemma NoLockHere(t: Tree, root: RadixTreeNode, ps: nat, locks: seq<Tokens>, n: RadixTreeNode)
    requires Inv(t, root, ps, locks) && n in t && n != root && t[n].mamba.None?
    ensures t[n].mambaRef == 0 && n.path !in Snaps(t)
  {
    assert LockOk(t, root, locks, n);
    CountsSeen(locks, n.path);
    assert n.path in Snaps(t) ==> SamePathSameNode(t, n, Holder(t, n.path));
  }

  /** A new leaf with its donated snapshot. */
  lemma GrowStep(t: Tree, root: RadixTreeNode, ps: nat, locks: seq<Tokens>, p: RadixTreeNode, w: RadixTreeNode,
                 key: Tokens, value: seq<int>, kv: seq<int>, slot: int)
    requires Inv(t, root, ps, locks) && CanAdd(t, root, ps, p, w, key, value)
    requires |kv| == |w.path| && value == kv[|p.path|..]
    ensures w in AddTree(t, ps, p, w, key, value)
    ensures var t' := SnapTree(AddTree(t, ps, p, w, key, value), w, Some(slot));
      && Inv(t', root, ps, locks)
      && Pages(t', ps) == PagesOf(w.path, kv, ps) + Pages(t, ps)
      && Snaps(t') == Snaps(t)[w.path := slot] && w.path !in Snaps(t)
      && Sums(t') == Sums(t).(fullEvictable := Sums(t).fullEvictable + |key|,
                              mambaEvictable := Sums(t).mambaEvictable + 1)
  {
    var t1 := AddTree(t, ps, p, w, key, value);
    AddInv(t, root, ps, locks, p, w, key, value, slot);
    AddWF(t, root, ps, p, w, key, value);
    AddPages(t, root, ps, p, w, key, value, kv);
    AddSnaps(t, root, ps, p, w, key, value);
    GrowRootOk(t, root, ps, p, w, key, value);
    SnapWF(t1, root, ps, w, Some(slot));
    GrowTotals(t, ps, p, w, key, value, Some(slot), FreeTokens);
    GrowTotals(t, ps, p, w, key, value, Some(slot), HeldTokens);
    GrowTotals(t, ps, p, w, key, value, Some(slot), FreeSlots);
    GrowTotals(t, ps, p, w, key, value, Some(slot), HeldSlots);
  }

  lemma GrowRootOk(t: Tree, root: RadixTreeNode, ps: nat, p: RadixTreeNode, w: RadixTreeNode, key: Tokens,
                   value: seq<int>)
    requires CanAdd(t, root, ps, p, w, key, value)
    ensures w != root && w.path !in Snaps(t)
  {
    if w.path in Snaps(t) {
      AddIsNew(t, root, ps, p, w, key, value, Holder(t, w.path));
      assert false;
    }
  }

  lemma GrowTotals(t: Tree, ps: nat, p: RadixTreeNode, w: RadixTreeNode, key: Tokens, value: seq<int>, v: Option<int>,
                   f: Rec -> int)
    requires p in t && w !in t
    requires f == FreeTokens || f == HeldTokens || f == FreeSlots || f == HeldSlots
    ensures w in AddTree(t, ps, p, w, key, value)
    ensures Total(SnapTree(AddTree(t, ps, p, w, key, value), w, v), f)
         == Total(t, f) + f(Rec(key, value, p, map[], 0, v, 0))
  {
    var r := Rec(key, value, p, map[], 0, None, 0);
    TotalUpdate(t, f, w, r);
    TotalUpdate(t[w := r], f, p, t[p].(children := t[p].children[FirstPage(key, ps) := w]));
    TotalUpdate(AddTree(t, ps, p, w, key, value), f, w, r.(mamba := v));
  }

  /** What counting one more, or one less, lock on a node does to the sizes. */
  ghost function PinSizes(c: Counters, r: Rec, d: int): Counters {
    if r.refCount == 0 then c.(fullEvictable := c.fullEvictable - |r.key|, fullProtected := c.fullProtected + |r.key|)
    else if r.refCount + d == 0 then
      c.(fullEvictable := c.fullEvictable + |r.key|, fullProtected := c.fullProtected - |r.key|)
    else c
  }

  ghost function PinSlotSizes(c: Counters, r: Rec, d: int): Counters {
    if r.mambaRef == 0 then c.(mambaEvictable := c.mambaEvictable - 1, mambaProtected := c.mambaProtected + 1)
    else if r.mambaRef + d == 0 then c.(mambaEvictable := c.mambaEvictable + 1, mambaProtected := c.mambaProtected - 1)
    else c
  }

  ghost function PinTree(t: Tree, n: RadixTreeNode, d: int): Tree
    requires n in t
  {
    t[n := t[n].(refCount := t[n].refCount + d)]
  }

  ghost function PinSlotTree(t: Tree, n: RadixTreeNode, d: int): Tree
    requires n in t
  {
    t[n := t[n].(mambaRef := t[n].mambaRef + d)]
  }

  lemma PinSums(t: Tree, n: RadixTreeNode, d: int)
    requires n in t && d != 0
    ensures Sums(PinTree(t, n, d)) == PinSizes(Sums(t), t[n], d)
  {
    var r := t[n].(refCount := t[n].refCount + d);
    TotalUpdate(t, FreeTokens, n, r);
    TotalUpdate(t, HeldTokens, n, r);
    TotalUpdate(t, FreeSlots, n, r);
    TotalUpdate(t, HeldSlots, n, r);
  }

  lemma PinSlotSums(t: Tree, n: RadixTreeNode, d: int)
    requires n in t && d != 0 && t[n].mamba.Some?
    ensures Sums(PinSlotTree(t, n, d)) == PinSlotSizes(Sums(t), t[n], d)
  {
    var r := t[n].(mambaRef := t[n].mambaRef + d);
    TotalUpdate(t, FreeTokens, n, r);
    TotalUpdate(t, HeldTokens, n, r);
    TotalUpdate(t, FreeSlots, n, r);
    TotalUpdate(t, HeldSlots, n, r);
  }

  /** One step of the climb that counts a lock in or out. */
  lemma ClimbPin(t: Tree, root: RadixTreeNode, ps: nat, n: RadixTreeNode, cur: RadixTreeNode, d: int)
    requires WF(t, root, ps) && n in t && cur in t && cur != root && cur.path <= n.path && d != 0
    ensures var t1 := PinSlotTree(t, n, d); var b := Bumped(t1, cur.path, n.path, d);
      && t[cur].parent != null && t[cur].parent in t && t[cur].parent.path <= n.path
      && |t[cur].parent.path| < |cur.path|
      && cur in b && b[cur].refCount == t[cur].refCount && b[cur].parent == t[cur].parent && b[cur].key == t[cur].key
      && Bumped(t1, t[cur].parent.path, n.path, d) == PinTree(b, cur, d)
      && Sums(PinTree(b, cur, d)) == PinSizes(Sums(b), b[cur], d)
  {
    var t1 := PinSlotTree(t, n, d);
    assert NodeOk(t, root, ps, root);
    SameShape(t, t1, root, ps);
    BumpStep(t1, root, ps, cur, n.path, d);
    PinSums(Bumped(t1, cur.path, n.path, d), cur, d);
  }

  lemma PinnedAll(t: Tree, n: RadixTreeNode, d: int)
    requires n in t
    ensures Bumped(PinSlotTree(t, n, d), [], n.path, d) == LockTree(t, n, d)
    ensures Bumped(PinSlotTree(t, n, d), n.path, n.path, d) == PinSlotTree(t, n, d)
  {
  }

  /** Taking a lock at a live node. */
  lemma TakenInv(t: Tree, root: RadixTreeNode, ps: nat, locks: seq<Tokens>, n: RadixTreeNode)
    requires Inv(t, root, ps, locks) && Live(t, n)
    ensures Inv(LockTree(t, n, 1), root, ps, locks + [n.path])
    ensures Pages(LockTree(t, n, 1), ps) == Pages(t, ps) && Snaps(LockTree(t, n, 1)) == Snaps(t)
  {
    forall p ensures Below(locks + [n.path], p) == Below(locks, p) + (if p <= n.path then 1 else 0)
                  && At(locks + [n.path], p) == At(locks, p) + (if p == n.path then 1 else 0) {
      AddLock(locks, n.path, p);
    }
    LockedInv(t, root, ps, locks, locks + [n.path], n, 1);
    LockedMaps(t, root, ps, n, 1);
  }

  /** Releasing a lock that is held. */
  lemma ReleasedInv(t: Tree, root: RadixTreeNode, ps: nat, locks: seq<Tokens>, n: RadixTreeNode)
    requires Inv(t, root, ps, locks) && n in t && n.path in locks
    ensures Live(t, n) && Inv(LockTree(t, n, -1), root, ps, Unlock(locks, n.path))
    ensures Pages(LockTree(t, n, -1), ps) == Pages(t, ps) && Snaps(LockTree(t, n, -1)) == Snaps(t)
  {
    HeldIsLive(t, root, ps, locks, n);
    forall p ensures Below(Unlock(locks, n.path), p) == Below(locks, p) + (if p <= n.path then -1 else 0)
                  && At(Unlock(locks, n.path), p) == At(locks, p) + (if p == n.path then -1 else 0) {
      RemoveLock(locks, n.path, p);
    }
    forall l | l in Unlock(locks, n.path) ensures l in locks { UnlockSubset(locks, n.path, l); }
    LockedInv(t, root, ps, locks, Unlock(locks, n.path), n, -1);
    LockedMaps(t, root, ps, n, -1);
  }

  lemma HeldIsLive(t: Tree, root: RadixTreeNode, ps: nat, locks: seq<Tokens>, n: RadixTreeNode)
    requires Inv(t, root, ps, locks) && n in t && n.path in locks
    ensures Live(t, n) && n != root && t[n].mambaRef > 0
    ensures forall x | x in t && x != root && x.path <= n.path :: t[x].refCount > 0
  {
    var h := Holder(t, n.path);
    assert SamePathSameNode(t, h, n) && NodeOk(t, root, ps, root) && LockOk(t, root, locks, n);
    CountsSeen(locks, n.path);
    forall x | x in t && x != root && x.path <= n.path ensures t[x].refCount > 0 {
      assert LockOk(t, root, locks, x);
      CountsSeen(locks, x.path);
    }
  }
}
