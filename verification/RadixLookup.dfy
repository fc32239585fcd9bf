/**
What a walk down the tree means for the two maps: where it stops is where the stored pages stop, and
the deepest live snapshot above that point is the longest stored prefix one can resume from.
*/
module RadixLookup {
  import opened Wrappers
  import opened Alignment
  import opened RadixTree
  import opened RadixSteps

  /** A walk over ids has stopped at node: ids continues it, but not into any child. */
  ghost predicate Stopped(t: Tree, root: RadixTreeNode, ps: nat, ids: Tokens, node: RadixTreeNode) {
    && WF(t, root, ps) && node in t
    && node.path <= ids
    && (|node.path| < |ids| ==> FirstPage(ids[|node.path|..], ps) !in t[node].children)
  }

  /** Every node that ends inside ids lies on the way to where the walk stopped. */
  lemma StoppedBelowAll(t: Tree, root: RadixTreeNode, ps: nat, ids: Tokens, node: RadixTreeNode, b: RadixTreeNode)
    requires Stopped(t, root, ps, ids, node) && b in t && b.path <= ids
    ensures b.path <= node.path
  {
    if |b.path| <= |node.path| {
      PrefixChain(b.path, node.path, ids);
    } else {
      PrefixChain(node.path, b.path, ids);
      ChildToward(t, root, ps, node, b);
      SamePage(ids, b.path, |node.path|, ps);
      assert false;
    }
  }

  lemma SamePage(ids: Tokens, path: Tokens, at: nat, ps: nat)
    requires at + ps <= |path| && path <= ids
    ensures FirstPage(ids[at..], ps) == FirstPage(path[at..], ps)
  {
    assert path == ids[..|path|];
    assert ids[at..at + ps] == path[at..at + ps];
  }

  /** The stored pages of ids are exactly those up to where the walk stopped. */
  lemma StoppedPages(t: Tree, root: RadixTreeNode, ps: nat, ids: Tokens, node: RadixTreeNode)
    requires Stopped(t, root, ps, ids, node)
    ensures forall q | q in Boundaries(ids, ps) :: q in Pages(t, ps) <==> |q| <= |node.path|
  {
    forall q | q in Boundaries(ids, ps) ensures q in Pages(t, ps) <==> |q| <= |node.path| {
      StoppedPage(t, root, ps, ids, node, q);
    }
  }

  lemma StoppedPage(t: Tree, root: RadixTreeNode, ps: nat, ids: Tokens, node: RadixTreeNode, q: Tokens)
    requires Stopped(t, root, ps, ids, node) && q in Boundaries(ids, ps)
    ensures q in Pages(t, ps) <==> |q| <= |node.path|
  {
    assert q <= ids && q != [] && Aligned(|q|, ps);
    assert NodeOk(t, root, ps, node);
    if |q| <= |node.path| {
      PrefixChain(q, node.path, ids);
      var o := PrefixStored(t, root, ps, node, q);
      PagesAt(t, root, ps, o, q);
    } else if q in Pages(t, ps) {
      PrefixChain(node.path, q, ids);
      AlignedGap(|node.path|, |q|, ps);
      var o := Owner(t, ps, q);
      var page := ids[|node.path|..|node.path| + ps];
      PageOnPath(ids, q, |node.path|, ps);
      assert node.path + page <= o.path;
      ContinuesThroughChild(t, root, ps, node, page, o);
      assert false;
    }
  }

  lemma PageOnPath(ids: Tokens, q: Tokens, at: nat, ps: nat)
    requires q <= ids && at + ps <= |q|
    ensures ids[..at] + ids[at..at + ps] <= q && FirstPage(ids[at..], ps) == ids[at..at + ps]
  {
    assert q == ids[..|q|];
    assert ids[..at] + ids[at..at + ps] == ids[..at + ps];
  }

  /** Climbing from cur: every live node on the way to node lies at or above cur. */
  ghost predicate DeepestAbove(t: Tree, node: RadixTreeNode, cur: RadixTreeNode) {
    cur.path <= node.path && forall n | n in t && Live(t, n) && n.path <= node.path :: n.path <= cur.path
  }

  lemma ClimbDeepest(t: Tree, root: RadixTreeNode, ps: nat, node: RadixTreeNode, cur: RadixTreeNode)
    requires WF(t, root, ps) && cur in t && cur != root && DeepestAbove(t, node, cur) && t[cur].mamba.None?
    ensures t[cur].parent != null && t[cur].parent in t && DeepestAbove(t, node, t[cur].parent)
    ensures |t[cur].parent.path| == |cur.path| - |t[cur].key|
  {
    BaseFacts(t, root, ps, cur);
    forall n | n in t && Live(t, n) && n.path <= node.path ensures n.path <= t[cur].parent.path {
      AboveParent(t, root, ps, n, cur);
    }
  }

  /** At the top nothing live is left. */
  lemma ClimbTop(t: Tree, root: RadixTreeNode, ps: nat, node: RadixTreeNode)
    requires WF(t, root, ps) && DeepestAbove(t, node, root)
    ensures root.path == [] && forall n | n in t && Live(t, n) :: !(n.path <= node.path)
  {
    assert NodeOk(t, root, ps, root);
    forall n | n in t && Live(t, n) ensures !(n.path <= node.path) {
      assert n.path <= node.path ==> SamePathSameNode(t, n, root);
    }
  }

  /** No snapshot lies on a longer prefix of ids than the deepest one above the walk's end. */
  lemma LongestSnapshot(t: Tree, root: RadixTreeNode, ps: nat, ids: Tokens, node: RadixTreeNode, cur: RadixTreeNode)
    requires Stopped(t, root, ps, ids, node) && cur in t && DeepestAbove(t, node, cur)
    ensures cur.path <= ids
    ensures forall p | p in Snaps(t) && p <= ids :: |p| <= |cur.path|
  {
    forall p | p in Snaps(t) && p <= ids ensures |p| <= |cur.path| {
      StoppedBelowAll(t, root, ps, ids, node, Holder(t, p));
    }
  }

  lemma NoSnapshot(t: Tree, root: RadixTreeNode, ps: nat, ids: Tokens, node: RadixTreeNode)
    requires Stopped(t, root, ps, ids, node) && DeepestAbove(t, node, root)
    ensures forall p | p in Snaps(t) :: !(p <= ids)
  {
    ClimbTop(t, root, ps, node);
    forall p | p in Snaps(t) ensures !(p <= ids) {
      if p <= ids {
        StoppedBelowAll(t, root, ps, ids, node, Holder(t, p));
        assert false;
      }
    }
  }

  /** kv holds the stored indices of path from token `from` on. */
  ghost predicate Collected(t: Tree, ps: nat, path: Tokens, from: nat, kv: seq<int>) {
    && Aligned(from, ps) && Aligned(|path|, ps) && from <= |path| && |kv| == |path| - from
    && forall i | from < i <= |path| && Aligned(i, ps) :: EdgePage(Pages(t, ps), path, from, kv, ps, i)
  }

  lemma CollectStart(t: Tree, root: RadixTreeNode, ps: nat, n: RadixTreeNode)
    requires WF(t, root, ps) && n in t
    ensures Collected(t, ps, n.path, |n.path|, [])
  {
    assert NodeOk(t, root, ps, n);
  }

  lemma CollectStep(t: Tree, root: RadixTreeNode, ps: nat, path: Tokens, n: RadixTreeNode, kv: seq<int>)
    requires WF(t, root, ps) && n in t && n != root && n.path <= path && Collected(t, ps, path, |n.path|, kv)
    ensures t[n].parent != null && t[n].parent in t && t[n].parent.path <= path
    ensures Collected(t, ps, path, |t[n].parent.path|, t[n].value + kv)
  {
    BaseFacts(t, root, ps, n);
    assert NodeOk(t, root, ps, n);
    var from := |t[n].parent.path|;
    forall i | from < i <= |path| && Aligned(i, ps)
      ensures EdgePage(Pages(t, ps), path, from, t[n].value + kv, ps, i)
    {
      CollectPage(t, root, ps, path, n, kv, i);
    }
  }

  lemma CollectPage(t: Tree, root: RadixTreeNode, ps: nat, path: Tokens, n: RadixTreeNode, kv: seq<int>, i: int)
    requires WF(t, root, ps) && n in t && n != root && n.path <= path && Collected(t, ps, path, |n.path|, kv)
    requires 0 <= Base(t, n) < i <= |path| && Aligned(i, ps) && |n.path| == Base(t, n) + |t[n].value|
    ensures EdgePage(Pages(t, ps), path, Base(t, n), t[n].value + kv, ps, i)
  {
    if i <= |n.path| {
      CollectOwn(t, root, ps, path, n, kv, i);
    } else {
      CollectLater(t, root, ps, path, n, kv, i);
    }
  }

  lemma CollectOwn(t: Tree, root: RadixTreeNode, ps: nat, path: Tokens, n: RadixTreeNode, kv: seq<int>, i: int)
    requires WF(t, root, ps) && n in t && n != root && n.path <= path
    requires 0 <= Base(t, n) < i <= |n.path| && Aligned(i, ps)
    ensures EdgePage(Pages(t, ps), path, Base(t, n), t[n].value + kv, ps, i)
  {
    EdgePageStored(t, root, ps, n, i);
    SamePrefix(n.path, path, i);
    PageInFront(Pages(t, ps), n.path, path, Base(t, n), t[n].value, kv, ps, i);
  }

  lemma SamePrefix(short: Tokens, path: Tokens, i: int)
    requires short <= path && 0 <= i <= |short|
    ensures short[..i] == path[..i]
  {
  }

  lemma CollectLater(t: Tree, root: RadixTreeNode, ps: nat, path: Tokens, n: RadixTreeNode, kv: seq<int>, i: int)
    requires WF(t, root, ps) && n in t && n.path <= path && Collected(t, ps, path, |n.path|, kv)
    requires |n.path| < i <= |path| && Aligned(i, ps) && |n.path| == Base(t, n) + |t[n].value| && Base(t, n) >= 0
    ensures EdgePage(Pages(t, ps), path, Base(t, n), t[n].value + kv, ps, i)
  {
    assert EdgePage(Pages(t, ps), path, |n.path|, kv, ps, i);
    PageBehind(Pages(t, ps), path, Base(t, n), |n.path|, t[n].value, kv, ps, i);
  }

  lemma PageInFront(m: map<Tokens, seq<int>>, short: Tokens, path: Tokens, base: nat, a: seq<int>, b: seq<int>,
                    ps: nat, i: int)
    requires EdgePage(m, short, base, a, ps, i) && i <= |path| && short[..i] == path[..i]
    ensures EdgePage(m, path, base, a + b, ps, i)
  {
    CollectFront(a, b, i - base, ps);
  }

  lemma PageBehind(m: map<Tokens, seq<int>>, path: Tokens, base: nat, mid: nat, a: seq<int>, b: seq<int>, ps: nat,
                   i: int)
    requires mid == base + |a| && EdgePage(m, path, mid, b, ps, i)
    ensures EdgePage(m, path, base, a + b, ps, i)
  {
    CollectBack(a, b, i - base, ps);
  }

  lemma CollectFront(a: seq<int>, b: seq<int>, end: int, ps: nat)
    requires ps <= end <= |a|
    ensures (a + b)[end - ps..end] == a[end - ps..end]
  {
  }

  lemma CollectBack(a: seq<int>, b: seq<int>, end: int, ps: nat)
    requires |a| + ps <= end <= |a| + |b|
    ensures (a + b)[end - ps..end] == b[end - |a| - ps..end - |a|]
  {
  }

  /** kv lists, in order, the indices a page map stores for path. */
  ghost predicate HoldsPages(pages: map<Tokens, seq<int>>, path: Tokens, kv: seq<int>, ps: nat) {
    |kv| == |path| && forall q | q in Boundaries(path, ps) :: q in pages && pages[q] == PagesOf(path, kv, ps)[q]
  }

  /** Indices collected down to the root are the stored pages of the path. */
  lemma CollectedAll(t: Tree, root: RadixTreeNode, ps: nat, path: Tokens, kv: seq<int>)
    requires WF(t, root, ps) && Collected(t, ps, path, 0, kv)
    ensures HoldsPages(Pages(t, ps), path, kv, ps)
  {
    forall q | q in Boundaries(path, ps)
      ensures q in Pages(t, ps) && Pages(t, ps)[q] == PagesOf(path, kv, ps)[q]
    {
      CollectedOne(t, ps, path, kv, q);
    }
  }

  lemma CollectedOne(t: Tree, ps: nat, path: Tokens, kv: seq<int>, q: Tokens)
    requires Collected(t, ps, path, 0, kv) && q in Boundaries(path, ps)
    ensures q in Pages(t, ps) && Pages(t, ps)[q] == PagesOf(path, kv, ps)[q]
  {
    hide Pages, Aligned;
    var i :| 0 < i <= |path| && Aligned(i, ps) && q == path[..i];
    var m := Pages(t, ps);
    assert EdgePage(m, path, 0, kv, ps, i);
  }

  /** All pages of a node's path are stored already, so storing them again changes nothing. */
  lemma NothingNew(t: Tree, root: RadixTreeNode, ps: nat, n: RadixTreeNode, kv: seq<int>)
    requires WF(t, root, ps) && n in t && |kv| == |n.path|
    ensures PagesOf(n.path, kv, ps) + Pages(t, ps) == Pages(t, ps)
  {
    forall q | q in Boundaries(n.path, ps) ensures q in Pages(t, ps) {
      var i :| 0 < i <= |n.path| && Aligned(i, ps) && q == n.path[..i];
      var o := PrefixStored(t, root, ps, n, q);
      PagesAt(t, root, ps, o, q);
    }
  }

  /** A boundary has an entry in the snapshot map exactly when its node carries one. */
  lemma BoundarySnap(t: Tree, root: RadixTreeNode, ps: nat, n: RadixTreeNode)
    requires WF(t, root, ps) && n in t
    ensures n.path in Snaps(t) <==> t[n].mamba.Some?
    ensures t[n].parent == null <==> n == root
    ensures n.path == [] <==> n == root
  {
    assert NodeOk(t, root, ps, n) && NodeOk(t, root, ps, root) && SamePathSameNode(t, n, root);
    if n.path in Snaps(t) {
      assert SamePathSameNode(t, n, Holder(t, n.path));
    } else if Live(t, n) {
      SnapsAt(t, root, ps, n);
      assert false;
    }
  }

  /** What the walk left over can be added as a leaf. */
  lemma CanGrow(t: Tree, root: RadixTreeNode, ps: nat, ids: Tokens, kv: seq<int>, node: RadixTreeNode, w: RadixTreeNode)
    requires Stopped(t, root, ps, ids, node) && |node.path| < |ids| == |kv| && Aligned(|ids|, ps)
    requires w !in t && w.path == ids
    ensures CanAdd(t, root, ps, node, w, ids[|node.path|..], kv[|node.path|..])
  {
    assert NodeOk(t, root, ps, node);
    AlignedSub(|ids|, |node.path|, ps);
    assert ids == node.path + ids[|node.path|..];
  }
}
