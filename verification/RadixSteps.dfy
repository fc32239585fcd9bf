/**
The three changes of shape the cache makes to its tree: splitting an edge, adding a leaf, unlinking
a leaf.  Each keeps the tree well formed, and each is described by what it does to the stored pages.
*/
module RadixSteps {
  import opened Wrappers
  import opened Alignment
  import opened RadixTree

  // ---------------------------------------------------------------- split

  ghost predicate CanSplit(t: Tree, root: RadixTreeNode, ps: nat, n: RadixTreeNode, k: int, m: RadixTreeNode) {
    && WF(t, root, ps) && n in t && n != root && m !in t
    && 0 < k < |t[n].key| == |t[n].value| && Aligned(k, ps)
    && t[n].parent != null && t[n].parent in t
    && 0 <= Base(t, n) && m.path == n.path[..Base(t, n) + k]
  }

  /** m takes the first k tokens of n's edge; n keeps the rest, its end and its snapshot. */
  ghost function SplitTree(t: Tree, ps: nat, n: RadixTreeNode, k: int, m: RadixTreeNode): Tree
    requires n in t && t[n].parent != null && t[n].parent in t && 0 < k < |t[n].key| == |t[n].value|
  {
    var r := t[n];
    t[r.parent := t[r.parent].(children := t[r.parent].children[FirstPage(r.key[..k], ps) := m])]
     [m := Rec(r.key[..k], r.value[..k], r.parent, map[FirstPage(r.key[k..], ps) := n], r.refCount, None, 0)]
     [n := r.(key := r.key[k..], value := r.value[k..], parent := m)]
  }

  lemma SplitWF(t: Tree, root: RadixTreeNode, ps: nat, n: RadixTreeNode, k: int, m: RadixTreeNode)
    requires CanSplit(t, root, ps, n, k, m)
    ensures WF(SplitTree(t, ps, n, k, m), root, ps)
  {
    var t' := SplitTree(t, ps, n, k, m);
    forall x | x in t' ensures NodeOk(t', root, ps, x) {
      SplitNodeOk(t, root, ps, n, k, m, x);
    }
    forall x | x in t' ensures ChildLink(t', root, ps, x) && ChildrenOk(t', root, ps, x) {
      SplitLinks(t, root, ps, n, k, m, x);
    }
    forall a, b | a in t' && b in t' ensures OwnsEdge(t', root, ps, a, b) {
      SplitOwns(t, root, ps, n, k, m, a, b);
    }
    forall a, b | a in t' && b in t' ensures SamePathSameNode(t', a, b) {
      SplitPaths(t, root, ps, n, k, m, a, b);
    }
  }

  lemma SplitPaths(t: Tree, root: RadixTreeNode, ps: nat, n: RadixTreeNode, k: int, m: RadixTreeNode,
                   a: RadixTreeNode, b: RadixTreeNode)
    requires CanSplit(t, root, ps, n, k, m)
    requires a in SplitTree(t, ps, n, k, m) && b in SplitTree(t, ps, n, k, m)
    ensures SamePathSameNode(SplitTree(t, ps, n, k, m), a, b)
  {
    if a != m && b != m { assert SamePathSameNode(t, a, b); }
    if a != m { SplitFresh(t, root, ps, n, k, m, a); }
    if b != m { SplitFresh(t, root, ps, n, k, m, b); }
  }

  lemma SplitNodeOk(t: Tree, root: RadixTreeNode, ps: nat, n: RadixTreeNode, k: int, m: RadixTreeNode, x: RadixTreeNode)
    requires CanSplit(t, root, ps, n, k, m) && x in SplitTree(t, ps, n, k, m)
    ensures NodeOk(SplitTree(t, ps, n, k, m), root, ps, x)
  {
    SplitFacts(t, root, ps, n, k, m);
    if x != m { assert NodeOk(t, root, ps, x); }
  }

  lemma SplitLinks(t: Tree, root: RadixTreeNode, ps: nat, n: RadixTreeNode, k: int, m: RadixTreeNode, x: RadixTreeNode)
    requires CanSplit(t, root, ps, n, k, m) && x in SplitTree(t, ps, n, k, m)
    ensures ChildLink(SplitTree(t, ps, n, k, m), root, ps, x) && ChildrenOk(SplitTree(t, ps, n, k, m), root, ps, x)
  {
    hide Aligned, FirstPage;
    SplitFacts(t, root, ps, n, k, m);
    assert ChildLink(t, root, ps, n);
    if x != m { assert ChildLink(t, root, ps, x) && ChildrenOk(t, root, ps, x); }
  }

  lemma SplitFacts(t: Tree, root: RadixTreeNode, ps: nat, n: RadixTreeNode, k: int, m: RadixTreeNode)
    requires CanSplit(t, root, ps, n, k, m)
    ensures m.path == t[n].parent.path + t[n].key[..k] && n.path == m.path + t[n].key[k..]
    ensures Base(t, n) == |t[n].parent.path| && t[n].parent != n && Aligned(Base(t, n), ps)
    ensures Aligned(|m.path|, ps) && ps <= k && FirstPage(t[n].key[..k], ps) == FirstPage(t[n].key, ps)
    ensures Aligned(|t[n].key| - k, ps) && ps <= |t[n].key| - k
    ensures Head(t, n, ps) <= m.path
  {
    hide Aligned;
    BaseFacts(t, root, ps, n);
    SplitLengths(Base(t, n), k, |t[n].key|, ps);
    assert NodeOk(t, root, ps, n);
    CutPath(t[n].parent.path, t[n].key, k, ps);
  }

  lemma SplitBase(t: Tree, root: RadixTreeNode, ps: nat, n: RadixTreeNode, k: int, m: RadixTreeNode)
    requires CanSplit(t, root, ps, n, k, m)
    ensures |m.path| == Base(t, n) + k && Aligned(|m.path|, ps) && t[n].parent != n
    ensures |n.path| == |m.path| + |t[n].key| - k
  {
    SplitFacts(t, root, ps, n, k, m);
  }

  lemma CutPath(front: Tokens, key: Tokens, k: int, ps: nat)
    requires ps <= k < |key|
    ensures (front + key)[..|front| + k] == front + key[..k]
    ensures front + key == front + key[..k] + key[k..]
    ensures FirstPage(key[..k], ps) == FirstPage(key, ps)
    ensures front + FirstPage(key, ps) <= front + key[..k]
  {
  }

  lemma SplitLengths(base: int, k: int, len: int, ps: nat)
    requires Aligned(base, ps) && Aligned(k, ps) && Aligned(len, ps) && 0 < k < len && 0 <= base
    ensures Aligned(base + k, ps) && Aligned(len - k, ps) && ps <= k && ps <= len - k
  {
    AlignedGap(0, k, ps);
    AlignedAdd(base, k, ps);
    AlignedSub(len, k, ps);
    AlignedGap(0, len - k, ps);
  }

  /** No node ended inside n's edge. */
  lemma SplitFresh(t: Tree, root: RadixTreeNode, ps: nat, n: RadixTreeNode, k: int, m: RadixTreeNode, a: RadixTreeNode)
    requires CanSplit(t, root, ps, n, k, m) && a in t
    ensures a.path != m.path
  {
    SplitFacts(t, root, ps, n, k, m);
    assert OwnsEdge(t, root, ps, n, a);
  }

  lemma SplitOwns(t: Tree, root: RadixTreeNode, ps: nat, n: RadixTreeNode, k: int, m: RadixTreeNode,
                  a: RadixTreeNode, b: RadixTreeNode)
    requires CanSplit(t, root, ps, n, k, m)
    requires a in SplitTree(t, ps, n, k, m) && b in SplitTree(t, ps, n, k, m)
    ensures OwnsEdge(SplitTree(t, ps, n, k, m), root, ps, a, b)
  {
    var t' := SplitTree(t, ps, n, k, m);
    SplitFacts(t, root, ps, n, k, m);
    if a == root { return; }
    if a == m {
      if b != m { assert OwnsEdge(t, root, ps, n, b); }
      assert Head(t', m, ps) == Head(t, n, ps);
    } else if a == n {
      assert Head(t, n, ps) <= Head(t', n, ps);
      if b != m { assert OwnsEdge(t, root, ps, n, b); }
    } else {
      assert NodeOk(t, root, ps, a);
      assert Head(t', a, ps) == Head(t, a, ps);
      if b != m {
        assert OwnsEdge(t, root, ps, a, b);
      } else if Head(t, a, ps) <= m.path {
        assert m.path <= n.path;
        assert OwnsEdge(t, root, ps, a, n);
        AboveParent(t, root, ps, a, n);
      }
    }
  }

  /** A split moves no page and no snapshot: the maps the tree stands for are unchanged. */
  lemma SplitKeepsMaps(t: Tree, root: RadixTreeNode, ps: nat, n: RadixTreeNode, k: int, m: RadixTreeNode)
    requires CanSplit(t, root, ps, n, k, m)
    ensures WF(SplitTree(t, ps, n, k, m), root, ps)
    ensures Pages(SplitTree(t, ps, n, k, m), ps) == Pages(t, ps)
    ensures Snaps(SplitTree(t, ps, n, k, m)) == Snaps(t)
  {
    var t' := SplitTree(t, ps, n, k, m);
    SplitWF(t, root, ps, n, k, m);
    SplitFacts(t, root, ps, n, k, m);
    forall x, p {:trigger Owns(t, ps, x, p)} | Owns(t, ps, x, p)
      ensures exists y :: Owns(t', ps, y, p) && PageValue(t', ps, y, p) == PageValue(t, ps, x, p)
    {
      SplitPage(t, root, ps, n, k, m, x, p);
    }
    forall x, p {:trigger Owns(t', ps, x, p)} | Owns(t', ps, x, p)
      ensures exists y :: Owns(t, ps, y, p)
    {
      if x == m { assert Owns(t, ps, n, p); } else { assert Owns(t, ps, x, p); }
    }
    SamePages(t, t', root, ps);
    SameSnaps(t, t', root, ps);
  }

  lemma SplitPage(t: Tree, root: RadixTreeNode, ps: nat, n: RadixTreeNode, k: int, m: RadixTreeNode,
                  x: RadixTreeNode, p: Tokens)
    requires CanSplit(t, root, ps, n, k, m) && Owns(t, ps, x, p)
    ensures var t' := SplitTree(t, ps, n, k, m);
      exists y :: Owns(t', ps, y, p) && PageValue(t', ps, y, p) == PageValue(t, ps, x, p)
  {
    var t' := SplitTree(t, ps, n, k, m);
    SplitFacts(t, root, ps, n, k, m);
    HeadWithin(t, root, ps, x, p);
    if x != n {
      assert Owns(t', ps, x, p);
    } else if |p| <= |m.path| {
      SplitPageFront(t, root, ps, n, k, m, p);
    } else {
      SplitPageBack(t, root, ps, n, k, m, p);
    }
  }

  lemma SplitPageFront(t: Tree, root: RadixTreeNode, ps: nat, n: RadixTreeNode, k: int, m: RadixTreeNode, p: Tokens)
    requires CanSplit(t, root, ps, n, k, m) && Owns(t, ps, n, p) && |p| <= |m.path|
    ensures var t' := SplitTree(t, ps, n, k, m);
      Owns(t', ps, m, p) && PageValue(t', ps, m, p) == PageValue(t, ps, n, p)
  {
    SplitFacts(t, root, ps, n, k, m);
    HeadWithin(t, root, ps, n, p);
    var hi := |p| - Base(t, n);
    assert p == n.path[..|p|] && m.path == n.path[..|m.path|];
    assert t[n].value[..k][hi - ps..hi] == t[n].value[hi - ps..hi];
  }

  lemma SplitPageBack(t: Tree, root: RadixTreeNode, ps: nat, n: RadixTreeNode, k: int, m: RadixTreeNode, p: Tokens)
    requires CanSplit(t, root, ps, n, k, m) && Owns(t, ps, n, p) && |p| > |m.path|
    ensures var t' := SplitTree(t, ps, n, k, m);
      Owns(t', ps, n, p) && PageValue(t', ps, n, p) == PageValue(t, ps, n, p)
  {
    SplitBase(t, root, ps, n, k, m);
    AlignedGap(|m.path|, |p|, ps);
    var hi := |p| - Base(t, n);
    TailSlice(t[n].value, k, hi - ps, hi);
  }

  lemma TailSlice(value: seq<int>, k: int, lo: int, hi: int)
    requires 0 <= k <= lo <= hi <= |value|
    ensures value[k..][lo - k..hi - k] == value[lo..hi]
  {
  }

  lemma SplitTotals(t: Tree, root: RadixTreeNode, ps: nat, n: RadixTreeNode, k: int, m: RadixTreeNode, f: Rec -> int)
    requires CanSplit(t, root, ps, n, k, m)
    requires f == FreeTokens || f == HeldTokens || f == FreeSlots || f == HeldSlots
    ensures Total(SplitTree(t, ps, n, k, m), f) == Total(t, f)
  {
    SplitFacts(t, root, ps, n, k, m);
    var r := t[n];
    var rp := t[r.parent].(children := t[r.parent].children[FirstPage(r.key[..k], ps) := m]);
    var rm := Rec(r.key[..k], r.value[..k], r.parent, map[FirstPage(r.key[k..], ps) := n], r.refCount, None, 0);
    TotalUpdate(t, f, r.parent, rp);
    TotalUpdate(t[r.parent := rp], f, m, rm);
    TotalUpdate(t[r.parent := rp][m := rm], f, n, r.(key := r.key[k..], value := r.value[k..], parent := m));
  }

  // ---------------------------------------------------------------- add a leaf

  ghost predicate CanAdd(t: Tree, root: RadixTreeNode, ps: nat, p: RadixTreeNode, w: RadixTreeNode,
                         key: Tokens, value: seq<int>) {
    && WF(t, root, ps) && p in t && w !in t
    && key != [] && |key| == |value| && Aligned(|key|, ps)
    && w.path == p.path + key
    && FirstPage(key, ps) !in t[p].children
  }

  ghost function AddTree(t: Tree, ps: nat, p: RadixTreeNode, w: RadixTreeNode, key: Tokens, value: seq<int>): Tree
    requires p in t
  {
    t[w := Rec(key, value, p, map[], 0, None, 0)][p := t[p].(children := t[p].children[FirstPage(key, ps) := w])]
  }

  /** A path that continues p's by a page goes through a child keyed by that page. */
  lemma ContinuesThroughChild(t: Tree, root: RadixTreeNode, ps: nat, p: RadixTreeNode, page: Tokens, a: RadixTreeNode)
    requires WF(t, root, ps) && p in t && a in t && |page| == ps && p.path + page <= a.path
    ensures page in t[p].children
  {
    assert p.path <= p.path + page;
    ChildToward(t, root, ps, p, a);
    NextPage(p.path, page, a.path, ps);
  }

  lemma NextPage(front: Tokens, page: Tokens, path: Tokens, ps: nat)
    requires front + page <= path && |page| == ps
    ensures FirstPage(path[|front|..], ps) == page
  {
    forall i | 0 <= i < ps ensures path[|front| + i] == page[i] {
      assert (front + page)[|front| + i] == page[i];
    }
  }

  /** No path of the tree continues p's with the new leaf's first page. */
  lemma AddIsNew(t: Tree, root: RadixTreeNode, ps: nat, p: RadixTreeNode, w: RadixTreeNode, key: Tokens,
                 value: seq<int>, a: RadixTreeNode)
    requires CanAdd(t, root, ps, p, w, key, value) && a in t
    ensures ps <= |key|
    ensures !(p.path + FirstPage(key, ps) <= a.path)
    ensures a.path != w.path
  {
    AlignedGap(0, |key|, ps);
    assert p.path + FirstPage(key, ps) <= w.path;
    if p.path + FirstPage(key, ps) <= a.path {
      ContinuesThroughChild(t, root, ps, p, FirstPage(key, ps), a);
      assert false;
    }
  }

  lemma AddWF(t: Tree, root: RadixTreeNode, ps: nat, p: RadixTreeNode, w: RadixTreeNode, key: Tokens, value: seq<int>)
    requires CanAdd(t, root, ps, p, w, key, value)
    ensures WF(AddTree(t, ps, p, w, key, value), root, ps)
  {
    var t' := AddTree(t, ps, p, w, key, value);
    forall x | x in t' ensures NodeOk(t', root, ps, x) {
      assert NodeOk(t, root, ps, p);
      if x != w { assert NodeOk(t, root, ps, x); } else { AlignedAdd(|p.path|, |key|, ps); }
    }
    forall x | x in t' ensures ChildLink(t', root, ps, x) && ChildrenOk(t', root, ps, x) {
      AddLinks(t, root, ps, p, w, key, value, x);
    }
    forall a, b | a in t' && b in t' ensures OwnsEdge(t', root, ps, a, b) {
      AddOwns(t, root, ps, p, w, key, value, a, b);
    }
    forall a, b | a in t' && b in t' ensures SamePathSameNode(t', a, b) {
      if a != w && b != w { assert SamePathSameNode(t, a, b); }
      if a != w { AddIsNew(t, root, ps, p, w, key, value, a); }
      if b != w { AddIsNew(t, root, ps, p, w, key, value, b); }
    }
  }

  lemma AddLinks(t: Tree, root: RadixTreeNode, ps: nat, p: RadixTreeNode, w: RadixTreeNode, key: Tokens,
                 value: seq<int>, x: RadixTreeNode)
    requires CanAdd(t, root, ps, p, w, key, value) && x in AddTree(t, ps, p, w, key, value)
    ensures ChildLink(AddTree(t, ps, p, w, key, value), root, ps, x)
    ensures ChildrenOk(AddTree(t, ps, p, w, key, value), root, ps, x)
  {
    if x != w { assert ChildLink(t, root, ps, x) && ChildrenOk(t, root, ps, x); }
  }

  lemma AddOwns(t: Tree, root: RadixTreeNode, ps: nat, p: RadixTreeNode, w: RadixTreeNode, key: Tokens, value: seq<int>,
                a: RadixTreeNode, b: RadixTreeNode)
    requires CanAdd(t, root, ps, p, w, key, value)
    requires a in AddTree(t, ps, p, w, key, value) && b in AddTree(t, ps, p, w, key, value)
    ensures OwnsEdge(AddTree(t, ps, p, w, key, value), root, ps, a, b)
  {
    var t' := AddTree(t, ps, p, w, key, value);
    if a == root { return; }
    if a == w {
      if b != w {
        AddIsNew(t, root, ps, p, w, key, value, b);
        assert Head(t', w, ps) == p.path + FirstPage(key, ps);
      }
    } else {
      BaseFacts(t, root, ps, a);
      assert Head(t', a, ps) == Head(t, a, ps);
      if b != w {
        assert OwnsEdge(t, root, ps, a, b);
      } else {
        AddIsNew(t, root, ps, p, w, key, value, a);
        AddOwnsLeaf(t, root, ps, p, w, key, a);
      }
    }
  }

  lemma AddOwnsLeaf(t: Tree, root: RadixTreeNode, ps: nat, p: RadixTreeNode, w: RadixTreeNode, key: Tokens,
                    a: RadixTreeNode)
    requires WF(t, root, ps) && p in t && a in t && a != root && w.path == p.path + key && ps <= |key|
    requires !(p.path + FirstPage(key, ps) <= a.path)
    ensures Head(t, a, ps) <= w.path ==> a.path <= w.path
  {
    BaseFacts(t, root, ps, a);
    var h := Head(t, a, ps);
    assert h <= a.path;
    assert NodeOk(t, root, ps, p);
    assert OwnsEdge(t, root, ps, a, p);
    assert p.path <= w.path && p.path + FirstPage(key, ps) <= w.path;
    if h <= w.path {
      if |h| <= |p.path| {
        PrefixChain(h, p.path, w.path);
      } else {
        LongHead(t, ps, p, w, key, a);
      }
    }
  }

  /** A head page that ends below p lies on the first page below p. */
  lemma LongHead(t: Tree, ps: nat, p: RadixTreeNode, w: RadixTreeNode, key: Tokens, a: RadixTreeNode)
    requires a in t && w.path == p.path + key && 0 < ps <= |key| && Aligned(|p.path|, ps)
    requires 0 <= Base(t, a) && Aligned(Base(t, a), ps) && Head(t, a, ps) <= w.path && Head(t, a, ps) <= a.path
    requires |Head(t, a, ps)| == Base(t, a) + ps > |p.path|
    ensures p.path + FirstPage(key, ps) <= a.path
  {
    AlignedAdd(Base(t, a), ps, ps);
    AlignedGap(|p.path|, Base(t, a) + ps, ps);
    PrefixChain(p.path + FirstPage(key, ps), Head(t, a, ps), w.path);
  }

  lemma PrefixChain(a: Tokens, b: Tokens, c: Tokens)
    requires a <= c && b <= c && |a| <= |b|
    ensures a <= b
  {
    assert a == c[..|a|] && b == c[..|b|];
  }

  /** The page map one committed prefix stands for. */
  ghost function PagesOf(ids: Tokens, kv: seq<int>, ps: nat): map<Tokens, seq<int>>
    requires |ids| == |kv|
  {
    map q | q in Boundaries(ids, ps) :: if ps <= |q| then kv[|q| - ps..|q|] else []
  }

  /** The non-empty page-aligned prefixes. */
  ghost function Boundaries(ids: Tokens, ps: nat): set<Tokens> {
    set i | 0 < i <= |ids| && Aligned(i, ps) :: ids[..i]
  }

  /** Adding a leaf stores exactly the pages of its path that were not stored yet. */
  lemma AddPages(t: Tree, root: RadixTreeNode, ps: nat, p: RadixTreeNode, w: RadixTreeNode, key: Tokens,
                 value: seq<int>, kv: seq<int>)
    requires CanAdd(t, root, ps, p, w, key, value)
    requires |kv| == |w.path| && value == kv[|p.path|..]
    ensures Pages(AddTree(t, ps, p, w, key, value), ps) == PagesOf(w.path, kv, ps) + Pages(t, ps)
  {
    var t' := AddTree(t, ps, p, w, key, value);
    var want := PagesOf(w.path, kv, ps) + Pages(t, ps);
    forall q | q in want ensures q in Pages(t', ps) && Pages(t', ps)[q] == want[q] {
      if q in Pages(t, ps) {
        OldPage(t, root, ps, p, w, key, value, q);
      } else {
        AddedPage(t, root, ps, p, w, key, value, kv, q);
      }
    }
    forall q | q in Pages(t', ps) ensures q in want {
      AddOnly(t, root, ps, p, w, key, value, q);
    }
  }

  lemma AddOnly(t: Tree, root: RadixTreeNode, ps: nat, p: RadixTreeNode, w: RadixTreeNode, key: Tokens,
                value: seq<int>, q: Tokens)
    requires CanAdd(t, root, ps, p, w, key, value) && q in Pages(AddTree(t, ps, p, w, key, value), ps)
    ensures q in Boundaries(w.path, ps) || q in Pages(t, ps)
  {
    var t' := AddTree(t, ps, p, w, key, value);
    var n := Owner(t', ps, q);
    if n == w {
      assert q == w.path[..|q|];
    } else {
      assert Owns(t, ps, n, q);
      PagesAt(t, root, ps, n, q);
    }
  }

  lemma SameEdgeSamePage(t: Tree, t': Tree, ps: nat, n: RadixTreeNode, q: Tokens)
    requires Owns(t, ps, n, q) && n in t' && t'[n].key == t[n].key && t'[n].value == t[n].value
    ensures Owns(t', ps, n, q) && PageValue(t', ps, n, q) == PageValue(t, ps, n, q)
  {
  }

  lemma OldPage(t: Tree, root: RadixTreeNode, ps: nat, p: RadixTreeNode, w: RadixTreeNode, key: Tokens,
                value: seq<int>, q: Tokens)
    requires CanAdd(t, root, ps, p, w, key, value) && q in Pages(t, ps)
    ensures var t' := AddTree(t, ps, p, w, key, value); q in Pages(t', ps) && Pages(t', ps)[q] == Pages(t, ps)[q]
  {
    hide WF, PageValue;
    var t' := AddTree(t, ps, p, w, key, value);
    AddWF(t, root, ps, p, w, key, value);
    var n := Owner(t, ps, q);
    SameEdgeSamePage(t, t', ps, n, q);
    PagesAt(t, root, ps, n, q);
    PagesAt(t', root, ps, n, q);
  }

  lemma AddedPage(t: Tree, root: RadixTreeNode, ps: nat, p: RadixTreeNode, w: RadixTreeNode, key: Tokens,
                  value: seq<int>,
                  kv: seq<int>, q: Tokens)
    requires CanAdd(t, root, ps, p, w, key, value)
    requires |kv| == |w.path| && value == kv[|p.path|..]
    requires q in Boundaries(w.path, ps) && q !in Pages(t, ps)
    ensures var t' := AddTree(t, ps, p, w, key, value);
            q in Pages(t', ps) && Pages(t', ps)[q] == PagesOf(w.path, kv, ps)[q]
  {
    hide Owns, PageValue, WF;
    var t' := AddTree(t, ps, p, w, key, value);
    AddWF(t, root, ps, p, w, key, value);
    NotYetStored(t, root, ps, p, w.path, q);
    LeafPage(t', ps, w, |p.path|, kv, q);
    PagesAt(t', root, ps, w, q);
  }

  lemma LeafPage(t: Tree, ps: nat, w: RadixTreeNode, base: nat, kv: seq<int>, q: Tokens)
    requires w in t && Base(t, w) == base && Aligned(base, ps) && |kv| == |w.path| && base <= |kv|
    requires t[w].value == kv[base..]
    requires base < |q| && q <= w.path && Aligned(|q|, ps)
    ensures Owns(t, ps, w, q) && ps <= |q| && PageValue(t, ps, w, q) == kv[|q| - ps..|q|]
  {
    hide Aligned;
    AlignedGap(base, |q|, ps);
    PageOfTail(kv, base, |q|, ps);
  }

  lemma PageOfTail(kv: seq<int>, cut: nat, end: nat, ps: nat)
    requires cut + ps <= end <= |kv|
    ensures kv[cut..][end - cut - ps..end - cut] == kv[end - ps..end]
  {
  }

  lemma NotYetStored(t: Tree, root: RadixTreeNode, ps: nat, p: RadixTreeNode, path: Tokens, q: Tokens)
    requires WF(t, root, ps) && p in t && p.path <= path
    requires q in Boundaries(path, ps) && q !in Pages(t, ps)
    ensures Aligned(|p.path|, ps) && |p.path| < |q| && q <= path && Aligned(|q|, ps)
  {
    assert NodeOk(t, root, ps, p);
    if |q| <= |p.path| {
      PrefixChain(q, p.path, path);
      var o := PrefixStored(t, root, ps, p, q);
      PagesAt(t, root, ps, o, q);
      assert false;
    }
  }

  lemma AddSnaps(t: Tree, root: RadixTreeNode, ps: nat, p: RadixTreeNode, w: RadixTreeNode, key: Tokens,
                 value: seq<int>)
    requires CanAdd(t, root, ps, p, w, key, value)
    ensures Snaps(AddTree(t, ps, p, w, key, value)) == Snaps(t)
  {
    var t' := AddTree(t, ps, p, w, key, value);
    AddWF(t, root, ps, p, w, key, value);
    SameSnaps(t, t', root, ps);
  }

  lemma SameSnaps(t: Tree, t': Tree, root: RadixTreeNode, ps: nat)
    requires WF(t, root, ps) && WF(t', root, ps)
    requires forall n {:trigger Live(t, n)} {:trigger Live(t', n)} :: Live(t, n) <==> Live(t', n)
    requires forall n | Live(t, n) && Live(t', n) :: t[n].mamba == t'[n].mamba
    ensures Snaps(t') == Snaps(t)
  {
    forall q | q in Snaps(t) ensures q in Snaps(t') && Snaps(t')[q] == Snaps(t)[q] {
      SnapsAt(t', root, ps, Holder(t, q));
    }
    forall q | q in Snaps(t') ensures q in Snaps(t) {
      SnapsAt(t, root, ps, Holder(t', q));
    }
  }

  // ---------------------------------------------------------------- unlink a leaf

  ghost predicate CanUnlink(t: Tree, root: RadixTreeNode, ps: nat, n: RadixTreeNode) {
    WF(t, root, ps) && n in t && n != root && t[n].children == map[]
    && t[n].parent != null && t[n].parent in t
  }

  ghost function UnlinkTree(t: Tree, ps: nat, n: RadixTreeNode): Tree
    requires n in t && t[n].parent != null && t[n].parent in t
  {
    var p := t[n].parent;
    t[p := t[p].(children := t[p].children - {FirstPage(t[n].key, ps)})] - {n}
  }

  lemma UnlinkWF(t: Tree, root: RadixTreeNode, ps: nat, n: RadixTreeNode)
    requires CanUnlink(t, root, ps, n)
    ensures WF(UnlinkTree(t, ps, n), root, ps)
  {
    var t' := UnlinkTree(t, ps, n);
    BaseFacts(t, root, ps, n);
    forall x | x in t' ensures NodeOk(t', root, ps, x) && ChildLink(t', root, ps, x) && ChildrenOk(t', root, ps, x) {
      UnlinkLinks(t, root, ps, n, x);
    }
    forall a, b | a in t' && b in t' ensures OwnsEdge(t', root, ps, a, b) && SamePathSameNode(t', a, b) {
      UnlinkOwns(t, root, ps, n, a, b);
    }
  }

  lemma UnlinkOwns(t: Tree, root: RadixTreeNode, ps: nat, n: RadixTreeNode, a: RadixTreeNode, b: RadixTreeNode)
    requires CanUnlink(t, root, ps, n) && a in t && b in t && a != n && b != n
    ensures OwnsEdge(UnlinkTree(t, ps, n), root, ps, a, b) && SamePathSameNode(UnlinkTree(t, ps, n), a, b)
  {
    assert OwnsEdge(t, root, ps, a, b) && SamePathSameNode(t, a, b);
    assert Head(UnlinkTree(t, ps, n), a, ps) == Head(t, a, ps);
  }

  lemma UnlinkLinks(t: Tree, root: RadixTreeNode, ps: nat, n: RadixTreeNode, x: RadixTreeNode)
    requires CanUnlink(t, root, ps, n) && x in t && x != n
    ensures var t' := UnlinkTree(t, ps, n);
      NodeOk(t', root, ps, x) && ChildLink(t', root, ps, x) && ChildrenOk(t', root, ps, x)
  {
    assert NodeOk(t, root, ps, x) && ChildLink(t, root, ps, x) && ChildrenOk(t, root, ps, x);
    assert NodeOk(t, root, ps, n) && ChildLink(t, root, ps, n);
  }

  /** The keys of the pages on n's edge. */
  ghost function EdgeKeys(t: Tree, ps: nat, n: RadixTreeNode): set<Tokens>
    requires n in t && 0 <= Base(t, n)
  {
    EdgeKeysUpTo(n.path, Base(t, n), |n.path|, ps)
  }

  ghost function EdgeKeysUpTo(path: Tokens, base: nat, end: nat, ps: nat): set<Tokens>
    requires end <= |path|
  {
    set i | base < i <= end && Aligned(i, ps) :: path[..i]
  }

  lemma EdgeKeyOwned(t: Tree, root: RadixTreeNode, ps: nat, n: RadixTreeNode, q: Tokens)
    requires WF(t, root, ps) && n in t && n != root
    ensures 0 <= Base(t, n)
    ensures q in EdgeKeys(t, ps, n) <==> Owns(t, ps, n, q)
  {
    BaseFacts(t, root, ps, n);
    if Owns(t, ps, n, q) { assert q == n.path[..|q|]; }
  }

  /** Unlinking a leaf removes its pages and its snapshot, and nothing else. */
  lemma UnlinkMaps(t: Tree, root: RadixTreeNode, ps: nat, n: RadixTreeNode)
    requires CanUnlink(t, root, ps, n)
    ensures WF(UnlinkTree(t, ps, n), root, ps) && 0 <= Base(t, n)
    ensures Pages(UnlinkTree(t, ps, n), ps) == Pages(t, ps) - EdgeKeys(t, ps, n)
    ensures Snaps(UnlinkTree(t, ps, n)) == Snaps(t) - {n.path}
  {
    UnlinkWF(t, root, ps, n);
    BaseFacts(t, root, ps, n);
    UnlinkPages(t, root, ps, n);
    UnlinkSnaps(t, root, ps, n);
  }

  lemma UnlinkPages(t: Tree, root: RadixTreeNode, ps: nat, n: RadixTreeNode)
    requires CanUnlink(t, root, ps, n) && 0 <= Base(t, n)
    ensures Pages(UnlinkTree(t, ps, n), ps) == Pages(t, ps) - EdgeKeys(t, ps, n)
  {
    var t' := UnlinkTree(t, ps, n);
    forall q | q in Pages(t, ps) - EdgeKeys(t, ps, n)
      ensures q in Pages(t', ps) && Pages(t', ps)[q] == Pages(t, ps)[q]
    {
      UnlinkKeepsPage(t, root, ps, n, q);
    }
    forall q | q in Pages(t', ps) ensures q in Pages(t, ps) - EdgeKeys(t, ps, n) {
      UnlinkOnlyKeeps(t, root, ps, n, q);
    }
  }

  lemma UnlinkKeepsPage(t: Tree, root: RadixTreeNode, ps: nat, n: RadixTreeNode, q: Tokens)
    requires CanUnlink(t, root, ps, n) && 0 <= Base(t, n) && q in Pages(t, ps) && q !in EdgeKeys(t, ps, n)
    ensures q in Pages(UnlinkTree(t, ps, n), ps) && Pages(UnlinkTree(t, ps, n), ps)[q] == Pages(t, ps)[q]
  {
    var o := Owner(t, ps, q);
    EdgeKeyOwned(t, root, ps, n, q);
    UnlinkWF(t, root, ps, n);
    assert Owns(UnlinkTree(t, ps, n), ps, o, q);
    PagesAt(UnlinkTree(t, ps, n), root, ps, o, q);
  }

  lemma UnlinkOnlyKeeps(t: Tree, root: RadixTreeNode, ps: nat, n: RadixTreeNode, q: Tokens)
    requires CanUnlink(t, root, ps, n) && 0 <= Base(t, n) && q in Pages(UnlinkTree(t, ps, n), ps)
    ensures q in Pages(t, ps) && q !in EdgeKeys(t, ps, n)
  {
    var o := Owner(UnlinkTree(t, ps, n), ps, q);
    assert Owns(t, ps, o, q);
    PagesAt(t, root, ps, o, q);
    EdgeKeyOwned(t, root, ps, n, q);
    if Owns(t, ps, n, q) { OwnerUnique(t, root, ps, n, o, q); assert false; }
  }

  lemma UnlinkSnaps(t: Tree, root: RadixTreeNode, ps: nat, n: RadixTreeNode)
    requires CanUnlink(t, root, ps, n) && WF(UnlinkTree(t, ps, n), root, ps)
    ensures Snaps(UnlinkTree(t, ps, n)) == Snaps(t) - {n.path}
  {
    var t' := UnlinkTree(t, ps, n);
    forall q | q in Snaps(t) && q != n.path ensures q in Snaps(t') && Snaps(t')[q] == Snaps(t)[q] {
      var h := Holder(t, q);
      assert Live(t', h);
      SnapsAt(t', root, ps, h);
    }
    forall q | q in Snaps(t') ensures q in Snaps(t) && q != n.path {
      var h := Holder(t', q);
      assert SamePathSameNode(t, h, n);
      assert Live(t, h);
    }
  }

  // ---------------------------------------------------------------- what leaves the tree

  /** All KV indices a page map holds, with multiplicity. */
  ghost function PageBag(m: map<Tokens, seq<int>>): multiset<int> {
    if m == map[] then multiset{} else
    var k :| k in m;
    multiset(m[k]) + PageBag(m - {k})
  }

  /** All state slots a snapshot map holds, with multiplicity. */
  ghost function SlotBag(m: map<Tokens, int>): multiset<int> {
    PageBag(map k | k in m :: [m[k]])
  }

  lemma {:induction false} PageBagRemove(m: map<Tokens, seq<int>>, k: Tokens)
    requires k in m
    ensures PageBag(m) == multiset(m[k]) + PageBag(m - {k})
    decreases |m|
  {
    var j :| j in m && PageBag(m) == multiset(m[j]) + PageBag(m - {j});
    if j != k {
      PageBagRemove(m - {j}, k);
      PageBagRemove(m - {k}, j);
      assert m - {j} - {k} == m - {k} - {j};
    }
  }

  lemma SlotBagRemove(m: map<Tokens, int>, k: Tokens)
    requires k in m
    ensures SlotBag(m) == multiset{m[k]} + SlotBag(m - {k})
  {
    var s := map q | q in m :: [m[q]];
    PageBagRemove(s, k);
    assert s - {k} == map q | q in m - {k} :: [(m - {k})[q]];
  }

  ghost predicate EdgePage(m: map<Tokens, seq<int>>, path: Tokens, base: nat, value: seq<int>, ps: nat, i: int) {
    && base + ps <= i <= |path| && i - base <= |value|
    && path[..i] in m && m[path[..i]] == value[i - base - ps..i - base]
  }

  /** The pages on an edge hold the edge's values, once each. */
  lemma {:induction false} EdgeBag(m: map<Tokens, seq<int>>, path: Tokens, base: nat, end: nat, value: seq<int>,
                                   ps: nat)
    requires Aligned(base, ps) && Aligned(end, ps) && base <= end <= |path| && ps > 0
    requires |value| == end - base
    requires forall i | base < i <= end && Aligned(i, ps) :: EdgePage(m, path, base, value, ps, i)
    ensures PageBag(m) == PageBag(m - EdgeKeysUpTo(path, base, end, ps)) + multiset(value)
    decreases end
  {
    hide PageBag, EdgePage, EdgeKeysUpTo;
    if base == end {
      EmptyEdge(m, path, base, value, ps);
    } else {
      AlignedGap(base, end, ps);
      AlignedSub(end, ps, ps);
      EdgeShrinks(m, path, base, end, value, ps);
      var cut := end - base - ps;
      EdgeBag(m - {path[..end]}, path, base, end - ps, value[..cut], ps);
      LastEdgeValue(m, path, base, end, value, ps);
      LastEdgeKey(path, base, end, ps);
      EdgeBagStep(m, path[..end], EdgeKeysUpTo(path, base, end - ps, ps), value, cut);
    }
  }

  lemma EmptyEdge(m: map<Tokens, seq<int>>, path: Tokens, base: nat, value: seq<int>, ps: nat)
    requires base <= |path| && value == []
    ensures PageBag(m) == PageBag(m - EdgeKeysUpTo(path, base, base, ps)) + multiset(value)
  {
    assert m - EdgeKeysUpTo(path, base, base, ps) == m;
  }

  lemma LastEdgeValue(m: map<Tokens, seq<int>>, path: Tokens, base: nat, end: nat, value: seq<int>, ps: nat)
    requires Aligned(end, ps) && base < end && |value| == end - base
    requires forall i | base < i <= end && Aligned(i, ps) :: EdgePage(m, path, base, value, ps, i)
    ensures end <= |path| && path[..end] in m && 0 <= end - base - ps <= |value|
            && m[path[..end]] == value[end - base - ps..]
  {
    assert EdgePage(m, path, base, value, ps, end);
  }

  lemma EdgeBagStep(m: map<Tokens, seq<int>>, k: Tokens, ks: set<Tokens>, value: seq<int>, cut: int)
    requires k in m && 0 <= cut <= |value| && m[k] == value[cut..]
    requires PageBag(m - {k}) == PageBag(m - {k} - ks) + multiset(value[..cut])
    ensures PageBag(m) == PageBag(m - (ks + {k})) + multiset(value)
  {
    PageBagRemove(m, k);
    assert m - {k} - ks == m - (ks + {k});
    assert value == value[..cut] + value[cut..];
  }

  lemma EdgeShrinks(m: map<Tokens, seq<int>>, path: Tokens, base: nat, end: nat, value: seq<int>, ps: nat)
    requires base + ps <= end <= |path| && |value| == end - base && ps > 0
    requires forall i | base < i <= end && Aligned(i, ps) :: EdgePage(m, path, base, value, ps, i)
    ensures forall i | base < i <= end - ps && Aligned(i, ps) ::
              EdgePage(m - {path[..end]}, path, base, value[..end - base - ps], ps, i)
  {
    forall i | base < i <= end - ps && Aligned(i, ps)
      ensures EdgePage(m - {path[..end]}, path, base, value[..end - base - ps], ps, i)
    {
      assert EdgePage(m, path, base, value, ps, i);
      assert |path[..i]| != |path[..end]|;
      assert value[..end - base - ps][i - base - ps..i - base] == value[i - base - ps..i - base];
    }
  }

  lemma LastEdgeKey(path: Tokens, base: nat, end: nat, ps: nat)
    requires Aligned(end, ps) && ps > 0 && base + ps <= end <= |path|
    ensures EdgeKeysUpTo(path, base, end, ps) == EdgeKeysUpTo(path, base, end - ps, ps) + {path[..end]}
  {
    forall i | base < i <= end && Aligned(i, ps) ensures i == end || i <= end - ps {
      if i < end { AlignedGap(i, end, ps); }
    }
  }

  /** Unlinking a leaf gives back exactly its KV indices. */
  lemma UnlinkBag(t: Tree, root: RadixTreeNode, ps: nat, n: RadixTreeNode)
    requires CanUnlink(t, root, ps, n)
    ensures PageBag(Pages(t, ps)) == PageBag(Pages(UnlinkTree(t, ps, n), ps)) + multiset(t[n].value)
  {
    UnlinkMaps(t, root, ps, n);
    BaseFacts(t, root, ps, n);
    assert NodeOk(t, root, ps, n);
    var m := Pages(t, ps);
    forall i | Base(t, n) < i <= |n.path| && Aligned(i, ps)
      ensures EdgePage(m, n.path, Base(t, n), t[n].value, ps, i)
    {
      EdgePageStored(t, root, ps, n, i);
    }
    EdgeBag(m, n.path, Base(t, n), |n.path|, t[n].value, ps);
  }

  lemma EdgePageStored(t: Tree, root: RadixTreeNode, ps: nat, n: RadixTreeNode, i: int)
    requires WF(t, root, ps) && n in t && 0 <= Base(t, n) < i <= |n.path| && Aligned(i, ps)
    requires n != root
    ensures EdgePage(Pages(t, ps), n.path, Base(t, n), t[n].value, ps, i)
  {
    EdgeOwned(t, root, ps, n, i);
    PagesAt(t, root, ps, n, n.path[..i]);
  }

  lemma EdgeOwned(t: Tree, root: RadixTreeNode, ps: nat, n: RadixTreeNode, i: int)
    requires WF(t, root, ps) && n in t && 0 <= Base(t, n) < i <= |n.path| && Aligned(i, ps)
    requires n != root
    ensures Owns(t, ps, n, n.path[..i]) && Base(t, n) + ps <= i && i - Base(t, n) <= |t[n].value|
    ensures PageValue(t, ps, n, n.path[..i]) == t[n].value[i - Base(t, n) - ps..i - Base(t, n)]
  {
    BaseAligned(t, root, ps, n);
    AlignedGap(Base(t, n), i, ps);
    assert |n.path[..i]| == i && n.path[..i] <= n.path;
  }

  lemma BaseAligned(t: Tree, root: RadixTreeNode, ps: nat, n: RadixTreeNode)
    requires WF(t, root, ps) && n in t && n != root
    ensures Aligned(Base(t, n), ps) && |n.path| == Base(t, n) + |t[n].value|
  {
    BaseFacts(t, root, ps, n);
    assert NodeOk(t, root, ps, n);
  }

  lemma UnlinkTotals(t: Tree, ps: nat, n: RadixTreeNode, f: Rec -> int)
    requires n in t && t[n].parent != null && t[n].parent in t && t[n].parent != n
    requires f == FreeTokens || f == HeldTokens || f == FreeSlots || f == HeldSlots
    ensures Total(UnlinkTree(t, ps, n), f) == Total(t, f) - f(t[n])
  {
    var p := t[n].parent;
    var rp := t[p].(children := t[p].children - {FirstPage(t[n].key, ps)});
    TotalUpdate(t, f, p, rp);
    TotalRemove(t[p := rp], f, n);
  }
}
