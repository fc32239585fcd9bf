/**
The hybrid prefix cache: one radix tree with two currencies, KV pages on the edges and state
snapshots at the node ends.  Every operation is specified by its effect on two plain maps,
`Pages()` and `Snapshots()`, and on the list of locks held.
*/
module HybridRadixCache {
  import opened Wrappers
  import opened Alignment
  import opened Arithmetic
  import opened RadixTree
  import opened RadixSteps
  import opened RadixLocks
  import opened RadixLookup
  import opened RadixEvict

  /** Length of the longest common prefix. */
  function MatchLen(a: Tokens, b: Tokens): (n: nat)
    ensures n <= |a| && n <= |b| && a[..n] == b[..n]
    ensures n < |a| && n < |b| ==> a[n] != b[n]
  {
    if a == [] || b == [] || a[0] != b[0] then 0 else 1 + MatchLen(a[1..], b[1..])
  }

  /** `kv` are the indices and `len` the length of the reusable prefix; `slot` is what to restore. */
  datatype Match = Match(kv: seq<int>, len: nat, slot: Option<int>, node: RadixTreeNode)

  /**
  The answer a prefix cache owes for ids, in terms of the two maps alone: the longest prefix that
  has a snapshot, that snapshot's slot, and the KV indices stored for its tokens.
  */
  ghost predicate BestMatch(pages: map<Tokens, seq<int>>, snaps: map<Tokens, int>, ids: Tokens, ps: nat, m: Match) {
    && m.len <= |ids|
    && (match m.slot
        case Some(slot) => ids[..m.len] in snaps && slot == snaps[ids[..m.len]]
        case None => m.len == 0)
    && (forall p | p in snaps && p <= ids :: m.slot.Some? && |p| <= m.len)
    && HoldsPages(pages, ids[..m.len], m.kv, ps)
  }

  /**
  What inserting ids does to the two maps: exactly the missing pages are added, and the slot is attached exactly when
  the boundary has no snapshot.  The pages stored before are those up to prefixLen.
  */
  ghost predicate Inserted(pages: map<Tokens, seq<int>>, snaps: map<Tokens, int>, pages': map<Tokens, seq<int>>,
                           snaps': map<Tokens, int>, ids: Tokens, kv: seq<int>, slot: int, ps: nat, prefixLen: nat,
                           exist: bool)
    requires |ids| == |kv|
  {
    && pages' == PagesOf(ids, kv, ps) + pages
    && (exist <==> ids == [] || ids in snaps)
    && snaps' == (if exist then snaps else snaps[ids := slot])
    && prefixLen <= |ids|
    && (forall q | q in Boundaries(ids, ps) :: q in pages <==> |q| <= prefixLen)
  }

  /** When each node was last used. */
  type Uses = map<RadixTreeNode, int>

  /** The nodes on a path, the root aside, were used at `tic`; the others when they were before. */
  ghost predicate Touched(before: Uses, after: Uses, root: RadixTreeNode, path: Tokens, tic: int) {
    && before.Keys <= after.Keys
    && (forall n | n in after && n != root && n.path <= path :: after[n] == tic)
    && (forall n | n in before && (n == root || !(n.path <= path)) :: after[n] == before[n])
  }

  /** The same after an insert: what was grafted beyond `stored` bears the time of its creation. */
  ghost predicate TouchedOrBorn(before: Uses, after: Uses, root: RadixTreeNode, path: Tokens, stored: nat, tic: int,
                                born: int)
  {
    && before.Keys <= after.Keys
    && (forall n | n in after && n != root && n.path <= path :: after[n] == if |n.path| <= stored then tic else born)
    && (forall n | n in before && (n == root || !(n.path <= path)) :: after[n] == before[n])
  }

  class HybridRadixCache {
    const pageSize: nat
    const root: RadixTreeNode
    var fullEvictable: int
    var fullProtected: int
    var mambaEvictable: int
    var mambaProtected: int
    ghost var tree: Tree  // what the fields of the nodes hold
    ghost var locks: seq<Tokens>

    // ---------------------------------------------------------------- abstraction

    /** The ghost field follows the heap. */
    ghost predicate Synced()
      reads `tree, tree.Keys
    {
      forall n {:trigger InSync(n)} | n in tree :: InSync(n)
    }

    ghost predicate InSync(n: RadixTreeNode)
      reads `tree, n
    {
      n in tree && tree[n] == n.Fields()
    }

    ghost function Pages(): map<Tokens, seq<int>>
      reads `tree
    {
      RadixTree.Pages(tree, pageSize)
    }

    ghost function Snapshots(): map<Tokens, int>
      reads `tree
    {
      Snaps(tree)
    }

    /** When each node was last used. */
    ghost function Times(): Uses
      reads `tree, tree.Keys`timestamp
    {
      map n | n in tree :: n.timestamp
    }

    ghost function Sizes(): Counters
      reads `fullEvictable, `fullProtected, `mambaEvictable, `mambaProtected
    {
      Counters(fullEvictable, fullProtected, mambaEvictable, mambaProtected)
    }

    ghost predicate Valid()
      reads this, tree.Keys
    {
      Synced() && Inv(tree, root, pageSize, locks) && Sizes() == Sums(tree)
    }

    constructor (pageSize: nat)
      requires pageSize > 0
      ensures Valid() && fresh(tree.Keys) && this.pageSize == pageSize
      ensures tree.Keys == {root} && Pages() == map[] && Snapshots() == map[] && locks == []
      ensures Sizes() == Counters(0, 0, 0, 0)
    {
      this.pageSize := pageSize;
      var r := new RadixTreeNode([], [], [], null, 0);
      r.refCount := 1;  // the root is always protected
      root := r;
      fullEvictable, fullProtected, mambaEvictable, mambaProtected := 0, 0, 0, 0;
      tree, locks := map[r := r.Fields()], [];
      new;
      assert tree - {r} == map[];
      TotalRemove(tree, FreeTokens, r);
      TotalRemove(tree, HeldTokens, r);
      TotalRemove(tree, FreeSlots, r);
      TotalRemove(tree, HeldSlots, r);
      assert PageKeys(tree, pageSize) == {};
      assert SnapKeys(tree) == {};
    }

    // ---------------------------------------------------------------- walk

    /** The split itself: what it does to the nodes. */
    method SplitNode(child: RadixTreeNode, k: nat, tic: int) returns (m: RadixTreeNode)
      requires Synced() && InSync(child) && child.parent != null && child.parent in tree && child.parent != child
      requires 0 < k < |child.key| == |child.value| && |child.key| <= |child.path|
      modifies `tree, child`key, child`value, child`parent, child.parent`children
      ensures Synced() && fresh(m) && m.path == child.path[..|child.path| - old(|child.key|) + k]
      ensures tree == SplitTree(old(tree), pageSize, child, k, m) && m !in old(tree)
      ensures Times() == old(Times())[m := tic]
    {
      hide FirstPage;
      ghost var p := child.parent;
      m := child.SplitAt(k, pageSize);
      m.timestamp := tic;
      tree := SplitTree(tree, pageSize, child, k, m);
      assert InSync(m) && InSync(child) && InSync(p) by { assert old(InSync(child)) && old(InSync(p)); }
      forall x | x in tree && x != m && x != child && x != p ensures InSync(x) { assert old(InSync(x)); }
    }

    /** Splits a node; the maps the cache stands for, and its counters, do not change. */
    method SplitChild(child: RadixTreeNode, k: nat, tic: int) returns (m: RadixTreeNode)
      requires Valid() && child in tree && child != root && 0 < k < |child.key| && Aligned(k, pageSize)
      modifies `tree, tree.Keys
      ensures Valid() && fresh(m) && tree.Keys == old(tree.Keys) + {m}
      ensures Pages() == old(Pages()) && Snapshots() == old(Snapshots())
      ensures |child.path| >= old(|child.key|) && m.path == child.path[..|child.path| - old(|child.key|) + k]
      ensures tree[m].children == map[FirstPage(old(child.key[k..]), pageSize) := child]
      ensures Times() == old(Times())[m := tic]
    {
      ghost var t := tree;
      assert InSync(child);
      CanSplitAt(t, root, pageSize, child, k);
      m := SplitNode(child, k, tic);
      SplitStep(t, root, pageSize, locks, child, k, m);
    }

    /** The child that ids leads to, and how many tokens of its edge ids shares, in whole pages. */
    method MatchEdge(node: RadixTreeNode, ids: Tokens, prefixLen: nat) returns (child: RadixTreeNode, matchLen: nat)
      requires Synced() && WF(tree, root, pageSize) && node in tree && prefixLen < |ids|
               && node.path == ids[..prefixLen]
      requires InSync(node) && FirstPage(ids[prefixLen..], pageSize) in node.children
      ensures child in tree && child != root && InSync(child) && child.parent == node
      ensures 0 < matchLen <= |child.key| <= |child.path| && prefixLen + matchLen <= |ids|
              && Aligned(matchLen, pageSize)
      ensures child.path[..|child.path| - |child.key| + matchLen] == ids[..prefixLen + matchLen]
      ensures matchLen == |child.key| ==> child.path == ids[..prefixLen + matchLen]
      ensures matchLen < |child.key| && prefixLen + matchLen < |ids| ==>
                FirstPage(child.key[matchLen..], pageSize) != FirstPage(ids[prefixLen + matchLen..], pageSize)
    {
      var rest := ids[prefixLen..];
      child := node.children[FirstPage(rest, pageSize)];
      WalkEdge(tree, root, pageSize, node, ids, prefixLen);
      assert InSync(child);
      matchLen := AlignDown(MatchLen(child.key, rest), pageSize);
    }

    method Use(n: RadixTreeNode, tic: int)
      requires Synced() && n in tree
      modifies n`timestamp
      ensures Synced() && Times() == old(Times())[n := tic]
    {
      n.timestamp := tic;
      forall x | x in tree ensures InSync(x) { assert old(InSync(x)); }
    }

    /** Follows ids down the tree.  A positive cut says how much of the last node's edge ids matched. */
    method Descend(ids: Tokens, tic: int) returns (node: RadixTreeNode, prefixLen: nat, cut: nat)
      requires Valid()
      modifies tree.Keys`timestamp
      ensures Synced() && node in tree && prefixLen <= |ids|
      ensures cut == 0 ==> node.path == ids[..prefixLen] && Stopped(tree, root, pageSize, ids, node)
      ensures cut > 0 ==>
        && node != root && cut < |node.key| <= |node.path| && Aligned(cut, pageSize)
        && node.path[..|node.path| - |node.key| + cut] == ids[..prefixLen]
        && (prefixLen < |ids| ==> FirstPage(ids[prefixLen..], pageSize) != FirstPage(node.key[cut..], pageSize))
      ensures cut > 0 ==> node.parent != null && node.parent in tree
      ensures Touched(old(Times()), Times(), root, if cut == 0 then node.path else node.parent.path, tic)
    {
      hide Touched, LockOk, LeafOk;
      node, prefixLen, cut := root, 0, 0;
      assert NodeOk(tree, root, pageSize, root);
      TouchRoot(tree, root, pageSize, Times(), tic);
      while prefixLen < |ids|
        invariant Synced() && node in tree && prefixLen <= |ids| && node.path == ids[..prefixLen]
        invariant Touched(old(Times()), Times(), root, node.path, tic)
      {
        assert InSync(node);
        if FirstPage(ids[prefixLen..], pageSize) !in node.children { return; }
        var matchLen;
        node, matchLen := MatchEdge(node, ids, prefixLen);
        prefixLen := prefixLen + matchLen;
        if matchLen != |node.key| {
          cut := matchLen;
          return;
        }
        TouchMore(tree, root, pageSize, old(Times()), Times(), node, tic);
        Use(node, tic);
      }
    }

    /** Follows ids down the tree, splitting the last edge if ids leaves it half way. */
    method Walk(ids: Tokens, tic: int) returns (node: RadixTreeNode, prefixLen: nat)
      requires Valid()
      modifies `tree, tree.Keys
      ensures Valid() && old(tree.Keys) <= tree.Keys && fresh(tree.Keys - old(tree.Keys))
      ensures Pages() == old(Pages()) && Snapshots() == old(Snapshots())
      ensures node in tree && prefixLen <= |ids| && node.path == ids[..prefixLen]
      ensures Stopped(tree, root, pageSize, ids, node)
      ensures Touched(old(Times()), Times(), root, ids, tic)
    {
      var cut;
      node, prefixLen, cut := Descend(ids, tic);
      if cut > 0 {
        ghost var t, child, mid := tree, node, Times();
        assert InSync(child);
        node := SplitChild(node, cut, tic);
        TouchSplit(t, root, pageSize, old(Times()), mid, child, cut, node, tic);
      }
      TouchIds(tree, root, pageSize, old(Times()), Times(), ids, node, tic);
    }

    // ---------------------------------------------------------------- match / insert

    method PathLen(node: RadixTreeNode) returns (total: nat)
      requires Valid() && node in tree
      ensures total == |node.path|
    {
      var n := node;
      total := 0;
      assert NodeOk(tree, root, pageSize, root) && NodeOk(tree, root, pageSize, n);
      while n.parent != null
        invariant n in tree && total + |n.path| == |node.path|
        decreases |n.path|
      {
        assert NodeOk(tree, root, pageSize, n) && InSync(n);
        total := total + |n.key|;
        n := n.parent;
      }
      assert NodeOk(tree, root, pageSize, n) && InSync(n);
    }

    /** The KV indices of the whole path to node, in order. */
    method CollectKv(node: RadixTreeNode) returns (kv: seq<int>)
      requires Valid() && node in tree
      ensures HoldsPages(Pages(), node.path, kv, pageSize)
    {
      var n := node;
      kv := [];
      CollectStart(tree, root, pageSize, n);
      while n.parent != null
        invariant n in tree && n.path <= node.path && Collected(tree, pageSize, node.path, |n.path|, kv)
        decreases |n.path|
      {
        assert InSync(n);
        assert NodeOk(tree, root, pageSize, n);
        CollectStep(tree, root, pageSize, node.path, n, kv);
        kv := n.value + kv;
        n := n.parent;
      }
      assert NodeOk(tree, root, pageSize, n) && InSync(n);
      CollectedAll(tree, root, pageSize, node.path, kv);
    }

    /** Climbs from node to the deepest node with a live snapshot. */
    method DeepestLive(node: RadixTreeNode, ghost ids: Tokens) returns (cur: RadixTreeNode, endLen: nat)
      requires Valid() && node in tree && Stopped(tree, root, pageSize, ids, node)
      ensures cur in tree && endLen == |cur.path| && cur.path <= ids
      ensures cur != root ==> cur.mamba.Some?
      ensures cur == root ==> forall p | p in Snapshots() :: !(p <= ids)
      ensures forall p | p in Snapshots() && p <= ids :: |p| <= endLen
    {
      cur := node;
      endLen := PathLen(node);
      while cur.parent != null && cur.mamba.None?
        invariant cur in tree && endLen == |cur.path| && DeepestAbove(tree, node, cur)
        decreases |cur.path|
      {
        assert NodeOk(tree, root, pageSize, cur) && InSync(cur);
        ClimbDeepest(tree, root, pageSize, node, cur);
        endLen := endLen - |cur.key|;
        cur := cur.parent;
      }
      assert NodeOk(tree, root, pageSize, cur) && InSync(cur);
      LongestSnapshot(tree, root, pageSize, ids, node, cur);
      if cur == root { NoSnapshot(tree, root, pageSize, ids, node); }
    }

    /**
    The longest checkpointed prefix of ids, its slot, and the KV indices stored for it.  Matching may
    split a node; it changes neither map.
    */
    method MatchPrefix(ids: Tokens, tic: int) returns (m: Match)
      requires Valid()
      modifies `tree, tree.Keys
      ensures Valid() && old(tree.Keys) <= tree.Keys && fresh(tree.Keys - old(tree.Keys))
      ensures Pages() == old(Pages()) && Snapshots() == old(Snapshots())
      ensures BestMatch(Pages(), Snapshots(), ids, pageSize, m)
      ensures m.node in tree && m.node.path == ids[..m.len]
      ensures if m.slot.Some? then m.node.mamba == m.slot else m.node == root
      ensures Touched(old(Times()), Times(), root, ids, tic)
    {
      hide *;
      var node, prefixLen := Walk(ids, tic);
      m := Resume(node, ids);
    }

    /** The answer once the walk has stopped at node. */
    method Resume(node: RadixTreeNode, ghost ids: Tokens) returns (m: Match)
      requires Valid() && node in tree && Stopped(tree, root, pageSize, ids, node)
      ensures BestMatch(Pages(), Snapshots(), ids, pageSize, m)
      ensures m.node in tree && m.node.path == ids[..m.len]
      ensures if m.slot.Some? then m.node.mamba == m.slot else m.node == root
    {
      var cur, endLen := DeepestLive(node, ids);
      assert InSync(cur) && cur.path == ids[..endLen];
      assert NodeOk(tree, root, pageSize, cur) && NodeOk(tree, root, pageSize, root);
      if cur.parent != null {
        var kv := CollectKv(cur);
        SnapsAt(tree, root, pageSize, cur);
        m := Match(kv, endLen, cur.mamba, cur);
      } else {
        m := Match([], 0, None, root);
      }
    }

    method SetSnapshot(n: RadixTreeNode, v: Option<int>)
      requires Synced() && InSync(n)
      modifies `tree, n`mamba
      ensures Synced() && tree == SnapTree(old(tree), n, v)
    {
      n.mamba := v;
      tree := SnapTree(tree, n, v);
      forall x | x in tree ensures InSync(x) { assert x in old(tree) ==> old(InSync(x)); }
    }

    /**
    Commits a page-aligned prefix and donates a snapshot slot at its end.  Pages that are stored
    already keep the indices first stored for them; a boundary that has a live snapshot keeps it, and
    exist tells the caller to free the donated slot.
    */
    method Insert(ids: Tokens, kv: seq<int>, slot: int, tic: int, born: int) returns (prefixLen: nat, exist: bool)
      requires Valid() && AlignDown(|ids|, pageSize) <= |kv|
      modifies `tree, `fullEvictable, `mambaEvictable, tree.Keys
      ensures Valid() && old(tree.Keys) <= tree.Keys && fresh(tree.Keys - old(tree.Keys))
      ensures AlignDown(|ids|, pageSize) <= |ids|
      ensures var end := AlignDown(|ids|, pageSize);
        && Inserted(old(Pages()), old(Snapshots()), Pages(), Snapshots(), ids[..end], kv[..end], slot, pageSize,
          prefixLen, exist)
        && TouchedOrBorn(old(Times()), Times(), root, ids[..end], prefixLen, tic, born)
    {
      AlignDownIs(|ids|, pageSize);
      var end := AlignDown(|ids|, pageSize);
      prefixLen, exist := InsertAligned(ids[..end], kv[..end], slot, tic, born);
    }

    method InsertAligned(ids: Tokens, kv: seq<int>, slot: int, tic: int, born: int)
      returns (prefixLen: nat, exist: bool)
      requires Valid() && |ids| == |kv| && Aligned(|ids|, pageSize)
      modifies `tree, `fullEvictable, `mambaEvictable, tree.Keys
      ensures Valid() && old(tree.Keys) <= tree.Keys && fresh(tree.Keys - old(tree.Keys))
      ensures Inserted(old(Pages()), old(Snapshots()), Pages(), Snapshots(), ids, kv, slot, pageSize, prefixLen, exist)
      ensures TouchedOrBorn(old(Times()), Times(), root, ids, prefixLen, tic, born)
    {
      hide Inv, Touched, Inserted, RadixTree.Pages, Snaps;
      ghost var before := Times();
      var node;
      node, prefixLen := Walk(ids, tic);
      ghost var walked := tree.Keys;
      exist := Donate(node, ids, kv, prefixLen, slot, tic, born, before);
      assert tree.Keys - old(tree.Keys) == (tree.Keys - walked) + (walked - old(tree.Keys));
    }

    /** The walk for ids has stopped at node: grow a leaf or fill the boundary. */
    method Donate(node: RadixTreeNode, ids: Tokens, kv: seq<int>, prefixLen: nat, slot: int, ghost tic: int, born: int,
                  ghost before: Uses)
      returns (exist: bool)
      requires Valid() && |ids| == |kv| && Aligned(|ids|, pageSize)
      requires Stopped(tree, root, pageSize, ids, node) && prefixLen <= |ids| && node.path == ids[..prefixLen]
      requires Touched(before, Times(), root, ids, tic)
      modifies `tree, `fullEvictable, `mambaEvictable, node`children, node`mamba
      ensures Valid() && old(tree.Keys) <= tree.Keys && fresh(tree.Keys - old(tree.Keys))
      ensures Inserted(old(Pages()), old(Snapshots()), Pages(), Snapshots(), ids, kv, slot, pageSize, prefixLen, exist)
      ensures TouchedOrBorn(before, Times(), root, ids, prefixLen, tic, born)
    {
      hide Inv, Touched, TouchedOrBorn, RadixTree.Pages, Snaps;
      ghost var mid := Times();
      StoppedPages(tree, root, pageSize, ids, node);
      TouchStopped(tree, root, pageSize, before, mid, ids, node, tic, born);
      if prefixLen != |ids| {
        ghost var w := Grow(node, ids, kv, prefixLen, slot, born);
        TouchLeaf(before, mid, root, ids, prefixLen, w, tic, born);
        exist := false;
      } else {
        exist := Fill(node, ids, kv, slot);
      }
    }

    /** The part of ids beyond node becomes a new leaf with the donated snapshot. */
    method Grow(node: RadixTreeNode, ids: Tokens, kv: seq<int>, prefixLen: nat, slot: int, born: int)
      returns (ghost w: RadixTreeNode)
      requires Valid() && |ids| == |kv| && Aligned(|ids|, pageSize) && prefixLen < |ids|
      requires Stopped(tree, root, pageSize, ids, node) && |node.path| == prefixLen
      modifies `tree, `fullEvictable, `mambaEvictable, node`children
      ensures Valid() && fresh(w) && tree.Keys == old(tree.Keys) + {w}
      ensures Pages() == PagesOf(ids, kv, pageSize) + old(Pages())
      ensures Snapshots() == old(Snapshots())[ids := slot] && ids !in old(Snapshots()) && ids != []
      ensures w !in old(tree) && w.path == ids && Times() == old(Times())[w := born]
    {
      hide Inv, Sums, Grafted, RadixTree.Pages, Snaps;
      ghost var t := tree;
      w := Graft(node, ids, kv, prefixLen, slot, born);
      GrowAfter(t, tree, root, pageSize, locks, node, w, ids, kv, slot);
    }

    /** A new leaf under p. */
    method Attach(p: RadixTreeNode, ghost path: Tokens, key: Tokens, value: seq<int>, tic: int)
      returns (w: RadixTreeNode)
      requires Synced() && p in tree
      modifies `tree, p`children
      ensures Synced() && fresh(w) && w !in old(tree) && w.path == path
      ensures tree == AddTree(old(tree), pageSize, p, w, key, value) && Times() == old(Times())[w := tic]
    {
      w := new RadixTreeNode(path, key, value, p, tic);
      p.children := p.children[FirstPage(key, pageSize) := w];
      tree := AddTree(tree, pageSize, p, w, key, value);
      forall x | x in tree ensures InSync(x) { assert x in old(tree) ==> old(InSync(x)); }
    }

    /** A new leaf under p with its snapshot: what it does to the nodes and the sizes. */
    method Graft(p: RadixTreeNode, ids: Tokens, kv: seq<int>, prefixLen: nat, slot: int, tic: int)
      returns (w: RadixTreeNode)
      requires Synced() && p in tree && |p.path| == prefixLen < |ids| == |kv|
      modifies `tree, `fullEvictable, `mambaEvictable, p`children
      ensures Synced() && fresh(w) && tree.Keys == old(tree.Keys) + {w}
      ensures Grafted(old(tree), tree, pageSize, p, w, ids, kv, slot)
      ensures w !in old(tree) && w.path == ids && Times() == old(Times())[w := tic]
      ensures Sizes() == old(Sizes()).(fullEvictable := old(fullEvictable) + |ids| - prefixLen,
                                       mambaEvictable := old(mambaEvictable) + 1)
    {
      var key := ids[prefixLen..];
      w := Attach(p, ids, key, kv[prefixLen..], tic);
      fullEvictable := fullEvictable + |key|;
      SetSnapshot(w, Some(slot));
      mambaEvictable := mambaEvictable + 1;
    }

    /** ids ends at an existing boundary: attach the donated snapshot unless one lives there. */
    method Fill(node: RadixTreeNode, ghost ids: Tokens, ghost kv: seq<int>, slot: int) returns (exist: bool)
      requires Valid() && node in tree && node.path == ids && |ids| == |kv|
      modifies `tree, `mambaEvictable, node`mamba
      ensures Valid() && tree.Keys == old(tree.Keys)
      ensures Pages() == PagesOf(ids, kv, pageSize) + old(Pages())
      ensures exist <==> ids == [] || ids in old(Snapshots())
      ensures Snapshots() == (if exist then old(Snapshots()) else old(Snapshots())[ids := slot])
      ensures Times() == old(Times())
    {
      hide WF, LockOk, LeafOk, Sums, RadixTree.Pages;
      ghost var t := tree;
      assert InSync(node);
      NothingNew(t, root, pageSize, node, kv);
      BoundarySnap(t, root, pageSize, node);
      exist := node.parent == null || node.mamba.Some?;
      if !exist {
        SetSnapshot(node, Some(slot));
        if node.mambaRef == 0 {
          mambaEvictable := mambaEvictable + 1;
        }
        FillStep(t, root, pageSize, locks, node, slot);
      }
    }

    // ---------------------------------------------------------------- locks

    method PinSnapshot(n: RadixTreeNode)
      requires Synced() && InSync(n) && n.mamba.Some? && n.mambaRef >= 0
      modifies `tree, `mambaEvictable, `mambaProtected, n`mambaRef
      ensures Synced() && tree == PinSlotTree(old(tree), n, 1) && Sizes() == PinSlotSizes(old(Sizes()), old(tree)[n], 1)
    {
      assert InSync(n);
      if n.mambaRef == 0 {
        mambaEvictable := mambaEvictable - 1;
        mambaProtected := mambaProtected + 1;
      }
      n.mambaRef := n.mambaRef + 1;
      tree := PinSlotTree(tree, n, 1);
      forall x | x in tree ensures InSync(x) { assert x in old(tree) ==> old(InSync(x)); }
    }

    method UnpinSnapshot(n: RadixTreeNode)
      requires Synced() && InSync(n) && n.mamba.Some? && n.mambaRef > 0
      modifies `tree, `mambaEvictable, `mambaProtected, n`mambaRef
      ensures Synced() && tree == PinSlotTree(old(tree), n, -1)
              && Sizes() == PinSlotSizes(old(Sizes()), old(tree)[n], -1)
    {
      assert InSync(n);
      n.mambaRef := n.mambaRef - 1;
      if n.mambaRef == 0 {
        mambaEvictable := mambaEvictable + 1;
        mambaProtected := mambaProtected - 1;
      }
      tree := PinSlotTree(tree, n, -1);
      forall x | x in tree ensures InSync(x) { assert x in old(tree) ==> old(InSync(x)); }
    }

    method PinNode(n: RadixTreeNode)
      requires Synced() && InSync(n) && n.refCount >= 0
      modifies `tree, `fullEvictable, `fullProtected, n`refCount
      ensures Synced() && tree == PinTree(old(tree), n, 1) && Sizes() == PinSizes(old(Sizes()), old(tree)[n], 1)
    {
      assert InSync(n);
      if n.refCount == 0 {
        fullEvictable := fullEvictable - |n.key|;
        fullProtected := fullProtected + |n.key|;
      }
      n.refCount := n.refCount + 1;
      tree := PinTree(tree, n, 1);
      forall x | x in tree ensures InSync(x) { assert x in old(tree) ==> old(InSync(x)); }
    }

    method UnpinNode(n: RadixTreeNode)
      requires Synced() && InSync(n) && n.refCount > 0
      modifies `tree, `fullEvictable, `fullProtected, n`refCount
      ensures Synced() && tree == PinTree(old(tree), n, -1) && Sizes() == PinSizes(old(Sizes()), old(tree)[n], -1)
    {
      assert InSync(n);
      n.refCount := n.refCount - 1;
      if n.refCount == 0 {
        fullEvictable := fullEvictable + |n.key|;
        fullProtected := fullProtected - |n.key|;
      }
      tree := PinTree(tree, n, -1);
      forall x | x in tree ensures InSync(x) { assert x in old(tree) ==> old(InSync(x)); }
    }

    /** Locks a matched node: its snapshot, and the KV of its whole path.  The root needs no lock. */
    method IncLock(node: RadixTreeNode)
      requires Valid() && node in tree && (node == root || node.mamba.Some?)
      modifies this, tree.Keys`refCount, tree.Keys`mambaRef
      ensures Valid() && tree.Keys == old(tree.Keys) && locks == old(locks) + (if node == root then [] else [node.path])
      ensures Pages() == old(Pages()) && Snapshots() == old(Snapshots())
    {
      ghost var t, held := tree, locks;
      assert InSync(node);
      if node.mamba.Some? {
        LiveNotRoot(t, root, pageSize, held, node);
        CountLock(node, 1, held);
        locks := locks + [node.path];
        TakenInv(t, root, pageSize, held, node);
      }
    }

    /** Releases one lock held on node. */
    method DecLock(node: RadixTreeNode)
      requires Valid() && node in tree && (node == root || node.path in locks)
      modifies this, tree.Keys`refCount, tree.Keys`mambaRef
      ensures Valid() && tree.Keys == old(tree.Keys)
      ensures if node == root then locks == old(locks) else locks == Unlock(old(locks), node.path)
      ensures Pages() == old(Pages()) && Snapshots() == old(Snapshots())
    {
      ghost var t, held := tree, locks;
      assert InSync(node);
      if node != root { HeldIsLive(t, root, pageSize, held, node); }
      if node.mamba.Some? && node.mambaRef > 0 {
        LiveNotRoot(t, root, pageSize, held, node);
        CountLock(node, -1, held);
        locks := Unlock(locks, node.path);
        ReleasedInv(t, root, pageSize, held, node);
      }
    }

    /** Counts one lock on node in (d == 1) or out (d == -1): its own snapshot, then every node above. */
    method CountLock(node: RadixTreeNode, d: int, ghost held: seq<Tokens>)
      requires Synced() && Inv(tree, root, pageSize, held) && Sizes() == Sums(tree)
      requires node in tree && node != root && node.mamba.Some? && node.mambaRef >= 0
      requires d == 1 || (d == -1 && node.path in held && node.mambaRef > 0)
      modifies `tree, `fullEvictable, `fullProtected, `mambaEvictable, `mambaProtected, tree.Keys`refCount,
               tree.Keys`mambaRef
      ensures Synced() && tree == LockTree(old(tree), node, d) && Sizes() == Sums(tree)
    {
      ghost var t := tree;
      assert InSync(node);
      PinSlotSums(t, node, d);
      if d == 1 { PinSnapshot(node); } else { UnpinSnapshot(node); }
      Climb(t, node, d, held);
    }

    /** The climb from node to the root. */
    method Climb(ghost t: Tree, node: RadixTreeNode, d: int, ghost held: seq<Tokens>)
      requires Inv(t, root, pageSize, held) && node in t && node != root
      requires Synced() && tree == PinSlotTree(t, node, d) && Sizes() == Sums(tree)
      requires d == 1 || (d == -1 && node.path in held)
      modifies `tree, `fullEvictable, `fullProtected, tree.Keys`refCount
      ensures Synced() && tree == LockTree(t, node, d) && Sizes() == Sums(tree)
    {
      hide WF, LockOk, LeafOk, Sums;
      var cur := node;
      PinnedAll(t, node, d);
      ghost var t1 := tree;
      while cur.parent != null
        invariant cur in tree && cur.path <= node.path && tree.Keys == t1.Keys
        invariant Synced() && tree == Bumped(t1, cur.path, node.path, d) && Sizes() == Sums(tree)
        decreases |cur.path|
      {
        assert InSync(cur);
        ClimbEnd(t, root, pageSize, held, cur, d, node);
        ClimbPin(t, root, pageSize, node, cur, d);
        if d == 1 { PinNode(cur); } else { UnpinNode(cur); }
        cur := cur.parent;
      }
      assert InSync(cur);
      ClimbEnd(t, root, pageSize, held, cur, d, node);
    }

    // ---------------------------------------------------------------- eviction

    /** One turn of the walk: n leaves the frontier, its children enter it. */
    method Visit(n: RadixTreeNode, out: set<RadixTreeNode>, frontier: set<RadixTreeNode>)
      returns (out': set<RadixTreeNode>, frontier': set<RadixTreeNode>)
      requires Synced() && n in frontier && Frontier(tree, root, pageSize, out, frontier)
      ensures Frontier(tree, root, pageSize, out', frontier') && out' == out + {n}
      ensures n in tree && n !in out
    {
      assert InSync(n);
      FrontierStep(tree, root, pageSize, out, frontier, n);
      out', frontier' := out + {n}, frontier - {n} + n.children.Values;
    }

    /** Every node, by a walk over the children with an explicit frontier. */
    method AllNodes() returns (out: set<RadixTreeNode>)
      requires Valid()
      ensures out == tree.Keys
    {
      hide Frontier;
      var frontier := {root};
      out := {};
      FrontierStart(tree, root, pageSize);
      while frontier != {}
        invariant Frontier(tree, root, pageSize, out, frontier)
        decreases tree.Keys - out
      {
        var n :| n in frontier;
        out, frontier := Visit(n, out, frontier);
      }
      FrontierDone(tree, root, pageSize, out);
    }

    /** The least recently used node of a heap; no eviction changes a timestamp, so they are read once. */
    static method PopOldest(heap: set<RadixTreeNode>, time: Uses) returns (n: RadixTreeNode)
      requires heap != {} && heap <= time.Keys
      ensures n in heap && forall m | m in heap :: time[n] <= time[m]
    {
      n :| n in heap;
      var rest := heap - {n};
      while rest != {}
        invariant n in heap && rest <= heap
        invariant forall m | m in heap - rest :: time[n] <= time[m]
        decreases rest
      {
        var m :| m in rest;
        rest := rest - {m};
        if time[m] < time[n] { n := m; }
      }
    }

    /** Takes n's snapshot off and hands its slot out. */
    method FreeNodeMamba(n: RadixTreeNode) returns (slots: seq<int>)
      requires Synced() && InSync(n) && n.mamba.Some? && n.mambaRef == 0
      modifies `tree, `mambaEvictable, n`mamba
      ensures Synced() && tree == SnapTree(old(tree), n, None) && slots == [old(n.mamba).value]
      ensures mambaEvictable == old(mambaEvictable) - 1
      ensures fullProtected == old(fullProtected) && mambaProtected == old(mambaProtected) && locks == old(locks)
    {
      slots := [n.mamba.value];
      SetSnapshot(n, None);
      mambaEvictable := mambaEvictable - 1;
    }

    /** Takes n out of its parent's children and hands its KV indices out. */
    method Unlink(n: RadixTreeNode) returns (p: RadixTreeNode, kv: seq<int>)
      requires Synced() && InSync(n) && n.parent != null && n.parent in tree && n.parent != n && |n.key| == |n.value|
      modifies `tree, `fullEvictable, n.parent`children
      ensures Synced() && p == n.parent && kv == n.value && tree == UnlinkTree(old(tree), pageSize, n)
      ensures fullEvictable == old(fullEvictable) - |kv|
      ensures fullProtected == old(fullProtected) && mambaProtected == old(mambaProtected) && locks == old(locks)
    {
      kv := n.value;
      fullEvictable := fullEvictable - |n.key|;
      p := n.parent;
      p.children := p.children - {FirstPage(n.key, pageSize)};
      tree := UnlinkTree(tree, pageSize, n);
      forall x | x in tree ensures InSync(x) { assert old(InSync(x)); }
    }

    /**
    Reclaims the unlocked snapshot-less leaves that unlinking a leaf exposed, upwards from its
    parent, so that every leaf carries a live snapshot again.
    */
    method Cascade(parent: RadixTreeNode) returns (top: RadixTreeNode, kv: seq<int>)
      requires Synced() && WF(tree, root, pageSize) && parent in tree
      modifies `tree, `fullEvictable, tree.Keys`children
      ensures Synced() && InSync(top) && Cascaded(tree, top, kv) == CascadeTree(old(tree), pageSize, parent)
      ensures fullEvictable == old(fullEvictable) - |kv|
      ensures fullProtected == old(fullProtected) && mambaProtected == old(mambaProtected) && locks == old(locks)
    {
      top, kv := parent, [];
      ghost var want := CascadeTree(tree, pageSize, parent);
      assert InSync(top);
      while top.parent != null && top.mamba.None? && top.children == map[] && top.refCount == 0
        invariant Synced() && WF(tree, root, pageSize) && InSync(top) && tree.Keys <= old(tree.Keys)
        invariant CascadeOn(tree, pageSize, top, kv, want)
        invariant fullEvictable == old(fullEvictable) - |kv|
        invariant fullProtected == old(fullProtected) && mambaProtected == old(mambaProtected) && locks == old(locks)
        decreases tree.Keys
      {
        CascadeNext(tree, root, pageSize, top, kv, want);
        var more;
        top, more := Unlink(top);
        kv := kv + more;
        assert InSync(top);
      }
    }

    /** Evicts one leaf and what it exposes. */
    method EvictLeaf(n: RadixTreeNode) returns (top: RadixTreeNode, kv: seq<int>, slots: seq<int>)
      requires Synced() && WF(tree, root, pageSize) && CanUnlink(tree, root, pageSize, n)
      requires InSync(n) && n.mamba.Some? && n.mambaRef == 0
      modifies `tree, `fullEvictable, `mambaEvictable, n`mamba, tree.Keys`children
      ensures Synced() && InSync(top) && slots == [old(n.mamba).value]
      ensures var r := EvictTree(old(tree), pageSize, n); tree == r.tree && top == r.top && kv == r.kv
      ensures fullEvictable == old(fullEvictable) - |kv| && mambaEvictable == old(mambaEvictable) - 1
      ensures fullProtected == old(fullProtected) && mambaProtected == old(mambaProtected) && locks == old(locks)
    {
      TakenWF(tree, root, pageSize, n);
      slots := FreeNodeMamba(n);
      assert InSync(n);
      var p, more;
      p, kv := Unlink(n);
      top, more := Cascade(p);
      kv := kv + more;
    }

    /** Takes a node's snapshot, and the node with it when it is an unlocked leaf. */
    method EvictNode(n: RadixTreeNode) returns (top: RadixTreeNode, kv: seq<int>, slots: seq<int>)
      requires Synced() && WF(tree, root, pageSize) && InSync(n) && n != root && n.mamba.Some? && n.mambaRef == 0
      requires n in FreeLeaves(tree, root) ==> CanUnlink(tree, root, pageSize, n)
      modifies `tree, `fullEvictable, `mambaEvictable, n`mamba, tree.Keys`children
      ensures Synced() && InSync(top) && Evictions(tree, kv, slots) == EvictOne(old(tree), root, pageSize, n)
      ensures n in FreeLeaves(old(tree), root) ==> top == EvictTree(old(tree), pageSize, n).top
      ensures Sizes() == EvictedSizes(old(Sizes()), Evictions(tree, kv, slots)) && locks == old(locks)
    {
      if n.children == map[] && n.refCount == 0 {
        top, kv, slots := EvictLeaf(n);
      } else {
        top, kv := n, [];
        slots := FreeNodeMamba(n);
        assert InSync(n);
      }
    }

    /** The unlocked leaves, and the timestamps, read once. */
    method FreeLeafHeap(ghost numTokens: int) returns (heap: set<RadixTreeNode>, time: Uses)
      requires Valid()
      ensures heap == FreeLeaves(tree, root) && time == Times()
      ensures LeavesTaken(tree, root, pageSize, [], time, numTokens, Evictions(tree, [], []))
    {
      hide Inv, LeavesTaken;
      var all := AllNodes();
      time := map n: RadixTreeNode | n in all :: n.timestamp;
      heap := set n | n in all && n.parent != null && n.children == map[] && n.refCount == 0;
      LeafRunStart(tree, root, pageSize, locks, time, numTokens);
      assert forall n | n in tree :: InSync(n);
    }

    /**
    Evicts KV tokens from unlocked leaves, least recently used first.  At least the requested number
    comes free whenever that many are evictable, and no eviction starts once enough is free.
    */
    method EvictFull(numTokens: int) returns (kv: seq<int>, slots: seq<int>, ghost victims: seq<RadixTreeNode>)
      requires Valid()
      modifies `tree, `fullEvictable, `mambaEvictable, tree.Keys`mamba, tree.Keys`children
      ensures Valid() && locks == old(locks)
      ensures OldestLeaves(old(tree), root, pageSize, victims, old(Times()))
      ensures Run(old(tree), root, pageSize, victims) == Evictions(tree, kv, slots)
      ensures Balanced(old(tree), tree, pageSize, kv, slots)
      ensures numTokens <= old(fullEvictable) ==> |kv| >= numTokens
      ensures |kv| < numTokens ==> fullEvictable == 0
      ensures ShortBefore(old(tree), root, pageSize, victims, numTokens)
      ensures numTokens <= 0 ==> tree == old(tree) && kv == [] && slots == []
    {
      hide Inv, FreeLeaves, OldestLeaves, Run, ShortBefore, LeavesTaken, Balanced, Sums, FreeTokens;
      ghost var t0 := tree;
      var heap, time := FreeLeafHeap(numTokens);
      kv, slots, victims := [], [], [];
      while |kv| < numTokens && heap != {}
        invariant Synced() && Sizes() == Sums(tree) && locks == old(locks) && tree.Keys <= t0.Keys
        invariant heap == FreeLeaves(tree, root)
        invariant LeavesTaken(t0, root, pageSize, victims, time, numTokens, Evictions(tree, kv, slots))
        decreases tree.Keys
      {
        heap, kv, slots, victims := EvictFullNext(heap, kv, slots, time, numTokens, t0, victims);
      }
      LeafRunDone(t0, root, pageSize, locks, victims, time, numTokens, Evictions(tree, kv, slots));
    }

    /** One round of EvictFull. */
    method EvictFullNext(heap: set<RadixTreeNode>, kv: seq<int>, slots: seq<int>, time: Uses, ghost numTokens: int,
                         ghost t0: Tree, ghost victims: seq<RadixTreeNode>)
      returns (heap': set<RadixTreeNode>, kv': seq<int>, slots': seq<int>, ghost victims': seq<RadixTreeNode>)
      requires Inv(t0, root, pageSize, locks) && time.Keys == t0.Keys
      requires Synced() && Sizes() == Sums(tree) && heap == FreeLeaves(tree, root) && heap != {}
      requires LeavesTaken(t0, root, pageSize, victims, time, numTokens, Evictions(tree, kv, slots))
      requires |kv| < numTokens
      modifies `tree, `fullEvictable, `mambaEvictable, tree.Keys`mamba, tree.Keys`children
      ensures Synced() && Sizes() == Sums(tree) && locks == old(locks) && heap' == FreeLeaves(tree, root)
      ensures LeavesTaken(t0, root, pageSize, victims', time, numTokens, Evictions(tree, kv', slots'))
      ensures tree.Keys < old(tree.Keys)
    {
      hide LeavesTaken, OldestLeaves, Run, ShortBefore;
      ghost var e := Evictions(tree, kv, slots);
      LeafRound(t0, root, pageSize, locks, victims, time, numTokens, e);
      var node := PopOldest(heap, time);
      assert InSync(node);
      LeafVictim(tree, root, pageSize, locks, node);
      victims' := victims + [node];
      LeavesTakenNext(t0, root, pageSize, victims, time, numTokens, e, node);
      var top, kv1, slots1 := EvictNode(node);
      kv', slots' := kv + kv1, slots + slots1;
      heap' := heap - {node} + (if top.parent != null && top.children == map[] && top.refCount == 0 then {top} else {});
    }

    /**
    Evicts state snapshots, least recently used first: exactly the number asked for, or all there
    are.  An inner node keeps its KV; a leaf goes with its KV and the tombstones it exposes.
    */
    method EvictMamba(num: int) returns (kv: seq<int>, slots: seq<int>, ghost victims: seq<RadixTreeNode>)
      requires Valid()
      modifies `tree, `fullEvictable, `mambaEvictable, tree.Keys`mamba, tree.Keys`children
      ensures Valid() && locks == old(locks)
      ensures OldestSnaps(old(tree), root, pageSize, victims, old(Times()))
      ensures Run(old(tree), root, pageSize, victims) == Evictions(tree, kv, slots)
      ensures Balanced(old(tree), tree, pageSize, kv, slots)
      ensures |slots| == Min(Clamp(num), old(mambaEvictable))
    {
      hide Inv, FreeSnaps, OldestSnaps, Run, Balanced, Sums;
      ghost var t0, time0 := tree, Times();
      var all := AllNodes();
      var time := map n: RadixTreeNode | n in all :: n.timestamp;
      assert time == time0;
      var cands := set n | n in all && n.parent != null && n.mamba.Some? && n.mambaRef == 0;
      SnapRunStart(t0, root, pageSize, locks, time);
      assert forall n | n in tree :: InSync(n);
      kv, slots, victims := [], [], [];
      while |slots| < num && cands != {}
        invariant Synced() && Sizes() == Sums(tree) && locks == old(locks) && tree.Keys <= t0.Keys
        invariant cands == FreeSnaps(tree, root) && |slots| <= Clamp(num)
        invariant OldestSnaps(t0, root, pageSize, victims, time)
        invariant Run(t0, root, pageSize, victims) == Evictions(tree, kv, slots)
        decreases cands
      {
        cands, kv, slots, victims := EvictMambaNext(cands, kv, slots, time, t0, victims);
      }
      SnapRunDone(t0, tree, root, pageSize, locks, victims, time, kv, slots, num);
    }

    /** One round of EvictMamba. */
    method EvictMambaNext(cands: set<RadixTreeNode>, kv: seq<int>, slots: seq<int>, time: Uses,
                          ghost t0: Tree, ghost victims: seq<RadixTreeNode>)
      returns (cands': set<RadixTreeNode>, kv': seq<int>, slots': seq<int>, ghost victims': seq<RadixTreeNode>)
      requires Inv(t0, root, pageSize, locks) && time.Keys == t0.Keys
      requires Synced() && Sizes() == Sums(tree) && cands == FreeSnaps(tree, root) && cands != {}
      requires OldestSnaps(t0, root, pageSize, victims, time)
               && Run(t0, root, pageSize, victims) == Evictions(tree, kv, slots)
      modifies `tree, `fullEvictable, `mambaEvictable, tree.Keys`mamba, tree.Keys`children
      ensures Synced() && Sizes() == Sums(tree) && locks == old(locks) && cands' == FreeSnaps(tree, root)
              && cands' < cands
      ensures OldestSnaps(t0, root, pageSize, victims', time)
              && Run(t0, root, pageSize, victims') == Evictions(tree, kv', slots')
      ensures tree.Keys <= old(tree.Keys) && |slots'| == |slots| + 1
    {
      SnapRound(t0, tree, root, pageSize, locks, victims, time, kv, slots);
      var node := PopOldest(cands, time);
      assert InSync(node);
      SnapVictim(tree, root, pageSize, locks, node);
      victims' := victims + [node];
      OldestSnapsNext(t0, root, pageSize, victims, node, time);
      RunNext(t0, root, pageSize, victims, node);
      var top, kv1, slots1 := EvictNode(node);
      kv', slots' := kv + kv1, slots + slots1;
      cands' := cands - {node};
    }
  }

  /** Two readers of the same prefix: the node just below the root is counted twice, the root once. */
  method TwoReaders(slot: int) returns (cache: HybridRadixCache, node: RadixTreeNode)
    ensures fresh(cache) && cache.Valid() && node in cache.tree && cache.root in cache.tree
    ensures cache.tree[node].parent == cache.root && cache.tree[node].refCount == 2
            && cache.tree[cache.root].refCount == 1
  {
    hide Inv, Inserted, BestMatch, Touched, TouchedOrBorn, RadixTree.Pages, Snaps, Sums;
    cache := new HybridRadixCache(1);
    assert AlignDown(1, 1) == 1 && [7][..1] == [7] && [0][..1] == [0];
    var stored, exist := cache.Insert([7], [0], slot, 0, 1);
    FirstInsert(cache.Pages(), cache.Snapshots(), 7, 0, slot, stored, exist);
    var m := cache.MatchPrefix([7], 2);
    WholeMatch(cache.Pages(), cache.Snapshots(), 7, m);
    node := m.node;
    assert cache.InSync(node);
    LiveNotRoot(cache.tree, cache.root, 1, cache.locks, node);
    cache.IncLock(node);
    cache.IncLock(node);
    OutranksRoot(cache.tree, cache.root, cache.locks, node, 7);
  }

  lemma FirstInsert(pages: map<Tokens, seq<int>>, snaps: map<Tokens, int>, x: int, kv: int, slot: int, stored: nat,
                    exist: bool)
    requires Inserted(map[], map[], pages, snaps, [x], [kv], slot, 1, stored, exist)
    ensures [x] in snaps
  {
  }

  lemma WholeMatch(pages: map<Tokens, seq<int>>, snaps: map<Tokens, int>, x: int, m: Match)
    requires BestMatch(pages, snaps, [x], 1, m) && [x] in snaps
    ensures m.slot.Some? && m.len == 1 && [x][..1] == [x]
  {
  }

  lemma OutranksRoot(t: Tree, root: RadixTreeNode, locks: seq<Tokens>, n: RadixTreeNode, x: int)
    requires Inv(t, root, 1, locks) && n in t && n.path == [x] && locks == [[x], [x]]
    ensures root in t && t[n].parent == root && t[n].refCount == 2 && t[root].refCount == 1
  {
    assert NodeOk(t, root, 1, n) && NodeOk(t, root, 1, root);
    BaseFacts(t, root, 1, n);
    assert SamePathSameNode(t, t[n].parent, root) && LockOk(t, root, locks, n) && LockOk(t, root, locks, root);
    AddLock([[x]], [x], [x]);
    AddLock([], [x], [x]);
    assert locks == [[x]] + [[x]] && [[x]] == [] + [[x]];
  }

  /** A walk's frontier: disjoint subtrees that together hold exactly the nodes not visited yet. */
  ghost predicate Frontier(t: Tree, root: RadixTreeNode, ps: nat, out: set<RadixTreeNode>,
                           frontier: set<RadixTreeNode>)
  {
    && WF(t, root, ps) && out <= t.Keys && frontier <= t.Keys
    && (forall n | n in t :: n in out || exists s :: s in frontier && s.path <= n.path)
    && (forall a, b | a in frontier && b in frontier && a != b :: !(a.path <= b.path))
    && (forall s, o | s in frontier && o in out :: !(s.path <= o.path))
  }

  lemma FrontierStart(t: Tree, root: RadixTreeNode, ps: nat)
    requires WF(t, root, ps)
    ensures Frontier(t, root, ps, {}, {root})
  {
    assert NodeOk(t, root, ps, root);
  }

  lemma FrontierDone(t: Tree, root: RadixTreeNode, ps: nat, out: set<RadixTreeNode>)
    requires Frontier(t, root, ps, out, {})
    ensures out == t.Keys
  {
  }

  lemma FrontierStep(t: Tree, root: RadixTreeNode, ps: nat, out: set<RadixTreeNode>, frontier: set<RadixTreeNode>,
                     n: RadixTreeNode)
    requires Frontier(t, root, ps, out, frontier) && n in frontier
    ensures Frontier(t, root, ps, out + {n}, frontier - {n} + t[n].children.Values) && n !in out
  {
    var next := frontier - {n} + t[n].children.Values;
    forall c | c in t[n].children.Values ensures c in t && n.path <= c.path && c.path != n.path {
      ChildBelow(t, root, ps, n, c);
    }
    forall m | m in t ensures m in out + {n} || exists s :: s in next && s.path <= m.path {
      if m !in out && m != n { FrontierReaches(t, root, ps, out, frontier, n, m); }
    }
    forall a, b | a in next && b in next && a != b ensures !(a.path <= b.path) {
      FrontierApart(t, root, ps, frontier, n, a, b);
    }
  }

  /** A node not visited yet lies below the new frontier. */
  lemma FrontierReaches(t: Tree, root: RadixTreeNode, ps: nat, out: set<RadixTreeNode>, frontier: set<RadixTreeNode>,
                        n: RadixTreeNode, m: RadixTreeNode)
    requires Frontier(t, root, ps, out, frontier) && n in frontier && m in t && m !in out && m != n
    ensures exists s :: s in frontier - {n} + t[n].children.Values && s.path <= m.path
  {
    var s :| s in frontier && s.path <= m.path;
    if s == n {
      ChildToward(t, root, ps, n, m);
      var c := t[n].children[FirstPage(m.path[|n.path|..], ps)];
      assert c in frontier - {n} + t[n].children.Values && c.path <= m.path;
    }
  }

  lemma ChildBelow(t: Tree, root: RadixTreeNode, ps: nat, n: RadixTreeNode, c: RadixTreeNode)
    requires WF(t, root, ps) && n in t && c in t[n].children.Values
    ensures c in t && c != root && n.path <= c.path && c.path != n.path && t[c].parent == n
  {
    var k :| k in t[n].children && t[n].children[k] == c;
    assert ChildrenOk(t, root, ps, n);
    BaseFacts(t, root, ps, c);
  }

  lemma FrontierApart(t: Tree, root: RadixTreeNode, ps: nat, frontier: set<RadixTreeNode>, n: RadixTreeNode,
                      a: RadixTreeNode, b: RadixTreeNode)
    requires WF(t, root, ps) && frontier <= t.Keys && n in frontier && a != b
    requires forall x, y | x in frontier && y in frontier && x != y :: !(x.path <= y.path)
    requires a in frontier - {n} + t[n].children.Values && b in frontier - {n} + t[n].children.Values
    ensures !(a.path <= b.path)
  {
    if a in t[n].children.Values { ChildBelow(t, root, ps, n, a); }
    if b in t[n].children.Values { ChildBelow(t, root, ps, n, b); }
    if a.path <= b.path && b in t[n].children.Values {
      AboveParent(t, root, ps, a, b);
      assert false;
    }
  }

  /** Before the first victim, and where the program reads the candidates off. */
  lemma SnapRunStart(t: Tree, root: RadixTreeNode, ps: nat, locks: seq<Tokens>, time: Uses)
    requires Inv(t, root, ps, locks)
    ensures FreeSnaps(t, root) == set n | n in t && t[n].parent != null && t[n].mamba.Some? && t[n].mambaRef == 0
    ensures OldestSnaps(t, root, ps, [], time) && Run(t, root, ps, []) == Evictions(t, [], [])
  {
    forall n | n in t ensures n == root <==> t[n].parent == null { assert NodeOk(t, root, ps, n); }
  }

  lemma LeafRunStart(t: Tree, root: RadixTreeNode, ps: nat, locks: seq<Tokens>, time: Uses, num: int)
    requires Inv(t, root, ps, locks)
    ensures FreeLeaves(t, root) == set n | n in t && t[n].parent != null && t[n].children == map[] && t[n].refCount == 0
    ensures LeavesTaken(t, root, ps, [], time, num, Evictions(t, [], []))
  {
    forall n | n in t ensures n == root <==> t[n].parent == null { assert NodeOk(t, root, ps, n); }
  }

  lemma LiveNotRoot(t: Tree, root: RadixTreeNode, ps: nat, locks: seq<Tokens>, n: RadixTreeNode)
    requires Inv(t, root, ps, locks) && n in t && t[n].mamba.Some?
    ensures n != root && t[n].mambaRef >= 0
  {
    assert NodeOk(t, root, ps, root) && LockOk(t, root, locks, n);
  }

  /** The climb ends at the root, and finds the count it is about to change where it should be. */
  lemma ClimbEnd(t: Tree, root: RadixTreeNode, ps: nat, locks: seq<Tokens>, cur: RadixTreeNode, d: int,
                 node: RadixTreeNode)
    requires Inv(t, root, ps, locks) && cur in t && node in t && cur.path <= node.path
    requires d == 1 || (d == -1 && node.path in locks)
    ensures t[cur].parent == null <==> cur == root
    ensures cur == root ==> cur.path == []
    ensures cur != root ==> t[cur].refCount >= 0 && t[cur].refCount + d >= 0
  {
    BoundarySnap(t, root, ps, cur);
    assert LockOk(t, root, locks, cur);
    if d == -1 { HeldIsLive(t, root, ps, locks, node); }
  }

  ghost predicate Grafted(t: Tree, t': Tree, ps: nat, p: RadixTreeNode, w: RadixTreeNode, ids: Tokens, kv: seq<int>,
                          slot: int)
  {
    && p in t && |p.path| < |ids| == |kv| && w !in t && w.path == ids
    && var t1 := AddTree(t, ps, p, w, ids[|p.path|..], kv[|p.path|..]);
       w in t1 && t' == SnapTree(t1, w, Some(slot))
  }

  lemma GrowAfter(t: Tree, t': Tree, root: RadixTreeNode, ps: nat, locks: seq<Tokens>, node: RadixTreeNode,
                  w: RadixTreeNode,
                  ids: Tokens, kv: seq<int>, slot: int)
    requires Inv(t, root, ps, locks) && Stopped(t, root, ps, ids, node)
    requires Aligned(|ids|, ps) && Grafted(t, t', ps, node, w, ids, kv, slot)
    ensures Inv(t', root, ps, locks)
    ensures Pages(t', ps) == PagesOf(ids, kv, ps) + Pages(t, ps)
    ensures Snaps(t') == Snaps(t)[ids := slot] && ids !in Snaps(t)
    ensures Sums(t') == Sums(t).(fullEvictable := Sums(t).fullEvictable + |ids| - |node.path|,
                                 mambaEvictable := Sums(t).mambaEvictable + 1)
  {
    CanGrow(t, root, ps, ids, kv, node, w);
    GrowStep(t, root, ps, locks, node, w, ids[|node.path|..], kv[|node.path|..], kv, slot);
  }

  lemma {:induction false} MatchLenAtLeast(a: Tokens, b: Tokens, n: nat)
    requires n <= |a| && n <= |b| && a[..n] == b[..n]
    ensures MatchLen(a, b) >= n
  {
    if n > 0 {
      assert a[..n][0] == b[..n][0];
      assert a[1..][..n - 1] == a[..n][1..] && b[1..][..n - 1] == b[..n][1..];
      MatchLenAtLeast(a[1..], b[1..], n - 1);
    }
  }

  /** How far one edge takes the walk, and why the walk cannot go on from a cut. */
  lemma WalkEdge(t: Tree, root: RadixTreeNode, ps: nat, node: RadixTreeNode, ids: Tokens, done: nat)
    requires WF(t, root, ps) && node in t && done < |ids| && node.path == ids[..done]
    requires FirstPage(ids[done..], ps) in t[node].children
    ensures var child := t[node].children[FirstPage(ids[done..], ps)];
      && child in t && child != root && t[child].parent == node
      && var k := AlignDown(MatchLen(t[child].key, ids[done..]), ps);
      && 0 < k <= |t[child].key| <= |child.path| && done + k <= |ids| && Aligned(k, ps)
      && child.path[..|child.path| - |t[child].key| + k] == ids[..done + k]
      && (k == |t[child].key| ==> child.path == ids[..done + k])
      && (k < |t[child].key| && done + k < |ids| ==> FirstPage(t[child].key[k..], ps) != FirstPage(ids[done + k..], ps))
  {
    assert ChildrenOk(t, root, ps, node);
    var child := t[node].children[FirstPage(ids[done..], ps)];
    BaseFacts(t, root, ps, child);
    assert NodeOk(t, root, ps, child);
    EdgeSteps(ids, done, t[child].key, ps);
  }

  lemma EdgeSteps(ids: Tokens, done: nat, key: Tokens, ps: nat)
    requires ps > 0 && done < |ids| && key != [] && Aligned(|key|, ps)
    requires FirstPage(key, ps) == FirstPage(ids[done..], ps)
    ensures var k := AlignDown(MatchLen(key, ids[done..]), ps);
      && 0 < k <= |key| && done + k <= |ids| && Aligned(k, ps)
      && (ids[..done] + key)[..done + k] == ids[..done + k]
      && (k == |key| ==> ids[..done] + key == ids[..done + k])
      && (k < |key| && done + k < |ids| ==> FirstPage(key[k..], ps) != FirstPage(ids[done + k..], ps))
  {
    EdgeMatch(key, ids[done..], ps);
    var k := AlignDown(MatchLen(key, ids[done..]), ps);
    StepPath(ids, done, key, k);
    if k < |key| && done + k < |ids| {
      AlignedGap(k, |key|, ps);
      CutDiffers(key, ids[done..], k, MatchLen(key, ids[done..]), ps);
    }
  }

  lemma EdgeMatch(key: Tokens, rest: Tokens, ps: nat)
    requires ps > 0 && rest != [] && key != [] && Aligned(|key|, ps)
    requires FirstPage(key, ps) == FirstPage(rest, ps)
    ensures var k := AlignDown(MatchLen(key, rest), ps);
      0 < k <= |key| && k <= |rest| && Aligned(k, ps) && key[..k] == rest[..k] && MatchLen(key, rest) < k + ps
  {
    var n := MatchLen(key, rest);
    var k := AlignDown(n, ps);
    AlignDownIs(n, ps);
    AlignedGap(0, |key|, ps);
    assert |FirstPage(rest, ps)| == ps;
    MatchLenAtLeast(key, rest, ps);
    CutAgrees(key, rest, n, k);
  }

  lemma CutAgrees(a: Tokens, b: Tokens, n: nat, k: nat)
    requires k <= n <= |a| && n <= |b| && a[..n] == b[..n]
    ensures a[..k] == b[..k]
  {
    assert a[..k] == a[..n][..k] && b[..k] == b[..n][..k];
  }

  lemma StepPath(ids: Tokens, done: nat, key: Tokens, k: nat)
    requires done + k <= |ids| && k <= |key| && key[..k] == ids[done..][..k]
    ensures (ids[..done] + key)[..done + k] == ids[..done + k]
    ensures k == |key| ==> ids[..done] + key == ids[..done + k]
    ensures ids[done..][k..] == ids[done + k..]
  {
    assert (ids[..done] + key)[..done + k] == ids[..done] + key[..k];
    assert ids[..done + k] == ids[..done] + ids[done..][..k];
  }

  lemma CutDiffers(key: Tokens, rest: Tokens, k: nat, n: nat, ps: nat)
    requires k <= n < k + ps && n == MatchLen(key, rest) && key[..k] == rest[..k]
    requires k < |key| && k < |rest| && k + ps <= |key|
    ensures FirstPage(key[k..], ps) != FirstPage(rest[k..], ps)
  {
    if FirstPage(key[k..], ps) == FirstPage(rest[k..], ps) {
      EqualPageExtends(key, rest, k, ps);
      MatchLenAtLeast(key, rest, k + ps);
      assert false;
    }
  }

  lemma EqualPageExtends(a: Tokens, b: Tokens, k: nat, ps: nat)
    requires k + ps <= |a| && k <= |b| && a[..k] == b[..k] && ps > 0
    requires FirstPage(a[k..], ps) == FirstPage(b[k..], ps)
    ensures k + ps <= |b| && a[..k + ps] == b[..k + ps]
  {
    assert |FirstPage(b[k..], ps)| == ps;
    assert a[..k + ps] == a[..k] + a[k..][..ps];
    assert b[..k + ps] == b[..k] + b[k..][..ps];
  }

  // ---------------------------------------------------------------- timestamps

  lemma TouchRoot(t: Tree, root: RadixTreeNode, ps: nat, times: Uses, tic: int)
    requires WF(t, root, ps) && times.Keys == t.Keys
    ensures Touched(times, times, root, root.path, tic)
  {
    assert NodeOk(t, root, ps, root);
    forall n | n in t && n != root ensures !(n.path <= root.path) {
      assert n.path <= root.path ==> SamePathSameNode(t, n, root);
    }
  }

  lemma TouchMore(t: Tree, root: RadixTreeNode, ps: nat, before: Uses, mid: Uses,
                  child: RadixTreeNode, tic: int)
    requires WF(t, root, ps) && child in t && child != root && mid.Keys == t.Keys
    requires t[child].parent != null && Touched(before, mid, root, t[child].parent.path, tic)
    ensures Touched(before, mid[child := tic], root, child.path, tic)
  {
    BaseFacts(t, root, ps, child);
    forall n | n in t && n != child && n.path <= child.path ensures n.path <= t[child].parent.path {
      AboveParent(t, root, ps, n, child);
    }
  }

  lemma TouchSplit(t: Tree, root: RadixTreeNode, ps: nat, before: Uses, mid: Uses,
                   child: RadixTreeNode, k: nat, m: RadixTreeNode, tic: int)
    requires WF(t, root, ps) && child in t && child != root && mid.Keys == t.Keys && m !in t
    requires 0 < k < |t[child].key| <= |child.path| && m.path == child.path[..|child.path| - |t[child].key| + k]
    requires t[child].parent != null && Touched(before, mid, root, t[child].parent.path, tic)
    ensures Touched(before, mid[m := tic], root, m.path, tic)
  {
    assert NodeOk(t, root, ps, child);
    forall n | n in t && n.path <= m.path ensures n.path <= t[child].parent.path {
      AboveParent(t, root, ps, n, child);
    }
  }

  lemma TouchIds(t: Tree, root: RadixTreeNode, ps: nat, before: Uses, after: Uses,
                 ids: Tokens, node: RadixTreeNode, tic: int)
    requires Stopped(t, root, ps, ids, node) && after.Keys == t.Keys && Touched(before, after, root, node.path, tic)
    ensures Touched(before, after, root, ids, tic)
  {
    forall n | n in t && n.path <= ids ensures n.path <= node.path { StoppedBelowAll(t, root, ps, ids, node, n); }
  }

  lemma TouchStopped(t: Tree, root: RadixTreeNode, ps: nat, before: Uses, mid: Uses, ids: Tokens, node: RadixTreeNode,
                     tic: int, born: int)
    requires Stopped(t, root, ps, ids, node) && mid.Keys == t.Keys && Touched(before, mid, root, ids, tic)
    ensures TouchedOrBorn(before, mid, root, ids, |node.path|, tic, born)
  {
    forall n | n in t && n.path <= ids ensures |n.path| <= |node.path| { StoppedBelowAll(t, root, ps, ids, node, n); }
  }

  lemma TouchLeaf(before: Uses, mid: Uses, root: RadixTreeNode, ids: Tokens, stored: nat, w: RadixTreeNode, tic: int,
                  born: int)
    requires TouchedOrBorn(before, mid, root, ids, stored, tic, born) && w !in mid && w.path == ids && stored < |ids|
    ensures TouchedOrBorn(before, mid[w := born], root, ids, stored, tic, born)
  {
  }
}
