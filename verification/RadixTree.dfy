/**
The node objects of the prefix cache and the theory of the tree they form.

A node is a heap object, as in the program.  Everything proved about the tree is proved about its
snapshot, a map from node to the values its fields hold, so that a method only has to show what its
field writes do to that map.

Every node carries one ghost constant, the token sequence from the root to the node's end.  No
operation ever changes it: a split leaves the old object at the end it always had.
*/
module RadixTree {
  import opened Wrappers
  import opened Alignment

  type Tokens = seq<int>

  class RadixTreeNode {
    ghost const path: Tokens
    var key: Tokens
    var value: seq<int>
    var parent: RadixTreeNode?
    var children: map<Tokens, RadixTreeNode>
    var refCount: int
    var mamba: Option<int>
    var mambaRef: int
    var timestamp: int

    constructor (ghost path: Tokens, key: Tokens, value: seq<int>, parent: RadixTreeNode?, timestamp: int)
      ensures this.path == path && Fields() == Rec(key, value, parent, map[], 0, None, 0)
      ensures this.timestamp == timestamp
    {
      this.path := path;
      this.key, this.value, this.parent := key, value, parent;
      children, refCount, mamba, mambaRef := map[], 0, None, 0;
      this.timestamp := timestamp;
    }

    ghost function Fields(): Rec
      reads this
    {
      Rec(key, value, parent, children, refCount, mamba, mambaRef)
    }

    /** Inserts a new parent that takes the first pos tokens of this node's edge. */
    method SplitAt(pos: nat, ps: nat) returns (m: RadixTreeNode)
      requires 0 < pos < |key| == |value| && |key| <= |path|
      requires parent != null && parent != this
      modifies `key, `value, `parent, parent`children
      ensures fresh(m) && m.path == path[..|path| - old(|key|) + pos] && m.timestamp == timestamp == old(timestamp)
      ensures m.Fields() == Rec(old(key[..pos]), old(value[..pos]), old(parent),
                                map[FirstPage(old(key[pos..]), ps) := this], old(refCount), None, 0)
      ensures Fields() == old(Fields()).(key := old(key[pos..]), value := old(value[pos..]), parent := m)
      ensures old(parent).Fields()
           == old(parent.Fields()).(children := old(parent.children)[FirstPage(old(key[..pos]), ps) := m])
    {
      m := new RadixTreeNode(path[..|path| - |key| + pos], key[..pos], value[..pos], parent, timestamp);
      parent.children := parent.children[FirstPage(m.key, ps) := m];
      m.refCount := refCount;
      key, value := key[pos..], value[pos..];
      parent := m;
      m.children := m.children[FirstPage(key, ps) := this];
    }
  }

  datatype Rec = Rec(key: Tokens, value: seq<int>, parent: RadixTreeNode?,
                     children: map<Tokens, RadixTreeNode>,
                     refCount: int, mamba: Option<int>, mambaRef: int)

  type Tree = map<RadixTreeNode, Rec>

  /** The key function: the first page of a token sequence. */
  function FirstPage(s: Tokens, ps: nat): Tokens {
    if |s| <= ps then s else s[..ps]
  }

  // ---------------------------------------------------------------- well-formed trees

  /** Length of the path of n's parent. */
  ghost function Base(t: Tree, n: RadixTreeNode): int
    requires n in t
  {
    |n.path| - |t[n].key|
  }

  /** The path of n cut after the first page of its edge. */
  ghost function Head(t: Tree, n: RadixTreeNode, ps: nat): Tokens
    requires n in t
  {
    if 0 <= Base(t, n) + ps <= |n.path| then n.path[..Base(t, n) + ps] else n.path
  }

  ghost predicate NodeOk(t: Tree, root: RadixTreeNode, ps: nat, n: RadixTreeNode)
    requires n in t && ps > 0
  {
    && Aligned(|n.path|, ps)
    && |t[n].key| == |t[n].value|
    && (n == root ==> n.path == [] && t[n].key == [] && t[n].parent == null && t[n].mamba.None?)
    && (n != root ==>
          && t[n].key != []
          && t[n].parent != null && t[n].parent in t
          && n.path == t[n].parent.path + t[n].key)
  }

  ghost predicate ChildLink(t: Tree, root: RadixTreeNode, ps: nat, n: RadixTreeNode)
    requires n in t
  {
    n != root ==>
      && t[n].parent != null && t[n].parent in t
      && FirstPage(t[n].key, ps) in t[t[n].parent].children
      && t[t[n].parent].children[FirstPage(t[n].key, ps)] == n
  }

  ghost predicate ChildrenOk(t: Tree, root: RadixTreeNode, ps: nat, p: RadixTreeNode)
    requires p in t
  {
    forall k | k in t[p].children ::
      && t[p].children[k] in t
      && t[p].children[k] != root
      && t[t[p].children[k]].parent == p
      && FirstPage(t[t[p].children[k]].key, ps) == k
  }

  /** If b shares the first page of a's edge, then b shares the whole edge. */
  ghost predicate OwnsEdge(t: Tree, root: RadixTreeNode, ps: nat, a: RadixTreeNode, b: RadixTreeNode)
    requires a in t
  {
    a != root && Head(t, a, ps) <= b.path ==> a.path <= b.path
  }

  ghost predicate SamePathSameNode(t: Tree, a: RadixTreeNode, b: RadixTreeNode) {
    a.path == b.path ==> a == b
  }

  ghost predicate WF(t: Tree, root: RadixTreeNode, ps: nat) {
    && ps > 0
    && root in t
    && (forall n {:trigger NodeOk(t, root, ps, n)} | n in t :: NodeOk(t, root, ps, n))
    && (forall n {:trigger ChildLink(t, root, ps, n)} | n in t :: ChildLink(t, root, ps, n))
    && (forall n {:trigger ChildrenOk(t, root, ps, n)} | n in t :: ChildrenOk(t, root, ps, n))
    && (forall a, b {:trigger OwnsEdge(t, root, ps, a, b)} | a in t && b in t :: OwnsEdge(t, root, ps, a, b))
    && (forall a, b {:trigger SamePathSameNode(t, a, b)} | a in t && b in t :: SamePathSameNode(t, a, b))
  }

  /** The parent's end is a page boundary, and so is the edge's length. */
  lemma BaseFacts(t: Tree, root: RadixTreeNode, ps: nat, n: RadixTreeNode)
    requires WF(t, root, ps) && n in t && n != root
    ensures t[n].parent != null && t[n].parent in t
    ensures Base(t, n) == |t[n].parent.path| && Aligned(Base(t, n), ps)
    ensures Base(t, n) + ps <= |n.path|
    ensures t[n].parent.path == n.path[..Base(t, n)] && t[n].key == n.path[Base(t, n)..]
    ensures Head(t, n, ps) == t[n].parent.path + FirstPage(t[n].key, ps)
    ensures Aligned(|t[n].key|, ps)
  {
    assert NodeOk(t, root, ps, n) && NodeOk(t, root, ps, t[n].parent);
    AlignedGap(Base(t, n), |n.path|, ps);
    AlignedSub(|n.path|, Base(t, n), ps);
  }

  /** A node on the way to b, other than b, is on the way to b's parent. */
  lemma AboveParent(t: Tree, root: RadixTreeNode, ps: nat, a: RadixTreeNode, b: RadixTreeNode)
    requires WF(t, root, ps) && a in t && b in t && b != root && a != b && a.path <= b.path
    ensures t[b].parent != null && t[b].parent in t && a.path <= t[b].parent.path
  {
    BaseFacts(t, root, ps, b);
    assert NodeOk(t, root, ps, a);
    assert a.path == b.path[..|a.path|];
    assert OwnsEdge(t, root, ps, b, a) && SamePathSameNode(t, a, b);
    if |a.path| > Base(t, b) {
      AlignedGap(Base(t, b), |a.path|, ps);
      assert false;
    }
  }

  /** A node strictly above b has a child on the way to b. */
  lemma ChildToward(t: Tree, root: RadixTreeNode, ps: nat, p: RadixTreeNode, b: RadixTreeNode)
    requires WF(t, root, ps) && p in t && b in t && p != b && p.path <= b.path
    ensures |p.path| + ps <= |b.path|
    ensures var k := FirstPage(b.path[|p.path|..], ps);
      k in t[p].children && t[p].children[k].path <= b.path
    decreases |b.path|
  {
    assert NodeOk(t, root, ps, p) && NodeOk(t, root, ps, b) && NodeOk(t, root, ps, root);
    assert SamePathSameNode(t, p, b);
    AlignedLess(p.path, b.path, ps);
    AboveParent(t, root, ps, p, b);
    BaseFacts(t, root, ps, b);
    var q := t[b].parent;
    if q == p {
      assert ChildLink(t, root, ps, b);
      assert b.path[|p.path|..] == t[b].key;
    } else {
      ChildToward(t, root, ps, p, q);
      assert FirstPage(q.path[|p.path|..], ps) == FirstPage(b.path[|p.path|..], ps) by {
        assert q.path == b.path[..|q.path|];
      }
    }
  }

  lemma AlignedLess(a: Tokens, b: Tokens, ps: nat)
    requires Aligned(|a|, ps) && Aligned(|b|, ps) && a <= b && a != b
    ensures |a| + ps <= |b|
  {
    assert a == b[..|a|];
    AlignedGap(|a|, |b|, ps);
  }

  // ---------------------------------------------------------------- what the tree stores

  /** The page ending where p ends lies on n's edge. */
  ghost predicate Owns(t: Tree, ps: nat, n: RadixTreeNode, p: Tokens) {
    n in t && Aligned(|p|, ps) && 0 <= Base(t, n) < |p| && p <= n.path
  }

  /** The KV indices n stores for that page. */
  ghost function PageValue(t: Tree, ps: nat, n: RadixTreeNode, p: Tokens): seq<int>
    requires n in t
  {
    var hi := |p| - Base(t, n);
    if 0 <= hi - ps <= hi <= |t[n].value| then t[n].value[hi - ps..hi] else []
  }

  lemma OwnerUnique(t: Tree, root: RadixTreeNode, ps: nat, a: RadixTreeNode, b: RadixTreeNode, p: Tokens)
    requires WF(t, root, ps) && Owns(t, ps, a, p) && Owns(t, ps, b, p)
    ensures a == b
  {
    HeadWithin(t, root, ps, a, p);
    HeadWithin(t, root, ps, b, p);
    assert OwnsEdge(t, root, ps, a, b) && OwnsEdge(t, root, ps, b, a);
    assert SamePathSameNode(t, a, b);
  }

  lemma HeadWithin(t: Tree, root: RadixTreeNode, ps: nat, n: RadixTreeNode, p: Tokens)
    requires WF(t, root, ps) && Owns(t, ps, n, p)
    ensures n != root && Head(t, n, ps) <= p && Base(t, n) + ps <= |p|
  {
    assert NodeOk(t, root, ps, n);
    BaseFacts(t, root, ps, n);
    AlignedGap(Base(t, n), |p|, ps);
    assert p == n.path[..|p|];
  }

  ghost function PageKeys(t: Tree, ps: nat): set<Tokens> {
    set n, i | n in t && 0 <= i <= |n.path| && Owns(t, ps, n, n.path[..i]) :: n.path[..i]
  }

  ghost function Owner(t: Tree, ps: nat, p: Tokens): RadixTreeNode
    requires p in PageKeys(t, ps)
    ensures Owns(t, ps, Owner(t, ps, p), p)
  {
    var n :| Owns(t, ps, n, p);
    n
  }

  /** The KV currency: page-aligned token sequence to the KV indices of its last page. */
  ghost function Pages(t: Tree, ps: nat): map<Tokens, seq<int>> {
    map p | p in PageKeys(t, ps) :: PageValue(t, ps, Owner(t, ps, p), p)
  }

  ghost predicate Live(t: Tree, n: RadixTreeNode) {
    n in t && t[n].mamba.Some?
  }

  ghost function SnapKeys(t: Tree): set<Tokens> {
    set n | n in t && Live(t, n) :: n.path
  }

  ghost function Holder(t: Tree, p: Tokens): RadixTreeNode
    requires p in SnapKeys(t)
    ensures Live(t, Holder(t, p)) && Holder(t, p).path == p
  {
    var n :| n in t && Live(t, n) && n.path == p;
    n
  }

  /** The snapshot currency: token sequence to the state slot checkpointed at its end. */
  ghost function Snaps(t: Tree): map<Tokens, int> {
    map p | p in SnapKeys(t) :: t[Holder(t, p)].mamba.value
  }

  lemma PagesAt(t: Tree, root: RadixTreeNode, ps: nat, n: RadixTreeNode, p: Tokens)
    requires WF(t, root, ps) && Owns(t, ps, n, p)
    ensures p in Pages(t, ps) && Pages(t, ps)[p] == PageValue(t, ps, n, p)
  {
    assert p == n.path[..|p|];
    OwnerUnique(t, root, ps, n, Owner(t, ps, p), p);
  }

  lemma SnapsAt(t: Tree, root: RadixTreeNode, ps: nat, n: RadixTreeNode)
    requires WF(t, root, ps) && Live(t, n)
    ensures n.path in Snaps(t) && Snaps(t)[n.path] == t[n].mamba.value
  {
    assert SamePathSameNode(t, n, Holder(t, n.path));
  }

  /** Two trees that store the same page under every key are equal as page maps. */
  lemma SamePages(t: Tree, t': Tree, root: RadixTreeNode, ps: nat)
    requires WF(t, root, ps) && WF(t', root, ps)
    requires forall n, p {:trigger Owns(t, ps, n, p)} | Owns(t, ps, n, p) ::
               exists n' :: Owns(t', ps, n', p) && PageValue(t', ps, n', p) == PageValue(t, ps, n, p)
    requires forall n, p {:trigger Owns(t', ps, n, p)} | Owns(t', ps, n, p) :: exists n' :: Owns(t, ps, n', p)
    ensures Pages(t', ps) == Pages(t, ps)
  {
    forall p | p in Pages(t, ps)
      ensures p in Pages(t', ps) && Pages(t', ps)[p] == Pages(t, ps)[p]
    {
      var n := Owner(t, ps, p);
      var n' :| Owns(t', ps, n', p) && PageValue(t', ps, n', p) == PageValue(t, ps, n, p);
      PagesAt(t', root, ps, n', p);
    }
    forall p | p in Pages(t', ps)
      ensures p in Pages(t, ps)
    {
      var n := Owner(t', ps, p);
      var n' :| Owns(t, ps, n', p);
      PagesAt(t, root, ps, n', p);
    }
  }

  /** Every page boundary on the way to a node has its page stored. */
  lemma {:induction false} PrefixStored(t: Tree, root: RadixTreeNode, ps: nat, n: RadixTreeNode, p: Tokens)
    returns (o: RadixTreeNode)
    requires WF(t, root, ps) && n in t && p <= n.path && p != [] && Aligned(|p|, ps)
    ensures Owns(t, ps, o, p) && o.path <= n.path
    decreases |n.path|
  {
    assert NodeOk(t, root, ps, n);
    BaseFacts(t, root, ps, n);
    if |p| > Base(t, n) {
      o := n;
    } else {
      assert p == n.path[..|p|];
      o := PrefixStored(t, root, ps, t[n].parent, p);
    }
  }

  // ---------------------------------------------------------------- sums over the tree

  /** Sum of a per-node weight. */
  ghost function Total(t: Tree, f: Rec -> int): int {
    if t == map[] then 0 else
    var n :| n in t;
    f(t[n]) + Total(t - {n}, f)
  }

  lemma {:induction false} TotalRemove(t: Tree, f: Rec -> int, n: RadixTreeNode)
    requires n in t
    ensures Total(t, f) == f(t[n]) + Total(t - {n}, f)
    decreases |t|
  {
    var m :| m in t && Total(t, f) == f(t[m]) + Total(t - {m}, f);
    if m != n {
      TotalRemove(t - {m}, f, n);
      TotalRemove(t - {n}, f, m);
      assert t - {m} - {n} == t - {n} - {m};
    }
  }

  lemma TotalUpdate(t: Tree, f: Rec -> int, n: RadixTreeNode, r: Rec)
    ensures Total(t[n := r], f) == Total(t, f) - (if n in t then f(t[n]) else 0) + f(r)
  {
    TotalRemove(t[n := r], f, n);
    if n in t {
      TotalRemove(t, f, n);
      assert t[n := r] - {n} == t - {n};
    } else {
      assert t[n := r] - {n} == t;
    }
  }

  lemma {:induction false} TotalNonNeg(t: Tree, f: Rec -> int)
    requires forall n | n in t :: f(t[n]) >= 0
    ensures Total(t, f) >= 0
    decreases |t|
  {
    if t != map[] {
      var n :| n in t;
      TotalRemove(t, f, n);
      TotalNonNeg(t - {n}, f);
    }
  }

  function FreeTokens(r: Rec): int { if r.refCount == 0 then |r.key| else 0 }
  function HeldTokens(r: Rec): int { if r.refCount == 0 then 0 else |r.key| }
  function FreeSlots(r: Rec): int { if r.mamba.Some? && r.mambaRef == 0 then 1 else 0 }
  function HeldSlots(r: Rec): int { if r.mamba.Some? && r.mambaRef != 0 then 1 else 0 }
}
