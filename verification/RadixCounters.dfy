/**
What the cached sizes mean to a user who only sees the two maps and the locks: the evictable size is
the number of tokens on stored pages no lock reaches, and the evictable snapshots are the unlocked ones.
*/
module RadixCounters {
  import opened Alignment
  import opened RadixTree
  import opened RadixSteps
  import opened RadixLocks
  import opened RadixEvict

  /** The stored pages that no lock protects. */
  ghost function UnlockedPages(pages: map<Tokens, seq<int>>, locks: seq<Tokens>): set<Tokens> {
    set q | q in pages && !Protected(locks, q)
  }

  ghost predicate Protected(locks: seq<Tokens>, q: Tokens) {
    exists l :: l in locks && q <= l
  }

  /** The keys of the pages owned by unlocked nodes among those of s. */
  ghost function FreeKeys(s: Tree, ps: nat): set<Tokens> {
    set n, i | n in s && s[n].refCount == 0 && 0 <= i <= |n.path| && Owns(s, ps, n, n.path[..i]) :: n.path[..i]
  }

  lemma {:induction false} EdgeKeysCount(path: Tokens, base: nat, end: nat, ps: nat)
    requires Aligned(base, ps) && Aligned(end, ps) && base <= end <= |path| && ps > 0
    ensures ps * |EdgeKeysUpTo(path, base, end, ps)| == end - base
    decreases end
  {
    if base == end {
      assert EdgeKeysUpTo(path, base, end, ps) == {};
    } else {
      AlignedGap(base, end, ps);
      AlignedSub(end, ps, ps);
      LastEdgeKey(path, base, end, ps);
      EdgeKeysCount(path, base, end - ps, ps);
      var before := EdgeKeysUpTo(path, base, end - ps, ps);
      assert path[..end] !in before;
      Distribute(ps, |before|, 1);
    }
  }

  lemma Distribute(a: int, b: int, c: int)
    ensures a * (b + c) == a * b + a * c
  {
  }

  lemma {:induction false} FreeKeysCount(t: Tree, root: RadixTreeNode, ps: nat, s: Tree)
    requires WF(t, root, ps) && Submap(s, t)
    ensures Total(s, FreeTokens) == ps * |FreeKeys(s, ps)|
    decreases |s|
  {
    if s == map[] {
      assert FreeKeys(s, ps) == {};
    } else {
      var n :| n in s;
      var s' := s - {n};
      FreeKeysCount(t, root, ps, s');
      TotalRemove(s, FreeTokens, n);
      NodeKeys(t, root, ps, n);
      assert 0 <= Base(t, n);
      var own := if s[n].refCount == 0 then EdgeKeys(t, ps, n) else {};
      FreeKeysSplit(t, root, ps, s, n);
      DisjointCount(FreeKeys(s', ps), own, ps);
    }
  }

  lemma DisjointCount(a: set<Tokens>, b: set<Tokens>, ps: nat)
    requires a !! b
    ensures ps * |a + b| == ps * |a| + ps * |b|
  {
    assert |a + b| == |a| + |b|;
    Distribute(ps, |a|, |b|);
  }

  /** A node's edge holds as many tokens as its pages. */
  lemma NodeKeys(t: Tree, root: RadixTreeNode, ps: nat, n: RadixTreeNode)
    requires WF(t, root, ps) && n in t
    ensures 0 <= Base(t, n) && ps * |EdgeKeys(t, ps, n)| == |t[n].key|
    ensures forall q :: q in EdgeKeys(t, ps, n) <==> Owns(t, ps, n, q)
  {
    assert NodeOk(t, root, ps, n);
    if n == root {
      assert EdgeKeys(t, ps, n) == {};
    } else {
      BaseFacts(t, root, ps, n);
      EdgeKeysCount(n.path, Base(t, n), |n.path|, ps);
      forall q ensures q in EdgeKeys(t, ps, n) <==> Owns(t, ps, n, q) { EdgeKeyOwned(t, root, ps, n, q); }
    }
  }

  lemma FreeKeysSplit(t: Tree, root: RadixTreeNode, ps: nat, s: Tree, n: RadixTreeNode)
    requires WF(t, root, ps) && Submap(s, t) && n in s && 0 <= Base(t, n)
    requires forall q :: q in EdgeKeys(t, ps, n) <==> Owns(t, ps, n, q)
    ensures var own := if s[n].refCount == 0 then EdgeKeys(t, ps, n) else {};
      FreeKeys(s, ps) == FreeKeys(s - {n}, ps) + own && FreeKeys(s - {n}, ps) !! own
  {
    var s' := s - {n};
    var own := if s[n].refCount == 0 then EdgeKeys(t, ps, n) else {};
    forall q | q in FreeKeys(s, ps) ensures q in FreeKeys(s', ps) + own { FreeKeyOf(t, s, ps, n, q); }
    forall q | q in FreeKeys(s', ps) ensures q in FreeKeys(s, ps) && q !in own { FreeKeyApart(t, root, s, ps, n, q); }
    forall q | q in own ensures q in FreeKeys(s, ps) {
      assert q == n.path[..|q|] && Owns(s, ps, n, q);
    }
  }

  lemma FreeKeyOf(t: Tree, s: Tree, ps: nat, n: RadixTreeNode, q: Tokens)
    requires Submap(s, t) && n in s && q in FreeKeys(s, ps)
    ensures q in FreeKeys(s - {n}, ps) || (s[n].refCount == 0 && Owns(t, ps, n, q))
  {
    var x, i :| x in s && s[x].refCount == 0 && 0 <= i <= |x.path| && Owns(s, ps, x, x.path[..i]) && q == x.path[..i];
    if x != n { assert Owns(s - {n}, ps, x, x.path[..i]); }
  }

  lemma FreeKeyApart(t: Tree, root: RadixTreeNode, s: Tree, ps: nat, n: RadixTreeNode, q: Tokens)
    requires WF(t, root, ps) && Submap(s, t) && n in s && q in FreeKeys(s - {n}, ps)
    ensures q in FreeKeys(s, ps) && !Owns(t, ps, n, q)
  {
    var s' := s - {n};
    var x, i :| x in s' && s'[x].refCount == 0 && 0 <= i <= |x.path| && Owns(s', ps, x, x.path[..i])
      && q == x.path[..i];
    assert Owns(s, ps, x, x.path[..i]) && Owns(t, ps, x, q);
    if Owns(t, ps, n, q) { OwnerUnique(t, root, ps, n, x, q); assert false; }
  }

  /** A page is protected exactly when its node is locked. */
  lemma ProtectedIffLocked(t: Tree, root: RadixTreeNode, ps: nat, locks: seq<Tokens>, n: RadixTreeNode, q: Tokens)
    requires Inv(t, root, ps, locks) && Owns(t, ps, n, q)
    ensures Protected(locks, q) <==> t[n].refCount != 0
  {
    HeadWithin(t, root, ps, n, q);
    assert LockOk(t, root, locks, n);
    CountsSeen(locks, n.path);
    forall l | l in locks && q <= l ensures n.path <= l {
      assert OwnsEdge(t, root, ps, n, Holder(t, l));
    }
  }

  /** The evictable size counts the tokens of the pages that no lock protects. */
  lemma EvictableMeans(t: Tree, root: RadixTreeNode, ps: nat, locks: seq<Tokens>)
    requires Inv(t, root, ps, locks)
    ensures Sums(t).fullEvictable == ps * |UnlockedPages(Pages(t, ps), locks)|
  {
    FreeKeysCount(t, root, ps, t);
    forall q | q in FreeKeys(t, ps) ensures q in UnlockedPages(Pages(t, ps), locks) {
      FreeKeyUnlocked(t, root, ps, locks, q);
    }
    forall q | q in UnlockedPages(Pages(t, ps), locks) ensures q in FreeKeys(t, ps) {
      var o := Owner(t, ps, q);
      ProtectedIffLocked(t, root, ps, locks, o, q);
      assert q == o.path[..|q|];
    }
    assert FreeKeys(t, ps) == UnlockedPages(Pages(t, ps), locks);
  }

  lemma FreeKeyUnlocked(t: Tree, root: RadixTreeNode, ps: nat, locks: seq<Tokens>, q: Tokens)
    requires Inv(t, root, ps, locks) && q in FreeKeys(t, ps)
    ensures q in UnlockedPages(Pages(t, ps), locks)
  {
    var x, i :| x in t && t[x].refCount == 0 && 0 <= i <= |x.path| && Owns(t, ps, x, x.path[..i]) && q == x.path[..i];
    ProtectedIffLocked(t, root, ps, locks, x, q);
    PagesAt(t, root, ps, x, q);
  }

  /** The snapshots that no lock protects. */
  ghost function UnlockedSnaps(snaps: map<Tokens, int>, locks: seq<Tokens>): set<Tokens> {
    set p | p in snaps && p !in locks
  }

  ghost function FreeEnds(s: Tree): set<Tokens> {
    set n | n in s && FreeSlots(s[n]) == 1 :: n.path
  }

  lemma {:induction false} FreeEndsCount(t: Tree, root: RadixTreeNode, ps: nat, s: Tree)
    requires WF(t, root, ps) && Submap(s, t)
    ensures Total(s, FreeSlots) == |FreeEnds(s)|
    decreases |s|
  {
    if s == map[] {
      assert FreeEnds(s) == {};
    } else {
      var n :| n in s;
      FreeEndsCount(t, root, ps, s - {n});
      TotalRemove(s, FreeSlots, n);
      forall x | x in s - {n} ensures x.path != n.path { assert SamePathSameNode(t, x, n); }
      if FreeSlots(s[n]) == 1 {
        assert FreeEnds(s) == FreeEnds(s - {n}) + {n.path};
        assert n.path !in FreeEnds(s - {n});
      } else {
        assert FreeEnds(s) == FreeEnds(s - {n});
      }
    }
  }

  /** The evictable snapshots are the stored ones that are not locked. */
  lemma EvictableSnapsMean(t: Tree, root: RadixTreeNode, ps: nat, locks: seq<Tokens>)
    requires Inv(t, root, ps, locks)
    ensures Sums(t).mambaEvictable == |UnlockedSnaps(Snaps(t), locks)|
  {
    FreeEndsCount(t, root, ps, t);
    forall n | n in t && FreeSlots(t[n]) == 1 ensures n.path in UnlockedSnaps(Snaps(t), locks) {
      assert LockOk(t, root, locks, n) && NodeOk(t, root, ps, root);
      CountsSeen(locks, n.path);
      SnapsAt(t, root, ps, n);
    }
    forall p | p in UnlockedSnaps(Snaps(t), locks) ensures p in FreeEnds(t) {
      var h := Holder(t, p);
      assert LockOk(t, root, locks, h) && NodeOk(t, root, ps, root);
      CountsSeen(locks, p);
    }
    assert FreeEnds(t) == UnlockedSnaps(Snaps(t), locks);
  }
}
