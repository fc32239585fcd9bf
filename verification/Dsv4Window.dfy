/**
The window tier of the paged pool as a value: the mapping from full-token locations to window slots and the free list
of window pages, and what binding and freeing pages do to the partition of the pool.
*/
module Dsv4Window {
  import opened Alignment
  import opened Arithmetic

  /** `mapping` has one entry per full location and a last one that is the target of gathers at -1. */
  datatype Pool = Pool(P: nat, fullToken: nat, nWinSlots: nat, mapping: seq<int>, free: seq<nat>)

  // ---------------------------------------------------------------- page bases

  /** The page bases below a whole number of pages. */
  ghost predicate Base(b: int, P: nat, end: nat) {
    0 <= b && b + P <= end && Aligned(b, P)
  }

  /** Different pages do not overlap. */
  lemma PagesApart(a: nat, b: nat, P: nat)
    requires Aligned(a, P) && Aligned(b, P) && P > 0 && a != b
    ensures a + P <= b || b + P <= a
  {
    if a < b { AlignedGap(a, b, P); } else { AlignedGap(b, a, P); }
  }

  // ---------------------------------------------------------------- the invariant

  ghost predicate Shape(p: Pool) {
    && p.P > 0 && p.fullToken >= p.P && p.nWinSlots >= p.P
    && Aligned(p.fullToken, p.P) && Aligned(p.nWinSlots, p.P)
    && |p.mapping| == p.fullToken + 1
  }

  /** A full page is wholly unbound, or bound offset for offset to one window page. */
  ghost predicate PageOk(p: Pool, b: int)
    requires Shape(p) && Base(b, p.P, p.fullToken)
  {
    if p.mapping[b] < 0 then forall k {:trigger p.mapping[k]} | b <= k < b + p.P :: p.mapping[k] == -1
    else Base(p.mapping[b], p.P, p.nWinSlots)
         && forall k {:trigger p.mapping[k]} | b <= k < b + p.P :: p.mapping[k] == p.mapping[b] + (k - b)
  }

  /** Some full page is bound to this window page. */
  ghost predicate Bound(p: Pool, w: int)
    requires Shape(p)
  {
    exists b {:trigger p.mapping[b]} :: Base(b, p.P, p.fullToken) && p.mapping[b] == w
  }

  /** The window page has exactly one owner: the free list or a full page. */
  ghost predicate Owned(p: Pool, w: int)
    requires Shape(p)
  {
    w in p.free <==> !Bound(p, w)
  }

  ghost predicate Dummy(p: Pool)
    requires Shape(p)
  {
    p.mapping[p.fullToken - p.P] == p.nWinSlots - p.P
  }

  ghost predicate Injective(p: Pool)
    requires Shape(p)
  {
    forall b, c {:trigger p.mapping[b], p.mapping[c]} |
      Base(b, p.P, p.fullToken) && Base(c, p.P, p.fullToken) && p.mapping[b] == p.mapping[c] && p.mapping[b] >= 0 ::
      b == c
  }

  /**
  Free window pages, bound window pages and the dummy page partition the pool; the binding is whole pages, injective;
  the last entry of the mapping is -1.
  */
  ghost predicate Inv(p: Pool) {
    && Shape(p) && p.mapping[p.fullToken] == -1 && Dummy(p)
    && (forall b {:trigger PageOk(p, b)} | Base(b, p.P, p.fullToken) :: PageOk(p, b))
    && Injective(p) && Distinct(p.free)
    && (forall w {:trigger Owned(p, w)} | Base(w, p.P, p.nWinSlots) :: Owned(p, w))
    && (forall w <- p.free :: Base(w, p.P, p.nWinSlots))
  }

  // ---------------------------------------------------------------- binding pages

  /** One page of the mapping, overwritten. */
  function Write(m: seq<int>, b: nat, P: nat, w: int): (r: seq<int>)
    requires b + P <= |m|
    ensures |r| == |m|
    ensures forall i | 0 <= i < |m| :: r[i] == if b <= i < b + P then (if w < 0 then -1 else w + (i - b)) else m[i]
  {
    seq(|m|, i requires 0 <= i < |m| => if b <= i < b + P then (if w < 0 then -1 else w + (i - b)) else m[i])
  }

  /** Pages bound in turn, page k to taken[k]. */
  function BindAll(m: seq<int>, pages: seq<nat>, P: nat, taken: seq<nat>): (r: seq<int>)
    requires |pages| == |taken| && forall j | 0 <= j < |pages| :: pages[j] + P <= |m|
    ensures |r| == |m|
  {
    if pages == [] then m
    else
      var n := |pages| - 1;
      Write(BindAll(m, pages[..n], P, taken[..n]), pages[n], P, taken[n])
  }

  ghost predicate Pages(p: Pool, pages: seq<nat>) {
    forall j | 0 <= j < |pages| :: Base(pages[j], p.P, p.fullToken)
  }

  /** Rows that lie inside the mapping, wherever they begin. */
  ghost predicate Inside(p: Pool, bases: seq<nat>) {
    forall j | 0 <= j < |bases| :: bases[j] + p.P <= |p.mapping|
  }

  /** Takes window pages from the end of the free list and binds them. */
  ghost function Alloc(p: Pool, pages: seq<nat>): (r: Pool)
    requires Shape(p) && Inside(p, pages) && |pages| <= |p.free|
    ensures Shape(r)
  {
    var at := |p.free| - |pages|;
    p.(mapping := BindAll(p.mapping, pages, p.P, p.free[at..]), free := p.free[..at])
  }

  /** Position of the last occurrence. */
  ghost function LastAt(pages: seq<nat>, b: nat): (j: nat)
    requires b in pages
    ensures j < |pages| && pages[j] == b && forall k | j < k < |pages| :: pages[k] != b
  {
    if pages[|pages| - 1] == b then |pages| - 1 else LastAt(pages[..|pages| - 1], b)
  }

  /** After binding, a page listed is bound to what its last listing took; other entries are untouched. */
  lemma {:induction false} BindAllAt(m: seq<int>, pages: seq<nat>, P: nat, taken: seq<nat>, b: nat, i: nat)
    requires |pages| == |taken| && P > 0 && i < P && Aligned(b, P) && b + P <= |m|
    requires forall j | 0 <= j < |pages| :: pages[j] + P <= |m| && Aligned(pages[j], P)
    ensures BindAll(m, pages, P, taken)[b + i] == if b in pages then taken[LastAt(pages, b)] + i else m[b + i]
    decreases |pages|
  {
    if pages != [] {
      var n := |pages| - 1;
      BindAllAt(m, pages[..n], P, taken[..n], b, i);
      if pages[n] != b { PagesApart(pages[n], b, P); }
    }
  }

  lemma {:induction false} BindAllOutside(m: seq<int>, pages: seq<nat>, P: nat, taken: seq<nat>, end: nat, k: nat)
    requires |pages| == |taken| && end <= k < |m| && forall j | 0 <= j < |pages| :: pages[j] + P <= end
    ensures BindAll(m, pages, P, taken)[k] == m[k]
    decreases |pages|
  {
    if pages != [] { BindAllOutside(m, pages[..|pages| - 1], P, taken[..|pages| - 1], end, k); }
  }

  // ---------------------------------------------------------------- when binding keeps the partition

  ghost predicate Fresh(p: Pool, pages: seq<nat>)
    requires Shape(p) && Pages(p, pages)
  {
    Distinct(pages) && forall j | 0 <= j < |pages| :: p.mapping[pages[j]] < 0
  }

  /** The mapping after binding, page by page. */
  lemma AllocAt(p: Pool, pages: seq<nat>, b: nat)
    requires Shape(p) && Pages(p, pages) && |pages| <= |p.free| && Base(b, p.P, p.fullToken)
    ensures var at, q := |p.free| - |pages|, Alloc(p, pages);
            forall k {:trigger q.mapping[k]} | b <= k < b + p.P ::
              q.mapping[k] == if b in pages then p.free[at + LastAt(pages, b)] + (k - b) else p.mapping[k]
  {
    var at := |p.free| - |pages|;
    forall k | b <= k < b + p.P
      ensures Alloc(p, pages).mapping[k] == if b in pages then p.free[at + LastAt(pages, b)] + (k - b) else p.mapping[k]
    {
      BindAllAt(p.mapping, pages, p.P, p.free[at..], b, k - b);
    }
  }

  /** Pages listed once have only one listing. */
  lemma OnlyListing(pages: seq<nat>, j: nat)
    requires Distinct(pages) && j < |pages|
    ensures pages[j] in pages && LastAt(pages, pages[j]) == j
  {
    var l := LastAt(pages, pages[j]);
  }

  /** Binding distinct, unbound pages keeps the invariant. */
  lemma AllocKeeps(p: Pool, pages: seq<nat>)
    requires Inv(p) && Pages(p, pages) && |pages| <= |p.free| && Fresh(p, pages)
    ensures Inv(Alloc(p, pages))
  {
    var q := Alloc(p, pages);
    BindAllOutside(p.mapping, pages, p.P, p.free[|p.free| - |pages|..], p.fullToken, p.fullToken);
    AllocDummy(p, pages);
    forall b {:trigger PageOk(q, b)} | Base(b, q.P, q.fullToken) ensures PageOk(q, b) { AllocPageOk(p, pages, b); }
    AllocInjective(p, pages);
    forall w {:trigger Owned(q, w)} | Base(w, q.P, q.nWinSlots) ensures Owned(q, w) { AllocOwned(p, pages, w); }
  }

  lemma AllocDummy(p: Pool, pages: seq<nat>)
    requires Inv(p) && Pages(p, pages) && |pages| <= |p.free| && Fresh(p, pages)
    ensures Dummy(Alloc(p, pages))
  {
    var b: nat := p.fullToken - p.P;
    LastPage(p);
    AllocAt(p, pages, b);
  }

  lemma LastPage(p: Pool)
    requires Shape(p)
    ensures Base(p.fullToken - p.P, p.P, p.fullToken) && Base(p.nWinSlots - p.P, p.P, p.nWinSlots)
  {
    AlignedSub(p.fullToken, p.P, p.P);
    AlignedSub(p.nWinSlots, p.P, p.P);
  }

  lemma AllocPageOk(p: Pool, pages: seq<nat>, b: nat)
    requires Inv(p) && Pages(p, pages) && |pages| <= |p.free| && Base(b, p.P, p.fullToken)
    ensures PageOk(Alloc(p, pages), b)
  {
    AllocAt(p, pages, b);
    assert PageOk(p, b);
    if b in pages { assert p.free[|p.free| - |pages| + LastAt(pages, b)] in p.free; }
  }

  /** What a page is bound to after binding: newly taken pages come from the free list, so they were nobody's. */
  lemma AllocBase(p: Pool, pages: seq<nat>, b: nat)
    requires Inv(p) && Pages(p, pages) && |pages| <= |p.free| && Base(b, p.P, p.fullToken)
    ensures var q, at := Alloc(p, pages), |p.free| - |pages|;
            if b in pages
            then q.mapping[b] == p.free[at + LastAt(pages, b)] && !Bound(p, q.mapping[b])
              && Base(q.mapping[b], p.P, p.nWinSlots)
            else q.mapping[b] == p.mapping[b]
  {
    AllocAt(p, pages, b);
    if b in pages {
      var w := p.free[|p.free| - |pages| + LastAt(pages, b)];
      assert w in p.free && Owned(p, w);
      assert Alloc(p, pages).mapping[b] == w;
    }
  }

  lemma AllocInjective(p: Pool, pages: seq<nat>)
    requires Inv(p) && Pages(p, pages) && |pages| <= |p.free|
    ensures Injective(Alloc(p, pages))
  {
    var q := Alloc(p, pages);
    forall b, c {:trigger q.mapping[b], q.mapping[c]} |
      Base(b, q.P, q.fullToken) && Base(c, q.P, q.fullToken) && q.mapping[b] == q.mapping[c] && q.mapping[b] >= 0
      ensures b == c
    {
      AllocBase(p, pages, b);
      AllocBase(p, pages, c);
      if b in pages && c !in pages { assert Bound(p, p.mapping[c]); }
      if c in pages && b !in pages { assert Bound(p, p.mapping[b]); }
    }
  }

  lemma AllocOwned(p: Pool, pages: seq<nat>, w: nat)
    requires Inv(p) && Pages(p, pages) && |pages| <= |p.free| && Fresh(p, pages) && Base(w, p.P, p.nWinSlots)
    ensures Owned(Alloc(p, pages), w)
  {
    var q, at := Alloc(p, pages), |p.free| - |pages|;
    assert Owned(p, w);
    if w in q.free {
      var i :| 0 <= i < at && p.free[i] == w;
      assert w in p.free;
      if Bound(q, w) {
        var b :| Base(b, q.P, q.fullToken) && q.mapping[b] == w;
        AllocBase(p, pages, b);
      }
    } else if w in p.free {
      var i :| 0 <= i < |p.free| && p.free[i] == w;
      assert q.free == p.free[..at];
      assert i >= at;
      OnlyListing(pages, i - at);
      AllocBase(p, pages, pages[i - at]);
      assert q.mapping[pages[i - at]] == w;
    } else {
      var b :| Base(b, p.P, p.fullToken) && p.mapping[b] == w;
      AllocBase(p, pages, b);
      assert q.mapping[b] == w;
    }
  }

  /** A page bound before, or listed twice, loses a window page: nothing owns it any more. */
  lemma AllocLoses(p: Pool, pages: seq<nat>)
    requires Inv(p) && Pages(p, pages) && |pages| <= |p.free| && !Fresh(p, pages)
    ensures exists w :: Base(w, p.P, p.nWinSlots) && !Owned(Alloc(p, pages), w)
  {
    var q, at := Alloc(p, pages), |p.free| - |pages|;
    if !Distinct(pages) {
      var i, j :| 0 <= i < j < |pages| && pages[i] == pages[j];
      var w := p.free[at + i];
      assert w in p.free;
      assert Owned(p, w);
      if Bound(q, w) {
        var b :| Base(b, q.P, q.fullToken) && q.mapping[b] == w;
        AllocBase(p, pages, b);
      }
      assert !Owned(q, w);
    } else {
      var j :| 0 <= j < |pages| && p.mapping[pages[j]] >= 0;
      var w := p.mapping[pages[j]];
      assert PageOk(p, pages[j]) && Bound(p, w) && Owned(p, w);
      if Bound(q, w) {
        var b :| Base(b, q.P, q.fullToken) && q.mapping[b] == w;
        AllocBase(p, pages, b);
      }
      assert !Owned(q, w);
    }
  }

  /** An entry after binding is what it was, or was written by some row. */
  lemma {:induction false} BindAllWrote(m: seq<int>, bases: seq<nat>, P: nat, taken: seq<nat>, i: nat)
    requires |bases| == |taken| && i < |m| && forall j | 0 <= j < |bases| :: bases[j] + P <= |m|
    ensures BindAll(m, bases, P, taken)[i] == m[i]
            || exists j :: 0 <= j < |bases| && bases[j] <= i < bases[j] + P
                 && BindAll(m, bases, P, taken)[i] == taken[j] + (i - bases[j])
    decreases |bases|
  {
    if bases != [] {
      var n := |bases| - 1;
      if !(bases[n] <= i < bases[n] + P) { BindAllWrote(m, bases[..n], P, taken[..n], i); }
    }
  }

  /** A row that is not a page takes a window page that no page is bound to: nothing owns it any more. */
  lemma AllocStray(p: Pool, bases: seq<nat>, j: nat)
    requires Inv(p) && Inside(p, bases) && |bases| <= |p.free|
    requires j < |bases| && !Base(bases[j], p.P, p.fullToken)
    ensures !Owned(Alloc(p, bases), p.free[|p.free| - |bases| + j])
  {
    var q, at := Alloc(p, bases), |p.free| - |bases|;
    var w := p.free[at + j];
    assert w in p.free && Owned(p, w) && !Bound(p, w);
    if Bound(q, w) {
      var b :| Base(b, q.P, q.fullToken) && q.mapping[b] == w;
      BindAllWrote(p.mapping, bases, p.P, p.free[at..], b);
      var k :| 0 <= k < |bases| && bases[k] <= b < bases[k] + p.P && w == p.free[at + k] + (b - bases[k]);
      assert p.free[at + k] in p.free;
      if k != j { PagesApart(p.free[at + k], w, p.P); }
    }
  }

  /** Binding keeps the partition exactly when the rows are distinct, unbound pages. */
  lemma AllocIff(p: Pool, bases: seq<nat>)
    requires Inv(p) && Inside(p, bases) && |bases| <= |p.free|
    ensures Inv(Alloc(p, bases)) <==> Pages(p, bases) && Fresh(p, bases)
  {
    if !Pages(p, bases) {
      var j :| 0 <= j < |bases| && !Base(bases[j], p.P, p.fullToken);
      AllocStray(p, bases, j);
      assert p.free[|p.free| - |bases| + j] in p.free;
    } else if Fresh(p, bases) {
      AllocKeeps(p, bases);
    } else {
      AllocLoses(p, bases);
    }
  }

  // ---------------------------------------------------------------- freeing pages

  function UnmapAll(m: seq<int>, bases: seq<nat>, P: nat): (r: seq<int>)
    requires forall j | 0 <= j < |bases| :: bases[j] + P <= |m|
    ensures |r| == |m|
  {
    if bases == [] then m
    else Write(UnmapAll(m, bases[..|bases| - 1], P), bases[|bases| - 1], P, -1)
  }

  /** The window pages behind the listed full pages, those that have one. */
  function Live(m: seq<int>, bases: seq<nat>, P: nat): seq<nat>
    requires P > 0 && forall j | 0 <= j < |bases| :: bases[j] < |m|
  {
    if bases == [] then []
    else
      var w := m[bases[|bases| - 1]];
      Live(m, bases[..|bases| - 1], P) + if w >= 0 then [AlignDown(w, P)] else []
  }

  ghost function Free(p: Pool, bases: seq<nat>): (r: Pool)
    requires Shape(p) && Pages(p, bases)
    ensures Shape(r)
  {
    p.(mapping := UnmapAll(p.mapping, bases, p.P), free := p.free + Live(p.mapping, bases, p.P))
  }

  lemma {:induction false} UnmapAllAt(m: seq<int>, bases: seq<nat>, P: nat, b: nat, i: nat)
    requires P > 0 && i < P && Aligned(b, P) && b + P <= |m|
    requires forall j | 0 <= j < |bases| :: bases[j] + P <= |m| && Aligned(bases[j], P)
    ensures UnmapAll(m, bases, P)[b + i] == if b in bases then -1 else m[b + i]
    decreases |bases|
  {
    if bases != [] {
      var n := |bases| - 1;
      UnmapAllAt(m, bases[..n], P, b, i);
      if bases[n] != b { PagesApart(bases[n], b, P); }
    }
  }

  lemma {:induction false} UnmapAllOutside(m: seq<int>, bases: seq<nat>, P: nat, end: nat, k: nat)
    requires end <= k < |m| && forall j | 0 <= j < |bases| :: bases[j] + P <= end
    ensures UnmapAll(m, bases, P)[k] == m[k]
    decreases |bases|
  {
    if bases != [] { UnmapAllOutside(m, bases[..|bases| - 1], P, end, k); }
  }

  lemma FreeAt(p: Pool, bases: seq<nat>, b: nat)
    requires Shape(p) && Pages(p, bases) && Base(b, p.P, p.fullToken)
    ensures forall k {:trigger Free(p, bases).mapping[k]} | b <= k < b + p.P ::
              Free(p, bases).mapping[k] == if b in bases then -1 else p.mapping[k]
  {
    forall k | b <= k < b + p.P ensures Free(p, bases).mapping[k] == if b in bases then -1 else p.mapping[k] {
      UnmapAllAt(p.mapping, bases, p.P, b, k - b);
    }
  }

  lemma {:induction false} AlignDownSame(n: nat, P: nat)
    requires P > 0 && Aligned(n, P)
    ensures AlignDown(n, P) == n
  {
    AlignDownIs(n, P);
    if AlignDown(n, P) < n { AlignedGap(AlignDown(n, P), n, P); }
  }

  /** The window pages returned are those the listed pages were bound to. */
  lemma {:induction false} LiveIff(p: Pool, bases: seq<nat>, w: nat)
    requires Inv(p) && Pages(p, bases)
    ensures w in Live(p.mapping, bases, p.P) <==> exists j :: 0 <= j < |bases| && p.mapping[bases[j]] == w
    decreases |bases|
  {
    if bases != [] {
      var n := |bases| - 1;
      LiveIff(p, bases[..n], w);
      assert PageOk(p, bases[n]);
      if p.mapping[bases[n]] >= 0 { AlignDownSame(p.mapping[bases[n]], p.P); }
      if w in Live(p.mapping, bases, p.P) && w in Live(p.mapping, bases[..n], p.P) {
        var j :| 0 <= j < n && p.mapping[bases[..n][j]] == w;
        assert p.mapping[bases[j]] == w;
      }
      if j :| 0 <= j < |bases| && p.mapping[bases[j]] == w {
        if j < n { assert bases[..n][j] == bases[j]; }
      }
    }
  }

  lemma {:induction false} LiveDistinct(p: Pool, bases: seq<nat>)
    requires Inv(p) && Pages(p, bases) && Distinct(bases)
    ensures Distinct(Live(p.mapping, bases, p.P))
    ensures forall w <- Live(p.mapping, bases, p.P) :: Base(w, p.P, p.nWinSlots) && Bound(p, w)
    decreases |bases|
  {
    if bases != [] {
      var n := |bases| - 1;
      var rest, w := Live(p.mapping, bases[..n], p.P), p.mapping[bases[n]];
      LiveDistinct(p, bases[..n]);
      assert PageOk(p, bases[n]);
      if w >= 0 {
        AlignDownSame(w, p.P);
        assert Bound(p, w);
        if w in rest {
          LiveIff(p, bases[..n], w);
        }
      }
    }
  }

  /** Freeing distinct pages other than the dummy keeps the invariant. */
  lemma FreeKeeps(p: Pool, bases: seq<nat>)
    requires Inv(p) && Pages(p, bases) && Distinct(bases) && (p.fullToken - p.P) as nat !in bases
    ensures Inv(Free(p, bases))
  {
    var q := Free(p, bases);
    UnmapAllOutside(p.mapping, bases, p.P, p.fullToken, p.fullToken);
    LastPage(p);
    FreeAt(p, bases, p.fullToken - p.P);
    LiveDistinct(p, bases);
    forall b {:trigger PageOk(q, b)} | Base(b, q.P, q.fullToken) ensures PageOk(q, b) {
      FreeAt(p, bases, b);
      assert PageOk(p, b);
    }
    FreeInjective(p, bases);
    FreeDistinct(p, bases);
    forall w {:trigger Owned(q, w)} | Base(w, q.P, q.nWinSlots) ensures Owned(q, w) { FreeOwned(p, bases, w); }
  }

  lemma FreeInjective(p: Pool, bases: seq<nat>)
    requires Inv(p) && Pages(p, bases)
    ensures Injective(Free(p, bases))
  {
    var q := Free(p, bases);
    forall b, c {:trigger q.mapping[b], q.mapping[c]} |
      Base(b, q.P, q.fullToken) && Base(c, q.P, q.fullToken) && q.mapping[b] == q.mapping[c] && q.mapping[b] >= 0
      ensures b == c
    {
      FreeAt(p, bases, b);
      FreeAt(p, bases, c);
      assert p.mapping[b] == p.mapping[c];
    }
  }

  lemma FreeDistinct(p: Pool, bases: seq<nat>)
    requires Inv(p) && Pages(p, bases) && Distinct(bases)
    ensures Distinct(Free(p, bases).free)
  {
    var live := Live(p.mapping, bases, p.P);
    LiveDistinct(p, bases);
    forall i, j | 0 <= i < j < |p.free + live| ensures (p.free + live)[i] != (p.free + live)[j] {
      if i < |p.free| <= j {
        assert p.free[i] in p.free && live[j - |p.free|] in live;
        assert Owned(p, p.free[i]);
      }
    }
  }

  lemma FreeOwned(p: Pool, bases: seq<nat>, w: nat)
    requires Inv(p) && Pages(p, bases) && Base(w, p.P, p.nWinSlots)
    ensures Owned(Free(p, bases), w)
  {
    var q := Free(p, bases);
    assert Owned(p, w);
    LiveIff(p, bases, w);
    if Bound(q, w) {
      var b :| Base(b, q.P, q.fullToken) && q.mapping[b] == w;
      FreeAt(p, bases, b);
      assert p.mapping[b] == w && Bound(p, w);
    } else if w !in p.free {
      var b: int :| Base(b, p.P, p.fullToken) && p.mapping[b] == w;
      FreeAt(p, bases, b);
      assert q.mapping[b] != w;
    }
  }

  /** Freeing keeps the partition exactly when the dummy page is not among the pages freed. */
  lemma FreeIff(p: Pool, bases: seq<nat>)
    requires Inv(p) && Pages(p, bases) && Distinct(bases)
    ensures Inv(Free(p, bases)) <==> (p.fullToken - p.P) as nat !in bases
  {
    if (p.fullToken - p.P) as nat in bases {
      LastPage(p);
      FreeAt(p, bases, p.fullToken - p.P);
      assert Free(p, bases).mapping[p.fullToken - p.P] == -1;
    } else {
      FreeKeeps(p, bases);
    }
  }

  /** Freeing pages that are already unbound changes nothing. */
  lemma FreeUnbound(p: Pool, bases: seq<nat>)
    requires Inv(p) && Pages(p, bases) && forall j | 0 <= j < |bases| :: p.mapping[bases[j]] < 0
    ensures Free(p, bases) == p
  {
    NothingLive(p, bases);
    UnmapUnbound(p, bases);
  }

  lemma {:induction false} NothingLive(p: Pool, bases: seq<nat>)
    requires Shape(p) && Pages(p, bases) && forall j | 0 <= j < |bases| :: p.mapping[bases[j]] < 0
    ensures Live(p.mapping, bases, p.P) == []
    decreases |bases|
  {
    if bases != [] {
      var rest := bases[..|bases| - 1];
      assert forall j | 0 <= j < |rest| :: rest[j] == bases[j];
      NothingLive(p, rest);
    }
  }

  lemma {:induction false} UnmapUnbound(p: Pool, bases: seq<nat>)
    requires Inv(p) && Pages(p, bases) && forall j | 0 <= j < |bases| :: p.mapping[bases[j]] < 0
    ensures UnmapAll(p.mapping, bases, p.P) == p.mapping
    decreases |bases|
  {
    if bases != [] {
      var n := |bases| - 1;
      assert forall j | 0 <= j < n :: bases[..n][j] == bases[j];
      UnmapUnbound(p, bases[..n]);
      assert PageOk(p, bases[n]);
    }
  }

  /** Freeing a second time changes nothing. */
  lemma FreeTwice(p: Pool, bases: seq<nat>)
    requires Inv(p) && Pages(p, bases) && Distinct(bases) && (p.fullToken - p.P) as nat !in bases
    ensures Free(Free(p, bases), bases) == Free(p, bases)
  {
    FreeKeeps(p, bases);
    forall j | 0 <= j < |bases| ensures Free(p, bases).mapping[bases[j]] < 0 { FreeAt(p, bases, bases[j]); }
    FreeUnbound(Free(p, bases), bases);
  }

  lemma EntryRestored(p: Pool, pages: seq<nat>, bases: seq<nat>, k: nat)
    requires Inv(p) && Pages(p, pages) && |pages| <= |p.free| && Fresh(p, pages) && k < p.fullToken
    requires Pages(p, bases) && forall b: nat {:trigger b in pages} :: b in pages <==> b in bases
    ensures Free(Alloc(p, pages), bases).mapping[k] == p.mapping[k]
  {
    var b := AlignDown(k, p.P);
    PageOf(p, k);
    AllocAt(p, pages, b);
    FreeAt(Alloc(p, pages), bases, b);
    assert PageOk(p, b);
    if b in pages { var j :| 0 <= j < |pages| && pages[j] == b; }
  }

  /** Freeing what was just bound restores the mapping and the set of free pages. */
  lemma FreeUndoesAlloc(p: Pool, pages: seq<nat>, bases: seq<nat>)
    requires Inv(p) && Pages(p, pages) && |pages| <= |p.free| && Fresh(p, pages)
    requires Pages(p, bases) && Distinct(bases) && forall b: nat {:trigger b in pages} :: b in pages <==> b in bases
    ensures var q := Free(Alloc(p, pages), bases);
            && Inv(q) && q.mapping == p.mapping
            && forall w: nat {:trigger w in p.free} :: w in q.free <==> w in p.free
  {
    var a := Alloc(p, pages);
    var q := Free(a, bases);
    AllocKeeps(p, pages);
    LastPage(p);
    var d: nat := p.fullToken - p.P;
    assert p.mapping[d] >= 0;
    assert d in bases ==> d in pages;
    FreeKeeps(a, bases);
    forall k | 0 <= k < |p.mapping| ensures q.mapping[k] == p.mapping[k] {
      if k < p.fullToken { EntryRestored(p, pages, bases, k); } else { assert q.mapping[k] == -1; }
    }
    forall w: nat ensures w in q.free <==> w in p.free {
      if w in q.free || w in p.free { assert Base(w, p.P, p.nWinSlots); }
      if Base(w, p.P, p.nWinSlots) {
        assert Owned(p, w) && Owned(q, w);
        assert Bound(p, w) <==> Bound(q, w);
      }
    }
  }

  /** Every full location lies in the page its rounding down names. */
  lemma PageOf(p: Pool, k: nat)
    requires Shape(p) && k < p.fullToken
    ensures Base(AlignDown(k, p.P), p.P, p.fullToken) && AlignDown(k, p.P) <= k < AlignDown(k, p.P) + p.P
  {
    AlignDownIs(k, p.P);
    AlignedGap(AlignDown(k, p.P), p.fullToken, p.P);
  }
}
