/**
Index arithmetic of a decode step: the sliding-window ring, the compress-state ring blocks, and the rows of the
compressed pool.
*/
module DecodeAddressing {
  import opened Wrappers
  import opened Alignment
  import opened Arithmetic

  // ---------------------------------------------------------------- the sliding window

  /** Ring slot j holds the latest position at or before pos that is j modulo win; None where the slot is masked. */
  function RingPosition(pos: nat, j: nat, win: nat): Option<nat>
    requires win > 0 && j < win
  {
    var p := pos - (pos - j) % win;
    if p >= 0 && j <= pos then Some(p) else None
  }

  /** What a ring slot shows is one of the last win positions, and it is j modulo win. */
  lemma RingSound(pos: nat, j: nat, win: nat)
    requires win > 0 && j < win
    ensures var r := RingPosition(pos, j, win);
            r.Some? ==> pos - win < r.value <= pos && r.value % win == j
  {
    var p := pos - (pos - j) % win;
    if p >= 0 {
      var q := (pos - j) / win;
      assert pos - j == q * win + (pos - j) % win;
      assert p == q * win + j;
      DivModUnique(p, win, q, j);
    }
  }

  /** Every one of the last min(win, pos + 1) positions is shown by exactly one slot, its remainder. */
  lemma RingExact(pos: nat, win: nat, p: nat, j: nat)
    requires win > 0 && j < win && pos - win < p <= pos
    ensures RingPosition(pos, j, win) == Some(p) <==> j == p % win
  {
    if j == p % win {
      var q := p / win;
      assert p == q * win + j;
      assert pos - j == q * win + (pos - p);
      DivModUnique(pos - j, win, q, pos - p);
      NonNegativeProduct(q, win);
    } else {
      RingSound(pos, j, win);
    }
  }

  /** The two masks agree: a slot is dropped exactly when no position of its remainder has been reached. */
  lemma RingMask(pos: nat, j: nat, win: nat)
    requires win > 0 && j < win
    ensures RingPosition(pos, j, win).Some? <==> j <= pos
    ensures pos - (pos - j) % win >= 0 <==> j <= pos
  {
    if j <= pos {
      var q: nat := (pos - j) / win;
      assert pos - j == q * win + (pos - j) % win;
      NonNegativeProduct(q, win);
    } else {
      // pos - j lies in (-win, 0): the remainder is pos - j + win
      DivModUnique(pos - j, win, -1, pos - j + win);
    }
  }

  // ---------------------------------------------------------------- the compress-state ring

  /** First ring row of the block of a window slot's page. */
  function RingPageBase(slot: int, ringSize: nat, P: nat): int
    requires P > 0
  {
    slot / P * ringSize
  }

  /** The ring row of one window slot; -1, the scratch row, for an unbound one. */
  function StateLoc(slot: int, ringSize: nat, P: nat): int
    requires P > 0 && ringSize > 0
  {
    if slot < 0 then -1 else slot / P * ringSize + slot % ringSize
  }

  /** A slot's row lies in its page's block. */
  lemma StateInBlock(slot: nat, ringSize: nat, P: nat)
    requires P > 0 && ringSize > 0
    ensures RingPageBase(slot, ringSize, P) <= StateLoc(slot, ringSize, P) < RingPageBase(slot, ringSize, P) + ringSize
  {
  }

  /**
  Two slots share a row exactly when they are in the same page and a whole number of rings apart.  A slot that keeps its
  position's place in the page has, within its page's block, the row of the position modulo the ring.
  */
  lemma StateRowIff(a: nat, b: nat, pos: nat, ringSize: nat, P: nat)
    requires P > 0 && ringSize > 0 && Aligned(P, ringSize)
    ensures StateLoc(a, ringSize, P) == StateLoc(b, ringSize, P) <==> a / P == b / P && a % ringSize == b % ringSize
    ensures a % P == pos % P ==> StateLoc(a, ringSize, P) == RingPageBase(a, ringSize, P) + pos % ringSize
  {
    if a / P < b / P { BlocksDisjoint(a, b, ringSize, P); }
    if b / P < a / P { BlocksDisjoint(b, a, ringSize, P); }
    if a % P == pos % P {
      SameRemainder(a, P, ringSize);
      SameRemainder(pos, P, ringSize);
    }
  }

  /** Within pages of whole rings, the place in the page decides the place in the ring. */
  lemma SameRemainder(a: nat, P: nat, ringSize: nat)
    requires P > 0 && ringSize > 0 && Aligned(P, ringSize)
    ensures a % ringSize == a % P % ringSize
  {
    var n := WholeBlocks(P, ringSize);
    var q, r := Divided(a, P);
    var x, y := Divided(r, ringSize);
    Regrouped(a, P, ringSize, n, q, r, x, y);
  }

  lemma Divided(a: nat, d: nat) returns (q: nat, r: nat)
    requires d > 0
    ensures a == q * d + r && r < d && q == a / d && r == a % d
  {
    q, r := a / d, a % d;
  }

  lemma Regrouped(a: nat, P: nat, ringSize: nat, n: nat, q: nat, r: nat, x: nat, y: nat)
    requires ringSize > 0 && P == n * ringSize && a == q * P + r && r == x * ringSize + y && y < ringSize
    ensures a % ringSize == y
  {
    BlockSplit(q * n + x, ringSize, n, q, x);
    DivModUnique(a, ringSize, q * n + x, y);
  }

  /** Blocks of different window pages are disjoint. */
  lemma BlocksDisjoint(a: int, b: int, ringSize: nat, P: nat)
    requires P > 0 && a / P < b / P
    ensures RingPageBase(a, ringSize, P) + ringSize <= RingPageBase(b, ringSize, P)
  {
    assert (b / P) * ringSize == (a / P) * ringSize + ringSize + (b / P - a / P - 1) * ringSize;
    NonNegativeProduct(b / P - a / P - 1, ringSize);
  }

  /**
  The ring has one scratch row after the rows of its pages.  A block avoids it, and stays inside the ring, exactly when
  its slot is a slot of the pool.
  */
  lemma BlockInsideIff(slot: int, ringSize: nat, P: nat, pages: nat)
    requires P > 0 && ringSize > 0
    ensures 0 <= RingPageBase(slot, ringSize, P) && RingPageBase(slot, ringSize, P) + ringSize <= pages * ringSize
            <==> 0 <= slot < pages * P
  {
    var q := slot / P;
    assert slot == q * P + slot % P;
    if q < 0 {
      BlocksDisjoint(slot, 0, ringSize, P);
      assert q * P <= -1 * P by { NonNegativeProduct(-1 - q, P); }
    } else {
      NonNegativeProduct(q, P);
      NonNegativeProduct(q, ringSize);
      if q < pages {
        assert pages * ringSize == q * ringSize + ringSize + (pages - q - 1) * ringSize;
        assert pages * P == q * P + P + (pages - q - 1) * P;
        NonNegativeProduct(pages - q - 1, ringSize);
        NonNegativeProduct(pages - q - 1, P);
      } else {
        assert q * ringSize == pages * ringSize + (q - pages) * ringSize;
        assert q * P == pages * P + (q - pages) * P;
        NonNegativeProduct(q - pages, ringSize);
        NonNegativeProduct(q - pages, P);
      }
    }
  }

  // ---------------------------------------------------------------- compressed rows

  /** Full locations: a request's positions page by page, each page at its base. */
  function FullLoc(pages: seq<nat>, pos: nat, P: nat): nat
    requires P > 0 && pos / P < |pages|
  {
    pages[pos / P] + pos % P
  }

  function CmpRow(loc: int, ratio: nat): int
    requires ratio > 0
  {
    loc / ratio
  }

  /** Page bases are whole pages inside the pool. */
  ghost predicate PagesOk(pages: seq<nat>, P: nat, fullToken: nat) {
    forall i | 0 <= i < |pages| :: Aligned(pages[i], P) && pages[i] + P <= fullToken
  }

  /** Dividing by the ratio goes through a whole number of blocks. */
  lemma DivAdd(base: nat, off: nat, ratio: nat)
    requires ratio > 0 && Aligned(base, ratio)
    ensures base / ratio * ratio == base
    ensures (base + off) / ratio == base / ratio + off / ratio
  {
    AlignedIffMod(base, ratio);
    var q, s, r := base / ratio, off / ratio, off % ratio;
    assert off == s * ratio + r;
    assert (q + s) * ratio == q * ratio + s * ratio;
    DivModUnique(base + off, ratio, q + s, r);
  }

  lemma DivOrder(a: nat, b: nat, ratio: nat)
    requires ratio > 0 && a < b && Aligned(b, ratio)
    ensures a / ratio < b / ratio
  {
    AlignedIffMod(b, ratio);
    var x, y := a / ratio, b / ratio;
    assert a == x * ratio + a % ratio && b == y * ratio;
    if x >= y {
      NonNegativeProduct(x - y, ratio);
    }
  }

  /** The row of a position is its page's first row plus its block within the page. */
  lemma RowOf(pages: seq<nat>, pos: nat, P: nat, ratio: nat, fullToken: nat)
    requires P > 0 && ratio > 0 && Aligned(P, ratio) && PagesOk(pages, P, fullToken) && pos / P < |pages|
    ensures CmpRow(FullLoc(pages, pos, P), ratio) == pages[pos / P] / ratio + pos % P / ratio
    ensures pages[pos / P] == pages[pos / P] / ratio * ratio
  {
    AlignedThrough(pages[pos / P], P, ratio);
    DivAdd(pages[pos / P], pos % P, ratio);
  }

  /** Positions of one block of `ratio` positions share one row. */
  lemma RowConstantInBlock(pages: seq<nat>, block: nat, i: nat, P: nat, ratio: nat, fullToken: nat)
    requires P > 0 && ratio > 0 && Aligned(P, ratio) && PagesOk(pages, P, fullToken)
    requires i < ratio && (block * ratio + i) / P < |pages|
    ensures block * ratio / P < |pages|
    ensures CmpRow(FullLoc(pages, block * ratio + i, P), ratio) == CmpRow(FullLoc(pages, block * ratio, P), ratio)
  {
    var start, pos := block * ratio, block * ratio + i;
    BlockInPage(block, i, P, ratio);
    RowOf(pages, pos, P, ratio, fullToken);
    RowOf(pages, start, P, ratio, fullToken);
  }

  /** A block does not straddle pages. */
  lemma BlockInPage(block: nat, i: nat, P: nat, ratio: nat)
    requires P > 0 && ratio > 0 && Aligned(P, ratio) && i < ratio
    ensures (block * ratio + i) / P == block * ratio / P
    ensures (block * ratio + i) % P / ratio == block * ratio % P / ratio
  {
    var n := WholeBlocks(P, ratio);
    BlockInPageOf(block, i, P, ratio, n, block / n, block % n);
  }

  lemma WholeBlocks(P: nat, ratio: nat) returns (n: nat)
    requires P > 0 && ratio > 0 && Aligned(P, ratio)
    ensures n > 0 && P == n * ratio
  {
    AlignedIffMod(P, ratio);
    n := P / ratio;
  }

  lemma BlockInPageOf(block: nat, i: nat, P: nat, ratio: nat, n: nat, q: nat, r: nat)
    requires P > 0 && ratio > 0 && P == n * ratio && block == q * n + r && r < n && i < ratio
    ensures (block * ratio + i) / P == q && (block * ratio + i) % P / ratio == r
    ensures block * ratio / P == q && block * ratio % P / ratio == r
  {
    BlockSplit(block, ratio, n, q, r);
    RoomInPage(r, n, ratio);
    InPage(block * ratio, P, q, r * ratio, ratio, r, 0);
    InPage(block * ratio + i, P, q, r * ratio + i, ratio, r, i);
  }

  lemma InPage(x: nat, P: nat, q: nat, off: nat, ratio: nat, r: nat, i: nat)
    requires 0 < P && x == q * P + off && off < P && off == r * ratio + i && i < ratio
    ensures x / P == q && x % P / ratio == r
  {
    DivModUnique(x, P, q, off);
    DivModUnique(off, ratio, r, i);
  }

  lemma BlockSplit(block: nat, ratio: nat, n: nat, q: nat, r: nat)
    requires block == q * n + r
    ensures block * ratio == q * (n * ratio) + r * ratio
  {
    assert (q * n + r) * ratio == q * n * ratio + r * ratio;
    assert q * n * ratio == q * (n * ratio);
  }

  lemma RoomInPage(r: nat, n: nat, ratio: nat)
    requires r < n
    ensures 0 <= r * ratio && r * ratio + ratio <= n * ratio
  {
    assert n * ratio == r * ratio + ratio + (n - r - 1) * ratio;
    NonNegativeProduct(n - r - 1, ratio);
  }

  /** The full page of a position and its block in that page. */
  function BlockOf(pages: seq<nat>, pos: nat, P: nat, ratio: nat): (nat, int)
    requires P > 0 && ratio > 0 && pos / P < |pages|
  {
    (pages[pos / P], pos % P / ratio)
  }

  /** Two positions share a row exactly when they are in the same block of the same full page. */
  lemma SameRowIff(pages: seq<nat>, pos: nat, pages': seq<nat>, pos': nat, P: nat, ratio: nat, fullToken: nat)
    requires P > 0 && ratio > 0 && Aligned(P, ratio)
    requires PagesOk(pages, P, fullToken) && pos / P < |pages| && PagesOk(pages', P, fullToken) && pos' / P < |pages'|
    ensures CmpRow(FullLoc(pages, pos, P), ratio) == CmpRow(FullLoc(pages', pos', P), ratio)
            <==> BlockOf(pages, pos, P, ratio) == BlockOf(pages', pos', P, ratio)
  {
    hide Aligned;
    RowOf(pages, pos, P, ratio, fullToken);
    RowOf(pages', pos', P, ratio, fullToken);
    if pages[pos / P] != pages'[pos' / P] {
      RowsOfPagesApart(pages[pos / P], pos % P, pages'[pos' / P], pos' % P, P, ratio);
    }
  }

  lemma RowsOfPagesApart(a: nat, i: nat, b: nat, j: nat, P: nat, ratio: nat)
    requires P > 0 && ratio > 0 && Aligned(P, ratio) && Aligned(a, P) && Aligned(b, P) && i < P && j < P && a != b
    ensures a / ratio + i / ratio != b / ratio + j / ratio
  {
    if a < b { RowsOrdered(a, i, b, j, P, ratio); } else { RowsOrdered(b, j, a, i, P, ratio); }
  }

  lemma RowsOrdered(a: nat, i: nat, b: nat, j: nat, P: nat, ratio: nat)
    requires P > 0 && ratio > 0 && Aligned(P, ratio) && Aligned(a, P) && Aligned(b, P) && i < P && a < b
    ensures a / ratio + i / ratio < b / ratio + j / ratio
  {
    AlignedGap(a, b, P);
    AlignedThrough(b, P, ratio);
    DivOrder(a + i, b, ratio);
    AlignedThrough(a, P, ratio);
    DivAdd(a, i, ratio);
    DivNonNegative(j, ratio);
  }

  lemma DivNonNegative(j: nat, ratio: nat)
    requires ratio > 0
    ensures j / ratio >= 0
  {
  }

  /** Rows of positions lie below the scratch rows. */
  lemma RowBelowScratch(pages: seq<nat>, pos: nat, P: nat, ratio: nat, fullToken: nat)
    requires P > 0 && ratio > 0 && PagesOk(pages, P, fullToken) && pos / P < |pages|
    requires Aligned(P, ratio) && Aligned(fullToken, P)
    ensures 0 <= CmpRow(FullLoc(pages, pos, P), ratio) < fullToken / ratio
  {
    LocBelow(pages, pos, P, fullToken);
    AlignedThrough(fullToken, P, ratio);
    RowBelow(FullLoc(pages, pos, P), fullToken, ratio);
  }

  lemma LocBelow(pages: seq<nat>, pos: nat, P: nat, fullToken: nat)
    requires P > 0 && PagesOk(pages, P, fullToken) && pos / P < |pages|
    ensures FullLoc(pages, pos, P) < fullToken
  {
    assert pos % P < P;
  }

  lemma RowBelow(loc: nat, fullToken: nat, ratio: nat)
    requires ratio > 0 && loc < fullToken && Aligned(fullToken, ratio)
    ensures 0 <= CmpRow(loc, ratio) < fullToken / ratio
  {
    DivOrder(loc, fullToken, ratio);
    DivNonNegative(loc, ratio);
  }

  /** One row of a decode batch: its page list, its position, and whether this step completes a block. */
  datatype DecodeRow = DecodeRow(pages: seq<nat>, pos: nat, completed: bool)

  /** Where each batch row stores: its completed block's row, or its own scratch row. */
  function DecodeCompressRow(row: DecodeRow, index: nat, P: nat, ratio: nat, scratchBase: nat): int
    requires P > 0 && ratio > 0 && row.pos / P < |row.pages|
  {
    if row.completed then CmpRow(FullLoc(row.pages, row.pos, P), ratio) else index + scratchBase
  }

  /** Batch rows that write to their own pages never store to the same place. */
  lemma DecodeRowsDistinct(a: DecodeRow, i: nat, b: DecodeRow, j: nat, P: nat, ratio: nat, fullToken: nat)
    requires P > 0 && ratio > 0 && Aligned(P, ratio) && Aligned(fullToken, P) && i != j
    requires PagesOk(a.pages, P, fullToken) && a.pos / P < |a.pages| && PagesOk(b.pages, P, fullToken)
             && b.pos / P < |b.pages|
    ensures DecodeCompressRow(a, i, P, ratio, fullToken / ratio) == DecodeCompressRow(b, j, P, ratio, fullToken / ratio)
            <==> (a.completed && b.completed && BlockOf(a.pages, a.pos, P, ratio) == BlockOf(b.pages, b.pos, P, ratio))
  {
    RowBelowScratch(a.pages, a.pos, P, ratio, fullToken);
    RowBelowScratch(b.pages, b.pos, P, ratio, fullToken);
    SameRowIff(a.pages, a.pos, b.pages, b.pos, P, ratio, fullToken);
  }
}
