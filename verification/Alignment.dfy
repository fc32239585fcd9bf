/**
Whole numbers of pages.  Alignment is defined by counting pages off, which keeps every proof that
only moves page boundaries around free of multiplication; `AlignedIffMod` says it is the usual notion.
*/
module Alignment {
  ghost predicate Aligned(n: int, page: nat)
    decreases n
  {
    n == 0 || (0 < page <= n && Aligned(n - page, page))
  }

  /** Rounds down to a whole number of pages. */
  function AlignDown(n: nat, page: nat): nat
    requires page > 0
  {
    n / page * page
  }

  lemma {:induction false} AlignedIffMod(n: nat, page: nat)
    requires page > 0
    ensures Aligned(n, page) <==> n % page == 0
  {
    if n >= page {
      AlignedIffMod(n - page, page);
      SubPage(n, page);
    }
  }

  lemma SubPage(n: nat, page: nat)
    requires 0 < page <= n
    ensures (n - page) % page == n % page && (n - page) / page == n / page - 1
  {
    var q, r := n / page, n % page;
    assert n == q * page + r;
    assert n - page == (q - 1) * page + r;
    DivModUnique(n - page, page, q - 1, r);
  }

  lemma DivModUnique(n: int, d: int, q: int, r: int)
    requires d > 0 && n == q * d + r && 0 <= r < d
    ensures n / d == q && n % d == r
  {
    var q', r' := n / d, n % d;
    assert n == q' * d + r';
    assert (q - q') * d == r' - r;
    if q - q' >= 1 { MulAtLeast(q - q', d); assert false; }
    if q' - q >= 1 { MulAtLeast(q' - q, d); assert false; }
  }

  lemma MulAtLeast(k: int, d: int)
    requires k >= 1 && d > 0
    ensures k * d >= d
  {
  }

  /** AlignDown is the largest whole number of pages that fits. */
  lemma {:induction false} AlignDownIs(n: nat, page: nat)
    requires page > 0
    ensures Aligned(AlignDown(n, page), page)
    ensures AlignDown(n, page) <= n < AlignDown(n, page) + page
  {
    if n >= page {
      AlignDownIs(n - page, page);
      SubPage(n, page);
      assert (n / page - 1) * page + page == n / page * page;
      assert AlignDown(n, page) == AlignDown(n - page, page) + page;
    } else {
      DivModUnique(n, page, 0, n);
    }
  }

  lemma {:induction false} AlignedGap(a: int, b: int, page: nat)
    requires Aligned(a, page) && Aligned(b, page) && a < b
    ensures a + page <= b && page > 0
  {
    if a > 0 { AlignedGap(a - page, b - page, page); }
  }

  lemma {:induction false} AlignedSub(a: int, b: int, page: nat)
    requires Aligned(a, page) && Aligned(b, page) && b <= a
    ensures Aligned(a - b, page)
  {
    if b > 0 {
      AlignedSub(a - page, b - page, page);
    }
  }

  lemma {:induction false} AlignedAdd(a: int, b: int, page: nat)
    requires Aligned(a, page) && Aligned(b, page)
    ensures Aligned(a + b, page)
  {
    if b > 0 {
      AlignedAdd(a, b - page, page);
    }
  }

  lemma {:induction false} AlignedThrough(n: nat, page: nat, part: nat)
    requires Aligned(n, page) && Aligned(page, part)
    ensures Aligned(n, part)
  {
    if n > 0 {
      AlignedThrough(n - page, page, part);
      AlignedAdd(n - page, page, part);
    }
  }
}
