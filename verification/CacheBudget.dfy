/**
Splitting a memory budget between expert slots and key-value pages, experts first.
*/
module CacheBudget {
  import opened Arithmetic
  import opened Wrappers

  datatype Plan = Plan(slots: int, pages: int, overlap: bool)

  datatype PlanError = BadCost | CapBelowFloor | OverBudget | NoPages

  datatype Request = Request(
    budget: int,
    perExpert: int,           // bytes of one expert slot
    perPage: int,             // bytes of one page
    numExperts: nat,
    totalExperts: nat,
    prefillOverlap: bool,
    reserve: nat,             // pages kept for keys and values
    maxSlots: nat)

  function Cap(q: Request): int { Min(q.totalExperts, q.maxSlots) }

  function Floor(q: Request): int {
    if q.prefillOverlap && Cap(q) >= 2 * q.numExperts then 2 * q.numExperts else q.numExperts
  }

  function RequiredBytes(slots: int, pages: int, perExpert: int, perPage: int): int {
    slots * perExpert + pages * perPage
  }

  function PlanCacheBudget(q: Request): Result<Plan, PlanError> {
    if q.perExpert <= 0 || q.perPage <= 0 then Err(BadCost)
    else
      var hi, lo := Cap(q), Floor(q);
      var overlap := q.prefillOverlap && hi >= 2 * q.numExperts;
      if hi < lo then Err(CapBelowFloor)
      else
        var raw := (q.budget - q.reserve * q.perPage) / q.perExpert;
        var slots := Max(lo, Min(raw, hi));
        var remaining := q.budget - slots * q.perExpert;
        var pages := Max(remaining / q.perPage, q.reserve);
        if RequiredBytes(slots, pages, q.perExpert, q.perPage) > q.budget then Err(OverBudget)
        else if pages <= 1 then Err(NoPages)
        else Ok(Plan(slots, pages, overlap && slots >= 2 * q.numExperts))
  }

  /** Prefill overlap is asked for, and the caps leave room for its two layers of experts. */
  predicate Overlaps(q: Request) {
    q.prefillOverlap && 2 * q.numExperts <= q.totalExperts && 2 * q.numExperts <= q.maxSlots
  }

  /** A geometry within the slot bounds, the reserve and the budget. */
  predicate Feasible(q: Request, slots: int, pages: int) {
    && q.numExperts <= slots <= q.totalExperts && slots <= q.maxSlots && (Overlaps(q) ==> 2 * q.numExperts <= slots)
    && pages >= q.reserve && slots * q.perExpert + pages * q.perPage <= q.budget
  }

  /** Feasible, with as many slots as any feasible geometry, and with these as many pages. */
  ghost predicate Best(q: Request, slots: int, pages: int) {
    && Feasible(q, slots, pages)
    && forall s, p {:trigger Feasible(q, s, p)} | Feasible(q, s, p) :: s <= slots && (s == slots ==> p <= pages)
  }

  lemma FeasibleIff(q: Request, slots: int, pages: int)
    ensures Feasible(q, slots, pages) <==>
              Floor(q) <= slots <= Cap(q) && pages >= q.reserve
              && RequiredBytes(slots, pages, q.perExpert, q.perPage) <= q.budget
  {
  }

  /** The greedy slot count: as many as fit above the reserve, within the bounds. */
  function Greedy(q: Request): int
    requires q.perExpert > 0
  {
    Max(Floor(q), Min((q.budget - q.reserve * q.perPage) / q.perExpert, Cap(q)))
  }

  /** Slots fit beside the reserve exactly up to the quotient. */
  lemma FitsIff(q: Request, slots: int)
    requires q.perExpert > 0
    ensures RequiredBytes(slots, q.reserve, q.perExpert, q.perPage) <= q.budget
            <==> slots <= (q.budget - q.reserve * q.perPage) / q.perExpert
  {
    var room := q.budget - q.reserve * q.perPage;
    var raw := room / q.perExpert;
    assert room == raw * q.perExpert + room % q.perExpert;
    if slots <= raw {
      MulMono(slots, raw, q.perExpert);
    } else {
      MulMono(raw + 1, slots, q.perExpert);
      assert (raw + 1) * q.perExpert == raw * q.perExpert + q.perExpert;
    }
  }

  /** The pages of a slot count: all the budget leaves, if it leaves the reserve. */
  lemma PagesFit(q: Request, slots: int)
    requires q.perExpert > 0 && q.perPage > 0
    requires RequiredBytes(slots, q.reserve, q.perExpert, q.perPage) <= q.budget
    ensures var pages := (q.budget - slots * q.perExpert) / q.perPage;
            && pages >= q.reserve
            && 0 <= q.budget - RequiredBytes(slots, pages, q.perExpert, q.perPage) < q.perPage
  {
    var rest := q.budget - slots * q.perExpert;
    var pages := rest / q.perPage;
    assert rest == pages * q.perPage + rest % q.perPage;
    if pages < q.reserve {
      MulMono(pages + 1, q.reserve, q.perPage);
    }
  }

  /**
  With positive costs and a cap at or above the floor, planning succeeds exactly when the slot floor and the reserve fit
  the budget and the greedy slot count leaves at least two pages.
  */
  lemma SucceedsIff(q: Request)
    requires q.perExpert > 0 && q.perPage > 0 && Cap(q) >= Floor(q)
    ensures PlanCacheBudget(q).Ok? <==>
              RequiredBytes(Floor(q), q.reserve, q.perExpert, q.perPage) <= q.budget
              && (q.reserve > 1 || q.budget - Greedy(q) * q.perExpert >= 2 * q.perPage)
    ensures PlanCacheBudget(q) == Err(OverBudget) <==>
              RequiredBytes(Floor(q), q.reserve, q.perExpert, q.perPage) > q.budget
  {
    var slots := Greedy(q);
    var rest := q.budget - slots * q.perExpert;
    FitsIff(q, Floor(q));
    FitsIff(q, slots);
    if RequiredBytes(Floor(q), q.reserve, q.perExpert, q.perPage) <= q.budget {
      PagesFit(q, slots);
      TwoPages(rest, q.perPage);
    } else {
      MulMono(q.reserve, Max(rest / q.perPage, q.reserve), q.perPage);
    }
  }

  lemma TwoPages(rest: int, perPage: int)
    requires perPage > 0
    ensures rest / perPage > 1 <==> rest >= 2 * perPage
  {
    assert rest == rest / perPage * perPage + rest % perPage;
    if rest / perPage > 1 { MulMono(2, rest / perPage, perPage); } else { MulMono(rest / perPage, 1, perPage); }
  }

  /** One more page costs a page, and more pages cost no less. */
  lemma MorePages(q: Request, slots: int, pages: int, more: int)
    requires pages <= more && q.perPage > 0
    ensures RequiredBytes(slots, pages, q.perExpert, q.perPage) <= RequiredBytes(slots, more, q.perExpert, q.perPage)
    ensures RequiredBytes(slots, pages + 1, q.perExpert, q.perPage)
            == RequiredBytes(slots, pages, q.perExpert, q.perPage) + q.perPage
  {
    MulMono(pages, more, q.perPage);
  }

  /** The greedy geometry: as many slots as fit above the reserve, and all pages that are left. */
  function GreedyPages(q: Request): int
    requires q.perExpert > 0 && q.perPage > 0
  {
    (q.budget - Greedy(q) * q.perExpert) / q.perPage
  }

  lemma GreedyBest(q: Request)
    requires q.perExpert > 0 && q.perPage > 0 && Cap(q) >= Floor(q)
    requires RequiredBytes(Floor(q), q.reserve, q.perExpert, q.perPage) <= q.budget
    ensures Best(q, Greedy(q), GreedyPages(q))
    ensures q.budget - RequiredBytes(Greedy(q), GreedyPages(q), q.perExpert, q.perPage) < q.perPage
  {
    hide RequiredBytes, Feasible;
    var slots, pages := Greedy(q), GreedyPages(q);
    FitsIff(q, Floor(q));
    FitsIff(q, slots);
    PagesFit(q, slots);
    FeasibleIff(q, slots, pages);
    forall s, p | Feasible(q, s, p) ensures s <= slots && (s == slots ==> p <= pages) {
      FeasibleIff(q, s, p);
      MorePages(q, s, q.reserve, p);
      FitsIff(q, s);
      if s == slots && p > pages {
        MorePages(q, s, pages, pages);
        MorePages(q, s, pages + 1, p);
      }
    }
  }

  /** What planning returns, by the greedy geometry. */
  lemma Planned(q: Request)
    requires q.perExpert > 0 && q.perPage > 0 && Cap(q) >= Floor(q)
    requires RequiredBytes(Floor(q), q.reserve, q.perExpert, q.perPage) <= q.budget
    ensures PlanCacheBudget(q)
         == if GreedyPages(q) > 1 then Ok(Plan(Greedy(q), GreedyPages(q), Overlaps(q))) else Err(NoPages)
  {
    hide RequiredBytes;
    FitsIff(q, Floor(q));
    FitsIff(q, Greedy(q));
    PagesFit(q, Greedy(q));
  }

  /**
  For positive costs: the best geometry is what is planned, if it has two pages; it is refused for want of pages if it
  has not; and any other refusal means that no geometry is feasible.
  */
  lemma PlanIff(q: Request, slots: int, pages: int)
    requires q.perExpert > 0 && q.perPage > 0
    ensures Best(q, slots, pages) ==>
              PlanCacheBudget(q) == if pages > 1 then Ok(Plan(slots, pages, Overlaps(q))) else Err(NoPages)
    ensures PlanCacheBudget(q) == Err(CapBelowFloor) || PlanCacheBudget(q) == Err(OverBudget)
            <==> forall s, p :: !Feasible(q, s, p)
  {
    if Cap(q) < Floor(q) {
      forall s, p ensures !Feasible(q, s, p) { FeasibleIff(q, s, p); }
      assert !Feasible(q, slots, pages);
    } else if RequiredBytes(Floor(q), q.reserve, q.perExpert, q.perPage) <= q.budget {
      GreedyBest(q);
      Planned(q);
      assert Feasible(q, Greedy(q), GreedyPages(q));
    } else {
      SucceedsIff(q);
      forall s, p ensures !Feasible(q, s, p) { NothingFits(q, s, p); }
      assert !Feasible(q, slots, pages);
    }
  }

  lemma NothingFits(q: Request, slots: int, pages: int)
    requires q.perExpert > 0 && q.perPage > 0
    requires RequiredBytes(Floor(q), q.reserve, q.perExpert, q.perPage) > q.budget
    ensures !Feasible(q, slots, pages)
  {
    if Feasible(q, slots, pages) {
      MulMono(Floor(q), slots, q.perExpert);
      MulMono(q.reserve, pages, q.perPage);
    }
  }

  /**
  A plan is feasible and best: no feasible plan has more slots, none with as many slots has more pages, less than one
  page is left over, and prefill overlap stays on whenever the cap allows it.
  */
  lemma PlanIsBest(q: Request)
    requires PlanCacheBudget(q).Ok?
    ensures var p := PlanCacheBudget(q).value;
            && Best(q, p.slots, p.pages) && p.pages > 1 && p.overlap == Overlaps(q)
            && q.budget - (p.slots * q.perExpert + p.pages * q.perPage) < q.perPage
  {
    SucceedsIff(q);
    GreedyBest(q);
    Planned(q);
  }
}
