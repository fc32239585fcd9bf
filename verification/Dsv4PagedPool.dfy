/**
The paged pool's window allocator: a free list of page bases and the mapping it binds, updated in place.
*/
module Dsv4PagedPool {
  import opened Wrappers
  import opened Alignment
  import opened Arithmetic
  import opened Dsv4Window

  datatype PoolError = NegativeCount | OutOfSlots | NotWholePages | NotAscending | PartialPages

  /** Last-in first-out list of free unit bases. */
  class FreeListAllocator {
    const capacity: nat
    const pageUnit: nat
    var free: seq<nat>

    constructor (capacity: nat, pageUnit: nat)
      requires pageUnit > 0 && Aligned(capacity, pageUnit)
      ensures this.capacity == capacity && this.pageUnit == pageUnit
      ensures Distinct(free) && forall b: nat {:trigger b in free} :: b in free <==> Base(b, pageUnit, capacity)
    {
      this.capacity := capacity;
      this.pageUnit := pageUnit;
      free := FreshFree(capacity, pageUnit);
      new;
      FreshFreeIs(capacity, pageUnit);
    }

    /** Takes the last n bases; asking for too many, or a negative number, changes nothing. */
    method Alloc(n: int) returns (r: Result<seq<nat>, PoolError>)
      modifies this
      ensures r == if n < 0 then Err(NegativeCount) else if n > |old(free)| then Err(OutOfSlots)
                   else Ok(old(free)[|old(free)| - n..])
      ensures free == if r.Ok? then old(free)[..|old(free)| - n] else old(free)
    {
      if n < 0 { return Err(NegativeCount); }
      if n > |free| { return Err(OutOfSlots); }
      var at := |free| - n;
      r := Ok(free[at..]);
      free := free[..at];
    }

    method Free(units: seq<nat>)
      modifies this
      ensures free == old(free) + units
    {
      free := free + units;
    }
  }

  /** Unit bases 0, unit, 2 * unit, ... below the capacity. */
  function FreshFree(capacity: nat, unit: nat): seq<nat>
    requires unit > 0
  {
    if capacity < unit then [] else FreshFree(capacity - unit, unit) + [capacity - unit]
  }

  lemma DistinctMore(s: seq<nat>, x: nat)
    requires Distinct(s) && x !in s
    ensures Distinct(s + [x])
  {
  }

  lemma {:induction false} FreshFreeIs(capacity: nat, unit: nat)
    requires unit > 0 && Aligned(capacity, unit)
    ensures Distinct(FreshFree(capacity, unit))
    ensures forall b: nat {:trigger b in FreshFree(capacity, unit)} ::
              b in FreshFree(capacity, unit) <==> Base(b, unit, capacity)
  {
    if capacity >= unit {
      FreshFreeIs(capacity - unit, unit);
      forall b: nat ensures b in FreshFree(capacity, unit) <==> Base(b, unit, capacity) {
        if Base(b, unit, capacity) && b != capacity - unit { PagesApart(b, capacity - unit, unit); }
      }
      var last: nat := capacity - unit;
      assert last !in FreshFree(capacity - unit, unit);
      DistinctMore(FreshFree(capacity - unit, unit), last);
    }
  }

  /** How many of the locations lie in the page. */
  function Count(locs: seq<int>, b: nat, P: nat): nat {
    if locs == [] then 0
    else Count(locs[..|locs| - 1], b, P) + if b <= locs[|locs| - 1] < b + P then 1 else 0
  }

  /** The pages below `end` that contain some location, in ascending order. */
  function Touched(locs: seq<int>, P: nat, end: nat): seq<nat>
    requires P > 0
    decreases end
  {
    if end < P then []
    else Touched(locs, P, end - P) + if Count(locs, end - P, P) > 0 then [end - P] else []
  }

  lemma {:induction false} TouchedIs(locs: seq<int>, P: nat, end: nat)
    requires P > 0 && Aligned(end, P)
    ensures Distinct(Touched(locs, P, end))
    ensures forall b: nat {:trigger b in Touched(locs, P, end)} ::
              b in Touched(locs, P, end) <==> Base(b, P, end) && Count(locs, b, P) > 0
    decreases end
  {
    if end >= P {
      TouchedIs(locs, P, end - P);
      forall b: nat ensures b in Touched(locs, P, end) <==> Base(b, P, end) && Count(locs, b, P) > 0 {
        if Base(b, P, end) && b != end - P { PagesApart(b, end - P, P); }
      }
      var last: nat := end - P;
      assert last !in Touched(locs, P, end - P);
      DistinctMore(Touched(locs, P, end - P), last);
    }
  }

  function NonNegative(locs: seq<int>): (r: seq<int>)
    ensures forall x: int {:trigger x in r} :: x in r <==> x in locs && x >= 0
  {
    if locs == [] then []
    else NonNegative(locs[..|locs| - 1]) + if locs[|locs| - 1] >= 0 then [locs[|locs| - 1]] else []
  }

  /** Each page listed is listed completely, as far as counting can tell. */
  predicate WholePages(locs: seq<int>, P: nat, end: nat)
    requires P > 0
  {
    forall b <- Touched(locs, P, end) :: Count(locs, b, P) == P
  }

  /** The bases of consecutive rows of P locations. */
  function RowBases(locs: seq<nat>, P: nat): seq<nat>
    requires P > 0
  {
    if |locs| < P then [] else RowBases(locs[..|locs| - P], P) + [locs[|locs| - P]]
  }

  /** Each row of P locations is ascending without gaps. */
  predicate Ascending(locs: seq<nat>, P: nat)
    requires P > 0
  {
    |locs| < P
    || (Ascending(locs[..|locs| - P], P)
        && forall k :: |locs| - P <= k < |locs| ==> locs[k] == locs[|locs| - P] + (k - (|locs| - P)))
  }

  /** Location k is not listed again later. */
  ghost predicate LastListed(locs: seq<nat>, k: nat)
    requires k < |locs|
  {
    forall j | k < j < |locs| :: locs[j] != locs[k]
  }

  /**
  Each location listed is bound to the window page of its row, at its place in the row, by its last listing; every
  other entry of the mapping is as before.
  */
  ghost predicate BoundTo(locs: seq<nat>, P: nat, taken: seq<nat>, before: seq<int>, after: seq<int>)
    requires P > 0
  {
    && |after| == |before| && |taken| == |locs| / P && |locs| % P == 0
    && (forall k: nat {:trigger LastListed(locs, k)} | k < |locs| && LastListed(locs, k) ::
          locs[k] < |after| && k / P < |taken| && after[locs[k]] == taken[k / P] + k % P)
    && (forall x: nat {:trigger after[x]} | x < |before| && x !in locs :: after[x] == before[x])
  }

  /** The places at which the page is listed. */
  ghost function Listings(locs: seq<int>, b: int, P: nat): set<int> {
    set k | 0 <= k < |locs| && b <= locs[k] < b + P
  }

  /** Some location of the page of x is listed. */
  ghost predicate PageListed(locs: seq<int>, x: int, P: nat)
    requires P > 0
  {
    exists l {:trigger l in locs} :: l in locs && l >= 0 && x >= 0 && AlignDown(l, P) == AlignDown(x, P)
  }

  /**
  The pages listed are unbound, other entries are as before, and the free list has gained the window pages behind.
  */
  ghost predicate Unbound(locs: seq<int>, before: Pool, after: Pool)
    requires Shape(before) && Shape(after) && after.P == before.P && after.fullToken == before.fullToken
  {
    && (forall x: nat {:trigger after.mapping[x]} | x < |before.mapping| ::
          after.mapping[x] == if x < before.fullToken && PageListed(locs, x, before.P) then -1 else before.mapping[x])
    && (forall w: nat {:trigger w in after.free} ::
          w in after.free <==> w in before.free || Behind(locs, before, w))
  }

  /** The window page lies behind a page listed. */
  ghost predicate Behind(locs: seq<int>, p: Pool, w: int)
    requires Shape(p)
  {
    exists b: nat {:trigger p.mapping[b]} ::
      Base(b, p.P, p.fullToken) && PageListed(locs, b, p.P) && p.mapping[b] >= 0 && AlignDown(p.mapping[b], p.P) == w
  }

  class PagedPool {
    const P: nat
    const fullToken: nat
    const nWinSlots: nat
    const fullToWindow: array<int>
    const winAlloc: FreeListAllocator

    ghost function State(): Pool
      reads fullToWindow, winAlloc
    {
      Pool(P, fullToken, nWinSlots, fullToWindow[..], winAlloc.free)
    }

    /** All pages unbound but the last full page, which is bound to the last window page for good. */
    constructor (P: nat, fullToken: nat, nWinSlots: nat)
      requires P > 0 && fullToken >= P && nWinSlots >= P && Aligned(fullToken, P) && Aligned(nWinSlots, P)
      ensures fresh(fullToWindow) && fresh(winAlloc)
      ensures this.P == P && this.fullToken == fullToken && this.nWinSlots == nWinSlots
      ensures Inv(State())
      ensures forall b: nat {:trigger b in winAlloc.free} :: b in winAlloc.free <==> Base(b, P, nWinSlots - P)
      ensures fullToWindow.Length == fullToken + 1
      ensures forall i | 0 <= i <= fullToken ::
                fullToWindow[i] == if fullToken - P <= i < fullToken then nWinSlots - fullToken + i else -1
    {
      this.P := P;
      this.fullToken := fullToken;
      this.nWinSlots := nWinSlots;
      fullToWindow := new int[fullToken + 1](_ => -1);
      AlignedSub(nWinSlots, P, P);
      winAlloc := new FreeListAllocator(nWinSlots - P, P);
      new;
      BindWindowPages(fullToken - P, nWinSlots - P);
      InitInv(State());
    }

    method BindWindowPages(fullPageBase: nat, windowPageBase: nat)
      requires P > 0 && fullPageBase + P <= fullToWindow.Length
      modifies fullToWindow
      ensures fullToWindow[..] == Write(old(fullToWindow[..]), fullPageBase, P, windowPageBase)
    {
      forall i | 0 <= i < P { fullToWindow[fullPageBase + i] := windowPageBase + i; }
    }

    method BindPages(bases: seq<nat>, taken: seq<nat>)
      requires P > 0 && |bases| == |taken| && forall j | 0 <= j < |bases| :: bases[j] + P <= fullToWindow.Length
      modifies fullToWindow
      ensures fullToWindow[..] == BindAll(old(fullToWindow[..]), bases, P, taken)
    {
      for k := 0 to |bases|
        invariant fullToWindow[..] == BindAll(old(fullToWindow[..]), bases[..k], P, taken[..k])
      {
        assert bases[..k + 1][..k] == bases[..k] && taken[..k + 1][..k] == taken[..k];
        BindWindowPages(bases[k], taken[k]);
      }
      assert bases[..|bases|] == bases && taken[..|taken|] == taken;
    }

    /**
    Binds one window page to each row listed; the locations are rows of P ascending ones, wherever a row begins.
    Running out, or a list of another shape, is an error that changes nothing.
    */
    method AllocSwa(locs: seq<nat>) returns (r: Result<(), PoolError>)
      requires Shape(State()) && forall x <- locs :: x <= fullToken
      modifies fullToWindow, winAlloc
      ensures |locs| % P == 0 ==> P * |RowBases(locs, P)| == |locs|
      ensures r == if |locs| % P != 0 then Err(NotWholePages)
                   else if !Ascending(locs, P) then Err(NotAscending)
                   else if |RowBases(locs, P)| > |old(State()).free| then Err(OutOfSlots)
                   else Ok(())
      ensures |locs| % P == 0 ==>
                (r == Err(NotAscending) <==>
                   exists k: nat {:trigger Follows(locs, P, k)} | k < |locs| :: !Follows(locs, P, k))
      ensures r.Ok? ==> var at := |old(State()).free| - |locs| / P;
                        at >= 0 && BoundTo(locs, P, old(State()).free[at..], old(State()).mapping, State().mapping)
      ensures r.Ok? ==> Inside(old(State()), RowBases(locs, P))
      ensures State() == if r.Ok? then Dsv4Window.Alloc(old(State()), RowBases(locs, P)) else old(State())
    {
      if |locs| % P != 0 { return Err(NotWholePages); }
      AlignedIffMod(|locs|, P);
      RowBasesAre(locs, P);
      AscendingIff(locs, P);
      if !Ascending(locs, P) { return Err(NotAscending); }
      var bases := RowBases(locs, P);
      RowsInside(locs, P, fullToken);
      var taken := winAlloc.Alloc(|bases|);
      if taken.Err? { return Err(taken.error); }
      ghost var free, before := old(State()).free, fullToWindow[..];
      RowCount(|bases|, |locs|, P);
      BindAllBinds(before, locs, P, taken.value);
      BindPages(bases, taken.value);
      return Ok(());
    }

    method UnmapPages(bases: seq<nat>)
      requires P > 0 && forall j | 0 <= j < |bases| :: bases[j] + P <= fullToWindow.Length
      modifies fullToWindow
      ensures fullToWindow[..] == UnmapAll(old(fullToWindow[..]), bases, P)
    {
      for k := 0 to |bases|
        invariant fullToWindow[..] == UnmapAll(old(fullToWindow[..]), bases[..k], P)
      {
        assert bases[..k + 1][..k] == bases[..k];
        forall i | 0 <= i < P { fullToWindow[bases[k] + i] := -1; }
      }
      assert bases[..|bases|] == bases;
    }

    /**
    Returns the window pages behind the full pages listed.  Locations at -1 are skipped; a page that is not listed
    completely is an error that changes nothing.
    */
    method FreeSwa(locs: seq<int>) returns (r: Result<(), PoolError>)
      requires Shape(State()) && forall x <- locs :: x < fullToken
      modifies fullToWindow, winAlloc
      ensures r == if WholePages(NonNegative(locs), P, fullToken) then Ok(()) else Err(PartialPages)
      ensures r.Ok? <==> forall l <- locs | l >= 0 :: |Listings(locs, AlignDown(l, P), P)| == P
      ensures Shape(State()) && (r.Ok? ==> Unbound(locs, old(State()), State()))
      ensures Pages(old(State()), Touched(NonNegative(locs), P, fullToken))
      ensures State() == if r.Ok? then Dsv4Window.Free(old(State()), Touched(NonNegative(locs), P, fullToken))
                         else old(State())
    {
      var bases := Touched(NonNegative(locs), P, fullToken);
      TouchedIs(NonNegative(locs), P, fullToken);
      assert forall j | 0 <= j < |bases| :: bases[j] in bases;
      WholePagesIff(State(), locs);
      FreeUnbinds(State(), locs, bases);
      if !WholePages(NonNegative(locs), P, fullToken) { return Err(PartialPages); }
      var live := Live(fullToWindow[..], bases, P);
      UnmapPages(bases);
      winAlloc.Free(live);
      return Ok(());
    }

    /** Gathers the window slots of full locations; -1 reaches the last entry. */
    method TranslateFullToWindow(loc: int) returns (slot: int)
      requires Inv(State()) && -1 <= loc < fullToken
      ensures slot == if loc == -1 then -1 else State().mapping[loc]
      ensures slot == -1 || (0 <= slot < nWinSlots && slot % P == loc % P)
    {
      var at := if loc < 0 then loc + fullToWindow.Length else loc;
      slot := fullToWindow[at];
      if loc >= 0 { SameOffset(State(), loc); }
    }
  }

  /** A bound location keeps its offset in the page. */
  lemma SameOffset(p: Pool, loc: nat)
    requires Inv(p) && loc < p.fullToken
    ensures p.mapping[loc] == -1 || (0 <= p.mapping[loc] < p.nWinSlots && p.mapping[loc] % p.P == loc % p.P)
  {
    var b := AlignDown(loc, p.P);
    PageOf(p, loc);
    assert PageOk(p, b);
    if p.mapping[b] >= 0 {
      var w: nat := p.mapping[b];
      AlignedIffMod(b, p.P);
      AlignedIffMod(w, p.P);
      assert b == b / p.P * p.P && w == w / p.P * p.P;
      DivModUnique(loc, p.P, b / p.P, loc - b);
      DivModUnique(p.mapping[loc], p.P, w / p.P, loc - b);
    }
  }

  lemma InitInv(p: Pool)
    requires Shape(p) && Distinct(p.free)
    requires forall b: nat {:trigger b in p.free} :: b in p.free <==> Base(b, p.P, p.nWinSlots - p.P)
    requires p.mapping == Write(seq(p.fullToken + 1, _ => -1), p.fullToken - p.P, p.P, p.nWinSlots - p.P)
    ensures Inv(p)
  {
    LastPage(p);
    forall b | Base(b, p.P, p.fullToken) ensures b == p.fullToken - p.P || p.mapping[b] == -1 {
      InitPage(p, b);
    }
    forall b {:trigger PageOk(p, b)} | Base(b, p.P, p.fullToken) ensures PageOk(p, b) { InitPage(p, b); }
    forall w {:trigger Owned(p, w)} | Base(w, p.P, p.nWinSlots) ensures Owned(p, w) {
      if w == p.nWinSlots - p.P {
        assert p.mapping[p.fullToken - p.P] == w;
      } else {
        PagesApart(w, p.nWinSlots - p.P, p.P);
        var v: nat := w;
        assert v in p.free;
      }
    }
  }

  lemma InitPage(p: Pool, b: int)
    requires Shape(p) && Base(b, p.P, p.fullToken)
    requires p.mapping == Write(seq(p.fullToken + 1, _ => -1), p.fullToken - p.P, p.P, p.nWinSlots - p.P)
    ensures b == p.fullToken - p.P || p.mapping[b] == -1
    ensures PageOk(p, b)
  {
    LastPage(p);
    if b != p.fullToken - p.P { PagesApart(b, p.fullToken - p.P, p.P); }
  }

  lemma ListingsMore(locs: seq<int>, b: int, P: nat)
    requires locs != []
    ensures var n := |locs| - 1;
            && n !in Listings(locs[..n], b, P)
            && Listings(locs, b, P)
               == Listings(locs[..n], b, P) + if b <= locs[n] < b + P then {n} else {}
  {
  }

  lemma {:induction false} CountIs(locs: seq<int>, b: nat, P: nat)
    ensures Count(locs, b, P) == |Listings(locs, b, P)|
    ensures Count(locs, b, P) > 0 <==> exists l {:trigger l in locs} :: l in locs && b <= l < b + P
  {
    if locs != [] {
      var n := |locs| - 1;
      CountIs(locs[..n], b, P);
      ListingsMore(locs, b, P);
      if b <= locs[n] < b + P { assert locs[n] in locs; }
      assert forall l :: l in locs <==> l in locs[..n] || l == locs[n];
    }
  }

  lemma {:induction false} CountNonNegative(locs: seq<int>, b: nat, P: nat)
    ensures Count(NonNegative(locs), b, P) == Count(locs, b, P)
  {
    if locs != [] {
      var n := |locs| - 1;
      CountNonNegative(locs[..n], b, P);
      if locs[n] >= 0 {
        assert NonNegative(locs)[..|NonNegative(locs)| - 1] == NonNegative(locs[..n]);
      } else {
        assert NonNegative(locs) == NonNegative(locs[..n]);
      }
    }
  }

  /** A page is touched exactly when a location of it is listed. */
  lemma TouchedIff(p: Pool, locs: seq<int>, b: nat)
    requires Shape(p) && Base(b, p.P, p.fullToken)
    ensures b in Touched(NonNegative(locs), p.P, p.fullToken) <==> PageListed(locs, b, p.P)
  {
    TouchedIs(NonNegative(locs), p.P, p.fullToken);
    CountNonNegative(locs, b, p.P);
    CountIs(locs, b, p.P);
    OwnBase(b, p.P, b);
    forall l | l in locs && l >= 0 ensures b <= l < b + p.P <==> AlignDown(l, p.P) == AlignDown(b, p.P) {
      AlignDownIs(l, p.P);
      if b <= l < b + p.P { OwnBase(b, p.P, l); }
    }
  }

  /** A location between a base and the next lies in the base's page. */
  lemma OwnBase(b: nat, P: nat, l: nat)
    requires P > 0 && Aligned(b, P) && b <= l < b + P
    ensures AlignDown(l, P) == b
  {
    AlignDownIs(l, P);
    if AlignDown(l, P) != b { PagesApart(AlignDown(l, P), b, P); }
  }

  /** Every page touched is counted whole exactly when every page listed is listed as often as it has locations. */
  lemma WholePagesIff(p: Pool, locs: seq<int>)
    requires Shape(p) && forall x <- locs :: x < p.fullToken
    ensures WholePages(NonNegative(locs), p.P, p.fullToken)
            <==> forall l <- locs | l >= 0 :: |Listings(locs, AlignDown(l, p.P), p.P)| == p.P
  {
    var touched := Touched(NonNegative(locs), p.P, p.fullToken);
    TouchedIs(NonNegative(locs), p.P, p.fullToken);
    forall b: nat | b in touched
      ensures Count(NonNegative(locs), b, p.P) == |Listings(locs, b, p.P)|
      ensures exists l :: l in locs && l >= 0 && AlignDown(l, p.P) == b
    {
      CountNonNegative(locs, b, p.P);
      CountIs(locs, b, p.P);
      var l :| l in locs && b <= l < b + p.P;
      OwnBase(b, p.P, l);
    }
    forall l | l in locs && l >= 0 ensures AlignDown(l, p.P) in touched {
      PageOf(p, l);
      OwnBase(AlignDown(l, p.P), p.P, AlignDown(l, p.P));
      TouchedIff(p, locs, AlignDown(l, p.P));
    }
  }

  /** Freeing the pages touched unbinds the pages listed. */
  lemma FreeUnbinds(p: Pool, locs: seq<int>, bases: seq<nat>)
    requires Shape(p) && Pages(p, bases) && bases == Touched(NonNegative(locs), p.P, p.fullToken)
    ensures Unbound(locs, p, Dsv4Window.Free(p, bases))
  {
    var q := Dsv4Window.Free(p, bases);
    forall x: nat | x < |p.mapping|
      ensures q.mapping[x] == if x < p.fullToken && PageListed(locs, x, p.P) then -1 else p.mapping[x]
    {
      if x < p.fullToken {
        var b := AlignDown(x, p.P);
        PageOf(p, x);
        FreeAt(p, bases, b);
        TouchedIff(p, locs, b);
        OwnBase(b, p.P, b);
      } else {
        UnmapAllOutside(p.mapping, bases, p.P, p.fullToken, x);
      }
    }
    forall w: nat ensures w in q.free <==> w in p.free || Behind(locs, p, w) {
      LiveHas(p.mapping, bases, p.P, w);
      forall b: nat | Base(b, p.P, p.fullToken) ensures b in bases <==> PageListed(locs, b, p.P) {
        TouchedIff(p, locs, b);
      }
    }
  }

  lemma {:induction false} LiveHas(m: seq<int>, bases: seq<nat>, P: nat, w: nat)
    requires P > 0 && forall j | 0 <= j < |bases| :: bases[j] < |m|
    ensures w in Live(m, bases, P) <==>
              exists b: nat {:trigger m[b]} :: b in bases && b < |m| && m[b] >= 0 && AlignDown(m[b], P) == w
    decreases |bases|
  {
    if bases != [] {
      var n := |bases| - 1;
      LiveHas(m, bases[..n], P, w);
      assert forall b: nat :: b in bases <==> b in bases[..n] || b == bases[n];
    }
  }

  /** In a list without repetitions a page is listed as often as it has locations exactly when it is listed whole. */
  lemma ListedWholeIff(locs: seq<int>, b: int, P: nat)
    requires forall i, j | 0 <= i < j < |locs| :: locs[i] != locs[j]
    ensures |Listings(locs, b, P)| == P <==> forall x {:trigger x in locs} | b <= x < b + P :: x in locs
  {
    var listed, page := Values(locs, b, P), Interval(b, P);
    ListedValues(locs, b, P);
    assert listed <= page;
    if |listed| == P {
      SubsetEqual(listed, page);
      forall x | b <= x < b + P ensures x in locs { assert x in page; }
    }
    if forall x {:trigger x in locs} | b <= x < b + P :: x in locs {
      assert listed == page;
    }
  }

  /** The locations of the page that are listed. */
  ghost function Values(locs: seq<int>, b: int, P: nat): set<int> {
    set x | x in locs && b <= x < b + P
  }

  ghost function Interval(b: int, n: nat): (r: set<int>)
    ensures |r| == n && forall x {:trigger x in r} :: x in r <==> b <= x < b + n
  {
    if n == 0 then {} else Interval(b, n - 1) + {b + n - 1}
  }

  lemma SubsetEqual(a: set<int>, b: set<int>)
    requires a <= b && |a| == |b|
    ensures a == b
  {
    assert |b - a| == |b| - |a|;
  }

  lemma {:induction false} ListedValues(locs: seq<int>, b: int, P: nat)
    requires forall i, j | 0 <= i < j < |locs| :: locs[i] != locs[j]
    ensures |Listings(locs, b, P)| == |Values(locs, b, P)|
  {
    hide Listings, Values;
    if locs == [] {
      NothingListed(b, P);
    } else {
      ListedValues(locs[..|locs| - 1], b, P);
      ListingsMore(locs, b, P);
      ValuesMore(locs, b, P);
    }
  }

  lemma NothingListed(b: int, P: nat)
    ensures Listings([], b, P) == {} && Values([], b, P) == {}
  {
  }

  lemma ValuesMore(locs: seq<int>, b: int, P: nat)
    requires locs != [] && forall i, j | 0 <= i < j < |locs| :: locs[i] != locs[j]
    ensures var n := |locs| - 1;
            && locs[n] !in Values(locs[..n], b, P)
            && Values(locs, b, P) == Values(locs[..n], b, P) + if b <= locs[n] < b + P then {locs[n]} else {}
  {
  }

  /** The location follows from the first one of its row. */
  predicate Follows(locs: seq<nat>, P: nat, k: nat)
    requires P > 0 && k < |locs|
  {
    k % P <= k && locs[k] == locs[k - k % P] + k % P
  }

  /** Rows ascend exactly when every location follows from the first one of its row. */
  lemma {:induction false} AscendingIff(locs: seq<nat>, P: nat)
    requires P > 0 && |locs| % P == 0
    ensures Ascending(locs, P) <==> forall k: nat {:trigger Follows(locs, P, k)} | k < |locs| :: Follows(locs, P, k)
    decreases |locs|
  {
    if |locs| >= P {
      var n := |locs| - P;
      SubPage(|locs|, P);
      AscendingIff(locs[..n], P);
      forall k: nat | n <= k < |locs| ensures Follows(locs, P, k) <==> locs[k] == locs[n] + (k - n) {
        LastRow(k, n, P);
      }
      forall k: nat | k < n ensures Follows(locs, P, k) <==> Follows(locs[..n], P, k) { Remainder(k, P); }
      hide Follows;
      if forall k: nat {:trigger Follows(locs, P, k)} | k < |locs| :: Follows(locs, P, k) {
        assert forall k | n <= k < |locs| :: Follows(locs, P, k);
      }
    } else {
      DivModUnique(|locs|, P, 0, |locs|);
    }
  }

  lemma LastRow(k: nat, n: nat, P: nat)
    requires P > 0 && n % P == 0 && n <= k < n + P
    ensures k % P == k - n
  {
    assert n == n / P * P;
    DivModUnique(k, P, n / P, k - n);
  }

  lemma Remainder(k: nat, P: nat)
    requires P > 0
    ensures k % P <= k
  {
    assert k == k / P * P + k % P;
    NonNegativeProduct(k / P, P);
  }

  /** A row whose locations are entries of the mapping lies inside it. */
  lemma {:induction false} RowsInside(locs: seq<nat>, P: nat, last: nat)
    requires P > 0 && Ascending(locs, P) && forall x <- locs :: x <= last
    ensures forall j | 0 <= j < |RowBases(locs, P)| :: RowBases(locs, P)[j] + P <= last + 1
    decreases |locs|
  {
    if |locs| >= P {
      var front := locs[..|locs| - P];
      assert forall x | x in front :: x in locs;
      RowsInside(front, P, last);
      assert locs[|locs| - 1] in locs;
    }
  }

  lemma RowCount(rows: nat, n: nat, P: nat)
    requires P > 0 && P * rows == n
    ensures n / P == rows && n % P == 0
  {
    DivModUnique(n, P, rows, 0);
  }

  /** The last row of the locations is bound on top of the rows before it. */
  lemma BindRow(m: seq<int>, mid: seq<int>, locs: seq<nat>, P: nat, taken: seq<nat>, rows: nat)
    requires 0 < P <= |locs| && Ascending(locs, P) && |taken| == rows + 1 && |locs| == rows * P + P
    requires locs[|locs| - P] + P <= |m| && BoundTo(locs[..|locs| - P], P, taken[..rows], m, mid)
    ensures BoundTo(locs, P, taken, m, Write(mid, locs[|locs| - P], P, taken[rows]))
  {
    hide Write, Ascending;
    RowCount(rows + 1, |locs|, P);
    var n := |locs| - P;
    var front, after := locs[..n], Write(mid, locs[n], P, taken[rows]);
    forall k: nat | k < |locs| && LastListed(locs, k)
      ensures k / P < |taken| && locs[k] < |after| && after[locs[k]] == taken[k / P] + k % P
    {
      if k >= n { LastRowBound(mid, locs, P, taken, rows, k); } else { FrontBound(m, mid, locs, P, taken, rows, k); }
    }
    forall x: nat | x < |m| && x !in locs ensures after[x] == m[x] {
      InLastRow(locs, P, x);
      assert x !in front;
    }
  }

  lemma LastRowBound(mid: seq<int>, locs: seq<nat>, P: nat, taken: seq<nat>, rows: nat, k: nat)
    requires 0 < P <= |locs| && Ascending(locs, P) && |taken| == rows + 1 && |locs| == rows * P + P
    requires |locs| - P <= k < |locs| && locs[|locs| - P] + P <= |mid|
    ensures k / P == rows && k % P == k - (|locs| - P) && locs[k] < |mid|
    ensures Write(mid, locs[|locs| - P], P, taken[rows])[locs[k]] == taken[k / P] + k % P
  {
    DivModUnique(k, P, rows, k - (|locs| - P));
  }

  lemma FrontBound(m: seq<int>, mid: seq<int>, locs: seq<nat>, P: nat, taken: seq<nat>, rows: nat, k: nat)
    requires 0 < P <= |locs| && Ascending(locs, P) && |taken| == rows + 1 && |locs| == rows * P + P
    requires locs[|locs| - P] + P <= |m| && BoundTo(locs[..|locs| - P], P, taken[..rows], m, mid)
    requires k < |locs| - P && LastListed(locs, k)
    ensures 0 <= k / P < rows && locs[k] < |mid|
    ensures Write(mid, locs[|locs| - P], P, taken[rows])[locs[k]] == taken[k / P] + k % P
  {
    InLastRow(locs, P, locs[k]);
    ListedInFront(locs, |locs| - P, k);
    EarlierRow(k, P, rows);
  }

  lemma ListedInFront(locs: seq<nat>, n: nat, k: nat)
    requires k < n <= |locs| && LastListed(locs, k)
    ensures LastListed(locs[..n], k)
  {
  }

  lemma EarlierRow(k: nat, P: nat, rows: nat)
    requires P > 0 && k < rows * P
    ensures 0 <= k / P < rows
  {
    if k / P >= rows { MulMono(rows, k / P, P); }
  }

  lemma InLastRow(locs: seq<nat>, P: nat, x: nat)
    requires 0 < P <= |locs| && Ascending(locs, P)
    ensures locs[|locs| - P] <= x < locs[|locs| - P] + P ==> exists j :: |locs| - P <= j < |locs| && locs[j] == x
  {
    var n := |locs| - P;
    if locs[n] <= x < locs[n] + P { assert locs[n + (x - locs[n])] == x; }
  }

  /** Binding the bases of rows binds the locations of the rows. */
  lemma {:induction false} BindAllBinds(m: seq<int>, locs: seq<nat>, P: nat, taken: seq<nat>)
    requires P > 0 && Aligned(|locs|, P) && Ascending(locs, P) && |RowBases(locs, P)| == |taken|
    requires forall j | 0 <= j < |taken| :: RowBases(locs, P)[j] + P <= |m|
    ensures BoundTo(locs, P, taken, m, BindAll(m, RowBases(locs, P), P, taken))
    decreases |locs|
  {
    hide BoundTo, Ascending;
    RowBasesAre(locs, P);
    if |locs| >= P {
      var n, rows: nat := |locs| - P, |taken| - 1;
      RowsOf(locs, P);
      assert P * (rows + 1) == rows * P + P;
      BindAllBinds(m, locs[..n], P, taken[..rows]);
      BindRow(m, BindAll(m, RowBases(locs[..n], P), P, taken[..rows]), locs, P, taken, rows);
    } else {
      NoRows(m, locs, P);
    }
  }

  lemma RowsOf(locs: seq<nat>, P: nat)
    requires 0 < P <= |locs| && Ascending(locs, P)
    ensures Ascending(locs[..|locs| - P], P)
    ensures var b := RowBases(locs, P);
            b != [] && b[..|b| - 1] == RowBases(locs[..|locs| - P], P) && b[|b| - 1] == locs[|locs| - P]
  {
  }

  lemma NoRows(m: seq<int>, locs: seq<nat>, P: nat)
    requires P > 0 && |locs| == 0
    ensures BoundTo(locs, P, [], m, m)
  {
  }

  /** One base a row. */
  lemma {:induction false} RowBasesAre(locs: seq<nat>, P: nat)
    requires P > 0 && Aligned(|locs|, P)
    ensures P * |RowBases(locs, P)| == |locs|
    decreases |locs|
  {
    if |locs| >= P {
      RowBasesAre(locs[..|locs| - P], P);
      assert P * (|RowBases(locs[..|locs| - P], P)| + 1) == P * |RowBases(locs[..|locs| - P], P)| + P;
    }
  }
}
