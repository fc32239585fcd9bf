/**
Sizing of the paged pool: slot counts from a page count, their exact bytes, and the largest page count a budget allows.
*/
module Dsv4CostModel {
  import opened Arithmetic
  import opened Wrappers

  const BF16_BYTES: nat := 2
  const FP32_BYTES: nat := 4
  const INT64_BYTES: nat := 8

  datatype Args = Args(headDim: nat, indexHeadDim: nat, nLayers: nat, compressRatios: seq<nat>)

  /** The window-to-full ratio as an exact fraction in (0, 1]. */
  datatype Fraction = Fraction(num: nat, den: nat) {
    predicate Valid() { 0 < num <= den }
  }

  // ---------------------------------------------------------------- arithmetic

  /** a / d rounded to the nearest whole number, ties to even: see RoundsToNearest. */
  function RoundHalfEven(a: nat, d: nat): nat
    requires d > 0
  {
    if 2 * (a % d) < d || (2 * (a % d) == d && a / d % 2 == 0) then a / d else a / d + 1
  }

  lemma RoundsToNearest(a: nat, d: nat)
    requires d > 0
    ensures var r := RoundHalfEven(a, d);
            && 2 * (r * d - a) <= d && 2 * (a - r * d) <= d
            && (2 * (r * d - a) == d || 2 * (a - r * d) == d ==> r % 2 == 0)
  {
    var q, rest := a / d, a % d;
    assert q * d + rest == a && (q + 1) * d == q * d + d;
  }

  function CeilDiv(a: nat, d: nat): nat
    requires d > 0
  {
    (a + d - 1) / d
  }

  lemma RoundMono(a: nat, b: nat, d: nat)
    requires a <= b && d > 0
    ensures RoundHalfEven(a, d) <= RoundHalfEven(b, d)
  {
    if a < b {
      RoundsToNearest(a, d);
      RoundsToNearest(b, d);
      NearestMono(a, b, d, RoundHalfEven(a, d), RoundHalfEven(b, d));
    }
  }

  lemma NearestMono(a: nat, b: nat, d: nat, r: nat, s: nat)
    requires a < b && 2 * (r * d - a) <= d && 2 * (b - s * d) <= d
    ensures r <= s
  {
    if r > s { MulMono(s + 1, r, d); }
  }

  // ---------------------------------------------------------------- slot counts

  /** The ring sizes that exist. */
  function RingSizeForRatio(ratio: nat): Option<nat> {
    if ratio == 4 then Some(8) else if ratio == 128 then Some(128) else None
  }

  /** The layers' compression ratios; a checkpoint may list more than there are layers. */
  function Ratios(args: Args): (r: seq<nat>)
    ensures r <= args.compressRatios && |r| == Min(args.nLayers, |args.compressRatios|)
  {
    if args.nLayers <= |args.compressRatios| then args.compressRatios[..args.nLayers] else args.compressRatios
  }

  predicate Supported(args: Args) {
    forall i :: 0 <= i < |Ratios(args)| ==> Ratios(args)[i] == 0 || Ratios(args)[i] == 4 || Ratios(args)[i] == 128
  }

  datatype Indexer = Indexer(idxBlocks: nat, idxStateSlots: nat)

  datatype Tier = Tier(cmpBlocks: nat, stateSlots: nat, ringSize: nat, indexer: Option<Indexer>)

  /** Slot counts; a layer without compression has no tier. */
  datatype PoolSizes = PoolSizes(P: nat, fullToken: nat, nWinSlots: nat, nWinPages: nat, tiers: seq<Option<Tier>>)

  function TierOf(ratio: nat, fullToken: nat, nWinPages: nat): Option<Tier>
    requires ratio == 0 || RingSizeForRatio(ratio).Some?
  {
    if ratio == 0 then None
    else
      var rs := RingSizeForRatio(ratio).value;
      Some(Tier(fullToken / ratio, nWinPages * rs, rs,
                if ratio == 4 then Some(Indexer(fullToken / 4, nWinPages * 8)) else None))
  }

  /** The window tier: the caller's page count, else the rounded ratio of the history; never more than the history. */
  function WindowPages(numPages: nat, swaRatio: Fraction, P: nat, asked: Option<nat>): nat
    requires swaRatio.Valid() && P > 0
  {
    Min(match asked
        case Some(n) => n
        case None => CeilDiv(RoundHalfEven(swaRatio.num * (numPages * P), swaRatio.den), P),
        numPages)
  }

  function Sizes(numPages: nat, args: Args, P: nat, winPages: nat): (s: PoolSizes)
    requires Supported(args)
    ensures |s.tiers| == |Ratios(args)|
  {
    PoolSizes(P, numPages * P, winPages * P, winPages,
              seq(|Ratios(args)|,
                L requires 0 <= L < |Ratios(args)| => TierOf(Ratios(args)[L], numPages * P, winPages)))
  }

  /** a blocks of the ratio fit into the history, and no more do. */
  predicate WholeBlocks(a: nat, ratio: nat, fullToken: nat) {
    a * ratio <= fullToken < (a + 1) * ratio
  }

  /** What one layer needs: nothing uncompressed, else its blocks, a state ring per window page, and an indexer at 4. */
  predicate TierServes(tier: Option<Tier>, ratio: nat, fullToken: nat, nWinPages: nat) {
    match tier
    case None => ratio == 0
    case Some(t) =>
      && ((ratio == 4 && t.ringSize == 8) || (ratio == 128 && t.ringSize == 128))
      && WholeBlocks(t.cmpBlocks, ratio, fullToken) && t.stateSlots == nWinPages * t.ringSize
      && match t.indexer
         case None => ratio != 4
         case Some(x) => ratio == 4 && x.idxBlocks == t.cmpBlocks && x.idxStateSlots == t.stateSlots
  }

  /**
  The window holds the pages asked for, or just covers the rounded share of the history, unless the history is less.
  */
  predicate WindowServes(nWinPages: nat, numPages: nat, share: nat, P: nat, asked: Option<nat>) {
    && nWinPages <= numPages
    && match asked
       case Some(n) => nWinPages <= n && (nWinPages < numPages ==> nWinPages == n)
       case None => nWinPages * P < share + P && (nWinPages < numPages ==> share <= nWinPages * P)
  }

  lemma WindowPagesServe(numPages: nat, swaRatio: Fraction, P: nat, asked: Option<nat>)
    requires swaRatio.Valid() && P > 0
    ensures WindowServes(WindowPages(numPages, swaRatio, P, asked), numPages,
                         RoundHalfEven(swaRatio.num * (numPages * P), swaRatio.den), P, asked)
  {
    var share := RoundHalfEven(swaRatio.num * (numPages * P), swaRatio.den);
    if asked.None? {
      CeilDivCovers(share, P);
      MulMono(WindowPages(numPages, swaRatio, P, asked), CeilDiv(share, P), P);
    }
  }

  lemma CeilDivCovers(a: nat, d: nat)
    requires d > 0
    ensures a <= CeilDiv(a, d) * d < a + d
  {
    var b := a + d - 1;
    assert b / d * d + b % d == b;
  }

  lemma TierOfServes(ratio: nat, fullToken: nat, nWinPages: nat)
    requires ratio == 0 || RingSizeForRatio(ratio).Some?
    ensures TierServes(TierOf(ratio, fullToken, nWinPages), ratio, fullToken, nWinPages)
  {
    if ratio > 0 { assert fullToken / ratio * ratio + fullToken % ratio == fullToken; }
  }

  method DSV4PoolSizes(numPages: nat, args: Args, swaRatio: Fraction, P: nat, asked: Option<nat>) returns (s: PoolSizes)
    requires Supported(args) && swaRatio.Valid() && P > 0
    ensures s.P == P && s.fullToken == numPages * P && s.nWinSlots == s.nWinPages * P
    ensures WindowServes(s.nWinPages, numPages, RoundHalfEven(swaRatio.num * (numPages * P), swaRatio.den), P, asked)
    ensures |s.tiers| == |Ratios(args)|
    ensures forall L | 0 <= L < |s.tiers| :: TierServes(s.tiers[L], Ratios(args)[L], s.fullToken, s.nWinPages)
    ensures s == Sizes(numPages, args, P, WindowPages(numPages, swaRatio, P, asked))
  {
    var fullToken := numPages * P;
    WindowPagesServe(numPages, swaRatio, P, asked);
    var winPages := WindowPages(numPages, swaRatio, P, asked);
    var ratios := Ratios(args);
    var tiers: seq<Option<Tier>> := [];
    for L := 0 to |ratios|
      invariant |tiers| == L && forall i :: 0 <= i < L ==> tiers[i] == TierOf(ratios[i], fullToken, winPages)
      invariant forall i :: 0 <= i < L ==> TierServes(tiers[i], ratios[i], fullToken, winPages)
    {
      TierOfServes(ratios[L], fullToken, winPages);
      tiers := tiers + [TierOf(ratios[L], fullToken, winPages)];
    }
    return PoolSizes(P, fullToken, winPages * P, winPages, tiers);
  }

  // ---------------------------------------------------------------- bytes

  function KvBytes(args: Args): nat { args.headDim * BF16_BYTES }
  function IndexBytes(args: Args): nat { args.indexHeadDim * BF16_BYTES }
  function StateBytes(args: Args, ratio: nat): nat { 2 * (1 + if ratio == 4 then 1 else 0) * args.headDim * FP32_BYTES }
  function IdxStateBytes(args: Args): nat { 2 * 2 * args.indexHeadDim * FP32_BYTES }

  /** Bytes of one layer's compressed tiers, scratch rows included. */
  function TierBytes(args: Args, ratio: nat, tier: Option<Tier>, nScratch: nat): nat {
    match tier
    case None => 0
    case Some(t) =>
      (t.cmpBlocks + nScratch) * KvBytes(args) + (t.stateSlots + 1) * StateBytes(args, ratio)
      + match t.indexer
        case None => 0
        case Some(x) => (x.idxBlocks + nScratch) * IndexBytes(args) + (x.idxStateSlots + 1) * IdxStateBytes(args)
  }

  function TiersBytes(args: Args, tiers: seq<Option<Tier>>, nScratch: nat, k: nat): nat
    requires k <= |tiers| == |Ratios(args)|
  {
    if k == 0 then 0
    else TiersBytes(args, tiers, nScratch, k - 1) + TierBytes(args, Ratios(args)[k - 1], tiers[k - 1], nScratch)
  }

  function BytesOf(s: PoolSizes, args: Args, nScratch: nat): nat
    requires |s.tiers| == |Ratios(args)|
  {
    |Ratios(args)| * s.nWinSlots * KvBytes(args) + (s.fullToken + 1) * INT64_BYTES
    + TiersBytes(args, s.tiers, nScratch, |s.tiers|)
  }

  method DSV4PoolBytes(s: PoolSizes, args: Args, nScratch: nat) returns (total: nat)
    requires |s.tiers| == |Ratios(args)|
    ensures total == BytesOf(s, args, nScratch)
  {
    total := |Ratios(args)| * s.nWinSlots * KvBytes(args) + (s.fullToken + 1) * INT64_BYTES;
    ghost var base := total;
    for L := 0 to |s.tiers|
      invariant total == base + TiersBytes(args, s.tiers, nScratch, L)
    {
      total := total + TierBytes(args, Ratios(args)[L], s.tiers[L], nScratch);
    }
  }

  // ---------------------------------------------------------------- monotonicity

  /** Window pages of the solver's pool: the rounded ratio, at least the floor, at most the history. */
  function SolverWindow(num: nat, swaRatio: Fraction, floor: nat, P: nat): nat
    requires swaRatio.Valid() && P > 0
  {
    WindowPages(num, swaRatio, P, Some(Max(floor, CeilDiv(RoundHalfEven(swaRatio.num * (num * P), swaRatio.den), P))))
  }

  function SolverSizes(num: nat, args: Args, swaRatio: Fraction, floor: nat, P: nat): PoolSizes
    requires Supported(args) && swaRatio.Valid() && P > 0
  {
    Sizes(num, args, P, SolverWindow(num, swaRatio, floor, P))
  }

  function BytesAt(num: nat, args: Args, swaRatio: Fraction, floor: nat, P: nat, nScratch: nat): nat
    requires Supported(args) && swaRatio.Valid() && P > 0
  {
    BytesOf(SolverSizes(num, args, swaRatio, floor, P), args, nScratch)
  }

  /**
  The window a request of `num` pages must get: the floor and the rounded share of the history, unless the history is
  less, and no page more than one of the two needs.
  */
  predicate SolverServes(win: nat, num: nat, share: nat, floor: nat, P: nat) {
    && win <= num && (win < num ==> floor <= win && share <= win * P)
    && (win > floor ==> win * P < share + P)
  }

  lemma SolverWindowServes(num: nat, swaRatio: Fraction, floor: nat, P: nat)
    requires swaRatio.Valid() && P > 0
    ensures SolverServes(SolverWindow(num, swaRatio, floor, P), num,
                         RoundHalfEven(swaRatio.num * (num * P), swaRatio.den), floor, P)
  {
    var share := RoundHalfEven(swaRatio.num * (num * P), swaRatio.den);
    var win := SolverWindow(num, swaRatio, floor, P);
    CeilDivCovers(share, P);
    if win < num { MulMono(CeilDiv(share, P), win, P); }
    if win > floor { MulMono(win, CeilDiv(share, P), P); }
  }

  /** Only one window serves. */
  lemma SolverServesOnce(a: nat, b: nat, num: nat, share: nat, floor: nat, P: nat)
    requires P > 0 && SolverServes(a, num, share, floor, P) && SolverServes(b, num, share, floor, P)
    ensures a == b
  {
    if a < b { MulMono(a + 1, b, P); } else if b < a { MulMono(b + 1, a, P); }
  }

  /** The slot counts a request of `num` pages must get. */
  ghost predicate Demanded(s: PoolSizes, num: nat, args: Args, swaRatio: Fraction, floor: nat, P: nat)
    requires Supported(args) && swaRatio.Valid() && P > 0
  {
    && s.P == P && s.fullToken == num * P && s.nWinSlots == s.nWinPages * P
    && SolverServes(s.nWinPages, num, RoundHalfEven(swaRatio.num * (num * P), swaRatio.den), floor, P)
    && |s.tiers| == |Ratios(args)|
    && forall L | 0 <= L < |s.tiers| :: TierServes(s.tiers[L], Ratios(args)[L], s.fullToken, s.nWinPages)
  }

  /** Every page count has such slot counts, those the solver works with, and no others. */
  lemma DemandedIff(s: PoolSizes, num: nat, args: Args, swaRatio: Fraction, floor: nat, P: nat)
    requires Supported(args) && swaRatio.Valid() && P > 0
    ensures Demanded(s, num, args, swaRatio, floor, P) <==> s == SolverSizes(num, args, swaRatio, floor, P)
  {
    var t := SolverSizes(num, args, swaRatio, floor, P);
    var share := RoundHalfEven(swaRatio.num * (num * P), swaRatio.den);
    SolverWindowServes(num, swaRatio, floor, P);
    forall L | 0 <= L < |t.tiers| ensures TierServes(t.tiers[L], Ratios(args)[L], t.fullToken, t.nWinPages) {
      TierOfServes(Ratios(args)[L], num * P, t.nWinPages);
    }
    if Demanded(s, num, args, swaRatio, floor, P) {
      SolverServesOnce(s.nWinPages, t.nWinPages, num, share, floor, P);
      forall L | 0 <= L < |s.tiers| ensures s.tiers[L] == t.tiers[L] {
        TierServesOnce(s.tiers[L], t.tiers[L], Ratios(args)[L], s.fullToken, s.nWinPages);
      }
      assert s.tiers == t.tiers;
    }
  }

  lemma TierServesOnce(a: Option<Tier>, b: Option<Tier>, ratio: nat, fullToken: nat, nWinPages: nat)
    requires TierServes(a, ratio, fullToken, nWinPages) && TierServes(b, ratio, fullToken, nWinPages)
    ensures a == b
  {
    if a.Some? && b.Some? {
      WholeBlocksOnce(a.value.cmpBlocks, b.value.cmpBlocks, ratio, fullToken);
    }
  }

  lemma WholeBlocksOnce(a: nat, b: nat, ratio: nat, fullToken: nat)
    requires WholeBlocks(a, ratio, fullToken) && WholeBlocks(b, ratio, fullToken)
    ensures a == b
  {
    if a < b { MulMono(a + 1, b, ratio); } else if b < a { MulMono(b + 1, a, ratio); }
  }

  /** More history never needs fewer window pages. */
  lemma WindowMono(a: nat, b: nat, swaRatio: Fraction, floor: nat, P: nat)
    requires a <= b && swaRatio.Valid() && P > 0
    ensures SolverWindow(a, swaRatio, floor, P) <= SolverWindow(b, swaRatio, floor, P)
  {
    MulMono(a, b, P);
    MulMono(a * P, b * P, swaRatio.num);
    RoundMono(swaRatio.num * (a * P), swaRatio.num * (b * P), swaRatio.den);
    var x, y := RoundHalfEven(swaRatio.num * (a * P), swaRatio.den),
      RoundHalfEven(swaRatio.num * (b * P), swaRatio.den);
    DivMono(x + P - 1, y + P - 1, P);
  }

  lemma TierMono(args: Args, ratio: nat, full: nat, full': nat, win: nat, win': nat, nScratch: nat)
    requires ratio == 0 || RingSizeForRatio(ratio).Some?
    requires full <= full' && win <= win'
    ensures TierBytes(args, ratio, TierOf(ratio, full, win), nScratch)
         <= TierBytes(args, ratio, TierOf(ratio, full', win'), nScratch)
  {
    if ratio != 0 {
      var rs := RingSizeForRatio(ratio).value;
      DivMono(full, full', ratio);
      MulMono(full / ratio + nScratch, full' / ratio + nScratch, KvBytes(args));
      MulMono(win, win', rs);
      MulMono(win * rs + 1, win' * rs + 1, StateBytes(args, ratio));
      if ratio == 4 {
        MulMono(full / 4 + nScratch, full' / 4 + nScratch, IndexBytes(args));
        MulMono(win * 8 + 1, win' * 8 + 1, IdxStateBytes(args));
      }
    }
  }

  lemma {:induction false} TiersMono(args: Args, a: nat, b: nat, win: nat, win': nat, P: nat, nScratch: nat, k: nat)
    requires Supported(args) && a <= b && win <= win' && k <= |Ratios(args)|
    ensures TiersBytes(args, Sizes(a, args, P, win).tiers, nScratch, k)
         <= TiersBytes(args, Sizes(b, args, P, win').tiers, nScratch, k)
  {
    if k > 0 {
      TiersMono(args, a, b, win, win', P, nScratch, k - 1);
      MulMono(a, b, P);
      TierMono(args, Ratios(args)[k - 1], a * P, b * P, win, win', nScratch);
    }
  }

  /** Bytes grow with the page count, through rounding, page ceiling and window capping. */
  lemma BytesMono(a: nat, b: nat, args: Args, swaRatio: Fraction, floor: nat, P: nat, nScratch: nat)
    requires Supported(args) && swaRatio.Valid() && P > 0 && a <= b
    ensures BytesAt(a, args, swaRatio, floor, P, nScratch) <= BytesAt(b, args, swaRatio, floor, P, nScratch)
  {
    var win, win' := SolverWindow(a, swaRatio, floor, P), SolverWindow(b, swaRatio, floor, P);
    WindowMono(a, b, swaRatio, floor, P);
    MulMono(a, b, P);
    MulMono(win, win', P);
    MulMono(win * P, win' * P, |Ratios(args)|);
    MulMono(|Ratios(args)| * (win * P), |Ratios(args)| * (win' * P), KvBytes(args));
    TiersMono(args, a, b, win, win', P, nScratch, |Ratios(args)|);
  }

  /** Every page costs something, so no budget fits every page count. */
  lemma BytesGrow(num: nat, args: Args, swaRatio: Fraction, floor: nat, P: nat, nScratch: nat)
    requires Supported(args) && swaRatio.Valid() && P > 0
    ensures BytesAt(num, args, swaRatio, floor, P, nScratch) > num
  {
    MulMono(1, P, num);
    assert (SolverSizes(num, args, swaRatio, floor, P)).fullToken == num * P >= num;
    BytesCoverMapping(SolverSizes(num, args, swaRatio, floor, P), args, nScratch);
  }

  lemma BytesCoverMapping(s: PoolSizes, args: Args, nScratch: nat)
    requires |s.tiers| == |Ratios(args)|
    ensures BytesOf(s, args, nScratch) >= (s.fullToken + 1) * INT64_BYTES
  {
    var window: nat := |Ratios(args)| * s.nWinSlots * KvBytes(args);
  }

  // ---------------------------------------------------------------- the solver

  /** Bytes per page without the window tier, for the first upper bracket. */
  function CachePerPage(args: Args, P: nat, k: nat): nat
    requires k <= |Ratios(args)| && Supported(args)
  {
    if k == 0 then 0
    else
      var ratio := Ratios(args)[k - 1];
      CachePerPage(args, P, k - 1)
      + if ratio == 0 then 0
        else P / ratio * KvBytes(args) + if ratio == 4 then P / 4 * IndexBytes(args) else 0
  }

  datatype SolveError = NoRing | CannotFit

  /** A page count fits the budget. */
  predicate Fits(num: nat, available: nat, args: Args, swaRatio: Fraction, floor: nat, P: nat, nScratch: nat)
    requires Supported(args) && swaRatio.Valid() && P > 0
  {
    BytesAt(num, args, swaRatio, floor, P, nScratch) <= available
  }

  method PoolOf(num: nat, args: Args, swaRatio: Fraction, floor: nat, P: nat) returns (s: PoolSizes)
    requires Supported(args) && swaRatio.Valid() && P > 0
    ensures s == SolverSizes(num, args, swaRatio, floor, P)
  {
    var win := Max(floor, CeilDiv(RoundHalfEven(swaRatio.num * (num * P), swaRatio.den), P));
    s := DSV4PoolSizes(num, args, swaRatio, P, Some(win));
  }

  method BytesNeeded(num: nat, args: Args, swaRatio: Fraction, floor: nat, P: nat, nScratch: nat) returns (bytes: nat)
    requires Supported(args) && swaRatio.Valid() && P > 0
    ensures bytes == BytesAt(num, args, swaRatio, floor, P, nScratch)
  {
    var s := PoolOf(num, args, swaRatio, floor, P);
    bytes := DSV4PoolBytes(s, args, nScratch);
  }

  /** A page count at or above lo that does not fit: a first guess, doubled until it is too large. */
  method Bracket(lo: nat, available: nat, args: Args, swaRatio: Fraction, floor: nat, P: nat, nScratch: nat)
    returns (hi: nat)
    requires Supported(args) && swaRatio.Valid() && P > 0 && lo > 0
    ensures hi >= lo && !Fits(hi, available, args, swaRatio, floor, P, nScratch)
  {
    hi := Max(lo, available / Max(1, CachePerPage(args, P, |Ratios(args)|)));
    var bytes := BytesNeeded(hi, args, swaRatio, floor, P, nScratch);
    while bytes <= available
      invariant hi >= lo
      invariant bytes == BytesAt(hi, args, swaRatio, floor, P, nScratch)
      decreases available - hi
    {
      BytesGrow(hi, args, swaRatio, floor, P, nScratch);
      hi := hi * 2;
      bytes := BytesNeeded(hi, args, swaRatio, floor, P, nScratch);
    }
  }

  /**
  The largest pool that fits the budget: `num` pages, at least two and at least the window floor.  With no such pool
  the request is refused.
  */
  method SolveNumPages(available: nat, args: Args, swaRatio: Fraction, floor: nat, P: nat, nScratch: nat)
    returns (r: Result<PoolSizes, SolveError>, num: nat)
    requires swaRatio.Valid() && P > 0
    ensures r == Err(NoRing) <==> !Supported(args)
    ensures r == Err(CannotFit) ==>
            Supported(args) && NoneFits(Max(floor, 2), available, args, swaRatio, floor, P, nScratch)
    ensures r.Ok? ==> Supported(args) && num >= Max(floor, 2) && r.value == SolverSizes(num, args, swaRatio, floor, P)
    ensures r.Ok? ==> Demanded(r.value, num, args, swaRatio, floor, P)
    ensures r.Ok? ==> r.value.nWinPages >= floor && BytesOf(r.value, args, nScratch) <= available
    ensures r.Ok? ==> NoneFits(num + 1, available, args, swaRatio, floor, P, nScratch)
  {
    num := 0;
    if !Supported(args) { return Err(NoRing), 0; }
    var lo := Max(floor, 2);
    var bytes := BytesNeeded(lo, args, swaRatio, floor, P, nScratch);
    if bytes > available {
      NoneAbove(lo, available, args, swaRatio, floor, P, nScratch);
      return Err(CannotFit), 0;
    }
    var hi := Bracket(lo, available, args, swaRatio, floor, P, nScratch);
    while lo < hi - 1
      invariant Max(floor, 2) <= lo <= hi
      invariant Fits(lo, available, args, swaRatio, floor, P, nScratch)
                && !Fits(hi, available, args, swaRatio, floor, P, nScratch)
    {
      var mid := (lo + hi) / 2;
      bytes := BytesNeeded(mid, args, swaRatio, floor, P, nScratch);
      if bytes <= available { lo := mid; } else { hi := mid; }
    }
    assert hi == lo + 1;
    NoneAbove(hi, available, args, swaRatio, floor, P, nScratch);
    var s := PoolOf(lo, args, swaRatio, floor, P);
    DemandedIff(s, lo, args, swaRatio, floor, P);
    return Ok(s), lo;
  }

  /** No page count from `from` on fits, with the slot counts it must get. */
  ghost predicate NoneFits(from: nat, available: nat, args: Args, swaRatio: Fraction, floor: nat, P: nat, nScratch: nat)
    requires Supported(args) && swaRatio.Valid() && P > 0
  {
    forall n: nat, s: PoolSizes {:trigger Demanded(s, n, args, swaRatio, floor, P)} |
      n >= from && Demanded(s, n, args, swaRatio, floor, P) :: BytesOf(s, args, nScratch) > available
  }

  lemma NoneAbove(from: nat, available: nat, args: Args, swaRatio: Fraction, floor: nat, P: nat, nScratch: nat)
    requires Supported(args) && swaRatio.Valid() && P > 0 && !Fits(from, available, args, swaRatio, floor, P, nScratch)
    ensures NoneFits(from, available, args, swaRatio, floor, P, nScratch)
  {
    forall n: nat, s: PoolSizes | n >= from && Demanded(s, n, args, swaRatio, floor, P)
      ensures BytesOf(s, args, nScratch) > available
    {
      DemandedIff(s, n, args, swaRatio, floor, P);
      BytesMono(from, n, args, swaRatio, floor, P, nScratch);
    }
  }

  // ---------------------------------------------------------------- the bytes are what the pool allocates

  /** A tensor of rows x cols elements. */
  datatype Buffer = Buffer(rows: nat, cols: nat, elementSize: nat) {
    function Bytes(): nat { rows * cols * elementSize }
  }

  /** Everything the paged pool allocates; lists are per layer. */
  datatype Buffers = Buffers(fullToWindow: Buffer, window: seq<Buffer>, cmp: seq<Option<Buffer>>,
    idx: seq<Option<Buffer>>,
                             stateRing: seq<Option<Buffer>>, indexerRing: seq<Option<Buffer>>)

  function SumBuffers(bs: seq<Buffer>): nat {
    if bs == [] then 0 else SumBuffers(bs[..|bs| - 1]) + bs[|bs| - 1].Bytes()
  }

  function SumPresent(bs: seq<Option<Buffer>>): nat {
    if bs == [] then 0
    else SumPresent(bs[..|bs| - 1]) + Present(bs[|bs| - 1])
  }

  function Present(b: Option<Buffer>): nat {
    match b
    case None => 0
    case Some(buffer) => buffer.Bytes()
  }

  function TotalBytes(b: Buffers): nat {
    b.fullToWindow.Bytes() + SumBuffers(b.window) + SumPresent(b.cmp) + SumPresent(b.idx)
    + SumPresent(b.stateRing) + SumPresent(b.indexerRing)
  }

  /** A compress-state ring: one scratch row more than slots, kv and score halves. */
  function Ring(slots: nat, overlap: bool, dim: nat): Buffer {
    Buffer(slots + 1, 2 * ((1 + if overlap then 1 else 0) * dim), FP32_BYTES)
  }

  method AllocWindow(slots: nat, args: Args) returns (window: seq<Buffer>)
    ensures SumBuffers(window) == |Ratios(args)| * slots * KvBytes(args)
  {
    window := [];
    for L := 0 to |Ratios(args)|
      invariant |window| == L && SumBuffers(window) == L * slots * KvBytes(args)
    {
      var w := Buffer(slots, args.headDim, BF16_BYTES);
      OneMoreWindow(L, slots, args);
      assert (window + [w])[..L] == window;
      window := window + [w];
    }
  }

  /** The buffers of one layer. */
  method AllocLayer(tier: Option<Tier>, ratio: nat, args: Args, nScratch: nat)
    returns (cmp: Option<Buffer>, idx: Option<Buffer>, ring: Option<Buffer>, idxRing: Option<Buffer>)
    requires tier.Some? <==> ratio != 0
    requires tier.Some? ==> (tier.value.indexer.Some? <==> ratio == 4)
    ensures Present(cmp) + Present(idx) + Present(ring) + Present(idxRing) == TierBytes(args, ratio, tier, nScratch)
  {
    cmp, idx, ring, idxRing := None, None, None, None;
    if ratio == 0 { return; }
    var t := tier.value;
    cmp := Some(Buffer(t.cmpBlocks + nScratch, args.headDim, BF16_BYTES));
    if ratio == 4 {
      idx := Some(Buffer(t.indexer.value.idxBlocks + nScratch, args.indexHeadDim, BF16_BYTES));
      idxRing := Some(Ring(t.indexer.value.idxStateSlots, true, args.indexHeadDim));
    }
    ring := Some(Ring(t.stateSlots, ratio == 4, args.headDim));
    LayerCharged(t, ratio, args, nScratch);
  }

  /** Allocates the buffers of a pool of the given sizes; what it allocates is exactly what the cost model charges. */
  method AllocBuffers(s: PoolSizes, numPages: nat, winPages: nat, args: Args, P: nat, nScratch: nat)
    returns (b: Buffers)
    requires Supported(args) && s == Sizes(numPages, args, P, winPages)
    ensures TotalBytes(b) == BytesOf(s, args, nScratch)
  {
    var ratios := Ratios(args);
    var fullToWindow := Buffer(s.fullToken + 1, 1, INT64_BYTES);
    var window := AllocWindow(s.nWinSlots, args);
    var cmp: seq<Option<Buffer>>, idx: seq<Option<Buffer>> := [], [];
    var stateRing: seq<Option<Buffer>>, indexerRing: seq<Option<Buffer>> := [], [];
    for L := 0 to |ratios|
      invariant |cmp| == |idx| == |stateRing| == |indexerRing| == L
      invariant SumPresent(cmp) + SumPresent(idx) + SumPresent(stateRing) + SumPresent(indexerRing)
                == TiersBytes(args, s.tiers, nScratch, L)
    {
      var ratio := ratios[L];
      var c, x, r, xr := AllocLayer(s.tiers[L], ratio, args, nScratch);
      assert (cmp + [c])[..L] == cmp && (idx + [x])[..L] == idx;
      assert (stateRing + [r])[..L] == stateRing && (indexerRing + [xr])[..L] == indexerRing;
      cmp, idx, stateRing, indexerRing := cmp + [c], idx + [x], stateRing + [r], indexerRing + [xr];
    }
    b := Buffers(fullToWindow, window, cmp, idx, stateRing, indexerRing);
  }

  lemma OneMoreWindow(n: nat, slots: nat, args: Args)
    ensures (n + 1) * slots * KvBytes(args)
         == n * slots * KvBytes(args) + Buffer(slots, args.headDim, BF16_BYTES).Bytes()
  {
    assert (n + 1) * slots == n * slots + slots;
    assert (n * slots + slots) * KvBytes(args) == n * slots * KvBytes(args) + slots * KvBytes(args);
    assert slots * args.headDim * 2 == slots * (args.headDim * 2);
  }

  /** The charge for one layer is the bytes of its buffers. */
  lemma LayerCharged(t: Tier, ratio: nat, args: Args, nScratch: nat)
    ensures Buffer(t.cmpBlocks + nScratch, args.headDim, BF16_BYTES).Bytes() == (t.cmpBlocks + nScratch) * KvBytes(args)
    ensures Ring(t.stateSlots, ratio == 4, args.headDim).Bytes() == (t.stateSlots + 1) * StateBytes(args, ratio)
    ensures t.indexer.Some? ==>
              var x := t.indexer.value;
              && Buffer(x.idxBlocks + nScratch, args.indexHeadDim, BF16_BYTES).Bytes()
                 == (x.idxBlocks + nScratch) * IndexBytes(args)
              && Ring(x.idxStateSlots, true, args.indexHeadDim).Bytes() == (x.idxStateSlots + 1) * IdxStateBytes(args)
  {
    Regroup(t.cmpBlocks + nScratch, args.headDim, 2);
    Regroup(t.stateSlots + 1, 2 * ((1 + if ratio == 4 then 1 else 0) * args.headDim), 4);
    if t.indexer.Some? {
      Regroup(t.indexer.value.idxBlocks + nScratch, args.indexHeadDim, 2);
      Regroup(t.indexer.value.idxStateSlots + 1, 2 * (2 * args.indexHeadDim), 4);
    }
  }

  lemma Regroup(a: nat, b: nat, c: nat)
    ensures a * b * c == a * (b * c)
  {
  }
}
