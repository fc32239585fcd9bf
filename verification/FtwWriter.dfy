/**
The writer: tensors stream into shard files that are rolled at a size limit.
*/
module FtwWriter {
  import opened Alignment
  import opened FtwFormat

  /** The later list has the earlier cuts, and new ones only at or after `from`. */
  ghost predicate NewCuts(before: seq<Shard>, after: seq<Shard>, from: nat) {
    && |before| <= |after|
    && (forall i: nat {:trigger after[i]} | i < |before| :: after[i].globalOff == before[i].globalOff)
    && (forall i: nat {:trigger after[i]} | |before| <= i < |after| :: after[i].globalOff >= from)
  }

  lemma WholeKept(before: seq<Shard>, after: seq<Shard>, from: nat, off: nat, nbytes: nat)
    requires NewCuts(before, after, from) && Whole(before, off, nbytes) && off + nbytes <= from
    ensures Whole(after, off, nbytes)
  {
    forall i: nat | i < |after| ensures after[i].globalOff <= off || off + nbytes <= after[i].globalOff {
      if i < |before| { assert before[i].globalOff == after[i].globalOff; }
    }
  }

  lemma NewCutsJoin(a: seq<Shard>, b: seq<Shard>, c: seq<Shard>, from: nat, later: nat)
    requires NewCuts(a, b, from) && NewCuts(b, c, later) && from <= later
    ensures NewCuts(a, c, from)
  {
    forall i: nat | i < |c| ensures i < |a| ==> c[i].globalOff == a[i].globalOff
                            ensures |a| <= i ==> c[i].globalOff >= from {
      if i < |b| { assert b[i].globalOff == c[i].globalOff; }
    }
  }

  /** Each new cut comes after a full shard. */
  ghost predicate FullCuts(before: seq<Shard>, after: seq<Shard>, limit: nat) {
    forall i: nat {:trigger after[i]} | i > 0 && |before| <= i < |after| ::
      after[i].globalOff - after[i - 1].globalOff == limit
  }

  lemma FullCutsJoin(a: seq<Shard>, b: seq<Shard>, c: seq<Shard>, limit: nat, from: nat)
    requires FullCuts(a, b, limit) && FullCuts(b, c, limit) && NewCuts(b, c, from) && |a| <= |b|
    ensures FullCuts(a, c, limit)
  {
    forall i: nat | i > 0 && |a| <= i < |c| ensures c[i].globalOff - c[i - 1].globalOff == limit {
      if i < |b| { assert c[i].globalOff == b[i].globalOff && c[i - 1].globalOff == b[i - 1].globalOff; }
    }
  }

  lemma CutsJoin(a: seq<Shard>, b: seq<Shard>, c: seq<Shard>, limit: nat, from: nat, later: nat, full: bool)
    requires NewCuts(a, b, from) && NewCuts(b, c, later) && from <= later
    requires full ==> FullCuts(a, b, limit) && FullCuts(b, c, limit)
    ensures NewCuts(a, c, from) && (full ==> FullCuts(a, c, limit))
  {
    NewCutsJoin(a, b, c, from, later);
    if full { FullCutsJoin(a, b, c, limit, later); }
  }

  /**
  Placing n bytes at `from` cuts only after a full shard, or at once because the bytes fit in a shard but not in what is
  left of the open one.
  */
  ghost predicate PlaceCuts(before: seq<Shard>, after: seq<Shard>, limit: nat, from: nat, n: nat) {
    forall i: nat {:trigger after[i]} | i > 0 && |before| <= i < |after| ::
      || after[i].globalOff - after[i - 1].globalOff == limit
      || (after[i].globalOff == from && n <= limit < from - after[i - 1].globalOff + n)
  }

  lemma PlaceCutsJoin(a: seq<Shard>, b: seq<Shard>, c: seq<Shard>, limit: nat, from: nat, n: nat)
    requires PlaceCuts(a, b, limit, from, n) && FullCuts(b, c, limit) && NewCuts(b, c, from) && |a| <= |b|
    ensures PlaceCuts(a, c, limit, from, n)
  {
    forall i: nat | i > 0 && |a| <= i < |c|
      ensures || c[i].globalOff - c[i - 1].globalOff == limit
              || (c[i].globalOff == from && n <= limit < from - c[i - 1].globalOff + n)
    {
      if i < |b| { assert c[i].globalOff == b[i].globalOff && c[i - 1].globalOff == b[i - 1].globalOff; }
    }
  }

  /** Nothing has been cut, or a first shard opened. */
  lemma NoCuts(before: seq<Shard>, after: seq<Shard>, limit: nat, from: nat)
    requires before == after || (before == [] && |after| == 1 && after[0].globalOff >= from)
    ensures NewCuts(before, after, from) && FullCuts(before, after, limit)
  {
  }

  lemma NothingPlaced(shards: seq<Shard>, limit: nat, from: nat, n: nat)
    ensures PlaceCuts(shards, shards, limit, from, n)
  {
  }

  lemma OneCut(before: seq<Shard>, after: seq<Shard>, limit: nat, from: nat, n: nat)
    requires NewCuts(before, after, from) && |after| == |before| + 1 && after[|before|].globalOff == from
    requires before != [] ==> n <= limit < from - before[|before| - 1].globalOff + n
    ensures PlaceCuts(before, after, limit, from, n)
  {
  }

  /** A shard ends where it is full, or before a tensor that fits in a shard and would not have fitted in this one. */
  ghost predicate CutNeeded(shards: seq<Shard>, i: nat, tensors: seq<Entry>, limit: nat)
    requires 0 < i < |shards|
  {
    var size := shards[i].globalOff - shards[i - 1].globalOff;
    || size == limit
    || exists k: nat {:trigger tensors[k]} | k < |tensors| ::
         tensors[k].globalOff == shards[i].globalOff && tensors[k].nbytes <= limit < size + tensors[k].nbytes
  }

  ghost predicate CutsNeeded(shards: seq<Shard>, tensors: seq<Entry>, limit: nat) {
    forall i: nat {:trigger CutNeeded(shards, i, tensors, limit)} | 0 < i < |shards| ::
      CutNeeded(shards, i, tensors, limit)
  }

  /** One more tensor, placed at `from`. */
  lemma CutsNeededMore(before: seq<Shard>, after: seq<Shard>, tensors: seq<Entry>, e: Entry, limit: nat)
    requires CutsNeeded(before, tensors, limit) && NewCuts(before, after, e.globalOff)
    requires PlaceCuts(before, after, limit, e.globalOff, e.nbytes)
    ensures CutsNeeded(after, tensors + [e], limit)
  {
    var more := tensors + [e];
    forall i: nat | 0 < i < |after| ensures CutNeeded(after, i, more, limit) {
      if i < |before| {
        assert after[i].globalOff == before[i].globalOff && after[i - 1].globalOff == before[i - 1].globalOff;
        assert CutNeeded(before, i, tensors, limit);
        assert forall k: nat | k < |tensors| :: more[k] == tensors[k];
      } else {
        assert more[|tensors|] == e;
        assert after[i].globalOff - after[i - 1].globalOff == limit
               || (after[i].globalOff == e.globalOff
                   && e.nbytes <= limit < e.globalOff - after[i - 1].globalOff + e.nbytes);
      }
    }
  }

  class FTWWriter {
    const shardLimit: nat
    var tensors: seq<Entry>
    var shards: seq<Shard>         // the closed shards
    var global: nat                // running offset, padding included
    var open: bool                 // a shard file is open
    var shardIdx: int
    var shardStart: nat
    var cur: nat
    var disk: map<nat, Bytes>      // shard files by number
    ghost var stream: Bytes        // everything written so far
    ghost var raws: seq<Bytes>     // the tensors added so far

    /** The shards of the index if the writer were finalized now. */
    ghost function Now(): seq<Shard>
      reads this
      requires open ==> shardIdx >= 0
    {
      shards + if open then [Shard(shardIdx, shardStart, cur)] else []
    }

    ghost predicate Valid()
      reads this
    {
      && shardLimit > 0 && Aligned(shardLimit, ALIGN)
      && global == |stream|
      && shardIdx == |shards| - (if open then 0 else 1)
      && (forall i: nat {:trigger shards[i]} | i < |shards| :: shards[i].file == i && shards[i].globalOff <= global)
      && Stored(shards, disk, stream, shardLimit, if open then shardStart else global)
      && (open ==>
            && Aligned(shardStart, ALIGN) && shardStart + cur == global && cur <= shardLimit
            && shardIdx in disk && disk[shardIdx] == stream[shardStart..])
    }

    /** Between two tensors: the stream is the tensors laid out, and the index records each of them. */
    ghost predicate Complete()
      reads this
    {
      && Valid() && Aligned(global, ALIGN)
      && stream == Laid(raws) && |tensors| == |raws|
      && forall k: nat {:trigger Recorded(tensors, k, raws, Now(), shardLimit)} | k < |tensors| ::
           Recorded(tensors, k, raws, Now(), shardLimit)
    }

    /** Not finalized yet, and every shard was ended for a reason. */
    ghost predicate Tight()
      reads this
    {
      (open || shards == []) && (open ==> shardIdx >= 0) && CutsNeeded(Now(), tensors, shardLimit)
    }

    constructor (limit: nat)
      requires limit > 0 && Aligned(limit, ALIGN)
      ensures Complete() && Tight() && shardLimit == limit && raws == [] && tensors == []
    {
      shardLimit := limit;
      tensors, shards, global, open, shardIdx, shardStart, cur, disk := [], [], 0, false, -1, 0, 0, map[];
      stream, raws := [], [];
    }

    method Roll()
      requires Valid() && (open ==> Aligned(cur, ALIGN))
      modifies `shards, `shardIdx, `shardStart, `cur, `open, `disk
      ensures Valid() && open && cur == 0 && shardIdx >= 0
      ensures NewCuts(old(Now()), Now(), global)
      ensures |Now()| == |old(Now())| + 1 && Now()[|old(Now())|].globalOff == global
    {
      if open {
        var s := Shard(shardIdx, shardStart, cur);
        StoredMore(shards, disk, stream, shardLimit, shardStart, s);
        shards := shards + [s];
      }
      shardIdx := shardIdx + 1;
      shardStart := global;
      cur := 0;
      open := true;
      StoredFrame(shards, disk, shardIdx, [], stream, stream, shardLimit, global);
      StoredAligned(shards, disk, stream, shardLimit, global);
      disk := disk[shardIdx := []];
    }

    /** Appends a piece that fits to the open shard. */
    method Emit(piece: Bytes)
      requires Valid() && open && cur + |piece| <= shardLimit
      modifies `cur, `disk, `global, `stream
      ensures Valid() && cur == old(cur) + |piece|
      ensures stream == old(stream) + piece
      ensures |Now()| == |old(Now())| && NewCuts(old(Now()), Now(), old(global))
    {
      StoredFrame(shards, disk, shardIdx, disk[shardIdx] + piece, stream, stream + piece, shardLimit, shardStart);
      disk := disk[shardIdx := disk[shardIdx] + piece];
      cur := cur + |piece|;
      global := global + |piece|;
      stream := stream + piece;
    }

    /** One turn of the write loop: rolls a full shard, then writes what fits of the data. */
    method WriteSome(data: Bytes) returns (take: nat)
      requires Valid() && open && |data| > 0
      modifies `shards, `shardIdx, `shardStart, `cur, `open, `disk, `global, `stream
      ensures Valid() && open && 0 < take <= |data| && shardIdx >= 0 && global >= old(global)
      ensures stream == old(stream) + data[..take]
      ensures NewCuts(old(Now()), Now(), old(global)) && FullCuts(old(Now()), Now(), shardLimit)
      ensures old(cur) + |data| <= shardLimit ==> take == |data| && |Now()| == |old(Now())|
    {
      ghost var before, from := Now(), global;
      if cur == shardLimit { Roll(); }
      take := if |data| <= shardLimit - cur then |data| else shardLimit - cur;
      ghost var middle := Now();
      Emit(data[..take]);
      NewCutsJoin(before, middle, Now(), from, from);
    }

    /** Appends the data to the stream, splitting it across shards at the limit. */
    method WriteRaw(data: Bytes)
      requires Valid()
      modifies `shards, `shardIdx, `shardStart, `cur, `open, `disk, `global, `stream
      ensures Valid() && open && shardIdx >= 0
      ensures stream == old(stream) + data
      ensures NewCuts(old(Now()), Now(), old(global))
      ensures old(open) || old(shards) == [] ==> FullCuts(old(Now()), Now(), shardLimit)
      ensures old(open) && old(cur) + |data| <= shardLimit ==> |Now()| == |old(Now())|
    {
      hide Stored, NewCuts, FullCuts, Valid;
      Indexed();
      ghost var before, from, was := Now(), global, stream;
      ghost var fits := open && cur + |data| <= shardLimit;
      ghost var begun := open || shards == [];
      NoCuts(before, before, shardLimit, from);
      if !open { Roll(); }
      if begun { NoCuts(before, Now(), shardLimit, from); }
      var off := 0;
      while off < |data|
        invariant off <= |data|
        invariant Valid() && open && from <= global && shardIdx >= 0
        invariant stream == was + data[..off]
        invariant NewCuts(before, Now(), from) && (begun ==> FullCuts(before, Now(), shardLimit))
        invariant fits && off == 0 ==> cur + |data| <= shardLimit
        invariant fits ==> (off == 0 || off == |data|) && |Now()| == |before|
      {
        ghost var middle, at := Now(), global;
        var take := WriteSome(data[off..]);
        CutsJoin(before, middle, Now(), shardLimit, from, at, begun);
        SliceMore(was, data, off, take);
        off := off + take;
      }
    }

    lemma Indexed()
      requires Valid()
      ensures global == |stream|
      ensures open ==> shardIdx >= 0 && Aligned(shardStart, ALIGN) && shardStart + cur == global
                         && Now()[|Now()| - 1].globalOff == shardStart
      ensures forall i: nat {:trigger Now()[i]} | i < |Now()| :: Now()[i].globalOff <= global
    {
    }

    /** The padding of the open shard fits in it. */
    lemma PadFits()
      requires Valid() && open
      ensures cur + PadLen(global) <= shardLimit
    {
      AlignUpShift(shardStart, cur);
      AlignUpLeast(cur, shardLimit);
    }

    /** Writes the bytes of a tensor, rolling early so that a small tensor is never split. */
    method Place(raw: Bytes)
      requires Valid() && Aligned(global, ALIGN)
      modifies `shards, `shardIdx, `shardStart, `cur, `open, `disk, `global, `stream
      ensures Valid() && open && shardIdx >= 0
      ensures stream == old(stream) + raw
      ensures NewCuts(old(Now()), Now(), old(global))
      ensures |raw| <= shardLimit ==>
                forall i: nat {:trigger Now()[i]} | i < |Now()| :: Now()[i].globalOff <= old(global)
      ensures old(open) || old(shards) == [] ==> PlaceCuts(old(Now()), Now(), shardLimit, old(global), |raw|)
    {
      hide Stored, NewCuts, FullCuts, PlaceCuts, Valid;
      Indexed();
      ghost var before, from, begun := Now(), global, open || shards == [];
      NoCuts(before, before, shardLimit, from);
      NothingPlaced(before, shardLimit, from, |raw|);
      if open { AlignedSub(global, shardStart, ALIGN); }
      if !open || (|raw| <= shardLimit && cur + |raw| > shardLimit) {
        Roll();
        if begun { OneCut(before, Now(), shardLimit, from, |raw|); }
      }
      Indexed();
      ghost var rolled := Now();
      WriteRaw(raw);
      NewCutsJoin(before, rolled, Now(), from, from);
      if begun { PlaceCutsJoin(before, rolled, Now(), shardLimit, from, |raw|); }
      if |raw| <= shardLimit { SameBelow(rolled, Now(), from); }
    }

    /** Fills the stream up to a whole number of blocks, inside the open shard. */
    method Pad()
      requires Valid() && open
      modifies `shards, `shardIdx, `shardStart, `cur, `open, `disk, `global, `stream
      ensures Valid() && open && shardIdx >= 0 && Aligned(global, ALIGN)
      ensures stream == old(stream) + Zeros(PadLen(old(global)))
      ensures |Now()| == |old(Now())| && NewCuts(old(Now()), Now(), old(global))
    {
      AlignUpIs(global);
      PadFits();
      var pad := PadLen(global);
      if pad > 0 { WriteRaw(Zeros(pad)); }
    }

    /** Writes the bytes of a tensor and fills up the block. */
    method WriteTensor(raw: Bytes)
      requires Valid() && Aligned(global, ALIGN)
      modifies `shards, `shardIdx, `shardStart, `cur, `open, `disk, `global, `stream
      ensures Valid() && open && shardIdx >= 0 && Aligned(global, ALIGN)
      ensures stream == old(stream) + raw + Zeros(PadLen(|raw|))
      ensures NewCuts(old(Now()), Now(), old(global))
      ensures |raw| <= shardLimit ==>
                forall i: nat {:trigger Now()[i]} | i < |Now()| :: Now()[i].globalOff <= old(global)
      ensures old(open) || old(shards) == [] ==> PlaceCuts(old(Now()), Now(), shardLimit, old(global), |raw|)
    {
      hide Stored, NewCuts, FullCuts, PlaceCuts, Valid;
      Indexed();
      ghost var before, from, begun := Now(), global, open || shards == [];
      Place(raw);
      Indexed();
      ghost var placed := Now();
      AlignUpShift(from, |raw|);
      Pad();
      NewCutsJoin(before, placed, Now(), from, from);
      if begun { SameCuts(before, placed, Now(), shardLimit, from, |raw|); }
      if |raw| <= shardLimit { SameBelow(placed, Now(), from); }
    }

    /**
    Adds a tensor: it starts at a block, lands whole in one shard if a shard can hold it, and is padded to a block.
    */
    method AddTensor(name: string, raw: Bytes)
      requires Complete()
      modifies this
      ensures Complete()
      ensures raws == old(raws) + [raw]
      ensures tensors == old(tensors) + [Entry(name, |Laid(old(raws))|, |raw|)]
      ensures old(Tight()) ==> Tight()
    {
      hide Stored, Recorded, AlignUp, CutsNeeded, PlaceCuts, NewCuts, FullCuts, Laid;
      ghost var before, was, off, oldTensors := Now(), raws, global, tensors;
      var globalOff := global;
      WriteTensor(raw);
      tensors := tensors + [Entry(name, globalOff, |raw|)];
      if old(Tight()) { CutsNeededMore(before, Now(), oldTensors, Entry(name, off, |raw|), shardLimit); }
      raws := raws + [raw];
      LaidMore(was, raw);
      RecordedMore(oldTensors, tensors, was, raws, before, Now(), shardLimit);
    }

    /** Closes the last shard and writes the index. */
    method Finalize() returns (index: Index)
      requires Complete()
      modifies `shards, `open
      ensures Complete() && !open
      ensures index == Index(old(Now()), tensors, global, shardLimit) && Holds(index, disk, raws)
      ensures old(Tight()) ==> CutsNeeded(index.shards, index.tensors, index.shardLimit)
    {
      if open {
        AlignedSub(global, shardStart, ALIGN);
        StoredMore(shards, disk, stream, shardLimit, shardStart, Shard(shardIdx, shardStart, cur));
        shards := shards + [Shard(shardIdx, shardStart, cur)];
        open := false;
      }
      index := Index(shards, tensors, global, shardLimit);
      assert Now() == old(Now());
    }
  }

  lemma SameBelow(rolled: seq<Shard>, after: seq<Shard>, from: nat)
    requires |after| == |rolled| && NewCuts(rolled, after, from)
    requires forall i: nat {:trigger rolled[i]} | i < |rolled| :: rolled[i].globalOff <= from
    ensures forall i: nat {:trigger after[i]} | i < |after| :: after[i].globalOff <= from
  {
  }

  lemma SliceMore(was: Bytes, data: Bytes, off: nat, take: nat)
    requires off + take <= |data|
    ensures was + data[..off] + data[off..][..take] == was + data[..off + take]
  {
  }

  lemma SameCuts(before: seq<Shard>, placed: seq<Shard>, after: seq<Shard>, limit: nat, from: nat, n: nat)
    requires PlaceCuts(before, placed, limit, from, n) && |after| == |placed| && NewCuts(placed, after, from)
    ensures PlaceCuts(before, after, limit, from, n)
  {
    forall i: nat | i < |after| ensures after[i].globalOff == placed[i].globalOff {}
  }

  /** The index stays right when one more tensor is recorded. */
  lemma RecordedMore(tensors: seq<Entry>, tensors': seq<Entry>, raws: seq<Bytes>, raws': seq<Bytes>,
                     before: seq<Shard>, after: seq<Shard>, limit: nat)
    requires |tensors| == |raws| && |tensors'| == |raws'| == |raws| + 1
    requires tensors == tensors'[..|raws|] && raws == raws'[..|raws|]
    requires forall k: nat {:trigger Recorded(tensors, k, raws, before, limit)} | k < |tensors| ::
               Recorded(tensors, k, raws, before, limit)
    requires tensors'[|raws|].globalOff == |Laid(raws)| && tensors'[|raws|].nbytes == |raws'[|raws|]|
    requires NewCuts(before, after, |Laid(raws)|)
    requires tensors'[|raws|].nbytes <= limit ==>
             forall i: nat {:trigger after[i]} | i < |after| :: after[i].globalOff <= |Laid(raws)|
    ensures forall k: nat {:trigger Recorded(tensors', k, raws', after, limit)} | k < |tensors'| ::
              Recorded(tensors', k, raws', after, limit)
  {
    forall k: nat | k < |tensors'| ensures Recorded(tensors', k, raws', after, limit) {
      assert raws'[..k] == raws[..k];
      if k < |raws| {
        assert Recorded(tensors, k, raws, before, limit);
        LaidAt(raws, k);
        AlignUpIs(|raws[k]|);
        if tensors[k].nbytes <= limit {
          WholeKept(before, after, |Laid(raws)|, tensors[k].globalOff, tensors[k].nbytes);
        }
      }
    }
  }
}
