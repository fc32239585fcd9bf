/**
The on-disk weight format: one logical byte stream holding every tensor, each padded to a block, cut into shard files.
*/
module FtwFormat {
  import opened Alignment

  const ALIGN: nat := 4096

  type Bytes = seq<bv8>

  /** Index record of one tensor. */
  datatype Entry = Entry(name: string, globalOff: nat, nbytes: nat)

  /** Index record of one shard; files are numbered. */
  datatype Shard = Shard(file: nat, globalOff: nat, nbytes: nat)

  datatype Index = Index(shards: seq<Shard>, tensors: seq<Entry>, totalBytes: nat, shardLimit: nat)

  /** Rounds up to a whole number of blocks, counting blocks off; AlignUpFormula is the usual formula. */
  function AlignUp(n: nat): nat {
    if n == 0 then 0 else if n <= ALIGN then ALIGN else ALIGN + AlignUp(n - ALIGN)
  }

  lemma {:induction false} AlignUpFormula(n: nat)
    ensures AlignUp(n) == (n + ALIGN - 1) / ALIGN * ALIGN
  {
    if n > ALIGN {
      AlignUpFormula(n - ALIGN);
      SubPage(n + ALIGN - 1, ALIGN);
    }
  }

  /** AlignUp is the smallest whole number of blocks that is enough. */
  lemma {:induction false} AlignUpIs(n: nat)
    ensures Aligned(AlignUp(n), ALIGN)
    ensures n <= AlignUp(n) < n + ALIGN
  {
    if n > ALIGN { AlignUpIs(n - ALIGN); }
  }

  /** A block boundary at or beyond n is at or beyond AlignUp(n). */
  lemma AlignUpLeast(n: nat, b: nat)
    requires Aligned(b, ALIGN) && n <= b
    ensures AlignUp(n) <= b
  {
    AlignUpIs(n);
    if b < AlignUp(n) { AlignedGap(b, AlignUp(n), ALIGN); }
  }

  lemma AlignUpShift(a: nat, n: nat)
    requires Aligned(a, ALIGN)
    ensures AlignUp(a + n) == a + AlignUp(n)
  {
    AlignUpIs(n);
    AlignedAdd(a, AlignUp(n), ALIGN);
    AlignUpLeast(a + n, a + AlignUp(n));
    AlignUpIs(a + n);
    AlignedSub(AlignUp(a + n), a, ALIGN);
    AlignUpLeast(n, AlignUp(a + n) - a);
  }

  // ---------------------------------------------------------------- the stream

  function Zeros(n: nat): (z: Bytes)
    ensures |z| == n
  {
    seq(n, _ => 0)
  }

  function PadLen(n: nat): (z: nat)
    ensures n + z == AlignUp(n)
  {
    AlignUpIs(n);
    AlignUp(n) - n
  }

  /** A tensor's bytes, filled up to a whole number of blocks. */
  function Padded(raw: Bytes): (p: Bytes)
    ensures |p| == AlignUp(|raw|) && raw <= p
  {
    raw + Zeros(PadLen(|raw|))
  }

  /** The stream of a list of tensors: it does not depend on the shard limit. */
  ghost function Laid(raws: seq<Bytes>): Bytes
    decreases |raws|
  {
    if raws == [] then [] else Laid(raws[..|raws| - 1]) + Padded(raws[|raws| - 1])
  }

  lemma LaidMore(raws: seq<Bytes>, raw: Bytes)
    ensures Laid(raws + [raw]) == Laid(raws) + raw + Zeros(PadLen(|raw|))
  {
    assert (raws + [raw])[..|raws|] == raws;
  }

  lemma {:induction false} LaidAligned(raws: seq<Bytes>)
    ensures Aligned(|Laid(raws)|, ALIGN)
    decreases |raws|
  {
    if raws != [] {
      LaidAligned(raws[..|raws| - 1]);
      AlignUpIs(|raws[|raws| - 1]|);
      AlignedAdd(|Laid(raws[..|raws| - 1])|, AlignUp(|raws[|raws| - 1]|), ALIGN);
    }
  }

  /** Where tensor k starts in the stream, and that the stream holds it there, followed by its padding. */
  lemma {:induction false} LaidAt(raws: seq<Bytes>, k: nat)
    requires k < |raws|
    ensures var off := |Laid(raws[..k])|;
            && Aligned(off, ALIGN)
            && off + AlignUp(|raws[k]|) <= |Laid(raws)|
            && Laid(raws)[off..off + AlignUp(|raws[k]|)] == Padded(raws[k])
    decreases |raws|
  {
    LaidAligned(raws[..k]);
    var rest := raws[..|raws| - 1];
    if k < |rest| {
      LaidAt(rest, k);
      assert rest[..k] == raws[..k];
    }
  }

  // ---------------------------------------------------------------- shards

  /** Shard i ends where the next one starts, the last one at the end. */
  ghost predicate Abuts(shards: seq<Shard>, i: nat, end: nat)
    requires i < |shards|
  {
    shards[i].globalOff + shards[i].nbytes == if i + 1 < |shards| then shards[i + 1].globalOff else end
  }

  /** The shards tile [0, end) in order. */
  ghost predicate Tile(shards: seq<Shard>, end: nat) {
    && (if shards == [] then end == 0 else shards[0].globalOff == 0)
    && forall i: nat {:trigger Abuts(shards, i, end)} | i < |shards| :: Abuts(shards, i, end)
  }

  /** Shard i is a block-aligned slice of the stream, at most `limit` bytes, stored in its file. */
  ghost predicate Sliced(shards: seq<Shard>, i: nat, disk: map<nat, Bytes>, stream: Bytes, limit: nat)
    requires i < |shards|
  {
    var s := shards[i];
    && Aligned(s.globalOff, ALIGN) && Aligned(s.nbytes, ALIGN) && s.nbytes <= limit
    && s.globalOff + s.nbytes <= |stream|
    && s.file in disk && disk[s.file] == stream[s.globalOff..s.globalOff + s.nbytes]
  }

  /** The shard files hold the first `end` bytes of the stream. */
  ghost predicate Stored(shards: seq<Shard>, disk: map<nat, Bytes>, stream: Bytes, limit: nat, end: nat) {
    && Tile(shards, end)
    && forall i: nat {:trigger Sliced(shards, i, disk, stream, limit)} | i < |shards| ::
         Sliced(shards, i, disk, stream, limit)
  }

  lemma StoredMore(shards: seq<Shard>, disk: map<nat, Bytes>, stream: Bytes, limit: nat, end: nat, s: Shard)
    requires Stored(shards, disk, stream, limit, end) && s.globalOff == end
    requires Sliced([s], 0, disk, stream, limit)
    ensures Stored(shards + [s], disk, stream, limit, end + s.nbytes)
  {
    var more, end' := shards + [s], end + s.nbytes;
    forall i: nat | i < |more| ensures Abuts(more, i, end') {
      if i < |shards| { assert Abuts(shards, i, end); }
    }
    forall i: nat | i < |more| ensures Sliced(more, i, disk, stream, limit) {
      assert if i < |shards| then Sliced(shards, i, disk, stream, limit) else Sliced([s], 0, disk, stream, limit);
    }
  }

  /** Growing the stream and writing another file leaves what the shards hold. */
  lemma StoredFrame(shards: seq<Shard>, disk: map<nat, Bytes>, file: nat, content: Bytes, stream: Bytes, stream': Bytes,
                    limit: nat, end: nat)
    requires Stored(shards, disk, stream, limit, end) && stream <= stream'
    requires forall i: nat {:trigger shards[i]} | i < |shards| :: shards[i].file != file
    ensures Stored(shards, disk[file := content], stream', limit, end)
  {
    var disk' := disk[file := content];
    forall i: nat | i < |shards| ensures Sliced(shards, i, disk', stream', limit) {
      assert Sliced(shards, i, disk, stream, limit);
      var s := shards[i];
      assert stream'[s.globalOff..s.globalOff + s.nbytes] == stream[s.globalOff..s.globalOff + s.nbytes];
    }
  }

  lemma StoredAligned(shards: seq<Shard>, disk: map<nat, Bytes>, stream: Bytes, limit: nat, end: nat)
    requires Stored(shards, disk, stream, limit, end)
    ensures Aligned(end, ALIGN)
  {
    if shards != [] {
      var k := |shards| - 1;
      assert Abuts(shards, k, end) && Sliced(shards, k, disk, stream, limit);
      AlignedAdd(shards[k].globalOff, shards[k].nbytes, ALIGN);
    }
  }

  /** No shard boundary falls strictly inside the range. */
  ghost predicate Whole(shards: seq<Shard>, off: nat, nbytes: nat) {
    forall i: nat {:trigger shards[i]} | i < |shards| ::
      shards[i].globalOff <= off || off + nbytes <= shards[i].globalOff
  }

  /** The index records tensor k where the stream holds it, and does not split it if a shard can hold it. */
  ghost predicate Recorded(tensors: seq<Entry>, k: nat, raws: seq<Bytes>, shards: seq<Shard>, limit: nat)
    requires k < |tensors| == |raws|
  {
    && tensors[k].globalOff == |Laid(raws[..k])| && tensors[k].nbytes == |raws[k]|
    && (tensors[k].nbytes <= limit ==> Whole(shards, tensors[k].globalOff, tensors[k].nbytes))
  }

  /** A finished checkpoint holding the given tensors. */
  ghost predicate Holds(index: Index, disk: map<nat, Bytes>, raws: seq<Bytes>) {
    && index.totalBytes == |Laid(raws)| && |index.tensors| == |raws|
    && Stored(index.shards, disk, Laid(raws), index.shardLimit, index.totalBytes)
    && forall k: nat {:trigger Recorded(index.tensors, k, raws, index.shards, index.shardLimit)} | k < |raws| ::
         Recorded(index.tensors, k, raws, index.shards, index.shardLimit)
  }
}
