/**
What goes in comes out: the whole format, writer to reader.
*/
module FtwRoundTrip {
  import opened Alignment
  import opened FtwFormat
  import opened FtwWriter
  import opened FtwTransfer

  /**
  The layout: tensors start at blocks, in order and apart even with their padding, inside the stream, and one that fits
  in a shard lies in a single shard.
  */
  lemma Layout(index: Index, disk: map<nat, Bytes>, raws: seq<Bytes>, k: nat)
    requires Holds(index, disk, raws) && k < |raws|
    ensures var e := index.tensors[k];
            && Aligned(e.globalOff, ALIGN) && e.nbytes == |raws[k]|
            && e.globalOff + AlignUp(e.nbytes)
               == (if k + 1 < |raws| then index.tensors[k + 1].globalOff else index.totalBytes)
            && (e.nbytes <= index.shardLimit ==> Whole(index.shards, e.globalOff, e.nbytes))
  {
    assert Recorded(index.tensors, k, raws, index.shards, index.shardLimit);
    LaidAligned(raws[..k]);
    LaidMore(raws[..k], raws[k]);
    assert raws[..k] + [raws[k]] == raws[..k + 1];
    if k + 1 < |raws| {
      assert Recorded(index.tensors, k + 1, raws, index.shards, index.shardLimit);
    } else {
      assert raws[..k + 1] == raws;
    }
  }

  /** Reads tensor k into a fresh buffer of whole blocks. */
  method ReadTensor(index: Index, disk: map<nat, Bytes>, k: nat, chunk: nat, ghost raws: seq<Bytes>)
    returns (raw: Bytes)
    requires Holds(index, disk, raws) && k < |raws|
    requires chunk > 0 && Aligned(chunk, ALIGN)
    ensures raw == raws[k]
  {
    assert Recorded(index.tensors, k, raws, index.shards, index.shardLimit);
    LaidAligned(raws);
    LaidAt(raws, k);
    var e := index.tensors[k];
    AlignUpIs(e.nbytes);
    var dest := new bv8[AlignUp(e.nbytes)];
    var r := ReadInto(index.shards, disk, dest, e.globalOff, e.nbytes, chunk, Laid(raws), index.shardLimit);
    raw := dest[..e.nbytes];
    if e.nbytes > 0 {
      assert dest[..] == Padded(raws[k]);
      assert dest[..e.nbytes] == dest[..][..e.nbytes];
    }
  }

  /** For every list of byte tensors, legal shard limit and chunk size, and whatever order and length the reads take. */
  method RoundTrip(names: seq<string>, raws: seq<Bytes>, limit: nat, chunk: nat) returns (out: seq<Bytes>)
    requires |names| == |raws|
    requires limit > 0 && Aligned(limit, ALIGN) && chunk > 0 && Aligned(chunk, ALIGN)
    ensures out == raws
  {
    var writer := new FTWWriter(limit);
    for k := 0 to |raws|
      invariant fresh(writer) && writer.Complete() && writer.raws == raws[..k]
    {
      writer.AddTensor(names[k], raws[k]);
    }
    var index := writer.Finalize();
    var disk := writer.disk;
    assert writer.raws == raws;
    assert Holds(index, disk, raws);
    out := [];
    for k := 0 to |raws|
      invariant out == raws[..k]
    {
      var raw := ReadTensor(index, disk, k, chunk, raws);
      out := out + [raw];
    }
  }
}
