/**
Expert banks: one flat region carved into layers at load, or one entry per layer written as layers complete.
*/
module FtwBanks {
  import opened Wrappers
  import opened Alignment
  import opened FtwFormat
  import opened FtwWriter
  import opened FtwTransfer

  // ---------------------------------------------------------------- the flat layout

  /** Bytes [lo, lo + len) of tensor k, cut out of their block-aligned enclosing window. */
  method LoadWindow(index: Index, disk: map<nat, Bytes>, k: nat, lo: nat, len: nat, chunk: nat, ghost raws: seq<Bytes>)
    returns (part: Bytes)
    requires Holds(index, disk, raws) && k < |raws| && lo + len <= |raws[k]|
    requires chunk > 0 && Aligned(chunk, ALIGN)
    ensures part == raws[k][lo..lo + len]
  {
    hide Aligned, AlignDown, Laid;
    assert Recorded(index.tensors, k, raws, index.shards, index.shardLimit);
    var off := index.tensors[k].globalOff + lo;
    var winOff, winEnd := AlignDown(off, ALIGN), AlignUp(off + len);
    WindowInside(raws, k, lo, len);
    LaidAligned(raws);
    var dest := new bv8[winEnd - winOff];
    var _ := ReadInto(index.shards, disk, dest, winOff, winEnd - winOff, chunk, Laid(raws), index.shardLimit);
    var headPad := off - winOff;
    part := dest[headPad..headPad + len];
    if winEnd > winOff {
      assert dest[..] == Laid(raws)[winOff..winEnd];
      WindowBytes(raws, k, lo, len);
      Carve(Laid(raws), winOff, winEnd, off, len);
      assert part == dest[..][headPad..headPad + len];
    } else {
      assert len == 0;
    }
  }

  /** The window of a part of tensor k: block-aligned, around the part, inside the stream. */
  lemma WindowInside(raws: seq<Bytes>, k: nat, lo: nat, len: nat)
    requires k < |raws| && lo + len <= |raws[k]|
    ensures var off := |Laid(raws[..k])| + lo; var winOff, winEnd := AlignDown(off, ALIGN), AlignUp(off + len);
            && Aligned(winOff, ALIGN) && winOff <= off && off + len <= winEnd <= |Laid(raws)|
            && AlignUp(winEnd - winOff) == winEnd - winOff
  {
    hide Aligned, AlignDown, AlignUp, Laid;
    var start := |Laid(raws[..k])|;
    var off := start + lo;
    var winOff, winEnd := AlignDown(off, ALIGN), AlignUp(off + len);
    LaidAt(raws, k);
    AlignDownIs(off, ALIGN);
    AlignUpIs(off + len);
    AlignUpIs(|raws[k]|);
    AlignedAdd(start, AlignUp(|raws[k]|), ALIGN);
    AlignUpLeast(off + len, start + AlignUp(|raws[k]|));
    AlignedSub(winEnd, winOff, ALIGN);
    AlignUpIs(winEnd - winOff);
    AlignUpLeast(winEnd - winOff, winEnd - winOff);
  }

  /** The part sits in the stream at its offset. */
  lemma WindowBytes(raws: seq<Bytes>, k: nat, lo: nat, len: nat)
    requires k < |raws| && lo + len <= |raws[k]|
    ensures var off := |Laid(raws[..k])| + lo;
            off + len <= |Laid(raws)| && Laid(raws)[off..off + len] == raws[k][lo..lo + len]
  {
    LaidAt(raws, k);
    AlignUpIs(|raws[k]|);
    var start, all := |Laid(raws[..k])|, AlignUp(|raws[k]|);
    var region := Laid(raws)[start..start + all];
    var part, want := Laid(raws)[start + lo..start + lo + len], raws[k][lo..lo + len];
    forall i | 0 <= i < len ensures part[i] == want[i] {
      assert part[i] == region[lo + i] == Padded(raws[k])[lo + i];
    }
  }

  lemma Carve(all: Bytes, from: nat, to: nat, off: nat, len: nat)
    requires from <= off && off + len <= to <= |all|
    ensures all[from..to][off - from..off - from + len] == all[off..off + len]
  {
    var window, l, r := all[from..to], all[from..to][off - from..off - from + len], all[off..off + len];
    forall i | 0 <= i < len ensures l[i] == r[i] { assert window[off - from + i] == all[off + i]; }
  }

  /** When elements divide a block, a layer starts at a whole number of elements in its window. */
  lemma HeadPadWhole(globalOff: nat, lo: nat, elsize: nat)
    requires Aligned(globalOff, ALIGN) && elsize > 0 && Aligned(ALIGN, elsize) && Aligned(lo, elsize)
    ensures AlignDown(globalOff + lo, ALIGN) <= globalOff + lo
    ensures Aligned(globalOff + lo - AlignDown(globalOff + lo, ALIGN), elsize)
  {
    var win := AlignDown(globalOff + lo, ALIGN);
    AlignDownIs(globalOff + lo, ALIGN);
    AlignedThrough(globalOff, ALIGN, elsize);
    AlignedThrough(win, ALIGN, elsize);
    AlignedAdd(globalOff, lo, elsize);
    AlignedSub(globalOff + lo, win, elsize);
  }

  function Flatten(parts: seq<Bytes>): Bytes {
    if parts == [] then [] else Flatten(parts[..|parts| - 1]) + parts[|parts| - 1]
  }

  datatype BankError = Uneven | WrongSize | WrongLayers | MixedLayouts

  /** The layers of a flat bank of `rows` rows of `rowBytes` bytes each. */
  method LoadFlat(index: Index, disk: map<nat, Bytes>, k: nat, rows: nat, rowBytes: nat, numLayers: nat, chunk: nat,
                  ghost raws: seq<Bytes>)
    returns (r: Result<seq<Bytes>, BankError>)
    requires Holds(index, disk, raws) && k < |raws| && numLayers > 0
    requires chunk > 0 && Aligned(chunk, ALIGN)
    ensures r.Ok? <==> rows % numLayers == 0 && rows / numLayers * rowBytes * numLayers == |raws[k]|
    ensures r.Ok? ==> |r.value| == numLayers && Flatten(r.value) == raws[k]
                      && forall l | 0 <= l < numLayers :: |r.value[l]| == rows / numLayers * rowBytes
  {
    assert Recorded(index.tensors, k, raws, index.shards, index.shardLimit);
    if rows % numLayers != 0 { return Err(Uneven); }
    var layerBytes: nat := rows / numLayers * rowBytes;
    if layerBytes * numLayers != index.tensors[k].nbytes { return Err(WrongSize); }
    var layers: seq<Bytes> := [];
    for l := 0 to numLayers
      invariant |layers| == l && forall i | 0 <= i < l :: |layers[i]| == layerBytes
      invariant l * layerBytes <= |raws[k]| && Flatten(layers) == raws[k][..l * layerBytes]
    {
      LayerInside(l, numLayers, layerBytes);
      var lo := l * layerBytes;
      var part := LoadWindow(index, disk, k, lo, layerBytes, chunk, raws);
      assert (layers + [part])[..l] == layers;
      assert raws[k][..lo + layerBytes] == raws[k][..lo] + raws[k][lo..lo + layerBytes];
      layers := layers + [part];
    }
    return Ok(layers);
  }

  lemma LayerInside(l: nat, n: nat, size: nat)
    requires l < n
    ensures l * size >= 0 && (l + 1) * size == l * size + size && l * size + size <= n * size
  {
    assert n * size == (l + 1) * size + (n - l - 1) * size;
  }
}
