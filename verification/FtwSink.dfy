/**
Streaming conversion: layers arrive in whatever order they complete and are written at once, one entry per bank.
*/
module FtwSink {
  import opened Wrappers
  import opened Alignment
  import opened FtwFormat
  import opened FtwWriter
  import opened FtwNames
  import opened FtwBanks
  import opened FtwRoundTrip

  function Named(banks: seq<(string, Bytes)>, layer: nat): (r: seq<(string, nat)>)
    ensures |r| == |banks|
  {
    seq(|banks|, i requires 0 <= i < |banks| => (banks[i].0, layer))
  }

  function Contents(banks: seq<(string, Bytes)>): (r: seq<Bytes>)
    ensures |r| == |banks|
  {
    seq(|banks|, i requires 0 <= i < |banks| => banks[i].1)
  }

  function Bulk(parts: seq<Bytes>): nat {
    if parts == [] then 0 else Bulk(parts[..|parts| - 1]) + |parts[|parts| - 1]|
  }

  class ConvertSink {
    const writer: FTWWriter
    var seen: set<nat>
    var nWritten: nat
    var nBytes: nat
    ghost var log: seq<(string, nat)>   // bank and layer of every entry

    ghost predicate Valid()
      reads this, writer
    {
      && writer.Complete() && |log| == |writer.tensors|
      && (forall k: nat {:trigger log[k]} | k < |log| :: writer.tensors[k].name == LayerName(log[k].0, log[k].1))
      && nWritten == |log| && nBytes == Bulk(writer.raws)
    }

    constructor (w: FTWWriter)
      requires w.Complete() && w.raws == []
      ensures Valid() && writer == w && seen == {} && log == []
    {
      writer := w;
      seen, nWritten, nBytes, log := {}, 0, 0, [];
    }

    method WriteBank(layer: nat, bank: string, bytes: Bytes)
      requires Valid()
      modifies writer, `nWritten, `nBytes, `log
      ensures Valid()
      ensures log == old(log) + [(bank, layer)] && writer.raws == old(writer.raws) + [bytes]
    {
      ghost var before := writer.raws;
      writer.AddTensor(LayerName(bank, layer), bytes);
      assert writer.raws[..|writer.raws| - 1] == before;
      nWritten := nWritten + 1;
      nBytes := nBytes + |bytes|;
      log := log + [(bank, layer)];
    }

    /** A layer has completed.  Each layer is accepted once; a repeated layer is refused and nothing is written. */
    method Accept(layer: nat, banks: seq<(string, Bytes)>) returns (ok: bool)
      requires Valid()
      modifies this, writer
      ensures Valid() && (ok <==> layer !in old(seen))
      ensures log == old(log) + if ok then Named(banks, layer) else []
      ensures writer.raws == old(writer.raws) + if ok then Contents(banks) else []
      ensures seen == old(seen) + {layer}
    {
      if layer in seen { return false; }
      seen := seen + {layer};
      for i := 0 to |banks|
        invariant Valid()
        invariant log == old(log) + Named(banks, layer)[..i]
        invariant writer.raws == old(writer.raws) + Contents(banks)[..i]
        invariant seen == old(seen) + {layer}
      {
        WriteBank(layer, banks[i].0, banks[i].1);
      }
      ok := true;
    }
  }

  // ---------------------------------------------------------------- reading the layers back

  const ALPHA_NAMES: set<string> := {"gate_up_alpha", "down_alpha"}

  /** The name of a bank written as one region: neither a layer's entry nor a scale vector. */
  predicate IsFlat(name: string) { name !in ALPHA_NAMES && ParseName(name).None? }

  /** The entries among the first n that hold a whole bank, in order. */
  function FlatEntries(tensors: seq<Entry>, n: nat): seq<nat>
    requires n <= |tensors|
  {
    if n == 0 then [] else FlatEntries(tensors, n - 1) + if IsFlat(tensors[n - 1].name) then [n - 1] else []
  }

  lemma {:induction false} FlatEntriesAre(tensors: seq<Entry>, n: nat)
    requires n <= |tensors|
    ensures forall k: nat {:trigger k in FlatEntries(tensors, n)} ::
              k in FlatEntries(tensors, n) <==> k < n && IsFlat(tensors[k].name)
  {
    if n > 0 { FlatEntriesAre(tensors, n - 1); }
  }

  /** Per bank and layer, the last entry whose name says so. */
  ghost predicate Grouped(groups: map<string, map<nat, nat>>, tensors: seq<Entry>, n: nat)
    requires n <= |tensors|
  {
    && (forall b | b in groups :: groups[b] != map[])
    && (forall b, l | b in groups && l in groups[b] ::
          groups[b][l] < n && ParseName(tensors[groups[b][l]].name) == Some((b, l)))
    && (forall k: nat {:trigger tensors[k]} | k < n && ParseName(tensors[k].name).Some? ::
          var (b, l) := ParseName(tensors[k].name).value;
          b in groups && l in groups[b] && k <= groups[b][l])
  }

  lemma GroupedMore(groups: map<string, map<nat, nat>>, tensors: seq<Entry>, k: nat, bank: string, layer: nat)
    requires k < |tensors| && Grouped(groups, tensors, k) && ParseName(tensors[k].name) == Some((bank, layer))
    ensures var group: map<nat, nat> := if bank in groups then groups[bank] else map[];
            Grouped(groups[bank := group[layer := k]], tensors, k + 1)
  {
    hide ParseName;
    var group: map<nat, nat> := if bank in groups then groups[bank] else map[];
    assert layer in group[layer := k];
  }

  lemma AlphasAreNoLayers(name: string)
    requires name in ALPHA_NAMES
    ensures ParseName(name).None?
  {
  }

  /** Some bank has a region of its own and entries for layers. */
  ghost predicate Mixed(tensors: seq<Entry>) {
    exists k: nat, j: nat {:trigger tensors[k], tensors[j]} | k < |tensors| && j < |tensors| ::
      IsFlat(tensors[k].name) && ParseName(tensors[j].name).Some?
      && ParseName(tensors[j].name).value.0 == tensors[k].name
  }

  datatype Layouts = Layouts(flat: seq<nat>, groups: map<string, map<nat, nat>>)

  /** Splits the row entries by name into whole banks and layers; scale vectors are in neither. */
  method GroupLayers(tensors: seq<Entry>) returns (r: Result<Layouts, BankError>)
    ensures r.Err? <==> Mixed(tensors)
    ensures r.Ok? ==> r.value.flat == FlatEntries(tensors, |tensors|) && Grouped(r.value.groups, tensors, |tensors|)
  {
    hide ParseName;
    var flat: seq<nat>, groups: map<string, map<nat, nat>> := [], map[];
    for k := 0 to |tensors|
      invariant flat == FlatEntries(tensors, k) && Grouped(groups, tensors, k)
    {
      var name := tensors[k].name;
      if name in ALPHA_NAMES {
        AlphasAreNoLayers(name);
      } else if ParseName(name).None? {
        flat := flat + [k];
      } else {
        var (bank, layer) := ParseName(name).value;
        var group: map<nat, nat> := if bank in groups then groups[bank] else map[];
        GroupedMore(groups, tensors, k, bank, layer);
        groups := groups[bank := group[layer := k]];
      }
    }
    FlatEntriesAre(tensors, |tensors|);
    if exists k <- flat :: tensors[k].name in groups {
      MixedFound(groups, tensors, flat);
      return Err(MixedLayouts);
    }
    return Ok(Layouts(flat, groups));
  }

  lemma MixedFound(groups: map<string, map<nat, nat>>, tensors: seq<Entry>, flat: seq<nat>)
    requires Grouped(groups, tensors, |tensors|)
    requires forall k: nat {:trigger k in flat} :: k in flat <==> k < |tensors| && IsFlat(tensors[k].name)
    requires exists k <- flat :: tensors[k].name in groups
    ensures Mixed(tensors)
  {
    hide ParseName;
    var k :| k in flat && tensors[k].name in groups;
    var l :| l in groups[tensors[k].name];
    var j := groups[tensors[k].name][l];
    assert ParseName(tensors[j].name) == Some((tensors[k].name, l));
  }

  function Range(n: nat): (r: set<nat>)
    ensures forall l: nat {:trigger l in r} :: l in r <==> l < n
  {
    if n == 0 then {} else Range(n - 1) + {n - 1}
  }

  /** The layers of one bank; they must be exactly the layers 0 to numLayers - 1. */
  method LoadLayered(index: Index, disk: map<nat, Bytes>, group: map<nat, nat>, numLayers: nat, chunk: nat,
                     ghost raws: seq<Bytes>)
    returns (r: Result<seq<Bytes>, BankError>)
    requires Holds(index, disk, raws) && chunk > 0 && Aligned(chunk, ALIGN)
    requires forall l | l in group :: group[l] < |raws|
    ensures r.Ok? <==> group.Keys == Range(numLayers)
    ensures r.Ok? ==>
            |r.value| == numLayers
              && forall l: nat {:trigger r.value[l]} | l < numLayers :: r.value[l] == raws[group[l]]
  {
    if group.Keys != Range(numLayers) { return Err(WrongLayers); }
    var layers: seq<Bytes> := [];
    for l := 0 to numLayers
      invariant |layers| == l
      invariant forall i: nat {:trigger layers[i]} | i < l :: layers[i] == raws[group[i]]
    {
      assert l in group.Keys;
      var bytes := ReadTensor(index, disk, group[l], chunk, raws);
      layers := layers + [bytes];
    }
    return Ok(layers);
  }

  // ---------------------------------------------------------------- any completion order

  /** Entry k is bank src[k].1 of layer src[k].0. */
  ghost predicate Traced(src: seq<(nat, nat)>, log: seq<(string, nat)>, raws: seq<Bytes>, names: seq<string>,
                         data: seq<seq<Bytes>>)
  {
    && |src| == |log| == |raws|
    && forall k: nat {:trigger src[k]} | k < |src| ::
         && src[k].0 < |data| && src[k].1 < |data[src[k].0]| && src[k].1 < |names|
         && log[k] == (names[src[k].1], src[k].0) && raws[k] == data[src[k].0][src[k].1]
  }

  ghost predicate Square(names: seq<string>, data: seq<seq<Bytes>>) {
    && 0 < |data| <= 100000 && (forall l: nat {:trigger data[l]} | l < |data| :: |data[l]| == |names|)
    && (forall b: nat {:trigger names[b]} | b < |names| :: names[b] != "" && '\n' !in names[b])
    && (forall b: nat, c: nat {:trigger names[b], names[c]} | b < c < |names| :: names[b] != names[c])
  }

  function Layer(names: seq<string>, parts: seq<Bytes>): (banks: seq<(string, Bytes)>)
    requires |names| == |parts|
    ensures |banks| == |names|
  {
    seq(|names|, b requires 0 <= b < |names| => (names[b], parts[b]))
  }

  function Column(data: seq<seq<Bytes>>, b: nat): (r: seq<Bytes>)
    requires forall l: nat {:trigger data[l]} | l < |data| :: b < |data[l]|
    ensures |r| == |data|
  {
    seq(|data|, l requires 0 <= l < |data| => data[l][b])
  }

  ghost function Sources(layer: nat, n: nat): (r: seq<(nat, nat)>)
    ensures |r| == n && forall b: nat {:trigger r[b]} | b < n :: r[b] == (layer, b)
  {
    seq(n, b => (layer, b))
  }

  /** Every bank of the layers seen has an entry. */
  ghost predicate Present(src: seq<(nat, nat)>, seen: set<nat>, banks: nat) {
    forall l: nat, b: nat | l in seen && b < banks :: (l, b) in src
  }

  lemma TracedMore(src: seq<(nat, nat)>, log: seq<(string, nat)>, raws: seq<Bytes>, names: seq<string>,
                   data: seq<seq<Bytes>>, layer: nat)
    requires Traced(src, log, raws, names, data) && Square(names, data) && layer < |data|
    ensures var banks := Layer(names, data[layer]);
            Traced(src + Sources(layer, |names|), log + Named(banks, layer), raws + Contents(banks), names, data)
  {
  }

  lemma PresentMore(src: seq<(nat, nat)>, seen: set<nat>, banks: nat, layer: nat)
    requires Present(src, seen, banks)
    ensures Present(src + Sources(layer, banks), seen + {layer}, banks)
  {
    var more := Sources(layer, banks);
    forall l: nat, b: nat | l in seen + {layer} && b < banks ensures (l, b) in src + more {
      if l in seen { assert (l, b) in src; } else { assert more[b] == (l, b); }
    }
  }

  /** The entries are named after their banks and layers. */
  ghost predicate NamedBy(tensors: seq<Entry>, log: seq<(string, nat)>) {
    |log| == |tensors|
      && forall k: nat {:trigger log[k]} | k < |log| :: tensors[k].name == LayerName(log[k].0, log[k].1)
  }

  /** An entry's name leads back to its bank and layer. */
  lemma EntryParses(tensors: seq<Entry>, src: seq<(nat, nat)>, log: seq<(string, nat)>, raws: seq<Bytes>,
                    names: seq<string>, data: seq<seq<Bytes>>, k: nat)
    requires NamedBy(tensors, log) && Traced(src, log, raws, names, data) && Square(names, data) && k < |log|
    ensures src[k].0 < |data| && src[k].1 < |names|
    ensures ParseName(tensors[k].name) == Some((names[src[k].1], src[k].0))
  {
    assert src[k] == (src[k].0, src[k].1) && log[k] == (names[src[k].1], src[k].0);
    NameParses(names[src[k].1], src[k].0);
  }

  /** A streamed file has no bank in one region. */
  lemma AllLayered(tensors: seq<Entry>, src: seq<(nat, nat)>, log: seq<(string, nat)>, raws: seq<Bytes>,
                   names: seq<string>, data: seq<seq<Bytes>>)
    requires NamedBy(tensors, log) && Traced(src, log, raws, names, data) && Square(names, data)
    ensures !Mixed(tensors)
  {
    forall k: nat | k < |tensors| ensures !IsFlat(tensors[k].name) {
      EntryParses(tensors, src, log, raws, names, data, k);
    }
  }

  lemma SameName(names: seq<string>, b: nat, c: nat)
    requires b < |names| && c < |names| && names[b] == names[c]
    requires forall i: nat, j: nat {:trigger names[i], names[j]} | i < j < |names| :: names[i] != names[j]
    ensures b == c
  {
  }

  lemma GroupHas(groups: map<string, map<nat, nat>>, tensors: seq<Entry>, src: seq<(nat, nat)>, log: seq<(string, nat)>,
                 raws: seq<Bytes>, names: seq<string>, data: seq<seq<Bytes>>, b: nat, l: nat)
    requires Grouped(groups, tensors, |tensors|) && NamedBy(tensors, log)
    requires Traced(src, log, raws, names, data) && Square(names, data)
    requires (l, b) in src && b < |names|
    ensures names[b] in groups && l in groups[names[b]]
  {
    hide ParseName;
    var k: nat :| k < |src| && src[k] == (l, b);
    EntryParses(tensors, src, log, raws, names, data, k);
  }

  lemma GroupRight(groups: map<string, map<nat, nat>>, tensors: seq<Entry>, src: seq<(nat, nat)>,
                   log: seq<(string, nat)>, raws: seq<Bytes>, names: seq<string>,
                   data: seq<seq<Bytes>>, b: nat, l: nat)
    requires Grouped(groups, tensors, |tensors|) && NamedBy(tensors, log)
    requires Traced(src, log, raws, names, data) && Square(names, data)
    requires b < |names| && names[b] in groups && l in groups[names[b]]
    ensures l < |data| && b < |data[l]| && groups[names[b]][l] < |raws| && raws[groups[names[b]][l]] == data[l][b]
  {
    hide ParseName;
    var k := groups[names[b]][l];
    EntryParses(tensors, src, log, raws, names, data, k);
    SameName(names, src[k].1, b);
  }

  /** Grouping by name finds bank b's layers, all of them, with the right bytes. */
  lemma GroupIsColumn(groups: map<string, map<nat, nat>>, tensors: seq<Entry>, src: seq<(nat, nat)>,
                      log: seq<(string, nat)>, raws: seq<Bytes>, names: seq<string>,
                      data: seq<seq<Bytes>>, b: nat)
    requires Grouped(groups, tensors, |tensors|) && NamedBy(tensors, log)
    requires Traced(src, log, raws, names, data) && Square(names, data)
    requires Present(src, Range(|data|), |names|) && b < |names|
    ensures names[b] in groups && groups[names[b]].Keys == Range(|data|)
    ensures forall l: nat {:trigger groups[names[b]][l]} | l in groups[names[b]] ::
              groups[names[b]][l] < |raws| && l < |data| && b < |data[l]| && raws[groups[names[b]][l]] == data[l][b]
  {
    hide ParseName;
    forall l: nat {:trigger l in Range(|data|)} | l < |data| ensures names[b] in groups && l in groups[names[b]] {
      assert l in Range(|data|) && (l, b) in src;
      GroupHas(groups, tensors, src, log, raws, names, data, b, l);
    }
    assert 0 in Range(|data|);
    var group := groups[names[b]];
    forall l: nat | l in group
      ensures group[l] < |raws| && l < |data| && b < |data[l]| && raws[group[l]] == data[l][b]
    {
      GroupRight(groups, tensors, src, log, raws, names, data, b, l);
    }
    forall l: nat ensures l in group.Keys <==> l in Range(|data|) {
      if l in Range(|data|) { assert l < |data|; }
    }
  }

  /** The layers are converted in the order in which they complete. */
  method WriteLayers(names: seq<string>, data: seq<seq<Bytes>>, order: seq<nat>, limit: nat)
    returns (index: Index, disk: map<nat, Bytes>, ghost raws: seq<Bytes>, ghost log: seq<(string, nat)>,
      ghost src: seq<(nat, nat)>)
    requires Square(names, data)
    requires forall l: nat {:trigger l in order} :: l in order <==> l < |data|
    requires forall i: nat, j: nat {:trigger order[i], order[j]} | i < j < |order| :: order[i] != order[j]
    requires limit > 0 && Aligned(limit, ALIGN)
    ensures Holds(index, disk, raws) && NamedBy(index.tensors, log)
    ensures Traced(src, log, raws, names, data) && Present(src, Range(|data|), |names|)
  {
    var writer := new FTWWriter(limit);
    var sink := new ConvertSink(writer);
    src := [];
    for i := 0 to |order|
      invariant fresh(writer) && fresh(sink) && sink.writer == writer && sink.Valid()
      invariant forall l: nat {:trigger l in sink.seen} :: l in sink.seen <==> l in order[..i]
      invariant Traced(src, sink.log, writer.raws, names, data) && Present(src, sink.seen, |names|)
    {
      var layer := order[i];
      assert layer in order;
      TracedMore(src, sink.log, writer.raws, names, data, layer);
      PresentMore(src, sink.seen, |names|, layer);
      assert order[..i + 1] == order[..i] + [layer];
      var _ := sink.Accept(layer, Layer(names, data[layer]));
      src := src + Sources(layer, |names|);
    }
    assert order[..|order|] == order;
    assert forall l: nat :: l in sink.seen <==> l in Range(|data|);
    index := writer.Finalize();
    disk, raws, log := writer.disk, writer.raws, sink.log;
  }

  /** Reads back all layers of one bank. */
  method ReadBank(index: Index, disk: map<nat, Bytes>, groups: map<string, map<nat, nat>>, names: seq<string>,
                  b: nat, numLayers: nat, chunk: nat,
                  ghost raws: seq<Bytes>, ghost log: seq<(string, nat)>, ghost src: seq<(nat, nat)>,
                  ghost data: seq<seq<Bytes>>)
    returns (layers: seq<Bytes>)
    requires Holds(index, disk, raws) && NamedBy(index.tensors, log) && Grouped(groups, index.tensors, |index.tensors|)
    requires Traced(src, log, raws, names, data) && Present(src, Range(|data|), |names|) && Square(names, data)
    requires b < |names| && numLayers == |data| && chunk > 0 && Aligned(chunk, ALIGN)
    ensures layers == Column(data, b)
  {
    hide ParseName, Grouped, Traced, Present, NamedBy, Holds;
    GroupIsColumn(groups, index.tensors, src, log, raws, names, data, b);
    var group := groups[names[b]];
    assert forall l: nat | l in group :: group[l] < |raws|;
    var r := LoadLayered(index, disk, group, numLayers, chunk, raws);
    layers := r.value;
    forall l: nat | l < |data| ensures layers[l] == Column(data, b)[l] {
      assert l in group.Keys;
      assert group[l] < |raws|;
    }
  }

  /** Whatever the order in which the layers complete, every bank is read back layer by layer. */
  method StreamedBanks(names: seq<string>, data: seq<seq<Bytes>>, order: seq<nat>, limit: nat, chunk: nat)
    returns (out: seq<seq<Bytes>>)
    requires Square(names, data)
    requires forall l: nat {:trigger l in order} :: l in order <==> l < |data|
    requires forall i: nat, j: nat {:trigger order[i], order[j]} | i < j < |order| :: order[i] != order[j]
    requires limit > 0 && Aligned(limit, ALIGN) && chunk > 0 && Aligned(chunk, ALIGN)
    ensures |out| == |names| && forall b: nat {:trigger out[b]} | b < |names| :: out[b] == Column(data, b)
  {
    var index, disk, raws, log, src := WriteLayers(names, data, order, limit);
    AllLayered(index.tensors, src, log, raws, names, data);
    var split := GroupLayers(index.tensors);
    var groups := split.value.groups;
    out := [];
    for b := 0 to |names|
      invariant |out| == b && forall c: nat {:trigger out[c]} | c < b :: out[c] == Column(data, c)
    {
      var layers := ReadBank(index, disk, groups, names, b, |data|, chunk, raws, log, src, data);
      out := out + [layers];
    }
  }

  // ---------------------------------------------------------------- the flat layout gives the same

  lemma {:induction false} FlattenLength(parts: seq<Bytes>, size: nat)
    requires forall l: nat {:trigger parts[l]} | l < |parts| :: |parts[l]| == size
    ensures |Flatten(parts)| == |parts| * size
  {
    if parts != [] {
      FlattenLength(parts[..|parts| - 1], size);
      assert (|parts| - 1) * size + size == |parts| * size;
    }
  }

  /** Equal parts are determined by their concatenation. */
  lemma {:induction false} FlattenInjective(a: seq<Bytes>, b: seq<Bytes>, size: nat)
    requires |a| == |b| && Flatten(a) == Flatten(b)
    requires forall l: nat {:trigger a[l]} | l < |a| :: |a[l]| == size
    requires forall l: nat {:trigger b[l]} | l < |b| :: |b[l]| == size
    ensures a == b
  {
    if a != [] {
      var n := |a| - 1;
      FlattenLength(a[..n], size);
      FlattenLength(b[..n], size);
      assert Flatten(a)[..|Flatten(a[..n])|] == Flatten(a[..n]) && Flatten(b)[..|Flatten(b[..n])|] == Flatten(b[..n]);
      assert a[n] == Flatten(a)[|Flatten(a[..n])|..] && b[n] == Flatten(b)[|Flatten(b[..n])|..];
      FlattenInjective(a[..n], b[..n], size);
      assert a == a[..n] + [a[n]] && b == b[..n] + [b[n]];
    }
  }

  /** A bank written as one region and carved at load gives the same layers as the per-layer entries. */
  method FlatBank(name: string, layers: seq<Bytes>, experts: nat, rowBytes: nat, limit: nat, chunk: nat)
    returns (out: seq<Bytes>)
    requires IsFlat(name)
    requires layers != [] && forall l: nat {:trigger layers[l]} | l < |layers| :: |layers[l]| == experts * rowBytes
    requires limit > 0 && Aligned(limit, ALIGN) && chunk > 0 && Aligned(chunk, ALIGN)
    ensures out == layers
  {
    var writer := new FTWWriter(limit);
    writer.AddTensor(name, Flatten(layers));
    var index := writer.Finalize();
    var raws := [Flatten(layers)];
    assert writer.raws == raws;
    var split := GroupLayers(index.tensors);
    var k := split.value.flat[0];
    var rows := |layers| * experts;
    DivModUnique(rows, |layers|, experts, 0);
    FlattenLength(layers, experts * rowBytes);
    var r := LoadFlat(index, writer.disk, k, rows, rowBytes, |layers|, chunk, raws);
    assert forall l: nat {:trigger r.value[l]} | l < |layers| :: |r.value[l]| == experts * rowBytes;
    FlattenInjective(r.value, layers, experts * rowBytes);
    out := r.value;
  }
}
