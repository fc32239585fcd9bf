/**
The reader: a byte range is split at shard boundaries, rounded to blocks, cut into chunks, and the chunks are read in
any order with reads that may come back short.
*/
module FtwReader {
  import opened Wrappers
  import opened Alignment
  import opened FtwFormat

  /** A range of one file and where it goes in the destination. */
  datatype Piece = Piece(file: nat, fileOff: nat, destOff: nat, length: nat)

  datatype ReadError = Gap | Exceeds

  // ---------------------------------------------------------------- splitting at shard boundaries

  /** What is left to do from shard k on. */
  function PiecesFrom(shards: seq<Shard>, k: nat, pos: nat, destOff: nat, remaining: nat): Result<seq<Piece>, ReadError>
    requires k <= |shards|
    decreases |shards| - k
  {
    if k == |shards| then
      if remaining > 0 then Err(Exceeds) else Ok([])
    else
      var s0, s1 := shards[k].globalOff, shards[k].globalOff + shards[k].nbytes;
      if pos >= s1 || remaining == 0 then PiecesFrom(shards, k + 1, pos, destOff, remaining)
      else if pos < s0 then Err(Gap)
      else
        var p := PieceOf(shards[k], pos, destOff, remaining);
        Prepend([p], PiecesFrom(shards, k + 1, pos + p.length, destOff + p.length, remaining - p.length))
  }

  /** As much of the range as one shard holds. */
  function PieceOf(s: Shard, pos: nat, destOff: nat, remaining: nat): (p: Piece)
    requires s.globalOff <= pos < s.globalOff + s.nbytes && remaining > 0
    ensures 0 < p.length <= remaining && pos + p.length <= s.globalOff + s.nbytes
    ensures p.length == remaining || pos + p.length == s.globalOff + s.nbytes
    ensures p.file == s.file && s.globalOff + p.fileOff == pos && p.destOff == destOff
  {
    var take := if remaining <= s.globalOff + s.nbytes - pos then remaining else s.globalOff + s.nbytes - pos;
    Piece(s.file, pos - s.globalOff, destOff, take)
  }

  function Prepend(ps: seq<Piece>, r: Result<seq<Piece>, ReadError>): Result<seq<Piece>, ReadError> {
    match r
    case Ok(qs) => Ok(ps + qs)
    case Err(e) => Err(e)
  }

  lemma PrependNothing(r: Result<seq<Piece>, ReadError>)
    ensures Prepend([], r) == r
  {
    if r.Ok? { assert [] + r.value == r.value; }
  }

  lemma PrependTwice(ps: seq<Piece>, p: Piece, r: Result<seq<Piece>, ReadError>)
    ensures Prepend(ps, Prepend([p], r)) == Prepend(ps + [p], r)
  {
    if r.Ok? { assert ps + ([p] + r.value) == (ps + [p]) + r.value; }
  }

  /** The pieces that cover [globalOff, globalOff + nbytes). */
  method Pieces(shards: seq<Shard>, globalOff: nat, nbytes: nat) returns (r: Result<seq<Piece>, ReadError>)
    ensures r == PiecesFrom(shards, 0, globalOff, 0, nbytes)
  {
    var destOff: nat, remaining: nat, pos: nat := 0, nbytes, globalOff;
    var pieces: seq<Piece> := [];
    PrependNothing(PiecesFrom(shards, 0, pos, destOff, remaining));
    for k := 0 to |shards|
      invariant PiecesFrom(shards, 0, globalOff, 0, nbytes)
             == Prepend(pieces, PiecesFrom(shards, k, pos, destOff, remaining))
    {
      var s0, s1 := shards[k].globalOff, shards[k].globalOff + shards[k].nbytes;
      if pos >= s1 || remaining == 0 { continue; }
      if pos < s0 { return Err(Gap); }
      var piece := PieceOf(shards[k], pos, destOff, remaining);
      var take := piece.length;
      PrependTwice(pieces, piece, PiecesFrom(shards, k + 1, pos + take, destOff + take, remaining - take));
      pieces := pieces + [piece];
      pos, destOff, remaining := pos + take, destOff + take, remaining - take;
    }
    if remaining > 0 { return Err(Exceeds); }
    assert pieces + [] == pieces;
    return Ok(pieces);
  }

  // ---------------------------------------------------------------- which ranges can be read

  ghost predicate Ordered(shards: seq<Shard>) {
    forall i: nat, j: nat {:trigger shards[i], shards[j]} | i < j < |shards| ::
      shards[i].globalOff + shards[i].nbytes <= shards[j].globalOff
  }

  ghost predicate Covered(shards: seq<Shard>, k: nat, p: nat) {
    exists i: nat {:trigger shards[i]} | k <= i < |shards| ::
      shards[i].globalOff <= p < shards[i].globalOff + shards[i].nbytes
  }

  /** For any index with its shards in order, a range can be read exactly when every byte of it lies in some shard. */
  lemma {:induction false} ReadableIff(shards: seq<Shard>, k: nat, pos: nat, destOff: nat, remaining: nat)
    requires k <= |shards| && Ordered(shards)
    ensures PiecesFrom(shards, k, pos, destOff, remaining).Ok? <==>
            forall p: nat {:trigger Covered(shards, k, p)} | pos <= p < pos + remaining :: Covered(shards, k, p)
    decreases |shards| - k
  {
    if k == |shards| {
      if remaining > 0 { assert !Covered(shards, k, pos); }
    } else {
      var s0, s1 := shards[k].globalOff, shards[k].globalOff + shards[k].nbytes;
      if pos >= s1 || remaining == 0 {
        ReadableIff(shards, k + 1, pos, destOff, remaining);
        SkipShard(shards, k, pos, remaining);
      } else if pos < s0 {
        assert !Covered(shards, k, pos);
      } else {
        var take := if remaining <= s1 - pos then remaining else s1 - pos;
        ReadableIff(shards, k + 1, pos + take, destOff + take, remaining - take);
        SkipShard(shards, k, pos + take, remaining - take);
        forall p: nat | pos <= p < pos + take ensures Covered(shards, k, p) { assert shards[k].globalOff <= p < s1; }
      }
    }
  }

  lemma SkipShard(shards: seq<Shard>, k: nat, pos: nat, remaining: nat)
    requires k < |shards| && (remaining > 0 ==> pos >= shards[k].globalOff + shards[k].nbytes)
    ensures (forall p: nat {:trigger Covered(shards, k, p)} | pos <= p < pos + remaining :: Covered(shards, k, p))
            <==> (forall p: nat {:trigger Covered(shards, k + 1, p)} | pos <= p < pos + remaining ::
                    Covered(shards, k + 1, p))
  {
    forall p: nat {:trigger Covered(shards, k, p)} | pos <= p < pos + remaining
      ensures Covered(shards, k, p) <==> Covered(shards, k + 1, p) {
      CoveredSkip(shards, k, p);
    }
    forall p: nat {:trigger Covered(shards, k + 1, p)} | pos <= p < pos + remaining
      ensures Covered(shards, k, p) <==> Covered(shards, k + 1, p) {
      CoveredSkip(shards, k, p);
    }
  }

  lemma CoveredSkip(shards: seq<Shard>, k: nat, p: nat)
    requires k < |shards| && p >= shards[k].globalOff + shards[k].nbytes
    ensures Covered(shards, k, p) <==> Covered(shards, k + 1, p)
  {
    if Covered(shards, k, p) {
      var i: nat :| k <= i < |shards| && shards[i].globalOff <= p < shards[i].globalOff + shards[i].nbytes;
      assert shards[i].globalOff <= p && i >= k + 1;
    }
    if Covered(shards, k + 1, p) {
      var i: nat :| k + 1 <= i < |shards| && shards[i].globalOff <= p < shards[i].globalOff + shards[i].nbytes;
      assert shards[i].globalOff <= p;
    }
  }

  // ---------------------------------------------------------------- pieces of a stored stream

  /** Offsets and length are whole blocks, as direct reads demand. */
  ghost predicate Blocky(p: Piece, length: nat) {
    Aligned(p.fileOff, ALIGN) && Aligned(p.destOff, ALIGN) && Aligned(length, ALIGN)
  }

  /** The range lies inside its file and holds the stream's bytes; `base` is the start of the whole read. */
  ghost predicate Located(p: Piece, length: nat, disk: map<nat, Bytes>, stream: Bytes, base: nat) {
    && base + p.destOff + length <= |stream|
    && p.file in disk && p.fileOff + length <= |disk[p.file]|
    && forall i: nat {:trigger Same(p, i, disk, stream, base)} | i < length :: Same(p, i, disk, stream, base)
  }

  ghost predicate Legal(p: Piece, length: nat, disk: map<nat, Bytes>, stream: Bytes, base: nat) {
    Blocky(p, length) && Located(p, length, disk, stream, base)
  }

  /** Byte i of the range is the stream's. */
  ghost predicate Same(p: Piece, i: nat, disk: map<nat, Bytes>, stream: Bytes, base: nat)
    requires p.file in disk && p.fileOff + i < |disk[p.file]| && base + p.destOff + i < |stream|
  {
    disk[p.file][p.fileOff + i] == stream[base + p.destOff + i]
  }

  /** The rounded pieces tile the destination from `from` to `to`. */
  ghost predicate Chain(ps: seq<Piece>, from: nat, to: nat)
    decreases |ps|
  {
    if ps == [] then from == to
    else ps[0].destOff == from && ps[0].length > 0 && Chain(ps[1..], from + AlignUp(ps[0].length), to)
  }

  ghost predicate AllLegal(ps: seq<Piece>, disk: map<nat, Bytes>, stream: Bytes, base: nat) {
    forall i: nat {:trigger ps[i]} | i < |ps| :: Legal(ps[i], AlignUp(ps[i].length), disk, stream, base)
  }

  /** What a shard holds of a range, rounded up to blocks, is a legal read. */
  lemma PieceLegal(s: Shard, disk: map<nat, Bytes>, stream: Bytes, base: nat, p: Piece)
    requires Aligned(s.globalOff, ALIGN) && Aligned(s.nbytes, ALIGN) && s.globalOff + s.nbytes <= |stream|
    requires s.file in disk && disk[s.file] == stream[s.globalOff..s.globalOff + s.nbytes]
    requires Aligned(base, ALIGN) && Aligned(p.destOff, ALIGN) && p.file == s.file
    requires s.globalOff + p.fileOff == base + p.destOff && p.fileOff + p.length <= s.nbytes
    ensures Legal(p, AlignUp(p.length), disk, stream, base)
  {
    BlocksInside(s, p, base);
    ShardBytes(s, disk, stream, p, base, AlignUp(p.length));
  }

  lemma BlocksInside(s: Shard, p: Piece, base: nat)
    requires Aligned(s.globalOff, ALIGN) && Aligned(s.nbytes, ALIGN) && Aligned(base, ALIGN)
             && Aligned(p.destOff, ALIGN)
    requires s.globalOff + p.fileOff == base + p.destOff && p.fileOff + p.length <= s.nbytes
    ensures Blocky(p, AlignUp(p.length)) && p.fileOff + AlignUp(p.length) <= s.nbytes
  {
    AlignedAdd(base, p.destOff, ALIGN);
    AlignedSub(base + p.destOff, s.globalOff, ALIGN);
    AlignUpIs(p.length);
    AlignUpShift(p.fileOff, p.length);
    AlignUpLeast(p.fileOff + p.length, s.nbytes);
  }

  lemma ShardBytes(s: Shard, disk: map<nat, Bytes>, stream: Bytes, p: Piece, base: nat, len: nat)
    requires s.globalOff + s.nbytes <= |stream| && s.file in disk
    requires disk[s.file] == stream[s.globalOff..s.globalOff + s.nbytes]
    requires p.file == s.file && s.globalOff + p.fileOff == base + p.destOff && p.fileOff + len <= s.nbytes
    ensures Located(p, len, disk, stream, base)
  {
    forall i: nat {:trigger Same(p, i, disk, stream, base)} | i < len ensures Same(p, i, disk, stream, base) {
      assert disk[s.file][p.fileOff + i] == stream[s.globalOff + (p.fileOff + i)];
    }
  }

  /** On stored shards a range can be read exactly when it does not pass the end. */
  lemma {:induction false} PiecesIff(shards: seq<Shard>, k: nat, end: nat, pos: nat, destOff: nat, remaining: nat)
    requires Tile(shards, end) && k <= |shards|
    requires remaining > 0 ==> if k < |shards| then shards[k].globalOff <= pos else end <= pos
    ensures PiecesFrom(shards, k, pos, destOff, remaining) != Err(Gap)
    ensures PiecesFrom(shards, k, pos, destOff, remaining).Ok? <==> remaining == 0 || pos + remaining <= end
    decreases |shards| - k
  {
    if k < |shards| {
      assert Abuts(shards, k, end);
      var s1 := shards[k].globalOff + shards[k].nbytes;
      if pos >= s1 || remaining == 0 {
        PiecesIff(shards, k + 1, end, pos, destOff, remaining);
      } else {
        var take := PieceOf(shards[k], pos, destOff, remaining).length;
        EndsLater(shards, k, end);
        PiecesIff(shards, k + 1, end, pos + take, destOff + take, remaining - take);
      }
    }
  }

  lemma {:induction false} EndsLater(shards: seq<Shard>, k: nat, end: nat)
    requires Tile(shards, end) && k < |shards|
    ensures shards[k].globalOff + shards[k].nbytes <= end
    decreases |shards| - k
  {
    assert Abuts(shards, k, end);
    if k + 1 < |shards| { EndsLater(shards, k + 1, end); }
  }

  /** The pieces of a readable range are legal reads that tile the destination. */
  lemma {:induction false} PiecesOk(shards: seq<Shard>, k: nat, disk: map<nat, Bytes>, stream: Bytes, limit: nat,
                                    base: nat, pos: nat, destOff: nat, remaining: nat, ps: seq<Piece>)
    requires pos == base + destOff && k <= |shards|
    requires Stored(shards, disk, stream, limit, |stream|)
    requires PiecesFrom(shards, k, pos, destOff, remaining) == Ok(ps)
    requires remaining > 0 ==> Aligned(base, ALIGN) && Aligned(destOff, ALIGN)
    requires remaining > 0 && k < |shards| ==> shards[k].globalOff <= pos
    ensures Chain(ps, destOff, destOff + AlignUp(remaining))
    ensures AllLegal(ps, disk, stream, base)
    decreases |shards| - k
  {
    hide Aligned, PieceOf, Legal;
    if remaining == 0 {
      NothingLeft(shards, k, pos, destOff);
    } else {
      assert Abuts(shards, k, |stream|) && Sliced(shards, k, disk, stream, limit);
      if pos >= shards[k].globalOff + shards[k].nbytes {
        PiecesOk(shards, k + 1, disk, stream, limit, base, pos, destOff, remaining, ps);
      } else {
        var p := PieceOf(shards[k], pos, destOff, remaining);
        var rest := ps[1..];
        assert ps == [p] + rest;
        if p.length < remaining {
          NextStart(shards[k], base, pos, destOff, remaining);
          PiecesOk(shards, k + 1, disk, stream, limit, base, pos + p.length, destOff + p.length, remaining - p.length,
            rest);
        } else {
          NothingLeft(shards, k + 1, pos + p.length, destOff + p.length);
        }
        PieceThen(shards[k], disk, stream, base, pos, destOff, remaining, rest);
      }
    }
  }

  lemma NextStart(s: Shard, base: nat, pos: nat, destOff: nat, remaining: nat)
    requires Aligned(s.globalOff, ALIGN) && Aligned(s.nbytes, ALIGN) && Aligned(base, ALIGN) && Aligned(destOff, ALIGN)
    requires pos == base + destOff && s.globalOff <= pos < s.globalOff + s.nbytes && remaining > 0
    ensures var take := PieceOf(s, pos, destOff, remaining).length; take < remaining ==> Aligned(destOff + take, ALIGN)
  {
    AlignedTake(s, pos, base, destOff);
    TakeBlocks(destOff, PieceOf(s, pos, destOff, remaining).length, remaining);
  }

  lemma PieceThen(s: Shard, disk: map<nat, Bytes>, stream: Bytes, base: nat, pos: nat, destOff: nat, remaining: nat,
                  rest: seq<Piece>)
    requires pos == base + destOff
    requires Aligned(s.globalOff, ALIGN) && Aligned(s.nbytes, ALIGN) && s.globalOff + s.nbytes <= |stream|
    requires s.file in disk && disk[s.file] == stream[s.globalOff..s.globalOff + s.nbytes]
    requires Aligned(base, ALIGN) && Aligned(destOff, ALIGN)
    requires s.globalOff <= pos < s.globalOff + s.nbytes && remaining > 0 && AllLegal(rest, disk, stream, base)
    requires var take := PieceOf(s, pos, destOff, remaining).length;
             if take == remaining then rest == []
             else Chain(rest, destOff + take, destOff + take + AlignUp(remaining - take))
    ensures AllLegal([PieceOf(s, pos, destOff, remaining)] + rest, disk, stream, base)
    ensures Chain([PieceOf(s, pos, destOff, remaining)] + rest, destOff, destOff + AlignUp(remaining))
  {
    var p := PieceOf(s, pos, destOff, remaining);
    AlignedTake(s, pos, base, destOff);
    TakeBlocks(destOff, p.length, remaining);
    PieceLegal(s, disk, stream, base, p);
    OneMore(p, rest, destOff, destOff + AlignUp(remaining), disk, stream, base);
  }

  lemma {:induction false} NothingLeft(shards: seq<Shard>, k: nat, pos: nat, destOff: nat)
    requires k <= |shards|
    ensures PiecesFrom(shards, k, pos, destOff, 0) == Ok([])
    decreases |shards| - k
  {
    if k < |shards| { NothingLeft(shards, k + 1, pos, destOff); }
  }

  /** All but the last piece are whole blocks, so rounding the pieces up rounds the range up. */
  lemma TakeBlocks(destOff: nat, take: nat, remaining: nat)
    requires take <= remaining && Aligned(destOff, ALIGN) && (take < remaining ==> Aligned(take, ALIGN))
    ensures AlignUp(remaining) == AlignUp(take) + if take < remaining then AlignUp(remaining - take) else 0
    ensures take < remaining ==> AlignUp(take) == take && Aligned(destOff + take, ALIGN)
  {
    if take < remaining {
      AlignUpIs(take);
      AlignUpLeast(take, take);
      AlignUpShift(take, remaining - take);
      AlignedAdd(destOff, take, ALIGN);
    }
  }

  /** The rest of a shard is a whole number of blocks. */
  lemma AlignedTake(s: Shard, pos: nat, base: nat, destOff: nat)
    requires Aligned(s.globalOff, ALIGN) && Aligned(s.nbytes, ALIGN) && Aligned(base, ALIGN) && Aligned(destOff, ALIGN)
    requires pos == base + destOff && pos <= s.globalOff + s.nbytes
    ensures Aligned(s.globalOff + s.nbytes - pos, ALIGN)
  {
    AlignedAdd(s.globalOff, s.nbytes, ALIGN);
    AlignedAdd(base, destOff, ALIGN);
    AlignedSub(s.globalOff + s.nbytes, pos, ALIGN);
  }

  lemma OneMore(p: Piece, rest: seq<Piece>, from: nat, to: nat, disk: map<nat, Bytes>, stream: Bytes, base: nat)
    requires p.destOff == from && p.length > 0 && Legal(p, AlignUp(p.length), disk, stream, base)
    requires AllLegal(rest, disk, stream, base) && Chain(rest, from + AlignUp(p.length), to)
    ensures AllLegal([p] + rest, disk, stream, base) && Chain([p] + rest, from, to)
  {
    assert ([p] + rest)[1..] == rest;
  }
}
