/**
Reading into a destination buffer: the jobs of a read, executed by several threads in any interleaving, each job in
as many positional reads as the system returns.
*/
module FtwTransfer {
  import opened Wrappers
  import opened Alignment
  import opened FtwFormat
  import opened FtwReader

  // ---------------------------------------------------------------- the jobs

  /** The jobs tile the destination from `from` to `to`. */
  ghost predicate Tiles(jobs: seq<Piece>, from: nat, to: nat)
    decreases |jobs|
  {
    if jobs == [] then from == to
    else jobs[0].destOff == from && jobs[0].length > 0 && Tiles(jobs[1..], from + jobs[0].length, to)
  }

  ghost predicate LegalJobs(jobs: seq<Piece>, disk: map<nat, Bytes>, stream: Bytes, base: nat) {
    forall j: nat {:trigger jobs[j]} | j < |jobs| :: Legal(jobs[j], jobs[j].length, disk, stream, base)
  }

  lemma {:induction false} TilesMore(jobs: seq<Piece>, from: nat, mid: nat, j: Piece)
    requires Tiles(jobs, from, mid) && j.destOff == mid && j.length > 0
    ensures Tiles(jobs + [j], from, mid + j.length)
    decreases |jobs|
  {
    if jobs == [] {
      assert ([] + [j])[1..] == [];
    } else {
      TilesMore(jobs[1..], from + jobs[0].length, mid, j);
      assert (jobs + [j])[1..] == jobs[1..] + [j];
    }
  }

  /** Tiles lie between the ends, and earlier jobs end before later ones begin. */
  lemma {:induction false} TilesApart(jobs: seq<Piece>, from: nat, to: nat, i: nat, j: nat)
    requires Tiles(jobs, from, to) && i <= j < |jobs|
    ensures from <= jobs[i].destOff && jobs[j].destOff + jobs[j].length <= to && jobs[j].length > 0
    ensures i < j ==> jobs[i].destOff + jobs[i].length <= jobs[j].destOff
    decreases |jobs|
  {
    if i > 0 {
      TilesApart(jobs[1..], from + jobs[0].length, to, i - 1, j - 1);
    } else if j > 0 {
      TilesApart(jobs[1..], from + jobs[0].length, to, 0, j - 1);
      TilesApart(jobs[1..], from + jobs[0].length, to, j - 1, j - 1);
    } else {
      TilesEnd(jobs[1..], from + jobs[0].length, to);
    }
  }

  lemma {:induction false} TilesEnd(jobs: seq<Piece>, from: nat, to: nat)
    requires Tiles(jobs, from, to)
    ensures from <= to
    decreases |jobs|
  {
    if jobs != [] { TilesEnd(jobs[1..], from + jobs[0].length, to); }
  }

  /** Every position belongs to a job. */
  lemma {:induction false} TilesCover(jobs: seq<Piece>, from: nat, to: nat, p: nat) returns (j: nat)
    requires Tiles(jobs, from, to) && from <= p < to
    ensures j < |jobs| && jobs[j].destOff <= p < jobs[j].destOff + jobs[j].length
    decreases |jobs|
  {
    if p < from + jobs[0].length {
      j := 0;
    } else {
      j := TilesCover(jobs[1..], from + jobs[0].length, to, p);
      j := j + 1;
    }
  }

  /** A block-aligned part of a legal read is a legal read. */
  lemma PartLegal(p: Piece, rlen: nat, c: nat, q: Piece, disk: map<nat, Bytes>, stream: Bytes, base: nat)
    requires Legal(p, rlen, disk, stream, base) && Aligned(c, ALIGN) && Aligned(q.length, ALIGN) && c + q.length <= rlen
    requires q.file == p.file && q.fileOff == p.fileOff + c && q.destOff == p.destOff + c
    ensures Legal(q, q.length, disk, stream, base)
  {
    AlignedAdd(p.fileOff, c, ALIGN);
    AlignedAdd(p.destOff, c, ALIGN);
    PartLocated(p, rlen, c, q, disk, stream, base);
  }

  lemma PartLocated(p: Piece, rlen: nat, c: nat, q: Piece, disk: map<nat, Bytes>, stream: Bytes, base: nat)
    requires Located(p, rlen, disk, stream, base) && c + q.length <= rlen
    requires q.file == p.file && q.fileOff == p.fileOff + c && q.destOff == p.destOff + c
    ensures Located(q, q.length, disk, stream, base)
  {
    forall i: nat {:trigger Same(q, i, disk, stream, base)} | i < q.length ensures Same(q, i, disk, stream, base) {
      assert Same(p, c + i, disk, stream, base);
    }
  }

  /** Cuts each rounded piece into chunks. */
  method PlanJobs(pieces: seq<Piece>, chunk: nat, ghost disk: map<nat, Bytes>, ghost stream: Bytes, ghost base: nat,
                  ghost to: nat)
    returns (jobs: seq<Piece>)
    requires chunk > 0 && Aligned(chunk, ALIGN)
    requires Chain(pieces, 0, to) && AllLegal(pieces, disk, stream, base)
    ensures Tiles(jobs, 0, to) && LegalJobs(jobs, disk, stream, base)
    ensures forall j <- jobs :: j.length <= chunk
  {
    jobs := [];
    ghost var at: nat := 0;
    for i := 0 to |pieces|
      invariant Tiles(jobs, 0, at) && LegalJobs(jobs, disk, stream, base)
      invariant Chain(pieces[i..], at, to)
      invariant forall j <- jobs :: j.length <= chunk
    {
      var p := pieces[i];
      assert pieces[i..][0] == p && pieces[i..][1..] == pieces[i + 1..];
      var more := ChunkJobs(p, chunk, jobs, disk, stream, base);
      jobs := more;
      at := at + AlignUp(p.length);
    }
  }

  method ChunkJobs(p: Piece, chunk: nat, before: seq<Piece>, ghost disk: map<nat, Bytes>, ghost stream: Bytes,
                   ghost base: nat)
    returns (jobs: seq<Piece>)
    requires chunk > 0 && Aligned(chunk, ALIGN)
    requires Legal(p, AlignUp(p.length), disk, stream, base)
    requires Tiles(before, 0, p.destOff) && LegalJobs(before, disk, stream, base)
             && forall j <- before :: j.length <= chunk
    ensures Tiles(jobs, 0, p.destOff + AlignUp(p.length)) && LegalJobs(jobs, disk, stream, base)
    ensures forall j <- jobs :: j.length <= chunk
  {
    var rlen := AlignUp(p.length);
    jobs := before;
    var c := 0;
    while c < rlen
      invariant Aligned(c, ALIGN)
      invariant Tiles(jobs, 0, p.destOff + if c < rlen then c else rlen)
      invariant LegalJobs(jobs, disk, stream, base) && forall j <- jobs :: j.length <= chunk
    {
      var len := if chunk <= rlen - c then chunk else rlen - c;
      AlignedSub(rlen, c, ALIGN);
      var job := Piece(p.file, p.fileOff + c, p.destOff + c, len);
      PartLegal(p, rlen, c, job, disk, stream, base);
      TilesMore(jobs, 0, p.destOff + c, job);
      jobs := jobs + [job];
      AlignedAdd(c, chunk, ALIGN);
      c := c + chunk;
    }
  }

  // ---------------------------------------------------------------- executing the jobs

  /** Bytes still to be read. */
  ghost function Left(jobs: seq<Piece>, done: seq<nat>): int
    requires |jobs| == |done|
    decreases |jobs|
  {
    if jobs == [] then 0 else jobs[0].length - done[0] + Left(jobs[1..], done[1..])
  }

  lemma {:induction false} LeftUpdate(jobs: seq<Piece>, done: seq<nat>, j: nat, n: nat)
    requires |jobs| == |done| && j < |jobs|
    ensures Left(jobs, done[j := done[j] + n]) == Left(jobs, done) - n
    decreases |jobs|
  {
    var done' := done[j := done[j] + n];
    if j == 0 {
      assert done'[1..] == done[1..];
    } else {
      LeftUpdate(jobs[1..], done[1..], j - 1, n);
      assert done'[1..] == done[1..][j - 1 := done[j] + n];
    }
  }

  lemma {:induction false} LeftNonNegative(jobs: seq<Piece>, done: seq<nat>)
    requires |jobs| == |done| && forall j: nat | j < |jobs| :: done[j] <= jobs[j].length
    ensures Left(jobs, done) >= 0
    decreases |jobs|
  {
    if jobs != [] { LeftNonNegative(jobs[1..], done[1..]); }
  }

  /** Byte i of the job has arrived. */
  ghost predicate Arrived(d: Bytes, job: Piece, i: nat, stream: Bytes, base: nat)
    requires job.destOff + i < |d| && base + job.destOff + i < |stream|
  {
    d[job.destOff + i] == stream[base + job.destOff + i]
  }

  /** The first `done` bytes of the job have arrived. */
  ghost predicate Filled(d: Bytes, job: Piece, done: nat, stream: Bytes, base: nat) {
    && job.destOff + done <= |d| && base + job.destOff + done <= |stream|
    && forall i: nat {:trigger Arrived(d, job, i, stream, base)} | i < done :: Arrived(d, job, i, stream, base)
  }

  function Patched(d: Bytes, at: nat, bytes: Bytes): (r: Bytes)
    requires at + |bytes| <= |d|
    ensures |r| == |d|
  {
    d[..at] + bytes + d[at + |bytes|..]
  }

  /**
  One positional read of a job at its running offset.  It returns some bytes, at most what is left, and nothing only at
  the end of the file.
  */
  method Preadv(dest: array<bv8>, job: Piece, done: nat, disk: map<nat, Bytes>) returns (n: nat)
    requires done < job.length && job.destOff + job.length <= dest.Length
    requires job.file in disk && job.fileOff + done <= |disk[job.file]|
    modifies dest
    ensures n <= job.length - done && job.fileOff + done + n <= |disk[job.file]|
    ensures n == 0 <==> job.fileOff + done == |disk[job.file]|
    ensures dest[..] == Patched(old(dest[..]), job.destOff + done,
            disk[job.file][job.fileOff + done..job.fileOff + done + n])
  {
    var content := disk[job.file];
    var from, at := job.fileOff + done, job.destOff + done;
    if from == |content| { return 0; }
    n :| 0 < n <= job.length - done && from + n <= |content|;
    forall i | 0 <= i < n { dest[at + i] := content[from + i]; }
  }

  /** A read advances its own job. */
  lemma Advances(d: Bytes, job: Piece, done: nat, n: nat, disk: map<nat, Bytes>, stream: Bytes, base: nat)
    requires Located(job, job.length, disk, stream, base) && done + n <= job.length && job.destOff + job.length <= |d|
    requires Filled(d, job, done, stream, base)
    ensures Filled(Patched(d, job.destOff + done, disk[job.file][job.fileOff + done..job.fileOff + done + n]),
                   job, done + n, stream, base)
  {
    var bytes := disk[job.file][job.fileOff + done..job.fileOff + done + n];
    var d' := Patched(d, job.destOff + done, bytes);
    forall i: nat {:trigger Arrived(d', job, i, stream, base)} | i < done + n
      ensures Arrived(d', job, i, stream, base)
    {
      if i < done {
        assert Arrived(d, job, i, stream, base);
      } else {
        assert Same(job, i, disk, stream, base);
        assert d'[job.destOff + i] == bytes[i - done];
      }
    }
  }

  /** A read leaves what lies elsewhere. */
  lemma LeavesAlone(d: Bytes, at: nat, bytes: Bytes, job: Piece, done: nat, stream: Bytes, base: nat)
    requires at + |bytes| <= |d| && Filled(d, job, done, stream, base)
    requires at + |bytes| <= job.destOff || job.destOff + done <= at
    ensures Filled(Patched(d, at, bytes), job, done, stream, base)
  {
    var d' := Patched(d, at, bytes);
    forall i: nat {:trigger Arrived(d', job, i, stream, base)} | i < done ensures Arrived(d', job, i, stream, base) {
      assert Arrived(d, job, i, stream, base);
    }
  }

  /** Progress of all jobs. */
  ghost predicate InProgress(d: Bytes, jobs: seq<Piece>, done: seq<nat>, stream: Bytes, base: nat) {
    && |done| == |jobs|
    && forall j: nat {:trigger jobs[j]} | j < |jobs| ::
         done[j] <= jobs[j].length && Filled(d, jobs[j], done[j], stream, base)
  }

  lemma ReadKeepsProgress(d: Bytes, jobs: seq<Piece>, to: nat, done: seq<nat>, j: nat, n: nat, disk: map<nat, Bytes>,
                          stream: Bytes, base: nat)
    requires Tiles(jobs, 0, to) && LegalJobs(jobs, disk, stream, base) && to <= |d|
    requires InProgress(d, jobs, done, stream, base) && j < |jobs| && done[j] + n <= jobs[j].length
    ensures jobs[j].destOff + jobs[j].length <= to
    ensures InProgress(Patched(d, jobs[j].destOff + done[j],
            disk[jobs[j].file][jobs[j].fileOff + done[j]..jobs[j].fileOff + done[j] + n]),
                       jobs, done[j := done[j] + n], stream, base)
  {
    TilesApart(jobs, 0, to, j, j);
    var at, bytes := jobs[j].destOff + done[j],
      disk[jobs[j].file][jobs[j].fileOff + done[j]..jobs[j].fileOff + done[j] + n];
    var d', done' := Patched(d, at, bytes), done[j := done[j] + n];
    forall k: nat {:trigger jobs[k]} | k < |jobs|
      ensures done'[k] <= jobs[k].length && Filled(d', jobs[k], done'[k], stream, base)
    {
      if k == j {
        Advances(d, jobs[j], done[j], n, disk, stream, base);
      } else {
        if k < j { TilesApart(jobs, 0, to, k, j); } else { TilesApart(jobs, 0, to, j, k); }
        LeavesAlone(d, at, bytes, jobs[k], done[k], stream, base);
      }
    }
  }

  lemma NothingArrived(d: Bytes, jobs: seq<Piece>, to: nat, disk: map<nat, Bytes>, stream: Bytes, base: nat,
                       done: seq<nat>)
    requires Tiles(jobs, 0, to) && LegalJobs(jobs, disk, stream, base) && to <= |d|
    requires |done| == |jobs| && forall j: nat | j < |jobs| :: done[j] == 0
    ensures InProgress(d, jobs, done, stream, base)
  {
    forall j: nat {:trigger jobs[j]} | j < |jobs| ensures Filled(d, jobs[j], done[j], stream, base) {
      TilesApart(jobs, 0, to, j, j);
    }
  }

  lemma AllArrived(d: Bytes, jobs: seq<Piece>, to: nat, stream: Bytes, base: nat, done: seq<nat>)
    requires Tiles(jobs, 0, to) && to <= |d| && base + to <= |stream| && InProgress(d, jobs, done, stream, base)
    requires forall j: nat {:trigger jobs[j]} | j < |jobs| :: done[j] >= jobs[j].length
    ensures d[..to] == stream[base..base + to]
  {
    forall p: nat | p < to ensures d[p] == stream[base + p] {
      var j := TilesCover(jobs, 0, to, p);
      assert Arrived(d, jobs[j], p - jobs[j].destOff, stream, base);
    }
  }

  /** One positional read for job j, of any length. */
  method ReadOnce(jobs: seq<Piece>, done: seq<nat>, j: nat, disk: map<nat, Bytes>, dest: array<bv8>,
                  ghost stream: Bytes, ghost base: nat, ghost to: nat)
    returns (done': seq<nat>)
    requires Tiles(jobs, 0, to) && LegalJobs(jobs, disk, stream, base)
    requires to <= dest.Length && base + to <= |stream|
    requires InProgress(dest[..], jobs, done, stream, base) && j < |jobs| == |done| && done[j] < jobs[j].length
    modifies dest
    ensures InProgress(dest[..], jobs, done', stream, base) && |done'| == |jobs|
    ensures 0 <= Left(jobs, done') < Left(jobs, done) && dest[to..] == old(dest[to..])
  {
    TilesApart(jobs, 0, to, j, j);
    var n := Preadv(dest, jobs[j], done[j], disk);
    ReadKeepsProgress(old(dest[..]), jobs, to, done, j, n, disk, stream, base);
    LeftUpdate(jobs, done, j, n);
    done' := done[j := done[j] + n];
    LeftNonNegative(jobs, done');
  }

  /** All threads together: as long as a job is unfinished, some unfinished job takes its next read. */
  method RunJobs(jobs: seq<Piece>, disk: map<nat, Bytes>, dest: array<bv8>, ghost stream: Bytes, ghost base: nat,
                 ghost to: nat)
    requires Tiles(jobs, 0, to) && LegalJobs(jobs, disk, stream, base)
    requires to <= dest.Length && base + to <= |stream|
    modifies dest
    ensures dest[..] == stream[base..base + to] + old(dest[to..])
  {
    hide InProgress, LegalJobs, Tiles, Left;
    var done: seq<nat> := seq(|jobs|, _ => 0);
    NothingArrived(dest[..], jobs, to, disk, stream, base, done);
    ghost var tail := dest[to..];
    while exists j: nat {:trigger jobs[j]} :: j < |jobs| && done[j] < jobs[j].length
      invariant |done| == |jobs| && InProgress(dest[..], jobs, done, stream, base)
      invariant dest[to..] == tail
      decreases Left(jobs, done)
    {
      var j: nat :| j < |jobs| && done[j] < jobs[j].length;
      done := ReadOnce(jobs, done, j, disk, dest, stream, base, to);
    }
    AllArrived(dest[..], jobs, to, stream, base, done);
    assert dest[..] == dest[..to] + dest[to..];
  }

  /**
  Reads a range into the destination, which holds at least its length rounded up to blocks.  A range past the end is an
  error and touches nothing.  The chunk size only has to be a positive number of blocks.
  */
  method ReadInto(shards: seq<Shard>, disk: map<nat, Bytes>, dest: array<bv8>, globalOff: nat, nbytes: nat, chunk: nat,
                  ghost stream: Bytes, ghost limit: nat)
    returns (r: Result<(), ReadError>)
    requires Stored(shards, disk, stream, limit, |stream|) && Aligned(|stream|, ALIGN)
    requires chunk > 0 && Aligned(chunk, ALIGN) && Aligned(globalOff, ALIGN)
    requires dest.Length >= AlignUp(nbytes)
    modifies dest
    ensures r == if nbytes == 0 || globalOff + nbytes <= |stream| then Ok(()) else Err(Exceeds)
    ensures r.Ok? && nbytes > 0 ==>
              && globalOff + AlignUp(nbytes) <= |stream|
              && dest[..] == stream[globalOff..globalOff + AlignUp(nbytes)] + old(dest[AlignUp(nbytes)..])
    ensures r.Err? || nbytes == 0 ==> dest[..] == old(dest[..])
  {
    var pieces := Pieces(shards, globalOff, nbytes);
    PiecesIff(shards, 0, |stream|, globalOff, 0, nbytes);
    if pieces.Err? {
      assert pieces.error != Gap;
      return Err(pieces.error);
    }
    PiecesOk(shards, 0, disk, stream, limit, globalOff, globalOff, 0, nbytes, pieces.value);
    var jobs := PlanJobs(pieces.value, chunk, disk, stream, globalOff, AlignUp(nbytes));
    if nbytes == 0 { return Ok(()); }                  // no jobs
    AlignUpShift(globalOff, nbytes);
    AlignUpLeast(globalOff + nbytes, |stream|);
    RunJobs(jobs, disk, dest, stream, globalOff, AlignUp(nbytes));
    return Ok(());
  }
}
