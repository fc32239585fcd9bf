/**
The slot-granular sliding-window pool: a dense mapping from full slots to window slots, slot 0 meaning none, and a
first-in first-out free list.
*/
module HybridSwaPool {
  import opened Wrappers
  import opened Arithmetic

  /** The last entry of the mapping is the target of lookups at -1. */
  datatype Swa = Swa(mapping: seq<int>, free: seq<nat>, slots: nat)

  // ---------------------------------------------------------------- the invariant

  ghost predicate Held(p: Swa, s: int) {
    exists i {:trigger p.mapping[i]} :: 0 <= i < |p.mapping| - 1 && p.mapping[i] == s
  }

  /** A slot has exactly one owner: the free list or a full slot. */
  ghost predicate Owned(p: Swa, s: int) {
    s in p.free <==> !Held(p, s)
  }

  ghost predicate Injective(p: Swa) {
    forall i, j {:trigger p.mapping[i], p.mapping[j]} |
      0 <= i < |p.mapping| - 1 && 0 <= j < |p.mapping| - 1 && p.mapping[i] == p.mapping[j] && p.mapping[i] > 0 :: i == j
  }

  /** Free slots and held slots partition 1..slots - 1; slot 0 is never handed out; the last entry is -1. */
  ghost predicate Inv(p: Swa) {
    && |p.mapping| > 0 && p.mapping[|p.mapping| - 1] == -1
    && (forall i | 0 <= i < |p.mapping| - 1 :: p.mapping[i] == 0 || 1 <= p.mapping[i] < p.slots)
    && Injective(p) && Distinct(p.free) && (forall s <- p.free :: 1 <= s < p.slots)
    && (forall s {:trigger Owned(p, s)} | 1 <= s < p.slots :: Owned(p, s))
  }

  // ---------------------------------------------------------------- indexing from the end

  ghost predicate Indices(p: Swa, at: seq<int>) {
    forall i | 0 <= i < |at| :: -|p.mapping| <= at[i] < |p.mapping|
  }

  /** A negative index counts from the end. */
  function Wrap(i: int, n: nat): int { if i < 0 then i + n else i }

  function WrapAll(at: seq<int>, n: nat): (r: seq<int>)
    ensures |r| == |at| && forall i | 0 <= i < |at| :: r[i] == Wrap(at[i], n)
  {
    seq(|at|, i requires 0 <= i < |at| => Wrap(at[i], n))
  }

  ghost predicate Positions(p: Swa, at: seq<int>) {
    forall i | 0 <= i < |at| :: 0 <= at[i] < |p.mapping|
  }

  lemma WrapPositions(p: Swa, at: seq<int>)
    requires Indices(p, at)
    ensures Positions(p, WrapAll(at, |p.mapping|))
  {
  }

  // ---------------------------------------------------------------- allocation

  /** Entries overwritten in turn. */
  function Put(m: seq<int>, at: seq<int>, values: seq<nat>): (r: seq<int>)
    requires |at| == |values| && forall i | 0 <= i < |at| :: 0 <= at[i] < |m|
    ensures |r| == |m|
  {
    if at == [] then m
    else
      var n := |at| - 1;
      Put(m, at[..n], values[..n])[at[n] := values[n]]
  }

  ghost function LastAt(at: seq<int>, x: int): (j: nat)
    requires x in at
    ensures j < |at| && at[j] == x && forall k | j < k < |at| :: at[k] != x
  {
    if at[|at| - 1] == x then |at| - 1 else LastAt(at[..|at| - 1], x)
  }

  lemma {:induction false} PutAt(m: seq<int>, at: seq<int>, values: seq<nat>, x: nat)
    requires |at| == |values| && x < |m| && forall i | 0 <= i < |at| :: 0 <= at[i] < |m|
    ensures Put(m, at, values)[x] == if x in at then values[LastAt(at, x)] else m[x]
    decreases |at|
  {
    if at != [] { PutAt(m, at[..|at| - 1], values[..|at| - 1], x); }
  }

  /** The first free slots go to the listed full slots. */
  ghost function Alloc(p: Swa, at: seq<int>): Swa
    requires Positions(p, at) && |at| <= |p.free|
  {
    p.(mapping := Put(p.mapping, at, p.free[..|at|]), free := p.free[|at|..])
  }

  /** The listed full slots are distinct, hold nothing, and are not the last entry. */
  ghost predicate Vacant(p: Swa, at: seq<int>)
    requires Positions(p, at)
  {
    && (forall i, j | 0 <= i < j < |at| :: at[i] != at[j])
    && (forall i | 0 <= i < |at| :: p.mapping[at[i]] == 0)
  }

  lemma AllocAt(p: Swa, at: seq<int>, x: nat)
    requires Inv(p) && Positions(p, at) && |at| <= |p.free| && x < |p.mapping|
    ensures var q := Alloc(p, at);
            if x in at
            then q.mapping[x] == p.free[LastAt(at, x)] && q.mapping[x] in p.free && !Held(p, q.mapping[x])
                 && 1 <= q.mapping[x] < p.slots
            else q.mapping[x] == p.mapping[x]
  {
    PutAt(p.mapping, at, p.free[..|at|], x);
    if x in at {
      var s := p.free[LastAt(at, x)];
      assert s in p.free && Owned(p, s);
    }
  }

  lemma AllocKeeps(p: Swa, at: seq<int>)
    requires Inv(p) && Positions(p, at) && |at| <= |p.free| && Vacant(p, at)
    ensures Inv(Alloc(p, at))
  {
    var q, end := Alloc(p, at), |p.mapping| - 1;
    AllocAt(p, at, end);
    forall i | 0 <= i < end ensures q.mapping[i] == 0 || 1 <= q.mapping[i] < q.slots { AllocAt(p, at, i); }
    AllocInjective(p, at);
    forall s <- q.free ensures 1 <= s < q.slots { assert s in p.free; }
    forall s {:trigger Owned(q, s)} | 1 <= s < q.slots ensures Owned(q, s) { AllocOwned(p, at, s); }
  }

  lemma AllocInjective(p: Swa, at: seq<int>)
    requires Inv(p) && Positions(p, at) && |at| <= |p.free|
    ensures Injective(Alloc(p, at))
  {
    var q := Alloc(p, at);
    forall i, j {:trigger q.mapping[i], q.mapping[j]} |
      0 <= i < |q.mapping| - 1 && 0 <= j < |q.mapping| - 1 && q.mapping[i] == q.mapping[j] && q.mapping[i] > 0
      ensures i == j
    {
      AllocAt(p, at, i);
      AllocAt(p, at, j);
      assert j !in at ==> Held(p, q.mapping[j]);
      assert i !in at ==> Held(p, q.mapping[i]);
    }
  }

  lemma AllocOwned(p: Swa, at: seq<int>, s: int)
    requires Inv(p) && Positions(p, at) && |at| <= |p.free| && Vacant(p, at) && 1 <= s < p.slots
    ensures Owned(Alloc(p, at), s)
  {
    var q := Alloc(p, at);
    assert Owned(p, s);
    if s in q.free {
      var k :| |at| <= k < |p.free| && p.free[k] == s;
      assert s in p.free;
      if Held(q, s) {
        var i :| 0 <= i < |q.mapping| - 1 && q.mapping[i] == s;
        AllocAt(p, at, i);
      }
    } else if s in p.free {
      var k :| 0 <= k < |p.free| && p.free[k] == s;
      assert q.free == p.free[|at|..];
      assert k < |at|;
      AllocAt(p, at, at[k]);
      assert LastAt(at, at[k]) == k;
      assert q.mapping[at[k]] == s && at[k] != |p.mapping| - 1;
    } else {
      var i :| 0 <= i < |p.mapping| - 1 && p.mapping[i] == s;
      AllocAt(p, at, i);
      assert q.mapping[i] == s;
    }
  }

  /** A full slot that held something, or is listed twice, loses a window slot; the last entry must stay -1. */
  lemma AllocLoses(p: Swa, at: seq<int>)
    requires Inv(p) && Positions(p, at) && |at| <= |p.free| && !Vacant(p, at)
    ensures !Inv(Alloc(p, at))
  {
    var q, end := Alloc(p, at), |p.mapping| - 1;
    AllocAt(p, at, end);
    if end !in at {
      if i, j :| 0 <= i < j < |at| && at[i] == at[j] {
        var s := p.free[i];
        assert s in p.free && Owned(p, s);
        if Held(q, s) {
          var x :| 0 <= x < end && q.mapping[x] == s;
          AllocAt(p, at, x);
        }
        assert !Owned(q, s);
      } else {
        var j :| 0 <= j < |at| && p.mapping[at[j]] != 0;
        var s := p.mapping[at[j]];
        assert at[j] in at;
        assert Held(p, s) && Owned(p, s);
        if Held(q, s) {
          var x :| 0 <= x < end && q.mapping[x] == s;
          AllocAt(p, at, x);
        }
        assert !Owned(q, s);
      }
    }
  }

  /** Allocation keeps the partition exactly when the full slots are distinct and vacant. */
  lemma AllocIff(p: Swa, at: seq<int>)
    requires Inv(p) && Positions(p, at) && |at| <= |p.free|
    ensures Inv(Alloc(p, at)) <==> Vacant(p, at)
  {
    if Vacant(p, at) { AllocKeeps(p, at); } else { AllocLoses(p, at); }
  }

  // ---------------------------------------------------------------- freeing

  function Zeroed(m: seq<int>, at: seq<int>): (r: seq<int>)
    requires forall i | 0 <= i < |at| :: 0 <= at[i] < |m|
    ensures |r| == |m| && forall x | 0 <= x < |m| :: r[x] == if x in at then 0 else m[x]
  {
    if at == [] then m else Zeroed(m, at[..|at| - 1])[at[|at| - 1] := 0]
  }

  /** The window slots behind the listed full slots, those that have one. */
  function Live(m: seq<int>, at: seq<int>): seq<nat>
    requires forall i | 0 <= i < |at| :: 0 <= at[i] < |m|
  {
    if at == [] then []
    else
      var s := m[at[|at| - 1]];
      Live(m, at[..|at| - 1]) + if s > 0 then [s] else []
  }

  ghost function Free(p: Swa, at: seq<int>): Swa
    requires Positions(p, at)
  {
    p.(mapping := Zeroed(p.mapping, at), free := p.free + Live(p.mapping, at))
  }

  /** No full slot that holds something is listed twice, and the last entry is not listed. */
  ghost predicate Releasable(p: Swa, at: seq<int>)
    requires Positions(p, at)
  {
    && |p.mapping| - 1 !in at
    && forall i, j | 0 <= i < j < |at| && at[i] == at[j] :: p.mapping[at[i]] <= 0
  }

  lemma {:induction false} LiveIff(m: seq<int>, at: seq<int>, s: nat)
    requires forall i | 0 <= i < |at| :: 0 <= at[i] < |m|
    ensures s in Live(m, at) <==> s > 0 && exists x {:trigger m[x]} :: x in at && m[x] == s
    decreases |at|
  {
    if at != [] {
      var n := |at| - 1;
      LiveIff(m, at[..n], s);
      assert forall x :: x in at <==> x in at[..n] || x == at[n];
    }
  }

  lemma {:induction false} LiveDistinct(m: seq<int>, at: seq<int>)
    requires forall i | 0 <= i < |at| :: 0 <= at[i] < |m|
    requires forall i, j | 0 <= i < j < |at| && m[at[i]] == m[at[j]] :: m[at[i]] <= 0
    ensures Distinct(Live(m, at))
    decreases |at|
  {
    if at != [] {
      var n := |at| - 1;
      var init, s := at[..n], m[at[n]];
      assert forall i | 0 <= i < n :: init[i] == at[i];
      LiveDistinct(m, init);
      if s > 0 && s in Live(m, init) {
        LiveIff(m, init, s);
      }
      AppendDistinct(Live(m, init), s);
    }
  }

  lemma AppendDistinct(rest: seq<nat>, s: int)
    requires Distinct(rest) && (s > 0 ==> s as nat !in rest)
    ensures s > 0 ==> Distinct(rest + [s])
  {
  }

  lemma ReleasableApart(p: Swa, at: seq<int>)
    requires Inv(p) && Positions(p, at) && Releasable(p, at)
    ensures forall i, j | 0 <= i < j < |at| && p.mapping[at[i]] == p.mapping[at[j]] :: p.mapping[at[i]] <= 0
  {
    forall i, j | 0 <= i < j < |at| && p.mapping[at[i]] == p.mapping[at[j]] ensures p.mapping[at[i]] <= 0 {
      assert at[i] in at && at[j] in at;
    }
  }

  lemma FreeKeeps(p: Swa, at: seq<int>)
    requires Inv(p) && Positions(p, at) && Releasable(p, at)
    ensures Inv(Free(p, at))
  {
    var q, live := Free(p, at), Live(p.mapping, at);
    ReleasableApart(p, at);
    LiveDistinct(p.mapping, at);
    forall s <- live ensures 1 <= s < p.slots && s !in p.free { LiveWasHeld(p, at, s); }
    assert Distinct(q.free) by {
      forall i, j | 0 <= i < j < |q.free| ensures q.free[i] != q.free[j] {
        if i < |p.free| <= j { assert q.free[j] in live && q.free[i] in p.free; }
      }
    }
    forall s {:trigger Owned(q, s)} | 1 <= s < q.slots ensures Owned(q, s) { FreeOwned(p, at, s); }
  }

  lemma LiveWasHeld(p: Swa, at: seq<int>, s: nat)
    requires Inv(p) && Positions(p, at) && |p.mapping| - 1 !in at && s in Live(p.mapping, at)
    ensures 1 <= s < p.slots && s !in p.free
  {
    LiveIff(p.mapping, at, s);
    var x :| x in at && p.mapping[x] == s;
    assert Held(p, s) && Owned(p, s);
  }

  lemma FreeOwned(p: Swa, at: seq<int>, s: nat)
    requires Inv(p) && Positions(p, at) && |p.mapping| - 1 !in at && 1 <= s < p.slots
    ensures Owned(Free(p, at), s)
  {
    var q := Free(p, at);
    assert Owned(p, s);
    LiveIff(p.mapping, at, s);
    if Held(q, s) {
      var i :| 0 <= i < |q.mapping| - 1 && q.mapping[i] == s;
      assert p.mapping[i] == s && i !in at;
      assert Held(p, s);
      assert forall x | x in at :: p.mapping[x] != s;
    } else if s !in p.free {
      var i :| 0 <= i < |p.mapping| - 1 && p.mapping[i] == s;
      assert q.mapping[i] != s;
      assert i in at;
    }
  }

  /** A held slot listed twice is returned twice. */
  lemma {:induction false} LiveTwice(m: seq<int>, at: seq<int>, i: nat, j: nat)
    requires forall k | 0 <= k < |at| :: 0 <= at[k] < |m|
    requires i < j < |at| && at[i] == at[j] && m[at[i]] > 0
    ensures !Distinct(Live(m, at))
    decreases |at|
  {
    var n := |at| - 1;
    var rest := Live(m, at[..n]);
    if j < n {
      LiveTwice(m, at[..n], i, j);
      var a, b :| 0 <= a < b < |rest| && rest[a] == rest[b];
      assert Live(m, at)[a] == Live(m, at)[b];
    } else {
      LiveIff(m, at[..n], m[at[n]]);
      assert at[..n][i] == at[n];
      var a :| 0 <= a < |rest| && rest[a] == m[at[n]];
      assert Live(m, at)[a] == Live(m, at)[|rest|];
    }
  }

  lemma FreeBreaks(p: Swa, at: seq<int>)
    requires Inv(p) && Positions(p, at) && !Releasable(p, at)
    ensures !Inv(Free(p, at))
  {
    var live := Live(p.mapping, at);
    if |p.mapping| - 1 !in at {
      var i, j :| 0 <= i < j < |at| && at[i] == at[j] && p.mapping[at[i]] > 0;
      LiveTwice(p.mapping, at, i, j);
      var a, b :| 0 <= a < b < |live| && live[a] == live[b];
      assert (p.free + live)[|p.free| + a] == (p.free + live)[|p.free| + b];
    }
  }

  /** Freeing keeps the partition exactly when no held full slot is listed twice and -1 is not listed. */
  lemma FreeIff(p: Swa, at: seq<int>)
    requires Inv(p) && Positions(p, at)
    ensures Inv(Free(p, at)) <==> Releasable(p, at)
  {
    if Releasable(p, at) { FreeKeeps(p, at); } else { FreeBreaks(p, at); }
  }

  /** Full slots that hold nothing can be freed again: nothing changes. */
  lemma FreeVacant(p: Swa, at: seq<int>)
    requires Positions(p, at) && forall i | 0 <= i < |at| :: p.mapping[at[i]] == 0
    ensures Free(p, at) == p
  {
    NothingLive(p.mapping, at);
    assert Zeroed(p.mapping, at) == p.mapping;
  }

  lemma {:induction false} NothingLive(m: seq<int>, at: seq<int>)
    requires forall i | 0 <= i < |at| :: 0 <= at[i] < |m| && m[at[i]] == 0
    ensures Live(m, at) == []
    decreases |at|
  {
    if at != [] {
      assert forall i | 0 <= i < |at| - 1 :: at[..|at| - 1][i] == at[i];
      NothingLive(m, at[..|at| - 1]);
    }
  }

  // ---------------------------------------------------------------- the pool

  datatype SwaError = Exhausted

  class HybridSWAPool {
    const swaNumTokens: nat
    const fullToSwa: array<int>
    var swaFree: seq<nat>

    ghost function State(): Swa
      reads this, fullToSwa
    {
      Swa(fullToSwa[..], swaFree, swaNumTokens)
    }

    /** Every full slot, one page beyond the last included, holds nothing; slots 1 and up are free. */
    constructor (fullNumTokens: nat, pageSize: nat, swaNumTokens: nat)
      ensures fresh(fullToSwa) && Inv(State()) && fullToSwa.Length == fullNumTokens + pageSize + 1
      ensures forall i | 0 <= i < fullNumTokens + pageSize :: fullToSwa[i] == 0
      ensures swaFree == Range(swaNumTokens)
    {
      this.swaNumTokens := swaNumTokens;
      var n := fullNumTokens + pageSize;
      fullToSwa := new int[n + 1](i => if i == n then -1 else 0);
      swaFree := Range(swaNumTokens);
    }

    /** One window slot for each full slot listed; running out is an error that changes nothing. */
    method AllocSwa(fullIndices: seq<int>) returns (r: Result<(), SwaError>)
      requires Indices(State(), fullIndices)
      modifies this, fullToSwa
      ensures Positions(old(State()), WrapAll(fullIndices, fullToSwa.Length))
      ensures r == if |fullIndices| > |old(swaFree)| then Err(Exhausted) else Ok(())
      ensures State() == if r.Ok? then Alloc(old(State()), WrapAll(fullIndices, fullToSwa.Length)) else old(State())
    {
      WrapPositions(State(), fullIndices);
      var n := |fullIndices|;
      if n > |swaFree| { return Err(Exhausted); }
      var at, swa := WrapAll(fullIndices, fullToSwa.Length), swaFree[..n];
      swaFree := swaFree[n..];
      for k := 0 to n
        invariant swaFree == old(swaFree)[n..]
        invariant fullToSwa[..] == Put(old(fullToSwa[..]), at[..k], swa[..k])
      {
        assert at[..k + 1][..k] == at[..k] && swa[..k + 1][..k] == swa[..k];
        fullToSwa[at[k]] := swa[k];
      }
      assert at[..n] == at && swa[..n] == swa;
      return Ok(());
    }

    /** Returns the window slots behind the full slots listed. */
    method FreeSwa(fullIndices: seq<int>)
      requires Indices(State(), fullIndices)
      modifies this, fullToSwa
      ensures Positions(old(State()), WrapAll(fullIndices, fullToSwa.Length))
      ensures State() == Free(old(State()), WrapAll(fullIndices, fullToSwa.Length))
    {
      WrapPositions(State(), fullIndices);
      var at := WrapAll(fullIndices, fullToSwa.Length);
      ghost var live := Live(fullToSwa[..], at);
      swaFree := swaFree + Live(fullToSwa[..], at);
      for k := 0 to |at|
        invariant swaFree == old(swaFree) + live
        invariant fullToSwa[..] == Zeroed(old(fullToSwa[..]), at[..k])
      {
        assert at[..k + 1][..k] == at[..k];
        fullToSwa[at[k]] := 0;
      }
      assert at[..|at|] == at;
    }

    /** The window slot of a full slot, 0 for none; -1 gives -1. */
    method TranslateLocFromFullToSwa(loc: int) returns (slot: int)
      requires Inv(State()) && -1 <= loc < fullToSwa.Length - 1
      ensures slot == if loc == -1 then -1 else State().mapping[loc]
      ensures loc >= 0 ==> 0 <= slot && (slot > 0 ==> slot < swaNumTokens && slot !in swaFree)
    {
      slot := fullToSwa[Wrap(loc, fullToSwa.Length)];
      if loc >= 0 && slot > 0 { assert Held(State(), slot) && Owned(State(), slot); }
    }
  }

  /** On a fresh pool: freeing -1 overwrites the entry that makes a lookup at -1 safe. */
  method FreeSentinel(fullNumTokens: nat, pageSize: nat, swaNumTokens: nat) returns (pool: HybridSWAPool)
    ensures fresh(pool) && !Inv(pool.State())
  {
    pool := new HybridSWAPool(fullNumTokens, pageSize, swaNumTokens);
    ghost var p, at := pool.State(), WrapAll([-1], pool.fullToSwa.Length);
    assert at[0] == |p.mapping| - 1;
    pool.FreeSwa([-1]);
    FreeIff(p, at);
  }

  /** On a pool that has handed out one slot: listing its full slot twice returns it twice. */
  method FreeRepeated(fullNumTokens: nat, pageSize: nat, swaNumTokens: nat) returns (pool: HybridSWAPool)
    requires fullNumTokens > 0 && swaNumTokens > 1
    ensures fresh(pool) && !Inv(pool.State())
  {
    hide Inv, Put;
    pool := new HybridSWAPool(fullNumTokens, pageSize, swaNumTokens);
    ghost var p, one := pool.State(), WrapAll([0], pool.fullToSwa.Length);
    assert one == [0] && p.mapping[0] == 0;
    var r := pool.AllocSwa([0]);
    FirstSlot(p);
    ghost var q, two := pool.State(), WrapAll([0, 0], pool.fullToSwa.Length);
    assert two == [0, 0] && two[0] == two[1];
    pool.FreeSwa([0, 0]);
    FreeIff(q, two);
  }

  lemma FirstSlot(p: Swa)
    requires Inv(p) && |p.mapping| > 1 && p.mapping[0] == 0 && p.free != []
    ensures Positions(p, [0]) && Inv(Alloc(p, [0])) && Alloc(p, [0]).mapping[0] > 0
    ensures |Alloc(p, [0]).mapping| == |p.mapping|
  {
    assert [0][..0] == [];
    AllocIff(p, [0]);
    assert p.free[0] in p.free;
  }

  function Range(n: nat): (r: seq<nat>)
    ensures Distinct(r) && forall s: nat {:trigger s in r} :: s in r <==> 1 <= s < n
  {
    if n <= 1 then []
    else
      assert (n - 1) as nat !in Range(n - 1);
      Range(n - 1) + [n - 1]
  }
}
