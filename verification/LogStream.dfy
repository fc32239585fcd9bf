/**
The log stream of one client: replay of the kept records, then live records through a bounded queue that drops its
oldest entry when full and tells the client with a gap frame.  Steps interleave: appends on the tailer's thread, queue
callbacks and the generator on the event loop.  Taking a record out of the queue and looking at the drop counters are
separate steps, because the timeout wrapper around the queue may let callbacks run in between.
*/
module LogStream {
  import opened Wrappers
  import L = LogRing

  datatype Frame = Rec(seqNo: int) | Gap(dropped: int, from: int, to: int)

  datatype Drop = NoDrop | Drop(n: int, from: int, to: int)

  datatype Stage =
    | Replay(at: int)         // next backlog record to send
    | Idle                    // waiting on the queue
    | Holding(rec: int)       // a record is out of the queue, the drop counters not looked at yet
    | Announced(rec: int)     // its gap frame is out, the record not yet

  datatype State = State(
    cap: nat,
    next: int,                // the ring's next sequence number
    put: int,                 // the next record whose queue callback runs
    q: seq<int>,
    drop: Drop,
    boundary: int,            // records below it come from the backlog
    last: int,                // last record sent
    stage: Stage,
    sent: seq<Frame>,
    torn: bool                // history: a record was dropped while another was held
  )

  /** The handler has subscribed and taken its snapshot: records [oldest, cursor) are to be replayed. */
  function Open(cap: nat, since: int, oldest: int, cursor: int, put: int, next: int): State {
    State(cap, next, put, [], NoDrop, cursor, cursor - 1, Replay(oldest),
          if oldest > since then [Gap(oldest - since, since, oldest - 1)] else [], false)
  }

  /** What the ring's snapshot guarantees; callbacks of records appended since the subscription are still pending. */
  predicate Snapshot(cap: nat, since: int, oldest: int, cursor: int, put: int, next: int) {
    && cap > 0 && put <= cursor <= next && oldest <= cursor
    && (oldest < cursor ==> since <= oldest)
  }

  /**
  Opens a stream on a ring: subscribe first, then take the snapshot; records appended by the tailer in between are in
  the snapshot and their callbacks are pending.
  */
  method OpenOn(ring: L.LogRing, push: nat, since: int, cap: nat, raced: seq<string>)
    returns (s: State, backlog: seq<L.Record>)
    requires ring.Valid() && cap > 0
    modifies ring
    ensures ring.Valid() && push in ring.subs && |ring.history| == |old(ring.history)| + |raced|
    ensures var oldest := if backlog == [] then |ring.history| else backlog[0].seqNo;
            && Snapshot(cap, since, oldest, |ring.history|, |old(ring.history)|, |ring.history|)
            && s == Open(cap, since, oldest, |ring.history|, |old(ring.history)|, |ring.history|)
            && 0 <= oldest && backlog == ring.history[oldest..]
  {
    ring.Subscribe(push);
    var put := ring.next;
    for i := 0 to |raced|
      invariant ring.Valid() && push in ring.subs && |ring.history| == put + i
    {
      var _, _ := ring.Append("line", raced[i]);
    }
    var cursor: nat;
    backlog, cursor := ring.Since(since);
    var oldest := if backlog == [] then cursor else backlog[0].seqNo;
    s := Open(cap, since, oldest, cursor, put, cursor);
  }

  datatype Step = Append | RunPut | SendBacklog | EndReplay | Take | Emit | EmitRecord

  predicate Can(s: State, a: Step) {
    match a
    case Append => true
    case RunPut => s.put < s.next
    case SendBacklog => s.stage.Replay? && s.stage.at < s.boundary
    case EndReplay => s.stage.Replay? && s.stage.at >= s.boundary
    case Take => s.stage.Idle? && s.q != []
    case Emit => s.stage.Holding?
    case EmitRecord => s.stage.Announced?
  }

  function Do(s: State, a: Step): State
    requires Can(s, a)
  {
    match a
    case Append => s.(next := s.next + 1)
    case RunPut =>
      if s.put < s.boundary then s.(put := s.put + 1)
      else if |s.q| >= s.cap && s.q != [] then
        s.(put := s.put + 1, q := s.q[1..] + [s.put],
           drop := if s.drop.NoDrop? then Drop(1, s.q[0], s.q[0]) else Drop(s.drop.n + 1, s.drop.from, s.q[0]),
           torn := s.torn || s.stage.Holding?)
      else s.(put := s.put + 1, q := s.q + [s.put])
    case SendBacklog => s.(sent := s.sent + [Rec(s.stage.at)], stage := Replay(s.stage.at + 1))
    case EndReplay => s.(stage := Idle)
    case Take => s.(stage := Holding(s.q[0]), q := s.q[1..])
    case Emit =>
      var r := s.stage.rec;
      if r <= s.last then s.(stage := Idle)
      else if s.drop.NoDrop? then s.(sent := s.sent + [Rec(r)], last := r, stage := Idle)
      else s.(sent := s.sent + [Gap(s.drop.n, s.drop.from, s.drop.to)], drop := NoDrop, stage := Announced(r))
    case EmitRecord => s.(sent := s.sent + [Rec(s.stage.rec)], last := s.stage.rec, stage := Idle)
  }

  // ---------------------------------------------------------------- what the client has been told

  /**
  Reads the frames against a cursor: every number from the cursor on must be sent or announced as lost, once and in
  order, and each gap's count must be the length of its range.  The result is the next number expected.
  */
  function Cover(frames: seq<Frame>, from: int): Option<int> {
    if frames == [] then Some(from)
    else
      match Cover(frames[..|frames| - 1], from)
      case None => None
      case Some(p) =>
        match frames[|frames| - 1]
        case Rec(r) => if r == p then Some(p + 1) else None
        case Gap(n, f, t) => if f == p && t >= f && n == t - f + 1 then Some(t + 1) else None
  }

  lemma CoverMore(frames: seq<Frame>, from: int, f: Frame)
    ensures Cover(frames + [f], from) ==
              match Cover(frames, from)
              case None => None
              case Some(p) =>
                match f
                case Rec(r) => if r == p then Some(p + 1) else None
                case Gap(n, a, b) => if a == p && b >= a && n == b - a + 1 then Some(b + 1) else None
  {
    assert (frames + [f])[..|frames|] == frames;
  }

  function Start(since: int, cursor: int): int { if since <= cursor then since else cursor }

  // ---------------------------------------------------------------- the invariant

  /** The queue holds the numbers from `a` up to the next one to be put. */
  predicate Run(q: seq<int>, a: int, end: int) {
    a + |q| == end && forall i | 0 <= i < |q| :: q[i] == a + i
  }

  function End(s: State): int { if s.put >= s.boundary then s.put else s.boundary }

  /** From `e` on, everything is dropped, or queued, in this order. */
  predicate Queued(s: State, e: int) {
    match s.drop
    case NoDrop => Run(s.q, e, End(s))
    case Drop(n, f, t) => f == e && t >= f && n == t - f + 1 && Run(s.q, t + 1, End(s)) && s.q != []
  }

  /** The state between steps, while no drop has torn a record from its gap; c is the next number the client expects. */
  predicate Whole(s: State, c: int) {
    match s.stage
    case Replay(at) => c == at && at <= s.boundary && s.last == s.boundary - 1 && Queued(s, s.boundary)
    case Idle => c == s.last + 1 && Queued(s, c)
    case Holding(r) =>
      && c == s.last + 1 && c <= r && Run(s.q, r + 1, End(s))
      && (match s.drop case NoDrop => r == c case Drop(n, f, t) => f == c && t == r - 1 && n == t - f + 1 && n > 0)
    case Announced(r) => c == r && s.last < r && Queued(s, r + 1)
  }

  /** A record is held and the counters already tell of a later one: the gap frame will be wrong. */
  predicate Torn(s: State, c: int) {
    && s.stage.Holding? && s.stage.rec > s.last && s.drop.Drop?
    && (s.drop.from != c || s.drop.n == s.drop.to - s.drop.from)
    && Run(s.q, s.drop.to + 1, End(s)) && s.q != []
  }

  predicate Inv(s: State, start: int) {
    && s.cap > 0 && s.put <= s.next
    && match Cover(s.sent, start)
       case None => s.torn
       case Some(c) => (!s.torn && Whole(s, c)) || (s.torn && Torn(s, c))
  }

  lemma OpenInv(cap: nat, since: int, oldest: int, cursor: int, put: int, next: int)
    requires Snapshot(cap, since, oldest, cursor, put, next)
    ensures Inv(Open(cap, since, oldest, cursor, put, next), Start(since, cursor))
  {
    var s := Open(cap, since, oldest, cursor, put, next);
    if oldest > since {
      CoverMore([], since, Gap(oldest - since, since, oldest - 1));
      assert s.sent == [] + [Gap(oldest - since, since, oldest - 1)];
    }
  }

  lemma PutInv(s: State, start: int)
    requires Inv(s, start) && Can(s, RunPut)
    ensures Inv(Do(s, RunPut), start)
  {
    if s.put >= s.boundary && |s.q| >= s.cap && s.q != [] { OverflowInv(s, start); }
  }

  lemma OverflowInv(s: State, start: int)
    requires Inv(s, start) && Can(s, RunPut) && s.put >= s.boundary && |s.q| >= s.cap && s.q != []
    ensures Inv(Do(s, RunPut), start)
  {
    assert s.q[0] == End(s) - |s.q| || Cover(s.sent, start).None?;
  }

  lemma BacklogInv(s: State, start: int)
    requires Inv(s, start) && Can(s, SendBacklog)
    ensures Inv(Do(s, SendBacklog), start)
  {
    CoverMore(s.sent, start, Rec(s.stage.at));
  }

  lemma RecordInv(s: State, start: int)
    requires Inv(s, start) && Can(s, EmitRecord)
    ensures Inv(Do(s, EmitRecord), start)
  {
    CoverMore(s.sent, start, Rec(s.stage.rec));
  }

  lemma EmitInv(s: State, start: int)
    requires Inv(s, start) && Can(s, Emit)
    ensures Inv(Do(s, Emit), start)
  {
    if s.stage.rec > s.last {
      if s.drop.NoDrop? {
        CoverMore(s.sent, start, Rec(s.stage.rec));
      } else {
        CoverMore(s.sent, start, Gap(s.drop.n, s.drop.from, s.drop.to));
      }
    }
  }

  /** Every step keeps the invariant. */
  lemma StepInv(s: State, a: Step, start: int)
    requires Inv(s, start) && Can(s, a)
    ensures Inv(Do(s, a), start)
  {
    match a
    case Append =>
    case RunPut => PutInv(s, start);
    case SendBacklog => BacklogInv(s, start);
    case EndReplay =>
    case Take =>
    case Emit => EmitInv(s, start);
    case EmitRecord => RecordInv(s, start);
  }

  // ---------------------------------------------------------------- runs

  ghost predicate Legal(s: State, steps: seq<Step>)
    decreases |steps|
  {
    steps == [] || (Can(s, steps[0]) && Legal(Do(s, steps[0]), steps[1..]))
  }

  ghost function After(s: State, steps: seq<Step>): State
    requires Legal(s, steps)
    decreases |steps|
  {
    if steps == [] then s else After(Do(s, steps[0]), steps[1..])
  }

  /** Some step of the run drops a record from the full queue while the generator holds another. */
  ghost predicate Tears(s: State, steps: seq<Step>)
    requires Legal(s, steps)
    decreases |steps|
  {
    steps != []
    && ((steps[0].RunPut? && s.stage.Holding? && s.put >= s.boundary && |s.q| >= s.cap && s.q != [])
        || Tears(Do(s, steps[0]), steps[1..]))
  }

  lemma {:induction false} RunInv(s: State, steps: seq<Step>, start: int)
    requires Inv(s, start) && Legal(s, steps)
    ensures Inv(After(s, steps), start) && (After(s, steps).torn <==> s.torn || Tears(s, steps))
    decreases |steps|
  {
    if steps != [] {
      StepInv(s, steps[0], start);
      RunInv(Do(s, steps[0]), steps[1..], start);
    }
  }

  /**
  For every schedule of appends, callbacks and generator steps: what the client has been sent accounts for every number
  from its cursor to the last one sent exactly once, in order and with honest counts, exactly when no record was dropped
  while another was held.
  */
  lemma StreamExactIff(cap: nat, since: int, oldest: int, cursor: int, put: int, next: int, steps: seq<Step>)
    requires Snapshot(cap, since, oldest, cursor, put, next)
    requires Legal(Open(cap, since, oldest, cursor, put, next), steps)
    requires !After(Open(cap, since, oldest, cursor, put, next), steps).stage.Holding?
    ensures var s0 := Open(cap, since, oldest, cursor, put, next); var s := After(s0, steps);
            && (Cover(s.sent, Start(since, cursor)).Some? <==> !Tears(s0, steps))
            && (s.stage.Idle? && !Tears(s0, steps) ==> Cover(s.sent, Start(since, cursor)) == Some(s.last + 1))
  {
    OpenInv(cap, since, oldest, cursor, put, next);
    RunInv(Open(cap, since, oldest, cursor, put, next), steps, Start(since, cursor));
  }

  // ---------------------------------------------------------------- what is announced as lost is lost

  /** The number lies in a gap frame. */
  ghost predicate GapHas(frames: seq<Frame>, n: int) {
    exists i {:trigger frames[i]} :: 0 <= i < |frames| && frames[i].Gap? && frames[i].from <= n <= frames[i].to
  }

  /** The record the step pushes out of the full queue. */
  function LostBy(s: State, a: Step): set<int> {
    if a.RunPut? && s.put >= s.boundary && |s.q| >= s.cap && s.q != [] then {s.q[0]} else {}
  }

  /** The records pushed out of the full queue in the run. */
  ghost function Lost(s: State, steps: seq<Step>): set<int>
    requires Legal(s, steps)
    decreases |steps|
  {
    if steps == [] then {} else LostBy(s, steps[0]) + Lost(Do(s, steps[0]), steps[1..])
  }

  /** The numbers asked for that the ring no longer had. */
  function Missed(since: int, oldest: int): (r: set<int>)
    ensures forall n {:trigger n in r} :: n in r <==> since <= n < oldest
    decreases oldest - since
  {
    if since >= oldest then {} else Missed(since, oldest - 1) + {oldest - 1}
  }

  /** Exactly the lost numbers have been announced, or are about to be. */
  ghost predicate Told(s: State, lost: set<int>) {
    forall n {:trigger n in lost} ::
      n in lost <==> GapHas(s.sent, n) || (s.drop.Drop? && s.drop.from <= n <= s.drop.to)
  }

  lemma GapMore(frames: seq<Frame>, f: Frame, n: int)
    ensures GapHas(frames + [f], n) <==> GapHas(frames, n) || (f.Gap? && f.from <= n <= f.to)
  {
    if GapHas(frames, n) {
      var i :| 0 <= i < |frames| && frames[i].Gap? && frames[i].from <= n <= frames[i].to;
      assert (frames + [f])[i] == frames[i];
    }
    assert (frames + [f])[|frames|] == f;
  }

  lemma StepTold(s: State, a: Step, start: int, lost: set<int>)
    requires Inv(s, start) && Can(s, a) && !Do(s, a).torn && Told(s, lost)
    ensures Told(Do(s, a), lost + LostBy(s, a))
  {
    var t := Do(s, a);
    forall n ensures GapHas(t.sent, n) || (t.drop.Drop? && t.drop.from <= n <= t.drop.to)
                     <==> n in lost || n in LostBy(s, a)
    {
      assert n in lost <==> GapHas(s.sent, n) || (s.drop.Drop? && s.drop.from <= n <= s.drop.to);
      if |t.sent| > |s.sent| { GapMore(s.sent, t.sent[|s.sent|], n); }
    }
  }

  lemma {:induction false} RunTold(s: State, steps: seq<Step>, start: int, lost: set<int>)
    requires Inv(s, start) && Legal(s, steps) && !s.torn && !Tears(s, steps) && Told(s, lost)
    ensures Told(After(s, steps), lost + Lost(s, steps))
    decreases |steps|
  {
    if steps == [] {
      assert lost + {} == lost;
    } else {
      var t := Do(s, steps[0]);
      StepInv(s, steps[0], start);
      StepTold(s, steps[0], start, lost);
      RunTold(t, steps[1..], start, lost + LostBy(s, steps[0]));
      assert lost + LostBy(s, steps[0]) + Lost(t, steps[1..]) == lost + Lost(s, steps);
    }
  }

  /** Frames that cover a range show each of its numbers as a record or in a gap, not both, and no other number. */
  lemma {:induction false} CoverSplits(frames: seq<Frame>, from: int, n: int)
    requires Cover(frames, from).Some?
    ensures var c := Cover(frames, from).value;
            && from <= c && (Rec(n) in frames || GapHas(frames, n) <==> from <= n < c)
            && !(Rec(n) in frames && GapHas(frames, n))
    decreases |frames|
  {
    if frames != [] {
      var front, f := frames[..|frames| - 1], frames[|frames| - 1];
      assert frames == front + [f];
      CoverSplits(front, from, n);
      GapMore(front, f, n);
    }
  }

  /**
  Without tearing, for every number from the client's cursor up to the next one expected: it has been sent as a record
  exactly when the ring still had it and the full queue has not pushed it out, and announced as lost otherwise.
  */
  lemma SentUnlessLost(cap: nat, since: int, oldest: int, cursor: int, put: int, next: int, steps: seq<Step>, n: int)
    requires Snapshot(cap, since, oldest, cursor, put, next)
    requires Legal(Open(cap, since, oldest, cursor, put, next), steps)
    requires !Tears(Open(cap, since, oldest, cursor, put, next), steps)
    ensures var s0 := Open(cap, since, oldest, cursor, put, next);
            var s, lost := After(s0, steps), Missed(since, oldest) + Lost(s0, steps);
            && Cover(s.sent, Start(since, cursor)).Some?
            && (Start(since, cursor) <= n < Cover(s.sent, Start(since, cursor)).value ==>
                  (Rec(n) in s.sent <==> n !in lost) && (GapHas(s.sent, n) <==> n in lost))
  {
    var s0, start := Open(cap, since, oldest, cursor, put, next), Start(since, cursor);
    var s, lost := After(s0, steps), Missed(since, oldest) + Lost(s0, steps);
    OpenInv(cap, since, oldest, cursor, put, next);
    RunInv(s0, steps, start);
    forall m ensures m in Missed(since, oldest) <==> GapHas(s0.sent, m) {
      if oldest > since { GapMore([], Gap(oldest - since, since, oldest - 1), m); }
      assert [] + [Gap(oldest - since, since, oldest - 1)] == [Gap(oldest - since, since, oldest - 1)];
    }
    RunTold(s0, steps, start, Missed(since, oldest));
    CoverSplits(s.sent, start, n);
    assert n in lost <==> GapHas(s.sent, n) || (s.drop.Drop? && s.drop.from <= n <= s.drop.to);
  }

  // ---------------------------------------------------------------- a schedule that tears

  function Repeat(a: Step, n: nat): seq<Step> {
    if n == 0 then [] else [a] + Repeat(a, n - 1)
  }

  function Numbers(from: int, n: nat): seq<int> {
    seq(n, i => from + i)
  }

  lemma {:induction false} Appends(s: State, n: nat)
    ensures Legal(s, Repeat(Append, n)) && After(s, Repeat(Append, n)) == s.(next := s.next + n)
    decreases n
  {
    if n > 0 {
      Appends(Do(s, Append), n - 1);
      Chain(s, Append, Repeat(Append, n - 1));
    }
  }

  /** Callbacks that find room. */
  lemma {:induction false} Puts(s: State, n: nat)
    requires s.boundary <= s.put && s.put + n <= s.next && |s.q| + n <= s.cap
    ensures Legal(s, Repeat(RunPut, n))
    ensures After(s, Repeat(RunPut, n)) == s.(put := s.put + n, q := s.q + Numbers(s.put, n))
    decreases n
  {
    if n == 0 {
      assert s.q + Numbers(s.put, 0) == s.q;
    } else {
      Puts(Do(s, RunPut), n - 1);
      Chain(s, RunPut, Repeat(RunPut, n - 1));
      assert s.q + [s.put] + Numbers(s.put + 1, n - 1) == s.q + Numbers(s.put, n);
    }
  }

  /** A stream that holds record r of cap + 2 appended, with the next ones queued and two still to be put. */
  function Held(cap: nat, r: int): State
    requires cap > 0
  {
    State(cap, r + cap + 2, r + cap, Numbers(r + 1, cap - 1), NoDrop, r, r - 1, Holding(r), [], false)
  }

  function ToHeld(cap: nat): seq<Step> {
    [EndReplay] + (Repeat(Append, cap + 2) + (Repeat(RunPut, cap) + [Take]))
  }

  lemma ReachHeld(cap: nat, r: int)
    requires cap > 0
    ensures Legal(Open(cap, r, r, r, r, r), ToHeld(cap)) && After(Open(cap, r, r, r, r, r), ToHeld(cap)) == Held(cap, r)
  {
    var s0 := Open(cap, r, r, r, r, r);
    var s1 := Do(s0, EndReplay);
    var s2 := s1.(next := r + cap + 2);
    var s3 := s2.(put := r + cap, q := Numbers(r, cap));
    assert [] + Numbers(r, cap) == Numbers(r, cap) && Numbers(r, cap)[1..] == Numbers(r + 1, cap - 1);
    Chain(s3, Take, []);
    assert [Take] + [] == [Take];
    Puts(s2, cap);
    RunThen(s2, Repeat(RunPut, cap), [Take]);
    Appends(s1, cap + 2);
    RunThen(s1, Repeat(Append, cap + 2), Repeat(RunPut, cap) + [Take]);
    Chain(s0, EndReplay, Repeat(Append, cap + 2) + (Repeat(RunPut, cap) + [Take]));
  }

  lemma TearHeld(cap: nat, r: int)
    requires cap > 0
    ensures Legal(Held(cap, r), [RunPut, RunPut, Emit])
    ensures After(Held(cap, r), [RunPut, RunPut, Emit]).sent == [Gap(1, r + 1, r + 1)]
  {
    var s1 := Do(Held(cap, r), RunPut);
    var s2 := Do(s1, RunPut);
    assert s1.q == Numbers(r + 1, cap) && s2.drop == Drop(1, r + 1, r + 1);
    Chain(s2, Emit, []);
    Chain(s1, RunPut, [Emit]);
    Chain(Held(cap, r), RunPut, [RunPut, Emit]);
  }

  lemma {:induction false} RunThen(s: State, a: seq<Step>, b: seq<Step>)
    requires Legal(s, a) && Legal(After(s, a), b)
    ensures Legal(s, a + b) && After(s, a + b) == After(After(s, a), b)
    decreases |a|
  {
    if a == [] {
      assert a + b == b;
    } else {
      RunThen(Do(s, a[0]), a[1..], b);
      assert (a + b)[1..] == a[1..] + b;
    }
  }

  /**
  Such a schedule exists for a queue of any size: it is full but for the record held, and two callbacks run before the
  counters are read.
  */
  lemma TearingRun(cap: nat, since: int)
    requires cap > 0
    ensures exists steps: seq<Step> {:trigger Legal(Open(cap, since, since, since, since, since), steps)} ::
              Legal(Open(cap, since, since, since, since, since), steps)
              && Cover(After(Open(cap, since, since, since, since, since), steps).sent, since).None?
  {
    var s0 := Open(cap, since, since, since, since, since);
    ReachHeld(cap, since);
    TearHeld(cap, since);
    RunThen(s0, ToHeld(cap), [RunPut, RunPut, Emit]);
    CoverMore([], since, Gap(1, since + 1, since + 1));
    assert [] + [Gap(1, since + 1, since + 1)] == [Gap(1, since + 1, since + 1)];
    assert Legal(s0, ToHeld(cap) + [RunPut, RunPut, Emit]);
  }

  lemma Chain(s: State, a: Step, rest: seq<Step>)
    requires Can(s, a) && Legal(Do(s, a), rest)
    ensures Legal(s, [a] + rest) && After(s, [a] + rest) == After(Do(s, a), rest)
  {
    assert ([a] + rest)[1..] == rest;
  }
}
