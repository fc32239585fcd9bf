/**
What the supervisor promises over whole runs, and where its promises stop.
*/
module ServeRuns {
  import opened Wrappers
  import opened ServeManager
  import opened ServeSafety

  lemma {:induction false} RunInv(s: State, steps: seq<Step>)
    requires Inv(s) && Legal(s, steps)
    ensures Inv(After(s, steps))
    decreases |steps|
  {
    if steps != [] {
      StepInv(s, steps[0]);
      RunInv(Do(s, steps[0]), steps[1..]);
    }
  }

  /** Every reachable state satisfies the invariant. */
  lemma ReachableInv(s: State)
    requires Reachable(s)
    ensures Inv(s)
  {
    var s0, steps :| Init(s0) && Legal(s0, steps) && After(s0, steps) == s;
    InitInv(s0);
    RunInv(s0, steps);
  }

  lemma {:induction false} RunStep(s: State, steps: seq<Step>, a: Step)
    requires Legal(s, steps) && Can(After(s, steps), a)
    ensures Legal(s, steps + [a]) && After(s, steps + [a]) == Do(After(s, steps), a)
    decreases |steps|
  {
    if steps == [] {
      assert ([] + [a])[1..] == [];
    } else {
      RunStep(Do(s, steps[0]), steps[1..], a);
      assert (steps + [a])[1..] == steps[1..] + [a];
    }
  }

  lemma ReachStep(s: State, a: Step)
    requires Reachable(s) && Can(s, a)
    ensures Reachable(Do(s, a))
  {
    var s0, steps :| Init(s0) && Legal(s0, steps) && After(s0, steps) == s;
    RunStep(s0, steps, a);
  }

  // ---------------------------------------------------------------- signals

  predicate IsSignal(a: Step) { a.SignalStop? && (a.signal.TermOk? || a.signal.KillOk?) }

  /** The step makes the receipt durable: a stop's, or the child's own monitor's. */
  predicate Writes(s: State, a: Step, r: Receipt)
    requires Can(s, a)
  {
    if r.kind.StopReceipt? then a == SealStop(PersistOk) && s.txn.gen == r.gen else a == OfMonitor(r.gen, CrashOk)
  }

  /** In the run some step makes the receipt durable. */
  ghost predicate Persists(s: State, steps: seq<Step>, r: Receipt)
    requires Legal(s, steps)
    decreases |steps|
  {
    steps != [] && (Writes(s, steps[0], r) || Persists(Do(s, steps[0]), steps[1..], r))
  }

  /** In the run some step makes the receipt durable, and a client acknowledges it later. */
  ghost predicate AckedSince(s: State, steps: seq<Step>, r: Receipt)
    requires Legal(s, steps)
    decreases |steps|
  {
    steps != []
    && ((Writes(s, steps[0], r) && Ack(r) in steps[1..]) || AckedSince(Do(s, steps[0]), steps[1..], r))
  }

  /** The run has made the receipt durable, and it is on disk unless a client has acknowledged it since. */
  ghost predicate OnRecord(s: State, steps: seq<Step>, r: Receipt)
    requires Legal(s, steps)
  {
    Persists(s, steps, r) && (r in After(s, steps).books.outbox || AckedSince(s, steps, r))
  }

  lemma SealOutbox(s: State, a: SealStep, r: Receipt)
    requires CanSeal(s, a)
    ensures r in DoSeal(s, a).books.outbox
            <==> r in s.books.outbox || (a.PersistOk? && r == Receipt(s.txn.gen, StopReceipt))
  {
  }

  lemma MonitorOutbox(s: State, g: Gen, a: MonitorStep, r: Receipt)
    requires Has(s, g) && CanMonitor(s, g, a)
    ensures r in DoMonitor(s, g, a).books.outbox
            <==> r in s.books.outbox || (a.CrashOk? && r == Receipt(g, CrashReceipt))
  {
    hide DoMonitor;
    MonitorFrame(s, g, a);
  }

  /** What is on disk after a step: what was written, and what was there and has not been acknowledged. */
  lemma StepOutbox(s: State, a: Step, r: Receipt)
    requires Can(s, a)
    ensures r in Do(s, a).books.outbox <==> Writes(s, a, r) || (r in s.books.outbox && a != Ack(r))
  {
    match a
    case Start(b) => StartFailed(s, b);
    case Stop(b) => StopLeavesAlone(s, b);
    case SealStop(b) => SealOutbox(s, b, r);
    case SignalStop(b) => SignalLeavesAlone(s, b);
    case OfMonitor(g, b) => MonitorOutbox(s, g, b, r);
    case Exit(_) =>
    case Ack(_) =>
  }

  lemma {:induction false} OutboxStays(s: State, steps: seq<Step>, r: Receipt)
    requires Legal(s, steps) && r in s.books.outbox && Ack(r) !in steps
    ensures r in After(s, steps).books.outbox
    decreases |steps|
  {
    if steps != [] {
      StepOutbox(s, steps[0], r);
      OutboxStays(Do(s, steps[0]), steps[1..], r);
    }
  }

  lemma {:induction false} PersistedOnRecord(s: State, steps: seq<Step>, r: Receipt)
    requires Legal(s, steps) && Persists(s, steps, r)
    ensures OnRecord(s, steps, r)
    decreases |steps|
  {
    var t := Do(s, steps[0]);
    if Writes(s, steps[0], r) {
      StepOutbox(s, steps[0], r);
      if Ack(r) !in steps[1..] { OutboxStays(t, steps[1..], r); }
    } else {
      PersistedOnRecord(t, steps[1..], r);
    }
  }

  /** What a run has written it has put on disk, and everything it puts there it has written. */
  lemma {:induction false} WrittenIff(s: State, steps: seq<Step>, r: Receipt)
    requires Legal(s, steps)
    ensures r in After(s, steps).books.written <==> r in s.books.written || OnRecord(s, steps, r)
    ensures r in After(s, steps).books.outbox ==> r in s.books.outbox || OnRecord(s, steps, r)
    decreases |steps|
  {
    if steps != [] {
      var a, t := steps[0], Do(s, steps[0]);
      WrittenIff(t, steps[1..], r);
      StepOutbox(s, a, r);
      WrittenGrows(s, a);
      if Writes(s, a, r) { WritesWritten(s, a, r); }
      if r in t.books.written && r !in s.books.written { StepWritten(s, a, r); }
      if Persists(s, steps, r) { PersistedOnRecord(s, steps, r); }
    }
  }

  lemma WritesWritten(s: State, a: Step, r: Receipt)
    requires Can(s, a) && Writes(s, a, r)
    ensures r in Do(s, a).books.written
  {
    if a.OfMonitor? { MonitorWrites(s, a.gen, a.monitor); }
  }

  lemma StartUnsealed(s: State, a: StartStep)
    requires CanStart(s, a)
    ensures !Sealed(DoStart(s, a).txn) && DoStart(s, a).books.written == s.books.written
  {
  }

  lemma StopUnsealed(s: State, a: StopStep)
    requires CanStop(s, a)
    ensures !Sealed(DoStop(s, a).txn) && DoStop(s, a).books.written == s.books.written
  {
    var t := DoStop(s, a).txn;
    assert t.Idle? || t.StartEntry? || t.ShutdownEntry? || t.StopEntry? || t.StopDone? || t.StopGuard?
           || t.ShutdownUndo?;
  }

  lemma SealUnsealed(s: State, a: SealStep)
    requires CanSeal(s, a) && !a.PersistOk? && !Sealed(s.txn)
    ensures !Sealed(DoSeal(s, a).txn)
  {
  }

  lemma SealWrites(s: State, a: SealStep)
    requires CanSeal(s, a) && !a.PersistOk?
    ensures DoSeal(s, a).books.written == s.books.written
  {
  }

  lemma SignalSealed(s: State, a: SignalStep)
    requires CanSignal(s, a)
    ensures Sealed(s.txn) && DoSignal(s, a).books.written == s.books.written
  {
  }

  lemma MonitorSteps(s: State, g: Gen, a: MonitorStep)
    requires Has(s, g) && CanMonitor(s, g, a)
    ensures DoMonitor(s, g, a).txn == s.txn
    ensures s.stopRequested ==> DoMonitor(s, g, a).stopRequested
  {
  }

  lemma MonitorCount(s: State, g: Gen, a: MonitorStep)
    requires Has(s, g) && CanMonitor(s, g, a)
    ensures |DoMonitor(s, g, a).children| == |s.children|
  {
  }

  lemma MonitorWrites(s: State, g: Gen, a: MonitorStep)
    requires Has(s, g) && CanMonitor(s, g, a)
    ensures DoMonitor(s, g, a).books.written
         == if a.CrashOk? then s.books.written + {Receipt(g, CrashReceipt)} else s.books.written
  {
    hide DoMonitor;
    MonitorFrame(s, g, a);
  }

  lemma StepWritten(s: State, a: Step, r: Receipt)
    requires Can(s, a) && r in Do(s, a).books.written && r !in s.books.written
    ensures Writes(s, a, r)
  {
    match a
    case Start(b) => StartUnsealed(s, b);
    case Stop(b) => StopUnsealed(s, b);
    case SealStop(b) => if !b.PersistOk? { SealWrites(s, b); }
    case SignalStop(b) => SignalSealed(s, b);
    case OfMonitor(g, b) => MonitorWrites(s, g, b);
    case Exit(_) =>
    case Ack(_) =>
  }

  lemma StepUnsealed(s: State, a: Step)
    requires Can(s, a) && !Sealed(s.txn) && a != SealStop(PersistOk)
    ensures !IsSignal(a) && !Sealed(Do(s, a).txn)
  {
    match a
    case Start(b) => StartUnsealed(s, b);
    case Stop(b) => StopUnsealed(s, b);
    case SealStop(b) => SealUnsealed(s, b);
    case SignalStop(b) => SignalSealed(s, b);
    case OfMonitor(g, b) => MonitorSteps(s, g, b);
    case Exit(_) =>
    case Ack(_) =>
  }

  /** A transaction gets the right to signal only by persisting, and keeps it only for the same child. */
  lemma StepSealed(s: State, a: Step)
    requires Can(s, a) && Sealed(Do(s, a).txn)
    ensures Target(Do(s, a).txn) == Target(s.txn) && (Sealed(s.txn) || a == SealStop(PersistOk))
  {
    hide Sealed, Target, DoStart, DoStop, DoSeal, DoSignal, DoMonitor;
    match a
    case Start(b) => StartUnsealed(s, b);
    case Stop(b) => StopUnsealed(s, b);
    case SealStop(b) => SealSealed(s, b);
    case SignalStop(b) => SignalStaysOnTarget(s, b);
    case OfMonitor(g, b) => MonitorSteps(s, g, b);
    case Exit(_) =>
    case Ack(_) =>
  }

  lemma SealSealed(s: State, a: SealStep)
    requires CanSeal(s, a) && Sealed(DoSeal(s, a).txn)
    ensures Target(DoSeal(s, a).txn) == Target(s.txn) && (Sealed(s.txn) || a.PersistOk?)
  {
  }

  lemma SignalStaysOnTarget(s: State, a: SignalStep)
    requires CanSignal(s, a) && Sealed(DoSignal(s, a).txn)
    ensures Target(DoSignal(s, a).txn) == Target(s.txn) && Sealed(s.txn)
  {
    SignalStaysSealed(s, a);
  }

  lemma {:induction false} SealedPersists(s: State, steps: seq<Step>)
    requires Legal(s, steps) && Sealed(After(s, steps).txn)
    ensures (Sealed(s.txn) && Target(s.txn) == Target(After(s, steps).txn))
            || Persists(s, steps, Receipt(After(s, steps).txn.gen, StopReceipt))
    decreases |steps|
  {
    if steps != [] {
      SealedPersists(Do(s, steps[0]), steps[1..]);
      if Sealed(Do(s, steps[0]).txn) { StepSealed(s, steps[0]); }
    }
  }

  /**
  A signal goes only to a child for which the run has already persisted a stop receipt, whatever came before it; that
  receipt is on disk then unless a client has acknowledged it since.
  */
  lemma SignalAfterReceipt(s0: State, steps: seq<Step>, a: Step)
    requires Init(s0) && Legal(s0, steps) && Can(After(s0, steps), a) && IsSignal(a)
    ensures OnRecord(s0, steps, Receipt(After(s0, steps).txn.gen, StopReceipt))
  {
    SealedPersists(s0, steps);
    PersistedOnRecord(s0, steps, Receipt(After(s0, steps).txn.gen, StopReceipt));
  }

  /** While no receipt is persisted, no signal is sent: a stop that fails before its receipt touches nobody. */
  lemma {:induction false} NoReceiptNoSignal(s: State, steps: seq<Step>, i: nat)
    requires Legal(s, steps) && !Sealed(s.txn) && SealStop(PersistOk) !in steps && i < |steps|
    ensures !IsSignal(steps[i])
    decreases |steps|
  {
    StepUnsealed(s, steps[0]);
    if i > 0 { NoReceiptNoSignal(Do(s, steps[0]), steps[1..], i - 1); }
  }

  /** A stop that failed has returned to its caller. */
  function Returned(s: State): State
    requires s.txn.StopFail?
  {
    var t := DoStop(s, FailReturn);
    if t.txn.ShutdownUndo? then DoStop(t, UndoReturn) else t
  }

  /**
  After a failed stop nothing is being stopped, and the child is still there for the next stop to find exactly as long
  as its monitor has not given the slot up.
  */
  lemma FailedStopKeepsChild(s: State, force: bool)
    requires Reachable(s) && s.txn.StopFail?
    ensures var t := Returned(s);
            && t.txn.Idle? && !t.stopping && !t.starting && Has(s, s.txn.gen)
            && (s.txn.kind.ShutdownStop? ==> !t.shutdownRequested)
            && (t.child == Some(s.txn.gen) <==> !Past(s.children[s.txn.gen].monitor))
            && (t.child == Some(s.txn.gen) ==>
                  DoStop(DoStop(t, CallStop(force)), StopAdmit).txn == StopGuard(PlainStop, force, s.txn.gen))
  {
    ReachableInv(s);
    assert ChildOk(s, s.txn.gen);
  }

  // ---------------------------------------------------------------- accounting

  /** An explicit client start is admitted: it clears the stop intent. */
  predicate ExplicitAdmit(s: State, a: Step) {
    a == Start(StartAdmit) && s.txn.StartEntry? && !s.txn.auto && !s.shutdownRequested
  }

  /** In the run some explicit start is admitted. */
  ghost predicate Admits(s: State, steps: seq<Step>)
    requires Legal(s, steps)
    decreases |steps|
  {
    steps != [] && (ExplicitAdmit(s, steps[0]) || Admits(Do(s, steps[0]), steps[1..]))
  }

  /** A step that latches the stop intent: a stop is admitted, or a crash receipt was refused. */
  predicate Raises(a: Step) { a == Stop(StopAdmit) || (a.OfMonitor? && a.monitor.Latch?) }

  ghost predicate Raised(steps: seq<Step>) {
    exists i :: 0 <= i < |steps| && Raises(steps[i])
  }

  /** In the run an explicit start is admitted, and nothing latches the intent after it. */
  ghost predicate Undone(s: State, steps: seq<Step>)
    requires Legal(s, steps)
    decreases |steps|
  {
    steps != []
    && ((ExplicitAdmit(s, steps[0]) && !Raised(steps[1..])) || Undone(Do(s, steps[0]), steps[1..]))
  }

  lemma StepIntent(s: State, a: Step)
    requires Can(s, a)
    ensures Do(s, a).stopRequested <==> Raises(a) || (s.stopRequested && !ExplicitAdmit(s, a))
  {
    match a
    case Start(b) => StartIntent(s, b);
    case Stop(b) => StopIntent(s, b);
    case SealStop(b) =>
    case SignalStop(b) =>
    case OfMonitor(g, b) => MonitorIntent(s, g, b);
    case Exit(_) =>
    case Ack(_) =>
  }

  lemma StartIntent(s: State, a: StartStep)
    requires CanStart(s, a)
    ensures DoStart(s, a).stopRequested <==> s.stopRequested && !ExplicitAdmit(s, Start(a))
  {
  }

  lemma StopIntent(s: State, a: StopStep)
    requires CanStop(s, a)
    ensures DoStop(s, a).stopRequested <==> a.StopAdmit? || s.stopRequested
  {
  }

  lemma MonitorIntent(s: State, g: Gen, a: MonitorStep)
    requires Has(s, g) && CanMonitor(s, g, a)
    ensures DoMonitor(s, g, a).stopRequested <==> a.Latch? || s.stopRequested
  {
    hide DoMonitor;
    MonitorFrame(s, g, a);
  }

  lemma RaisedTail(a: Step, rest: seq<Step>)
    ensures Raised([a] + rest) <==> Raises(a) || Raised(rest)
  {
    var steps := [a] + rest;
    if Raises(a) { assert Raises(steps[0]); }
    if Raised(rest) {
      var i :| 0 <= i < |rest| && Raises(rest[i]);
      assert Raises(steps[i + 1]);
    }
    if Raised(steps) && !Raises(a) {
      var i :| 0 <= i < |steps| && Raises(steps[i]);
      assert Raises(rest[i - 1]);
    }
  }

  /** The intent stands after a run exactly when it stood before, or was latched, and no explicit start came last. */
  lemma {:induction false} IntentFollows(s: State, steps: seq<Step>)
    requires Legal(s, steps)
    ensures After(s, steps).stopRequested <==> (s.stopRequested || Raised(steps)) && !Undone(s, steps)
    decreases |steps|
  {
    if steps != [] {
      StepIntent(s, steps[0]);
      RaisedTail(steps[0], steps[1..]);
      assert steps == [steps[0]] + steps[1..];
      IntentFollows(Do(s, steps[0]), steps[1..]);
    }
  }

  /**
  The restart latch of a refused receipt holds exactly as long as no explicit start has come after everything that
  latches.
  */
  lemma LatchLasts(s: State, g: Gen, steps: seq<Step>)
    requires Can(s, OfMonitor(g, Latch)) && Legal(Do(s, OfMonitor(g, Latch)), steps)
    ensures var t := Do(s, OfMonitor(g, Latch)); After(t, steps).stopRequested <==> !Undone(t, steps)
  {
    StepIntent(s, OfMonitor(g, Latch));
    IntentFollows(Do(s, OfMonitor(g, Latch)), steps);
  }

  lemma {:induction false} RunSplit(s: State, steps: seq<Step>, i: nat)
    requires Legal(s, steps) && i <= |steps|
    ensures Legal(s, steps[..i]) && Legal(After(s, steps[..i]), steps[i..])
    ensures After(After(s, steps[..i]), steps[i..]) == After(s, steps)
    decreases i
  {
    if i == 0 {
      assert steps[..0] == [] && steps[0..] == steps;
    } else {
      RunSplit(Do(s, steps[0]), steps[1..], i - 1);
      assert steps[..i][1..] == steps[1..][..i - 1] && steps[1..][i - 1..] == steps[i..];
    }
  }

  /**
  At step i the outbox had refused g's crash receipt, and restarts are latched off now exactly if no explicit start has
  come since, after everything that latches.
  */
  ghost predicate RefusedAt(s0: State, steps: seq<Step>, g: Gen, i: nat)
    requires Legal(s0, steps)
  {
    && i < |steps| && steps[i] == OfMonitor(g, Latch)
    && Legal(s0, steps[..i + 1])
    && var t := After(s0, steps[..i + 1]);
       Legal(t, steps[i + 1..]) && (After(s0, steps).stopRequested <==> !Undone(t, steps[i + 1..]))
  }

  lemma {:induction false} LatchedAt(s: State, steps: seq<Step>, g: Gen) returns (i: nat)
    requires Legal(s, steps) && g in After(s, steps).books.failed && g !in s.books.failed
    ensures i < |steps| && steps[i] == OfMonitor(g, Latch)
    decreases |steps|
  {
    var t := Do(s, steps[0]);
    StepFailed(s, steps[0], g);
    if g in t.books.failed {
      i := 0;
    } else {
      var j := LatchedAt(t, steps[1..], g);
      i := j + 1;
    }
  }

  lemma RefusalRemembered(s0: State, steps: seq<Step>, g: Gen) returns (i: nat)
    requires Init(s0) && Legal(s0, steps) && g in After(s0, steps).books.failed
    ensures RefusedAt(s0, steps, g, i)
  {
    hide Do, Undone, Can;
    i := LatchedAt(s0, steps, g);
    RunSplit(s0, steps, i);
    RunSplit(s0, steps, i + 1);
    var s := After(s0, steps[..i]);
    assert steps[i..][0] == steps[i] && steps[i..][1..] == steps[i + 1..];
    RunStep(s0, steps[..i], steps[i]);
    assert steps[..i] + [steps[i]] == steps[..i + 1];
    LatchLasts(s, g, steps[i + 1..]);
  }

  /**
  The slot of a current child is given up only by its own monitor, and only when the run has put a receipt for it on
  disk, or the outbox refused one; then auto-restart is latched off unless an explicit start came in between.
  */
  lemma SlotAccounted(s0: State, steps: seq<Step>, a: Step, g: Gen)
    requires Init(s0) && Legal(s0, steps) && Can(After(s0, steps), a)
    requires After(s0, steps).child == Some(g) && Do(After(s0, steps), a).child != Some(g)
    ensures var s := After(s0, steps);
            && a == OfMonitor(g, Forget) && Has(s, g) && s.children[g].exited
            && (OnRecord(s0, steps, Receipt(g, StopReceipt)) || OnRecord(s0, steps, Receipt(g, CrashReceipt))
                || exists i :: RefusedAt(s0, steps, g, i))
  {
    InitInv(s0);
    RunInv(s0, steps);
    var s := After(s0, steps);
    StepGivesUp(s, a, g);
    assert ChildOk(s, g);
    if g in s.books.failed {
      var i := RefusalRemembered(s0, steps, g);
    } else {
      SoonDurable(s0, steps, g);
      if Persists(s0, steps, Receipt(g, StopReceipt)) {
        PersistedOnRecord(s0, steps, Receipt(g, StopReceipt));
      } else {
        PersistedOnRecord(s0, steps, Receipt(g, CrashReceipt));
      }
    }
  }

  /** The identity is in the set of durable ones, or about to be put there. */
  predicate Soon(s: State, g: Gen) {
    Known(s, g) || (Has(s, g) && s.children[g].monitor.Noting?)
  }

  lemma StartSoon(s: State, a: StartStep, g: Gen)
    requires CanStart(s, a) && Soon(DoStart(s, a), g)
    ensures Soon(s, g)
  {
  }

  lemma SealSoon(s: State, a: SealStep, g: Gen)
    requires CanSeal(s, a) && Soon(DoSeal(s, a), g)
    ensures Soon(s, g) || (a.PersistOk? && s.txn.gen == g)
  {
  }

  lemma MonitorSoon(s: State, h: Gen, a: MonitorStep, g: Gen)
    requires Has(s, h) && CanMonitor(s, h, a) && Soon(DoMonitor(s, h, a), g)
    ensures Soon(s, g) || (h == g && a.CrashOk?)
  {
    hide DoMonitor;
    MonitorFrame(s, h, a);
    MonitorCount(s, h, a);
    if Has(s, g) && g != h { MonitorOthers(s, h, a, g); }
  }

  lemma MonitorOthers(s: State, h: Gen, a: MonitorStep, g: Gen)
    requires Has(s, h) && CanMonitor(s, h, a) && Has(s, g) && g != h
    ensures Has(DoMonitor(s, h, a), g) && DoMonitor(s, h, a).children[g] == s.children[g]
  {
  }

  lemma StepSoon(s: State, a: Step, g: Gen)
    requires Can(s, a) && Soon(Do(s, a), g)
    ensures Soon(s, g) || Writes(s, a, Receipt(g, StopReceipt)) || Writes(s, a, Receipt(g, CrashReceipt))
  {
    match a
    case Start(b) => StartSoon(s, b, g);
    case Stop(b) => StopLeavesAlone(s, b);
    case SealStop(b) => SealSoon(s, b, g);
    case SignalStop(b) => SignalLeavesAlone(s, b);
    case OfMonitor(h, b) => MonitorSoon(s, h, b, g);
    case Exit(_) =>
    case Ack(_) =>
  }

  /** An identity becomes durable only by a receipt the run itself writes. */
  lemma {:induction false} SoonDurable(s: State, steps: seq<Step>, g: Gen)
    requires Legal(s, steps) && Soon(After(s, steps), g) && !Soon(s, g)
    ensures Persists(s, steps, Receipt(g, StopReceipt)) || Persists(s, steps, Receipt(g, CrashReceipt))
    decreases |steps|
  {
    if Soon(Do(s, steps[0]), g) { StepSoon(s, steps[0], g); } else { SoonDurable(Do(s, steps[0]), steps[1..], g); }
  }

  lemma StepGivesUp(s: State, a: Step, g: Gen)
    requires Inv(s) && Can(s, a) && s.child == Some(g) && Do(s, a).child != Some(g)
    ensures a == OfMonitor(g, Forget)
  {
    match a
    case Start(b) => StartKeepsChild(s, b);
    case Stop(b) => StopLeavesAlone(s, b);
    case SealStop(b) => SealLeavesAlone(s, b);
    case SignalStop(b) => SignalLeavesAlone(s, b);
    case OfMonitor(h, b) => MonitorGivesUp(s, h, b);
    case Exit(_) =>
    case Ack(_) =>
  }

  lemma StartKeepsChild(s: State, a: StartStep)
    requires Inv(s) && CanStart(s, a) && s.child.Some?
    ensures DoStart(s, a).child == s.child
  {
  }

  lemma MonitorGivesUp(s: State, g: Gen, a: MonitorStep)
    requires Has(s, g) && CanMonitor(s, g, a)
    ensures DoMonitor(s, g, a).child == if a.Forget? && s.child == Some(g) then None else s.child
  {
    hide DoMonitor;
    MonitorFrame(s, g, a);
  }

  lemma MonitorFailed(s: State, g: Gen, a: MonitorStep)
    requires Has(s, g) && CanMonitor(s, g, a)
    ensures DoMonitor(s, g, a).books.failed == if a.Latch? then s.books.failed + {g} else s.books.failed
  {
    hide DoMonitor;
    MonitorFrame(s, g, a);
  }

  lemma StartFailed(s: State, a: StartStep)
    requires CanStart(s, a)
    ensures DoStart(s, a).books == s.books
  {
  }

  /** Only the latch of its own monitor makes a child's receipt a refused one. */
  lemma StepFailed(s: State, a: Step, g: Gen)
    requires Can(s, a)
    ensures g in Do(s, a).books.failed <==> g in s.books.failed || a == OfMonitor(g, Latch)
  {
    match a
    case Start(b) => StartFailed(s, b);
    case Stop(b) => StopLeavesAlone(s, b);
    case SealStop(b) => SealLeavesAlone(s, b);
    case SignalStop(b) => SignalLeavesAlone(s, b);
    case OfMonitor(h, b) => MonitorFailed(s, h, b);
    case Exit(_) =>
    case Ack(_) =>
  }

  /** The set of durable identities knows g, or the transaction is about to tell it. */
  predicate Known(s: State, g: Gen) {
    g in s.books.durable || (s.txn.StopNote? && s.txn.gen == g)
  }

  lemma StepKnown(s: State, a: Step, g: Gen)
    requires Inv(s) && Can(s, a) && Known(s, g) && Has(s, g)
    ensures Has(Do(s, a), g) && Known(Do(s, a), g) && a != OfMonitor(g, CrashOk)
  {
    assert ChildOk(s, g);
    match a
    case Start(b) => StartFailed(s, b);
    case Stop(b) => StopLeavesAlone(s, b);
    case SealStop(b) => SealLeavesAlone(s, b);
    case SignalStop(b) => SignalLeavesAlone(s, b);
    case OfMonitor(h, b) =>
      MonitorFrame(s, h, b);
      MonitorCount(s, h, b);
    case Exit(_) =>
    case Ack(_) =>
  }

  /** While the identity is known, its monitor writes nothing. */
  lemma {:induction false} KnownNoCrash(s: State, steps: seq<Step>, g: Gen)
    requires Inv(s) && Legal(s, steps) && Known(s, g) && Has(s, g)
    ensures OfMonitor(g, CrashOk) !in steps
    ensures Receipt(g, CrashReceipt) in After(s, steps).books.written <==> Receipt(g, CrashReceipt) in s.books.written
    decreases |steps|
  {
    if steps != [] {
      var a, t := steps[0], Do(s, steps[0]);
      StepInv(s, a);
      StepKnown(s, a, g);
      WrittenGrows(s, a);
      if Receipt(g, CrashReceipt) in t.books.written && Receipt(g, CrashReceipt) !in s.books.written {
        StepWritten(s, a, Receipt(g, CrashReceipt));
      }
      KnownNoCrash(t, steps[1..], g);
      assert steps == [a] + steps[1..];
    }
  }

  lemma {:induction false} WrittenStays(s: State, steps: seq<Step>, r: Receipt)
    requires Legal(s, steps) && r in s.books.written
    ensures r in After(s, steps).books.written
    decreases |steps|
  {
    if steps != [] {
      WrittenGrows(s, steps[0]);
      WrittenStays(Do(s, steps[0]), steps[1..], r);
    }
  }

  /** What an earlier daemon left, and what could not be removed, is what the first state and the steps say. */
  lemma {:induction false} HistoryFollows(s: State, steps: seq<Step>, g: Gen)
    requires Legal(s, steps)
    ensures After(s, steps).books.inherited == s.books.inherited
    ensures g in After(s, steps).kept <==> g in s.kept || OfMonitor(g, ClearFail) in steps
    decreases |steps|
  {
    if steps != [] {
      StepHistory(s, steps[0]);
      HistoryFollows(Do(s, steps[0]), steps[1..], g);
      assert steps == [steps[0]] + steps[1..];
    }
  }

  lemma StepHistory(s: State, a: Step)
    requires Can(s, a)
    ensures Do(s, a).books.inherited == s.books.inherited
    ensures Do(s, a).kept == if a.OfMonitor? && a.monitor.ClearFail? then s.kept + {a.gen} else s.kept
  {
    match a
    case Start(b) => StartFailed(s, b);
    case Stop(b) => StopLeavesAlone(s, b);
    case SealStop(b) => SealLeavesAlone(s, b);
    case SignalStop(b) => SignalLeavesAlone(s, b);
    case OfMonitor(g, b) => MonitorFrame(s, g, b);
    case Exit(_) =>
    case Ack(_) =>
  }

  /**
  Once a stop's receipt for a child is written, the run writes no crash receipt for it any more, unless that receipt is
  only an earlier daemon's.
  */
  lemma NoCrashReceiptAfterStop(s0: State, before: seq<Step>, steps: seq<Step>, g: Gen)
    requires Init(s0) && Legal(s0, before) && Legal(After(s0, before), steps)
    requires Receipt(g, StopReceipt) in After(s0, before).books.written
    requires Receipt(g, StopReceipt) in s0.books.written ==> g in After(s0, before).books.durable
    ensures var s, t := After(s0, before), After(After(s0, before), steps);
            && Receipt(g, StopReceipt) in t.books.written && OfMonitor(g, CrashOk) !in steps
            && (Receipt(g, CrashReceipt) in t.books.written <==> Receipt(g, CrashReceipt) in s.books.written)
  {
    var s := After(s0, before);
    InitInv(s0);
    RunInv(s0, before);
    HistoryFollows(s0, before, g);
    assert Has(s, g);
    KnownNoCrash(s, steps, g);
    WrittenStays(s, steps, Receipt(g, StopReceipt));
  }

  /**
  A monitor is about to seal its child's crash, and a stop receipt for that child has been written already.  From
  there, in every run, a crash receipt joins it exactly when the stop receipt was there when the daemon started, this
  daemon has not made one durable itself, and the outbox accepts.
  */
  lemma CrashAfterStopIff(s0: State, before: seq<Step>, g: Gen, steps: seq<Step>)
    requires Init(s0) && Legal(s0, before) && Can(After(s0, before), OfMonitor(g, MonitorStep.Seal))
    requires Receipt(g, StopReceipt) in After(s0, before).books.written
    requires Legal(Do(After(s0, before), OfMonitor(g, MonitorStep.Seal)), steps)
    ensures var s := After(s0, before);
            Receipt(g, CrashReceipt) in After(Do(s, OfMonitor(g, MonitorStep.Seal)), steps).books.written
            <==> (Receipt(g, StopReceipt) in s0.books.written && g !in s.books.durable
                  && OfMonitor(g, CrashOk) in steps)
  {
    InitInv(s0);
    RunInv(s0, before);
    HistoryFollows(s0, before, g);
    CrashAfterSeal(After(s0, before), g, steps);
  }

  lemma CrashAfterSeal(s: State, g: Gen, steps: seq<Step>)
    requires Inv(s) && Can(s, OfMonitor(g, MonitorStep.Seal)) && Receipt(g, StopReceipt) in s.books.written
    requires Legal(Do(s, OfMonitor(g, MonitorStep.Seal)), steps)
    ensures Receipt(g, CrashReceipt) in After(Do(s, OfMonitor(g, MonitorStep.Seal)), steps).books.written
            <==> (g in s.books.inherited && g !in s.books.durable && OfMonitor(g, CrashOk) in steps)
  {
    var seal := OfMonitor(g, MonitorStep.Seal);
    var t := Do(s, seal);
    assert ChildOk(s, g);
    StepInv(s, seal);
    MonitorFrame(s, g, MonitorStep.Seal);
    if g in s.books.durable { KnownNoCrash(t, steps, g); } else { CrashWritten(t, steps, g); }
  }

  /** A crash receipt gets written by its monitor's step, and by nothing else. */
  lemma {:induction false} CrashWritten(s: State, steps: seq<Step>, g: Gen)
    requires Legal(s, steps)
    ensures Receipt(g, CrashReceipt) in After(s, steps).books.written
            <==> Receipt(g, CrashReceipt) in s.books.written || OfMonitor(g, CrashOk) in steps
    decreases |steps|
  {
    if steps != [] {
      var a, t := steps[0], Do(s, steps[0]);
      CrashWritten(t, steps[1..], g);
      assert steps == [a] + steps[1..];
      WrittenGrows(s, a);
      if a == OfMonitor(g, CrashOk) {
        MonitorWrites(s, g, CrashOk);
      } else if Receipt(g, CrashReceipt) in t.books.written && Receipt(g, CrashReceipt) !in s.books.written {
        StepWritten(s, a, Receipt(g, CrashReceipt));
      }
    }
  }

  lemma WrittenGrows(s: State, a: Step)
    requires Can(s, a)
    ensures s.books.written <= Do(s, a).books.written
  {
    match a
    case Start(b) => StartUnsealed(s, b);
    case Stop(b) => StopUnsealed(s, b);
    case SealStop(b) => if !b.PersistOk? { SealWrites(s, b); }
    case SignalStop(b) => SignalSealed(s, b);
    case OfMonitor(g, b) => MonitorWrites(s, g, b);
    case Exit(_) =>
    case Ack(_) =>
  }

  // ---------------------------------------------------------------- one child, one transaction

  /** At most one child has not exited. */
  lemma OneChildAtMost(s: State, g: Gen, h: Gen)
    requires Reachable(s) && Has(s, g) && Has(s, h) && !s.children[g].exited && !s.children[h].exited
    ensures g == h
  {
    ReachableInv(s);
    assert ChildOk(s, g) && ChildOk(s, h);
  }

  /** `stopping` and `starting` are up only inside a stop, and inside a start. */
  lemma FlagsBelongToTransaction(s: State)
    requires Reachable(s)
    ensures s.stopping ==> Target(s.txn).Some? && s.child == Target(s.txn)
    ensures s.starting <==> s.txn.Spawning? || s.txn.Installing?
    ensures !s.txn.StartWait?
    ensures s.txn.Idle? ==> !s.stopping && !s.starting
  {
    ReachableInv(s);
  }

  /**
  A stop that waited for a child returns only when that child is gone and nothing is current; the state file is empty
  then, unless it still records that very child because it could not be removed.
  */
  lemma StopReturnsClean(s0: State, steps: seq<Step>)
    requires Init(s0) && Legal(s0, steps)
    requires After(s0, steps).txn.StopDone? && After(s0, steps).txn.stopped.Some?
    ensures var s := After(s0, steps); var g := s.txn.stopped.value;
            && Has(s, g) && s.children[g].exited && s.children[g].reaped && s.child.None?
            && (s.store.Some? <==> s.store == Some(g) && OfMonitor(g, ClearFail) in steps)
  {
    InitInv(s0);
    RunInv(s0, steps);
    var s := After(s0, steps);
    var g := s.txn.stopped.value;
    HistoryFollows(s0, steps, g);
    StopClean(s);
  }

  lemma StopClean(s: State)
    requires Inv(s) && s.txn.StopDone? && s.txn.stopped.Some?
    ensures var g := s.txn.stopped.value; Has(s, g) && s.children[g].exited && s.children[g].reaped && s.child.None?
    ensures var g := s.txn.stopped.value; s.store.Some? <==> s.store == Some(g) && g in s.kept
  {
    var g := s.txn.stopped.value;
    assert ChildOk(s, g);
    if s.store.Some? { assert ChildOk(s, s.store.value); }
  }

  // ---------------------------------------------------------------- no resurrection

  /** After a stop has latched its intent nothing is spawned until an explicit start is admitted. */
  lemma {:induction false} NoResurrection(s: State, steps: seq<Step>)
    requires Inv(s) && Legal(s, steps) && s.stopRequested && !s.txn.Spawning? && !Admits(s, steps)
    ensures Start(SpawnOk) !in steps && After(s, steps).stopRequested
    decreases |steps|
  {
    if steps != [] {
      StepInv(s, steps[0]);
      StepKeepsIntent(s, steps[0]);
      NoResurrection(Do(s, steps[0]), steps[1..]);
      assert steps == [steps[0]] + steps[1..];
    }
  }

  lemma StepKeepsIntent(s: State, a: Step)
    requires Inv(s) && Can(s, a) && s.stopRequested && !s.txn.Spawning? && !ExplicitAdmit(s, a)
    ensures a != Start(SpawnOk) && Do(s, a).stopRequested && !Do(s, a).txn.Spawning?
  {
    match a
    case Start(b) =>
    case Stop(b) => StopLeavesAlone(s, b);
    case SealStop(b) => SealLeavesAlone(s, b);
    case SignalStop(b) => SignalLeavesAlone(s, b);
    case OfMonitor(g, b) => MonitorSteps(s, g, b);
    case Exit(_) =>
    case Ack(_) =>
  }

  /** In the run the monitor of g queues an automatic restart. */
  ghost predicate Restarts(s: State, steps: seq<Step>, g: Gen)
    requires Legal(s, steps)
    decreases |steps|
  {
    steps != []
    && ((steps[0] == OfMonitor(g, Decide) && Do(s, steps[0]).restarts > s.restarts)
        || Restarts(Do(s, steps[0]), steps[1..], g))
  }

  /** A child whose exit is noticed while a stop is under way or requested is never restarted automatically. */
  lemma StoppedNotRestarted(s: State, steps: seq<Step>, g: Gen)
    requires Inv(s) && Can(s, OfMonitor(g, Wake)) && (s.stopping || s.stopRequested)
    requires Legal(Do(s, OfMonitor(g, Wake)), steps)
    ensures !Restarts(Do(s, OfMonitor(g, Wake)), steps, g)
  {
    StepInv(s, OfMonitor(g, Wake));
    MarkedNotRestarted(Do(s, OfMonitor(g, Wake)), steps, g);
  }

  lemma {:induction false} MarkedNotRestarted(s: State, steps: seq<Step>, g: Gen)
    requires Inv(s) && Legal(s, steps) && Has(s, g) && Marked(s.children[g].monitor)
    ensures !Restarts(s, steps, g)
    decreases |steps|
  {
    if steps != [] {
      StepInv(s, steps[0]);
      StepKeepsMark(s, steps[0], g);
      MarkedNotRestarted(Do(s, steps[0]), steps[1..], g);
    }
  }

  lemma StepKeepsMark(s: State, a: Step, g: Gen)
    requires Inv(s) && Can(s, a) && Has(s, g) && Marked(s.children[g].monitor)
    ensures Has(Do(s, a), g) && Marked(Do(s, a).children[g].monitor)
    ensures a == OfMonitor(g, Decide) ==> Do(s, a).restarts == s.restarts
  {
    match a
    case Start(b) => StartKeepsMark(s, b, g);
    case Stop(b) => StopLeavesAlone(s, b);
    case SealStop(b) => SealLeavesAlone(s, b);
    case SignalStop(b) => SignalLeavesAlone(s, b);
    case OfMonitor(h, b) =>
    case Exit(_) =>
    case Ack(_) =>
  }

  lemma StartKeepsMark(s: State, a: StartStep, g: Gen)
    requires Inv(s) && CanStart(s, a) && Has(s, g) && Marked(s.children[g].monitor)
    ensures Has(DoStart(s, a), g) && DoStart(s, a).children[g] == s.children[g]
  {
  }

  /** The transaction serves a stop call of this kind. */
  predicate Serves(t: Txn, k: StopKind) {
    match t
    case ShutdownEntry(_) => k.ShutdownStop?
    case StopEntry(kind, _) => kind == k
    case StopGuard(kind, _, _) => kind == k
    case StopPrepare(kind, _, _) => kind == k
    case StopPersist(kind, _) => kind == k
    case StopNote(kind, _) => kind == k
    case StopCheck(kind, _) => kind == k
    case StopTerm(kind, _) => kind == k
    case StopGrace(kind, _) => kind == k
    case StopKill(kind, _) => kind == k
    case StopReap(kind, _) => kind == k
    case StopFail(kind, _, _) => kind == k
    case StopDone(kind, _) => kind == k
    case _ => false
  }

  predicate Returns(a: Step) { a == Stop(FailReturn) || a == Stop(StopReturn) }

  lemma StepServes(s: State, a: Step, k: StopKind)
    requires Can(s, a) && Serves(s.txn, k) && !Returns(a)
    ensures Serves(Do(s, a).txn, k)
  {
    match a
    case Start(b) =>
    case Stop(b) =>
    case SealStop(b) =>
    case SignalStop(b) =>
    case OfMonitor(g, b) => MonitorSteps(s, g, b);
    case Exit(_) =>
    case Ack(_) =>
  }

  /** A stop call is served as such until it returns. */
  lemma {:induction false} RunServes(s: State, steps: seq<Step>, k: StopKind)
    requires Legal(s, steps) && Serves(s.txn, k) && forall a <- steps :: !Returns(a)
    ensures Serves(After(s, steps).txn, k)
    decreases |steps|
  {
    if steps != [] {
      assert steps[0] in steps && forall a <- steps[1..] :: a in steps;
      StepServes(s, steps[0], k);
      RunServes(Do(s, steps[0]), steps[1..], k);
    }
  }

  lemma {:induction false} ReachRun(s: State, steps: seq<Step>)
    requires Reachable(s) && Legal(s, steps)
    ensures Reachable(After(s, steps))
    decreases |steps|
  {
    hide Reachable;
    if steps != [] {
      ReachStep(s, steps[0]);
      ReachRun(Do(s, steps[0]), steps[1..]);
    }
  }

  /** Once a shutdown has been called and returned successfully nothing is ever spawned or current again. */
  lemma ShutdownIsFinal(s: State, force: bool, steps: seq<Step>, rest: seq<Step>)
    requires Reachable(s) && Can(s, Stop(CallShutdown(force)))
    requires Legal(Do(s, Stop(CallShutdown(force))), steps) && forall a <- steps :: !Returns(a)
    requires Can(After(Do(s, Stop(CallShutdown(force))), steps), Stop(StopReturn))
    requires Legal(Do(After(Do(s, Stop(CallShutdown(force))), steps), Stop(StopReturn)), rest)
    ensures var t := Do(After(Do(s, Stop(CallShutdown(force))), steps), Stop(StopReturn));
            Start(SpawnOk) !in rest && After(t, rest).child.None?
  {
    var s1 := Do(s, Stop(CallShutdown(force)));
    var s2 := After(s1, steps);
    ReachStep(s, Stop(CallShutdown(force)));
    ReachRun(s1, steps);
    ReachableInv(s2);
    RunServes(s1, steps, ShutdownStop);
    StepInv(s2, Stop(StopReturn));
    ShutStays(Do(s2, Stop(StopReturn)), rest);
  }

  lemma {:induction false} ShutStays(s: State, steps: seq<Step>)
    requires Inv(s) && Legal(s, steps) && s.shutdownDone
    ensures Start(SpawnOk) !in steps && After(s, steps).child.None?
    decreases |steps|
  {
    if steps != [] {
      StepInv(s, steps[0]);
      StepKeepsShutdown(s, steps[0]);
      ShutStays(Do(s, steps[0]), steps[1..]);
      assert steps == [steps[0]] + steps[1..];
    }
  }

  lemma StepKeepsShutdown(s: State, a: Step)
    requires Inv(s) && Can(s, a) && s.shutdownDone
    ensures a != Start(SpawnOk) && Do(s, a).shutdownDone
  {
    match a
    case Start(b) => assert DoStart(s, b).shutdownDone;
    case Stop(b) => assert DoStop(s, b).shutdownDone;
    case SealStop(_) =>
    case SignalStop(_) =>
    case OfMonitor(g, b) => assert DoMonitor(s, g, b).shutdownDone;
    case Exit(_) =>
    case Ack(_) =>
  }

  // ---------------------------------------------------------------- the state file

  predicate IsClear(a: Step) { a.OfMonitor? && a.monitor.ClearStore? }

  ghost predicate Clears(steps: seq<Step>) {
    exists i :: 0 <= i < |steps| && IsClear(steps[i])
  }

  /**
  While a recorded child stays current its record survives exactly as long as no earlier child's reap clears the file.
  */
  lemma {:induction false} RecordSurvives(s: State, steps: seq<Step>, g: Gen)
    requires Inv(s) && Legal(s, steps) && s.child == Some(g) && s.store == Some(g)
    requires After(s, steps).child == Some(g)
    ensures After(s, steps).store == Some(g) <==> !Clears(steps)
    decreases |steps|
  {
    if steps != [] {
      var a, t := steps[0], Do(s, steps[0]);
      StepInv(s, a);
      StepRecord(s, a, g);
      if t.child != Some(g) { GoneForever(t, steps[1..], g); }
      assert steps == [a] + steps[1..];
      if IsClear(a) {
        RecordGone(t, steps[1..], g);
        assert Clears(steps);
      } else {
        RecordSurvives(t, steps[1..], g);
        ClearsTail(a, steps[1..]);
      }
    }
  }

  lemma ClearsTail(a: Step, rest: seq<Step>)
    requires !IsClear(a)
    ensures Clears([a] + rest) <==> Clears(rest)
  {
    var steps := [a] + rest;
    if Clears(steps) {
      var i :| 0 <= i < |steps| && IsClear(steps[i]);
      assert IsClear(rest[i - 1]);
    }
    if Clears(rest) {
      var i :| 0 <= i < |rest| && IsClear(rest[i]);
      assert IsClear(steps[i + 1]);
    }
  }

  lemma {:induction false} RecordGone(s: State, steps: seq<Step>, g: Gen)
    requires Inv(s) && Legal(s, steps) && s.child == Some(g) && s.store.None? && !s.txn.Saving?
    requires After(s, steps).child == Some(g)
    ensures After(s, steps).store.None?
    decreases |steps|
  {
    if steps != [] {
      var t := Do(s, steps[0]);
      StepInv(s, steps[0]);
      StepRecord(s, steps[0], g);
      if t.child != Some(g) { GoneForever(t, steps[1..], g); }
      RecordGone(t, steps[1..], g);
    }
  }

  lemma StepRecord(s: State, a: Step, g: Gen)
    requires Inv(s) && Can(s, a) && s.child == Some(g) && !s.txn.Saving?
    ensures !Do(s, a).txn.Saving? && Has(Do(s, a), g)
    ensures Do(s, a).store == if IsClear(a) then None else s.store
    ensures Do(s, a).child != Some(g) ==> Do(s, a).txn != Installing(g)
  {
    match a
    case Start(b) => StartRecord(s, b, g);
    case Stop(b) => StopLeavesAlone(s, b);
    case SealStop(b) => SealLeavesAlone(s, b);
    case SignalStop(b) => SignalLeavesAlone(s, b);
    case OfMonitor(h, b) => MonitorRecord(s, h, b);
    case Exit(_) =>
    case Ack(_) =>
  }

  lemma StartRecord(s: State, a: StartStep, g: Gen)
    requires Inv(s) && CanStart(s, a) && s.child == Some(g) && !s.txn.Saving?
    ensures DoStart(s, a).store == s.store && !DoStart(s, a).txn.Saving? && DoStart(s, a).child == Some(g)
    ensures DoStart(s, a).children == s.children || a.WatchOk?
  {
  }

  lemma MonitorRecord(s: State, g: Gen, a: MonitorStep)
    requires Inv(s) && Has(s, g) && CanMonitor(s, g, a)
    ensures DoMonitor(s, g, a).store == if a.ClearStore? then None else s.store
    ensures DoMonitor(s, g, a).txn == s.txn
  {
    hide DoMonitor, GuardOk, ReceiptsOk, StoreOk, TxnOk;
    assert ChildOk(s, g);
    MonitorFrame(s, g, a);
  }

  /** The monitor of some child that has exited stands before clearing the file. */
  ghost predicate ClearPending(s: State) {
    exists h: Gen :: Has(s, h) && s.children[h].monitor.ClearingStore?
  }

  /** Nobody gets there while g stays current: only a current child's monitor gives up a slot. */
  lemma StepNoClear(s: State, a: Step, g: Gen)
    requires Inv(s) && Can(s, a) && s.child == Some(g) && !ClearPending(s) && Do(s, a).child == Some(g)
    ensures !IsClear(a) && !ClearPending(Do(s, a))
  {
    if a.OfMonitor? { assert ChildOk(s, a.gen); }
    if ClearPending(Do(s, a)) {
      var h: Gen :| Has(Do(s, a), h) && Do(s, a).children[h].monitor.ClearingStore?;
      StepKeepsOff(s, a, g, h);
    }
  }

  lemma StepKeepsOff(s: State, a: Step, g: Gen, h: Gen)
    requires Inv(s) && Can(s, a) && s.child == Some(g) && Do(s, a).child == Some(g) && Has(Do(s, a), h)
    requires Has(s, h) ==> !s.children[h].monitor.ClearingStore?
    ensures !Do(s, a).children[h].monitor.ClearingStore?
  {
    match a
    case Start(b) => StartKeepsOff(s, b, h);
    case Stop(b) => StopLeavesAlone(s, b);
    case SealStop(b) => SealLeavesAlone(s, b);
    case SignalStop(b) => SignalLeavesAlone(s, b);
    case OfMonitor(k, b) =>
      assert ChildOk(s, k);
      MonitorFrame(s, k, b);
    case Exit(_) =>
    case Ack(_) =>
  }

  lemma StartKeepsOff(s: State, a: StartStep, h: Gen)
    requires CanStart(s, a) && Has(DoStart(s, a), h) && (Has(s, h) ==> !s.children[h].monitor.ClearingStore?)
    ensures !DoStart(s, a).children[h].monitor.ClearingStore?
  {
  }

  lemma {:induction false} RecordSafe(s: State, steps: seq<Step>, g: Gen)
    requires Inv(s) && Legal(s, steps) && s.child == Some(g) && s.store == Some(g) && !ClearPending(s)
    requires After(s, steps).child == Some(g)
    ensures After(s, steps).store == Some(g)
    decreases |steps|
  {
    if steps != [] {
      var a, t := steps[0], Do(s, steps[0]);
      StepInv(s, a);
      StepRecord(s, a, g);
      if t.child != Some(g) { GoneForever(t, steps[1..], g); }
      StepNoClear(s, a, g);
      RecordSafe(t, steps[1..], g);
    }
  }

  /**
  A recorded current child can lose its record while it stays current exactly when some monitor stands before the
  clearing of the file.
  */
  lemma RecordLossIff(s: State, g: Gen)
    requires Reachable(s) && s.child == Some(g) && s.store == Some(g)
    ensures (exists steps :: Legal(s, steps) && After(s, steps).child == Some(g) && After(s, steps).store != Some(g))
            <==> ClearPending(s)
  {
    ReachableInv(s);
    if ClearPending(s) {
      var h: Gen :| Has(s, h) && s.children[h].monitor.ClearingStore?;
      var a := OfMonitor(h, ClearStore);
      assert ChildOk(s, h);
      MonitorFrame(s, h, ClearStore);
      RunStep(s, [], a);
      assert Legal(s, [a]) && After(s, [a]) == Do(s, a) by { assert [] + [a] == [a]; }
    } else {
      forall steps | Legal(s, steps) && After(s, steps).child == Some(g) ensures After(s, steps).store == Some(g) {
        RecordSafe(s, steps, g);
      }
    }
  }

  /** A child that has lost its slot never gets it back. */
  lemma {:induction false} GoneForever(s: State, steps: seq<Step>, g: Gen)
    requires Legal(s, steps) && Has(s, g) && s.child != Some(g) && s.txn != Installing(g)
    ensures After(s, steps).child != Some(g)
    decreases |steps|
  {
    if steps != [] {
      StepGone(s, steps[0], g);
      GoneForever(Do(s, steps[0]), steps[1..], g);
    }
  }

  lemma StepGone(s: State, a: Step, g: Gen)
    requires Can(s, a) && Has(s, g) && s.child != Some(g) && s.txn != Installing(g)
    ensures Has(Do(s, a), g) && Do(s, a).child != Some(g) && Do(s, a).txn != Installing(g)
  {
    match a
    case Start(b) => StartGone(s, b, g);
    case Stop(b) => StopLeavesAlone(s, b);
    case SealStop(b) => SealLeavesAlone(s, b);
    case SignalStop(b) => SignalLeavesAlone(s, b);
    case OfMonitor(h, b) =>
      MonitorGivesUp(s, h, b);
      MonitorSteps(s, h, b);
      MonitorCount(s, h, b);
    case Exit(_) =>
    case Ack(_) =>
  }

  lemma StartGone(s: State, a: StartStep, g: Gen)
    requires CanStart(s, a) && Has(s, g) && s.child != Some(g) && s.txn != Installing(g)
    ensures Has(DoStart(s, a), g) && DoStart(s, a).child != Some(g) && DoStart(s, a).txn != Installing(g)
  {
  }
}
