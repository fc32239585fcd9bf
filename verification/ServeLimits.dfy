/**
Runs of the supervisor that end where one might not expect: each shows that a tempting stronger claim is false, and
beside it stands when exactly the claim holds, unless that is said where the claim itself is proved.
*/
module ServeLimits {
  import opened Wrappers
  import opened ServeManager
  import opened ServeSafety
  import opened ServeRuns

  /** A daemon that has just re-adopted the child its state file records. */
  function Adopted(autoRestart: bool): State {
    State(Idle, Some(0), false, false, false, false, Free, [Child(false, false, false, Waiting)], Some(0), 0,
          autoRestart, false, {}, Books({}, {}, {}, {}, {}))
  }

  lemma AdoptedReachable(autoRestart: bool)
    ensures Reachable(Adopted(autoRestart))
  {
    var s := Adopted(autoRestart);
    assert Init(s) && Legal(s, []) && After(s, []) == s;
  }

  /** Child 0 has exited and its monitor holds the guard, about to write a crash receipt, whatever a client is doing. */
  function Sealing(s: State, was: bool): State
    requires |s.children| == 1
  {
    s.(guard := ByMonitor(0), children := [Child(true, s.children[0].reaped, s.children[0].signalled, Writing(was))])
  }

  lemma SealingReachable(s: State)
    requires Reachable(s) && |s.children| == 1 && !s.children[0].exited && s.children[0].monitor.Waiting?
    requires s.child == Some(0) && s.guard.Free? && s.books.durable == {}
    ensures Reachable(Sealing(s, s.stopping || s.stopRequested))
  {
    hide Reachable;
    ReachStep(s, Exit(0));
    var s1 := Do(s, Exit(0));
    ReachStep(s1, OfMonitor(0, Wake));
    var s2 := Do(s1, OfMonitor(0, Wake));
    ReachStep(s2, OfMonitor(0, MonitorStep.Seal));
    assert Do(s2, OfMonitor(0, MonitorStep.Seal)) == Sealing(s, s.stopping || s.stopRequested);
  }

  /**
  Child 0 has exited and its monitor has sealed a crash receipt and given up the slot; the file is not cleared yet.
  */
  function Crashed(): State {
    Adopted(true).(
      child := None,
      children := [Child(true, false, false, ClearingStore(false, true))],
      books := Books({0}, {Receipt(0, CrashReceipt)}, {Receipt(0, CrashReceipt)}, {}, {}))
  }

  lemma CrashedReachable()
    ensures Reachable(Crashed())
  {
    hide Reachable;
    AdoptedReachable(true);
    SealingReachable(Adopted(true));
    var s0 := Sealing(Adopted(true), false);
    ReachStep(s0, OfMonitor(0, CrashOk));
    var s1 := Do(s0, OfMonitor(0, CrashOk));
    ReachStep(s1, OfMonitor(0, CrashNote));
    var s2 := Do(s1, OfMonitor(0, CrashNote));
    ReachStep(s2, OfMonitor(0, Forget));
    assert Do(s2, OfMonitor(0, Forget)) == Crashed();
  }

  /** A stop can succeed at once while the file still records the dead child. */
  lemma StopReturnsBeforeClear()
    ensures exists s :: Reachable(s) && s.txn == StopDone(PlainStop, None) && s.child.None? && s.store == Some(0)
  {
    hide Reachable;
    CrashedReachable();
    var s0 := Crashed();
    ReachStep(s0, Stop(CallStop(false)));
    var s1 := Do(s0, Stop(CallStop(false)));
    ReachStep(s1, Stop(StopAdmit));
    var s2 := Do(s1, Stop(StopAdmit));
    assert Reachable(s2) && s2.txn == StopDone(PlainStop, None) && s2.child.None? && s2.store == Some(0);
  }

  /**
  When a stop found nothing to stop, the file still records a child exactly while that child's own monitor, which has
  given up the slot, has yet to clear it, or has failed to; in the first case that monitor's next step can.
  */
  lemma NothingToStopIff(s0: State, steps: seq<Step>)
    requires Init(s0) && Legal(s0, steps)
    requires After(s0, steps).txn.StopDone? && After(s0, steps).txn.stopped.None?
    ensures var s := After(s0, steps);
            && s.child.None?
            && (s.store.Some? <==>
                  exists g: Gen :: s.store == Some(g) && Has(s, g)
                    && (s.children[g].monitor.ClearingStore? || OfMonitor(g, ClearFail) in steps))
            && (s.store.Some? && OfMonitor(s.store.value, ClearFail) !in steps ==>
                  Can(s, OfMonitor(s.store.value, ClearStore))
                  && Do(s, OfMonitor(s.store.value, ClearStore)).store.None?)
  {
    InitInv(s0);
    RunInv(s0, steps);
    var s := After(s0, steps);
    if s.store.Some? {
      HistoryFollows(s0, steps, s.store.value);
      assert ChildOk(s, s.store.value);
    }
  }

  /** While child 0's monitor is about to clear the file, a client has started child 1 and recorded it. */
  function Replaced(): State {
    Crashed().(
      child := Some(1), store := Some(1),
      children := [Child(true, false, false, ClearingStore(false, true)), Child(false, false, false, Waiting)])
  }

  lemma ReplacedReachable()
    ensures Reachable(Replaced())
  {
    hide Reachable;
    CrashedReachable();
    var s0 := Crashed();
    ReachStep(s0, Start(CallStart));
    var s1 := Do(s0, Start(CallStart));
    ReachStep(s1, Start(StartAdmit));
    var s2 := Do(s1, Start(StartAdmit));
    ReachStep(s2, Start(SpawnOk));
    var s3 := Do(s2, Start(SpawnOk));
    ReachStep(s3, Start(Install));
    var s4 := Do(s3, Start(Install));
    ReachStep(s4, Start(SaveOk));
    var s5 := Do(s4, Start(SaveOk));
    ReachStep(s5, Start(WatchOk));
    assert Do(s5, Start(WatchOk)) == Replaced();
  }

  /**
  A client start that overlaps the reap of a crash can have its record erased: the file is empty beside a live child.
  */
  lemma RecordErased()
    ensures exists s :: Reachable(s) && s.txn.Idle? && s.child == Some(1) && |s.children| == 2
                        && !s.children[1].exited && s.children[1].monitor.Waiting? && s.store.None?
  {
    hide Reachable;
    ReplacedReachable();
    var s0 := Replaced();
    ReachStep(s0, OfMonitor(0, ClearStore));
    var s1 := Do(s0, OfMonitor(0, ClearStore));
    assert Reachable(s1) && s1.txn.Idle? && s1.child == Some(1) && |s1.children| == 2
           && !s1.children[1].exited && s1.children[1].monitor.Waiting? && s1.store.None?;
  }

  /** A stop waits for the guard; meanwhile the child it is about to stop has exited and been given a crash receipt. */
  function Overtaken(): State {
    Adopted(true).(
      txn := StopGuard(PlainStop, false, 0), stopping := true, stopRequested := true,
      children := [Child(true, false, false, Forgetting(true))],
      books := Books({0}, {Receipt(0, CrashReceipt)}, {Receipt(0, CrashReceipt)}, {}, {}))
  }

  lemma OvertakenReachable()
    ensures Reachable(Overtaken())
  {
    hide Reachable;
    AdoptedReachable(true);
    var s0 := Adopted(true);
    ReachStep(s0, Stop(CallStop(false)));
    var s1 := Do(s0, Stop(CallStop(false)));
    ReachStep(s1, Stop(StopAdmit));
    var s2 := Do(s1, Stop(StopAdmit));
    SealingReachable(s2);
    var s3 := Sealing(s2, true);
    ReachStep(s3, OfMonitor(0, CrashOk));
    var s4 := Do(s3, OfMonitor(0, CrashOk));
    ReachStep(s4, OfMonitor(0, CrashNote));
    assert Do(s4, OfMonitor(0, CrashNote)) == Overtaken();
  }

  /**
  The order of the other case is possible: a stop can persist its receipt after the crash receipt of the same child.
  */
  lemma StopReceiptAfterCrash()
    ensures exists s ::
              Reachable(s) && Receipt(0, StopReceipt) in s.books.outbox && Receipt(0, CrashReceipt) in s.books.outbox
  {
    hide Reachable;
    OvertakenReachable();
    var s0 := Overtaken();
    ReachStep(s0, SealStop(TakeGuard));
    var s1 := Do(s0, SealStop(TakeGuard));
    ReachStep(s1, SealStop(PrepareOk));
    var s2 := Do(s1, SealStop(PrepareOk));
    ReachStep(s2, SealStop(PersistOk));
    var s3 := Do(s2, SealStop(PersistOk));
    assert Reachable(s3) && Receipt(0, StopReceipt) in s3.books.outbox && Receipt(0, CrashReceipt) in s3.books.outbox;
  }

  /** The transaction holds the guard on g's behalf and has not persisted its receipt. */
  predicate Preparing(s: State, g: Gen) {
    (s.txn.StopPrepare? || s.txn.StopPersist?) && s.txn.gen == g && s.guard.ByTxn?
  }

  /** No step of the run ends the transaction's hold on the guard. */
  predicate KeepsGuard(steps: seq<Step>) {
    SealStop(PrepareFail) !in steps && SealStop(PersistFail) !in steps && SealStop(PersistOk) !in steps
  }

  lemma StepPreparing(s: State, a: Step, g: Gen)
    requires Inv(s) && Can(s, a) && Preparing(s, g) && KeepsGuard([a])
    ensures Preparing(Do(s, a), g) && Do(s, a).books.written == s.books.written
  {
    assert a in [a];
    match a
    case Start(b) =>
    case Stop(b) =>
    case SealStop(b) =>
    case SignalStop(b) =>
    case OfMonitor(h, b) => MonitorPreparing(s, h, b, g);
    case Exit(_) =>
    case Ack(_) =>
  }

  lemma MonitorPreparing(s: State, h: Gen, a: MonitorStep, g: Gen)
    requires Inv(s) && Has(s, h) && CanMonitor(s, h, a) && Preparing(s, g)
    ensures Preparing(DoMonitor(s, h, a), g) && DoMonitor(s, h, a).books.written == s.books.written
  {
    assert ChildOk(s, h);
    MonitorWrites(s, h, a);
  }

  lemma {:induction false} RunPreparing(s: State, steps: seq<Step>, g: Gen)
    requires Inv(s) && Legal(s, steps) && Preparing(s, g) && KeepsGuard(steps)
    ensures Inv(After(s, steps)) && Preparing(After(s, steps), g) && After(s, steps).books.written == s.books.written
    decreases |steps|
  {
    if steps != [] {
      StepInv(s, steps[0]);
      StepPreparing(s, steps[0], g);
      RunPreparing(Do(s, steps[0]), steps[1..], g);
    }
  }

  /**
  When a stop of g takes the guard, a receipt of g has been written already exactly when `durable` says so or one was
  there when the daemon started.  If the stop then persists, g ends up with both kinds exactly when the crash receipt
  was among those, whatever runs in between and afterwards.
  */
  lemma BothReceiptsIff(s0: State, start: seq<Step>, before: seq<Step>, after: seq<Step>)
    requires Init(s0) && Legal(s0, start) && Can(After(s0, start), SealStop(TakeGuard))
    requires Legal(Do(After(s0, start), SealStop(TakeGuard)), before) && KeepsGuard(before)
    requires Can(After(Do(After(s0, start), SealStop(TakeGuard)), before), SealStop(PersistOk))
    requires Legal(Do(After(Do(After(s0, start), SealStop(TakeGuard)), before), SealStop(PersistOk)), after)
    ensures var s := After(s0, start); var g := s.txn.gen;
            g in s.books.durable || Receipt(g, StopReceipt) in s0.books.written <==>
              Receipt(g, StopReceipt) in s.books.written || Receipt(g, CrashReceipt) in s.books.written
    ensures var s := After(s0, start); var g := s.txn.gen;
            var t := After(Do(After(Do(s, SealStop(TakeGuard)), before), SealStop(PersistOk)), after);
            && Receipt(g, StopReceipt) in t.books.written
            && (Receipt(g, CrashReceipt) in t.books.written <==> Receipt(g, CrashReceipt) in s.books.written)
  {
    InitInv(s0);
    RunInv(s0, start);
    HistoryFollows(s0, start, After(s0, start).txn.gen);
    BothAfterPersist(After(s0, start), before, after);
  }

  lemma BothAfterPersist(s: State, before: seq<Step>, after: seq<Step>)
    requires Inv(s) && Can(s, SealStop(TakeGuard))
    requires Legal(Do(s, SealStop(TakeGuard)), before) && KeepsGuard(before)
    requires Can(After(Do(s, SealStop(TakeGuard)), before), SealStop(PersistOk))
    requires Legal(Do(After(Do(s, SealStop(TakeGuard)), before), SealStop(PersistOk)), after)
    ensures var g := s.txn.gen;
            g in s.books.durable || g in s.books.inherited <==>
              Receipt(g, StopReceipt) in s.books.written || Receipt(g, CrashReceipt) in s.books.written
    ensures var g := s.txn.gen;
            var t := After(Do(After(Do(s, SealStop(TakeGuard)), before), SealStop(PersistOk)), after);
            && Receipt(g, StopReceipt) in t.books.written
            && (Receipt(g, CrashReceipt) in t.books.written <==> Receipt(g, CrashReceipt) in s.books.written)
  {
    var g, s1 := s.txn.gen, Do(s, SealStop(TakeGuard));
    var s2 := After(s1, before);
    StepInv(s, SealStop(TakeGuard));
    RunPreparing(s1, before, g);
    StepInv(s2, SealStop(PersistOk));
    var s3 := Do(s2, SealStop(PersistOk));
    assert Receipt(g, StopReceipt) in s3.books.written && Known(s3, g);
    KnownNoCrash(s3, after, g);
    WrittenStays(s3, after, Receipt(g, StopReceipt));
    if Receipt(g, CrashReceipt) in s.books.written { assert ChildOk(s, g); }
  }

  /** A daemon that has re-adopted a child for which an earlier one persisted a stop receipt but sent no signal. */
  function Resumed(): State {
    Adopted(true).(books := Books({}, {Receipt(0, StopReceipt)}, {Receipt(0, StopReceipt)}, {}, {0}))
  }

  /** The set of durable identities does not know the earlier daemon's receipt: the child's crash gets its own. */
  lemma CrashReceiptAfterInherited()
    ensures exists s ::
              Reachable(s) && Receipt(0, StopReceipt) in s.books.outbox && Receipt(0, CrashReceipt) in s.books.outbox
  {
    var s0 := Resumed();
    assert Init(s0) && Legal(s0, []) && After(s0, []) == s0;
    SealingReachable(s0);
    var s1 := Sealing(s0, false);
    ReachStep(s1, OfMonitor(0, CrashOk));
    var s2 := Do(s1, OfMonitor(0, CrashOk));
    assert Reachable(s2) && Receipt(0, StopReceipt) in s2.books.outbox && Receipt(0, CrashReceipt) in s2.books.outbox;
  }

  /** Child 0 has exited, the outbox refused its crash receipt, and restarts are latched off; it is still current. */
  function Refused(): State {
    Adopted(true).(
      stopRequested := true,
      children := [Child(true, false, false, Forgetting(false))],
      books := Books({}, {}, {}, {0}, {}))
  }

  lemma RefusedReachable()
    ensures Reachable(Refused())
  {
    hide Reachable;
    AdoptedReachable(true);
    SealingReachable(Adopted(true));
    var s0 := Sealing(Adopted(true), false);
    ReachStep(s0, OfMonitor(0, CrashFail));
    var s1 := Do(s0, OfMonitor(0, CrashFail));
    ReachStep(s1, OfMonitor(0, Latch));
    assert Do(s1, OfMonitor(0, Latch)) == Refused();
  }

  /** An explicit start has been admitted before the slot is cleared: it finds a child still current and ends. */
  function Unlatched(): State {
    Refused().(stopRequested := false)
  }

  lemma UnlatchedReachable()
    ensures Reachable(Unlatched())
  {
    hide Reachable;
    RefusedReachable();
    var s0 := Refused();
    ReachStep(s0, Start(CallStart));
    var s1 := Do(s0, Start(CallStart));
    ReachStep(s1, Start(StartAdmit));
    assert Do(s1, Start(StartAdmit)) == Unlatched();
  }

  /**
  An explicit start before the slot is cleared undoes the latch: the child has no receipt, and a restart is queued.
  */
  lemma LatchUndone()
    ensures exists s ::
              Reachable(s) && s.child.None? && s.books.written == {} && s.books.outbox == {} && s.children != []
              && s.restarts == 1
  {
    hide Reachable;
    UnlatchedReachable();
    var s0 := Unlatched();
    ReachStep(s0, OfMonitor(0, Forget));
    var s1 := Do(s0, OfMonitor(0, Forget));
    ReachStep(s1, OfMonitor(0, ClearStore));
    var s2 := Do(s1, OfMonitor(0, ClearStore));
    ReachStep(s2, OfMonitor(0, SetReaped));
    var s3 := Do(s2, OfMonitor(0, SetReaped));
    ReachStep(s3, OfMonitor(0, Decide));
    var s4 := Do(s3, OfMonitor(0, Decide));
    assert Reachable(s4) && s4.child.None? && s4.books.written == {} && s4.books.outbox == {} && s4.children != []
           && s4.restarts == 1;
  }

  // ---------------------------------------------------------------- a child nobody watches

  /** Recording the child or starting its monitor failed at start, or its monitor has died. */
  predicate Unwatched(s: State, g: Gen) {
    Has(s, g) && ((s.children[g].monitor.NoWatch? && Started(s.txn).None?) || s.children[g].monitor.Dead?)
  }

  /** A start leaves its child unwatched exactly when recording it or starting its monitor fails. */
  lemma StrandedIff(s: State, a: StartStep)
    requires Reachable(s) && (s.txn.Saving? || s.txn.Watching?) && CanStart(s, a)
    ensures Has(s, s.txn.gen) && s.child == Some(s.txn.gen)
    ensures Unwatched(DoStart(s, a), s.txn.gen) <==> a.SaveFail? || a.WatchFail?
  {
    ReachableInv(s);
    assert ChildOk(s, s.txn.gen);
  }

  /** A monitor dies when the outbox cannot even make its directory: only its own error is caught. */
  lemma MonitorDies()
    ensures exists s ::
              Reachable(s) && s.txn.Idle? && Unwatched(s, 0) && s.children[0].exited && s.children[0].monitor.Dead?
  {
    hide Reachable;
    AdoptedReachable(true);
    SealingReachable(Adopted(true));
    var s0 := Sealing(Adopted(true), false);
    ReachStep(s0, OfMonitor(0, CrashDie));
    var s1 := Do(s0, OfMonitor(0, CrashDie));
    assert Reachable(s1) && s1.txn.Idle? && Unwatched(s1, 0) && s1.children[0].exited && s1.children[0].monitor.Dead?;
  }

  /** It stays current, is never reaped, and nothing else is ever spawned. */
  lemma {:induction false} UnwatchedForever(s: State, steps: seq<Step>, g: Gen)
    requires Inv(s) && Legal(s, steps) && Unwatched(s, g)
    ensures var t := After(s, steps);
            Has(t, g) && t.child == Some(g) && !t.children[g].reaped && !t.txn.StopDone?
    ensures Start(SpawnOk) !in steps
    decreases |steps|
  {
    assert ChildOk(s, g);
    if steps != [] {
      StepInv(s, steps[0]);
      StepUnwatched(s, steps[0], g);
      UnwatchedForever(Do(s, steps[0]), steps[1..], g);
      assert steps == [steps[0]] + steps[1..];
    }
  }

  lemma StepUnwatched(s: State, a: Step, g: Gen)
    requires Inv(s) && Can(s, a) && Unwatched(s, g)
    ensures Unwatched(Do(s, a), g) && a != Start(SpawnOk)
  {
    assert ChildOk(s, g);
    match a
    case Start(b) => StartUnwatched(s, b, g);
    case Stop(b) => StopLeavesAlone(s, b);
    case SealStop(b) => SealLeavesAlone(s, b);
    case SignalStop(b) => SignalLeavesAlone(s, b);
    case OfMonitor(h, b) => MonitorUnwatched(s, h, b, g);
    case Exit(_) =>
    case Ack(_) =>
  }

  lemma StartUnwatched(s: State, a: StartStep, g: Gen)
    requires Inv(s) && CanStart(s, a) && Unwatched(s, g) && s.child == Some(g)
    ensures Unwatched(DoStart(s, a), g) && a != SpawnOk
  {
  }

  lemma MonitorUnwatched(s: State, h: Gen, a: MonitorStep, g: Gen)
    requires Has(s, h) && CanMonitor(s, h, a) && Unwatched(s, g)
    ensures Unwatched(DoMonitor(s, h, a), g)
  {
    assert h != g;
    MonitorSteps(s, h, a);
  }

  // ---------------------------------------------------------------- everybody else can be stopped

  /** On the way to a successful stop of g: the transaction is a plain stop of g, or about to be, and g is watched. */
  ghost predicate Stopping(s: State, g: Gen) {
    Inv(s) && OnTrack(s, g)
  }

  predicate OnTrack(s: State, g: Gen) {
    && Has(s, g) && !s.children[g].monitor.NoWatch? && !s.children[g].monitor.Dead?
    && TxnRank(s.txn) < 11
    && (if s.txn.Idle? then s.child == Some(g)
        else s.txn.kind.PlainStop? && if s.txn.StopEntry? then s.child == Some(g) else Target(s.txn) == Some(g))
  }

  /** Transaction steps left to a stop's success; 11 for what is no stop under way. */
  function TxnRank(t: Txn): nat {
    if t.Idle? then 10 else if t.StopEntry? then 9 else if t.StopGuard? then 8 else if t.StopPrepare? then 7
    else if t.StopPersist? then 6 else if t.StopNote? then 5 else if t.StopCheck? then 4 else if t.StopTerm? then 3
    else if t.StopGrace? then 2 else if t.StopDone? then 0 else 11
  }

  /** Steps left to the child's end and its monitor's. */
  function MonitorRank(c: Child): nat {
    match c.monitor
    case NoWatch => 0
    case Waiting => if c.exited then 10 else 11
    case Sealing(_) => 9
    case Writing(_) => 8
    case Noting(_) => 7
    case Latching(_) => 7
    case Forgetting(_) => 6
    case ClearingStore(_, _) => 5
    case Waking(_, _) => 4
    case Deciding(_, _) => 3
    case Finished => 2
    case Dead => 0
  }

  /** What the child or its monitor does next when the outbox works. */
  function MonitorNext(s: State, g: Gen): Step
    requires Has(s, g)
  {
    match s.children[g].monitor
    case NoWatch => Exit(g)
    case Waiting => if s.children[g].exited then OfMonitor(g, Wake) else Exit(g)
    case Sealing(_) => OfMonitor(g, MonitorStep.Seal)
    case Writing(_) => OfMonitor(g, CrashOk)
    case Noting(_) => OfMonitor(g, CrashNote)
    case Latching(_) => OfMonitor(g, Latch)
    case Forgetting(_) => OfMonitor(g, Forget)
    case ClearingStore(_, _) => OfMonitor(g, ClearStore)
    case Waking(_, _) => OfMonitor(g, SetReaped)
    case Deciding(_, _) => OfMonitor(g, Decide)
    case Finished => Exit(g)
    case Dead => Exit(g)
  }

  /** The transaction has to wait for the monitor: for the guard, or for the reap. */
  predicate Waits(s: State, g: Gen)
    requires Has(s, g)
  {
    (s.txn.StopGuard? && !s.guard.Free?) || (s.txn.StopGrace? && !s.children[g].reaped)
  }

  /** What the transaction does next when nothing fails. */
  function TxnNext(s: State): Step {
    if s.txn.Idle? then Stop(CallStop(false)) else if s.txn.StopEntry? then Stop(StopAdmit)
    else if s.txn.StopGuard? then SealStop(TakeGuard) else if s.txn.StopPrepare? then SealStop(PrepareOk)
    else if s.txn.StopPersist? then SealStop(PersistOk) else if s.txn.StopNote? then SealStop(NoteDurable)
    else if s.txn.StopCheck? then SignalStop(CheckReaped) else if s.txn.StopTerm? then SignalStop(TermOk)
    else SignalStop(GraceReaped)
  }

  lemma TxnAdvances(s: State, g: Gen)
    requires Stopping(s, g) && !s.txn.StopDone? && !Waits(s, g)
    ensures Can(s, TxnNext(s)) && Stopping(Do(s, TxnNext(s)), g)
    ensures TxnRank(Do(s, TxnNext(s)).txn) < TxnRank(s.txn)
  {
    assert !s.starting;
    hide Inv;
    if s.txn.Idle? || s.txn.StopEntry? {
      EntryAdvances(s, g);
    } else if s.txn.StopGuard? || s.txn.StopPrepare? || s.txn.StopPersist? || s.txn.StopNote? {
      SealAdvances(s, g);
    } else {
      SignalAdvances(s, g);
    }
    StepInv(s, TxnNext(s));
  }

  lemma EntryAdvances(s: State, g: Gen)
    requires OnTrack(s, g) && (s.txn.Idle? || s.txn.StopEntry?) && !s.starting
    ensures Can(s, TxnNext(s)) && OnTrack(Do(s, TxnNext(s)), g) && TxnRank(Do(s, TxnNext(s)).txn) < TxnRank(s.txn)
  {
  }

  lemma SealAdvances(s: State, g: Gen)
    requires OnTrack(s, g) && (s.txn.StopGuard? ==> s.guard.Free?)
    requires s.txn.StopGuard? || s.txn.StopPrepare? || s.txn.StopPersist? || s.txn.StopNote?
    ensures Can(s, TxnNext(s)) && OnTrack(Do(s, TxnNext(s)), g) && TxnRank(Do(s, TxnNext(s)).txn) < TxnRank(s.txn)
  {
  }

  lemma SignalAdvances(s: State, g: Gen)
    requires OnTrack(s, g) && (s.txn.StopGrace? ==> s.children[g].reaped)
    requires s.txn.StopCheck? || s.txn.StopTerm? || s.txn.StopGrace?
    ensures Can(s, TxnNext(s)) && OnTrack(Do(s, TxnNext(s)), g) && TxnRank(Do(s, TxnNext(s)).txn) < TxnRank(s.txn)
  {
  }

  lemma MonitorAdvances(s: State, g: Gen)
    requires Stopping(s, g) && !s.txn.StopDone? && Waits(s, g)
    ensures Can(s, MonitorNext(s, g)) && Stopping(Do(s, MonitorNext(s, g)), g)
    ensures Do(s, MonitorNext(s, g)).txn == s.txn
    ensures MonitorRank(Do(s, MonitorNext(s, g)).children[g]) < MonitorRank(s.children[g])
  {
    MonitorReady(s, g);
    hide Inv;
    MonitorMoves(s, g);
    StepInv(s, MonitorNext(s, g));
  }

  lemma MonitorReady(s: State, g: Gen)
    requires Stopping(s, g) && Waits(s, g)
    ensures !s.children[g].monitor.Finished? && Can(s, MonitorNext(s, g))
  {
    assert ChildOk(s, g);
    GuardOfTarget(s, g);
  }

  lemma MonitorMoves(s: State, g: Gen)
    requires OnTrack(s, g) && Waits(s, g) && !s.children[g].monitor.Finished? && Can(s, MonitorNext(s, g))
    ensures OnTrack(Do(s, MonitorNext(s, g)), g) && Do(s, MonitorNext(s, g)).txn == s.txn
    ensures MonitorRank(Do(s, MonitorNext(s, g)).children[g]) < MonitorRank(s.children[g])
  {
    if MonitorNext(s, g).OfMonitor? {
      WatcherMoves(s, g, MonitorNext(s, g).monitor);
    } else {
      ChildExits(s, g);
    }
  }

  lemma ChildExits(s: State, g: Gen)
    requires OnTrack(s, g) && Waits(s, g) && s.children[g].monitor.Waiting? && Can(s, Exit(g))
    ensures OnTrack(Do(s, Exit(g)), g) && MonitorRank(Do(s, Exit(g)).children[g]) < MonitorRank(s.children[g])
  {
  }

  lemma WatcherMoves(s: State, g: Gen, b: MonitorStep)
    requires OnTrack(s, g) && Waits(s, g) && MonitorNext(s, g) == OfMonitor(g, b) && CanMonitor(s, g, b)
    ensures OnTrack(DoMonitor(s, g, b), g) && DoMonitor(s, g, b).txn == s.txn
    ensures MonitorRank(DoMonitor(s, g, b).children[g]) < MonitorRank(s.children[g])
  {
    hide DoMonitor, AfterRelease, AfterSealCrash, MonitorRank, MonitorNext, CanMonitor;
    MonitorFrame(s, g, b);
    RankFalls(s, g);
  }

  lemma RankFalls(s: State, g: Gen)
    requires Has(s, g) && MonitorNext(s, g).OfMonitor? && CanMonitor(s, g, MonitorNext(s, g).monitor)
    ensures var a, c := MonitorNext(s, g).monitor, s.children[g];
            var m' := if Releases(a) then AfterRelease(s, g, a) else AfterSealCrash(s, g, a);
            && !m'.NoWatch? && !m'.Dead?
            && MonitorRank(c.(monitor := m', reaped := c.reaped || a.SetReaped?)) < MonitorRank(c)
  {
    match s.children[g].monitor {
      case NoWatch => case Waiting => case Sealing(_) => case Writing(_) => case Noting(_) => case Latching(_) =>
      case Forgetting(_) => case ClearingStore(_, _) => case Waking(_, _) => case Deciding(_, _) => case Finished =>
      case Dead =>
    }
  }

  /** While a stop of g waits, nobody but g's own monitor holds the guard. */
  lemma GuardOfTarget(s: State, g: Gen)
    requires Stopping(s, g) && Waits(s, g)
    ensures s.guard.Free? || s.guard == ByMonitor(g)
  {
    if s.guard.ByMonitor? { assert ChildOk(s, s.guard.gen) && ChildOk(s, g); }
  }

  lemma {:induction false} RunToStop(s: State, g: Gen) returns (steps: seq<Step>)
    requires Stopping(s, g)
    ensures Legal(s, steps) && After(s, steps).txn == StopDone(PlainStop, Some(g))
    decreases TxnRank(s.txn), MonitorRank(s.children[g])
  {
    if s.txn.StopDone? {
      steps := [];
    } else {
      var a;
      if Waits(s, g) {
        MonitorAdvances(s, g);
        a := MonitorNext(s, g);
      } else {
        TxnAdvances(s, g);
        a := TxnNext(s);
      }
      var rest := RunToStop(Do(s, a), g);
      steps := [a] + rest;
      assert steps[1..] == rest;
    }
  }

  /**
  The current child can still be stopped, by some run in which a stop waits for it, exactly when somebody watches it.
  */
  lemma StoppableIff(s: State, g: Gen)
    requires Reachable(s) && s.txn.Idle? && s.child == Some(g)
    ensures (exists steps :: Legal(s, steps) && After(s, steps).txn == StopDone(PlainStop, Some(g)))
            <==> !Unwatched(s, g)
  {
    ReachableInv(s);
    if Unwatched(s, g) {
      forall steps | Legal(s, steps) ensures !After(s, steps).txn.StopDone? { UnwatchedForever(s, steps, g); }
    } else {
      var steps := RunToStop(s, g);
    }
  }
}
