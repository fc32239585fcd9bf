/**
What every step of the supervisor keeps, and what follows for every run.
*/
module ServeSafety {
  import opened Wrappers
  import opened ServeManager

  // ---------------------------------------------------------------- the invariant

  /** The monitor has not given the slot up yet. */
  predicate Owns(m: Monitor) {
    m.Waiting? || m.Sealing? || m.Writing? || m.Noting? || m.Latching? || m.Forgetting? || m.Dead?
  }

  /** The monitor has given the slot up. */
  predicate Past(m: Monitor) {
    m.ClearingStore? || m.Waking? || m.Deciding? || m.Finished?
  }

  /** The child a stop transaction is working on. */
  function Target(t: Txn): Option<Gen> {
    if t.StopGuard? || t.StopPrepare? || t.StopPersist? || t.StopNote? || t.StopCheck? || t.StopTerm? || t.StopGrace?
       || t.StopKill? || t.StopReap? || t.StopFail? then Some(t.gen)
    else if t.StopDone? then t.stopped
    else None
  }

  /** The child a start transaction has spawned. */
  function Started(t: Txn): Option<Gen> {
    if t.Installing? || t.Saving? || t.Watching? then Some(t.gen) else None
  }

  /** The stop has its receipt: a signal may go out. */
  predicate Sealed(t: Txn) {
    t.StopNote? || t.StopCheck? || t.StopTerm? || t.StopGrace? || t.StopKill? || t.StopReap?
    || (t.StopFail? && (t.cause.SignalFailed? || t.cause.NotReaped?))
  }

  predicate InShutdown(t: Txn) {
    (t.StopEntry? || t.StopGuard? || t.StopPrepare? || t.StopPersist? || t.StopNote? || t.StopCheck? || t.StopTerm?
     || t.StopGrace? || t.StopKill? || t.StopReap? || t.StopFail? || t.StopDone?) && t.kind.ShutdownStop?
  }

  /** Nothing runs, nothing is being spawned or stopped. */
  predicate Quiet(t: Txn) {
    t.Idle? || t.StartEntry? || t.ShutdownEntry? || t.StopEntry? || (t.StopDone? && t.stopped.None?)
  }

  ghost predicate TxnOk(s: State) {
    && (s.starting <==> s.txn.Spawning? || s.txn.Installing?)
    && !s.txn.StartWait?
    && (s.txn.Spawning? || s.txn.Installing? ==> s.child.None?)
    && (s.txn.Spawning? && s.txn.auto ==> !s.stopRequested)
    && (Started(s.txn).Some? ==> |s.children| > 0 && Started(s.txn).value == |s.children| - 1
                                 && s.children[Started(s.txn).value].monitor.NoWatch?)
    && (s.txn.Saving? || s.txn.Watching? ==> s.child == Started(s.txn))
    && (Target(s.txn).Some? ==>
          |s.children| > 0 && Target(s.txn).value == |s.children| - 1
          && (s.child == Target(s.txn) || (s.child.None? && Past(s.children[Target(s.txn).value].monitor))))
    && (s.txn.StopDone? ==> s.child.None? && (s.txn.stopped.Some? ==> s.children[s.txn.stopped.value].reaped))
    && (s.stopping ==> s.child.Some? && s.child == Target(s.txn))
    && (InShutdown(s.txn) ==> s.shutdownRequested)
    && (s.shutdownDone ==> s.shutdownRequested && s.child.None? && Quiet(s.txn))
  }

  ghost predicate ChildOk(s: State, g: Gen)
    requires Has(s, g)
  {
    var c := s.children[g];
    && (c.monitor.NoWatch? ==> s.child == Some(g) || s.txn == Installing(g))
    && (Owns(c.monitor) ==> s.child == Some(g))
    && (Past(c.monitor) ==> s.child != Some(g) && c.exited)
    && (!c.monitor.NoWatch? && !c.monitor.Waiting? ==> c.exited)
    && (c.monitor.ClearingStore? || c.monitor.Waking? || c.monitor.Deciding? ==> c.monitor.current)
    && (c.reaped <==> c.monitor.Deciding? || c.monitor.Finished?)
    && (c.signalled ==> Receipt(g, StopReceipt) in s.books.written)
    && (c.monitor.Writing? || c.monitor.Noting? <==> s.guard == ByMonitor(g))
    && (c.monitor.Writing? ==> g !in s.books.durable)
    && (c.monitor.Noting? ==> Receipt(g, CrashReceipt) in s.books.written)
    && (Receipt(g, CrashReceipt) in s.books.written ==> c.monitor.Noting? || c.monitor.Forgetting? || Past(c.monitor))
    && (g in s.books.failed ==> c.monitor.Forgetting? || Past(c.monitor))
    && (c.monitor.Forgetting? || Past(c.monitor) ==> g in s.books.durable || g in s.books.failed)
  }

  /** The recorded child's own monitor has not cleared the file, or could not, and no later child is watched. */
  ghost predicate StoreOk(s: State) {
    && (s.store.Some? ==>
          && Has(s, s.store.value)
          && (s.store.value in s.kept
              || (!s.children[s.store.value].monitor.Waking? && !s.children[s.store.value].reaped))
          && forall g: nat | s.store.value < g < |s.children| :: s.children[g].monitor.NoWatch?)
    && (s.txn.Installing? || s.txn.Saving? ==> s.store != Some(s.txn.gen))
    && (s.txn.Watching? ==> s.store.None? || s.store == Some(s.txn.gen))
  }

  ghost predicate GuardOk(s: State) {
    && (s.child.Some? ==> |s.children| > 0 && s.child.value == |s.children| - 1)
    && (s.guard.ByMonitor? ==> Has(s, s.guard.gen))
    && (s.guard.ByTxn? <==> s.txn.StopPrepare? || s.txn.StopPersist? || s.txn.StopNote?)
    && (forall g: nat | g in s.books.failed :: Has(s, g))
  }

  ghost predicate ReceiptsOk(s: State) {
    && (Sealed(s.txn) ==> Receipt(s.txn.gen, StopReceipt) in s.books.written)
    && (forall g: nat | Receipt(g, StopReceipt) in s.books.written ::
          Has(s, g) && (g in s.books.durable || (s.txn.StopNote? && s.txn.gen == g) || g in s.books.inherited))
    && (forall g: nat | g in s.books.inherited :: Receipt(g, StopReceipt) in s.books.written)
    && (forall g: nat | Receipt(g, CrashReceipt) in s.books.written ::
          Has(s, g) && (g in s.books.durable || s.children[g].monitor.Noting?))
    && (forall g: nat | g in s.books.durable ::
          Receipt(g, StopReceipt) in s.books.written || Receipt(g, CrashReceipt) in s.books.written)
  }

  ghost predicate BooksOk(s: State) { GuardOk(s) && ReceiptsOk(s) && StoreOk(s) }

  ghost predicate Inv(s: State) {
    TxnOk(s) && BooksOk(s) && forall g: nat {:trigger ChildOk(s, g)} | Has(s, g) :: ChildOk(s, g)
  }

  lemma InitInv(s: State)
    requires Init(s)
    ensures Inv(s)
  {
  }

  predicate SameReceipts(s: State, t: State) {
    && !s.txn.StopNote? && !Sealed(t.txn)
    && t.books.written == s.books.written && t.books.durable == s.books.durable
    && t.books.inherited == s.books.inherited && |s.children| <= |t.children|
    && forall g: nat | g < |s.children| && s.children[g].monitor.Noting? :: t.children[g].monitor.Noting?
  }

  /** The receipts stay in order when nothing is written and no monitor moves past its note. */
  lemma ReceiptsFrame(s: State, t: State)
    requires ReceiptsOk(s) && SameReceipts(s, t)
    ensures ReceiptsOk(t)
  {
  }

  /** Starting and entering a stop leave the receipts alone. */
  lemma StartFrame(s: State, a: StartStep)
    requires CanStart(s, a) && (a.WatchOk? ==> s.children[s.txn.gen].monitor.NoWatch?)
    ensures SameReceipts(s, DoStart(s, a))
  {
  }

  lemma StopFrame(s: State, a: StopStep)
    requires CanStop(s, a)
    ensures SameReceipts(s, DoStop(s, a))
  {
  }

  /** No monitor moves and no child is reaped. */
  ghost predicate SameChildren(s: State, t: State) {
    && |t.children| == |s.children|
    && forall g: nat {:trigger t.children[g]} | Has(s, g) ::
         t.children[g].monitor == s.children[g].monitor && t.children[g].reaped == s.children[g].reaped
  }

  /** What the steps of a stop leave alone. */
  ghost predicate StopLeaves(s: State, t: State) {
    && SameChildren(s, t) && t.store == s.store && t.child == s.child
    && Started(t.txn).None? && !t.txn.Spawning? && (t.starting == s.starting)
    && t.books.failed == s.books.failed && t.books.inherited == s.books.inherited && t.kept == s.kept
    && (s.stopRequested ==> t.stopRequested)
  }

  lemma StopLeavesAlone(s: State, a: StopStep)
    requires CanStop(s, a)
    ensures StopLeaves(s, DoStop(s, a)) && DoStop(s, a).books == s.books && DoStop(s, a).guard == s.guard
  {
    if a.FailReturn? {
      FailLeavesAlone(s);
    } else if a.UndoReturn? || a.StopReturn? {
      ReturnLeavesAlone(s, a);
    }
  }

  lemma ReturnLeavesAlone(s: State, a: StopStep)
    requires CanStop(s, a) && (a.UndoReturn? || a.StopReturn?)
    ensures StopLeaves(s, DoStop(s, a)) && DoStop(s, a).books == s.books && DoStop(s, a).guard == s.guard
  {
  }

  lemma FailLeavesAlone(s: State)
    requires s.txn.StopFail?
    ensures var t := DoStop(s, FailReturn); StopLeaves(s, t) && t.books == s.books && t.guard == s.guard
  {
  }

  lemma SealLeavesAlone(s: State, a: SealStep)
    requires CanSeal(s, a)
    ensures StopLeaves(s, DoSeal(s, a)) && DoSeal(s, a).children == s.children
  {
    match a {
      case TakeGuard => case PrepareOk => case PrepareFail => case PersistOk => case PersistFail =>
      case NoteDurable =>
    }
  }

  lemma SignalLeavesAlone(s: State, a: SignalStep)
    requires CanSignal(s, a)
    ensures StopLeaves(s, DoSignal(s, a)) && DoSignal(s, a).books == s.books && DoSignal(s, a).guard == s.guard
  {
    match a {
      case CheckReaped => case TermOk => case TermFail => case GraceReaped => case GraceExpired => case KillOk =>
      case KillFail => case ReapReaped => case ReapExpired =>
    }
  }

  lemma StoreFrame(s: State, t: State)
    requires StoreOk(s) && StopLeaves(s, t)
    ensures StoreOk(t)
  {
  }

  lemma StartInv(s: State, a: StartStep)
    requires Inv(s) && CanStart(s, a)
    ensures Inv(DoStart(s, a))
  {
    StartTxn(s, a);
    forall g: nat | Has(DoStart(s, a), g) ensures ChildOk(DoStart(s, a), g) { StartChild(s, a, g); }
    StartBooks(s, a);
  }

  lemma StartTxn(s: State, a: StartStep)
    requires Inv(s) && CanStart(s, a)
    ensures TxnOk(DoStart(s, a))
  {
    if a.StartAdmit? || a.StartRecheck? {
      AdmitStartTxn(s, a);
    } else if Started(s.txn).Some? {
      StartedTxn(s, a);
    }
  }

  lemma StartedTxn(s: State, a: StartStep)
    requires Inv(s) && CanStart(s, a) && Started(s.txn).Some?
    ensures TxnOk(DoStart(s, a))
  {
    assert ChildOk(s, Started(s.txn).value);
  }

  lemma AdmitStartTxn(s: State, a: StartStep)
    requires Inv(s) && CanStart(s, a) && (a.StartAdmit? || a.StartRecheck?)
    ensures TxnOk(DoStart(s, a))
  {
  }

  lemma StartChild(s: State, a: StartStep, g: Gen)
    requires Inv(s) && CanStart(s, a) && Has(DoStart(s, a), g)
    ensures ChildOk(DoStart(s, a), g)
  {
    if Has(s, g) { OldChild(s, a, g); } else { NewChild(s, g); }
  }

  lemma OldChild(s: State, a: StartStep, g: Gen)
    requires Inv(s) && CanStart(s, a) && Has(s, g)
    ensures Has(DoStart(s, a), g) && ChildOk(DoStart(s, a), g)
  {
    hide StoreOk, ReceiptsOk, GuardOk;
    assert ChildOk(s, g);
  }

  /** Nothing is known of a child just spawned. */
  lemma NewChild(s: State, g: Gen)
    requires Inv(s) && CanStart(s, SpawnOk) && g == |s.children|
    ensures ChildOk(DoStart(s, SpawnOk), g)
  {
    hide StoreOk, TxnOk;
  }

  lemma StartGuard(s: State, a: StartStep)
    requires Inv(s) && CanStart(s, a)
    ensures GuardOk(DoStart(s, a))
  {
    hide ReceiptsOk, StoreOk, ChildOk;
  }

  lemma StartReceipts(s: State, a: StartStep)
    requires Inv(s) && CanStart(s, a)
    ensures ReceiptsOk(DoStart(s, a))
  {
    StartFrame(s, a);
    ReceiptsFrame(s, DoStart(s, a));
  }

  lemma StartStore(s: State, a: StartStep)
    requires Inv(s) && CanStart(s, a)
    ensures StoreOk(DoStart(s, a))
  {
    hide ReceiptsOk;
    if Started(s.txn).Some? { assert ChildOk(s, Started(s.txn).value); }
  }

  lemma StartBooks(s: State, a: StartStep)
    requires Inv(s) && CanStart(s, a)
    ensures BooksOk(DoStart(s, a))
  {
    StartGuard(s, a);
    StartReceipts(s, a);
    StartStore(s, a);
  }

  lemma StopInv(s: State, a: StopStep)
    requires Inv(s) && CanStop(s, a)
    ensures Inv(DoStop(s, a))
  {
    StopTxn(s, a);
    forall g: nat | Has(DoStop(s, a), g) ensures ChildOk(DoStop(s, a), g) { StopChild(s, a, g); }
    StopBooks(s, a);
  }

  lemma StopTxn(s: State, a: StopStep)
    requires Inv(s) && CanStop(s, a)
    ensures TxnOk(DoStop(s, a))
  {
    if a.FailReturn? {
      FailTxn(s);
    } else if a.StopAdmit? {
      AdmitTxn(s);
    } else if a.StopReturn? {
      ReturnTxn(s);
    } else {
      assert Target(s.txn).None?;
    }
  }

  lemma ReturnTxn(s: State)
    requires Inv(s) && s.txn.StopDone?
    ensures TxnOk(DoStop(s, StopReturn))
  {
  }

  lemma FailTxn(s: State)
    requires Inv(s) && s.txn.StopFail?
    ensures TxnOk(DoStop(s, FailReturn))
  {
  }

  lemma AdmitTxn(s: State)
    requires Inv(s) && s.txn.StopEntry? && !s.starting
    ensures TxnOk(DoStop(s, StopAdmit))
  {
  }

  lemma StopChild(s: State, a: StopStep, g: Gen)
    requires Inv(s) && CanStop(s, a) && Has(DoStop(s, a), g)
    ensures ChildOk(DoStop(s, a), g)
  {
    assert ChildOk(s, g);
  }

  lemma StopGuard(s: State, a: StopStep)
    requires Inv(s) && CanStop(s, a)
    ensures GuardOk(DoStop(s, a))
  {
  }

  lemma StopReceipts(s: State, a: StopStep)
    requires Inv(s) && CanStop(s, a)
    ensures ReceiptsOk(DoStop(s, a))
  {
    StopFrame(s, a);
    ReceiptsFrame(s, DoStop(s, a));
  }

  lemma StopStore(s: State, a: StopStep)
    requires Inv(s) && CanStop(s, a)
    ensures StoreOk(DoStop(s, a))
  {
    StopLeavesAlone(s, a);
    StoreFrame(s, DoStop(s, a));
  }

  lemma StopBooks(s: State, a: StopStep)
    requires Inv(s) && CanStop(s, a)
    ensures BooksOk(DoStop(s, a))
  {
    StopGuard(s, a);
    StopReceipts(s, a);
    StopStore(s, a);
  }

  lemma SealInv(s: State, a: SealStep)
    requires Inv(s) && CanSeal(s, a)
    ensures Inv(DoSeal(s, a))
  {
    SealTxn(s, a);
    forall g: nat | Has(DoSeal(s, a), g) ensures ChildOk(DoSeal(s, a), g) { SealChild(s, a, g); }
    SealBooks(s, a);
  }

  lemma SealTxn(s: State, a: SealStep)
    requires Inv(s) && CanSeal(s, a)
    ensures TxnOk(DoSeal(s, a))
  {
    if Target(s.txn).Some? { assert ChildOk(s, Target(s.txn).value); }
  }

  lemma SealChild(s: State, a: SealStep, g: Gen)
    requires Inv(s) && CanSeal(s, a) && Has(DoSeal(s, a), g)
    ensures ChildOk(DoSeal(s, a), g)
  {
    assert ChildOk(s, g);
  }

  lemma SealGuard(s: State, a: SealStep)
    requires Inv(s) && CanSeal(s, a)
    ensures GuardOk(DoSeal(s, a))
  {
  }

  lemma SealReceipts(s: State, a: SealStep)
    requires Inv(s) && CanSeal(s, a)
    ensures ReceiptsOk(DoSeal(s, a))
  {
    if a.PersistOk? {
      PersistReceipts(s);
    } else if a.NoteDurable? {
      NoteReceipts(s);
    } else {
      assert DoSeal(s, a).books == s.books;
    }
  }

  lemma PersistReceipts(s: State)
    requires Inv(s) && s.txn.StopPersist?
    ensures ReceiptsOk(DoSeal(s, PersistOk))
  {
    assert ChildOk(s, Target(s.txn).value);
  }

  lemma NoteReceipts(s: State)
    requires Inv(s) && s.txn.StopNote?
    ensures ReceiptsOk(DoSeal(s, NoteDurable))
  {
  }

  lemma SealStore(s: State, a: SealStep)
    requires Inv(s) && CanSeal(s, a)
    ensures StoreOk(DoSeal(s, a))
  {
    SealLeavesAlone(s, a);
    StoreFrame(s, DoSeal(s, a));
  }

  lemma SealBooks(s: State, a: SealStep)
    requires Inv(s) && CanSeal(s, a)
    ensures BooksOk(DoSeal(s, a))
  {
    SealGuard(s, a);
    SealReceipts(s, a);
    SealStore(s, a);
  }

  lemma SignalInv(s: State, a: SignalStep)
    requires Inv(s) && CanSignal(s, a)
    ensures Inv(DoSignal(s, a))
  {
    SignalTxn(s, a);
    forall g: nat | Has(DoSignal(s, a), g) ensures ChildOk(DoSignal(s, a), g) { SignalChild(s, a, g); }
    SignalBooks(s, a);
  }

  lemma SignalTxn(s: State, a: SignalStep)
    requires Inv(s) && CanSignal(s, a)
    ensures TxnOk(DoSignal(s, a))
  {
    if a.TermOk? || a.KillOk? {
      assert DoSignal(s, a).children[s.txn.gen] == s.children[s.txn.gen].(signalled := true);
    } else {
      assert DoSignal(s, a).children == s.children;
      if a.CheckReaped? || a.GraceReaped? || a.ReapReaped? { assert ChildOk(s, s.txn.gen); }
    }
  }

  lemma SignalChild(s: State, a: SignalStep, g: Gen)
    requires Inv(s) && CanSignal(s, a) && Has(DoSignal(s, a), g)
    ensures ChildOk(DoSignal(s, a), g)
  {
    assert ChildOk(s, g);
  }

  lemma SignalGuard(s: State, a: SignalStep)
    requires Inv(s) && CanSignal(s, a)
    ensures GuardOk(DoSignal(s, a))
  {
  }

  lemma SignalStaysSealed(s: State, a: SignalStep)
    requires CanSignal(s, a)
    ensures !s.txn.StopNote? && !DoSignal(s, a).txn.StopNote?
    ensures Sealed(DoSignal(s, a).txn) ==> Sealed(s.txn) && DoSignal(s, a).txn.gen == s.txn.gen
  {
  }

  lemma SignalReceipts(s: State, a: SignalStep)
    requires Inv(s) && CanSignal(s, a)
    ensures ReceiptsOk(DoSignal(s, a))
  {
    SignalLeavesAlone(s, a);
    SignalStaysSealed(s, a);
  }

  lemma SignalStore(s: State, a: SignalStep)
    requires Inv(s) && CanSignal(s, a)
    ensures StoreOk(DoSignal(s, a))
  {
    SignalLeavesAlone(s, a);
    StoreFrame(s, DoSignal(s, a));
  }

  lemma SignalBooks(s: State, a: SignalStep)
    requires Inv(s) && CanSignal(s, a)
    ensures BooksOk(DoSignal(s, a))
  {
    SignalGuard(s, a);
    SignalReceipts(s, a);
    SignalStore(s, a);
  }

  /** Field by field, what a monitor step does. */
  lemma MonitorFrame(s: State, g: Gen, a: MonitorStep)
    requires Has(s, g) && CanMonitor(s, g, a)
    ensures var t, m := DoMonitor(s, g, a), s.children[g].monitor;
      && t.txn == s.txn && t.starting == s.starting
      && t.shutdownRequested == s.shutdownRequested && t.shutdownDone == s.shutdownDone
      && t.child == (if a.Forget? && s.child == Some(g) then None else s.child)
      && t.stopping == (s.stopping && !(a.Forget? && s.child == Some(g)))
      && t.stopRequested == (s.stopRequested || a.Latch?)
      && t.guard == (if a.Seal? && g !in s.books.durable then ByMonitor(g)
                     else if a.CrashFail? || a.CrashDie? || a.CrashNote? then Free else s.guard)
      && t.store == (if a.ClearStore? && m.current then None else s.store)
      && t.kept == (if a.ClearFail? then s.kept + {g} else s.kept) && t.books.inherited == s.books.inherited
      && t.books.written == (if a.CrashOk? then s.books.written + {Receipt(g, CrashReceipt)} else s.books.written)
      && t.books.outbox == (if a.CrashOk? then s.books.outbox + {Receipt(g, CrashReceipt)} else s.books.outbox)
      && t.books.durable == (if a.CrashNote? then s.books.durable + {g} else s.books.durable)
      && t.books.failed == (if a.Latch? then s.books.failed + {g} else s.books.failed)
      && t.children[g] == s.children[g].(
           monitor := if Releases(a) then AfterRelease(s, g, a) else AfterSealCrash(s, g, a),
           reaped := s.children[g].reaped || a.SetReaped?)
  {
    if Releases(a) { ReleaseFrame(s, g, a); } else { SealCrashFrame(s, g, a); }
  }

  lemma ReleaseFrame(s: State, g: Gen, a: MonitorStep)
    requires Has(s, g) && CanMonitor(s, g, a) && Releases(a)
    ensures var t, m := DoRelease(s, g, a), s.children[g].monitor;
      && t.starting == s.starting && t.shutdownRequested == s.shutdownRequested && t.shutdownDone == s.shutdownDone
      && t.child == (if a.Forget? && s.child == Some(g) then None else s.child)
      && t.stopping == (s.stopping && !(a.Forget? && s.child == Some(g)))
      && t.stopRequested == s.stopRequested && t.guard == s.guard
      && t.store == (if a.ClearStore? && m.current then None else s.store)
      && t.kept == (if a.ClearFail? then s.kept + {g} else s.kept)
      && t.children[g]
         == s.children[g].(monitor := AfterRelease(s, g, a), reaped := s.children[g].reaped || a.SetReaped?)
  {
  }

  lemma SealCrashFrame(s: State, g: Gen, a: MonitorStep)
    requires Has(s, g) && CanMonitor(s, g, a) && !Releases(a)
    ensures var t := DoSealCrash(s, g, a);
      && t.starting == s.starting && t.shutdownRequested == s.shutdownRequested && t.shutdownDone == s.shutdownDone
      && t.child == s.child && t.stopping == s.stopping && t.store == s.store && t.kept == s.kept
      && t.books.inherited == s.books.inherited
      && t.stopRequested == (s.stopRequested || a.Latch?)
      && t.guard == (if a.Seal? && g !in s.books.durable then ByMonitor(g)
                     else if a.CrashFail? || a.CrashDie? || a.CrashNote? then Free else s.guard)
      && t.books.written == (if a.CrashOk? then s.books.written + {Receipt(g, CrashReceipt)} else s.books.written)
      && t.books.outbox == (if a.CrashOk? then s.books.outbox + {Receipt(g, CrashReceipt)} else s.books.outbox)
      && t.books.durable == (if a.CrashNote? then s.books.durable + {g} else s.books.durable)
      && t.books.failed == (if a.Latch? then s.books.failed + {g} else s.books.failed)
      && t.children[g] == s.children[g].(monitor := AfterSealCrash(s, g, a))
  {
  }

  lemma MonitorInv(s: State, g: Gen, a: MonitorStep)
    requires Inv(s) && Has(s, g) && CanMonitor(s, g, a)
    ensures Inv(DoMonitor(s, g, a))
  {
    MonitorTxn(s, g, a);
    forall h: nat | Has(s, h) ensures ChildOk(DoMonitor(s, g, a), h) { MonitorChild(s, g, a, h); }
    MonitorBooks(s, g, a);
  }

  lemma MonitorTxn(s: State, g: Gen, a: MonitorStep)
    requires Inv(s) && Has(s, g) && CanMonitor(s, g, a)
    ensures TxnOk(DoMonitor(s, g, a))
  {
    hide DoMonitor, ReceiptsOk, StoreOk;
    assert ChildOk(s, g);
    MonitorFrame(s, g, a);
  }

  lemma MonitorChild(s: State, g: Gen, a: MonitorStep, h: Gen)
    requires Inv(s) && Has(s, g) && CanMonitor(s, g, a) && Has(s, h)
    ensures ChildOk(DoMonitor(s, g, a), h)
  {
    if g == h {
      MonitorSelf(s, g, a);
    } else {
      MonitorOther(s, g, a, h);
    }
  }

  lemma MonitorOther(s: State, g: Gen, a: MonitorStep, h: Gen)
    requires Inv(s) && Has(s, g) && CanMonitor(s, g, a) && Has(s, h) && h != g
    ensures ChildOk(DoMonitor(s, g, a), h)
  {
    hide DoMonitor, TxnOk, ReceiptsOk, StoreOk;
    assert ChildOk(s, g) && ChildOk(s, h);
    MonitorFrame(s, g, a);
  }

  lemma MonitorSelf(s: State, g: Gen, a: MonitorStep)
    requires Inv(s) && Has(s, g) && CanMonitor(s, g, a)
    ensures ChildOk(DoMonitor(s, g, a), g)
  {
    hide DoMonitor, TxnOk, StoreOk, ReceiptsOk;
    assert ChildOk(s, g);
    MonitorFrame(s, g, a);
  }

  lemma MonitorGuard(s: State, g: Gen, a: MonitorStep)
    requires Inv(s) && Has(s, g) && CanMonitor(s, g, a)
    ensures GuardOk(DoMonitor(s, g, a))
  {
    hide DoMonitor, StoreOk, ReceiptsOk;
    assert ChildOk(s, g);
    MonitorFrame(s, g, a);
  }

  lemma MonitorReceipts(s: State, g: Gen, a: MonitorStep)
    requires Inv(s) && Has(s, g) && CanMonitor(s, g, a)
    ensures ReceiptsOk(DoMonitor(s, g, a))
  {
    hide DoMonitor, StoreOk, TxnOk;
    assert ChildOk(s, g);
    MonitorFrame(s, g, a);
  }

  lemma MonitorStore(s: State, g: Gen, a: MonitorStep)
    requires Inv(s) && Has(s, g) && CanMonitor(s, g, a)
    ensures StoreOk(DoMonitor(s, g, a))
  {
    hide DoMonitor, ReceiptsOk, GuardOk;
    assert ChildOk(s, g);
    MonitorFrame(s, g, a);
  }

  lemma MonitorBooks(s: State, g: Gen, a: MonitorStep)
    requires Inv(s) && Has(s, g) && CanMonitor(s, g, a)
    ensures BooksOk(DoMonitor(s, g, a))
  {
    MonitorGuard(s, g, a);
    MonitorReceipts(s, g, a);
    MonitorStore(s, g, a);
  }

  lemma WorldInv(s: State, a: Step)
    requires Inv(s) && Can(s, a) && (a.Exit? || a.Ack?)
    ensures Inv(Do(s, a))
  {
    hide TxnOk, BooksOk, ChildOk;
    forall h: nat | Has(s, h) ensures ChildOk(Do(s, a), h) {
      assert ChildOk(s, h);
      WorldChild(s, a, h);
    }
    WorldBooks(s, a);
  }

  lemma WorldChild(s: State, a: Step, h: Gen)
    requires Can(s, a) && (a.Exit? || a.Ack?) && Has(s, h) && ChildOk(s, h)
    ensures ChildOk(Do(s, a), h)
  {
  }

  lemma WorldBooks(s: State, a: Step)
    requires Inv(s) && Can(s, a) && (a.Exit? || a.Ack?)
    ensures TxnOk(Do(s, a)) && BooksOk(Do(s, a))
  {
    hide ChildOk;
  }

  /** Every step of every thread keeps the invariant. */
  lemma StepInv(s: State, a: Step)
    requires Inv(s) && Can(s, a)
    ensures Inv(Do(s, a))
  {
    match a
    case Start(b) => StartInv(s, b);
    case Stop(b) => StopInv(s, b);
    case OfMonitor(g, b) => MonitorInv(s, g, b);
    case SealStop(b) => SealInv(s, b);
    case SignalStop(b) => SignalInv(s, b);
    case Exit(g) => WorldInv(s, a);
    case Ack(r) => WorldInv(s, a);
  }
}
