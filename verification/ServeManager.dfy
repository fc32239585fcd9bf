/**
The supervisor of one serve child as a state machine.  Each step is what one thread does between two
operations on a shared lock: the client transactions serialized by the lifecycle lock, the monitor
thread of every child, auto-restart threads, and the environment (exits, acknowledgements).
*/
module ServeManager {
  import opened Wrappers

  /** A child's identity: children are numbered in the order they are spawned. */
  type Gen = nat

  datatype Kind = StopReceipt | CrashReceipt

  datatype Receipt = Receipt(gen: Gen, kind: Kind)

  /** Program counter of the monitor thread of one child. */
  datatype Monitor =
    | NoWatch                                          // not started
    | Waiting                                          // in child.wait()
    | Sealing(wasStopping: bool)                       // wants the accounting guard
    | Writing(wasStopping: bool)                       // holds the guard, no receipt known yet
    | Noting(wasStopping: bool)                        // holds the guard, crash receipt persisted
    | Latching(wasStopping: bool)                      // the outbox failed
    | Forgetting(wasStopping: bool)                    // about to give up the slot
    | ClearingStore(wasStopping: bool, current: bool)  // about to clear the state file
    | Waking(wasStopping: bool, current: bool)         // about to set `reaped`
    | Deciding(wasStopping: bool, current: bool)       // about to decide on a restart
    | Finished
    | Dead                                             // ended by an error nobody catches

  datatype Child = Child(exited: bool, reaped: bool, signalled: bool, monitor: Monitor)

  datatype StopKind = PlainStop | ShutdownStop | SwitchStop

  /** Why a stop failed. */
  datatype Cause = PrepareFailed | PersistFailed | SignalFailed | NotReaped

  /** Program counter of the transaction that holds the lifecycle lock. */
  datatype Txn =
    | Idle
    | StartEntry(auto: bool)
    | StartWait(auto: bool)                            // waiting for a spawn in flight
    | Spawning(auto: bool)
    | Installing(gen: Gen)                             // process exists, not yet the current child
    | Saving(gen: Gen)
    | Watching(gen: Gen)
    | ShutdownEntry(force: bool)
    | StopEntry(kind: StopKind, force: bool)
    | StopGuard(kind: StopKind, force: bool, gen: Gen)
    | StopPrepare(kind: StopKind, force: bool, gen: Gen)
    | StopPersist(kind: StopKind, gen: Gen)
    | StopNote(kind: StopKind, gen: Gen)
    | StopCheck(kind: StopKind, gen: Gen)
    | StopTerm(kind: StopKind, gen: Gen)
    | StopGrace(kind: StopKind, gen: Gen)
    | StopKill(kind: StopKind, gen: Gen)
    | StopReap(kind: StopKind, gen: Gen)
    | StopFail(kind: StopKind, gen: Gen, cause: Cause)
    | ShutdownUndo
    | StopDone(kind: StopKind, stopped: Option<Gen>)   // about to return success; None: nothing ran

  datatype Guard = Free | ByTxn | ByMonitor(gen: Gen)

  /** The accounting side; the last three are history, kept to state what was promised. */
  datatype Books = Books(
    durable: set<Gen>,           // the in-memory set _durable_accounting
    outbox: set<Receipt>,        // receipts on disk
    written: set<Receipt>,       // every receipt ever made durable, be it by an earlier daemon
    failed: set<Gen>,            // children whose crash receipt the outbox refused
    inherited: set<Gen>          // children whose stop receipt an earlier daemon had made durable
  )

  datatype State = State(
    txn: Txn,
    child: Option<Gen>,
    stopping: bool,
    starting: bool,
    stopRequested: bool,
    shutdownRequested: bool,
    guard: Guard,
    children: seq<Child>,
    store: Option<Gen>,          // the persisted state file
    restarts: nat,               // auto-restart threads not yet admitted
    autoRestart: bool,
    shutdownDone: bool,          // some shutdown has returned successfully
    kept: set<Gen>,              // history: children whose record could not be removed
    books: Books
  )

  datatype StartStep =
    | CallStart | CallAutoStart | StartAdmit | StartRecheck | SpawnOk | SpawnFail | Install
    | SaveOk | SaveFail | WatchOk | WatchFail

  datatype StopStep =
    | CallStop(force: bool) | CallShutdown(force: bool) | CallSwitch(force: bool) | ShutdownLatch | StopAdmit
    | FailReturn | UndoReturn | StopReturn

  datatype SealStep = TakeGuard | PrepareOk | PrepareFail | PersistOk | PersistFail | NoteDurable

  datatype SignalStep =
    | CheckReaped | TermOk | TermFail | GraceReaped | GraceExpired | KillOk | KillFail | ReapReaped | ReapExpired

  /**
  CrashFail is an error of the outbox; CrashDie any other, as when its directory cannot be made.  ClearFail leaves the
  state file where it is: an error of removing it is swallowed.
  */
  datatype MonitorStep =
    | Wake | Seal | CrashOk | CrashFail | CrashDie | CrashNote | Latch | Forget | ClearStore | ClearFail | SetReaped
    | Decide

  datatype Step =
    | Start(start: StartStep)                       // a client's start, or a restart thread's
    | Stop(stop: StopStep)                          // a client's stop, shutdown or switch: entry and return
    | SealStop(seal: SealStep)                      // its receipt
    | SignalStop(signal: SignalStep)                // its signals
    | OfMonitor(gen: Gen, monitor: MonitorStep)     // the monitor thread of one child
    | Exit(gen: Gen)                                // a child exits
    | Ack(receipt: Receipt)                         // a client acknowledges a receipt

  predicate Has(s: State, g: Gen) { g < |s.children| }

  /** When a step can be taken. */
  predicate Can(s: State, a: Step) {
    match a
    case Start(b) => CanStart(s, b)
    case Stop(b) => CanStop(s, b)
    case SealStop(b) => CanSeal(s, b)
    case SignalStop(b) => CanSignal(s, b)
    case OfMonitor(g, b) => Has(s, g) && CanMonitor(s, g, b)
    case Exit(g) => Has(s, g) && !s.children[g].exited
    case Ack(r) => r in s.books.outbox
  }

  /** What a step does. */
  function Do(s: State, a: Step): State
    requires Can(s, a)
  {
    match a
    case Start(b) => DoStart(s, b)
    case Stop(b) => DoStop(s, b)
    case SealStop(b) => DoSeal(s, b)
    case SignalStop(b) => DoSignal(s, b)
    case OfMonitor(g, b) => DoMonitor(s, g, b)
    case Exit(g) => s.(children := s.children[g := s.children[g].(exited := true)])
    case Ack(r) => s.(books := s.books.(outbox := s.books.outbox - {r}))
  }

  // ---------------------------------------------------------------- start

  predicate CanStart(s: State, a: StartStep) {
    match a
    case CallStart => s.txn.Idle?
    case CallAutoStart => s.txn.Idle? && s.restarts > 0
    case StartAdmit => s.txn.StartEntry?
    case StartRecheck => s.txn.StartWait? && !s.starting
    case SpawnOk => s.txn.Spawning?
    case SpawnFail => s.txn.Spawning?
    case Install => s.txn.Installing?
    case SaveOk => s.txn.Saving?
    case SaveFail => s.txn.Saving?
    case WatchOk => s.txn.Watching? && Has(s, s.txn.gen)
    case WatchFail => s.txn.Watching?
  }

  /** Where the loop under the condition variable leaves the start, once the entry checks are through. */
  function AfterAdmit(s: State, auto: bool): Txn {
    if s.child.Some? && !s.stopping then Idle            // idempotent success or Conflict
    else if s.starting then StartWait(auto)
    else if auto && s.stopRequested then Idle            // aborted
    else Spawning(auto)
  }

  /** Where the transaction stands after the step. */
  function AfterStart(s: State, a: StartStep): Txn
    requires CanStart(s, a)
  {
    match a
    case CallStart => StartEntry(false)
    case CallAutoStart => StartEntry(true)
    case StartAdmit =>
      if s.shutdownRequested then Idle                   // Conflict, or aborted for a restart
      else if s.txn.auto && s.stopRequested then Idle
      else AfterAdmit(s, s.txn.auto)
    case StartRecheck => AfterAdmit(s, s.txn.auto)
    case SpawnOk => Installing(|s.children|)
    case SpawnFail => Idle
    case Install => Saving(s.txn.gen)
    case SaveOk => Watching(s.txn.gen)
    case SaveFail => Idle
    case WatchOk => Idle
    case WatchFail => Idle
  }

  /** A client's start clears the stop intent as soon as no shutdown forbids it; a spawn in flight is marked as such. */
  function DoStart(s: State, a: StartStep): State
    requires CanStart(s, a)
  {
    s.(txn := AfterStart(s, a),
       restarts := if a.CallAutoStart? then s.restarts - 1 else s.restarts,
       stopRequested := s.stopRequested && !(a.StartAdmit? && !s.txn.auto && !s.shutdownRequested),
       starting := (s.starting || AfterStart(s, a).Spawning?) && !a.SpawnFail? && !a.Install?,
       children := if a.SpawnOk? then s.children + [Child(false, false, false, NoWatch)]
                   else if a.WatchOk? then s.children[s.txn.gen := s.children[s.txn.gen].(monitor := Waiting)]
                   else s.children,
       child := if a.Install? then Some(s.txn.gen) else s.child,
       stopping := s.stopping && !a.Install?,
       store := if a.SaveOk? then Some(s.txn.gen) else s.store)
  }

  // ---------------------------------------------------------------- stop, shutdown, switch

  predicate CanStop(s: State, a: StopStep) {
    match a
    case CallStop(_) => s.txn.Idle?
    case CallShutdown(_) => s.txn.Idle?
    case CallSwitch(_) => s.txn.Idle?
    case ShutdownLatch => s.txn.ShutdownEntry?
    case StopAdmit => s.txn.StopEntry? && !s.starting
    case FailReturn => s.txn.StopFail?
    case UndoReturn => s.txn.ShutdownUndo?
    case StopReturn => s.txn.StopDone?
  }

  /** Where the transaction stands after the step. */
  function AfterStop(s: State, a: StopStep): Txn
    requires CanStop(s, a)
  {
    match a
    case CallStop(force) => StopEntry(PlainStop, force)
    case CallShutdown(force) => ShutdownEntry(force)
    case CallSwitch(force) => StopEntry(SwitchStop, force)
    case ShutdownLatch => StopEntry(ShutdownStop, s.txn.force)
    case StopAdmit =>
      if s.child.None? then StopDone(s.txn.kind, None) else StopGuard(s.txn.kind, s.txn.force, s.child.value)
    case FailReturn => if s.txn.kind.ShutdownStop? then ShutdownUndo else Idle
    case UndoReturn => Idle
    case StopReturn => if s.txn.kind.SwitchStop? then StartEntry(false) else Idle
  }

  /**
  Admission latches the intent and claims the child; a failed return gives the claim, and the shutdown latch, back.
  */
  function DoStop(s: State, a: StopStep): (t: State)
    requires CanStop(s, a)
    ensures t.children == s.children && t.child == s.child && t.store == s.store && t.books == s.books
    ensures t.guard == s.guard && t.starting == s.starting && (s.stopRequested ==> t.stopRequested)
  {
    s.(txn := AfterStop(s, a),
       stopRequested := s.stopRequested || a.StopAdmit?,
       stopping := if a.StopAdmit? && s.child.Some? then true
                   else if a.FailReturn? && s.child == Some(s.txn.gen) then false
                   else s.stopping,
       shutdownRequested := a.ShutdownLatch? || (s.shutdownRequested && !a.UndoReturn?),
       shutdownDone := s.shutdownDone || (a.StopReturn? && s.txn.kind.ShutdownStop?))
  }

  predicate CanSeal(s: State, a: SealStep) {
    match a
    case TakeGuard => s.txn.StopGuard? && s.guard.Free?
    case PrepareOk => s.txn.StopPrepare?
    case PrepareFail => s.txn.StopPrepare? && !s.txn.force
    case PersistOk => s.txn.StopPersist?
    case PersistFail => s.txn.StopPersist?
    case NoteDurable => s.txn.StopNote?
  }

  /** Where the transaction stands after the step. */
  function AfterSeal(s: State, a: SealStep): Txn
    requires CanSeal(s, a)
  {
    match a
    case TakeGuard => StopPrepare(s.txn.kind, s.txn.force, s.txn.gen)
    case PrepareOk => StopPersist(s.txn.kind, s.txn.gen)
    case PrepareFail => StopFail(s.txn.kind, s.txn.gen, PrepareFailed)
    case PersistOk => StopNote(s.txn.kind, s.txn.gen)
    case PersistFail => StopFail(s.txn.kind, s.txn.gen, PersistFailed)
    case NoteDurable => StopCheck(s.txn.kind, s.txn.gen)
  }

  function DoSeal(s: State, a: SealStep): (t: State)
    requires CanSeal(s, a)
    ensures t.children == s.children && t.child == s.child && t.store == s.store
    ensures t.starting == s.starting && t.stopRequested == s.stopRequested
  {
    s.(txn := AfterSeal(s, a),
       guard := if a.TakeGuard? then ByTxn
                else if a.PrepareFail? || a.PersistFail? || a.NoteDurable? then Free
                else s.guard,
       books := if a.PersistOk? then Write(s.books, Receipt(s.txn.gen, StopReceipt))
                else if a.NoteDurable? then s.books.(durable := s.books.durable + {s.txn.gen})
                else s.books)
  }

  predicate CanSignal(s: State, a: SignalStep) {
    match a
    case CheckReaped => s.txn.StopCheck? && Has(s, s.txn.gen)
    case TermOk => s.txn.StopTerm? && Has(s, s.txn.gen)
    case TermFail => s.txn.StopTerm?
    case GraceReaped => s.txn.StopGrace? && Has(s, s.txn.gen) && s.children[s.txn.gen].reaped
    case GraceExpired => s.txn.StopGrace? && Has(s, s.txn.gen) && !s.children[s.txn.gen].reaped
    case KillOk => s.txn.StopKill? && Has(s, s.txn.gen)
    case KillFail => s.txn.StopKill?
    case ReapReaped => s.txn.StopReap? && Has(s, s.txn.gen) && s.children[s.txn.gen].reaped
    case ReapExpired => s.txn.StopReap? && Has(s, s.txn.gen) && !s.children[s.txn.gen].reaped
  }

  /** Where the transaction stands after the step. */
  function AfterSignal(s: State, a: SignalStep): Txn
    requires CanSignal(s, a)
  {
    var k, g := s.txn.kind, s.txn.gen;
    match a
    case CheckReaped => if s.children[g].reaped then StopDone(k, Some(g)) else StopTerm(k, g)
    case TermOk => StopGrace(k, g)
    case TermFail => StopFail(k, g, SignalFailed)
    case GraceReaped => StopDone(k, Some(g))
    case GraceExpired => StopKill(k, g)
    case KillOk => StopReap(k, g)
    case KillFail => StopFail(k, g, SignalFailed)
    case ReapReaped => StopDone(k, Some(g))
    case ReapExpired => StopFail(k, g, NotReaped)
  }

  function DoSignal(s: State, a: SignalStep): (t: State)
    requires CanSignal(s, a)
    ensures t.child == s.child && t.books == s.books
  {
    (if a.TermOk? || a.KillOk? then Signal(s, s.txn.gen) else s).(txn := AfterSignal(s, a))
  }

  /** A receipt reaches the outbox on disk. */
  function Write(b: Books, r: Receipt): Books {
    b.(outbox := b.outbox + {r}, written := b.written + {r})
  }

  function Signal(s: State, g: Gen): (t: State)
    requires Has(s, g)
    ensures |t.children| == |s.children|
  {
    s.(children := s.children[g := s.children[g].(signalled := true)])
  }

  // ---------------------------------------------------------------- the monitor of one child

  predicate CanMonitor(s: State, g: Gen, a: MonitorStep)
    requires Has(s, g)
  {
    var m := s.children[g].monitor;
    match a
    case Wake => m.Waiting? && s.children[g].exited
    case Seal => m.Sealing? && s.guard.Free?
    case CrashOk => m.Writing?
    case CrashFail => m.Writing?
    case CrashDie => m.Writing?
    case CrashNote => m.Noting?
    case Latch => m.Latching?
    case Forget => m.Forgetting?
    case ClearStore => m.ClearingStore?
    case ClearFail => m.ClearingStore? && m.current
    case SetReaped => m.Waking?
    case Decide => m.Deciding?
  }

  /** The monitor has noted that its child exited under a stop, or is through. */
  predicate Marked(m: Monitor) {
    match m
    case NoWatch => false
    case Waiting => false
    case Sealing(was) => was
    case Writing(was) => was
    case Noting(was) => was
    case Latching(was) => was
    case Forgetting(was) => was
    case ClearingStore(was, _) => was
    case Waking(was, _) => was
    case Deciding(was, _) => was
    case Finished => true
    case Dead => true
  }

  predicate Releases(a: MonitorStep) { a.Forget? || a.ClearStore? || a.ClearFail? || a.SetReaped? || a.Decide? }

  function DoMonitor(s: State, g: Gen, a: MonitorStep): (t: State)
    requires Has(s, g) && CanMonitor(s, g, a)
    ensures |t.children| == |s.children| && t.children == s.children[g := t.children[g]] && t.txn == s.txn
    ensures s.stopRequested ==> t.stopRequested
    ensures !a.CrashOk? && !a.CrashNote? && !a.Latch? ==> t.books == s.books
    ensures Marked(s.children[g].monitor) ==> Marked(t.children[g].monitor) && t.restarts == s.restarts
  {
    if Releases(a) then DoRelease(s, g, a) else DoSealCrash(s, g, a)
  }

  /** Where the monitor stands after noticing the exit and sealing the crash. */
  function AfterSealCrash(s: State, g: Gen, a: MonitorStep): (m': Monitor)
    requires Has(s, g) && CanMonitor(s, g, a) && !Releases(a)
    ensures Marked(s.children[g].monitor) ==> Marked(m')
  {
    var m := s.children[g].monitor;
    match a
    case Wake =>
      var was := s.stopping || s.stopRequested;
      if s.child == Some(g) then Sealing(was) else Forgetting(was)
    case Seal => if g in s.books.durable then Forgetting(m.wasStopping) else Writing(m.wasStopping)
    case CrashOk => Noting(m.wasStopping)
    case CrashFail => Latching(m.wasStopping)
    case CrashDie => Dead
    case CrashNote => Forgetting(m.wasStopping)
    case Latch => Forgetting(m.wasStopping)
  }

  function DoSealCrash(s: State, g: Gen, a: MonitorStep): (t: State)
    requires Has(s, g) && CanMonitor(s, g, a) && !Releases(a)
  {
    s.(children := s.children[g := s.children[g].(monitor := AfterSealCrash(s, g, a))],
       guard := if a.Seal? && g !in s.books.durable then ByMonitor(g)
                else if a.CrashFail? || a.CrashDie? || a.CrashNote? then Free
                else s.guard,
       stopRequested := s.stopRequested || a.Latch?,
       books := if a.CrashOk? then Write(s.books, Receipt(g, CrashReceipt))
                else if a.CrashNote? then s.books.(durable := s.books.durable + {g})
                else if a.Latch? then s.books.(failed := s.books.failed + {g})
                else s.books)
  }

  /**
  Where the monitor stands after giving the slot up, clearing the file, waking the waiters, deciding on a restart.
  */
  function AfterRelease(s: State, g: Gen, a: MonitorStep): (m': Monitor)
    requires Has(s, g) && CanMonitor(s, g, a) && Releases(a)
    ensures Marked(s.children[g].monitor) ==> Marked(m')
  {
    var m := s.children[g].monitor;
    match a
    case Forget => ClearingStore(m.wasStopping, s.child == Some(g))
    case ClearStore => Waking(m.wasStopping, m.current)
    case ClearFail => Waking(m.wasStopping, m.current)
    case SetReaped => Deciding(m.wasStopping, m.current)
    case Decide => Finished
  }

  function DoRelease(s: State, g: Gen, a: MonitorStep): (t: State)
    requires Has(s, g) && CanMonitor(s, g, a) && Releases(a)
  {
    var c := s.children[g];
    var m := c.monitor;
    var gone := a.Forget? && s.child == Some(g);
    var restart := a.Decide? && m.current && !m.wasStopping && s.autoRestart && !s.stopRequested;
    s.(children := s.children[g := c.(monitor := AfterRelease(s, g, a), reaped := c.reaped || a.SetReaped?)],
       child := if gone then None else s.child,
       stopping := s.stopping && !gone,
       store := if a.ClearStore? && m.current then None else s.store,
       kept := if a.ClearFail? then s.kept + {g} else s.kept,
       restarts := if restart then s.restarts + 1 else s.restarts)
  }

  /**
  A daemon starts with nothing running, or re-adopts the child its state file records.  Watching that child may have
  failed, and an earlier daemon may have persisted a stop receipt for it without ending it; the set of durable
  identities is empty either way.
  */
  predicate Init(s: State) {
    && s.txn.Idle? && !s.stopping && !s.starting && !s.stopRequested && !s.shutdownRequested && !s.shutdownDone
    && s.guard.Free? && s.restarts == 0 && s.kept == {}
    && s.books.durable == {} && s.books.failed == {} && s.books.outbox <= s.books.written
    && ((s.children == [] && s.child.None? && s.store.None? && s.books.inherited == {} && s.books.written == {})
        || ((s.children == [Child(false, false, false, Waiting)] || s.children == [Child(false, false, false, NoWatch)])
            && s.child == Some(0) && s.store == Some(0) && Carried(s.books)))
  }

  /** The receipts the adopted child has brought along. */
  predicate Carried(b: Books) {
    (b.inherited == {} && b.written == {}) || (b.inherited == {0} && b.written == {Receipt(0, StopReceipt)})
  }

  // ---------------------------------------------------------------- runs

  ghost predicate Legal(s: State, steps: seq<Step>)
    decreases |steps|
  {
    steps == [] || (Can(s, steps[0]) && Legal(Do(s, steps[0]), steps[1..]))
  }

  ghost function After(s: State, steps: seq<Step>): State
    requires Legal(s, steps)
    decreases |steps|
  {
    if steps == [] then s else After(Do(s, steps[0]), steps[1..])
  }

  /** s is reached from an initial state by some run. */
  ghost predicate Reachable(s: State) {
    exists s0, steps :: Init(s0) && Legal(s0, steps) && After(s0, steps) == s
  }
}
