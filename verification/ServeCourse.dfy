/**
The course of one transaction and of one monitor: when a stop may be refused, whom it signals and how far it goes, and
when a dead child is replaced.
*/
module ServeCourse {
  import opened Wrappers
  import opened ServeManager
  import opened ServeSafety
  import opened ServeRuns

  // ---------------------------------------------------------------- a forced stop is not refused

  predicate IsCall(a: Step) { a.Stop? && (a.stop.CallStop? || a.stop.CallShutdown? || a.stop.CallSwitch?) }

  /** The call asks to go on when no receipt can be prepared. */
  predicate Forced(a: Step) { IsCall(a) && a.stop.force }

  /** No stop under way, or a forced one, or one that did not fail for want of a prepared receipt. */
  predicate Unrefused(t: Txn) {
    match t
    case ShutdownEntry(force) => force
    case StopEntry(_, force) => force
    case StopGuard(_, force, _) => force
    case StopPrepare(_, force, _) => force
    case StopFail(_, _, cause) => !cause.PrepareFailed?
    case _ => true
  }

  lemma StartTxns(s: State, a: StartStep)
    requires CanStart(s, a)
    ensures var t := DoStart(s, a).txn;
            t.Idle? || t.StartEntry? || t.StartWait? || t.Spawning? || t.Installing? || t.Saving? || t.Watching?
  {
  }

  lemma StopTxns(s: State, a: StopStep)
    requires CanStop(s, a) && Unrefused(s.txn) && !IsCall(Stop(a))
    ensures Unrefused(DoStop(s, a).txn)
  {
  }

  lemma SealTxns(s: State, a: SealStep)
    requires CanSeal(s, a) && Unrefused(s.txn)
    ensures Unrefused(DoSeal(s, a).txn)
  {
  }

  lemma SignalTxns(s: State, a: SignalStep)
    requires CanSignal(s, a)
    ensures Unrefused(DoSignal(s, a).txn)
  {
  }

  lemma StepUnrefused(s: State, a: Step)
    requires Can(s, a) && Unrefused(s.txn) && !IsCall(a)
    ensures Unrefused(Do(s, a).txn)
  {
    hide DoStart, DoStop, DoSeal, DoSignal, DoMonitor;
    match a
    case Start(b) => StartTxns(s, b);
    case Stop(b) => StopTxns(s, b);
    case SealStop(b) => SealTxns(s, b);
    case SignalStop(b) => SignalTxns(s, b);
    case OfMonitor(g, b) => MonitorSteps(s, g, b);
    case Exit(_) =>
    case Ack(_) =>
  }

  /** From a forced call to the next call, no stop fails because its receipt could not be prepared. */
  lemma ForcedNotRefused(s: State, call: Step, steps: seq<Step>)
    requires Can(s, call) && Forced(call) && Legal(Do(s, call), steps) && forall a <- steps :: !IsCall(a)
    ensures var t := After(Do(s, call), steps).txn; !(t.StopFail? && t.cause.PrepareFailed?)
  {
    StaysUnrefused(Do(s, call), steps);
  }

  lemma {:induction false} StaysUnrefused(s: State, steps: seq<Step>)
    requires Legal(s, steps) && Unrefused(s.txn) && forall a <- steps :: !IsCall(a)
    ensures Unrefused(After(s, steps).txn)
    decreases |steps|
  {
    if steps != [] {
      assert steps[0] in steps && forall a <- steps[1..] :: a in steps;
      StepUnrefused(s, steps[0]);
      StaysUnrefused(Do(s, steps[0]), steps[1..]);
    }
  }

  /** A stop that holds the guard can be refused by its preparation exactly when it is not forced. */
  lemma RefusableIff(s: State)
    requires Reachable(s) && s.txn.StopPrepare?
    ensures (exists a :: Can(s, a) && Do(s, a).txn == StopFail(s.txn.kind, s.txn.gen, PrepareFailed))
            <==> !s.txn.force
  {
    hide DoStart, DoStop, DoSignal, DoMonitor, Reachable;
    if s.txn.force {
      forall a | Can(s, a) ensures Do(s, a).txn != StopFail(s.txn.kind, s.txn.gen, PrepareFailed) {
        StepUnrefused(s, a);
      }
    } else {
      assert Can(s, SealStop(PrepareFail));
    }
  }

  // ---------------------------------------------------------------- whom a stop signals

  /** In the run this signal is sent to g. */
  ghost predicate Sends(s: State, steps: seq<Step>, g: Gen, a: SignalStep)
    requires Legal(s, steps)
    decreases |steps|
  {
    steps != []
    && ((steps[0] == SignalStop(a) && s.txn.gen == g) || Sends(Do(s, steps[0]), steps[1..], g, a))
  }

  /** g has been reaped, and no signal to it is already decided on. */
  predicate Spared(s: State, g: Gen) {
    Has(s, g) && s.children[g].reaped && !((s.txn.StopTerm? || s.txn.StopKill?) && s.txn.gen == g)
  }

  lemma StepSpared(s: State, a: Step, g: Gen)
    requires Inv(s) && Can(s, a) && Spared(s, g)
    ensures Spared(Do(s, a), g) && !(IsSignal(a) && s.txn.gen == g)
  {
    assert ChildOk(s, g);
    match a
    case Start(b) => StartSpared(s, b, g);
    case Stop(b) => StopLeavesAlone(s, b);
    case SealStop(b) => SealLeavesAlone(s, b);
    case SignalStop(b) => SignalSpared(s, b, g);
    case OfMonitor(h, b) => MonitorSpared(s, h, b, g);
    case Exit(_) =>
    case Ack(_) =>
  }

  lemma StartSpared(s: State, a: StartStep, g: Gen)
    requires Inv(s) && CanStart(s, a) && Spared(s, g)
    ensures Spared(DoStart(s, a), g)
  {
    assert ChildOk(s, g);
    StartTxns(s, a);
  }

  lemma SignalSpared(s: State, a: SignalStep, g: Gen)
    requires CanSignal(s, a) && Spared(s, g)
    ensures Spared(DoSignal(s, a), g) && !((a.TermOk? || a.KillOk?) && s.txn.gen == g)
  {
  }

  lemma MonitorSpared(s: State, h: Gen, a: MonitorStep, g: Gen)
    requires Has(s, h) && CanMonitor(s, h, a) && Spared(s, g)
    ensures Spared(DoMonitor(s, h, a), g)
  {
    hide DoMonitor;
    MonitorFrame(s, h, a);
    MonitorCount(s, h, a);
    if g != h { MonitorOthers(s, h, a, g); }
  }

  /** Once a child is reaped it is never signalled, but for a signal that has been decided on already. */
  lemma {:induction false} ReapedNotSignalled(s: State, steps: seq<Step>, g: Gen)
    requires Inv(s) && Legal(s, steps) && Spared(s, g)
    ensures !Sends(s, steps, g, TermOk) && !Sends(s, steps, g, KillOk)
    decreases |steps|
  {
    if steps != [] {
      StepInv(s, steps[0]);
      StepSpared(s, steps[0], g);
      ReapedNotSignalled(Do(s, steps[0]), steps[1..], g);
    }
  }

  // ---------------------------------------------------------------- how far a stop goes

  /** SIGTERM is out, in this transaction. */
  predicate Termed(t: Txn) { t.StopGrace? || t.StopKill? || Killed(t) }

  /** SIGKILL is out, in this transaction. */
  predicate Killed(t: Txn) { t.StopReap? || (t.StopFail? && t.cause.NotReaped?) }

  lemma StepTermed(s: State, a: Step)
    requires Can(s, a)
    ensures Termed(Do(s, a).txn) ==>
              Do(s, a).txn.gen == s.txn.gen && (Termed(s.txn) || a == SignalStop(TermOk))
    ensures Killed(Do(s, a).txn) ==>
              Do(s, a).txn.gen == s.txn.gen && (Killed(s.txn) || a == SignalStop(KillOk))
  {
    match a
    case Start(b) => StartTxns(s, b);
    case Stop(b) =>
      var t := DoStop(s, b).txn;
      assert t.Idle? || t.StartEntry? || t.ShutdownEntry? || t.StopEntry? || t.StopDone? || t.StopGuard?
             || t.ShutdownUndo?;
    case SealStop(b) =>
    case SignalStop(b) =>
    case OfMonitor(g, b) => MonitorSteps(s, g, b);
    case Exit(_) =>
    case Ack(_) =>
  }

  lemma {:induction false} TermedSent(s: State, steps: seq<Step>)
    requires Legal(s, steps) && Termed(After(s, steps).txn)
    ensures (Termed(s.txn) && s.txn.gen == After(s, steps).txn.gen) || Sends(s, steps, After(s, steps).txn.gen, TermOk)
    decreases |steps|
  {
    if steps != [] {
      StepTermed(s, steps[0]);
      TermedSent(Do(s, steps[0]), steps[1..]);
    }
  }

  lemma {:induction false} KilledSent(s: State, steps: seq<Step>)
    requires Legal(s, steps) && Killed(After(s, steps).txn)
    ensures (Killed(s.txn) && s.txn.gen == After(s, steps).txn.gen) || Sends(s, steps, After(s, steps).txn.gen, KillOk)
    decreases |steps|
  {
    if steps != [] {
      StepTermed(s, steps[0]);
      KilledSent(Do(s, steps[0]), steps[1..]);
    }
  }

  /** A stop gives up waiting for a child only after it has sent it both signals. */
  lemma GivesUpAfterKill(s0: State, steps: seq<Step>)
    requires Init(s0) && Legal(s0, steps)
    requires After(s0, steps).txn.StopFail? && After(s0, steps).txn.cause.NotReaped?
    ensures var g := After(s0, steps).txn.gen; Sends(s0, steps, g, TermOk) && Sends(s0, steps, g, KillOk)
  {
    TermedSent(s0, steps);
    KilledSent(s0, steps);
  }

  // ---------------------------------------------------------------- when a start spawns

  /** A start spawns exactly when no child is current, no shutdown is latched, and no stop forbids a restart. */
  lemma AdmitSpawnsIff(s: State)
    requires Reachable(s) && s.txn.StartEntry?
    ensures var t, auto := Do(s, Start(StartAdmit)), s.txn.auto;
            t.txn == if s.child.Some? || s.shutdownRequested || (auto && s.stopRequested) then Idle else Spawning(auto)
  {
    ReachableInv(s);
  }

  /** A switch that has been called and whose stop has succeeded goes on to spawn, unless a shutdown is latched. */
  lemma SwitchSpawnsIff(s: State, force: bool, steps: seq<Step>)
    requires Reachable(s) && Can(s, Stop(CallSwitch(force)))
    requires Legal(Do(s, Stop(CallSwitch(force))), steps) && forall a <- steps :: !Returns(a)
    requires Can(After(Do(s, Stop(CallSwitch(force))), steps), Stop(StopReturn))
    ensures var u := After(Do(s, Stop(CallSwitch(force))), steps);
            var t := Do(u, Stop(StopReturn));
            && Can(t, Start(StartAdmit)) && !t.txn.auto
            && (Do(t, Start(StartAdmit)).txn.Spawning? <==> !u.shutdownRequested)
  {
    var s1 := Do(s, Stop(CallSwitch(force)));
    ReachStep(s, Stop(CallSwitch(force)));
    ReachRun(s1, steps);
    ReachableInv(After(s1, steps));
    RunServes(s1, steps, SwitchStop);
    SwitchGoesOn(After(s1, steps));
  }

  lemma SwitchGoesOn(s: State)
    requires Inv(s) && s.txn.StopDone? && s.txn.kind.SwitchStop?
    ensures var t := DoStop(s, StopReturn);
            t.txn == StartEntry(false) && (DoStart(t, StartAdmit).txn.Spawning? <==> !s.shutdownRequested)
  {
  }

  /** A client's start, or a switch, is under way and has not spawned yet. */
  predicate Explicit(t: Txn) {
    ((t.StartEntry? || t.StartWait? || t.Spawning?) && !t.auto) || Serves(t, SwitchStop)
  }

  predicate StartsExplicitly(a: Step) { a == Start(CallStart) || (a.Stop? && a.stop.CallSwitch?) }

  lemma StepExplicit(s: State, a: Step)
    requires Can(s, a) && !Explicit(s.txn) && !StartsExplicitly(a)
    ensures !Explicit(Do(s, a).txn) && !ExplicitAdmit(s, a)
  {
    match a
    case Start(b) =>
    case Stop(b) =>
    case SealStop(b) =>
    case SignalStop(b) =>
    case OfMonitor(g, b) => MonitorSteps(s, g, b);
    case Exit(_) =>
    case Ack(_) =>
  }

  lemma {:induction false} NotAdmitted(s: State, steps: seq<Step>)
    requires Legal(s, steps) && !Explicit(s.txn) && forall a <- steps :: !StartsExplicitly(a)
    ensures !Admits(s, steps)
    decreases |steps|
  {
    if steps != [] {
      assert steps[0] in steps && forall a <- steps[1..] :: a in steps;
      StepExplicit(s, steps[0]);
      NotAdmitted(Do(s, steps[0]), steps[1..]);
    }
  }

  /** After a stop was requested, restarts spawn nothing: only a client's start or switch does. */
  lemma OnlyClientsRestart(s: State, steps: seq<Step>)
    requires Reachable(s) && Legal(s, steps) && s.stopRequested && !Explicit(s.txn) && !s.txn.Spawning?
    requires forall a <- steps :: !StartsExplicitly(a)
    ensures Start(SpawnOk) !in steps
  {
    ReachableInv(s);
    NotAdmitted(s, steps);
    NoResurrection(s, steps);
  }

  // ---------------------------------------------------------------- when a dead child is replaced

  /** Between noticing the exit and deciding on a restart the monitor remembers whether a stop was under way. */
  predicate Remembers(m: Monitor, was: bool) {
    match m
    case Sealing(w) => w == was
    case Writing(w) => w == was
    case Noting(w) => w == was
    case Latching(w) => w == was
    case Forgetting(w) => w == was
    case ClearingStore(w, _) => w == was
    case Waking(w, _) => w == was
    case Deciding(w, _) => w == was
    case Finished => true
    case Dead => true
    case _ => false
  }

  lemma StepRemembers(s: State, a: Step, g: Gen, was: bool)
    requires Inv(s) && Can(s, a) && Has(s, g) && Remembers(s.children[g].monitor, was)
    ensures Has(Do(s, a), g) && Remembers(Do(s, a).children[g].monitor, was) && Do(s, a).autoRestart == s.autoRestart
  {
    assert ChildOk(s, g);
    match a
    case Start(b) => StartRemembers(s, b, g, was);
    case Stop(b) => StopLeavesAlone(s, b);
    case SealStop(b) => SealLeavesAlone(s, b);
    case SignalStop(b) => SignalLeavesAlone(s, b);
    case OfMonitor(h, b) => MonitorRemembers(s, h, b, g, was);
    case Exit(_) =>
    case Ack(_) =>
  }

  lemma StartRemembers(s: State, a: StartStep, g: Gen, was: bool)
    requires Inv(s) && CanStart(s, a) && Has(s, g) && Remembers(s.children[g].monitor, was)
    ensures Has(DoStart(s, a), g) && Remembers(DoStart(s, a).children[g].monitor, was)
  {
  }

  lemma MonitorRemembers(s: State, h: Gen, a: MonitorStep, g: Gen, was: bool)
    requires Has(s, h) && CanMonitor(s, h, a) && Has(s, g) && Remembers(s.children[g].monitor, was)
    ensures Has(DoMonitor(s, h, a), g) && Remembers(DoMonitor(s, h, a).children[g].monitor, was)
    ensures DoMonitor(s, h, a).autoRestart == s.autoRestart
  {
    hide DoMonitor;
    MonitorCount(s, h, a);
    MonitorRestarts(s, h, a);
    if g != h {
      MonitorOthers(s, h, a, g);
    } else {
      hide Remembers;
      MonitorFrame(s, g, a);
      if Releases(a) { ReleaseRemembers(s, g, a, was); } else { SealCrashRemembers(s, g, a, was); }
    }
  }

  lemma ReleaseRemembers(s: State, g: Gen, a: MonitorStep, was: bool)
    requires Has(s, g) && CanMonitor(s, g, a) && Releases(a) && Remembers(s.children[g].monitor, was)
    ensures Remembers(AfterRelease(s, g, a), was)
  {
  }

  lemma SealCrashRemembers(s: State, g: Gen, a: MonitorStep, was: bool)
    requires Has(s, g) && CanMonitor(s, g, a) && !Releases(a) && Remembers(s.children[g].monitor, was)
    ensures Remembers(AfterSealCrash(s, g, a), was)
  {
  }

  lemma {:induction false} RunRemembers(s: State, steps: seq<Step>, g: Gen, was: bool)
    requires Inv(s) && Legal(s, steps) && Has(s, g) && Remembers(s.children[g].monitor, was)
    ensures var t := After(s, steps);
            Inv(t) && Has(t, g) && Remembers(t.children[g].monitor, was) && t.autoRestart == s.autoRestart
    decreases |steps|
  {
    if steps != [] {
      StepInv(s, steps[0]);
      StepRemembers(s, steps[0], g, was);
      RunRemembers(Do(s, steps[0]), steps[1..], g, was);
    }
  }

  /**
  For every run from the moment a child's exit is noticed to its monitor's decision: a restart is queued exactly when
  the daemon restarts at all, no stop was under way or requested then, and none is requested now.
  */
  lemma RestartQueuedIff(s: State, g: Gen, steps: seq<Step>)
    requires Reachable(s) && Can(s, OfMonitor(g, Wake)) && Legal(Do(s, OfMonitor(g, Wake)), steps)
    requires Can(After(Do(s, OfMonitor(g, Wake)), steps), OfMonitor(g, Decide))
    ensures var t := After(Do(s, OfMonitor(g, Wake)), steps);
            Do(t, OfMonitor(g, Decide)).restarts
            == t.restarts + if s.autoRestart && !s.stopping && !s.stopRequested && !t.stopRequested then 1 else 0
  {
    hide Inv, DoMonitor, Remembers, Reachable;
    ReachableInv(s);
    var s1 := Do(s, OfMonitor(g, Wake));
    StepInv(s, OfMonitor(g, Wake));
    WakeRemembers(s, g);
    RunRemembers(s1, steps, g, s.stopping || s.stopRequested);
    DecideQueues(After(s1, steps), g, s.stopping || s.stopRequested);
  }

  lemma WakeRemembers(s: State, g: Gen)
    requires Has(s, g) && CanMonitor(s, g, Wake)
    ensures var t := DoMonitor(s, g, Wake);
            && Has(t, g) && Remembers(t.children[g].monitor, s.stopping || s.stopRequested)
            && t.autoRestart == s.autoRestart
  {
    hide DoMonitor;
    MonitorCount(s, g, Wake);
    MonitorRestarts(s, g, Wake);
    MonitorFrame(s, g, Wake);
  }

  lemma DecideQueues(s: State, g: Gen, was: bool)
    requires Inv(s) && Has(s, g) && CanMonitor(s, g, Decide) && Remembers(s.children[g].monitor, was)
    ensures DoMonitor(s, g, Decide).restarts
         == s.restarts + if s.autoRestart && !was && !s.stopRequested then 1 else 0
  {
    assert ChildOk(s, g);
  }

  // ---------------------------------------------------------------- no more restarts than deaths

  function Tries(steps: seq<Step>): nat {
    if steps == [] then 0 else (if steps[0] == Start(CallAutoStart) then 1 else 0) + Tries(steps[1..])
  }

  function Decisions(steps: seq<Step>): nat {
    if steps == [] then 0
    else (if steps[0].OfMonitor? && steps[0].monitor.Decide? then 1 else 0) + Decisions(steps[1..])
  }

  lemma StepRestarts(s: State, a: Step)
    requires Can(s, a)
    ensures Do(s, a).restarts + Tries([a]) <= s.restarts + Decisions([a]) && Do(s, a).autoRestart == s.autoRestart
    ensures !s.autoRestart ==> Do(s, a).restarts + Tries([a]) == s.restarts
  {
    assert [a][1..] == [];
    match a
    case Start(b) => StartRestarts(s, b);
    case Stop(b) =>
    case SealStop(b) =>
    case SignalStop(b) => SignalRestarts(s, b);
    case OfMonitor(g, b) => MonitorRestarts(s, g, b);
    case Exit(_) =>
    case Ack(_) =>
  }

  lemma StartRestarts(s: State, a: StartStep)
    requires CanStart(s, a)
    ensures DoStart(s, a).restarts == s.restarts - (if a.CallAutoStart? then 1 else 0)
    ensures DoStart(s, a).autoRestart == s.autoRestart
  {
  }

  lemma SignalRestarts(s: State, a: SignalStep)
    requires CanSignal(s, a)
    ensures DoSignal(s, a).restarts == s.restarts && DoSignal(s, a).autoRestart == s.autoRestart
  {
  }

  lemma MonitorRestarts(s: State, g: Gen, a: MonitorStep)
    requires Has(s, g) && CanMonitor(s, g, a)
    ensures var t := DoMonitor(s, g, a);
            && t.autoRestart == s.autoRestart
            && s.restarts <= t.restarts <= s.restarts + (if a.Decide? && s.autoRestart then 1 else 0)
  {
    hide CanMonitor, AfterRelease, AfterSealCrash, DoRelease, DoSealCrash;
    if Releases(a) { ReleaseRestarts(s, g, a); } else { SealCrashRestarts(s, g, a); }
  }

  lemma ReleaseRestarts(s: State, g: Gen, a: MonitorStep)
    requires Has(s, g) && CanMonitor(s, g, a) && Releases(a)
    ensures var t := DoRelease(s, g, a);
            && t.autoRestart == s.autoRestart
            && s.restarts <= t.restarts <= s.restarts + (if a.Decide? && s.autoRestart then 1 else 0)
  {
  }

  lemma SealCrashRestarts(s: State, g: Gen, a: MonitorStep)
    requires Has(s, g) && CanMonitor(s, g, a) && !Releases(a)
    ensures var t := DoSealCrash(s, g, a); t.autoRestart == s.autoRestart && t.restarts == s.restarts
  {
  }

  /** Each restart attempted or still queued has its own monitor's decision; without auto-restart there is none. */
  lemma {:induction false} RestartsBounded(s: State, steps: seq<Step>)
    requires Legal(s, steps)
    ensures After(s, steps).restarts + Tries(steps) <= s.restarts + Decisions(steps)
    ensures !s.autoRestart ==> After(s, steps).restarts + Tries(steps) == s.restarts
    decreases |steps|
  {
    if steps != [] {
      assert [steps[0]][1..] == [];
      StepRestarts(s, steps[0]);
      RestartsBounded(Do(s, steps[0]), steps[1..]);
    }
  }
}
