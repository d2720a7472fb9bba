/**
 * Progress while Close stops every VM: operations in flight never block each other for good, and
 * their steps are bounded, as long as killed processes exit.
 */
module LifecycleProgress {
  import opened Common
  import opened Lifecycle
  import opened LifecycleInvariant
  import opened LifecycleRuns

  /** Steps that carry on what is already in flight; a new request, a guest message or an unprovoked exit is none. */
  predicate Internal(e: Entry, s: Step) {
    match s
    case StartBegin => false
    case StopRequest => false
    case DeleteBegin => false
    case OnTimeout(_) => false
    case OnNotify(_, _) => false
    case OnNonce => false
    case RecordQuote(_, _) => false
    case Exit(pid, _) => Watched(e, pid) && e.procs[pid].killed
    case _ => true
  }

  // ---------------------------------------------------------------- a bound on the work left

  function ProcessWork(p: Process): nat {
    p.waiters +
    match p.supervisor
    case Watching => (if p.phase == InstallPhase then 15 else 2) + (if p.exit.None? then 1 else 0)
    case Settled(handoff) => if handoff then 13 else 1
    case _ => 0
  }

  function HolderWork(op: Holder, provisioned: bool): nat {
    match op
    case Nobody => 0
    case ByLaunch(spawned) => if spawned.Some? then 19 else if provisioned then 21 else 22
    case ByDiscard(torn) => if torn then 1 else 2
    case ByBoot(_, spawned) => if spawned.Some? then 6 else 8
    case ByDelete(_) => 2
    case ByRemove => 1
    case ByVisit(_) => 1
  }

  function QueueWork(e: Entry): nat {
    (if e.launchPending then 24 else 0) + (if e.handoffPending then 10 else 0) +
    (match e.visit case Queued => 3 case InVisit => 1 case _ => 0)
  }

  ghost function Work(e: Entry): nat {
    HolderWork(e.op, e.rec.ip.Some?) + QueueWork(e) + Total(e.procs, ProcessWork)
  }

  lemma ProcessUpdate(e: Entry, pid: Pid, p: Process)
    requires pid in e.procs
    ensures Total(e.procs[pid := p], ProcessWork) + ProcessWork(e.procs[pid]) == Total(e.procs, ProcessWork) + ProcessWork(p)
  {
    TotalUpdate(e.procs, ProcessWork, pid, p);
  }

  lemma SpawnWorks(e: Entry, env: Env, pid: Pid)
    requires EntryOK(e, env) && StartOpen(e.op) && pid !in e.procs && (e.op.ByLaunch? ==> e.rec.ip.Some?)
    ensures Work(SpawnedAt(e, pid)) < Work(e)
  {
    TotalInsert(e.procs, ProcessWork, pid, SpawnedAt(e, pid).procs[pid]);
  }

  lemma PublishWorks(e: Entry, env: Env)
    requires EntryOK(e, env) && Spawned(e.op).Some? && Spawned(e.op).value in e.procs
    ensures Work(Published(e)) < Work(e)
  {
    var pid := Spawned(e.op).value;
    assert ProcessOK(pid, e.procs[pid], e.proc, e.op);
    ProcessUpdate(e, pid, Published(e).procs[pid]);
  }

  /** Operation steps that leave the processes alone: first those of a start, then those of a removal. */
  lemma StartLockWorks(e: Entry, env: Env, s: Step)
    requires OperationStep(s) && OperationEnabled(e, env, s)
    requires s.LaunchLock? || s.Provision? || s.SpawnFail? || s.StartAbort? || s.HandoffBegin?
    ensures Work(AfterOperation(e, env, s)) < Work(e)
  {
    assert AfterOperation(e, env, s).procs == e.procs;
  }

  lemma RemovalWorks(e: Entry, env: Env, s: Step)
    requires OperationStep(s) && OperationEnabled(e, env, s)
    requires s.DiscardTeardown? || s.DiscardRemove? || s.DeleteTeardown? || s.DeleteRemove?
    ensures Work(AfterOperation(e, env, s)) < Work(e)
  {
    assert AfterOperation(e, env, s).procs == e.procs;
  }

  lemma ReturnWorks(e: Entry, pid: Pid)
    requires pid in e.procs && e.procs[pid].waiters > 0
    ensures Work(WaiterReturned(e, pid)) < Work(e)
  {
    ProcessUpdate(e, pid, WaiterReturned(e, pid).procs[pid]);
  }

  lemma StartWorks(e: Entry, env: Env, s: Step)
    requires EntryOK(e, env) && OperationStep(s) && OperationEnabled(e, env, s) && (s.Spawn? || s.Publish?)
    ensures Work(AfterOperation(e, env, s)) < Work(e)
  {
    if s.Spawn? {
      SpawnWorks(e, env, s.pid);
    } else {
      PublishWorks(e, env);
    }
  }

  /** Every internal step uses up work. */
  lemma OperationWorks(e: Entry, env: Env, s: Step)
    requires EntryOK(e, env) && OperationStep(s) && OperationEnabled(e, env, s) && Internal(e, s)
    ensures Work(AfterOperation(e, env, s)) < Work(e)
  {
    if s.Spawn? || s.Publish? {
      StartWorks(e, env, s);
    } else if s.StopReturn? {
      ReturnWorks(e, s.pid);
    } else if s.DiscardTeardown? || s.DiscardRemove? || s.DeleteTeardown? || s.DeleteRemove? {
      RemovalWorks(e, env, s);
    } else {
      StartLockWorks(e, env, s);
    }
  }

  lemma ProcessWorks(e: Entry, env: Env, s: Step)
    requires EntryOK(e, env) && !OperationStep(s) && SupervisionEnabled(e, env, s) && Internal(e, s)
    requires s.Exit? || s.OnExit? || s.CloseDone? || s.SupervisorReturn?
    ensures Work(AfterSupervision(e, env, s)) < Work(e)
  {
    var pid := s.pid;
    ProcessUpdate(e, pid, AfterSupervision(e, env, s).procs[pid]);
  }

  lemma VisitWorks(e: Entry, env: Env)
    requires EntryOK(e, env) && e.visit.Queued? && e.op.Nobody?
    ensures Work(VisitStarted(e, env)) < Work(e)
  {
    if Stoppable(e) {
      ProcessUpdate(e, e.proc.value, StopMarked(e, 0).procs[e.proc.value]);
    }
  }

  lemma SupervisionWorks(e: Entry, env: Env, s: Step)
    requires EntryOK(e, env) && !OperationStep(s) && SupervisionEnabled(e, env, s) && Internal(e, s)
    ensures Work(AfterSupervision(e, env, s)) < Work(e)
  {
    if s.VisitBegin? {
      VisitWorks(e, env);
    } else if !s.VisitEnd? {
      ProcessWorks(e, env, s);
    }
  }

  // ---------------------------------------------------------------- no deadlock

  /** Something of this entry waits to go on. */
  predicate Busy(e: Entry) {
    || !e.op.Nobody? || e.launchPending || e.handoffPending || e.visit.Queued? || e.visit.InVisit?
    || exists p :: p in e.procs && e.procs[p].waiters > 0
  }

  /** The supervisor returned without closing `done`. */
  predicate Abandoned(e: Entry, pid: Pid) {
    pid in e.procs && e.procs[pid].supervisor.Abandoned?
  }

  /** When Close stops the VMs, only the process of a late launch is ever abandoned. */
  lemma AbandonedOnlyLate(e: Entry, env: Env, pid: Pid)
    requires EntryOK(e, env) && !env.detach && Abandoned(e, pid)
    ensures e.late
  {
    assert ProcessOK(pid, e.procs[pid], e.proc, e.op);
  }

  lemma NothingAbandoned(e: Entry, env: Env)
    requires EntryOK(e, env) && !env.detach && !e.late
    ensures forall pid :: !Abandoned(e, pid)
  {
    forall pid ensures !Abandoned(e, pid) {
      if Abandoned(e, pid) {
        AbandonedOnlyLate(e, env, pid);
      }
    }
  }

  /** A killed process that is neither done nor abandoned has a step of its own that needs no operation lock. */
  lemma KilledProcessMoves(e: Entry, env: Env, pid: Pid) returns (s: Step)
    requires EntryOK(e, env) && !Abandoned(e, pid)
    requires pid in e.procs && e.procs[pid].killed && !Done(e, pid)
    ensures Enabled(e, env, s) && Internal(e, s)
    ensures s == Exit(pid, 0) || s == OnExit(pid) || s == CloseDone(pid)
  {
    var p := e.procs[pid];
    assert ProcessOK(pid, p, e.proc, e.op);
    if p.supervisor.Settled? {
      s := CloseDone(pid);
    } else if p.exit.None? {
      s := Exit(pid, 0);
    } else {
      s := OnExit(pid);
    }
  }

  /** The process the holder of the operation lock waits for. */
  function AwaitedBy(op: Holder): Option<Pid> {
    match op
    case ByDelete(awaits) => awaits
    case ByVisit(p) => Some(p)
    case _ => None
  }

  /** A step of the holder itself, or of the process it waits for. */
  predicate MovesHolder(e: Entry, s: Step) {
    Internal(e, s) &&
    match s
    case Provision(_) => true
    case Spawn(_) => true
    case SpawnFail => true
    case StartAbort => true
    case Publish => true
    case DiscardTeardown => true
    case DiscardRemove => true
    case DeleteTeardown => true
    case DeleteRemove => true
    case VisitEnd => true
    case Exit(pid, _) => AwaitedBy(e.op) == Some(pid)
    case OnExit(pid) => AwaitedBy(e.op) == Some(pid)
    case CloseDone(pid) => AwaitedBy(e.op) == Some(pid)
    case _ => false
  }

  predicate HolderStuck(e: Entry) {
    AwaitedBy(e.op).Some? && Abandoned(e, AwaitedBy(e.op).value)
  }

  /** The holder of the operation lock can go on, or the process it waits for can. */
  lemma HolderMoves(e: Entry, env: Env) returns (s: Step)
    requires EntryOK(e, env) && !e.op.Nobody? && !HolderStuck(e)
    ensures Enabled(e, env, s) && MovesHolder(e, s)
  {
    match e.op {
      case ByLaunch(spawned) => s := if spawned.Some? then Publish else SpawnFail;
      case ByDiscard(torn) => s := if torn then DiscardRemove else DiscardTeardown;
      case ByBoot(_, spawned) => s := if spawned.Some? then Publish else SpawnFail;
      case ByDelete(awaits) =>
        if awaits.Some? && !Done(e, awaits.value) {
          s := KilledProcessMoves(e, env, awaits.value);
        } else {
          s := DeleteTeardown;
        }
      case ByRemove => s := DeleteRemove;
      case ByVisit(p) =>
        if Done(e, p) {
          s := VisitEnd;
        } else {
          s := KilledProcessMoves(e, env, p);
        }
    }
  }

  lemma StuckHolderStays(e: Entry, env: Env, s: Step)
    requires HolderStuck(e) && Enabled(e, env, s)
    ensures !MovesHolder(e, s)
  {
  }

  /** In every mode, the holder of an operation lock can go on exactly when it does not wait for an abandoned process. */
  lemma HolderMovesIff(e: Entry, env: Env)
    requires EntryOK(e, env) && !e.op.Nobody?
    ensures (exists s :: Enabled(e, env, s) && MovesHolder(e, s)) <==> !HolderStuck(e)
  {
    if HolderStuck(e) {
      forall s | Enabled(e, env, s) ensures !MovesHolder(e, s) {
        StuckHolderStays(e, env, s);
      }
    } else {
      var s := HolderMoves(e, env);
    }
  }

  /** A step of the Stop that waits for the process to end, or of the process. */
  predicate MovesWaiter(e: Entry, pid: Pid, s: Step) {
    Internal(e, s) && (s == StopReturn(pid) || (s.Exit? && s.pid == pid) || s == OnExit(pid) || s == CloseDone(pid))
  }

  lemma WaiterMoves(e: Entry, env: Env, pid: Pid) returns (s: Step)
    requires EntryOK(e, env) && pid in e.procs && e.procs[pid].waiters > 0 && !Abandoned(e, pid)
    ensures Enabled(e, env, s) && MovesWaiter(e, pid, s)
  {
    assert ProcessOK(pid, e.procs[pid], e.proc, e.op);
    if Done(e, pid) {
      s := StopReturn(pid);
    } else {
      s := KilledProcessMoves(e, env, pid);
    }
  }

  /** In every mode, a Stop that waits for a process can go on exactly when that process is not abandoned. */
  lemma WaiterMovesIff(e: Entry, env: Env, pid: Pid)
    requires EntryOK(e, env) && pid in e.procs && e.procs[pid].waiters > 0
    ensures (exists s :: Enabled(e, env, s) && MovesWaiter(e, pid, s)) <==> !Abandoned(e, pid)
  {
    if !Abandoned(e, pid) {
      var s := WaiterMoves(e, env, pid);
    }
  }

  /**
   * In every mode no entry is deadlocked unless a process of it is abandoned: whoever holds the operation
   * lock, waits for it, or waits for a process to end, some internal step of that entry is enabled.
   */
  lemma NoDeadlock(e: Entry, env: Env) returns (s: Step)
    requires EntryOK(e, env) && Busy(e) && forall pid :: !Abandoned(e, pid)
    ensures Enabled(e, env, s) && Internal(e, s)
  {
    if !e.op.Nobody? {
      s := HolderMoves(e, env);
    } else if e.launchPending {
      s := LaunchLock;
    } else if e.handoffPending {
      s := HandoffBegin;
    } else if e.visit.Queued? {
      s := VisitBegin;
    } else {
      var p :| p in e.procs && e.procs[p].waiters > 0;
      s := WaiterMoves(e, env, p);
    }
  }

  // ---------------------------------------------------------------- the whole service

  predicate InternalAction(s: Service, a: Action) {
    a.Cancel? || (a.At? && a.id in s.entries && Internal(s.entries[a.id], a.step))
  }

  ghost function ServiceWork(s: Service): nat {
    Total(s.entries, Work) + if s.env.cancelled then 0 else 1
  }

  lemma InternalActionWorks(s: Service, a: Action)
    requires ServiceOK(s) && Possible(s, a) && InternalAction(s, a)
    ensures ServiceWork(Next(s, a)) < ServiceWork(s)
  {
    if a.At? {
      var e := s.entries[a.id];
      if OperationStep(a.step) {
        OperationWorks(e, s.env, a.step);
      } else {
        SupervisionWorks(e, s.env, a.step);
      }
      TotalUpdate(s.entries, Work, a.id, After(e, s.env, a.step));
    }
  }

  lemma WorksAt(r: Run, i: nat)
    requires IsRun(r) && i < |r.actions| && InternalAction(r.states[i], r.actions[i])
    ensures ServiceWork(r.states[i + 1]) < ServiceWork(r.states[i])
  {
    EveryStateOK(r, i);
    assert StepAt(r, i);
    InternalActionWorks(r.states[i], r.actions[i]);
  }

  /** However they are scheduled, internal steps come to an end: there are no more of them than work left. */
  lemma {:induction false} InternalRunsEnd(r: Run, i: nat, j: nat)
    requires IsRun(r) && i <= j < |r.states|
    requires forall k :: i <= k < j ==> InternalAction(r.states[k], r.actions[k])
    ensures j - i + ServiceWork(r.states[j]) <= ServiceWork(r.states[i])
  {
    if i < j {
      InternalRunsEnd(r, i, j - 1);
      WorksAt(r, j - 1);
    }
  }

  ghost predicate Quiet(s: Service) {
    forall a :: InternalAction(s, a) ==> !Possible(s, a)
  }

  lemma QuietEntry(s: Service, id: Id)
    requires ServiceOK(s) && !s.env.detach && Quiet(s) && id in s.entries && !s.entries[id].late
    ensures !Busy(s.entries[id])
  {
    var e := s.entries[id];
    forall step | Internal(e, step) ensures !Enabled(e, s.env, step) {
      assert InternalAction(s, At(id, step));
    }
    if Busy(e) {
      NothingAbandoned(e, s.env);
      var step := NoDeadlock(e, s.env);
    }
  }

  lemma QuietProcesses(s: Service, id: Id)
    requires Quiet(s) && s.env.cancelled && id in s.entries
    ensures NoSupervisor(s.entries[id].procs)
  {
    var e := s.entries[id];
    forall p | p in e.procs ensures !e.procs[p].supervisor.Watching? && !e.procs[p].supervisor.Settled? {
      assert InternalAction(s, At(id, SupervisorReturn(p))) && InternalAction(s, At(id, CloseDone(p)));
      assert !Possible(s, At(id, SupervisorReturn(p))) && !Possible(s, At(id, CloseDone(p)));
    }
  }

  lemma QuietIsCancelled(s: Service)
    requires Quiet(s) && s.env.closing
    requires forall id :: id in s.entries ==> !Busy(s.entries[id])
    ensures s.env.cancelled
  {
    assert InternalAction(s, Cancel);
    assert !Possible(s, Cancel);
  }

  /**
   * When Close stops the VMs and no internal step is left, stopAll has returned and nothing waits:
   * together with the bound on internal steps, Close always completes.
   */
  lemma CloseCompletes(r: Run, i: nat)
    requires IsRun(r) && i < |r.states|
    requires r.states[i].env.closing && !r.states[i].env.detach && Quiet(r.states[i])
    requires forall id :: id in r.states[i].entries ==> !r.states[i].entries[id].late
    ensures StopAllReturned(r.states[i])
    ensures forall id :: id in r.states[i].entries ==> !Busy(r.states[i].entries[id])
  {
    EveryStateOK(r, i);
    var s := r.states[i];
    forall id | id in s.entries ensures !Busy(s.entries[id]) {
      QuietEntry(s, id);
    }
    QuietIsCancelled(s);
    forall id | id in s.entries ensures NoSupervisor(s.entries[id].procs) {
      QuietProcesses(s, id);
    }
  }

  /** No reachable state is deadlocked: before, during and after Close, stopping the VMs or leaving them to run. */
  lemma NoReachableDeadlock(r: Run, i: nat, id: Id) returns (s: Step)
    requires IsRun(r) && i < |r.states| && id in r.states[i].entries && Busy(r.states[i].entries[id])
    requires forall pid :: !Abandoned(r.states[i].entries[id], pid)
    ensures Possible(r.states[i], At(id, s)) && Internal(r.states[i].entries[id], s)
  {
    EveryStateOK(r, i);
    s := NoDeadlock(r.states[i].entries[id], r.states[i].env);
  }
}
