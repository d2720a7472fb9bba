/** What every step of the lifecycle keeps, for one entry and for the whole service. */
module LifecycleInvariant {
  import opened Common
  import opened Lifecycle

  // ---------------------------------------------------------------- records

  /** Facts about a record alone; they also hold of every record on disk. */
  predicate RecordOK(r: Record) {
    && (Up(r.state) ==>
          r.processes.Some? && r.phase == Some(BootPhase) && r.installedAt && r.bootedAt)
    && (r.state == Stopping ==> r.processes.Some? && r.phase.Some?)
    && (r.state == Installing ==>
          && !r.bootedAt
          && (r.processes.Some? <==> !r.installedAt)
          && r.phase == Some(InstallPhase))
    && (r.state.Creating? || r.state.Stopped? ==> r.processes.None?)
    && (r.state == Creating ==> !r.installedAt)
    && (r.state == Attesting ==> r.attestation.required && r.attestation.nonceIssued)
    && (r.state == State.Ready ==> r.booted && r.readyAt)
    && (Up(r.state) && !r.state.Ready? ==> !r.readyAt)
    && (r.booted ==> r.bootedAt)
    && (r.readyAt ==> r.bootedAt)
    && (r.bootedAt ==> r.installedAt)
    && r.attestation.required == r.requireAttestation
    && (r.bootedAt && !r.requireAttestation ==> r.attestation.released)
  }

  /** No process belongs to these states. */
  predicate Idle(s: State) {
    s.Creating? || s.Stopped? || s.Failed?
  }

  /** A supervisor owns the process, or gave it up when the service context ended. */
  predicate Supervised(p: Process) {
    p.supervisor.Watching? || p.supervisor.Abandoned?
  }

  /** Record and process agree. */
  predicate Agreement(r: Record, proc: Option<Pid>, procs: map<Pid, Process>) {
    && RecordOK(r)
    && (Live(r.state) ==> r.processes == proc)
    && (Idle(r.state) ==> proc.None?)
    && (proc.Some? ==> r.processes == proc && proc.value in procs && r.phase == Some(procs[proc.value].phase))
    && (r.state == Stopping ==> proc.Some? && proc.value in procs && procs[proc.value].killed)
  }

  /** An installer has finished and its supervisor is about to close `done`. */
  predicate InstallerSettled(procs: map<Pid, Process>) {
    exists p :: p in procs && procs[p].supervisor == Settled(true)
  }

  lemma SettledUpdate(procs: map<Pid, Process>, pid: Pid, p: Process)
    requires pid in procs ==> procs[pid].supervisor != Settled(true) || p.supervisor == Settled(true)
    ensures InstallerSettled(procs) ==> InstallerSettled(procs[pid := p])
    ensures p.supervisor == Settled(true) ==> InstallerSettled(procs[pid := p])
  {
    if q :| q in procs && procs[q].supervisor == Settled(true) {
      assert procs[pid := p][q].supervisor == Settled(true);
    }
    assert procs[pid := p][pid] == p;
  }

  /** The installed boot of a finished installer is still to come. */
  predicate HandoffComing(e: Entry) {
    e.handoffPending || (e.op.ByBoot? && e.op.handoff) || InstallerSettled(e.procs)
  }

  // ---------------------------------------------------------------- processes

  predicate ProcessOK(pid: Pid, p: Process, proc: Option<Pid>, op: Holder) {
    && (Supervised(p) <==> proc == Some(pid))
    && (p.supervisor.Starting? <==> Spawned(op) == Some(pid))
    && (p.supervisor.Starting? ==> p.phase == (if op.ByLaunch? then InstallPhase else BootPhase) && !p.killed)
    && (p.exit.None? ==> Supervised(p) || p.supervisor.Starting?)
    && (p.waiters > 0 ==> p.killed)
  }

  predicate ProcessTable(proc: Option<Pid>, procs: map<Pid, Process>, op: Holder) {
    && (proc.Some? ==> proc.value in procs)
    && (Spawned(op).Some? ==> Spawned(op).value in procs)
    && forall p :: p in procs ==> ProcessOK(p, procs[p], proc, op)
  }

  /** A process whose end the holder of the operation lock waits for. */
  predicate Awaited(pid: Pid, proc: Option<Pid>, procs: map<Pid, Process>) {
    && (proc.Some? ==> proc.value == pid)
    && pid in procs && procs[pid].killed && !procs[pid].supervisor.Starting?
  }

  /** What the holder of the operation lock may rely on. */
  predicate HolderOK(op: Holder, r: Record, proc: Option<Pid>, procs: map<Pid, Process>) {
    match op
    case Nobody => true
    case ByLaunch(_) => proc.None? && !r.installedAt && r.processes.None? && (r.state.Creating? || r.state.Deleting?)
    case ByDiscard(_) => proc.None? && (r.state.Creating? || r.state.Deleting?)
    case ByBoot(_, _) => proc.None? && r.installedAt && (r.state.Stopped? || r.state.Failed? || r.state.Installing?)
    case ByDelete(awaits) =>
      r.state == Deleting && (if awaits.Some? then Awaited(awaits.value, proc, procs) else proc.None?)
    case ByRemove => proc.None? && r.state == Deleting
    case ByVisit(p) => Awaited(p, proc, procs) && (r.state.Stopping? || r.state.Stopped?)
  }

  predicate LaunchOK(e: Entry) {
    e.launchPending ==>
      && !e.op.ByLaunch? && !e.op.ByDiscard?
      && e.procs == map[] && (e.rec.state.Creating? || e.rec.state.Deleting?) && !e.rec.installedAt && e.rec.processes.None?
  }

  predicate StoredOK(e: Entry) {
    && (e.disk.Some? ==> e.disk.value == e.rec)
    && (e.disk.None? ==> e.op == ByDiscard(true) || e.op.ByRemove? || !e.inMap || e.late)
  }

  /** An installing VM without a process has its installed boot coming. */
  predicate InstallingOK(e: Entry) {
    e.rec.state == Installing && e.proc.None? ==> HandoffComing(e)
  }

  // ---------------------------------------------------------------- Delete and Close

  /** Delete or Close is done with this VM. */
  predicate Gone(e: Entry) {
    !e.inMap || e.visit.Visited? || (e.rec.state == Deleting && !e.op.ByDelete?)
  }

  predicate NoneAbandoned(procs: map<Pid, Process>, cancelled: bool) {
    forall p :: p in procs && procs[p].supervisor.Abandoned? ==> cancelled
  }

  /** Close's bookkeeping. */
  predicate VisitOK(visit: Visit, op: Holder, inMap: bool, env: Env) {
    && (visit.InVisit? <==> op.ByVisit?)
    && (visit != Unvisited ==> env.closing)
    && (env.closing && inMap ==> visit != Unvisited)
    && (env.cancelled ==> env.closing && !visit.Queued? && !visit.InVisit?)
    && (env.detach ==> !op.ByVisit?)
  }

  /** Without a late launch, a VM that Delete or Close is done with stays without a start in flight. */
  predicate GoneOK(e: Entry, env: Env) {
    && (Gone(e) ==> !e.op.ByLaunch? && !e.op.ByBoot?)
    && (!e.inMap ==> e.op.Nobody? && e.proc.None? && (e.rec.state.Creating? || e.rec.state.Deleting?))
    && (!e.inMap && e.rec.state == Creating ==> !e.launchPending)
    && (e.rec.state == Deleting && !e.op.ByDelete? ==> e.proc.None? && (e.op.ByRemove? || !e.inMap))
    && (e.visit.Visited? && !env.detach ==> e.proc.None?)
  }

  predicate LateOK(e: Entry) {
    !e.launchPending && (e.op.ByLaunch? ==> e.visit.Visited? || e.rec.state == Deleting)
  }

  ghost predicate EntryOK(e: Entry, env: Env) {
    && Agreement(e.rec, e.proc, e.procs)
    && ProcessTable(e.proc, e.procs, e.op)
    && HolderOK(e.op, e.rec, e.proc, e.procs)
    && LaunchOK(e)
    && StoredOK(e)
    && InstallingOK(e)
    && VisitOK(e.visit, e.op, e.inMap, env)
    && NoneAbandoned(e.procs, env.cancelled)
    && (if e.late then LateOK(e) else GoneOK(e, env))
  }

  // ---------------------------------------------------------------- preservation, entry by entry

  /** A step that leaves everything the invariant couples to other fields alone. */
  lemma RecordFrameOK(e: Entry, env: Env, r: Record)
    requires EntryOK(e, env) && RecordOK(r)
    requires r.state == e.rec.state && r.processes == e.rec.processes
    requires r.phase == e.rec.phase && r.installedAt == e.rec.installedAt
    ensures EntryOK(WithRecord(e, r), env)
  {
    assert HolderOK(e.op, r, e.proc, e.procs);
    assert InstallingOK(WithRecord(e, r));
  }

  /** A step that only moves the record of a running installed system between its states. */
  lemma UpOK(e: Entry, env: Env, r: Record)
    requires EntryOK(e, env) && RecordOK(r)
    requires Up(e.rec.state) && Up(r.state)
    requires r.processes == e.rec.processes && r.phase == e.rec.phase
    ensures EntryOK(WithRecord(e, r), env)
  {
  }

  /** What may happen to a process without its supervisor: it is marked to be killed, or exits. */
  predicate Ages(p: Process, q: Process) {
    && q.phase == p.phase && q.supervisor == p.supervisor && (p.killed ==> q.killed)
    && (q.supervisor.Starting? ==> !q.killed) && (q.waiters > 0 ==> q.killed) && (p.exit.Some? ==> q.exit.Some?)
  }

  lemma AgedTable(proc: Option<Pid>, procs: map<Pid, Process>, op: Holder, pid: Pid, q: Process)
    requires ProcessTable(proc, procs, op) && pid in procs && Ages(procs[pid], q)
    ensures ProcessTable(proc, procs[pid := q], op)
  {
    var aged := procs[pid := q];
    forall p | p in aged ensures ProcessOK(p, aged[p], proc, op) {
      assert ProcessOK(p, procs[p], proc, op);
    }
  }

  lemma AgedHolder(op: Holder, r: Record, proc: Option<Pid>, procs: map<Pid, Process>, pid: Pid, q: Process)
    requires HolderOK(op, r, proc, procs) && pid in procs && Ages(procs[pid], q)
    ensures HolderOK(op, r, proc, procs[pid := q])
  {
  }

  /** A step that only marks one process to be killed, or lets it exit. */
  lemma KilledOK(e: Entry, env: Env, pid: Pid, f: Entry)
    requires EntryOK(e, env) && pid in e.procs && pid in f.procs && f == e.(procs := e.procs[pid := f.procs[pid]])
    requires Ages(e.procs[pid], f.procs[pid])
    ensures EntryOK(f, env)
  {
    SettledUpdate(e.procs, pid, f.procs[pid]);
    AgedTable(e.proc, e.procs, e.op, pid, f.procs[pid]);
    AgedHolder(e.op, e.rec, e.proc, e.procs, pid, f.procs[pid]);
    assert Agreement(f.rec, f.proc, f.procs);
  }

  lemma LaunchLockedOK(e: Entry, env: Env)
    requires EntryOK(e, env) && Enabled(e, env, LaunchLock)
    ensures EntryOK(LaunchLocked(e), env)
  {
  }

  lemma ProvisionedOK(e: Entry, env: Env, ip: string)
    requires EntryOK(e, env) && e.op == ByLaunch(None)
    ensures EntryOK(WithRecord(e, e.rec.(ip := Some(ip))), env)
  {
    RecordFrameOK(e, env, e.rec.(ip := Some(ip)));
  }

  lemma SpawnedOK(e: Entry, env: Env, pid: Pid)
    requires EntryOK(e, env) && StartOpen(e.op) && pid !in e.procs
    ensures EntryOK(SpawnedAt(e, pid), env)
  {
    SettledUpdate(e.procs, pid, SpawnedAt(e, pid).procs[pid]);
  }

  lemma StartFailedOK(e: Entry, env: Env)
    requires EntryOK(e, env) && StartOpen(e.op)
    ensures EntryOK(StartFailed(e), env)
  {
    var f := StartFailed(e);
  }

  lemma PublishedOK(e: Entry, env: Env)
    requires EntryOK(e, env) && Enabled(e, env, Publish)
    ensures EntryOK(Published(e), env)
  {
    var f := Published(e);
    SettledUpdate(e.procs, Spawned(e.op).value, f.procs[Spawned(e.op).value]);
  }

  lemma DiscardedOK(e: Entry, env: Env)
    requires EntryOK(e, env) && e.op.ByDiscard?
    ensures EntryOK(if e.op.torn then e.(inMap := false, op := Nobody) else e.(disk := None, op := ByDiscard(true)), env)
  {
  }

  lemma StartLockOK(e: Entry, env: Env)
    requires EntryOK(e, env) && e.op.Nobody? && Startable(e, env)
    ensures EntryOK(e.(op := ByBoot(false, None)), env)
  {
  }

  lemma StartAbortOK(e: Entry, env: Env)
    requires EntryOK(e, env) && e.op == ByBoot(false, None)
    ensures EntryOK(e.(op := Nobody), env)
  {
  }

  lemma HandedOffOK(e: Entry, env: Env)
    requires EntryOK(e, env) && e.handoffPending && e.op.Nobody?
    ensures EntryOK(HandedOff(e, env), env)
  {
    if e.rec.state == Installing && e.proc.None? {
      assert HolderOK(HandedOff(e, env).op, HandedOff(e, env).rec, e.proc, e.procs);
    } else {
      assert InstallingOK(e.(handoffPending := false));
    }
  }

  lemma StopMarkedOK(e: Entry, env: Env)
    requires EntryOK(e, env) && Stoppable(e)
    ensures EntryOK(StopMarked(e, 1), env)
  {
    SettledUpdate(e.procs, e.proc.value, StopMarked(e, 1).procs[e.proc.value]);
  }

  lemma WaiterReturnedOK(e: Entry, env: Env, pid: Pid)
    requires EntryOK(e, env) && pid in e.procs && e.procs[pid].waiters > 0
    ensures EntryOK(WaiterReturned(e, pid), env)
  {
    KilledOK(e, env, pid, WaiterReturned(e, pid));
  }

  lemma DeleteIdleOK(e: Entry, env: Env)
    requires EntryOK(e, env) && Enabled(e, env, DeleteBegin) && e.proc.None?
    ensures EntryOK(DeleteMarked(e), env)
  {
  }

  lemma DeleteRunningOK(e: Entry, env: Env)
    requires EntryOK(e, env) && Enabled(e, env, DeleteBegin) && e.proc.Some?
    ensures EntryOK(DeleteMarked(e), env)
  {
    SettledUpdate(e.procs, e.proc.value, DeleteMarked(e).procs[e.proc.value]);
    assert LaunchOK(DeleteMarked(e));
  }

  lemma DeleteFinishedOK(e: Entry, env: Env)
    requires EntryOK(e, env) && Enabled(e, env, DeleteTeardown)
    ensures EntryOK(e.(disk := None, op := ByRemove), env)
  {
  }

  lemma RemovedOK(e: Entry, env: Env)
    requires EntryOK(e, env) && e.op.ByRemove?
    ensures EntryOK(e.(inMap := false, op := Nobody), env)
  {
  }

  lemma ExitedOK(e: Entry, env: Env, pid: Pid, code: int)
    requires EntryOK(e, env) && pid in e.procs
    ensures EntryOK(Exited(e, pid, code), env)
  {
    KilledOK(e, env, pid, Exited(e, pid, code));
  }

  /** What an installer leaves while it installs. */
  lemma InstallerSettledOK(e: Entry, env: Env, pid: Pid)
    requires EntryOK(e, env) && Watched(e, pid) && e.procs[pid].exit.Some? && e.rec.state == Installing
    ensures EntryOK(ExitSettled(e, pid), env)
  {
    var f := ExitSettled(e, pid);
    assert ProcessOK(pid, e.procs[pid], e.proc, e.op);
    SettledUpdate(e.procs, pid, f.procs[pid]);
  }

  lemma OtherSettledOK(e: Entry, env: Env, pid: Pid)
    requires EntryOK(e, env) && Watched(e, pid) && e.procs[pid].exit.Some? && e.rec.state != Installing
    ensures EntryOK(ExitSettled(e, pid), env)
  {
    var f := ExitSettled(e, pid);
    assert ProcessOK(pid, e.procs[pid], e.proc, e.op);
    assert f.rec.state.Deleting? || f.rec.state.Stopped? || f.rec.state.Failed?;
  }

  lemma ExitSettledOK(e: Entry, env: Env, pid: Pid)
    requires EntryOK(e, env) && Watched(e, pid) && e.procs[pid].exit.Some?
    ensures EntryOK(ExitSettled(e, pid), env)
  {
    if e.rec.state == Installing {
      InstallerSettledOK(e, env, pid);
    } else {
      OtherSettledOK(e, env, pid);
    }
  }

  lemma DoneClosedOK(e: Entry, env: Env, pid: Pid)
    requires EntryOK(e, env) && pid in e.procs && e.procs[pid].supervisor.Settled?
    ensures EntryOK(DoneClosed(e, pid), env)
  {
    var f := DoneClosed(e, pid);
    if !e.procs[pid].supervisor.handoff {
      SettledUpdate(e.procs, pid, f.procs[pid]);
    }
  }

  lemma TimedOutOK(e: Entry, env: Env, pid: Pid)
    requires EntryOK(e, env) && Watched(e, pid)
    ensures EntryOK(TimedOut(e, pid), env)
  {
    if e.procs[pid].phase == InstallPhase && e.rec.state == Installing {
      KilledOK(e, env, pid, TimedOut(e, pid));
    } else if e.procs[pid].phase == BootPhase && (e.rec.state.Booting? || e.rec.state.Attesting?) {
      UpOK(e, env, e.rec.(state := Running));
    }
  }

  lemma NotifiedOK(e: Entry, env: Env, pid: Pid, ready: bool)
    requires EntryOK(e, env) && Watched(e, pid) && e.procs[pid].phase.BootPhase?
    ensures EntryOK(WithRecord(e, Notified(e.rec, ready)), env)
  {
    if Up(e.rec.state) {
      UpOK(e, env, Notified(e.rec, ready));
    } else {
      RecordFrameOK(e, env, e.rec);
    }
  }

  lemma NonceIssuedOK(e: Entry, env: Env)
    requires EntryOK(e, env) && e.inMap
    ensures EntryOK(WithRecord(e, NonceIssued(e.rec)), env)
  {
    if Up(e.rec.state) {
      UpOK(e, env, NonceIssued(e.rec));
    } else {
      RecordFrameOK(e, env, NonceIssued(e.rec));
    }
  }

  lemma QuoteRecordedOK(e: Entry, env: Env, stage: Stage, q: Quote)
    requires EntryOK(e, env) && e.inMap
    ensures EntryOK(WithRecord(e, QuoteRecorded(e.rec, stage, q)), env)
  {
    RecordFrameOK(e, env, QuoteRecorded(e.rec, stage, q));
  }

  lemma VisitStartedOK(e: Entry, env: Env)
    requires EntryOK(e, env) && e.visit.Queued? && e.op.Nobody?
    ensures EntryOK(VisitStarted(e, env), env)
  {
    var f := VisitStarted(e, env);
    if Stoppable(e) {
      SettledUpdate(e.procs, e.proc.value, StopMarked(e, 0).procs[e.proc.value]);
    }
  }

  lemma VisitEndedOK(e: Entry, env: Env)
    requires EntryOK(e, env) && Enabled(e, env, VisitEnd)
    ensures EntryOK(e.(visit := Visited, op := Nobody), env)
  {
  }

  lemma AbandonedOK(e: Entry, env: Env, pid: Pid)
    requires EntryOK(e, env) && env.cancelled && Watched(e, pid)
    ensures EntryOK(Supervise(e, pid, Abandoned), env)
  {
    SettledUpdate(e.procs, pid, Supervise(e, pid, Abandoned).procs[pid]);
  }

  lemma OperationKeepsEntry(e: Entry, env: Env, s: Step)
    requires EntryOK(e, env) && OperationStep(s) && OperationEnabled(e, env, s)
    ensures EntryOK(AfterOperation(e, env, s), env)
  {
    match s {
      case LaunchLock => LaunchLockedOK(e, env);
      case Provision(ip) => ProvisionedOK(e, env, ip);
      case Spawn(pid) => SpawnedOK(e, env, pid);
      case SpawnFail => StartFailedOK(e, env);
      case StartAbort => StartAbortOK(e, env);
      case Publish => PublishedOK(e, env);
      case DiscardTeardown => DiscardedOK(e, env);
      case DiscardRemove => DiscardedOK(e, env);
      case StartBegin => StartLockOK(e, env);
      case HandoffBegin => HandedOffOK(e, env);
      case StopRequest => StopMarkedOK(e, env);
      case StopReturn(pid) => WaiterReturnedOK(e, env, pid);
      case DeleteBegin => if e.proc.Some? { DeleteRunningOK(e, env); } else { DeleteIdleOK(e, env); }
      case DeleteTeardown => DeleteFinishedOK(e, env);
      case DeleteRemove => RemovedOK(e, env);
    }
  }

  lemma SupervisionKeepsEntry(e: Entry, env: Env, s: Step)
    requires EntryOK(e, env) && !OperationStep(s) && SupervisionEnabled(e, env, s)
    ensures EntryOK(AfterSupervision(e, env, s), env)
  {
    match s {
      case Exit(pid, code) => ExitedOK(e, env, pid, code);
      case OnExit(pid) => ExitSettledOK(e, env, pid);
      case CloseDone(pid) => DoneClosedOK(e, env, pid);
      case OnTimeout(pid) => TimedOutOK(e, env, pid);
      case OnNotify(pid, ready) => NotifiedOK(e, env, pid, ready);
      case OnNonce => NonceIssuedOK(e, env);
      case RecordQuote(stage, q) => QuoteRecordedOK(e, env, stage, q);
      case VisitBegin => VisitStartedOK(e, env);
      case VisitEnd => VisitEndedOK(e, env);
      case SupervisorReturn(pid) => AbandonedOK(e, env, pid);
    }
  }

  /** Every step of every operation keeps the entry's invariant. */
  lemma StepKeepsEntry(e: Entry, env: Env, s: Step)
    requires EntryOK(e, env) && Enabled(e, env, s)
    ensures EntryOK(After(e, env, s), env)
  {
    if OperationStep(s) {
      OperationKeepsEntry(e, env, s);
    } else {
      SupervisionKeepsEntry(e, env, s);
    }
  }

  // ---------------------------------------------------------------- CIDs

  predicate SameCid(e: Entry, e': Entry) {
    e'.rec.cid == e.rec.cid
  }

  lemma OperationKeepsCid(e: Entry, env: Env, s: Step)
    requires OperationStep(s) && OperationEnabled(e, env, s)
    ensures SameCid(e, AfterOperation(e, env, s))
  {
    match s {
      case Spawn(pid) => assert SameCid(e, SpawnedAt(e, pid));
      case SpawnFail => assert SameCid(e, StartFailed(e));
      case Publish => assert SameCid(e, Published(e));
      case HandoffBegin => assert SameCid(e, HandedOff(e, env));
      case StopRequest => assert SameCid(e, StopMarked(e, 1));
      case DeleteBegin => assert SameCid(e, DeleteMarked(e));
      case _ =>
    }
  }

  lemma SupervisionKeepsCid(e: Entry, env: Env, s: Step)
    requires !OperationStep(s) && SupervisionEnabled(e, env, s)
    ensures SameCid(e, AfterSupervision(e, env, s))
  {
    match s {
      case OnExit(pid) => assert SameCid(e, ExitSettled(e, pid));
      case CloseDone(pid) => assert SameCid(e, DoneClosed(e, pid));
      case OnTimeout(pid) => assert SameCid(e, TimedOut(e, pid));
      case VisitBegin => assert SameCid(e, VisitStarted(e, env));
      case _ =>
    }
  }

  /** No step of an entry changes its CID; only a reassignment does. */
  lemma StepKeepsCid(e: Entry, env: Env, s: Step)
    requires Enabled(e, env, s)
    ensures SameCid(e, After(e, env, s))
  {
    if OperationStep(s) {
      OperationKeepsCid(e, env, s);
    } else {
      SupervisionKeepsCid(e, env, s);
    }
  }
}
