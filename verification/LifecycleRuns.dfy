/** Theorems about every run of the lifecycle: all interleavings of requests, guests, exits, Close, crash and reload. */
module LifecycleRuns {
  import opened Common
  import opened Lifecycle
  import opened LifecycleInvariant
  import Cid

  // ---------------------------------------------------------------- the service invariant

  ghost predicate ServiceOK(s: Service) {
    && (forall id :: id in s.entries ==> EntryOK(s.entries[id], s.env))
    && (forall id :: id in s.pending ==> RecordOK(s.pending[id]))
    && s.entries.Keys !! s.pending.Keys
    && (s.env.closing ==> s.pending == map[])
    && (s.env.cancelled ==> s.env.closing)
  }

  lemma NewEntryOK(s: Service, required: bool, base: nat)
    requires !s.env.closing && !s.env.cancelled
    ensures EntryOK(NewEntry(s, required, base), s.env)
  {
  }

  /** A record from disk comes back as a consistent entry, whether or not its process is found again. */
  lemma LoadedOK(d: Record, attached: bool, env: Env)
    requires RecordOK(d) && !env.closing && !env.cancelled
    ensures EntryOK(Loaded(d, attached), env)
  {
    if d.state.Creating? || d.state.Deleting? || !Live(d.state) {
      SettledRecordOK(Loaded(d, attached).rec, env);
    } else if attached && d.processes.Some? {
      ReattachedOK(d, env);
    } else {
      SettledRecordOK(d.(state := Stopped, processes := None), env);
    }
  }

  lemma SettledRecordOK(d: Record, env: Env)
    requires RecordOK(d) && (d.state.Stopped? || d.state.Failed?) && !env.closing && !env.cancelled
    ensures EntryOK(Entry(d, Some(d), true, None, map[], Nobody, false, false, Unvisited, false), env)
  {
  }

  lemma ReattachedOK(d: Record, env: Env)
    requires RecordOK(d) && Live(d.state) && d.processes.Some? && !env.closing && !env.cancelled
    ensures EntryOK(Loaded(d, true), env)
  {
  }

  lemma CollectedOK(e: Entry, env: Env)
    requires EntryOK(e, env) && !env.closing && !env.cancelled
    ensures EntryOK(Collected(e), env.(closing := true))
  {
  }

  lemma CancelledOK(e: Entry, env: Env)
    requires EntryOK(e, env) && env.closing && !e.visit.Queued? && !e.visit.InVisit?
    ensures EntryOK(e, env.(cancelled := true))
  {
  }

  lemma EntryUpdateOK(s: Service, id: Id, e: Entry, generation: nat)
    requires ServiceOK(s) && id in s.entries && EntryOK(e, s.env)
    ensures ServiceOK(s.(entries := s.entries[id := e], generation := generation))
  {
  }

  lemma CrashOK(s: Service)
    requires ServiceOK(s)
    ensures ServiceOK(Next(s, Crash))
  {
    forall id | id in OnDisk(s) ensures RecordOK(OnDisk(s)[id]) {
      if id in s.entries {
        assert EntryOK(s.entries[id], s.env);
      }
    }
  }

  lemma CloseOK(s: Service, a: Action)
    requires ServiceOK(s) && Possible(s, a) && (a.CloseBegin? || a.Cancel?)
    ensures ServiceOK(Next(s, a))
  {
    forall id | id in s.entries ensures EntryOK(Next(s, a).entries[id], Next(s, a).env) {
      if a.CloseBegin? {
        CollectedOK(s.entries[id], s.env);
      } else {
        CancelledOK(s.entries[id], s.env);
      }
    }
  }

  lemma AtOK(s: Service, id: Id, step: Step)
    requires ServiceOK(s) && Possible(s, At(id, step))
    ensures ServiceOK(Next(s, At(id, step)))
  {
    StepKeepsEntry(s.entries[id], s.env, step);
    EntryUpdateOK(s, id, After(s.entries[id], s.env, step), Next(s, At(id, step)).generation);
  }

  lemma ReassignOK(s: Service, id: Id)
    requires ServiceOK(s) && Possible(s, ReassignCid(id))
    ensures ServiceOK(Next(s, ReassignCid(id)))
  {
    var e := s.entries[id];
    var r := e.rec.(cid := Cid.FreeCid(HeldCids(s), e.rec.cid + 1));
    RecordFrameOK(e, s.env, r);
    EntryUpdateOK(s, id, WithRecord(e, r), s.generation);
  }

  lemma InsertOK(s: Service, id: Id, e: Entry, pending: map<Id, Record>)
    requires ServiceOK(s) && id !in s.entries && EntryOK(e, s.env) && pending == s.pending - {id}
    ensures ServiceOK(s.(entries := s.entries[id := e], pending := pending))
  {
  }

  lemma NextKeepsService(s: Service, a: Action)
    requires ServiceOK(s) && Possible(s, a)
    ensures ServiceOK(Next(s, a))
  {
    match a {
      case Allocate(id, required, base) =>
        NewEntryOK(s, required, base);
        InsertOK(s, id, NewEntry(s, required, base), s.pending);
      case ReassignCid(id) => ReassignOK(s, id);
      case At(id, step) => AtOK(s, id, step);
      case CloseBegin => CloseOK(s, a);
      case Cancel => CloseOK(s, a);
      case Crash => CrashOK(s);
      case LoadEntry(id, attached) =>
        LoadedOK(s.pending[id], attached, s.env);
        InsertOK(s, id, Loaded(s.pending[id], attached), s.pending - {id});
    }
  }

  /** Everything an action other than a crash can do to one entry. */
  lemma EntryCases(s: Service, a: Action, id: Id)
    requires Possible(s, a) && !a.Crash? && id in s.entries
    ensures id in Next(s, a).entries
    ensures var e, e' := s.entries[id], Next(s, a).entries[id];
            || e' == e
            || (a.At? && a.id == id && e' == After(e, s.env, a.step))
            || (a == ReassignCid(id) && e' == WithRecord(e, e.rec.(cid := Cid.FreeCid(HeldCids(s), e.rec.cid + 1))))
            || (a.CloseBegin? && e' == Collected(e))
  {
  }

  /** Every state of every run satisfies the invariant. */
  lemma {:induction false} EveryStateOK(r: Run, i: nat)
    requires IsRun(r) && i < |r.states|
    ensures ServiceOK(r.states[i])
  {
    if i == 0 {
      assert r.states[0].entries == map[];
    } else {
      EveryStateOK(r, i - 1);
      assert StepAt(r, i - 1);
      NextKeepsService(r.states[i - 1], r.actions[i - 1]);
    }
  }

  // ---------------------------------------------------------------- record and process

  /** The process the entry points to, if any. */
  function Current(e: Entry): (p: Option<Process>) {
    if e.proc.Some? && e.proc.value in e.procs then Some(e.procs[e.proc.value]) else None
  }

  /**
   * The state table of the package documentation, for every interleaving: which states have a
   * process, of which phase, and what the record says about installation, boot and attestation.
   */
  lemma RecordAndProcessAgree(r: Run, i: nat, id: Id)
    requires IsRun(r) && i < |r.states| && id in r.states[i].entries
    ensures var e := r.states[i].entries[id];
            var p := Current(e);
            && (e.rec.state in {Booting, Attesting, State.Ready, Running} ==>
                  p.Some? && p.value.phase == BootPhase && e.rec.installedAt && e.rec.bootedAt)
            && (e.rec.state == Stopping ==> p.Some? && p.value.killed)
            && (e.rec.state == Creating || e.rec.state == Stopped || e.rec.state == Failed ==> e.proc.None?)
            && (e.rec.state == Installing ==>
                  if p.Some? then p.value.phase == InstallPhase && !e.rec.installedAt
                  else e.rec.installedAt && HandoffComing(e))
            && (e.rec.state == Attesting ==> e.rec.requireAttestation && e.rec.attestation.nonceIssued)
            && (e.rec.state == State.Ready ==> e.rec.booted && e.rec.readyAt)
            && (e.proc.Some? ==> e.rec.processes == e.proc)
  {
    EveryStateOK(r, i);
  }

  /** At most one QEMU process of an entry runs at any time, of those this vm-manager started or reattached to. */
  lemma AtMostOneProcess(r: Run, i: nat, id: Id, p: Pid, q: Pid)
    requires IsRun(r) && i < |r.states| && id in r.states[i].entries
    requires p in r.states[i].entries[id].procs && r.states[i].entries[id].procs[p].exit.None?
    requires q in r.states[i].entries[id].procs && r.states[i].entries[id].procs[q].exit.None?
    ensures p == q
  {
    EveryStateOK(r, i);
    var e := r.states[i].entries[id];
    assert ProcessOK(p, e.procs[p], e.proc, e.op) && ProcessOK(q, e.procs[q], e.proc, e.op);
    assert HolderOK(e.op, e.rec, e.proc, e.procs);
  }

  // ---------------------------------------------------------------- no start once Delete or Close is done

  /**
   * A process is started for a VM that Delete or Close is done with only after a late launch, and a
   * launch starts one for such a VM exactly when it was late: when it took the operation lock
   * only after Delete had the record or Close had visited the entry.
   */
  lemma StartOfGoneVmIffLate(r: Run, i: nat, id: Id, pid: Pid)
    requires IsRun(r) && i < |r.actions| && StepAt(r, i) && r.actions[i] == At(id, Spawn(pid))
    ensures Gone(r.states[i].entries[id]) ==> r.states[i].entries[id].late
    ensures r.states[i].entries[id].op.ByLaunch? ==>
              (Gone(r.states[i].entries[id]) <==> r.states[i].entries[id].late)
  {
    EveryStateOK(r, i);
    assert EntryOK(r.states[i].entries[id], r.states[i].env);
  }

  /** What no step undoes. */
  predicate Stays(e: Entry, e': Entry, closing: bool) {
    && (e.late ==> e'.late)
    && (closing && !e.op.ByBoot? ==> !e'.op.ByBoot?)
    && (e.rec.state == Deleting && !e.late ==> e'.rec.state == Deleting)
    && (e.rec.installedAt ==> e'.rec.installedAt)
    && (e.rec.booted ==> e'.rec.booted)
    && e'.rec.requireAttestation == e.rec.requireAttestation
    && (e.rec.ip.Some? ==> e'.rec.ip == e.rec.ip)
    && (e'.inMap ==> e.inMap)
  }

  lemma StartStays(e: Entry, env: Env, s: Step)
    requires EntryOK(e, env) && OperationStep(s) && OperationEnabled(e, env, s)
    requires s.LaunchLock? || s.Spawn? || s.SpawnFail? || s.Publish? || s.StartBegin? || s.HandoffBegin?
    ensures Stays(e, AfterOperation(e, env, s), env.closing)
  {
  }

  lemma EndStays(e: Entry, env: Env, s: Step)
    requires OperationStep(s) && OperationEnabled(e, env, s)
    requires !s.LaunchLock? && !s.Spawn? && !s.SpawnFail? && !s.Publish? && !s.StartBegin? && !s.HandoffBegin?
    ensures Stays(e, AfterOperation(e, env, s), env.closing)
  {
  }

  lemma OperationStays(e: Entry, env: Env, s: Step)
    requires EntryOK(e, env) && OperationStep(s) && OperationEnabled(e, env, s)
    ensures Stays(e, AfterOperation(e, env, s), env.closing)
  {
    if s.LaunchLock? || s.Spawn? || s.SpawnFail? || s.Publish? || s.StartBegin? || s.HandoffBegin? {
      StartStays(e, env, s);
    } else {
      EndStays(e, env, s);
    }
  }

  lemma ProcessStays(e: Entry, env: Env, s: Step)
    requires !OperationStep(s) && SupervisionEnabled(e, env, s)
    requires (s.Exit? || s.OnExit? || s.CloseDone? || s.SupervisorReturn?)
    ensures Stays(e, AfterSupervision(e, env, s), env.closing)
  {
  }

  lemma GuestStays(e: Entry, env: Env, s: Step)
    requires !OperationStep(s) && SupervisionEnabled(e, env, s)
    requires (s.OnTimeout? || s.OnNotify? || s.OnNonce? || s.RecordQuote?)
    ensures Stays(e, AfterSupervision(e, env, s), env.closing)
  {
  }

  lemma SupervisionStays(e: Entry, env: Env, s: Step)
    requires !OperationStep(s) && SupervisionEnabled(e, env, s)
    ensures Stays(e, AfterSupervision(e, env, s), env.closing)
  {
    if s.Exit? || s.OnExit? || s.CloseDone? || s.SupervisorReturn? {
      ProcessStays(e, env, s);
    } else if !s.VisitBegin? && !s.VisitEnd? {
      GuestStays(e, env, s);
    }
  }

  lemma ActionStays(s: Service, a: Action, id: Id)
    requires ServiceOK(s) && Possible(s, a) && !a.Crash? && id in s.entries
    ensures id in Next(s, a).entries
    ensures Stays(s.entries[id], Next(s, a).entries[id], s.env.closing)
    ensures s.env.closing ==> Next(s, a).env.closing
  {
    EntryCases(s, a, id);
    if a.At? && a.id == id {
      if OperationStep(a.step) {
        OperationStays(s.entries[id], s.env, a.step);
      } else {
        SupervisionStays(s.entries[id], s.env, a.step);
      }
    }
  }

  lemma StepLate(e: Entry, env: Env, s: Step)
    requires Enabled(e, env, s) && After(e, env, s).late && !e.late
    ensures s.LaunchLock? && (e.rec.state == Deleting || e.visit.Visited?)
  {
  }

  lemma LateOnlyByLaunchLock(s: Service, a: Action, id: Id)
    requires Possible(s, a) && id in Next(s, a).entries && Next(s, a).entries[id].late
    ensures id in s.entries
    ensures !s.entries[id].late ==>
              a == At(id, LaunchLock) && (s.entries[id].rec.state == Deleting || s.entries[id].visit.Visited?)
  {
    if id in s.entries && !a.Crash? {
      EntryCases(s, a, id);
      if a.At? && a.id == id && !s.entries[id].late {
        StepLate(s.entries[id], s.env, a.step);
      }
    }
  }

  /** A late entry has, in its past, a launch that was overtaken. */
  lemma {:induction false} LateMeansOvertaken(r: Run, i: nat, id: Id) returns (k: nat)
    requires IsRun(r) && i < |r.states| && id in r.states[i].entries && r.states[i].entries[id].late
    ensures k < i && r.actions[k] == At(id, LaunchLock) && id in r.states[k].entries
    ensures r.states[k].entries[id].rec.state == Deleting || r.states[k].entries[id].visit.Visited?
  {
    assert r.states[0].entries == map[];
    assert StepAt(r, i - 1);
    LateOnlyByLaunchLock(r.states[i - 1], r.actions[i - 1], id);
    if r.states[i - 1].entries[id].late {
      k := LateMeansOvertaken(r, i - 1, id);
    } else {
      k := i - 1;
    }
  }

  ghost predicate NoCrash(r: Run, i: nat, j: nat)
    requires i <= j <= |r.actions|
  {
    forall k :: i <= k < j ==> !r.actions[k].Crash?
  }

  lemma StaysAt(r: Run, i: nat, id: Id)
    requires IsRun(r) && i < |r.actions| && !r.actions[i].Crash? && id in r.states[i].entries
    ensures id in r.states[i + 1].entries && (r.states[i].env.closing ==> r.states[i + 1].env.closing)
    ensures Stays(r.states[i].entries[id], r.states[i + 1].entries[id], r.states[i].env.closing)
  {
    EveryStateOK(r, i);
    assert StepAt(r, i);
    ActionStays(r.states[i], r.actions[i], id);
  }

  /** Once Close has begun, neither Start nor the hand-off begins another boot of any VM. */
  lemma {:induction false} NoBootBeginsAfterClose(r: Run, i: nat, j: nat, id: Id)
    requires IsRun(r) && i <= j < |r.states| && NoCrash(r, i, j) && id in r.states[i].entries
    requires r.states[i].env.closing && !r.states[i].entries[id].op.ByBoot?
    ensures r.states[j].env.closing && id in r.states[j].entries && !r.states[j].entries[id].op.ByBoot?
  {
    if i < j {
      NoBootBeginsAfterClose(r, i, j - 1, id);
      StaysAt(r, j - 1, id);
    }
  }

  /** Neither Start nor a hand-off ever boots a VM whose record is deleting. */
  lemma DeletingNeverBoots(r: Run, i: nat, id: Id)
    requires IsRun(r) && i < |r.states| && id in r.states[i].entries && r.states[i].entries[id].rec.state == Deleting
    ensures !r.states[i].entries[id].op.ByBoot?
  {
    EveryStateOK(r, i);
    assert EntryOK(r.states[i].entries[id], r.states[i].env);
  }

  /**
   * Once a record is deleting it stays so, and no launch is in flight, unless that launch was late. Start and the
   * hand-off have no such escape: they boot only what a late launch has made of the VM since.
   */
  lemma {:induction false} DeletingIsFinal(r: Run, i: nat, j: nat, id: Id)
    requires IsRun(r) && i <= j < |r.states| && NoCrash(r, i, j) && id in r.states[i].entries
    requires r.states[i].entries[id].rec.state == Deleting
    ensures id in r.states[j].entries
    ensures var e := r.states[j].entries[id];
            && (e.late || (e.rec.state == Deleting && !e.op.ByLaunch?))
            && (e.op.ByBoot? ==> e.late && e.rec.state != Deleting)
  {
    if i < j {
      DeletingIsFinal(r, i, j - 1, id);
      StaysAt(r, j - 1, id);
    }
    EveryStateOK(r, j);
    if r.states[j].entries[id].rec.state == Deleting {
      DeletingNeverBoots(r, j, id);
    }
    if !r.states[j].entries[id].late {
      DeletingHasNoStart(r.states[j].entries[id], r.states[j].env);
    }
  }

  lemma DeletingHasNoStart(e: Entry, env: Env)
    requires EntryOK(e, env) && e.rec.state == Deleting && !e.late
    ensures !e.op.ByLaunch? && !e.op.ByBoot?
  {
  }

  // ---------------------------------------------------------------- stopAll

  /** stopAll has returned: every visit is over, the context is cancelled and every supervisor is gone. */
  predicate StopAllReturned(s: Service) {
    && s.env.cancelled && !s.env.detach
    && forall id :: id in s.entries ==>
         && !s.entries[id].handoffPending
         && !(s.entries[id].op.ByBoot? && s.entries[id].op.handoff)
         && NoSupervisor(s.entries[id].procs)
  }

  predicate NoSupervisor(procs: map<Pid, Process>) {
    forall p :: p in procs ==> !procs[p].supervisor.Watching? && !procs[p].supervisor.Settled?
  }

  /**
   * After stopAll no VM without a late launch has a process, none is left in a live state, and one
   * that finished installing can be started by the next vm-manager: an overtaken hand-off is left startable.
   */
  lemma StopAllSettles(r: Run, i: nat, id: Id)
    requires IsRun(r) && i < |r.states| && id in r.states[i].entries
    requires StopAllReturned(r.states[i]) && !r.states[i].entries[id].late
    ensures var e := r.states[i].entries[id];
            && e.proc.None?
            && (forall p :: p in e.procs ==> e.procs[p].exit.Some?)
            && !Live(e.rec.state)
            && (e.rec.installedAt && e.rec.state != Deleting && e.disk.Some? ==>
                  Startable(Loaded(e.disk.value, false), Env(false, false, false)))
  {
    EveryStateOK(r, i);
    var e, env := r.states[i].entries[id], r.states[i].env;
    assert EntryOK(e, env);
    assert e.proc.None?;
    forall p | p in e.procs ensures e.procs[p].exit.Some? {
      assert ProcessOK(p, e.procs[p], e.proc, e.op);
    }
  }

  // ---------------------------------------------------------------- crash and reload

  /** What vm-manager knows about a VM: the record in memory, or the one still to be loaded. */
  function RecordOf(s: Service, id: Id): Option<Record> {
    if id in s.entries then Some(s.entries[id].rec)
    else if id in s.pending then Some(s.pending[id])
    else None
  }

  /**
   * A crash hands exactly the records in memory to the next vm-manager, but for those Delete or a failed
   * Create removed.
   */
  lemma CrashKeepsRecords(r: Run, i: nat, id: Id)
    requires IsRun(r) && i < |r.actions| && r.actions[i].Crash? && id in r.states[i].entries
    ensures var e := r.states[i].entries[id];
            && (e.disk.Some? ==> RecordOf(r.states[i + 1], id) == Some(e.rec))
            && (e.disk.None? ==> RecordOf(r.states[i + 1], id) == None)
            && (e.inMap && !e.op.ByRemove? && !e.op.ByDiscard? && !e.late ==> e.disk.Some?)
  {
    EveryStateOK(r, i);
    assert StepAt(r, i);
    assert EntryOK(r.states[i].entries[id], r.states[i].env);
  }

  /**
   * What a stored record comes back as: no VM stays creating or deleting; a VM recorded live is either
   * reattached to the very process its record names or stopped without handles; installation,
   * first boot and attestation are kept.
   */
  predicate Settles(d: Record, attached: bool, e: Entry) {
    && e.rec.state != Creating && e.rec.state != Deleting
    && e.inMap && e.disk == Some(e.rec)
    && e.rec.installedAt == d.installedAt && e.rec.booted == d.booted && e.rec.attestation == d.attestation
    && e.rec.requireAttestation == d.requireAttestation
    && (d.state in {Creating, Deleting} ==> e.rec == d.(state := Failed) && e.proc.None?)
    && (d.state in {Stopped, Failed} ==> e.rec == d && e.proc.None?)
    && (d.state in {Installing, Booting, Attesting, State.Ready, Running, Stopping} ==>
          if attached && d.processes.Some?
          then e.rec == d && e.proc == d.processes && Watched(e, d.processes.value) && e.procs.Keys == {d.processes.value}
               && (e.procs[d.processes.value].killed <==> d.state == Stopping)
          else e.rec == d.(state := Stopped, processes := None) && e.proc.None?)
  }

  lemma LoadedRecord(d: Record, attached: bool)
    requires RecordOK(d)
    ensures Settles(d, attached, Loaded(d, attached))
  {
  }

  /** Reload settles every record, and every entry satisfies the whole lifecycle invariant again. */
  lemma ReloadSettles(r: Run, i: nat, id: Id, attached: bool)
    requires IsRun(r) && i < |r.actions| && StepAt(r, i) && r.actions[i] == LoadEntry(id, attached)
    ensures Settles(r.states[i].pending[id], attached, r.states[i + 1].entries[id])
    ensures EntryOK(r.states[i + 1].entries[id], r.states[i + 1].env)
  {
    EveryStateOK(r, i + 1);
    LoadedAt(r, i, id, attached);
  }

  lemma LoadedAt(r: Run, i: nat, id: Id, attached: bool)
    requires IsRun(r) && i < |r.actions| && StepAt(r, i) && r.actions[i] == LoadEntry(id, attached)
    ensures Settles(r.states[i].pending[id], attached, r.states[i + 1].entries[id])
  {
    EveryStateOK(r, i);
    LoadedRecord(r.states[i].pending[id], attached);
  }

  lemma ActionKeepsProgress(s: Service, a: Action, id: Id)
    requires ServiceOK(s) && Possible(s, a)
    requires RecordOf(s, id).Some? && RecordOf(Next(s, a), id).Some?
    ensures Progress(RecordOf(s, id).value, RecordOf(Next(s, a), id).value)
  {
    if id in s.entries {
      if a.Crash? {
        assert EntryOK(s.entries[id], s.env);
      } else {
        ActionStays(s, a, id);
      }
    } else if a == LoadEntry(id, true) || a == LoadEntry(id, false) {
      LoadedRecord(s.pending[id], a.attached);
    }
  }

  /** What a VM never loses. */
  predicate Progress(d: Record, d': Record) {
    && (d.installedAt ==> d'.installedAt) && (d.booted ==> d'.booted)
    && d'.requireAttestation == d.requireAttestation
    && (d.ip.Some? ==> d'.ip == d.ip)
  }

  lemma StepKeepsProgress(r: Run, i: nat, id: Id)
    requires IsRun(r) && i < |r.actions|
    requires RecordOf(r.states[i], id).Some? && RecordOf(r.states[i + 1], id).Some?
    ensures Progress(RecordOf(r.states[i], id).value, RecordOf(r.states[i + 1], id).value)
  {
    EveryStateOK(r, i);
    assert StepAt(r, i);
    ActionKeepsProgress(r.states[i], r.actions[i], id);
  }

  /** Across steps, crashes and reloads, a VM that stays known never loses InstalledAt, Booted or its address. */
  lemma {:induction false} InstallationNeverLost(r: Run, i: nat, j: nat, id: Id)
    requires IsRun(r) && i <= j < |r.states|
    requires forall k :: i <= k <= j ==> RecordOf(r.states[k], id).Some?
    ensures Progress(RecordOf(r.states[i], id).value, RecordOf(r.states[j], id).value)
  {
    if i < j {
      InstallationNeverLost(r, i, j - 1, id);
      StepKeepsProgress(r, j - 1, id);
    }
  }
}
