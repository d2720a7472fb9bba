/** What the critical sections of internal/vm leave behind, in terms a caller can use. */
module VmOutcomes {
  import opened Common
  import opened Lifecycle
  import opened LifecycleInvariant
  import Waits = LifecycleWaits

  /** No process of the VM runs but this one. */
  predicate OnlyRuns(e: Entry, proc: Option<Pid>) {
    forall p :: p in e.procs && e.procs[p].exit.None? ==> proc == Some(p)
  }

  predicate Stored(e: Entry) {
    e.disk == Some(e.rec)
  }

  /** Nothing of the VM runs, and its record says so. */
  predicate AtRest(e: Entry) {
    e.proc.None? && OnlyRuns(e, None) && !Live(e.rec.state) && Stored(e)
  }

  /** The process is the VM's only one, and is supervised. */
  predicate RunsAs(e: Entry, pid: Pid, phase: Phase) {
    e.proc == Some(pid) && Watched(e, pid) && e.procs[pid].phase == phase && OnlyRuns(e, Some(pid)) && Stored(e)
  }

  lemma RunsOnlyCurrent(e: Entry, env: Env)
    requires EntryOK(e, env) && Spawned(e.op).None?
    ensures OnlyRuns(e, e.proc)
  {
    forall p | p in e.procs && e.procs[p].exit.None? ensures e.proc == Some(p) {
      assert ProcessOK(p, e.procs[p], e.proc, e.op);
    }
  }

  // ---------------------------------------------------------------- creating

  /** A VM as allocate leaves it: stored as creating, unprovisioned, locked, and required to attest as asked. */
  predicate FreshVm(e: Entry, required: bool, cid: nat) {
    && e.inMap && e.rec.state == Creating && e.rec.cid == cid && Stored(e)
    && e.rec.requireAttestation == required && e.rec.attestation.required == required && !e.rec.attestation.released
    && e.rec.attestation.initrd.None? && e.rec.attestation.ready.None? && !e.rec.attestation.nonceIssued
    && e.rec.ip.None? && e.rec.phase.None? && e.rec.processes.None?
    && !e.rec.installedAt && !e.rec.bootedAt && !e.rec.readyAt && !e.rec.booted
    && e.proc.None? && e.procs == map[] && e.op.Nobody? && e.launchPending
  }

  // ---------------------------------------------------------------- starting

  /** What a start leaves as it was: address, CID, requirement, installation and whether the VM was ever ready. */
  predicate SameVm(e: Entry, f: Entry) {
    && f.rec.ip == e.rec.ip && f.rec.cid == e.rec.cid && f.rec.requireAttestation == e.rec.requireAttestation
    && f.rec.installedAt == e.rec.installedAt && f.rec.booted == e.rec.booted && f.inMap == e.inMap
  }

  /** The installer runs alone and nothing is installed yet. */
  predicate InstallsAlone(e: Entry, pid: Pid) {
    RunsAs(e, pid, InstallPhase) && e.rec.state == Installing && !e.rec.installedAt && e.op.Nobody?
  }

  lemma LaunchInstalls(e: Entry, env: Env)
    requires EntryOK(e, env) && Enabled(e, env, Publish) && e.op.ByLaunch?
    ensures InstallsAlone(After(e, env, Publish), Spawned(e.op).value)
    ensures SameVm(e, After(e, env, Publish))
  {
    PublishedOK(e, env);
    RunsOnlyCurrent(Published(e), env);
  }

  /** The installed system boots alone, with nothing of an earlier boot: no verdicts, not ready, user-data locked again. */
  predicate BootsAfresh(e: Entry, pid: Pid) {
    && RunsAs(e, pid, BootPhase) && e.rec.state == Booting && e.rec.installedAt && e.op.Nobody?
    && (e.rec.attestation.released <==> !e.rec.requireAttestation)
    && e.rec.attestation.initrd.None? && e.rec.attestation.ready.None? && !e.rec.attestation.nonceIssued
    && Waits.Reached(Waits.WaitReady, e.rec) == Waits.Waiting
    && (e.rec.requireAttestation ==> Waits.Reached(Waits.WaitAttested, e.rec) == Waits.Waiting)
  }

  lemma BootIsFresh(e: Entry, env: Env)
    requires EntryOK(e, env) && Enabled(e, env, Publish) && e.op.ByBoot?
    ensures BootsAfresh(After(e, env, Publish), Spawned(e.op).value)
    ensures SameVm(e, After(e, env, Publish)) && After(e, env, Publish).rec.bootedAt
  {
    PublishedOK(e, env);
    RunsOnlyCurrent(Published(e), env);
  }

  /** A boot that did not start leaves the VM failed, at rest and startable again unless Close has begun. */
  lemma FailedBootIsStartable(e: Entry, env: Env)
    requires EntryOK(e, env) && Enabled(e, env, SpawnFail) && e.op.ByBoot?
    ensures var f := After(e, env, SpawnFail);
            AtRest(f) && f.rec == e.rec.(state := Failed) && (Startable(f, env) <==> !env.closing)
  {
    StartFailedOK(e, env);
    RunsOnlyCurrent(StartFailed(e), env);
  }

  /** A launch that fails is undone: its directory goes, then the VM leaves the map, and nothing of it runs. */
  lemma FailedLaunchIsUndone(e: Entry, env: Env)
    requires EntryOK(e, env) && Enabled(e, env, SpawnFail) && e.op.ByLaunch?
    ensures var f := After(e, env, SpawnFail);
            && Enabled(f, env, DiscardTeardown)
            && Enabled(After(f, env, DiscardTeardown), env, DiscardRemove)
            && var g := After(After(f, env, DiscardTeardown), env, DiscardRemove);
               !g.inMap && g.disk.None? && g.op.Nobody? && g.proc.None? && OnlyRuns(g, None)
  {
    RunsOnlyCurrent(e, env);
  }

  /**
   * The hand-off boots a VM that finished installing and has no process, unless Close has begun: then the VM is left
   * stopped, and startable by the next vm-manager. A VM that was deleted or started meanwhile is left alone.
   */
  predicate HandsOff(e: Entry, f: Entry, closing: bool) {
    if e.rec.state == Installing && e.proc.None? && !closing
    then f.rec == e.rec && f.op == ByBoot(true, None) && e.rec.installedAt && OnlyRuns(f, None)
    else if e.rec.state == Installing && e.proc.None?
    then f.rec == e.rec.(state := Stopped) && f.op.Nobody? && AtRest(f) && e.rec.installedAt
    else f.rec == e.rec && f.op.Nobody? && f.disk == e.disk
  }

  lemma HandoffMeans(e: Entry, env: Env)
    requires EntryOK(e, env) && Enabled(e, env, HandoffBegin)
    ensures HandsOff(e, HandedOff(e, env), env.closing)
  {
    RunsOnlyCurrent(e, env);
  }

  // ---------------------------------------------------------------- supervisors

  predicate InstalledBy(rec: Record, p: Process, code: int) {
    Installed(rec, p.(exit := Some(code)))
  }

  /**
   * A time-out touches neither the process nor what was reached: no VM goes on booting or attesting, and
   * an installer that was too slow is killed and counts as failed however it exits.
   */
  ghost predicate OutOfTime(e: Entry, f: Entry, pid: Pid) {
    && f.rec == e.rec.(state := f.rec.state) && f.proc == e.proc && pid in f.procs
    && !f.rec.state.Booting? && !f.rec.state.Attesting?
    && (f.rec.state != e.rec.state ==> f.rec.state == Running && Stored(f))
    && (e.rec.state.Booting? || e.rec.state.Attesting? <==> f.rec.state != e.rec.state)
    && (if e.rec.state == Installing then f.procs[pid].killed else f.procs == e.procs)
    && forall code :: !InstalledBy(f.rec, f.procs[pid], code)
  }

  lemma TimeoutEndsPhase(e: Entry, env: Env, pid: Pid)
    requires EntryOK(e, env) && Watched(e, pid)
    ensures OutOfTime(e, TimedOut(e, pid), pid)
  {
    assert ProcessOK(pid, e.procs[pid], e.proc, e.op);
  }

  /** READY=1 of a system that is up reaches the ready milestone; any other message leaves the record alone. */
  predicate Notices(e: Entry, f: Entry, ready: bool) {
    && f.proc == e.proc && f.procs == e.procs && f.rec.attestation == e.rec.attestation && Stored(f)
    && (if ready && e.rec.state in {Booting, Attesting, State.Ready, Running}
        then f.rec == e.rec.(state := State.Ready, readyAt := true, booted := true)
        else f.rec == e.rec)
  }

  lemma NotifyIsNoticed(e: Entry, env: Env, ready: bool)
    requires EntryOK(e, env)
    ensures Notices(e, WithRecord(e, Notified(e.rec, ready)), ready)
  {
  }

  /**
   * A process that exits leaves the VM at rest, unless it was an installer that succeeded in time while the VM was
   * installing: then the VM is installed and its first boot is coming.
   */
  predicate ExitLeaves(e: Entry, f: Entry, p: Process, installed: bool) {
    && f.proc.None? && OnlyRuns(f, None) && Stored(f) && f.rec.processes.None?
    && (installed <==> p.phase == InstallPhase && e.rec.state == Installing && p.exit == Some(0) && !p.timedOut)
    && (if installed then f.rec.state == Installing && f.rec.installedAt && HandoffComing(f) else AtRest(f))
    && (e.rec.state == Deleting ==> f.rec.state == Deleting) && (e.rec.state == Stopping ==> f.rec.state == Stopped)
    && (e.rec.state != Deleting && e.rec.state != Stopping && !installed ==>
          if p.exit == Some(0) && !(p.phase == InstallPhase && e.rec.state == Installing)
          then f.rec.state == Stopped else f.rec.state == Failed)
    && f.rec == e.rec.(state := f.rec.state, processes := None, installedAt := e.rec.installedAt || installed)
  }

  lemma ExitSettles(e: Entry, env: Env, pid: Pid)
    requires EntryOK(e, env) && Watched(e, pid) && e.procs[pid].exit.Some?
    ensures ExitLeaves(e, ExitSettled(e, pid), e.procs[pid], Installed(e.rec, e.procs[pid]))
  {
    var f := ExitSettled(e, pid);
    assert ProcessOK(pid, e.procs[pid], e.proc, e.op);
    ExitSettledOK(e, env, pid);
    RunsOnlyCurrent(f, env);
  }

  // ---------------------------------------------------------------- stopping and deleting

  /** The VM's process has been asked to end, and the record says so. */
  predicate Stops(e: Entry, pid: Pid) {
    e.rec.state == Stopping && e.proc == Some(pid) && pid in e.procs && e.procs[pid].killed && Stored(e)
  }

  /** Nobody finds the VM by an address. */
  ghost predicate Unreachable(s: Service, id: Id) {
    forall ip :: !Resolves(s, ip, id)
  }

  /** The VM is being deleted, and its process, if it has one, killed. */
  predicate GoesAway(e: Entry, f: Entry) {
    && f.rec == e.rec.(state := Deleting) && f.proc == e.proc && f.op == ByDelete(e.proc) && Stored(f)
    && (f.proc.Some? ==> f.proc.value in f.procs && f.procs[f.proc.value].killed)
  }

  lemma DeleteGoes(e: Entry, env: Env)
    requires EntryOK(e, env) && Enabled(e, env, DeleteBegin)
    ensures GoesAway(e, DeleteMarked(e))
  {
  }

  /** A removed VM has no process left. */
  lemma RemovedRunsNothing(e: Entry, env: Env)
    requires EntryOK(e, env) && Enabled(e, env, DeleteRemove)
    ensures var f := After(e, env, DeleteRemove);
            !f.inMap && f.proc.None? && OnlyRuns(f, None) && f.disk == e.disk
  {
    RunsOnlyCurrent(e, env);
  }

  /** Close's visit leaves a VM without a process, or with one that is being stopped while it waits. */
  predicate VisitLeaves(f: Entry) {
    if f.visit.Visited? then f.proc.None? && OnlyRuns(f, None)
    else f.visit.InVisit? && f.op.ByVisit? && Stops(f, f.op.visits)
  }

  lemma VisitStopsAll(e: Entry, env: Env)
    requires EntryOK(e, env) && Enabled(e, env, VisitBegin) && !env.detach && !e.late
    ensures VisitLeaves(VisitStarted(e, env))
  {
    RunsOnlyCurrent(e, env);
  }

  // ---------------------------------------------------------------- guests

  /** A nonce is noted and no more: user-data stays as it is, and only a booting VM that must attest is now attesting. */
  predicate NonceNoted(e: Entry, f: Entry) {
    && f.rec.attestation == e.rec.attestation.(nonceIssued := true) && f.proc == e.proc && Stored(f)
    && f.rec == e.rec.(attestation := f.rec.attestation, state := f.rec.state)
    && (if e.rec.requireAttestation && e.rec.state == Booting then f.rec.state == Attesting
        else f.rec.state == e.rec.state)
  }

  lemma NonceIsNoted(e: Entry, env: Env)
    requires EntryOK(e, env)
    ensures NonceNoted(e, WithRecord(e, NonceIssued(e.rec)))
  {
  }

  /** A verdict never locks user-data again, releases it only when it is a verified initrd-stage one, and moves nothing. */
  predicate VerdictNoted(e: Entry, f: Entry, stage: Stage, quote: Quote) {
    && (f.rec.attestation.released <==> e.rec.attestation.released || (quote.verified && stage == InitrdStage))
    && f.rec == e.rec.(attestation := f.rec.attestation) && f.proc == e.proc && Stored(f)
    && (if stage == InitrdStage
        then f.rec.attestation.initrd == Some(quote) && f.rec.attestation.ready == e.rec.attestation.ready
        else f.rec.attestation.ready == Some(quote) && f.rec.attestation.initrd == e.rec.attestation.initrd)
    && f.rec.attestation.required == e.rec.attestation.required
    && f.rec.attestation.nonceIssued == e.rec.attestation.nonceIssued
  }
}
