/** Where the lifecycle does less than its documentation promises: concrete runs, and exactly when it happens. */
module LifecycleLimits {
  import opened Common
  import opened Lifecycle
  import opened LifecycleInvariant
  import opened LifecycleRuns

  ghost function Last(r: Run): Service
    requires |r.states| > 0
  {
    r.states[|r.states| - 1]
  }

  predicate RunsQemu(e: Entry) {
    Current(e).Some? && Current(e).value.exit.None?
  }

  ghost function Start(): (r: Run)
    ensures IsRun(r) && Last(r) == Init(false)
  {
    Run([Init(false)], [])
  }

  ghost function Then(r: Run, a: Action): (q: Run)
    requires IsRun(r) && Possible(Last(r), a)
    ensures IsRun(q) && |q.states| == |r.states| + 1
    ensures Last(q) == Next(Last(r), a) && q.actions == r.actions + [a]
    ensures q.states == r.states + [Last(q)]
  {
    var q := Run(r.states + [Next(Last(r), a)], r.actions + [a]);
    assert forall i :: 0 <= i < |r.actions| ==> StepAt(r, i) && StepAt(q, i);
    assert StepAt(q, |r.actions|);
    q
  }

  ghost function ThenAt(r: Run, id: Id, s: Step): (q: Run)
    requires IsRun(r) && id in Last(r).entries && Enabled(Last(r).entries[id], Last(r).env, s)
    ensures IsRun(q) && |q.states| == |r.states| + 1
    ensures q.states == r.states + [Last(q)] && q.actions == r.actions + [At(id, s)]
    ensures id in Last(q).entries && Last(q).entries[id] == After(Last(r).entries[id], Last(r).env, s)
    ensures Last(q).env == Last(r).env && Last(q).pending == Last(r).pending
    ensures Last(q).entries.Keys == Last(r).entries.Keys
  {
    Then(r, At(id, s))
  }

  lemma Created(id: Id) returns (r: Run)
    ensures IsRun(r) && |r.states| == 2 && Last(r).entries.Keys == {id}
    ensures Last(r).env == Env(false, false, false) && Last(r).pending == map[]
    ensures Last(r).entries[id] == NewEntry(Init(false), true, 3)
  {
    r := Then(Start(), Allocate(id, true, 3));
  }

  /** Provisioning and starting the installer, from a launch that holds the operation lock. */
  lemma InstallerStarts(r: Run, id: Id) returns (q: Run)
    requires IsRun(r) && id in Last(r).entries
    requires Last(r).entries[id].op == ByLaunch(None) && Last(r).entries[id].procs == map[]
    requires Last(r).entries[id].rec.ip.None?
    ensures IsRun(q) && Last(q).env == Last(r).env && id in Last(q).entries
    ensures |q.actions| > 0 && q.actions[|q.actions| - 1] == At(id, Publish)
    ensures var e, e' := Last(r).entries[id], Last(q).entries[id];
            && e'.proc == Some(0) && 0 in e'.procs && e'.op == Nobody && e'.inMap == e.inMap && e'.visit == e.visit
            && e'.procs[0] == Process(InstallPhase, None, false, false, Watching, 0)
            && e'.rec.state == Installing && e'.rec.installedAt == e.rec.installedAt && e'.disk == Some(e'.rec)
  {
    q := ThenAt(r, id, Provision("10.0.0.2"));
    q := ThenAt(q, id, Spawn(0));
    q := ThenAt(q, id, Publish);
  }

  /** Delete overtakes the launch and has removed the directory. */
  lemma TornDown() returns (r: Run)
    ensures IsRun(r) && Last(r).entries.Keys == {"a"} && Last(r).pending == map[]
    ensures var e := Last(r).entries["a"];
            && e.op == ByRemove && e.launchPending && e.inMap && e.rec.state == Deleting
            && e.procs == map[] && e.rec.ip.None? && e.proc.None?
  {
    r := Created("a");
    r := ThenAt(r, "a", DeleteBegin);
    assert Last(r).entries["a"].op == ByDelete(None);
    r := ThenAt(r, "a", DeleteTeardown);
  }

  /**
   * "Once Delete has begun for a VM, no process is started for it" fails for Create: here Delete
   * completes between allocate and launch, the installer still starts, its VM is not in the map,
   * and its record is back on disk.
   */
  lemma LaunchAfterDelete() returns (r: Run)
    ensures IsRun(r) && "a" in Last(r).entries
    ensures var e := Last(r).entries["a"];
            !e.inMap && RunsQemu(e) && e.disk.Some?
  {
    r := TornDown();
    r := ThenAt(r, "a", DeleteRemove);
    r := ThenAt(r, "a", LaunchLock);
    r := InstallerStarts(r, "a");
  }

  /** Close has visited the VM and stopAll has returned, with the launch still to come. */
  lemma ClosedBeforeLaunch() returns (r: Run)
    ensures IsRun(r) && "a" in Last(r).entries && StopAllReturned(Last(r))
    ensures Last(r).env == Env(true, true, false)
    ensures var e := Last(r).entries["a"];
            e.launchPending && e.op == Nobody && e.procs == map[] && e.rec.ip.None? && e.inMap
  {
    r := Created("a");
    r := Then(r, CloseBegin);
    r := ThenAt(r, "a", VisitBegin);
    r := Then(r, Cancel);
  }

  /** The same for Close: stopAll has already returned when the installer starts. */
  lemma LaunchAfterClose() returns (r: Run, i: nat)
    ensures IsRun(r) && i < |r.states| && StopAllReturned(r.states[i])
    ensures "a" in Last(r).entries && RunsQemu(Last(r).entries["a"])
  {
    r := ClosedBeforeLaunch();
    i := |r.states| - 1;
    r := ThenAt(r, "a", LaunchLock);
    r := Extended(r, i);
  }

  lemma Extended(r: Run, i: nat) returns (q: Run)
    requires IsRun(r) && i < |r.states| && StopAllReturned(r.states[i])
    requires "a" in Last(r).entries && Last(r).entries["a"].op == ByLaunch(None)
    requires Last(r).entries["a"].procs == map[] && Last(r).entries["a"].rec.ip.None?
    ensures IsRun(q) && i < |q.states| && StopAllReturned(q.states[i])
    ensures "a" in Last(q).entries && RunsQemu(Last(q).entries["a"])
  {
    q := ThenAt(r, "a", Provision("10.0.0.2"));
    q := ThenAt(q, "a", Spawn(0));
    q := ThenAt(q, "a", Publish);
  }

  // ---------------------------------------------------------------- a Delete that never ends

  /** A Delete waits for a process whose supervisor has returned. */
  predicate WaitsInVain(e: Entry, pid: Pid) {
    e.op == ByDelete(Some(pid)) && pid in e.procs && e.procs[pid].supervisor.Abandoned?
  }

  /**
   * After stopAll has returned, a late launch is supervised only until its supervisor sees the
   * cancelled context; a Delete of that VM then waits for a channel nobody closes.
   */
  lemma DeleteAfterLateLaunch() returns (r: Run)
    ensures IsRun(r) && "a" in Last(r).entries && !Last(r).env.detach && WaitsInVain(Last(r).entries["a"], 0)
  {
    r := LateInstallerRunning();
    r := ThenAt(r, "a", SupervisorReturn(0));
    r := ThenAt(r, "a", DeleteBegin);
  }

  lemma LateInstallerRunning() returns (r: Run)
    ensures IsRun(r) && "a" in Last(r).entries && Last(r).env == Env(true, true, false)
    ensures var e := Last(r).entries["a"];
            && e.proc == Some(0) && 0 in e.procs && e.op == Nobody && e.inMap && e.rec.state == Installing
            && e.procs[0] == Process(InstallPhase, None, false, false, Watching, 0)
  {
    r := ClosedBeforeLaunch();
    r := ThenAt(r, "a", LaunchLock);
    r := InstallerStarts(r, "a");
  }

  lemma VainOperation(e: Entry, env: Env, s: Step, pid: Pid)
    requires WaitsInVain(e, pid) && OperationStep(s) && OperationEnabled(e, env, s)
    ensures WaitsInVain(AfterOperation(e, env, s), pid)
  {
  }

  lemma VainSupervision(e: Entry, env: Env, s: Step, pid: Pid)
    requires WaitsInVain(e, pid) && !OperationStep(s) && SupervisionEnabled(e, env, s)
    ensures WaitsInVain(AfterSupervision(e, env, s), pid)
  {
  }

  lemma VainAction(s: Service, a: Action, id: Id, pid: Pid)
    requires Possible(s, a) && !a.Crash? && id in s.entries && WaitsInVain(s.entries[id], pid)
    ensures id in Next(s, a).entries && WaitsInVain(Next(s, a).entries[id], pid)
  {
    EntryCases(s, a, id);
    if a.At? && a.id == id {
      if OperationStep(a.step) {
        VainOperation(s.entries[id], s.env, a.step, pid);
      } else {
        VainSupervision(s.entries[id], s.env, a.step, pid);
      }
    }
  }

  /** Such a Delete never ends while vm-manager runs, whatever else happens. */
  lemma {:induction false} VainWaitNeverEnds(r: Run, i: nat, j: nat, id: Id, pid: Pid)
    requires IsRun(r) && i <= j < |r.states| && NoCrash(r, i, j)
    requires id in r.states[i].entries && WaitsInVain(r.states[i].entries[id], pid)
    ensures id in r.states[j].entries && WaitsInVain(r.states[j].entries[id], pid)
  {
    if i < j {
      VainWaitNeverEnds(r, i, j - 1, id, pid);
      assert StepAt(r, j - 1);
      VainAction(r.states[j - 1], r.actions[j - 1], id, pid);
    }
  }

  // ---------------------------------------------------------------- removed VMs that come back

  lemma DeletedWithRecord() returns (r: Run)
    ensures IsRun(r) && Last(r).entries.Keys == {"a"} && Last(r).pending == map[]
    ensures |r.actions| > 0 && r.actions[|r.actions| - 1] == At("a", DeleteRemove)
    ensures Last(r).entries["a"].disk.Some? && Last(r).entries["a"].disk.value.state == Deleting
  {
    r := TornDown();
    r := ThenAt(r, "a", OnNonce);
    r := ThenAt(r, "a", DeleteRemove);
  }

  /**
   * "The record disappears when Delete is done" fails when a guest request in flight saves it again
   * between the removal of the directory and the removal from the map: after a restart the VM is back, failed.
   */
  lemma DeletedVmComesBack() returns (r: Run, removed: nat)
    ensures IsRun(r) && "a" in Last(r).entries
    ensures removed < |r.actions| && r.actions[removed] == At("a", DeleteRemove)
    ensures Last(r).entries["a"].inMap && Last(r).entries["a"].rec.state == Failed
  {
    r := DeletedWithRecord();
    removed := |r.actions| - 1;
    r := Then(r, Crash);
    r := Then(r, LoadEntry("a", false));
  }

  // ---------------------------------------------------------------- stopped is not always startable

  lemma InstallerRunning() returns (r: Run)
    ensures IsRun(r) && "a" in Last(r).entries && Last(r).env == Env(false, false, false)
    ensures var e := Last(r).entries["a"];
            && e.proc == Some(0) && 0 in e.procs && e.op == Nobody && e.rec.state == Installing && !e.rec.installedAt
            && e.procs[0] == Process(InstallPhase, None, false, false, Watching, 0)
  {
    r := Created("a");
    r := ThenAt(r, "a", LaunchLock);
    r := InstallerStarts(r, "a");
  }

  lemma StopUnderWay() returns (r: Run)
    ensures IsRun(r) && "a" in Last(r).entries
    ensures var e := Last(r).entries["a"];
            e.rec.state == Stopping && !e.rec.installedAt && Watched(e, 0) && e.procs[0].exit == Some(0)
  {
    r := InstallerRunning();
    r := ThenAt(r, "a", StopRequest);
    r := ThenAt(r, "a", Exit(0, 0));
  }

  /** "stopped: the disk is installed and can be started" fails for a VM stopped while it installs. */
  lemma StoppedWhileInstalling() returns (r: Run)
    ensures IsRun(r) && "a" in Last(r).entries
    ensures Last(r).entries["a"].rec.state == Stopped && !Startable(Last(r).entries["a"], Last(r).env)
  {
    r := StopUnderWay();
    r := ThenAt(r, "a", OnExit(0));
  }

  /** In any reachable state, a stopped or failed VM can be started exactly when it finished installing. */
  lemma IdleStartableIffInstalled(r: Run, i: nat, id: Id)
    requires IsRun(r) && i < |r.states| && id in r.states[i].entries && !r.states[i].env.closing
    requires r.states[i].entries[id].rec.state == Stopped || r.states[i].entries[id].rec.state == Failed
    ensures Startable(r.states[i].entries[id], r.states[i].env) <==> r.states[i].entries[id].rec.installedAt
  {
    EveryStateOK(r, i);
    assert EntryOK(r.states[i].entries[id], r.states[i].env);
  }
}
