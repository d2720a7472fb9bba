/** Sequences of steps a VM takes from its creation through installation, boot, stop and start. */
module LifecycleSteps {
  import opened Common
  import opened Lifecycle

  /** The entry takes these steps, none of them the recording of a verdict. */
  predicate EntryLeads(e: Entry, env: Env, steps: seq<Step>, e': Entry)
    decreases |steps|
  {
    if steps == [] then e == e'
    else
      && Enabled(e, env, steps[0]) && !steps[0].RecordQuote?
      && EntryLeads(After(e, env, steps[0]), env, steps[1..], e')
  }

  lemma EntryLeadsFirst(e: Entry, env: Env, s: Step, e1: Entry, rest: seq<Step>, e': Entry)
    requires Enabled(e, env, s) && !s.RecordQuote? && e1 == After(e, env, s) && EntryLeads(e1, env, rest, e')
    ensures EntryLeads(e, env, [s] + rest, e')
  {
    assert ([s] + rest)[1..] == rest;
  }

  /** An installed VM whose next boot holds the operation lock. */
  predicate BootsNext(e: Entry, p: Pid) {
    && e.inMap && e.op.ByBoot? && e.op.spawned.None? && p !in e.procs && (forall q :: q in e.procs ==> q < p)
    && e.rec.installedAt && e.rec.requireAttestation
  }

  predicate Installs(e: Entry) {
    && e.inMap && e.op == Nobody && e.proc == Some(0) && e.procs.Keys == {0} && !e.handoffPending
    && e.procs[0] == Process(InstallPhase, None, false, false, Watching, 0)
    && e.rec.state == Installing && !e.rec.installedAt && e.rec.requireAttestation && e.disk == Some(e.rec)
    && e.rec.processes == Some(0) && e.rec.phase == Some(InstallPhase)
  }

  predicate Creates(e: Entry) {
    && e.inMap && e.op == Nobody && e.launchPending && !e.handoffPending && e.proc.None? && e.procs == map[]
    && e.rec.ip.None? && !e.rec.installedAt && e.rec.requireAttestation
  }

  lemma LaunchLeads(e: Entry, env: Env) returns (steps: seq<Step>, e': Entry)
    requires Creates(e)
    ensures EntryLeads(e, env, steps, e') && Installs(e') && e'.rec.cid == e.rec.cid
  {
    var e1 := LaunchLocked(e);
    var e2 := WithRecord(e1, e1.rec.(ip := Some("10.0.0.2")));
    var e3 := SpawnedAt(e2, 0);
    e' := Published(e3);
    EntryLeadsFirst(e3, env, Publish, e', [], e');
    EntryLeadsFirst(e2, env, Spawn(0), e3, [Publish] + [], e');
    EntryLeadsFirst(e1, env, Provision("10.0.0.2"), e2, [Spawn(0)] + ([Publish] + []), e');
    EntryLeadsFirst(e, env, LaunchLock, e1, [Provision("10.0.0.2")] + ([Spawn(0)] + ([Publish] + [])), e');
    steps := [LaunchLock] + ([Provision("10.0.0.2")] + ([Spawn(0)] + ([Publish] + [])));
  }

  lemma InstallLeads(e: Entry, env: Env) returns (steps: seq<Step>, e': Entry)
    requires Installs(e) && !env.closing
    ensures EntryLeads(e, env, steps, e') && BootsNext(e', 1) && e'.rec.cid == e.rec.cid
  {
    var e1 := Exited(e, 0, 0);
    var e2 := ExitSettled(e1, 0);
    var e3 := DoneClosed(e2, 0);
    e' := HandedOff(e3, env);
    EntryLeadsFirst(e3, env, HandoffBegin, e', [], e');
    EntryLeadsFirst(e2, env, CloseDone(0), e3, [HandoffBegin] + [], e');
    EntryLeadsFirst(e1, env, OnExit(0), e2, [CloseDone(0)] + ([HandoffBegin] + []), e');
    EntryLeadsFirst(e, env, Exit(0, 0), e1, [OnExit(0)] + ([CloseDone(0)] + ([HandoffBegin] + [])), e');
    steps := [Exit(0, 0)] + ([OnExit(0)] + ([CloseDone(0)] + ([HandoffBegin] + [])));
  }

  /** A boot is up: nothing is released yet. */
  predicate BootedEntry(e: Entry, p: Pid) {
    && e.inMap && e.op == Nobody && e.proc == Some(p) && p in e.procs && (forall q :: q in e.procs ==> q <= p)
    && e.procs[p] == Process(BootPhase, None, false, false, Watching, 0)
    && e.rec.state == Booting && e.rec.installedAt && e.rec.requireAttestation && !e.rec.attestation.released
  }

  lemma SpawnedBoots(e: Entry, p: Pid)
    requires BootsNext(e, p)
    ensures BootedEntry(Published(SpawnedAt(e, p)), p)
  {
  }

  /** Two steps into a stop: the process has exited. */
  predicate Exiting(e: Entry) {
    && e.inMap && e.op == Nobody && e.proc == Some(1) && 1 in e.procs && (forall q :: q in e.procs ==> q <= 1)
    && e.procs[1].supervisor.Watching? && e.procs[1].exit == Some(0)
    && e.rec.state == Stopping && e.rec.installedAt && e.rec.requireAttestation
  }

  lemma ExitLeads(e: Entry, env: Env) returns (steps: seq<Step>, e': Entry)
    requires Exiting(e) && !env.closing
    ensures EntryLeads(e, env, steps, e') && BootsNext(e', 2)
  {
    var e1 := ExitSettled(e, 1);
    e' := e1.(op := ByBoot(false, None));
    EntryLeadsFirst(e1, env, StartBegin, e', [], e');
    EntryLeadsFirst(e, env, OnExit(1), e1, [StartBegin] + [], e');
    steps := [OnExit(1)] + ([StartBegin] + []);
  }

  lemma StopLeads(e: Entry, env: Env) returns (steps: seq<Step>, e': Entry)
    requires BootedEntry(e, 1)
    ensures EntryLeads(e, env, steps, e') && Exiting(e')
  {
    var e1 := StopMarked(e, 1);
    e' := Exited(e1, 1, 0);
    EntryLeadsFirst(e1, env, Exit(1, 0), e', [], e');
    EntryLeadsFirst(e, env, StopRequest, e1, [Exit(1, 0)] + [], e');
    steps := [StopRequest] + ([Exit(1, 0)] + []);
  }
}
