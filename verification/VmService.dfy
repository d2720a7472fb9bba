/**
 * internal/vm: the Service object. One method is one critical section under the service lock; each
 * is proved to be the step of the lifecycle it stands for, so whatever holds of every run of the
 * lifecycle holds of any interleaving of these sections. Each keeps the lifecycle invariant and says
 * what its caller finds afterwards.
 */
module VmService {
  import opened Common
  import opened Lifecycle
  import opened LifecycleInvariant
  import opened LifecycleRuns
  import opened VmOutcomes
  import Cid

  datatype Error = NotFound | Conflict | ShuttingDown

  datatype Instance = Instance(id: Id, released: bool)

  /** The records that can be read. */
  function Readable(dirs: map<Id, Option<Record>>): map<Id, Record> {
    map id | id in dirs && dirs[id].Some? :: dirs[id].value
  }

  predicate Fits(cid: nat) {
    cid < 0x1_0000_0000
  }

  /** What the lifecycle invariant says of one id, with every CID a 32-bit number. */
  ghost predicate SoundAt(s: Lifecycle.Service, id: Id) {
    && (id in s.entries ==> EntryOK(s.entries[id], s.env) && Fits(s.entries[id].rec.cid) && id !in s.pending)
    && (id in s.pending ==> RecordOK(s.pending[id]) && Fits(s.pending[id].cid))
  }

  ghost predicate Sound(s: Lifecycle.Service) {
    (forall id :: SoundAt(s, id)) && (s.env.closing ==> s.pending == map[]) && (s.env.cancelled ==> s.env.closing)
  }

  /** The invariant of the object is the invariant of every run of the lifecycle. */
  lemma SoundIffOK(s: Lifecycle.Service)
    ensures Sound(s) <==>
              && ServiceOK(s)
              && (forall id :: id in s.entries ==> Fits(s.entries[id].rec.cid))
              && (forall id :: id in s.pending ==> Fits(s.pending[id].cid))
  {
    if Sound(s) {
      assert forall id :: id in s.entries || id in s.pending ==> SoundAt(s, id);
    }
  }

  lemma EntrySound(s: Lifecycle.Service, id: Id)
    requires Sound(s) && id in s.entries
    ensures EntryOK(s.entries[id], s.env)
  {
    assert SoundAt(s, id);
  }

  lemma StepKeepsSound(s: Lifecycle.Service, id: Id, step: Step)
    requires Sound(s) && Possible(s, At(id, step))
    ensures Sound(Next(s, At(id, step)))
  {
    SoundIffOK(s);
    AtOK(s, id, step);
    StepKeepsCid(s.entries[id], s.env, step);
    SoundIffOK(Next(s, At(id, step)));
  }

  lemma ActionKeepsSound(s: Lifecycle.Service, a: Action)
    requires Sound(s) && Possible(s, a) && !a.At? && !a.Crash?
    requires a.Allocate? ==> Fits(Cid.FreeCid(HeldCids(s), a.base))
    requires a.ReassignCid? ==> Fits(Cid.FreeCid(HeldCids(s), s.entries[a.id].rec.cid + 1))
    ensures Sound(Next(s, a))
  {
    SoundIffOK(s);
    NextKeepsService(s, a);
    SoundIffOK(Next(s, a));
  }

  lemma BroadcastKeepsSound(s: Lifecycle.Service, generation: nat)
    requires Sound(s)
    ensures Sound(s.(generation := generation))
  {
    forall id ensures SoundAt(s.(generation := generation), id) {
      assert SoundAt(s, id);
    }
  }

  lemma AllCollected(s: Lifecycle.Service, entries: map<Id, Entry>)
    requires Possible(s, CloseBegin) && entries.Keys == s.entries.Keys
    requires forall id :: id in entries ==> entries[id] == Collected(s.entries[id])
    ensures s.(entries := entries, env := s.env.(closing := true)) == Next(s, CloseBegin)
  {
    assert entries == map id | id in s.entries :: Collected(s.entries[id]);
  }

  /** A stored record has been loaded, or is still to be. */
  predicate LoadedSoFar(stored: map<Id, Record>, attached: set<Id>, pending: map<Id, Record>, entries: map<Id, Entry>) {
    && pending.Keys <= stored.Keys && entries.Keys == stored.Keys - pending.Keys
    && (forall id :: id in pending ==> pending[id] == stored[id])
    && forall id :: id in entries ==> Settles(stored[id], id in attached, entries[id])
  }

  // ---------------------------------------------------------------- what each section leaves, for the whole service

  lemma InstallerPublished(s: Lifecycle.Service, id: Id)
    requires Sound(s) && Possible(s, At(id, Publish)) && s.entries[id].op.ByLaunch?
    ensures InstallsAlone(Next(s, At(id, Publish)).entries[id], Spawned(s.entries[id].op).value)
    ensures SameVm(s.entries[id], Next(s, At(id, Publish)).entries[id])
  {
    EntrySound(s, id);
    LaunchInstalls(s.entries[id], s.env);
  }

  lemma BootPublished(s: Lifecycle.Service, id: Id)
    requires Sound(s) && Possible(s, At(id, Publish)) && s.entries[id].op.ByBoot?
    ensures BootsAfresh(Next(s, At(id, Publish)).entries[id], Spawned(s.entries[id].op).value)
    ensures SameVm(s.entries[id], Next(s, At(id, Publish)).entries[id]) && Next(s, At(id, Publish)).entries[id].rec.bootedAt
  {
    EntrySound(s, id);
    BootIsFresh(s.entries[id], s.env);
  }

  lemma StartedAlone(s: Lifecycle.Service, id: Id)
    requires Sound(s) && Possible(s, At(id, StartBegin))
    ensures OnlyRuns(Next(s, At(id, StartBegin)).entries[id], None)
  {
    EntrySound(s, id);
    RunsOnlyCurrent(s.entries[id], s.env);
  }

  lemma HandoffHandled(s: Lifecycle.Service, id: Id)
    requires Sound(s) && Possible(s, At(id, HandoffBegin))
    ensures HandsOff(s.entries[id], Next(s, At(id, HandoffBegin)).entries[id], s.env.closing)
  {
    EntrySound(s, id);
    HandoffMeans(s.entries[id], s.env);
  }

  lemma BootFailed(s: Lifecycle.Service, id: Id)
    requires Sound(s) && Possible(s, At(id, SpawnFail)) && s.entries[id].op.ByBoot?
    ensures var f := Next(s, At(id, SpawnFail)).entries[id];
            AtRest(f) && f.rec == s.entries[id].rec.(state := Failed) && (Startable(f, s.env) <==> !s.env.closing)
  {
    EntrySound(s, id);
    FailedBootIsStartable(s.entries[id], s.env);
  }

  lemma TimeoutHandled(s: Lifecycle.Service, id: Id, pid: Pid)
    requires Sound(s) && Possible(s, At(id, OnTimeout(pid)))
    ensures OutOfTime(s.entries[id], Next(s, At(id, OnTimeout(pid))).entries[id], pid)
  {
    EntrySound(s, id);
    TimeoutEndsPhase(s.entries[id], s.env, pid);
  }

  lemma NotifyHandled(s: Lifecycle.Service, id: Id, pid: Pid, ready: bool)
    requires Sound(s) && Possible(s, At(id, OnNotify(pid, ready)))
    ensures Notices(s.entries[id], Next(s, At(id, OnNotify(pid, ready))).entries[id], ready)
  {
    EntrySound(s, id);
    NotifyIsNoticed(s.entries[id], s.env, ready);
  }

  lemma ExitHandled(s: Lifecycle.Service, id: Id, pid: Pid)
    requires Sound(s) && Possible(s, At(id, OnExit(pid)))
    ensures var e := s.entries[id];
            ExitLeaves(e, Next(s, At(id, OnExit(pid))).entries[id], e.procs[pid], Installed(e.rec, e.procs[pid]))
  {
    EntrySound(s, id);
    ExitSettles(s.entries[id], s.env, pid);
  }

  lemma ProcessKnown(s: Lifecycle.Service, id: Id)
    requires Sound(s) && id in s.entries && s.entries[id].proc.Some?
    ensures s.entries[id].proc.value in s.entries[id].procs
  {
    EntrySound(s, id);
  }

  lemma DeleteBegun(s: Lifecycle.Service, id: Id)
    requires Sound(s) && Possible(s, At(id, DeleteBegin))
    ensures GoesAway(s.entries[id], Next(s, At(id, DeleteBegin)).entries[id])
    ensures Unreachable(Next(s, At(id, DeleteBegin)), id)
  {
    EntrySound(s, id);
    DeleteGoes(s.entries[id], s.env);
  }

  lemma Removed(s: Lifecycle.Service, id: Id)
    requires Sound(s) && Possible(s, At(id, DeleteRemove))
    ensures var f := Next(s, At(id, DeleteRemove)).entries[id];
            !f.inMap && OnlyRuns(f, None) && f.disk == s.entries[id].disk
    ensures Unreachable(Next(s, At(id, DeleteRemove)), id)
  {
    EntrySound(s, id);
    RemovedRunsNothing(s.entries[id], s.env);
  }

  lemma NonceHandled(s: Lifecycle.Service, id: Id)
    requires Sound(s) && Possible(s, At(id, OnNonce))
    ensures NonceNoted(s.entries[id], Next(s, At(id, OnNonce)).entries[id])
  {
    EntrySound(s, id);
    NonceIsNoted(s.entries[id], s.env);
  }

  lemma VisitHandled(s: Lifecycle.Service, id: Id)
    requires Sound(s) && Possible(s, At(id, VisitBegin)) && !s.env.detach && !s.entries[id].late
    ensures VisitLeaves(Next(s, At(id, VisitBegin)).entries[id])
  {
    EntrySound(s, id);
    VisitStopsAll(s.entries[id], s.env);
  }

  class Service {
    const detach: bool
    var entries: map<Id, Entry>
    var names: map<Id, string>
    var pending: map<Id, Record>
    var closing: bool
    var cancelled: bool
    /** How often the `changed` channel was closed and replaced. */
    var generation: nat

    ghost function Now(): Lifecycle.Service
      reads this
    {
      Lifecycle.Service(entries, pending, Env(closing, cancelled, detach), generation)
    }

    ghost predicate Valid()
      reads this
    {
      Sound(Now()) && entries.Keys + pending.Keys <= names.Keys
    }

    /** New, on the directories an earlier vm-manager left; a record that cannot be read is skipped by Load. */
    constructor (detach: bool, dirs: map<Id, Option<Record>>, names: map<Id, string>)
      requires Readable(dirs).Keys <= names.Keys
      ensures Now() == Init(detach).(pending := Readable(dirs)) && this.names == names
      ensures (forall id :: id in Readable(dirs) ==> RecordOK(Readable(dirs)[id]) && Fits(Readable(dirs)[id].cid)) ==> Valid()
    {
      this.detach, this.names := detach, names;
      entries, pending, closing, cancelled, generation := map[], Readable(dirs), false, false, 0;
    }

    /** save and broadcastLocked, at the end of a critical section. */
    method SaveAndBroadcast(id: Id, e: Entry, ghost step: Step)
      requires Valid() && Possible(Now(), At(id, step)) && Broadcasts(entries[id], Now().env, step)
      requires Saved(e) == After(entries[id], Now().env, step)
      modifies this`entries, this`generation
      ensures Valid() && Now() == Next(old(Now()), At(id, step))
    {
      StepKeepsSound(Now(), id, step);
      entries := entries[id := e.(disk := Some(e.rec))];
      generation := generation + 1;
    }

    /** The end of a critical section that neither saves nor wakes anyone. */
    method Update(id: Id, e: Entry, ghost step: Step)
      requires Valid() && Possible(Now(), At(id, step)) && !Broadcasts(entries[id], Now().env, step)
      requires e == After(entries[id], Now().env, step)
      modifies this`entries
      ensures Valid() && Now() == Next(old(Now()), At(id, step))
    {
      StepKeepsSound(Now(), id, step);
      entries := entries[id := e];
    }

    // -------------------------------------------------------------- context ids

    /** freeCIDFrom over the VMs in the map. */
    method FreeCid(from: Cid.uint32) returns (cid: Cid.uint32)
      requires Valid()
      ensures cid as nat == Cid.FreeCid(HeldCids(Now()), from as nat)
    {
      var held: map<Id, Cid.uint32> := map[];
      var todo := entries.Keys;
      while todo != {}
        invariant todo <= entries.Keys
        invariant forall id :: id in held <==> id in entries.Keys - todo && entries[id].inMap
        invariant forall id :: id in held ==> held[id] as nat == entries[id].rec.cid
        decreases todo
      {
        var id :| id in todo;
        assert SoundAt(Now(), id);
        if entries[id].inMap {
          held := held[id := entries[id].rec.cid as Cid.uint32];
        }
        todo := todo - {id};
      }
      cid := Cid.FreeCIDFrom(held, from);
      assert (set id | id in held :: held[id] as nat) == HeldCids(Now());
    }

    /** A VM of this name is in the map. */
    predicate InUse(name: string)
      reads this
    {
      exists id :: id in entries && entries[id].inMap && id in names && names[id] == name
    }

    /** allocate's loop over the names. */
    method FindName(name: string) returns (used: bool)
      requires Valid()
      ensures used <==> InUse(name)
    {
      var todo := entries.Keys;
      while todo != {}
        invariant todo <= entries.Keys
        invariant forall id :: id in entries.Keys - todo && entries[id].inMap ==> names[id] != name
        decreases todo
      {
        var id :| id in todo;
        if entries[id].inMap && names[id] == name {
          return true;
        }
        todo := todo - {id};
      }
      return false;
    }

    /** allocate, on a fresh id: refused once Close has begun, and while the name is in use. */
    method Allocate(id: Id, name: string, required: bool, base: Cid.uint32) returns (r: Result<(), Error>)
      requires Valid() && pending == map[] && id !in entries
      modifies this
      ensures Valid()
      ensures r.Ok? <==> !old(closing) && !old(InUse(name))
      ensures r.Err? ==> r.error == (if old(closing) then ShuttingDown else Conflict)
      ensures r.Err? ==> Now() == old(Now()) && names == old(names)
      ensures r.Ok? ==> Now() == Next(old(Now()), Lifecycle.Allocate(id, required, base as nat))
      ensures r.Ok? ==> names == old(names)[id := name]
      ensures r.Ok? ==>
                && entries.Keys == old(entries).Keys + {id}
                && FreshVm(entries[id], required, Cid.FreeCid(HeldCids(old(Now())), base as nat))
    {
      if closing {
        return Err(ShuttingDown);
      }
      var used := FindName(name);
      if used {
        return Err(Conflict);
      }
      ghost var s := Now();
      var cid := FreeCid(base);
      ActionKeepsSound(s, Lifecycle.Allocate(id, required, base as nat));
      var rec := Record(Creating, None, None, cid as nat, required, false,
                        Attestation(required, false, false, None, None), false, false, false, None);
      entries := entries[id := Entry(rec, Some(rec), true, None, map[], Nobody, true, false, Unvisited, false)];
      names := names[id := name];
      assert Now() == Next(s, Lifecycle.Allocate(id, required, base as nat));
      return Ok(());
    }

    /** reassignCID: the next free CID after the one refused. */
    method ReassignCID(id: Id)
      requires Valid() && Possible(Now(), Lifecycle.ReassignCid(id)) && entries[id].rec.cid <= Cid.MAX_CID
      modifies this`entries
      ensures Valid()
      ensures Now() == Next(old(Now()), Lifecycle.ReassignCid(id))
      ensures entries[id].rec.cid == Cid.FreeCid(HeldCids(old(Now())), old(entries)[id].rec.cid + 1)
      ensures entries[id].rec == old(entries)[id].rec.(cid := entries[id].rec.cid) && Stored(entries[id])
    {
      ghost var s := Now();
      var e := entries[id];
      var next := FreeCid(e.rec.cid as Cid.uint32 + 1);
      ActionKeepsSound(s, Lifecycle.ReassignCid(id));
      var rec := e.rec.(cid := next as nat);
      entries := entries[id := e.(rec := rec, disk := Some(rec))];
      assert Now() == Next(s, Lifecycle.ReassignCid(id));
    }

    // -------------------------------------------------------------- starting

    /** The end of launch: the installer's process becomes the VM's. */
    method PublishInstaller(id: Id, pid: Pid)
      requires Valid() && Possible(Now(), At(id, Publish)) && entries[id].op == ByLaunch(Some(pid))
      modifies this`entries, this`generation
      ensures Valid() && Now() == Next(old(Now()), At(id, Publish))
      ensures InstallsAlone(entries[id], pid) && SameVm(old(entries)[id], entries[id])
    {
      ghost var s := Now();
      var e := entries[id];
      var rec := e.rec.(processes := Some(pid), state := Installing, phase := Some(InstallPhase));
      var procs := e.procs[pid := e.procs[pid].(supervisor := Watching)];
      SaveAndBroadcast(id, e.(proc := Some(pid), rec := rec, procs := procs, op := Nobody), Publish);
      InstallerPublished(s, id);
    }

    /** The end of startBoot: nothing of an earlier boot counts, and user-data is locked again. */
    method PublishBoot(id: Id, handoff: bool, pid: Pid)
      requires Valid() && Possible(Now(), At(id, Publish)) && entries[id].op == ByBoot(handoff, Some(pid))
      modifies this`entries, this`generation
      ensures Valid() && Now() == Next(old(Now()), At(id, Publish))
      ensures BootsAfresh(entries[id], pid) && SameVm(old(entries)[id], entries[id]) && entries[id].rec.bootedAt
    {
      ghost var s := Now();
      var e := entries[id];
      var required := e.rec.requireAttestation;
      var rec := e.rec.(processes := Some(pid), state := Booting, phase := Some(BootPhase), bootedAt := true,
                        readyAt := false, attestation := Attestation(required, !required, false, None, None));
      var procs := e.procs[pid := e.procs[pid].(supervisor := Watching)];
      SaveAndBroadcast(id, e.(proc := Some(pid), rec := rec, procs := procs, op := Nobody), Publish);
      BootPublished(s, id);
    }

    /** Start's checks, with the operation lock held. */
    method StartCheck(id: Id) returns (r: Result<(), Error>)
      requires Valid() && id in entries && entries[id].op.Nobody?
      modifies this`entries
      ensures Valid()
      ensures var e := old(entries)[id];
              r.Ok? <==> !closing && e.rec.state != Deleting && e.proc.None? && e.rec.installedAt
      ensures r.Err? ==> r.error == if closing then ShuttingDown else Conflict
      ensures Now() == if r.Ok? then Next(old(Now()), At(id, StartBegin)) else old(Now())
      ensures r.Ok? ==> entries[id] == old(entries)[id].(op := ByBoot(false, None)) && OnlyRuns(entries[id], None)
    {
      ghost var s := Now();
      var e := entries[id];
      if closing {
        return Err(ShuttingDown);
      }
      if e.rec.state == Deleting || e.proc.Some? || !e.rec.installedAt {
        return Err(Conflict);
      }
      Update(id, e.(op := ByBoot(false, None)), StartBegin);
      StartedAlone(s, id);
      return Ok(());
    }

    /** boot's check: does the installed boot follow, or has Close overtaken it? */
    method HandoffCheck(id: Id) returns (boots: bool)
      requires Valid() && Possible(Now(), At(id, HandoffBegin))
      modifies this`entries, this`generation
      ensures Valid() && Now() == Next(old(Now()), At(id, HandoffBegin))
      ensures boots <==> old(entries)[id].rec.state == Installing && old(entries)[id].proc.None? && !closing
      ensures HandsOff(old(entries)[id], entries[id], closing)
    {
      HandoffHandled(Now(), id);
      var e := entries[id].(handoffPending := false);
      boots := e.rec.state == Installing && e.proc.None?;
      if boots && closing {
        boots := false;
        SaveAndBroadcast(id, e.(rec := e.rec.(state := Stopped)), HandoffBegin);
      } else if boots {
        Update(id, e.(op := ByBoot(true, None)), HandoffBegin);
      } else {
        Update(id, e, HandoffBegin);
      }
    }

    /** fail, after a boot that did not start: the VM is at rest, and can be started again unless Close has begun. */
    method Fail(id: Id)
      requires Valid() && Possible(Now(), At(id, SpawnFail)) && entries[id].op.ByBoot?
      modifies this`entries, this`generation
      ensures Valid() && Now() == Next(old(Now()), At(id, SpawnFail))
      ensures AtRest(entries[id]) && entries[id].rec == old(entries)[id].rec.(state := State.Failed)
      ensures Startable(entries[id], Now().env) <==> !closing
    {
      ghost var s := Now();
      var e := entries[id];
      SaveAndBroadcast(id, e.(rec := e.rec.(state := State.Failed), op := Nobody), SpawnFail);
      BootFailed(s, id);
    }

    // -------------------------------------------------------------- supervisors

    /** onTimeout: a slow installer is killed for good, a slow boot is let run. */
    method OnTimeout(id: Id, pid: Pid)
      requires Valid() && Possible(Now(), At(id, Step.OnTimeout(pid)))
      modifies this`entries, this`generation
      ensures Valid() && Now() == Next(old(Now()), At(id, Step.OnTimeout(pid)))
      ensures OutOfTime(old(entries)[id], entries[id], pid)
    {
      ghost var s := Now();
      var e := entries[id];
      var p := e.procs[pid];
      if p.phase == InstallPhase && e.rec.state == Installing {
        Update(id, e.(procs := e.procs[pid := p.(timedOut := true, killed := true)]), Step.OnTimeout(pid));
      } else if p.phase == BootPhase && (e.rec.state == Booting || e.rec.state == Attesting) {
        SaveAndBroadcast(id, e.(rec := e.rec.(state := Running)), Step.OnTimeout(pid));
      } else {
        Update(id, e, Step.OnTimeout(pid));
      }
      TimeoutHandled(s, id, pid);
    }

    /** onNotify: READY=1 of a system that is up reaches the ready milestone. */
    method OnNotify(id: Id, pid: Pid, ready: bool)
      requires Valid() && Possible(Now(), At(id, Step.OnNotify(pid, ready)))
      modifies this`entries, this`generation
      ensures Valid() && Now() == Next(old(Now()), At(id, Step.OnNotify(pid, ready)))
      ensures Notices(old(entries)[id], entries[id], ready)
    {
      ghost var s := Now();
      var e := entries[id];
      var rec := e.rec;
      if ready && (rec.state == Booting || rec.state == Attesting || rec.state == Running) {
        rec := rec.(state := State.Ready, readyAt := true, booted := true);
      }
      SaveAndBroadcast(id, e.(rec := rec), Step.OnNotify(pid, ready));
      NotifyHandled(s, id, pid, ready);
    }

    /** onExit's switch. */
    static method SettleRecord(was: Record, p: Process) returns (rec: Record, installed: bool)
      ensures rec == SettledRecord(was, p) && installed == Installed(was, p)
    {
      rec, installed := was.(processes := None), false;
      if was.state == Deleting {
      } else if was.state == Stopping {
        rec := rec.(state := Stopped);
      } else if p.phase == InstallPhase && was.state == Installing && p.exit == Some(0) && !p.timedOut {
        rec := rec.(installedAt := true);
        installed := true;
      } else if p.phase == InstallPhase && was.state == Installing {
        rec := rec.(state := State.Failed);
      } else if p.exit == Some(0) {
        rec := rec.(state := Stopped);
      } else {
        rec := rec.(state := State.Failed);
      }
    }

    /** onExit: the VM is at rest, or installed with its first boot coming. */
    method OnExit(id: Id, pid: Pid) returns (installed: bool)
      requires Valid() && Possible(Now(), At(id, Step.OnExit(pid)))
      modifies this`entries, this`generation
      ensures Valid() && Now() == Next(old(Now()), At(id, Step.OnExit(pid)))
      ensures ExitLeaves(old(entries)[id], entries[id], old(entries)[id].procs[pid], installed)
    {
      ghost var s := Now();
      var e := entries[id];
      var p := e.procs[pid];
      var rec;
      rec, installed := SettleRecord(e.rec, p);
      var procs := e.procs[pid := p.(supervisor := Settled(installed))];
      SaveAndBroadcast(id, e.(proc := None, rec := rec, procs := procs), Step.OnExit(pid));
      ExitHandled(s, id, pid);
    }

    // -------------------------------------------------------------- stopping and deleting

    /** Stop up to its wait for the process. */
    method Stop(id: Id) returns (r: Result<Pid, Error>)
      requires Valid()
      modifies this`entries, this`generation
      ensures Valid()
      ensures r.Ok? <==> && id in old(entries) && old(entries)[id].inMap
                         && old(entries)[id].rec.state != Deleting && old(entries)[id].proc.Some?
      ensures r.Err? ==> r.error == if id in old(entries) && old(entries)[id].inMap then Conflict else NotFound
      ensures r.Ok? ==> Possible(old(Now()), At(id, StopRequest))
      ensures Now() == if r.Ok? then Next(old(Now()), At(id, StopRequest)) else old(Now())
      ensures r.Ok? ==> Stops(entries[id], r.value) && entries[id].procs[r.value].waiters > 0
      ensures r.Ok? ==> entries[id].rec == old(entries)[id].rec.(state := Stopping)
    {
      if id !in entries || !entries[id].inMap {
        return Err(NotFound);
      }
      var e := entries[id];
      if e.rec.state == Deleting || e.proc.None? {
        return Err(Conflict);
      }
      ProcessKnown(Now(), id);
      var pid := e.proc.value;
      var p := e.procs[pid];
      var procs := e.procs[pid := p.(killed := true, waiters := p.waiters + 1)];
      SaveAndBroadcast(id, e.(rec := e.rec.(state := Stopping), procs := procs), StopRequest);
      return Ok(pid);
    }

    /** Delete up to its wait for the process, with the operation lock held. */
    method DeleteBegin(id: Id) returns (r: Result<(), Error>)
      requires Valid() && (id in entries ==> entries[id].op.Nobody?)
      modifies this`entries, this`generation
      ensures Valid()
      ensures r.Ok? <==> id in old(entries) && old(entries)[id].inMap && old(entries)[id].rec.state != Deleting
      ensures r.Err? ==> r.error == if id in old(entries) && old(entries)[id].inMap then Conflict else NotFound
      ensures r.Ok? ==> Possible(old(Now()), At(id, Step.DeleteBegin))
      ensures Now() == if r.Ok? then Next(old(Now()), At(id, Step.DeleteBegin)) else old(Now())
      ensures r.Ok? ==> GoesAway(old(entries)[id], entries[id]) && Unreachable(Now(), id)
    {
      ghost var s := Now();
      if id !in entries || !entries[id].inMap {
        return Err(NotFound);
      }
      var e := entries[id];
      if e.rec.state == Deleting {
        return Err(Conflict);
      }
      var procs := e.procs;
      if e.proc.Some? {
        ProcessKnown(s, id);
        procs := procs[e.proc.value := procs[e.proc.value].(killed := true)];
      }
      SaveAndBroadcast(id, e.(rec := e.rec.(state := Deleting), op := ByDelete(e.proc), procs := procs), Step.DeleteBegin);
      DeleteBegun(s, id);
      return Ok(());
    }

    /** Delete's end: the VM leaves the map; nobody finds it and nothing of it runs. */
    method DeleteRemove(id: Id)
      requires Valid() && Possible(Now(), At(id, Step.DeleteRemove))
      modifies this`entries, this`generation
      ensures Valid() && Now() == Next(old(Now()), At(id, Step.DeleteRemove))
      ensures !entries[id].inMap && OnlyRuns(entries[id], None) && Unreachable(Now(), id)
      ensures entries[id].disk == old(entries)[id].disk
    {
      Removed(Now(), id);
      StepKeepsSound(Now(), id, Step.DeleteRemove);
      entries := entries[id := entries[id].(inMap := false, op := Nobody)];
      generation := generation + 1;
    }

    // -------------------------------------------------------------- guests

    /** onNonce: silent for a VM that is gone; it never releases user-data. */
    method OnNonce(id: Id)
      requires Valid()
      modifies this`entries, this`generation
      ensures Valid()
      ensures var a := At(id, Step.OnNonce);
              Now() == if Possible(old(Now()), a) then Next(old(Now()), a) else old(Now())
      ensures entries.Keys == old(entries).Keys
      ensures if id in old(entries) && old(entries)[id].inMap then NonceNoted(old(entries)[id], entries[id])
              else Now() == old(Now())
    {
      if id !in entries || !entries[id].inMap {
        return;
      }
      NonceHandled(Now(), id);
      var e := entries[id];
      var rec := e.rec.(attestation := e.rec.attestation.(nonceIssued := true));
      if rec.attestation.required && rec.state == Booting {
        rec := rec.(state := Attesting);
      }
      SaveAndBroadcast(id, e.(rec := rec), Step.OnNonce);
    }

    /** recordQuote: only a verified initrd-stage verdict releases user-data; no verdict locks it or moves the VM. */
    method RecordQuote(id: Id, stage: Stage, quote: Quote)
      requires Valid()
      modifies this`entries, this`generation
      ensures Valid()
      ensures var a := At(id, Step.RecordQuote(stage, quote));
              Now() == if Possible(old(Now()), a) then Next(old(Now()), a) else old(Now())
      ensures entries.Keys == old(entries).Keys
      ensures if id in old(entries) && old(entries)[id].inMap then VerdictNoted(old(entries)[id], entries[id], stage, quote)
              else Now() == old(Now())
    {
      if id !in entries || !entries[id].inMap {
        return;
      }
      var e := entries[id];
      var attestation := e.rec.attestation;
      match stage {
        case InitrdStage => attestation := attestation.(initrd := Some(quote));
        case ReadyStage => attestation := attestation.(ready := Some(quote));
      }
      if quote.verified && stage == InitrdStage {
        attestation := attestation.(released := true);
      }
      SaveAndBroadcast(id, e.(rec := e.rec.(attestation := attestation)), Step.RecordQuote(stage, quote));
    }

    /** LookupByIP: some VM with the address that is not being deleted, if there is one. */
    method LookupByIP(ip: string) returns (r: Option<Instance>)
      ensures r.None? ==> forall id :: id in entries ==>
                !(entries[id].inMap && entries[id].rec.ip == Some(ip) && entries[id].rec.state != Deleting)
      ensures r.Some? ==>
                && r.value.id in entries && entries[r.value.id].inMap && entries[r.value.id].rec.ip == Some(ip)
                && entries[r.value.id].rec.state != Deleting
                && r.value.released == entries[r.value.id].rec.attestation.released
    {
      var todo := entries.Keys;
      while todo != {}
        invariant todo <= entries.Keys
        invariant forall id :: id in entries && id !in todo ==>
                    !(entries[id].inMap && entries[id].rec.ip == Some(ip) && entries[id].rec.state != Deleting)
        decreases todo
      {
        var id :| id in todo;
        var e := entries[id];
        if e.inMap && e.rec.ip == Some(ip) && e.rec.state != Deleting {
          return Some(Instance(id, e.rec.attestation.released));
        }
        todo := todo - {id};
      }
      return None;
    }

    // -------------------------------------------------------------- Close and Load

    /** Every VM in the map is to be visited. */
    static method Collect(entries: map<Id, Entry>) returns (queued: map<Id, Entry>)
      ensures queued.Keys == entries.Keys
      ensures forall id :: id in queued ==> queued[id] == Collected(entries[id])
    {
      queued := entries;
      var todo := entries.Keys;
      while todo != {}
        invariant todo <= entries.Keys && queued.Keys == entries.Keys
        invariant forall id :: id in queued ==> queued[id] == if id in todo then entries[id] else Collected(entries[id])
        decreases todo
      {
        var id :| id in todo;
        if entries[id].inMap {
          queued := queued[id := entries[id].(visit := Queued)];
        }
        todo := todo - {id};
      }
    }

    /** Close's first section: the flag is set and the VMs to visit are collected. */
    method CloseBegin()
      requires Valid() && Possible(Now(), Lifecycle.CloseBegin)
      modifies this`entries, this`closing
      ensures Valid() && Now() == Next(old(Now()), Lifecycle.CloseBegin)
      ensures closing && entries.Keys == old(entries).Keys
      ensures forall id :: id in entries ==>
                entries[id] == if old(entries)[id].inMap then old(entries)[id].(visit := Queued) else old(entries)[id]
    {
      ghost var s := Now();
      closing := true;
      entries := Collect(entries);
      AllCollected(s, entries);
      ActionKeepsSound(s, Lifecycle.CloseBegin);
    }

    /** stopAll's visit of one VM under its operation lock: a Stop whose refusals are ignored. */
    method VisitStop(id: Id)
      requires Valid() && Possible(Now(), At(id, VisitBegin)) && !detach
      modifies this`entries, this`generation
      ensures Valid() && Now() == Next(old(Now()), At(id, VisitBegin))
      ensures !entries[id].late ==> VisitLeaves(entries[id])
    {
      ghost var s := Now();
      var e := entries[id];
      if !e.inMap || e.rec.state == Deleting || e.proc.None? {
        Update(id, e.(visit := Visit.Visited), VisitBegin);
      } else {
        ProcessKnown(s, id);
        var pid := e.proc.value;
        var procs := e.procs[pid := e.procs[pid].(killed := true)];
        e := e.(rec := e.rec.(state := Stopping), procs := procs, visit := InVisit, op := ByVisit(pid));
        SaveAndBroadcast(id, e, VisitBegin);
      }
      if !e.late {
        VisitHandled(s, id);
      }
    }

    /** loadEntry and reattachOrStop on one stored record. */
    static method Restore(d: Record, attached: bool) returns (e: Entry)
      ensures e == Loaded(d, attached)
      ensures RecordOK(d) ==> Settles(d, attached, e)
    {
      var rec := d;
      if rec.state == Creating || rec.state == Deleting {
        rec := rec.(state := State.Failed);
      }
      var proc: Option<Pid>, procs := None, map[];
      if Live(rec.state) {
        if attached && rec.processes.Some? && rec.phase.Some? {
          var stopping := rec.state == Stopping;
          proc := rec.processes;
          procs := map[proc.value := Process(rec.phase.value, None, stopping, false, Watching, if stopping then 1 else 0)];
        } else {
          rec := rec.(state := Stopped, processes := None);
        }
      }
      e := Entry(rec, Some(rec), true, proc, procs, Nobody, false, false, Unvisited, false);
    }

    method LoadOne(id: Id, attached: bool)
      requires Valid() && Possible(Now(), LoadEntry(id, attached))
      modifies this`entries, this`pending
      ensures Valid() && Now() == Next(old(Now()), LoadEntry(id, attached))
      ensures Settles(old(pending)[id], attached, entries[id])
    {
      ghost var s := Now();
      assert SoundAt(s, id);
      var e := Restore(pending[id], attached);
      entries := entries[id := e];
      pending := pending - {id};
      ActionKeepsSound(s, LoadEntry(id, attached));
    }

    /** Load: every stored record, those in `attached` with their processes found again. */
    method Load(attached: set<Id>)
      requires Valid() && entries == map[] && !closing
      modifies this`entries, this`pending, this`generation
      ensures Valid() && pending == map[] && entries.Keys == old(pending).Keys && generation == old(generation) + 1
      ensures forall id :: id in entries ==> Settles(old(pending)[id], id in attached, entries[id])
    {
      while pending != map[]
        invariant Valid() && LoadedSoFar(old(pending), attached, pending, entries) && generation == old(generation)
        decreases pending.Keys
      {
        var id :| id in pending;
        LoadNext(id, attached, old(pending));
      }
      assert pending.Keys == {};
      BroadcastKeepsSound(Now(), generation + 1);
      generation := generation + 1;
    }

    method LoadNext(id: Id, attached: set<Id>, ghost stored: map<Id, Record>)
      requires Valid() && Possible(Now(), LoadEntry(id, id in attached))
      requires LoadedSoFar(stored, attached, pending, entries)
      modifies this`entries, this`pending
      ensures Valid() && LoadedSoFar(stored, attached, pending, entries) && pending == old(pending) - {id}
    {
      LoadOne(id, id in attached);
    }
  }
}
