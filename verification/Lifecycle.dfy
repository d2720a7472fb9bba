/**
 * The VM lifecycle of internal/vm as a transition system. One step is one critical
 * section under the service lock, one acquisition of an entry's operation lock, or one
 * event of the environment (a process starting or exiting, a crash of vm-manager).
 */
module Lifecycle {
  import opened Common
  import Cid

  type Id = string
  type Pid = nat

  datatype State =
    Creating | Installing | Booting | Attesting | Ready | Running | Stopping | Stopped | Failed | Deleting

  /** A QEMU process belongs to these states. */
  predicate Live(s: State) {
    s.Installing? || Up(s) || s.Stopping?
  }

  /** The installed system runs. */
  predicate Up(s: State) {
    s.Booting? || s.Attesting? || s.Ready? || s.Running?
  }

  datatype Phase = InstallPhase | BootPhase

  datatype Stage = InitrdStage | ReadyStage

  datatype Quote = Quote(verified: bool, fingerprint: string)

  datatype Attestation = Attestation(
    required: bool, released: bool, nonceIssued: bool, initrd: Option<Quote>, ready: Option<Quote>)

  /** The persisted record; a time stamp is kept as "has been set", `processes` as the process it names. */
  datatype Record = Record(
    state: State, phase: Option<Phase>, ip: Option<string>, cid: nat, requireAttestation: bool,
    booted: bool, attestation: Attestation,
    installedAt: bool, bootedAt: bool, readyAt: bool, processes: Option<Pid>)

  /**
   * How far a process is supervised: started but not yet published, watched, settled
   * under the lock with its `done` channel still open, finished (`done` closed), or
   * abandoned because the service context ended first (`done` never closes).
   */
  datatype Supervisor = Starting | Watching | Settled(handoff: bool) | Finished | Abandoned

  datatype Process = Process(
    phase: Phase, exit: Option<int>, killed: bool, timedOut: bool, supervisor: Supervisor, waiters: nat)

  /** Who holds an entry's operation lock, and how far that operation has come. */
  datatype Holder =
    | Nobody
    | ByLaunch(spawned: Option<Pid>)
    | ByDiscard(torn: bool)
    | ByBoot(handoff: bool, spawned: Option<Pid>)
    | ByDelete(awaits: Option<Pid>)
    | ByRemove
    | ByVisit(visits: Pid)

  /** Where Close is with an entry it collected. */
  datatype Visit = Unvisited | Queued | InVisit | Visited

  /**
   * A VM in memory with its copy on disk. `launchPending` is a Create between allocate and
   * launch, `handoffPending` an installer's supervisor asking for the operation lock;
   * `late` remembers a launch that got the lock only after Delete or Close was done.
   */
  datatype Entry = Entry(
    rec: Record, disk: Option<Record>, inMap: bool, proc: Option<Pid>, procs: map<Pid, Process>,
    op: Holder, launchPending: bool, handoffPending: bool, visit: Visit, late: bool)

  datatype Env = Env(closing: bool, cancelled: bool, detach: bool)

  datatype Step =
    | LaunchLock
    | Provision(ip: string)
    | Spawn(pid: Pid)
    | SpawnFail
    | StartAbort
    | Publish
    | DiscardTeardown
    | DiscardRemove
    | StartBegin
    | HandoffBegin
    | StopRequest
    | StopReturn(pid: Pid)
    | DeleteBegin
    | DeleteTeardown
    | DeleteRemove
    | Exit(pid: Pid, code: int)
    | OnExit(pid: Pid)
    | CloseDone(pid: Pid)
    | OnTimeout(pid: Pid)
    | OnNotify(pid: Pid, ready: bool)
    | OnNonce
    | RecordQuote(stage: Stage, quote: Quote)
    | VisitBegin
    | VisitEnd
    | SupervisorReturn(pid: Pid)

  // ---------------------------------------------------------------- helpers

  function Spawned(op: Holder): Option<Pid> {
    match op
    case ByLaunch(p) => p
    case ByBoot(_, p) => p
    case _ => None
  }

  /** The lock is held by a start that has not created its process yet. */
  predicate StartOpen(op: Holder) {
    (op.ByLaunch? || op.ByBoot?) && Spawned(op).None?
  }

  predicate Done(e: Entry, pid: Pid) {
    pid in e.procs && e.procs[pid].supervisor.Finished?
  }

  predicate Watched(e: Entry, pid: Pid) {
    pid in e.procs && e.procs[pid].supervisor.Watching?
  }

  function Saved(e: Entry): Entry {
    e.(disk := Some(e.rec))
  }

  function Kill(e: Entry, pid: Pid, waiters: nat): Entry
    requires pid in e.procs
  {
    var p := e.procs[pid];
    e.(procs := e.procs[pid := p.(killed := true, waiters := p.waiters + waiters)])
  }

  function Supervise(e: Entry, pid: Pid, s: Supervisor): Entry
    requires pid in e.procs
  {
    e.(procs := e.procs[pid := e.procs[pid].(supervisor := s)])
  }

  /** Stop applies: there is a process and the VM is not being deleted. */
  predicate Stoppable(e: Entry) {
    e.rec.state != Deleting && e.proc.Some? && e.proc.value in e.procs
  }

  /** Start's check under the service lock. */
  predicate Startable(e: Entry, env: Env) {
    !env.closing && e.rec.state != Deleting && e.proc.None? && e.rec.installedAt
  }

  function FreshAttestation(required: bool): Attestation {
    Attestation(required, !required, false, None, None)
  }

  // ---------------------------------------------------------------- one entry

  /** Steps of the operations that start, stop and remove a VM; the others belong to supervisors, guests and Close. */
  predicate OperationStep(s: Step) {
    || s.LaunchLock? || s.Provision? || s.Spawn? || s.SpawnFail? || s.StartAbort? || s.Publish?
    || s.DiscardTeardown? || s.DiscardRemove? || s.StartBegin? || s.HandoffBegin?
    || s.StopRequest? || s.StopReturn? || s.DeleteBegin? || s.DeleteTeardown? || s.DeleteRemove?
  }

  predicate OperationEnabled(e: Entry, env: Env, s: Step)
    requires OperationStep(s)
  {
    match s
    case LaunchLock => e.launchPending && e.op.Nobody?
    case Provision(_) => e.op == ByLaunch(None) && e.rec.ip.None?
    case Spawn(pid) => StartOpen(e.op) && pid !in e.procs && (e.op.ByLaunch? ==> e.rec.ip.Some?)
    case SpawnFail => StartOpen(e.op)
    case StartAbort => e.op == ByBoot(false, None)
    case Publish => Spawned(e.op).Some? && Spawned(e.op).value in e.procs
    case DiscardTeardown => e.op == ByDiscard(false)
    case DiscardRemove => e.op == ByDiscard(true)
    case StartBegin => e.op.Nobody? && Startable(e, env)
    case HandoffBegin => e.handoffPending && e.op.Nobody?
    case StopRequest => Stoppable(e)
    case StopReturn(pid) => Done(e, pid) && e.procs[pid].waiters > 0
    case DeleteBegin => e.op.Nobody? && e.inMap && e.rec.state != Deleting && (e.proc.Some? ==> e.proc.value in e.procs)
    case DeleteTeardown => e.op.ByDelete? && (e.op.awaits.None? || Done(e, e.op.awaits.value))
    case DeleteRemove => e.op.ByRemove?
  }

  predicate SupervisionEnabled(e: Entry, env: Env, s: Step)
    requires !OperationStep(s)
  {
    match s
    case Exit(pid, _) => pid in e.procs && e.procs[pid].exit.None?
    case OnExit(pid) => Watched(e, pid) && e.procs[pid].exit.Some?
    case CloseDone(pid) => pid in e.procs && e.procs[pid].supervisor.Settled?
    case OnTimeout(pid) => Watched(e, pid)
    case OnNotify(pid, _) => Watched(e, pid) && e.procs[pid].phase.BootPhase?
    case OnNonce => e.inMap
    case RecordQuote(_, _) => e.inMap
    case VisitBegin => e.visit.Queued? && e.op.Nobody?
    case VisitEnd => e.op.ByVisit? && Done(e, e.op.visits)
    case SupervisorReturn(pid) => env.cancelled && Watched(e, pid)
  }

  predicate Enabled(e: Entry, env: Env, s: Step) {
    if OperationStep(s) then OperationEnabled(e, env, s) else SupervisionEnabled(e, env, s)
  }

  /** The installer run succeeded: the installed boot follows. */
  predicate Installed(rec: Record, p: Process) {
    p.phase == InstallPhase && rec.state == Installing && p.exit == Some(0) && !p.timedOut
  }

  /** onExit's switch: the record a process leaves behind. */
  function SettledRecord(rec: Record, p: Process): Record {
    var r := rec.(processes := None);
    if rec.state == Deleting then r
    else if rec.state == Stopping then r.(state := Stopped)
    else if Installed(rec, p) then r.(installedAt := true)
    else if p.phase == InstallPhase && rec.state == Installing then r.(state := Failed)
    else if p.exit == Some(0) then r.(state := Stopped)
    else r.(state := Failed)
  }

  function LaunchedRecord(rec: Record, pid: Pid): Record {
    rec.(processes := Some(pid), state := Installing, phase := Some(InstallPhase))
  }

  /** startBoot's update: every installed boot gates user-data again. */
  function BootedRecord(rec: Record, pid: Pid): Record {
    rec.(processes := Some(pid), state := Booting, phase := Some(BootPhase), bootedAt := true, readyAt := false,
         attestation := FreshAttestation(rec.requireAttestation))
  }

  function TimedOut(e: Entry, pid: Pid): Entry
    requires pid in e.procs
  {
    var p := e.procs[pid];
    if p.phase == InstallPhase && e.rec.state == Installing then
      e.(procs := e.procs[pid := p.(timedOut := true, killed := true)])
    else if p.phase == BootPhase && (e.rec.state.Booting? || e.rec.state.Attesting?) then
      WithRecord(e, e.rec.(state := Running))
    else e
  }

  function Notified(rec: Record, ready: bool): Record {
    if ready && Up(rec.state) && !rec.state.Ready? then
      rec.(state := State.Ready, readyAt := true, booted := true)
    else rec
  }

  function NonceIssued(rec: Record): Record {
    var r := rec.(attestation := rec.attestation.(nonceIssued := true));
    if rec.attestation.required && rec.state == Booting then r.(state := Attesting) else r
  }

  /** Only a verified initrd-stage quote unlocks user-data. */
  predicate ReleasesUserData(stage: Stage, verified: bool) {
    verified && stage == InitrdStage
  }

  function QuoteRecorded(rec: Record, stage: Stage, q: Quote): Record {
    var a := rec.attestation;
    var b := if stage == InitrdStage then a.(initrd := Some(q)) else a.(ready := Some(q));
    rec.(attestation := if ReleasesUserData(stage, q.verified) then b.(released := true) else b)
  }

  /** launch takes the operation lock; nothing is looked at again. */
  function LaunchLocked(e: Entry): Entry {
    e.(launchPending := false, op := ByLaunch(None), late := e.late || e.rec.state == Deleting || e.visit.Visited?)
  }

  function SpawnedAt(e: Entry, pid: Pid): Entry
    requires StartOpen(e.op)
  {
    var phase := if e.op.ByLaunch? then InstallPhase else BootPhase;
    var op := if e.op.ByLaunch? then ByLaunch(Some(pid)) else ByBoot(e.op.handoff, Some(pid));
    e.(procs := e.procs[pid := Process(phase, None, false, false, Starting, 0)], op := op)
  }

  /** A launch that fails is undone; a boot that fails leaves the VM failed. */
  function StartFailed(e: Entry): Entry {
    if e.op.ByLaunch? then e.(op := ByDiscard(false))
    else Saved(e.(rec := e.rec.(state := Failed), op := Nobody))
  }

  function Published(e: Entry): Entry
    requires Spawned(e.op).Some? && Spawned(e.op).value in e.procs
  {
    var pid := Spawned(e.op).value;
    var rec := if e.op.ByLaunch? then LaunchedRecord(e.rec, pid) else BootedRecord(e.rec, pid);
    Supervise(Saved(e.(proc := Some(pid), rec := rec, op := Nobody)), pid, Watching)
  }

  /** The hand-off's check: it boots the installed VM, or leaves it stopped when Close has begun. */
  function HandedOff(e: Entry, env: Env): Entry {
    var f := e.(handoffPending := false);
    if e.rec.state != Installing || e.proc.Some? then f
    else if env.closing then Saved(f.(rec := f.rec.(state := Stopped)))
    else f.(op := ByBoot(true, None))
  }

  function StopMarked(e: Entry, waiters: nat): Entry
    requires Stoppable(e)
  {
    Kill(Saved(e.(rec := e.rec.(state := Stopping))), e.proc.value, waiters)
  }

  function WaiterReturned(e: Entry, pid: Pid): Entry
    requires pid in e.procs && e.procs[pid].waiters > 0
  {
    e.(procs := e.procs[pid := e.procs[pid].(waiters := e.procs[pid].waiters - 1)])
  }

  function DeleteMarked(e: Entry): Entry
    requires e.proc.Some? ==> e.proc.value in e.procs
  {
    var f := Saved(e.(rec := e.rec.(state := Deleting), op := ByDelete(e.proc)));
    if e.proc.Some? then Kill(f, e.proc.value, 0) else f
  }

  function Exited(e: Entry, pid: Pid, code: int): Entry
    requires pid in e.procs
  {
    e.(procs := e.procs[pid := e.procs[pid].(exit := Some(code))])
  }

  /** onExit's critical section; `done` is still open. */
  function ExitSettled(e: Entry, pid: Pid): Entry
    requires pid in e.procs
  {
    var p := e.procs[pid];
    Supervise(Saved(e.(proc := None, rec := SettledRecord(e.rec, p))), pid, Settled(Installed(e.rec, p)))
  }

  /** `done` closes; only then does a finished installer's supervisor ask for the operation lock. */
  function DoneClosed(e: Entry, pid: Pid): Entry
    requires pid in e.procs && e.procs[pid].supervisor.Settled?
  {
    var h := e.procs[pid].supervisor.handoff;
    Supervise(e.(handoffPending := e.handoffPending || h), pid, Finished)
  }

  function WithRecord(e: Entry, rec: Record): Entry {
    Saved(e.(rec := rec))
  }

  /** Close visits the entry under its operation lock: it stops it, or only waits for a start in flight. */
  function VisitStarted(e: Entry, env: Env): Entry {
    if env.detach || !e.inMap || !Stoppable(e) then e.(visit := Visited)
    else StopMarked(e, 0).(visit := InVisit, op := ByVisit(e.proc.value))
  }

  function AfterOperation(e: Entry, env: Env, s: Step): Entry
    requires OperationStep(s) && OperationEnabled(e, env, s)
  {
    match s
    case LaunchLock => LaunchLocked(e)
    case Provision(ip) => WithRecord(e, e.rec.(ip := Some(ip)))
    case Spawn(pid) => SpawnedAt(e, pid)
    case SpawnFail => StartFailed(e)
    case StartAbort => e.(op := Nobody)
    case Publish => Published(e)
    case DiscardTeardown => e.(disk := None, op := ByDiscard(true))
    case DiscardRemove => e.(inMap := false, op := Nobody)
    case StartBegin => e.(op := ByBoot(false, None))
    case HandoffBegin => HandedOff(e, env)
    case StopRequest => StopMarked(e, 1)
    case StopReturn(pid) => WaiterReturned(e, pid)
    case DeleteBegin => DeleteMarked(e)
    case DeleteTeardown => e.(disk := None, op := ByRemove)
    case DeleteRemove => e.(inMap := false, op := Nobody)
  }

  function AfterSupervision(e: Entry, env: Env, s: Step): Entry
    requires !OperationStep(s) && SupervisionEnabled(e, env, s)
  {
    match s
    case Exit(pid, code) => Exited(e, pid, code)
    case OnExit(pid) => ExitSettled(e, pid)
    case CloseDone(pid) => DoneClosed(e, pid)
    case OnTimeout(pid) => TimedOut(e, pid)
    case OnNotify(_, ready) => WithRecord(e, Notified(e.rec, ready))
    case OnNonce => WithRecord(e, NonceIssued(e.rec))
    case RecordQuote(stage, q) => WithRecord(e, QuoteRecorded(e.rec, stage, q))
    case VisitBegin => VisitStarted(e, env)
    case VisitEnd => e.(visit := Visited, op := Nobody)
    case SupervisorReturn(pid) => Supervise(e, pid, Abandoned)
  }

  /** The entry after a step. */
  function After(e: Entry, env: Env, s: Step): Entry
    requires Enabled(e, env, s)
  {
    if OperationStep(s) then AfterOperation(e, env, s) else AfterSupervision(e, env, s)
  }

  /** The step closes and replaces the `changed` channel. */
  predicate Broadcasts(e: Entry, env: Env, s: Step)
    requires Enabled(e, env, s)
  {
    match s
    case SpawnFail => e.op.ByBoot?
    case Publish => true
    case DiscardRemove => true
    case HandoffBegin => e.rec.state == Installing && e.proc.None? && env.closing
    case StopRequest => true
    case DeleteBegin => true
    case DeleteRemove => true
    case OnExit(_) => true
    case OnTimeout(pid) => e.procs[pid].phase == BootPhase && (e.rec.state.Booting? || e.rec.state.Attesting?)
    case OnNotify(_, _) => true
    case OnNonce => true
    case RecordQuote(_, _) => true
    case VisitBegin => !env.detach && e.inMap && Stoppable(e)
    case _ => false
  }

  // ---------------------------------------------------------------- the service

  /** `pending` holds the records a restarted vm-manager has not loaded yet. */
  datatype Service = Service(entries: map<Id, Entry>, pending: map<Id, Record>, env: Env, generation: nat)

  datatype Action =
    | Allocate(id: Id, required: bool, base: nat)
    | ReassignCid(id: Id)
    | At(id: Id, step: Step)
    | CloseBegin
    | Cancel
    | Crash
    | LoadEntry(id: Id, attached: bool)

  function Init(detach: bool): Service {
    Service(map[], map[], Env(false, false, detach), 0)
  }

  function HeldCids(s: Service): set<nat> {
    set id | id in s.entries && s.entries[id].inMap :: s.entries[id].rec.cid
  }

  ghost function NewEntry(s: Service, required: bool, base: nat): Entry {
    var rec := Record(Creating, None, None, Cid.FreeCid(HeldCids(s), base), required, false,
                      Attestation(required, false, false, None, None), false, false, false, None);
    Entry(rec, Some(rec), true, None, map[], Nobody, true, false, Unvisited, false)
  }

  /** loadEntry and reattachOrStop: the entry a stored record comes back as. */
  function Loaded(d: Record, attached: bool): Entry {
    var r := if d.state.Creating? || d.state.Deleting? then d.(state := Failed) else d;
    if Live(r.state) && attached && r.processes.Some? && r.phase.Some? then
      var stopping := r.state == Stopping;
      var p := Process(r.phase.value, None, stopping, false, Watching, if stopping then 1 else 0);
      Entry(r, Some(r), true, r.processes, map[r.processes.value := p], Nobody, false, false, Unvisited, false)
    else
      var q := if Live(r.state) then r.(state := Stopped, processes := None) else r;
      Entry(q, Some(q), true, None, map[], Nobody, false, false, Unvisited, false)
  }

  function Collected(e: Entry): Entry {
    if e.inMap then e.(visit := Queued) else e
  }

  predicate Possible(s: Service, a: Action) {
    match a
    case Allocate(id, _, _) => !s.env.closing && s.pending == map[] && id !in s.entries
    case ReassignCid(id) => id in s.entries && StartOpen(s.entries[id].op)
    case At(id, step) => id in s.entries && Enabled(s.entries[id], s.env, step)
    case CloseBegin => !s.env.closing && s.pending == map[]
    case Cancel => s.env.closing && !s.env.cancelled &&
                   forall id :: id in s.entries ==> !s.entries[id].visit.Queued? && !s.entries[id].visit.InVisit?
    case Crash => true
    case LoadEntry(id, _) => id in s.pending && id !in s.entries
  }

  function OnDisk(s: Service): map<Id, Record> {
    s.pending + map id | id in s.entries && s.entries[id].disk.Some? :: s.entries[id].disk.value
  }

  ghost function Next(s: Service, a: Action): Service
    requires Possible(s, a)
  {
    match a
    case Allocate(id, required, base) => s.(entries := s.entries[id := NewEntry(s, required, base)])
    case ReassignCid(id) =>
      var e := s.entries[id];
      s.(entries := s.entries[id := Saved(e.(rec := e.rec.(cid := Cid.FreeCid(HeldCids(s), e.rec.cid + 1))))])
    case At(id, step) =>
      var e := s.entries[id];
      s.(entries := s.entries[id := After(e, s.env, step)],
         generation := if Broadcasts(e, s.env, step) then s.generation + 1 else s.generation)
    case CloseBegin =>
      s.(env := s.env.(closing := true), entries := map id | id in s.entries :: Collected(s.entries[id]))
    case Cancel => s.(env := s.env.(cancelled := true))
    case Crash => Service(map[], OnDisk(s), Env(false, false, s.env.detach), s.generation)
    case LoadEntry(id, attached) =>
      s.(entries := s.entries[id := Loaded(s.pending[id], attached)], pending := s.pending - {id})
  }

  /** LookupByIP may answer with this VM: it has the address and is not being deleted. */
  predicate Resolves(s: Service, ip: string, id: Id) {
    id in s.entries && s.entries[id].inMap && s.entries[id].rec.ip == Some(ip) && s.entries[id].rec.state != Deleting
  }

  /** A run: states and the actions between them, from an empty service. */
  datatype Run = Run(states: seq<Service>, actions: seq<Action>)

  ghost predicate StepAt(r: Run, i: nat)
    requires |r.states| == |r.actions| + 1 && i < |r.actions|
  {
    Possible(r.states[i], r.actions[i]) && r.states[i + 1] == Next(r.states[i], r.actions[i])
  }

  ghost predicate IsRun(r: Run) {
    && |r.states| == |r.actions| + 1
    && r.states[0] == Init(r.states[0].env.detach)
    && forall i :: 0 <= i < |r.actions| ==> StepAt(r, i)
  }
}
