/** Waiting for milestones: wake-ups are never lost, and a milestone means what it says. */
module LifecycleWaits {
  import opened Common
  import opened Lifecycle
  import opened LifecycleInvariant
  import opened LifecycleRuns

  datatype WaitFor = WaitNone | WaitInstalled | WaitAttested | WaitReady

  datatype Outcome = Waiting | Done | Lost

  /** reached: what a waiter makes of a sampled record. */
  function Reached(w: WaitFor, rec: Record): Outcome {
    if rec.state.Failed? || rec.state.Stopping? || rec.state.Stopped? || rec.state.Deleting? then Lost
    else
      var ok := match w
        case WaitNone => true
        case WaitInstalled => rec.installedAt
        case WaitAttested => rec.bootedAt && rec.attestation.released
        case WaitReady => rec.readyAt;
      if ok then Done else Waiting
  }

  // ---------------------------------------------------------------- no lost wake-up

  /** Two records no waiter can tell apart. */
  predicate SameMilestones(a: Record, b: Record) {
    && a.state == b.state && a.installedAt == b.installedAt && a.bootedAt == b.bootedAt
    && a.readyAt == b.readyAt && a.attestation.released == b.attestation.released
  }

  lemma SilentOperation(e: Entry, env: Env, s: Step)
    requires OperationStep(s) && Enabled(e, env, s) && !Broadcasts(e, env, s)
    ensures SameMilestones(e.rec, AfterOperation(e, env, s).rec)
  {
  }

  lemma SilentSupervision(e: Entry, env: Env, s: Step)
    requires !OperationStep(s) && Enabled(e, env, s) && !Broadcasts(e, env, s)
    ensures SameMilestones(e.rec, AfterSupervision(e, env, s).rec)
  {
  }

  lemma SilentAction(s: Service, a: Action, id: Id)
    requires Possible(s, a) && !a.Crash? && id in s.entries
    ensures id in Next(s, a).entries && s.generation <= Next(s, a).generation
    ensures Next(s, a).generation == s.generation ==> SameMilestones(s.entries[id].rec, Next(s, a).entries[id].rec)
  {
    EntryCases(s, a, id);
    if a.At? && a.id == id && !Broadcasts(s.entries[id], s.env, a.step) {
      if OperationStep(a.step) {
        SilentOperation(s.entries[id], s.env, a.step);
      } else {
        SilentSupervision(s.entries[id], s.env, a.step);
      }
    }
  }

  /**
   * As long as the `changed` channel a waiter holds has not been closed, the record it sampled
   * with it answers every milestone as the current one does: nothing was missed.
   */
  lemma {:induction false} NoLostWakeup(r: Run, i: nat, j: nat, id: Id)
    requires IsRun(r) && i <= j < |r.states| && NoCrash(r, i, j) && id in r.states[i].entries
    ensures id in r.states[j].entries && r.states[i].generation <= r.states[j].generation
    ensures r.states[i].generation == r.states[j].generation ==>
              forall w :: Reached(w, r.states[i].entries[id].rec) == Reached(w, r.states[j].entries[id].rec)
  {
    SameWhileSilent(r, i, j, id);
  }

  lemma {:induction false} SameWhileSilent(r: Run, i: nat, j: nat, id: Id)
    requires IsRun(r) && i <= j < |r.states| && NoCrash(r, i, j) && id in r.states[i].entries
    ensures id in r.states[j].entries && r.states[i].generation <= r.states[j].generation
    ensures r.states[i].generation == r.states[j].generation ==>
              SameMilestones(r.states[i].entries[id].rec, r.states[j].entries[id].rec)
  {
    if i < j {
      SameWhileSilent(r, i, j - 1, id);
      assert StepAt(r, j - 1);
      SilentAction(r.states[j - 1], r.actions[j - 1], id);
    }
  }

  // ---------------------------------------------------------------- where a milestone comes from

  /** The step publishes an installed boot: it resets the VM's attestation. */
  predicate Boots(e: Entry, s: Step) {
    s.Publish? && e.op.ByBoot?
  }

  predicate Unlocks(s: Step) {
    s.RecordQuote? && ReleasesUserData(s.stage, s.quote.verified)
  }

  /** Every milestone of the record after a step was there before, or the step is its source. */
  predicate Sourced(e: Entry, e': Entry, s: Step) {
    && (e'.rec.attestation.released && e'.rec.requireAttestation ==>
          (e.rec.attestation.released && !Boots(e, s)) || Unlocks(s))
    && (e'.rec.bootedAt ==> e.rec.bootedAt || Boots(e, s))
    && (e'.rec.readyAt ==> (e.rec.readyAt && !Boots(e, s)) || (s.OnNotify? && s.ready))
  }

  lemma OperationSourced(e: Entry, env: Env, s: Step)
    requires OperationStep(s) && OperationEnabled(e, env, s)
    ensures Sourced(e, AfterOperation(e, env, s), s)
  {
  }

  lemma GuestSourced(e: Entry, env: Env, s: Step)
    requires !OperationStep(s) && SupervisionEnabled(e, env, s)
    requires s.OnTimeout? || s.OnNotify? || s.OnNonce? || s.RecordQuote?
    ensures Sourced(e, AfterSupervision(e, env, s), s)
  {
  }

  lemma ProcessSourced(e: Entry, env: Env, s: Step)
    requires !OperationStep(s) && SupervisionEnabled(e, env, s)
    requires !s.OnTimeout? && !s.OnNotify? && !s.OnNonce? && !s.RecordQuote?
    ensures Sourced(e, AfterSupervision(e, env, s), s)
  {
    if s.OnExit? {
      assert Sourced(e, ExitSettled(e, s.pid), s);
    } else if s.VisitBegin? {
      assert Sourced(e, VisitStarted(e, env), s);
    } else {
      assert AfterSupervision(e, env, s).rec == e.rec;
    }
  }

  lemma StepSourced(e: Entry, env: Env, s: Step)
    requires Enabled(e, env, s)
    ensures Sourced(e, After(e, env, s), s)
  {
    if OperationStep(s) {
      OperationSourced(e, env, s);
    } else if s.OnTimeout? || s.OnNotify? || s.OnNonce? || s.RecordQuote? {
      GuestSourced(e, env, s);
    } else {
      ProcessSourced(e, env, s);
    }
  }

  predicate BootsAt(s: Service, a: Action, id: Id) {
    a.At? && a.id == id && id in s.entries && Boots(s.entries[id], a.step)
  }

  predicate UnlocksAt(a: Action, id: Id) {
    a.At? && a.id == id && Unlocks(a.step)
  }

  predicate ReadyAt(a: Action, id: Id) {
    a.At? && a.id == id && a.step.OnNotify? && a.step.ready
  }

  predicate AllocatesAt(a: Action, id: Id) {
    a.Allocate? && a.id == id
  }

  /** Every milestone of the record `d` after an action was there before, or the action is its source. */
  predicate SourcedBy(s: Service, a: Action, id: Id, d: Record) {
    var had := RecordOf(s, id).Some?;
    && (had ==> d.requireAttestation == RecordOf(s, id).value.requireAttestation && !AllocatesAt(a, id))
    && (d.attestation.released && d.requireAttestation ==>
          || UnlocksAt(a, id)
          || (had && RecordOf(s, id).value.attestation.released && !BootsAt(s, a, id)))
    && (d.bootedAt ==> BootsAt(s, a, id) || (had && RecordOf(s, id).value.bootedAt))
    && (d.readyAt ==> ReadyAt(a, id) || (had && RecordOf(s, id).value.readyAt && !BootsAt(s, a, id)))
  }

  lemma EntrySourced(s: Service, a: Action, id: Id)
    requires ServiceOK(s) && Possible(s, a) && !a.Crash? && id in s.entries
    ensures id in Next(s, a).entries && SourcedBy(s, a, id, Next(s, a).entries[id].rec)
  {
    EntryCases(s, a, id);
    ActionStays(s, a, id);
    if a.At? && a.id == id {
      StepSourced(s.entries[id], s.env, a.step);
    }
  }

  lemma CrashSourced(s: Service, id: Id)
    requires ServiceOK(s) && RecordOf(Next(s, Crash), id).Some?
    ensures SourcedBy(s, Crash, id, RecordOf(Next(s, Crash), id).value)
  {
    if id in s.entries {
      assert EntryOK(s.entries[id], s.env);
    }
  }

  /** The same for any action, crash and reload included. */
  lemma ActionSourced(s: Service, a: Action, id: Id)
    requires ServiceOK(s) && Possible(s, a) && RecordOf(Next(s, a), id).Some?
    ensures SourcedBy(s, a, id, RecordOf(Next(s, a), id).value)
  {
    if a.Crash? {
      CrashSourced(s, id);
    } else if id in s.entries {
      EntrySourced(s, a, id);
    } else if a.LoadEntry? && a.id == id {
      LoadedRecord(s.pending[id], a.attached);
      LoadedTimes(s.pending[id], a.attached);
    }
  }

  /** Where the milestones of a record come from, at any point of a run but its start. */
  lemma SourcedAt(r: Run, i: nat, id: Id)
    requires IsRun(r) && i < |r.states| && RecordOf(r.states[i], id).Some?
    ensures i > 0 && SourcedBy(r.states[i - 1], r.actions[i - 1], id, RecordOf(r.states[i], id).value)
  {
    assert r.states[0].entries == map[] && r.states[0].pending == map[];
    EveryStateOK(r, i - 1);
    assert StepAt(r, i - 1);
    ActionSourced(r.states[i - 1], r.actions[i - 1], id);
  }

  lemma LoadedTimes(d: Record, attached: bool)
    ensures Loaded(d, attached).rec.bootedAt == d.bootedAt && Loaded(d, attached).rec.readyAt == d.readyAt
  {
  }

  /** No installed boot of `id` is published, and no VM of that id created, between two points of a run. */
  ghost predicate SameBoot(r: Run, i: nat, j: nat, id: Id)
    requires |r.states| == |r.actions| + 1 && j <= |r.actions|
  {
    forall m :: i < m < j ==> !BootsAt(r.states[m], r.actions[m], id) && !AllocatesAt(r.actions[m], id)
  }

  /**
   * The user-data gate, whatever the attestor: a released VM that requires attestation has had a
   * verified initrd-stage verdict recorded since its last installed boot began (or its creation).
   */
  lemma {:induction false} ReleasedSinceBoot(r: Run, i: nat, id: Id) returns (k: nat)
    requires IsRun(r) && i < |r.states| && RecordOf(r.states[i], id).Some?
    requires RecordOf(r.states[i], id).value.attestation.released && RecordOf(r.states[i], id).value.requireAttestation
    ensures k < i && UnlocksAt(r.actions[k], id) && SameBoot(r, k, i, id)
  {
    SourcedAt(r, i, id);
    if UnlocksAt(r.actions[i - 1], id) {
      k := i - 1;
    } else {
      k := ReleasedSinceBoot(r, i - 1, id);
    }
  }

  /** A record with BootedAt set has an installed boot in its past. */
  lemma {:induction false} BootedBefore(r: Run, i: nat, id: Id) returns (k: nat)
    requires IsRun(r) && i < |r.states| && RecordOf(r.states[i], id).Some? && RecordOf(r.states[i], id).value.bootedAt
    ensures k < i && BootsAt(r.states[k], r.actions[k], id)
    ensures forall m :: k < m < i ==> !AllocatesAt(r.actions[m], id)
  {
    SourcedAt(r, i, id);
    if BootsAt(r.states[i - 1], r.actions[i - 1], id) {
      k := i - 1;
    } else {
      k := BootedBefore(r, i - 1, id);
    }
  }

  /** A record with ReadyAt set has had READY=1 since its last installed boot began. */
  lemma {:induction false} ReadySinceBoot(r: Run, i: nat, id: Id) returns (k: nat)
    requires IsRun(r) && i < |r.states| && RecordOf(r.states[i], id).Some? && RecordOf(r.states[i], id).value.readyAt
    ensures k < i && ReadyAt(r.actions[k], id) && SameBoot(r, k, i, id)
  {
    SourcedAt(r, i, id);
    if ReadyAt(r.actions[i - 1], id) {
      k := i - 1;
    } else {
      k := ReadySinceBoot(r, i - 1, id);
    }
  }

  /**
   * A waiter told "attested" is told so of an installed boot that is up right now, and, when
   * attestation is required, of a verdict recorded in that boot: never of one recorded while the
   * installer ran.
   */
  lemma AttestedMilestoneSound(r: Run, i: nat, id: Id) returns (boot: nat, verdict: nat)
    requires IsRun(r) && i < |r.states| && id in r.states[i].entries
    requires Reached(WaitAttested, r.states[i].entries[id].rec) == Done
    ensures var e := r.states[i].entries[id];
            Up(e.rec.state) && Current(e).Some? && Current(e).value.phase == BootPhase
    ensures boot < i && BootsAt(r.states[boot], r.actions[boot], id)
    ensures r.states[i].entries[id].rec.requireAttestation ==>
              boot < verdict < i && UnlocksAt(r.actions[verdict], id) && SameBoot(r, verdict, i, id)
  {
    RecordAndProcessAgree(r, i, id);
    EveryStateOK(r, i);
    assert RecordOK(r.states[i].entries[id].rec);
    boot := BootedBefore(r, i, id);
    if r.states[i].entries[id].rec.requireAttestation {
      verdict := ReleasedSinceBoot(r, i, id);
      assert !(verdict < boot < i);
      assert r.actions[verdict].step.RecordQuote? && r.actions[boot].step.Publish?;
    } else {
      verdict := 0;
    }
  }

  /** A waiter told "ready" is told so of a VM that is ready now, by a READY=1 of the boot that is up. */
  lemma ReadyMilestoneSound(r: Run, i: nat, id: Id) returns (notified: nat)
    requires IsRun(r) && i < |r.states| && id in r.states[i].entries
    requires Reached(WaitReady, r.states[i].entries[id].rec) == Done
    ensures r.states[i].entries[id].rec.state == State.Ready
    ensures Current(r.states[i].entries[id]).Some? && Current(r.states[i].entries[id]).value.phase == BootPhase
    ensures notified < i && ReadyAt(r.actions[notified], id) && SameBoot(r, notified, i, id)
  {
    RecordAndProcessAgree(r, i, id);
    EveryStateOK(r, i);
    assert RecordOK(r.states[i].entries[id].rec);
    notified := ReadySinceBoot(r, i, id);
  }

  // ---------------------------------------------------------------- the waiter

  /** The records a waiter samples: the VM's at points of a run, each after the `changed` channel of the one before closed. */
  ghost predicate SamplesOf(r: Run, id: Id, times: seq<nat>, samples: seq<Record>) {
    && |times| == |samples|
    && (forall k :: 0 <= k < |times| ==>
          times[k] < |r.states| && id in r.states[times[k]].entries && samples[k] == r.states[times[k]].entries[id].rec)
    && forall k :: 0 < k < |times| ==>
         times[k - 1] < times[k] && r.states[times[k - 1]].generation < r.states[times[k]].generation
  }

  /** The channel sampled at `t` is still open at `now`. */
  ghost predicate StillOpen(r: Run, t: nat, now: nat) {
    && t <= now < |r.states| == |r.actions| + 1
    && NoCrash(r, t, now) && r.states[now].generation == r.states[t].generation
  }

  /** From `t` on, as long as the channel sampled then stays open, the VM has not reached the milestone. */
  ghost predicate NothingMissed(r: Run, id: Id, w: WaitFor, t: nat) {
    forall now: nat :: StillOpen(r, t, now) ==>
      id in r.states[now].entries && Reached(w, r.states[now].entries[id].rec) == Waiting
  }

  lemma SleepsOnlyWhileWaiting(r: Run, id: Id, w: WaitFor, t: nat)
    requires IsRun(r) && t < |r.states| && id in r.states[t].entries && Reached(w, r.states[t].entries[id].rec) == Waiting
    ensures NothingMissed(r, id, w, t)
  {
    forall now: nat | StillOpen(r, t, now)
      ensures id in r.states[now].entries && Reached(w, r.states[now].entries[id].rec) == Waiting
    {
      NoLostWakeup(r, t, now, id);
    }
  }

  /** The wait is lost: nothing the VM does from here reaches a milestone without a new start. */
  predicate GivesUp(rec: Record) {
    rec.state in {Failed, Stopping, Stopped, Deleting}
  }

  /** The record says the milestone is reached. */
  predicate MilestoneSet(w: WaitFor, rec: Record) {
    && (w == WaitInstalled ==> rec.installedAt)
    && (w == WaitAttested ==> rec.bootedAt && rec.attestation.released)
    && (w == WaitReady ==> rec.readyAt)
  }

  /** What a waiter makes of a sample: lost in those states, otherwise done exactly when the milestone is set. */
  lemma ReachedMeans(w: WaitFor, rec: Record)
    ensures Reached(w, rec) == Lost <==> GivesUp(rec)
    ensures Reached(w, rec) == Done <==> !GivesUp(rec) && MilestoneSet(w, rec)
  {
  }

  /**
   * Nothing is kept from a waiter: of a VM whose installed boot is up, installed is reported, attested exactly when
   * user-data is released, and ready exactly when the VM is ready.
   */
  ghost predicate ToldAll(r: Run, id: Id, w: WaitFor, outcome: Outcome, t: nat)
    requires t < |r.states| && id in r.states[t].entries
  {
    var e := r.states[t].entries[id];
    e.rec.state in {Booting, Attesting, State.Ready, Running} ==>
      && outcome != Lost
      && (w == WaitNone || w == WaitInstalled ==> outcome == Done)
      && (w == WaitAttested ==> (outcome == Done <==> e.rec.attestation.released))
      && (w == WaitReady ==> (outcome == Done <==> e.rec.state == State.Ready))
  }

  lemma NothingWithheld(r: Run, id: Id, w: WaitFor, t: nat)
    requires IsRun(r) && t < |r.states| && id in r.states[t].entries
    ensures ToldAll(r, id, w, Reached(w, r.states[t].entries[id].rec), t)
  {
    EveryStateOK(r, t);
    assert RecordOK(r.states[t].entries[id].rec);
    ReachedMeans(w, r.states[t].entries[id].rec);
  }

  /** What a waiter is told holds of the VM at the moment of the sample. */
  ghost predicate Told(r: Run, id: Id, w: WaitFor, t: nat)
    requires t < |r.states| && id in r.states[t].entries
  {
    var e := r.states[t].entries[id];
    && (w == WaitInstalled ==> e.rec.installedAt)
    && (w == WaitAttested ==> Up(e.rec.state) && Current(e).Some? && Current(e).value.phase == BootPhase)
    && (w == WaitReady ==> e.rec.state == State.Ready && Current(e).Some? && Current(e).value.phase == BootPhase)
  }

  lemma ToldTruly(r: Run, id: Id, w: WaitFor, t: nat)
    requires IsRun(r) && t < |r.states| && id in r.states[t].entries && Reached(w, r.states[t].entries[id].rec) == Done
    ensures Told(r, id, w, t)
  {
    if w == WaitAttested {
      var boot, verdict := AttestedMilestoneSound(r, t, id);
    } else if w == WaitReady {
      var notified := ReadyMilestoneSound(r, t, id);
    }
  }

  /**
   * waitFor's loop over the records it samples: the first at once, each further one after a wake-up. It
   * returns at the first sample that settles the wait. What it is told is true of the VM then, and while it
   * sleeps the milestone has not been reached.
   */
  method WaitForMilestone(w: WaitFor, samples: seq<Record>, ghost r: Run, ghost id: Id, ghost times: seq<nat>)
    returns (i: nat, outcome: Outcome)
    requires |samples| > 0 && IsRun(r) && SamplesOf(r, id, times, samples)
    ensures i < |samples|
    ensures outcome == Lost <==> samples[i].state in {Failed, Stopping, Stopped, Deleting}
    ensures outcome == Done <==> samples[i].state !in {Failed, Stopping, Stopped, Deleting} && MilestoneSet(w, samples[i])
    ensures forall k :: 0 <= k < i ==> !GivesUp(samples[k]) && !MilestoneSet(w, samples[k])
    ensures ToldAll(r, id, w, outcome, times[i])
    ensures outcome == Done ==> Told(r, id, w, times[i])
    ensures outcome == Waiting ==> i == |samples| - 1 && NothingMissed(r, id, w, times[i])
  {
    i := 0;
    outcome := Reached(w, samples[0]);
    while outcome == Waiting && i + 1 < |samples|
      invariant i < |samples| && outcome == Reached(w, samples[i])
      invariant forall k :: 0 <= k < i ==> Reached(w, samples[k]) == Waiting
      decreases |samples| - i
    {
      i := i + 1;
      outcome := Reached(w, samples[i]);
    }
    forall k | 0 <= k <= i ensures Reached(w, samples[k]) == Waiting ==> !GivesUp(samples[k]) && !MilestoneSet(w, samples[k]) {
      ReachedMeans(w, samples[k]);
    }
    ReachedMeans(w, samples[i]);
    NothingWithheld(r, id, w, times[i]);
    if outcome == Done {
      ToldTruly(r, id, w, times[i]);
    } else if outcome == Waiting {
      SleepsOnlyWhileWaiting(r, id, w, times[i]);
    }
  }
}
