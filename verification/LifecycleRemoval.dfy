/**
 * "The record disappears when Delete is done": exactly when it does, over whole runs. Between the
 * removal of the directory and the removal from the map a guest's message saves the record again, and
 * after the removal from the map a launch that comes late does.
 */
module LifecycleRemoval {
  import opened Common
  import opened Lifecycle
  import opened LifecycleInvariant
  import opened LifecycleRuns

  /** The directory is gone and the VM is about to leave the map. */
  predicate Torn(op: Holder) {
    op.ByRemove? || op == ByDiscard(true)
  }

  predicate TearsDown(a: Action, id: Id) {
    a == At(id, DeleteTeardown) || a == At(id, DiscardTeardown)
  }

  /** Delete, or a Create that failed, takes the VM out of the map. */
  predicate Removes(a: Action, id: Id) {
    a == At(id, DeleteRemove) || a == At(id, DiscardRemove)
  }

  /** A nonce or a verdict of the VM is recorded. */
  predicate GuestMessage(a: Action, id: Id) {
    a.At? && a.id == id && (a.step.OnNonce? || a.step.RecordQuote?)
  }

  ghost predicate GuestSaved(r: Run, id: Id, from: nat, to: nat)
    requires to <= |r.actions|
  {
    exists m :: from <= m < to && GuestMessage(r.actions[m], id)
  }

  // ---------------------------------------------------------------- from the directory to the map

  lemma NothingWatched(e: Entry, env: Env, pid: Pid)
    requires EntryOK(e, env) && e.proc.None?
    ensures !Watched(e, pid)
  {
    assert pid in e.procs ==> ProcessOK(pid, e.procs[pid], e.proc, e.op);
  }

  /** Once the directory is gone, exactly the guest's recorded messages bring the record back. */
  lemma RemovedRecordSavedIff(e: Entry, env: Env, s: Step)
    requires EntryOK(e, env) && (e.op.ByRemove? || e.op == ByDiscard(true)) && e.disk.None? && Enabled(e, env, s)
    ensures After(e, env, s).disk.Some? <==> s.OnNonce? || s.RecordQuote?
  {
    forall pid ensures !Watched(e, pid) {
      NothingWatched(e, env, pid);
    }
  }

  lemma TornOperation(e: Entry, env: Env, s: Step)
    requires Torn(e.op) && e.disk.Some? && OperationStep(s) && OperationEnabled(e, env, s)
    ensures AfterOperation(e, env, s).disk.Some?
  {
  }

  lemma TornSupervision(e: Entry, env: Env, s: Step)
    requires Torn(e.op) && e.disk.Some? && !OperationStep(s) && SupervisionEnabled(e, env, s)
    ensures AfterSupervision(e, env, s).disk.Some?
  {
  }

  /** A step between teardown and removal. */
  lemma TornStep(e: Entry, env: Env, s: Step)
    requires EntryOK(e, env) && Torn(e.op) && Enabled(e, env, s)
    ensures After(e, env, s).disk.Some? <==> e.disk.Some? || s.OnNonce? || s.RecordQuote?
    ensures !s.DeleteTeardown? && !s.DiscardTeardown?
  {
    if e.disk.None? {
      RemovedRecordSavedIff(e, env, s);
    } else if OperationStep(s) {
      TornOperation(e, env, s);
    } else {
      TornSupervision(e, env, s);
    }
  }

  lemma OperationTears(e: Entry, env: Env, s: Step)
    requires OperationStep(s) && OperationEnabled(e, env, s) && Torn(AfterOperation(e, env, s).op) && !Torn(e.op)
    ensures (s.DeleteTeardown? || s.DiscardTeardown?) && AfterOperation(e, env, s).disk.None?
  {
  }

  lemma SupervisionTearsNothing(e: Entry, env: Env, s: Step)
    requires !OperationStep(s) && SupervisionEnabled(e, env, s) && !Torn(e.op)
    ensures !Torn(AfterSupervision(e, env, s).op)
  {
  }

  /** How an action leads to a VM between teardown and removal. */
  predicate TornBy(e: Entry, e': Entry, tears: bool, guest: bool) {
    if Torn(e.op) then !tears && (e'.disk.Some? <==> e.disk.Some? || guest)
    else tears && e'.disk.None?
  }

  lemma StepTorn(e: Entry, env: Env, id: Id, s: Step)
    requires EntryOK(e, env) && Enabled(e, env, s) && Torn(After(e, env, s).op)
    ensures TornBy(e, After(e, env, s), TearsDown(At(id, s), id), GuestMessage(At(id, s), id))
  {
    if Torn(e.op) {
      TornStep(e, env, s);
    } else if OperationStep(s) {
      OperationTears(e, env, s);
    } else {
      SupervisionTearsNothing(e, env, s);
    }
  }

  lemma NewIsNotTorn(s: Service, a: Action, id: Id)
    requires Possible(s, a) && id in Next(s, a).entries && Torn(Next(s, a).entries[id].op)
    ensures !a.Crash? && id in s.entries
  {
  }

  lemma TornAction(s: Service, a: Action, id: Id)
    requires ServiceOK(s) && Possible(s, a) && !a.Crash? && id in s.entries && id in Next(s, a).entries
    requires Torn(Next(s, a).entries[id].op)
    ensures TornBy(s.entries[id], Next(s, a).entries[id], TearsDown(a, id), GuestMessage(a, id))
  {
    EntryCases(s, a, id);
    if a.At? && a.id == id {
      StepTorn(s.entries[id], s.env, id, a.step);
    }
  }

  lemma TornAt(r: Run, i: nat, id: Id)
    requires IsRun(r) && i < |r.actions| && id in r.states[i + 1].entries && Torn(r.states[i + 1].entries[id].op)
    ensures !r.actions[i].Crash? && id in r.states[i].entries
    ensures TornBy(r.states[i].entries[id], r.states[i + 1].entries[id], TearsDown(r.actions[i], id),
                   GuestMessage(r.actions[i], id))
  {
    EveryStateOK(r, i);
    assert StepAt(r, i);
    NewIsNotTorn(r.states[i], r.actions[i], id);
    TornAction(r.states[i], r.actions[i], id);
  }

  /** The last teardown before `i`. */
  ghost predicate LastTeardown(r: Run, id: Id, j: nat, i: nat)
    requires j < i <= |r.actions|
  {
    && TearsDown(r.actions[j], id) && NoCrash(r, j, i)
    && forall m :: j < m < i ==> !TearsDown(r.actions[m], id)
  }

  /** While the VM waits to leave the map, its record is on disk exactly when a guest's message came since. */
  lemma {:induction false} TornSince(r: Run, i: nat, id: Id) returns (j: nat)
    requires IsRun(r) && i < |r.states| && id in r.states[i].entries && Torn(r.states[i].entries[id].op)
    ensures j < i && LastTeardown(r, id, j, i)
    ensures r.states[i].entries[id].disk.Some? <==> GuestSaved(r, id, j + 1, i)
  {
    assert r.states[0].entries == map[];
    TornAt(r, i - 1, id);
    if Torn(r.states[i - 1].entries[id].op) {
      j := TornSince(r, i - 1, id);
      assert GuestSaved(r, id, j + 1, i) <==> GuestSaved(r, id, j + 1, i - 1) || GuestMessage(r.actions[i - 1], id);
    } else {
      j := i - 1;
    }
  }

  lemma RemovedFrom(r: Run, i: nat, id: Id)
    requires IsRun(r) && i < |r.actions| && Removes(r.actions[i], id)
    ensures id in r.states[i].entries && Torn(r.states[i].entries[id].op)
    ensures id in r.states[i + 1].entries
    ensures r.states[i + 1].entries[id] == r.states[i].entries[id].(inMap := false, op := Nobody)
  {
    assert StepAt(r, i);
  }

  /**
   * When Delete (or a failed Create) is done, its record is on disk again exactly when a nonce or a verdict
   * of the VM was recorded after its directory had been removed.
   */
  lemma RemovedWithRecordIff(r: Run, i: nat, id: Id) returns (j: nat)
    requires IsRun(r) && i < |r.actions| && Removes(r.actions[i], id)
    ensures j < i && LastTeardown(r, id, j, i)
    ensures id in r.states[i + 1].entries && !r.states[i + 1].entries[id].inMap
    ensures r.states[i + 1].entries[id].disk.Some? <==> GuestSaved(r, id, j + 1, i)
  {
    RemovedFrom(r, i, id);
    j := TornSince(r, i, id);
  }

  // ---------------------------------------------------------------- after the removal from the map

  /** A launch stores the record: it provisions, moves to another CID or publishes its process. */
  predicate LaunchWrites(a: Action, id: Id) {
    a == ReassignCid(id) || (a.At? && a.id == id && (a.step.Provision? || a.step.Publish?))
  }

  ghost predicate Wrote(r: Run, id: Id, from: nat, to: nat)
    requires to <= |r.actions|
  {
    exists m :: from <= m < to && LaunchWrites(r.actions[m], id)
  }

  ghost predicate Erased(r: Run, id: Id, from: nat, to: nat)
    requires to <= |r.actions|
  {
    exists m :: from <= m < to && TearsDown(r.actions[m], id)
  }

  /** Outside the map, without a process. */
  predicate Outside(e: Entry) {
    && !e.inMap && e.proc.None? && (e.rec.state.Creating? || e.rec.state.Deleting?)
    && (e.op.Nobody? || e.op.ByLaunch? || e.op.ByDiscard?)
  }

  /** Outside the map, with the process of a late launch. */
  predicate Stray(e: Entry) {
    !e.inMap && e.disk.Some? && !e.launchPending && (e.op.Nobody? || e.op.ByBoot?)
  }

  /** Outside the map, with nothing left to write a record. */
  predicate Over(e: Entry) {
    Outside(e) && e.disk.None? && !e.launchPending && !e.op.ByLaunch? && e.op != ByDiscard(false)
  }

  lemma OutsideOperation(e: Entry, env: Env, s: Step)
    requires EntryOK(e, env) && Outside(e) && OperationStep(s) && OperationEnabled(e, env, s) && !s.Publish?
    ensures Outside(AfterOperation(e, env, s)) && !s.DeleteTeardown?
    ensures AfterOperation(e, env, s).disk.Some? <==> !s.DiscardTeardown? && (e.disk.Some? || s.Provision?)
    ensures s.DiscardTeardown? ==> Over(AfterOperation(e, env, s))
  {
  }

  lemma OutsideSupervision(e: Entry, env: Env, s: Step)
    requires Outside(e) && !OperationStep(s) && SupervisionEnabled(e, env, s) && forall pid :: !Watched(e, pid)
    ensures Outside(AfterSupervision(e, env, s)) && (AfterSupervision(e, env, s).disk.Some? <==> e.disk.Some?)
  {
  }

  lemma OutsideStep(e: Entry, env: Env, s: Step)
    requires EntryOK(e, env) && Outside(e) && Enabled(e, env, s) && !s.Publish?
    ensures Outside(After(e, env, s)) && !s.DeleteTeardown?
    ensures After(e, env, s).disk.Some? <==> !s.DiscardTeardown? && (e.disk.Some? || s.Provision?)
    ensures s.DiscardTeardown? ==> Over(After(e, env, s))
  {
    if OperationStep(s) {
      OutsideOperation(e, env, s);
    } else {
      forall pid ensures !Watched(e, pid) {
        NothingWatched(e, env, pid);
      }
      OutsideSupervision(e, env, s);
    }
  }

  lemma OutsidePublish(e: Entry, env: Env)
    requires EntryOK(e, env) && Outside(e) && Enabled(e, env, Publish)
    ensures Stray(After(e, env, Publish))
  {
  }

  lemma StrayStep(e: Entry, env: Env, s: Step)
    requires Stray(e) && Enabled(e, env, s)
    ensures Stray(After(e, env, s)) && !s.DeleteTeardown? && !s.DiscardTeardown?
  {
  }

  lemma OverStep(e: Entry, env: Env, s: Step)
    requires EntryOK(e, env) && Over(e) && Enabled(e, env, s)
    ensures Over(After(e, env, s)) && !s.DeleteTeardown? && !s.DiscardTeardown? && !s.Publish? && !s.Provision?
  {
    forall pid ensures !Watched(e, pid) {
      NothingWatched(e, env, pid);
    }
  }

  /** How an action moves a VM that has left the map. */
  predicate Moves(e: Entry, e': Entry, writes: bool, erases: bool) {
    if Over(e) then Over(e') && !writes && !erases
    else if erases then Over(e') && !writes
    else (Outside(e') || Stray(e')) && (e'.disk.Some? <==> e.disk.Some? || writes)
  }

  lemma StepMoves(e: Entry, env: Env, id: Id, s: Step)
    requires EntryOK(e, env) && Enabled(e, env, s) && (Outside(e) || Stray(e))
    ensures Moves(e, After(e, env, s), LaunchWrites(At(id, s), id), TearsDown(At(id, s), id))
  {
    if Over(e) {
      OverStep(e, env, s);
    } else if Stray(e) {
      StrayStep(e, env, s);
    } else if s.Publish? {
      OutsidePublish(e, env);
    } else {
      OutsideStep(e, env, s);
    }
  }

  lemma ActionMoves(s: Service, a: Action, id: Id)
    requires ServiceOK(s) && Possible(s, a) && !a.Crash? && id in s.entries && (Outside(s.entries[id]) || Stray(s.entries[id]))
    ensures id in Next(s, a).entries
    ensures Moves(s.entries[id], Next(s, a).entries[id], LaunchWrites(a, id), TearsDown(a, id))
  {
    EntryCases(s, a, id);
    if a.At? && a.id == id {
      StepMoves(s.entries[id], s.env, id, a.step);
    }
  }

  /** Outside the map only a late launch writes. */
  lemma WriterIsLate(s: Service, a: Action, id: Id)
    requires ServiceOK(s) && Possible(s, a) && LaunchWrites(a, id) && id in s.entries && !s.entries[id].inMap
    ensures s.entries[id].late
  {
    assert EntryOK(s.entries[id], s.env);
  }

  lemma MovesAt(r: Run, i: nat, id: Id)
    requires IsRun(r) && i < |r.actions| && !r.actions[i].Crash? && id in r.states[i].entries
    requires Outside(r.states[i].entries[id]) || Stray(r.states[i].entries[id])
    ensures id in r.states[i + 1].entries
    ensures Moves(r.states[i].entries[id], r.states[i + 1].entries[id],
                  LaunchWrites(r.actions[i], id), TearsDown(r.actions[i], id))
    ensures r.states[i].entries[id].late || LaunchWrites(r.actions[i], id) ==> r.states[i + 1].entries[id].late
  {
    EveryStateOK(r, i);
    assert StepAt(r, i);
    ActionMoves(r.states[i], r.actions[i], id);
    StaysAt(r, i, id);
    if LaunchWrites(r.actions[i], id) {
      WriterIsLate(r.states[i], r.actions[i], id);
    }
  }

  /** Where a VM is that left the map at `i`. */
  ghost predicate Afterwards(r: Run, i: nat, k: nat, id: Id)
    requires i <= k < |r.states| && |r.states| == |r.actions| + 1
  {
    && id in r.states[i].entries && id in r.states[k].entries
    && var e := r.states[k].entries[id];
       && (if Erased(r, id, i, k) then Over(e)
           else (Outside(e) || Stray(e)) && (e.disk.Some? <==> r.states[i].entries[id].disk.Some? || Wrote(r, id, i, k)))
       && (Wrote(r, id, i, k) ==> e.late)
  }

  /** A VM outside the map: its record at any later point until the next crash. */
  lemma {:induction false} RecordAfterwards(r: Run, i: nat, k: nat, id: Id)
    requires IsRun(r) && i <= k < |r.states| && NoCrash(r, i, k) && id in r.states[i].entries
    requires Outside(r.states[i].entries[id])
    ensures Afterwards(r, i, k, id)
  {
    if i < k {
      RecordAfterwards(r, i, k - 1, id);
      MovesAt(r, k - 1, id);
      assert Erased(r, id, i, k) <==> Erased(r, id, i, k - 1) || TearsDown(r.actions[k - 1], id);
      assert Wrote(r, id, i, k) <==> Wrote(r, id, i, k - 1) || LaunchWrites(r.actions[k - 1], id);
    }
  }

  lemma RemovedIsOutside(r: Run, i: nat, id: Id)
    requires IsRun(r) && i < |r.actions| && Removes(r.actions[i], id)
    ensures id in r.states[i + 1].entries && Outside(r.states[i + 1].entries[id])
  {
    RemovedFrom(r, i, id);
    EveryStateOK(r, i);
    assert EntryOK(r.states[i].entries[id], r.states[i].env);
  }

  /**
   * When vm-manager crashes after a VM was removed, the VM's record comes back exactly when a guest's message
   * was recorded between teardown and removal, or a launch wrote it later, and no failed launch
   * erased it again. Such a launch was late.
   */
  lemma RemovedVmReturnsIff(r: Run, i: nat, k: nat, id: Id) returns (j: nat)
    requires IsRun(r) && i < k < |r.actions| && Removes(r.actions[i], id) && NoCrash(r, i, k) && r.actions[k].Crash?
    ensures j < i && LastTeardown(r, id, j, i)
    ensures RecordOf(r.states[k + 1], id).Some? <==>
              !Erased(r, id, i + 1, k) && (GuestSaved(r, id, j + 1, i) || Wrote(r, id, i + 1, k))
    ensures id in r.states[k].entries && (Wrote(r, id, i + 1, k) ==> r.states[k].entries[id].late)
  {
    j := RemovedWithRecordIff(r, i, id);
    RemovedIsOutside(r, i, id);
    RecordAfterwards(r, i + 1, k, id);
    CrashKeepsRecords(r, k, id);
  }
}
