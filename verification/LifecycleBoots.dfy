/** Processes tell boots apart: while vm-manager runs, a process that was replaced does not come back. */
module LifecycleBoots {
  import opened Common
  import opened Lifecycle
  import opened LifecycleInvariant
  import opened LifecycleRuns
  import opened LifecycleWaits

  /** The process was published. */
  predicate Known(e: Entry, p: Pid) {
    p in e.procs && !e.procs[p].supervisor.Starting?
  }

  /** It was, and is not the VM's process any more. */
  predicate Past(e: Entry, p: Pid) {
    Known(e, p) && e.proc != Some(p)
  }

  lemma OperationKeepsPast(e: Entry, env: Env, s: Step, p: Pid)
    requires EntryOK(e, env) && OperationStep(s) && OperationEnabled(e, env, s) && Known(e, p)
    ensures Known(AfterOperation(e, env, s), p)
    ensures Past(e, p) ==> Past(AfterOperation(e, env, s), p)
  {
    assert ProcessOK(p, e.procs[p], e.proc, e.op);
  }

  lemma SupervisionKeepsPast(e: Entry, env: Env, s: Step, p: Pid)
    requires EntryOK(e, env) && !OperationStep(s) && SupervisionEnabled(e, env, s) && Known(e, p)
    ensures Known(AfterSupervision(e, env, s), p)
    ensures Past(e, p) ==> Past(AfterSupervision(e, env, s), p)
  {
  }

  /** A published process stays known, and once replaced stays replaced. */
  lemma ActionKeepsPast(s: Service, a: Action, id: Id, p: Pid)
    requires ServiceOK(s) && Possible(s, a) && !a.Crash? && id in s.entries && Known(s.entries[id], p)
    ensures id in Next(s, a).entries && Known(Next(s, a).entries[id], p)
    ensures Past(s.entries[id], p) ==> Past(Next(s, a).entries[id], p)
  {
    EntryCases(s, a, id);
    if a.At? && a.id == id {
      if OperationStep(a.step) {
        OperationKeepsPast(s.entries[id], s.env, a.step, p);
      } else {
        SupervisionKeepsPast(s.entries[id], s.env, a.step, p);
      }
    }
  }

  /** The VM runs this process, and it is one of the installed system. */
  predicate RunsBoot(e: Entry, p: Pid) {
    e.proc == Some(p) && p in e.procs && e.procs[p].phase == BootPhase
  }

  /** The process an entry points to is a published one. */
  lemma CurrentIsKnown(e: Entry, env: Env, p: Pid)
    requires EntryOK(e, env) && e.proc == Some(p)
    ensures Known(e, p)
  {
    assert ProcessOK(p, e.procs[p], e.proc, e.op);
  }

  lemma OperationRunsBoot(e: Entry, env: Env, s: Step, p: Pid)
    requires EntryOK(e, env) && OperationStep(s) && OperationEnabled(e, env, s)
    requires RunsBoot(AfterOperation(e, env, s), p) && !Boots(e, s)
    ensures RunsBoot(e, p)
  {
    assert forall q :: q in e.procs ==> ProcessOK(q, e.procs[q], e.proc, e.op);
  }

  lemma SupervisionRunsBoot(e: Entry, env: Env, s: Step, p: Pid)
    requires EntryOK(e, env) && !OperationStep(s) && SupervisionEnabled(e, env, s)
    requires RunsBoot(AfterSupervision(e, env, s), p)
    ensures RunsBoot(e, p)
  {
  }

  /** A boot that is up was up before, unless the action published it. */
  lemma ActionRunsBoot(s: Service, a: Action, id: Id, p: Pid)
    requires ServiceOK(s) && Possible(s, a) && !a.Crash? && id in s.entries && id in Next(s, a).entries
    requires RunsBoot(Next(s, a).entries[id], p) && !BootsAt(s, a, id)
    ensures RunsBoot(s.entries[id], p)
  {
    EntryCases(s, a, id);
    if a.At? && a.id == id {
      if OperationStep(a.step) {
        OperationRunsBoot(s.entries[id], s.env, a.step, p);
      } else {
        SupervisionRunsBoot(s.entries[id], s.env, a.step, p);
      }
    }
  }

  /** Publishing a boot makes every process known before a past one: the lock holder found none running. */
  lemma BootReplaces(s: Service, a: Action, id: Id, p: Pid)
    requires ServiceOK(s) && Possible(s, a) && BootsAt(s, a, id) && Known(s.entries[id], p)
    ensures Past(s.entries[id], p)
  {
    assert EntryOK(s.entries[id], s.env);
  }
}
