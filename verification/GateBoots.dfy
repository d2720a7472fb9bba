/** The boot a verdict belongs to: which release unlocks the boot whose quote was judged. */
module GateBoots {
  import opened Common
  import opened Lifecycle
  import opened LifecycleWaits
  import opened LifecycleBoots
  import opened Gate
  import Policy

  function ProcOf(g: Gate, vm: Id): Option<Pid>
    requires vm in g.svc.entries
  {
    g.svc.entries[vm].proc
  }

  /** The installed system of the VM runs. */
  predicate BootUp(g: Gate, vm: Id) {
    vm in g.svc.entries && ProcOf(g, vm).Some? && RunsBoot(g.svc.entries[vm], ProcOf(g, vm).value)
  }

  // ---------------------------------------------------------------- along a trace

  lemma KnownStepAt(site: Site, t: Trace, i: nat, vm: Id, p: Pid)
    requires IsTrace(site, t) && i < |t.events| && !Crashes(t.events[i])
    requires vm in t.states[i].svc.entries && Known(t.states[i].svc.entries[vm], p)
    ensures vm in t.states[i + 1].svc.entries && Known(t.states[i + 1].svc.entries[vm], p)
    ensures Past(t.states[i].svc.entries[vm], p) || Resets(t.states[i], t.events[i], vm) ==>
              Past(t.states[i + 1].svc.entries[vm], p)
  {
    GateOK(site, t, i);
    ServiceMovesAt(site, t, i);
    var g, a := t.states[i], ActionOf(t.states[i], t.events[i]);
    if a.Some? {
      ActionKeepsPast(g.svc, a.value, vm, p);
      if BootsAt(g.svc, a.value, vm) {
        BootReplaces(g.svc, a.value, vm, p);
      }
    }
  }

  /** A process known at one point is past once a boot was published since. */
  lemma {:induction false} PastAfterReset(site: Site, t: Trace, i: nat, j: nat, vm: Id, p: Pid)
    requires IsTrace(site, t) && i <= j < |t.states| && NoRestart(t, i, j)
    requires vm in t.states[i].svc.entries && Known(t.states[i].svc.entries[vm], p)
    ensures vm in t.states[j].svc.entries && Known(t.states[j].svc.entries[vm], p)
    ensures (exists m :: i <= m < j && Resets(t.states[m], t.events[m], vm)) ==> Past(t.states[j].svc.entries[vm], p)
  {
    if i < j {
      PastAfterReset(site, t, i, j - 1, vm, p);
      KnownStepAt(site, t, j - 1, vm, p);
    }
  }

  lemma BootStepAt(site: Site, t: Trace, i: nat, vm: Id, p: Pid)
    requires IsTrace(site, t) && i < |t.events| && !Crashes(t.events[i]) && vm in t.states[i].svc.entries
    requires vm in t.states[i + 1].svc.entries && RunsBoot(t.states[i + 1].svc.entries[vm], p)
    requires !Resets(t.states[i], t.events[i], vm)
    ensures RunsBoot(t.states[i].svc.entries[vm], p)
  {
    GateOK(site, t, i);
    ServiceMovesAt(site, t, i);
    var a := ActionOf(t.states[i], t.events[i]);
    if a.Some? {
      ActionRunsBoot(t.states[i].svc, a.value, vm, p);
    }
  }

  /** A boot that is up was up all the time since, if none was published in between. */
  lemma {:induction false} SameBootSince(site: Site, t: Trace, i: nat, j: nat, vm: Id, p: Pid)
    requires IsTrace(site, t) && i <= j < |t.states| && NoRestart(t, i, j)
    requires vm in t.states[i].svc.entries && vm in t.states[j].svc.entries && RunsBoot(t.states[j].svc.entries[vm], p)
    requires forall m :: i <= m < j ==> !Resets(t.states[m], t.events[m], vm)
    ensures RunsBoot(t.states[i].svc.entries[vm], p)
  {
    if i < j {
      StaysListed(site, t, i, j - 1, vm);
      BootStepAt(site, t, j - 1, vm, p);
      SameBootSince(site, t, i, j - 1, vm, p);
    }
  }

  lemma {:induction false} StaysListed(site: Site, t: Trace, i: nat, j: nat, vm: Id)
    requires IsTrace(site, t) && i <= j < |t.states| && NoRestart(t, i, j) && vm in t.states[i].svc.entries
    ensures vm in t.states[j].svc.entries
  {
    if i < j {
      StaysListed(site, t, i, j - 1, vm);
      MapStepAt(site, t, j - 1, vm);
    }
  }

  /**
   * Between a submission and a point where the installed system runs, without a restart, no boot was
   * published exactly when the VM's process is the one it was when the quote was submitted.
   */
  lemma SameProcessIffNoReset(site: Site, t: Trace, c: nat, q: nat, vm: Id)
    requires IsTrace(site, t) && c < q < |t.states| && NoRestart(t, c, q)
    requires t.events[c].Submit? && t.events[c].vm == vm && BootUp(t.states[q], vm)
    ensures vm in t.states[c].svc.entries
    ensures ProcOf(t.states[c], vm) == ProcOf(t.states[q], vm) <==> NoReset(t, c, q, vm)
  {
    assert HappensAt(site, t, c);
    var p := ProcOf(t.states[q], vm).value;
    if NoReset(t, c, q, vm) {
      assert !Resets(t.states[c], t.events[c], vm);
      SameBootSince(site, t, c, q, vm, p);
    } else if ProcOf(t.states[c], vm) == Some(p) {
      GateOK(site, t, c);
      CurrentIsKnown(t.states[c].svc.entries[vm], t.states[c].svc.env, p);
      PastAfterReset(site, t, c, q, vm, p);
    }
  }

  lemma NoResetConcat(t: Trace, c: nat, q: nat, i: nat, vm: Id)
    requires |t.states| == |t.events| + 1 && c < q < i < |t.states|
    requires Releases(t.states[q], t.events[q], vm) && NoReset(t, q, i, vm)
    ensures NoReset(t, c, i, vm) <==> NoReset(t, c, q, vm)
  {
    if NoReset(t, c, q, vm) {
      forall m | c < m < i ensures !Resets(t.states[m], t.events[m], vm) {
        assert m < q || m == q || q < m;
      }
    }
  }

  /**
   * The boot a release belongs to. Of the chain behind released user-data, recorded while the installed
   * system ran: the quote was submitted in the very boot that is unlocked, no boot having begun since,
   * if and only if the VM's process at the submission was its process when the verdict was recorded.
   */
  lemma VerdictOfThisBoot(site: Site, t: Trace, i: nat, ip: string, vm: Id)
      returns (n: nat, c: nat, x: nat, e: nat, q: nat)
    requires IsTrace(site, t) && i < |t.states| && Resolves(t.states[i].svc, ip, vm) && Open(t.states[i].svc, vm)
    ensures e < q < i && Releases(t.states[q], t.events[q], vm) && NoReset(t, q, i, vm)
    ensures Vetted(site, t, e, vm, Policy.STAGE_INITRD, ReleasedKey(t.states[q], t.events[q], vm), c, x)
    ensures LiveAt(site, t, n, c) && c < e && vm in t.states[c].svc.entries
    ensures BootUp(t.states[q], vm) ==>
              (ProcOf(t.states[c], vm) == ProcOf(t.states[q], vm) <==> NoReset(t, c, i, vm))
  {
    n, c, x, e, q := UserDataGate(site, t, i, ip, vm);
    assert HappensAt(site, t, c);
    if BootUp(t.states[q], vm) {
      assert NoRestart(t, c, q);
      SameProcessIffNoReset(site, t, c, q, vm);
      NoResetConcat(t, c, q, i, vm);
    }
  }
}
