/** The user-data gate for VMs as they were asked for, with the rules of the quote spelled out. */
module GateRules {
  import opened Common
  import opened Gate
  import opened Lifecycle
  import opened LifecycleRequirement
  import opened LifecycleRuns
  import opened LifecycleWaits
  import V = Verifier

  /** The event creates the VM. */
  predicate Creates(ev: Event, vm: Id) {
    ev.Serve? && AllocatesAt(ev.action, vm)
  }

  ghost predicate NotCreated(t: Trace, vm: Id, i: nat, j: nat)
    requires j <= |t.events|
  {
    forall m :: i < m < j ==> !Creates(t.events[m], vm)
  }

  lemma RequirementOfEvent(site: Site, t: Trace, i: nat, vm: Id)
    requires IsTrace(site, t) && i < |t.events| && RecordOf(t.states[i + 1].svc, vm).Some?
    ensures var required := RecordOf(t.states[i + 1].svc, vm).value.requireAttestation;
            if Creates(t.events[i], vm) then required == t.events[i].action.required
            else && RecordOf(t.states[i].svc, vm).Some?
                 && RecordOf(t.states[i].svc, vm).value.requireAttestation == required
  {
    GateOK(site, t, i);
    ServiceMovesAt(site, t, i);
    var a := ActionOf(t.states[i], t.events[i]);
    if a.Some? {
      RequirementStep(t.states[i].svc, a.value, vm);
    }
  }

  lemma {:induction false} RequirementOfTrace(site: Site, t: Trace, j: nat, vm: Id) returns (a: nat)
    requires IsTrace(site, t) && j < |t.states| && RecordOf(t.states[j].svc, vm).Some?
    ensures a < j && Creates(t.events[a], vm) && NotCreated(t, vm, a, j)
    ensures RecordOf(t.states[j].svc, vm).value.requireAttestation == t.events[a].action.required
  {
    assert t.states[0].svc.entries == map[] && t.states[0].svc.pending == map[];
    RequirementOfEvent(site, t, j - 1, vm);
    if Creates(t.events[j - 1], vm) {
      a := j - 1;
    } else {
      a := RequirementOfTrace(site, t, j - 1, vm);
    }
  }

  /**
   * The gate as its user sees it. A VM was created with attestation required. Whenever an address resolves to it
   * with its user-data released, a quote of it was accepted by the rules of the initrd stage, for a nonce issued to
   * that VM, used once and in time; its key was enrolled; and its verdict recorded since the last boot began.
   */
  lemma RequiredMeansQuoted(site: Site, t: Trace, a: nat, i: nat, ip: string, vm: Id, base: nat)
      returns (n: nat, c: nat, x: nat, e: nat, q: nat)
    requires IsTrace(site, t) && a < i < |t.states| && NotCreated(t, vm, a, i)
    requires t.events[a] == Serve(Allocate(vm, true, base))
    requires Resolves(t.states[i].svc, ip, vm) && t.states[i].svc.entries[vm].rec.attestation.released
    ensures n < c < x < e < q < i
    ensures t.events[n].IssueNonce? && t.events[n].vm == vm
    ensures t.events[c].Submit? && t.events[c].vm == vm && t.events[c].req.nonce == t.events[n].nonce
    ensures t.events[c].now - t.events[n].now <= site.store.ttl
    ensures t.events[x].Examine? && t.events[x].answer.Found?
    ensures t.events[c].req.stage == "initrd"
    ensures V.InitrdAccepted(site.hash, site.learn, t.events[x].answer.policy, t.events[c].req)
    ensures PinOf(t.states[e + 1], vm) == t.events[c].req.attest.fingerprint
    ensures t.events[q].RecordVerdict? && NoReset(t, q, i, vm)
  {
    var k := RequirementOfTrace(site, t, i, vm);
    assert Creates(t.events[a], vm) && Creates(t.events[k], vm);
    assert k == a;
    n, c, x, e, q := UserDataGate(site, t, i, ip, vm);
    V.SoundMeans(site.hash, site.learn, t.events[x].answer.policy, t.events[c].req);
  }
}
