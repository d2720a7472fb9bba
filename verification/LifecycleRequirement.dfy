/** Whether a VM must attest is decided when it is created, for good. */
module LifecycleRequirement {
  import opened Common
  import opened Lifecycle
  import opened LifecycleInvariant
  import opened LifecycleRuns
  import opened LifecycleWaits

  /** A record is the one there was, or made by this action as it asks. */
  lemma RequirementStep(s: Service, a: Action, id: Id)
    requires ServiceOK(s) && Possible(s, a) && RecordOf(Next(s, a), id).Some?
    ensures var required := RecordOf(Next(s, a), id).value.requireAttestation;
            if AllocatesAt(a, id) then required == a.required
            else RecordOf(s, id).Some? && RecordOf(s, id).value.requireAttestation == required
  {
    if !AllocatesAt(a, id) {
      ActionSourced(s, a, id);
      NotFromNothing(s, a, id);
    }
  }

  lemma NotFromNothing(s: Service, a: Action, id: Id)
    requires Possible(s, a) && RecordOf(Next(s, a), id).Some? && !AllocatesAt(a, id)
    ensures RecordOf(s, id).Some?
  {
  }

  ghost predicate NotAllocated(r: Run, id: Id, i: nat, j: nat)
    requires j <= |r.actions|
  {
    forall m :: i < m < j ==> !AllocatesAt(r.actions[m], id)
  }

  lemma RequirementAt(r: Run, i: nat, id: Id)
    requires IsRun(r) && i < |r.actions| && RecordOf(r.states[i + 1], id).Some?
    ensures var required := RecordOf(r.states[i + 1], id).value.requireAttestation;
            if AllocatesAt(r.actions[i], id) then required == r.actions[i].required
            else RecordOf(r.states[i], id).Some? && RecordOf(r.states[i], id).value.requireAttestation == required
  {
    EveryStateOK(r, i);
    assert StepAt(r, i);
    RequirementStep(r.states[i], r.actions[i], id);
  }

  /** Every record was made by an allocation, and requires attestation exactly if that asked for it. */
  lemma {:induction false} RequiredAsAllocated(r: Run, j: nat, id: Id) returns (i: nat)
    requires IsRun(r) && j < |r.states| && RecordOf(r.states[j], id).Some?
    ensures i < j && AllocatesAt(r.actions[i], id) && NotAllocated(r, id, i, j)
    ensures RecordOf(r.states[j], id).value.requireAttestation == r.actions[i].required
  {
    assert r.states[0].entries == map[] && r.states[0].pending == map[];
    RequirementAt(r, j - 1, id);
    if AllocatesAt(r.actions[j - 1], id) {
      i := j - 1;
    } else {
      i := RequiredAsAllocated(r, j - 1, id);
    }
  }

  /** After an allocation every later record of that id, in memory or still to be loaded, requires what was asked. */
  lemma RequirementIsFinal(r: Run, i: nat, j: nat, id: Id, required: bool, base: nat)
    requires IsRun(r) && i < j < |r.states| && r.actions[i] == Allocate(id, required, base) && NotAllocated(r, id, i, j)
    requires RecordOf(r.states[j], id).Some?
    ensures RecordOf(r.states[j], id).value.requireAttestation == required
  {
    var k := RequiredAsAllocated(r, j, id);
    assert AllocatesAt(r.actions[i], id) && AllocatesAt(r.actions[k], id);
    assert k == i;
  }

  /** A VM created without the requirement is never locked out: once booted, its user-data is released, quote or not. */
  lemma UnrequiredIsReleased(r: Run, i: nat, j: nat, id: Id, base: nat)
    requires IsRun(r) && i < j < |r.states| && r.actions[i] == Allocate(id, false, base) && NotAllocated(r, id, i, j)
    requires id in r.states[j].entries && r.states[j].entries[id].rec.state in {Booting, Attesting, State.Ready, Running}
    ensures r.states[j].entries[id].rec.attestation.released
  {
    RequirementIsFinal(r, i, j, id, false, base);
    RecordAndProcessAgree(r, j, id);
    EveryStateOK(r, j);
    assert EntryOK(r.states[j].entries[id], r.states[j].env);
  }
}
