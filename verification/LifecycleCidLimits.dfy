/** Two runs in which VMs end up with the same CID. */
module LifecycleCidLimits {
  import opened Common
  import opened Lifecycle
  import opened LifecycleCids
  import opened LifecycleLimits
  import opened LifecycleSteps
  import Cid

  lemma ThenStep(r: Run, id: Id, s: Step) returns (q: Run)
    requires IsRun(r) && id in Last(r).entries && Enabled(Last(r).entries[id], Last(r).env, s)
    ensures IsRun(q) && Last(q).env == Last(r).env && Last(q).pending == Last(r).pending
    ensures Last(q).entries == Last(r).entries[id := After(Last(r).entries[id], Last(r).env, s)]
  {
    q := Then(r, At(id, s));
  }

  /** A run continued by the steps of one VM. */
  lemma {:induction false} ThenSteps(r: Run, id: Id, steps: seq<Step>, e: Entry) returns (q: Run)
    requires IsRun(r) && id in Last(r).entries && EntryLeads(Last(r).entries[id], Last(r).env, steps, e)
    ensures IsRun(q) && Last(q).env == Last(r).env && Last(q).pending == Last(r).pending
    ensures Last(q).entries == Last(r).entries[id := e]
    decreases |steps|
  {
    q := r;
    if steps != [] {
      var v := ThenStep(r, id, steps[0]);
      q := ThenSteps(v, id, steps[1..], e);
      assert Last(q).entries == Last(r).entries[id := e];
    } else {
      assert Last(r).entries[id := e] == Last(r).entries;
    }
  }

  lemma FirstCid(start: nat, used: set<nat>)
    requires Cid.InRange(start) && start !in used
    ensures Cid.FreeCid(used, start) == start
  {
    assert Cid.Candidate(start, 0) == start;
    Cid.FoundFirst(used, start, 0);
  }

  lemma SecondCid(start: nat)
    requires Cid.InRange(start) && Cid.InRange(start + 1)
    ensures Cid.FreeCid({start}, start) == start + 1
  {
    assert Cid.Candidate(start, 0) == start && Cid.Candidate(start, 1) == start + 1;
    Cid.FoundFirst({start}, start, 1);
  }

  // ---------------------------------------------------------------- a reassignment during load

  /** VM "a" installs with CID 3, VM "b" was just created with CID 4. */
  predicate TwoVms(s: Service) {
    && s.entries.Keys == {"a", "b"} && s.pending == map[] && s.env == Env(false, false, false)
    && Installs(s.entries["a"]) && s.entries["a"].rec.cid == 3
    && s.entries["b"].inMap && s.entries["b"].disk == Some(s.entries["b"].rec) && s.entries["b"].rec.cid == 4
  }

  lemma AInstalls() returns (r: Run)
    ensures IsRun(r) && Last(r).entries.Keys == {"a"} && Last(r).pending == map[] && Last(r).env == Env(false, false, false)
    ensures Installs(Last(r).entries["a"]) && Last(r).entries["a"].rec.cid == 3
  {
    assert HeldCids(Init(false)) == {};
    FirstCid(3, {});
    var u := Then(Start(), Allocate("a", true, 3));
    var steps, e := LaunchLeads(Last(u).entries["a"], Last(u).env);
    r := ThenSteps(u, "a", steps, e);
  }

  lemma BothCreated() returns (r: Run)
    ensures IsRun(r) && TwoVms(Last(r))
  {
    var u := AInstalls();
    assert HeldCids(Last(u)) == {3};
    SecondCid(3);
    r := Then(u, Allocate("b", true, 3));
  }

  /** After a crash "a" is loaded with its process, "b" not yet. */
  predicate OneLoaded(s: Service) {
    && s.entries.Keys == {"a"} && s.pending.Keys == {"b"} && s.env == Env(false, false, false)
    && s.entries["a"].inMap && s.entries["a"].rec.cid == 3 && s.pending["b"].cid == 4
  }

  /** A crash leaves what is on disk. */
  lemma CrashedTwo(s: Service)
    requires TwoVms(s)
    ensures OnDisk(s) == map["a" := s.entries["a"].rec, "b" := s.entries["b"].rec]
  {
  }

  lemma Crashed() returns (r: Run)
    ensures IsRun(r) && Last(r).entries == map[] && Last(r).env == Env(false, false, false)
    ensures Last(r).pending.Keys == {"a", "b"} && Last(r).pending["b"].cid == 4
    ensures Last(r).pending["a"].cid == 3 && Installs(Loaded(Last(r).pending["a"], true))
  {
    var u := BothCreated();
    CrashedTwo(Last(u));
    r := Then(u, Crash);
  }

  lemma CrashedAndLoading() returns (r: Run)
    ensures IsRun(r) && OneLoaded(Last(r)) && Installs(Last(r).entries["a"])
  {
    var u := Crashed();
    r := Then(u, LoadEntry("a", true));
    assert Last(u).pending.Keys - {"a"} == {"b"};
  }

  lemma HandoffDuringLoad() returns (r: Run)
    ensures IsRun(r) && OneLoaded(Last(r)) && StartOpen(Last(r).entries["a"].op)
  {
    var u := CrashedAndLoading();
    var steps, e := InstallLeads(Last(u).entries["a"], Last(u).env);
    r := ThenSteps(u, "a", steps, e);
  }

  /**
   * A reassignment while records are still being loaded can take the CID of one of them: VM "a", reattached
   * while it installs, finishes and boots, is refused its CID and moved to the next, which is that of "b".
   */
  lemma ReassignDuringLoadCollides() returns (r: Run)
    ensures IsRun(r) && |r.actions| > 0 && r.actions[|r.actions| - 1] == ReassignCid("a")
    ensures CidOf(Last(r), "a") == CidOf(Last(r), "b") == Some(4) && !DistinctCids(Last(r))
  {
    var u := HandoffDuringLoad();
    assert HeldCids(Last(u)) == {3};
    FirstCid(4, {3});
    r := Then(u, ReassignCid("a"));
  }

  // ---------------------------------------------------------------- a record that returns

  predicate Removing(e: Entry) {
    && e.inMap && e.op == ByRemove && e.disk.Some? && e.disk.value == e.rec && e.rec.cid == 3
  }

  lemma RemoveLeads(e: Entry, env: Env) returns (steps: seq<Step>, e': Entry)
    requires e.inMap && e.op == Nobody && e.proc.None? && e.rec.state != Deleting && e.rec.cid == 3
    ensures EntryLeads(e, env, steps, e') && Removing(e')
  {
    var e1 := DeleteMarked(e);
    var e2 := e1.(disk := None, op := ByRemove);
    e' := WithRecord(e2, NonceIssued(e2.rec));
    EntryLeadsFirst(e2, env, OnNonce, e', [], e');
    EntryLeadsFirst(e1, env, DeleteTeardown, e2, [OnNonce] + [], e');
    EntryLeadsFirst(e, env, DeleteBegin, e1, [DeleteTeardown] + ([OnNonce] + []), e');
    steps := [DeleteBegin] + ([DeleteTeardown] + ([OnNonce] + []));
  }

  /** Deleted, with a nonce recorded after the directory was gone. */
  lemma RemovedWithRecord() returns (r: Run)
    ensures IsRun(r) && Last(r).entries.Keys == {"a"} && Last(r).pending == map[] && Last(r).env == Env(false, false, false)
    ensures var e := Last(r).entries["a"]; !e.inMap && e.disk.Some? && e.disk.value.cid == 3
  {
    assert HeldCids(Init(false)) == {};
    FirstCid(3, {});
    var u := Then(Start(), Allocate("a", true, 3));
    var steps, e := RemoveLeads(Last(u).entries["a"], Last(u).env);
    var v := ThenSteps(u, "a", steps, e);
    r := ThenStep(v, "a", DeleteRemove);
  }

  /**
   * A record that returns can collide: the CID of a deleted VM is given to the next one, and a crash
   * brings the deleted VM's record back beside it.
   */
  lemma ReturningRecordCollides() returns (r: Run)
    ensures IsRun(r) && |r.actions| > 0 && r.actions[|r.actions| - 1] == Crash
    ensures CidOf(Last(r), "a") == CidOf(Last(r), "b") == Some(3) && !DistinctCids(Last(r))
  {
    var u := RemovedWithRecord();
    assert HeldCids(Last(u)) == {};
    FirstCid(3, {});
    var v := Then(u, Allocate("b", true, 3));
    r := Then(v, Crash);
  }
}
