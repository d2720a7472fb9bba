/** vsock CIDs stay pairwise distinct over runs. */
module LifecycleCids {
  import opened Common
  import opened Lifecycle
  import opened LifecycleInvariant
  import opened LifecycleRuns
  import Cid

  /** The CID a VM holds: one in the VM map, or one whose record is still to be loaded. */
  function CidOf(s: Service, id: Id): Option<nat> {
    if id in s.entries then (if s.entries[id].inMap then Some(s.entries[id].rec.cid) else None)
    else if id in s.pending then Some(s.pending[id].cid)
    else None
  }

  ghost predicate DistinctCids(s: Service) {
    && (forall i, j :: i != j && CidOf(s, i).Some? && CidOf(s, j).Some? ==> CidOf(s, i) != CidOf(s, j))
    && (forall i :: CidOf(s, i).Some? ==> Cid.InRange(CidOf(s, i).value))
  }

  /** The record of a VM that has left the map is on disk, and comes back with the next restart. */
  predicate Returns(s: Service, id: Id) {
    id in s.entries && !s.entries[id].inMap && s.entries[id].disk.Some?
  }

  /**
   * When an action keeps CIDs apart. A CID handed out is one of the valid range, so some CID was left,
   * and no record still to be loaded holds it; at a crash no record of a removed VM comes
   * back with a CID that another stored record has. Nothing else hands out or brings back CIDs.
   */
  ghost predicate Apart(s: Service, a: Action) {
    match a
    case Allocate(_, _, base) => Cid.InRange(Cid.FreeCid(HeldCids(s), base))
    case ReassignCid(id) => id in s.entries && s.entries[id].inMap ==> FreeForAll(s, s.entries[id].rec.cid + 1)
    case Crash => forall id :: Returns(s, id) ==> ReturnsAlone(s, id)
    case _ => true
  }

  ghost predicate FreeForAll(s: Service, start: nat) {
    var cid := Cid.FreeCid(HeldCids(s), start);
    Cid.InRange(cid) && forall j :: j in s.pending ==> s.pending[j].cid != cid
  }

  predicate ReturnsAlone(s: Service, id: Id)
    requires Returns(s, id)
  {
    var cid := s.entries[id].rec.cid;
    Cid.InRange(cid) && forall j :: j in OnDisk(s) && j != id ==> OnDisk(s)[j].cid != cid
  }

  lemma FreeCidIsFree(used: set<nat>, base: nat)
    ensures Cid.InRange(Cid.FreeCid(used, base)) ==> Cid.FreeCid(used, base) !in used
  {
  }

  /** With fewer VMs than CIDs, one is left. */
  lemma {:induction false} HeldCidsBounded(s: Service, ids: set<Id>)
    requires forall id :: id in ids ==> id in s.entries
    ensures |set id | id in ids :: s.entries[id].rec.cid| <= |ids|
  {
    var cids := set id | id in ids :: s.entries[id].rec.cid;
    if ids != {} {
      var id :| id in ids;
      var rest := set i | i in ids - {id} :: s.entries[i].rec.cid;
      HeldCidsBounded(s, ids - {id});
      assert cids == rest + {s.entries[id].rec.cid};
    }
  }

  /** A CID is left for every new VM while there are fewer VMs in the map than CIDs. */
  lemma RoomForAnother(s: Service, base: nat)
    requires |set id | id in s.entries && s.entries[id].inMap| < Cid.SPAN
    ensures Cid.InRange(Cid.FreeCid(HeldCids(s), base))
  {
    var ids := set id | id in s.entries && s.entries[id].inMap;
    HeldCidsBounded(s, ids);
    assert HeldCids(s) == set id | id in ids :: s.entries[id].rec.cid;
    Cid.RoomLeft(HeldCids(s));
  }

  /** Steps of one VM, Close and loading only keep or drop the CIDs held. */
  lemma OthersKeepCids(s: Service, a: Action, id: Id)
    requires ServiceOK(s) && Possible(s, a) && !a.Allocate? && !a.ReassignCid? && !a.Crash?
    ensures CidOf(Next(s, a), id).Some? ==> CidOf(Next(s, a), id) == CidOf(s, id)
  {
    if id in s.entries {
      EntryCases(s, a, id);
      ActionStays(s, a, id);
      if a.At? && a.id == id {
        StepKeepsCid(s.entries[id], s.env, a.step);
      }
    }
  }

  /** Giving one VM a CID keeps all apart exactly when it is valid and no other VM has it. */
  lemma NewCidKeepsIff(s: Service, s': Service, id: Id, cid: nat)
    requires DistinctCids(s) && CidOf(s', id) == Some(cid)
    requires forall i :: i != id ==> CidOf(s', i) == CidOf(s, i)
    ensures DistinctCids(s') <==> Cid.InRange(cid) && forall i :: i != id ==> CidOf(s, i) != Some(cid)
  {
    if i :| i != id && CidOf(s, i) == Some(cid) {
      assert CidOf(s', i) == CidOf(s', id);
    }
  }

  lemma HeldIsCid(s: Service, i: Id)
    requires CidOf(s, i).Some?
    ensures CidOf(s, i).value in HeldCids(s) || (i in s.pending && s.pending[i].cid == CidOf(s, i).value)
  {
  }

  lemma AllocateKeepsIff(s: Service, a: Action)
    requires ServiceOK(s) && Possible(s, a) && DistinctCids(s) && a.Allocate?
    ensures DistinctCids(Next(s, a)) <==> Apart(s, a)
  {
    var cid := Cid.FreeCid(HeldCids(s), a.base);
    FreeCidIsFree(HeldCids(s), a.base);
    if Cid.InRange(cid) {
      forall i | i != a.id && CidOf(s, i).Some? ensures CidOf(s, i) != Some(cid) {
        HeldIsCid(s, i);
      }
    }
    NewCidKeepsIff(s, Next(s, a), a.id, cid);
  }

  lemma ReassignKeepsIff(s: Service, a: Action)
    requires ServiceOK(s) && Possible(s, a) && DistinctCids(s) && a.ReassignCid?
    ensures DistinctCids(Next(s, a)) <==> Apart(s, a)
  {
    if s.entries[a.id].inMap {
      ReassignListedIff(s, a);
    } else {
      ReassignedUnlisted(s, a);
    }
  }

  lemma ReassignedUnlisted(s: Service, a: Action)
    requires Possible(s, a) && a.ReassignCid? && !s.entries[a.id].inMap
    ensures DistinctCids(Next(s, a)) <==> DistinctCids(s)
  {
    forall i ensures CidOf(Next(s, a), i) == CidOf(s, i) {
    }
  }

  lemma ReassignListedIff(s: Service, a: Action)
    requires ServiceOK(s) && Possible(s, a) && DistinctCids(s) && a.ReassignCid? && s.entries[a.id].inMap
    ensures DistinctCids(Next(s, a)) <==> FreeForAll(s, s.entries[a.id].rec.cid + 1)
  {
    var start := s.entries[a.id].rec.cid + 1;
    ReassignedCids(s, a);
    NewCidKeepsIff(s, Next(s, a), a.id, Cid.FreeCid(HeldCids(s), start));
    if Cid.InRange(Cid.FreeCid(HeldCids(s), start)) {
      OthersHaveIff(s, a.id, start);
    }
  }

  lemma ReassignedCids(s: Service, a: Action)
    requires Possible(s, a) && a.ReassignCid? && s.entries[a.id].inMap
    ensures CidOf(Next(s, a), a.id) == Some(Cid.FreeCid(HeldCids(s), s.entries[a.id].rec.cid + 1))
    ensures forall i :: i != a.id ==> CidOf(Next(s, a), i) == CidOf(s, i)
  {
  }

  /** A CID found free is another VM's exactly when a record still to be loaded has it. */
  lemma OthersHaveIff(s: Service, id: Id, start: nat)
    requires ServiceOK(s) && id in s.entries && Cid.InRange(Cid.FreeCid(HeldCids(s), start))
    ensures var cid := Cid.FreeCid(HeldCids(s), start);
            (forall i :: i != id ==> CidOf(s, i) != Some(cid)) <==> forall j :: j in s.pending ==> s.pending[j].cid != cid
  {
    var cid := Cid.FreeCid(HeldCids(s), start);
    FreeCidIsFree(HeldCids(s), start);
    forall i | CidOf(s, i) == Some(cid) ensures i in s.pending && s.pending[i].cid == cid {
      HeldIsCid(s, i);
    }
    forall j | j in s.pending ensures CidOf(s, j) == Some(s.pending[j].cid) {
      assert j !in s.entries;
    }
  }

  /** What a crash makes of a VM's CID: stored records keep theirs. */
  predicate CrashCid(s: Service, s': Service, id: Id) {
    && (CidOf(s', id).Some? <==> id in OnDisk(s))
    && (id in OnDisk(s) ==> CidOf(s', id) == Some(OnDisk(s)[id].cid))
    && (id in OnDisk(s) && !Returns(s, id) ==> CidOf(s, id) == CidOf(s', id))
    && (Returns(s, id) ==> id in OnDisk(s) && OnDisk(s)[id].cid == s.entries[id].rec.cid)
  }

  lemma CrashCids(s: Service, id: Id)
    requires ServiceOK(s)
    ensures CrashCid(s, Next(s, Crash), id)
  {
    if id in s.entries {
      assert EntryOK(s.entries[id], s.env);
    }
  }

  lemma ClashBreaks(s: Service, s': Service, id: Id)
    requires (forall i :: CrashCid(s, s', i)) && Returns(s, id) && !ReturnsAlone(s, id)
    ensures !DistinctCids(s')
  {
    assert CrashCid(s, s', id);
    if Cid.InRange(s.entries[id].rec.cid) {
      var j :| j in OnDisk(s) && j != id && OnDisk(s)[j].cid == s.entries[id].rec.cid;
      assert CrashCid(s, s', j);
    }
  }

  lemma AloneKeeps(s: Service, s': Service, i: Id, j: Id)
    requires DistinctCids(s) && CrashCid(s, s', i) && CrashCid(s, s', j) && i != j
    requires Returns(s, i) ==> ReturnsAlone(s, i)
    requires Returns(s, j) ==> ReturnsAlone(s, j)
    ensures CidOf(s', i).Some? ==> Cid.InRange(CidOf(s', i).value)
    ensures CidOf(s', i).Some? && CidOf(s', j).Some? ==> CidOf(s', i) != CidOf(s', j)
  {
  }

  lemma CrashKeepsIff(s: Service)
    requires ServiceOK(s) && DistinctCids(s)
    ensures DistinctCids(Next(s, Crash)) <==> Apart(s, Crash)
  {
    var s' := Next(s, Crash);
    forall id ensures CrashCid(s, s', id) {
      CrashCids(s, id);
    }
    if id :| Returns(s, id) && !ReturnsAlone(s, id) {
      ClashBreaks(s, s', id);
    } else {
      forall i, j | i != j
        ensures CidOf(s', i).Some? ==> Cid.InRange(CidOf(s', i).value)
        ensures CidOf(s', i).Some? && CidOf(s', j).Some? ==> CidOf(s', i) != CidOf(s', j)
      {
        AloneKeeps(s, s', i, j);
      }
      forall i ensures CidOf(s', i).Some? ==> Cid.InRange(CidOf(s', i).value) {
        AloneKeeps(s, s', i, i + "'");
      }
    }
  }

  /** From distinct CIDs, an action keeps them distinct if and only if it is apart. */
  lemma ActionKeepsCidsIff(s: Service, a: Action)
    requires ServiceOK(s) && Possible(s, a) && DistinctCids(s)
    ensures DistinctCids(Next(s, a)) <==> Apart(s, a)
  {
    if a.Allocate? {
      AllocateKeepsIff(s, a);
    } else if a.ReassignCid? {
      ReassignKeepsIff(s, a);
    } else if a.Crash? {
      CrashKeepsIff(s);
    } else {
      forall id ensures CidOf(Next(s, a), id).Some? ==> CidOf(Next(s, a), id) == CidOf(s, id) {
        OthersKeepCids(s, a, id);
      }
    }
  }

  lemma KeptAtIff(r: Run, i: nat)
    requires IsRun(r) && i < |r.actions| && DistinctCids(r.states[i])
    ensures DistinctCids(r.states[i + 1]) <==> Apart(r.states[i], r.actions[i])
  {
    EveryStateOK(r, i);
    assert StepAt(r, i);
    ActionKeepsCidsIff(r.states[i], r.actions[i]);
  }

  ghost predicate DistinctUpTo(r: Run, n: nat)
    requires n < |r.states|
  {
    forall k :: 0 <= k <= n ==> DistinctCids(r.states[k])
  }

  ghost predicate ApartUpTo(r: Run, n: nat)
    requires n <= |r.actions| < |r.states|
  {
    forall k :: 0 <= k < n ==> Apart(r.states[k], r.actions[k])
  }

  /** All records' CIDs are valid and pairwise distinct along a run if and only if its actions are apart. */
  lemma {:induction false} CidsDistinctIff(r: Run, n: nat)
    requires IsRun(r) && n < |r.states|
    ensures DistinctUpTo(r, n) <==> ApartUpTo(r, n)
  {
    if n > 0 {
      CidsDistinctIff(r, n - 1);
      if DistinctUpTo(r, n - 1) {
        KeptAtIff(r, n - 1);
        assert DistinctUpTo(r, n) <==> DistinctCids(r.states[n]);
        assert ApartUpTo(r, n) <==> Apart(r.states[n - 1], r.actions[n - 1]);
      } else {
        var k :| 0 <= k <= n - 1 && !DistinctCids(r.states[k]);
        var j :| 0 <= j < n - 1 && !Apart(r.states[j], r.actions[j]);
      }
    }
  }
}
