/** vsock context ids: the wrap-around search of the VM service (internal/vm/lifecycle.go). */
module Cid {

  const MIN_CID: nat := 3
  const MAX_CID: nat := 0xFFFF_FFFE
  const SPAN: nat := MAX_CID - MIN_CID

  newtype uint32 = x: int | 0 <= x < 0x1_0000_0000
  newtype uint64 = x: int | 0 <= x < 0x1_0000_0000_0000_0000

  predicate InRange(cid: nat) {
    MIN_CID <= cid < MAX_CID
  }

  /** Where the scan begins: a start outside the valid range falls back to the first CID. */
  function Origin(start: nat): (s: nat)
    ensures InRange(s)
  {
    if start < MIN_CID || start >= MAX_CID then MIN_CID else start
  }

  /** The `i`-th CID in cyclic order from `start`. */
  function Candidate(start: nat, i: nat): (cid: nat)
    ensures InRange(cid)
  {
    MIN_CID + (Origin(start) - MIN_CID + i) % SPAN
  }

  /** How far after `start`, cyclically, `cid` comes. */
  function Distance(start: nat, cid: nat): (i: nat)
    requires InRange(cid)
    ensures i < SPAN && Candidate(start, i) == cid
  {
    if cid >= Origin(start) then cid - Origin(start) else cid - Origin(start) + SPAN
  }

  /** `cid` is free and every CID cyclically between `start` and it is taken. */
  ghost predicate IsFirstFree(used: set<nat>, start: nat, cid: nat) {
    InRange(cid) && cid !in used &&
    forall c :: InRange(c) && c !in used ==> Distance(start, cid) <= Distance(start, c)
  }

  ghost predicate Exhausted(used: set<nat>) {
    forall c :: InRange(c) ==> c in used
  }

  /** What the search answers: the first free CID, MAX_CID when none is left. */
  ghost function FreeCid(used: set<nat>, start: nat): (cid: nat)
    ensures Exhausted(used) ==> cid == MAX_CID
    ensures !Exhausted(used) ==> IsFirstFree(used, start, cid)
  {
    if Exhausted(used) then MAX_CID
    else
      LeastExists(used, start, 0);
      var cid :| IsFirstFree(used, start, cid); cid
  }

  lemma LeastExists(used: set<nat>, start: nat, i: nat)
    requires i < SPAN
    requires forall j :: 0 <= j < i ==> Candidate(start, j) in used
    requires !Exhausted(used)
    ensures exists cid :: IsFirstFree(used, start, cid)
    decreases SPAN - i
  {
    var c := Candidate(start, i);
    if c !in used {
      DistanceOfCandidate(start, i);
      forall d | InRange(d) && d !in used ensures Distance(start, c) <= Distance(start, d) {
        assert Candidate(start, Distance(start, d)) == d;
      }
      assert IsFirstFree(used, start, c);
    } else if i + 1 < SPAN {
      LeastExists(used, start, i + 1);
    } else {
      forall d | InRange(d) ensures d in used {
        assert Candidate(start, Distance(start, d)) == d;
      }
      assert false;
    }
  }

  lemma DistanceOfCandidate(start: nat, i: nat)
    requires i < SPAN
    ensures Distance(start, Candidate(start, i)) == i
  {
  }

  /** The answer is unique, so the scan below and the specification cannot differ. */
  lemma FirstFreeUnique(used: set<nat>, start: nat, a: nat, b: nat)
    requires IsFirstFree(used, start, a) && IsFirstFree(used, start, b)
    ensures a == b
  {
    assert Candidate(start, Distance(start, a)) == a;
    assert Candidate(start, Distance(start, b)) == b;
  }

  lemma {:induction false} RangeCardinality(lo: nat, hi: nat, s: set<nat>)
    requires lo <= hi
    requires forall c :: lo <= c < hi ==> c in s
    ensures |s| >= hi - lo
    decreases hi - lo
  {
    if lo < hi {
      RangeCardinality(lo + 1, hi, s - {lo});
    }
  }

  /** Pigeonhole: fewer holders than CIDs leave one free. */
  lemma RoomLeft(used: set<nat>)
    requires |used| < SPAN
    ensures !Exhausted(used)
  {
    if Exhausted(used) {
      RangeCardinality(MIN_CID, MAX_CID, used);
    }
  }

  /** freeCIDFrom: the bounded-integer scan finds exactly the first free CID, never overflowing. */
  method FreeCIDFrom(held: map<string, uint32>, from: uint32) returns (cid: uint32)
    ensures cid as nat == FreeCid(set id | id in held :: held[id] as nat, from as nat)
  {
    var used: set<uint32> := {};
    var todo := held.Keys;
    while todo != {}
      invariant todo <= held.Keys
      invariant used == set id | id in held.Keys - todo :: held[id]
      decreases todo
    {
      var id :| id in todo;
      used := used + {held[id]};
      todo := todo - {id};
    }
    ghost var taken := set id | id in held :: held[id] as nat;
    assert forall c: uint32 :: c in used <==> c as nat in taken;
    var start := from;
    if start < MIN_CID as uint32 || start >= MAX_CID as uint32 {
      start := MIN_CID as uint32;
    }
    var span := SPAN as uint64;
    ghost var at := from as nat;
    var i: uint64 := 0;
    while i < span
      invariant i <= span
      invariant forall j :: 0 <= j < i as nat ==> Candidate(at, j) in taken
    {
      cid := MIN_CID as uint32 + (((start - MIN_CID as uint32) as uint64 + i) % span) as uint32;
      assert cid as nat == Candidate(at, i as nat);
      if cid !in used {
        FoundFirst(taken, at, i as nat);
        return;
      }
      i := i + 1;
    }
    NoneFound(taken, at);
    cid := MAX_CID as uint32;
  }

  lemma FoundFirst(used: set<nat>, start: nat, i: nat)
    requires i < SPAN && Candidate(start, i) !in used
    requires forall j :: 0 <= j < i ==> Candidate(start, j) in used
    ensures FreeCid(used, start) == Candidate(start, i)
  {
    var c := Candidate(start, i);
    DistanceOfCandidate(start, i);
    forall d | InRange(d) && d !in used ensures Distance(start, c) <= Distance(start, d) {
      assert Candidate(start, Distance(start, d)) == d;
    }
    FirstFreeUnique(used, start, c, FreeCid(used, start));
  }

  lemma NoneFound(used: set<nat>, start: nat)
    requires forall j :: 0 <= j < SPAN ==> Candidate(start, j) in used
    ensures Exhausted(used)
  {
    forall d | InRange(d) ensures d in used {
      assert Candidate(start, Distance(start, d)) == d;
    }
  }
}
