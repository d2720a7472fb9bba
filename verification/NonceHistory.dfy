/** The nonce store against two independent references: its own operation log, and a store that never sweeps. */
module NonceHistory {
  import opened Common
  import opened NonceStore

  predicate Timed(op: Op) {
    !op.Forget?
  }

  /** The clock never runs backwards. */
  predicate Monotone(ops: seq<Op>) {
    forall i, j :: 0 <= i < j < |ops| && Timed(ops[i]) && Timed(ops[j]) ==> ops[i].now <= ops[j].now
  }

  /** `now` is not before any time of the log. */
  predicate NotBefore(ops: seq<Op>, now: int) {
    forall i :: 0 <= i < |ops| && Timed(ops[i]) ==> ops[i].now <= now
  }

  ghost predicate IsHistory(ts: seq<Table>, ops: seq<Op>, c: Config) {
    && |ts| == |ops| + 1 && ts[0] == map[] && c.max > 0 && Monotone(ops)
    && forall i :: 0 <= i < |ops| ==> Legal(ts[i], ops[i], c) && ts[i + 1] == Apply(ts[i], ops[i], c)
  }

  lemma HistoryPrefix(ts: seq<Table>, ops: seq<Op>, c: Config)
    requires IsHistory(ts, ops, c) && |ops| > 0
    ensures IsHistory(ts[..|ops|], ops[..|ops| - 1], c)
    ensures Timed(ops[|ops| - 1]) ==> NotBefore(ops[..|ops| - 1], ops[|ops| - 1].now)
  {
  }

  // ---------------------------------------------------------------- the log

  /** The operation ends the life of a nonce of this VM: consumed, forgotten, evicted, or issued anew. */
  predicate Ends(op: Op, vm: string, nonce: string) {
    op.vm == vm &&
    match op
    case Issue(_, n, _, victim) => n == nonce || victim == Some(nonce)
    case Consume(_, n, _) => n == nonce
    case Forget(_) => true
  }

  /** The `i`-th operation issued the nonce and nothing since ended it. */
  predicate OpenSince(ops: seq<Op>, i: nat, vm: string, nonce: string) {
    && i < |ops| && ops[i].Issue? && ops[i].vm == vm && ops[i].nonce == nonce
    && forall k :: i < k < |ops| ==> !Ends(ops[k], vm, nonce)
  }

  lemma OpenStep(ops: seq<Op>, i: nat, vm: string, nonce: string)
    requires |ops| > 0
    ensures i < |ops| - 1 ==> (OpenSince(ops, i, vm, nonce) <==>
              OpenSince(ops[..|ops| - 1], i, vm, nonce) && !Ends(ops[|ops| - 1], vm, nonce))
  {
    var rest := ops[..|ops| - 1];
    if i < |ops| - 1 && OpenSince(rest, i, vm, nonce) && !Ends(ops[|ops| - 1], vm, nonce) {
      forall k | i < k < |ops| ensures !Ends(ops[k], vm, nonce) {
        assert k < |ops| - 1 ==> ops[k] == rest[k];
      }
    }
    if i < |ops| - 1 && OpenSince(ops, i, vm, nonce) {
      forall k | i < k < |rest| ensures !Ends(rest[k], vm, nonce) {
        assert ops[k] == rest[k];
      }
    }
  }

  /** A nonce held after an operation was issued by it, or was held before with the same issue time. */
  lemma HeldStep(t: Table, op: Op, c: Config, vm: string, nonce: string)
    requires nonce in Of(Apply(t, op, c), vm)
    ensures || (op.Issue? && op.vm == vm && op.nonce == nonce && Of(Apply(t, op, c), vm)[nonce] == op.now)
            || (nonce in Of(t, vm) && Of(t, vm)[nonce] == Of(Apply(t, op, c), vm)[nonce] && !Ends(op, vm, nonce))
  {
  }

  /** A nonce the store holds was issued at the recorded time and is still open in the log. */
  lemma {:induction false} HeldIsOpen(ts: seq<Table>, ops: seq<Op>, c: Config, vm: string,
      nonce: string) returns (i: nat)
    requires IsHistory(ts, ops, c) && nonce in Of(ts[|ops|], vm)
    ensures OpenSince(ops, i, vm, nonce) && ops[i].now == Of(ts[|ops|], vm)[nonce]
  {
    var last := |ops| - 1;
    var op := ops[last];
    assert ts[last + 1] == Apply(ts[last], op, c);
    if op.Issue? && op.vm == vm && op.nonce == nonce {
      i := last;
    } else {
      HistoryPrefix(ts, ops, c);
      HeldStep(ts[last], op, c, vm, nonce);
      i := HeldIsOpen(ts[..|ops|], ops[..last], c, vm, nonce);
      OpenStep(ops, i, vm, nonce);
    }
  }

  /** A nonce open in the log is held by the store, unless it has expired by the time of some operation since. */
  lemma {:induction false} OpenIsHeld(ts: seq<Table>, ops: seq<Op>, c: Config, vm: string, nonce: string, i: nat)
    requires IsHistory(ts, ops, c) && OpenSince(ops, i, vm, nonce)
    ensures || (nonce in Of(ts[|ops|], vm) && Of(ts[|ops|], vm)[nonce] == ops[i].now)
            || exists k :: i < k < |ops| && Timed(ops[k]) && ops[k].now - ops[i].now > c.ttl
  {
    var last := |ops| - 1;
    assert ts[last + 1] == Apply(ts[last], ops[last], c);
    if i < last {
      HistoryPrefix(ts, ops, c);
      OpenStep(ops, i, vm, nonce);
      OpenIsHeld(ts[..|ops|], ops[..last], c, vm, nonce, i);
      if k :| i < k < last && Timed(ops[..last][k]) && ops[..last][k].now - ops[..last][i].now > c.ttl {
        assert Timed(ops[k]) && ops[k].now - ops[i].now > c.ttl;
      } else {
        KeptUnlessExpired(ts[last], ops[last], c, vm, nonce);
      }
    }
  }

  lemma KeptUnlessExpired(t: Table, op: Op, c: Config, vm: string, nonce: string)
    requires nonce in Of(t, vm) && !Ends(op, vm, nonce)
    ensures || (nonce in Of(Apply(t, op, c), vm) && Of(Apply(t, op, c), vm)[nonce] == Of(t, vm)[nonce])
            || (Timed(op) && op.now - Of(t, vm)[nonce] > c.ttl)
  {
  }

  /**
   * Consume answers true exactly when the nonce was issued to this VM at most the TTL ago and has
   * not been consumed, forgotten, evicted or issued anew since, whatever was swept in between.
   */
  lemma ConsumeIffOpen(ts: seq<Table>, ops: seq<Op>, c: Config, vm: string, nonce: string, now: int)
    requires IsHistory(ts, ops, c) && NotBefore(ops, now)
    ensures Accepts(ts[|ops|], vm, nonce, now, c.ttl) <==>
            exists i :: 0 <= i < |ops| && OpenSince(ops, i, vm, nonce) && now - ops[i].now <= c.ttl
  {
    if Accepts(ts[|ops|], vm, nonce, now, c.ttl) {
      var i := HeldIsOpen(ts, ops, c, vm, nonce);
      assert OpenSince(ops, i, vm, nonce) && now - ops[i].now <= c.ttl;
    }
    if i :| 0 <= i < |ops| && OpenSince(ops, i, vm, nonce) && now - ops[i].now <= c.ttl {
      OpenIsHeld(ts, ops, c, vm, nonce, i);
    }
  }

  /** Single use: between two accepted uses of a nonce it was issued again. */
  lemma AcceptedOncePerIssue(ts: seq<Table>, ops: seq<Op>, c: Config, j: nat, k: nat) returns (i: nat)
    requires IsHistory(ts, ops, c) && j < k < |ops| && ops[j].Consume? && ops[k].Consume?
    requires ops[j].vm == ops[k].vm && ops[j].nonce == ops[k].nonce
    requires Accepts(ts[k], ops[k].vm, ops[k].nonce, ops[k].now, c.ttl)
    ensures j < i < k && ops[i].Issue? && ops[i].vm == ops[k].vm && ops[i].nonce == ops[k].nonce
  {
    var vm, nonce := ops[k].vm, ops[k].nonce;
    var log := ops[..k];
    assert IsHistory(ts[..k + 1], log, c);
    i := HeldIsOpen(ts[..k + 1], log, c, vm, nonce);
    assert log[i] == ops[i] && log[j] == ops[j];
    assert Ends(log[j], vm, nonce);
    assert i != j;
  }

  /** No VM ever holds more nonces than the cap. */
  lemma {:induction false} NeverOverCap(ts: seq<Table>, ops: seq<Op>, c: Config, i: nat)
    requires IsHistory(ts, ops, c) && i < |ts|
    ensures Capped(ts[i], c.max)
  {
    if i > 0 {
      NeverOverCap(ts, ops, c, i - 1);
      ApplyCapped(ts[i - 1], ops[i - 1], c);
    }
  }

  // ---------------------------------------------------------------- a store that never sweeps

  function ApplyUnswept(u: Table, op: Op): Table {
    match op
    case Issue(vm, nonce, now, victim) => u[vm := Without(Of(u, vm), victim)[nonce := now]]
    case Consume(vm, nonce, _) => Dropped(u, vm, nonce)
    case Forget(vm) => u - {vm}
  }

  predicate LegalUnswept(u: Table, op: Op, max: nat) {
    op.Issue? ==> LegalVictim(Of(u, op.vm), max, op.victim)
  }

  /** The same request; only the nonce dropped to make room may differ. */
  predicate SameRequest(a: Op, b: Op) {
    match a
    case Issue(vm, nonce, now, _) => b.Issue? && b.vm == vm && b.nonce == nonce && b.now == now
    case _ => a == b
  }

  /** `s` holds what `u` holds, except for nonces issued before `bound`. */
  predicate Covers(s: Nonces, u: Nonces, bound: int) {
    && (forall k :: k in s ==> k in u && u[k] == s[k])
    && (forall k :: k in u && k !in s ==> u[k] < bound)
  }

  ghost predicate CoversAll(s: Table, u: Table, bound: int) {
    forall vm :: Covers(Of(s, vm), Of(u, vm), bound)
  }

  lemma OfSwept(t: Table, now: int, ttl: int, vm: string)
    ensures Of(Swept(t, now, ttl), vm) == Fresh(Of(t, vm), now, ttl)
  {
  }

  lemma FreshCovers(s: Nonces, u: Nonces, bound: int, now: int, ttl: int)
    requires Covers(s, u, bound) && bound <= now - ttl
    ensures Covers(Fresh(s, now, ttl), u, now - ttl)
  {
  }

  lemma {:induction false} OldestExists(n: Nonces) returns (k: string)
    requires n != map[]
    ensures IsOldest(n, k)
  {
    k :| k in n;
    var rest := n - {k};
    assert forall i :: i in n && i != k ==> i in rest;
    if rest != map[] {
      RemoveOne(n, k);
      var j := OldestExists(rest);
      assert forall i :: i in n && i != k ==> n[j] <= rest[i];
      if n[j] < n[k] {
        k := j;
      }
    }
  }

  lemma SomethingMissing<T>(a: set<T>, b: set<T>) returns (x: T)
    requires a <= b && |a| < |b|
    ensures x in b && x !in a
  {
    assert b == a + (b - a);
    x :| x in b - a;
  }

  /**
   * One VM at an issue: whatever the sweeping store drops, the store that never sweeps can drop
   * something that keeps the two in step; below the cap it drops only what has expired.
   */
  lemma DropInStep(f: Nonces, u: Nonces, bound: int, max: nat, victim: Option<string>) returns (dropped: Option<string>)
    requires Covers(f, u, bound) && |u| <= max && max > 0 && LegalVictim(f, max, victim)
    requires forall k :: k in f ==> bound <= f[k]
    ensures LegalVictim(u, max, dropped) && Covers(Without(f, victim), Without(u, dropped), bound)
  {
    SubsetSize(f.Keys, u.Keys);
    if |u| < max {
      dropped := None;
    } else if |f| == max {
      assert f == u;
      dropped := victim;
    } else {
      var w := OldestExists(u);
      dropped := Some(w);
      var x := SomethingMissing(f.Keys, u.Keys);
      assert u[w] <= u[x] < bound;
    }
  }

  lemma IssueInStep(s: Nonces, u: Nonces, now: int, ttl: int, max: nat, victim: Option<string>, nonce: string)
      returns (dropped: Option<string>)
    requires Covers(Fresh(s, now, ttl), u, now - ttl) && |u| <= max && max > 0
    requires LegalVictim(Fresh(s, now, ttl), max, victim)
    ensures LegalVictim(u, max, dropped)
    ensures Covers(Without(Fresh(s, now, ttl), victim)[nonce := now], Without(u, dropped)[nonce := now], now - ttl)
    ensures |Without(u, dropped)[nonce := now]| <= max
  {
    dropped := DropInStep(Fresh(s, now, ttl), u, now - ttl, max, victim);
    if dropped.Some? {
      RemoveOne(u, dropped.value);
    }
    InsertBounded(Without(u, dropped), nonce, now);
  }

  lemma OfUpdate(t: Table, vm: string, n: Nonces, x: string)
    ensures Of(t[vm := n], x) == if x == vm then n else Of(t, x)
  {
  }

  lemma UnsweptStepIssue(t: Table, u: Table, op: Op, c: Config, bound: int) returns (op': Op)
    requires op.Issue? && Legal(t, op, c) && c.max > 0
    requires CoversAll(t, u, bound) && Capped(u, c.max) && bound <= op.now - c.ttl
    ensures SameRequest(op, op') && LegalUnswept(u, op', c.max)
    ensures CoversAll(Apply(t, op, c), ApplyUnswept(u, op'), op.now - c.ttl)
    ensures Capped(ApplyUnswept(u, op'), c.max)
  {
    var s := Swept(t, op.now, c.ttl);
    OfSwept(t, op.now, c.ttl, op.vm);
    FreshCovers(Of(t, op.vm), Of(u, op.vm), bound, op.now, c.ttl);
    var dropped := IssueInStep(Of(t, op.vm), Of(u, op.vm), op.now, c.ttl, c.max, op.victim, op.nonce);
    op' := op.(victim := dropped);
    forall vm ensures Covers(Of(Apply(t, op, c), vm), Of(ApplyUnswept(u, op'), vm), op.now - c.ttl) {
      OfSwept(t, op.now, c.ttl, vm);
      FreshCovers(Of(t, vm), Of(u, vm), bound, op.now, c.ttl);
      OfUpdate(s, op.vm, Apply(t, op, c)[op.vm], vm);
      OfUpdate(u, op.vm, ApplyUnswept(u, op')[op.vm], vm);
    }
  }

  lemma UnsweptStepConsume(t: Table, u: Table, op: Op, c: Config, bound: int)
    requires op.Consume? && CoversAll(t, u, bound) && Capped(u, c.max) && bound <= op.now - c.ttl
    ensures SameAnswer(t, u, op, c.ttl)
    ensures CoversAll(Apply(t, op, c), ApplyUnswept(u, op), op.now - c.ttl)
    ensures Capped(ApplyUnswept(u, op), c.max)
  {
    assert Covers(Of(t, op.vm), Of(u, op.vm), bound);
    DroppedCapped(u, op.vm, op.nonce, c.max);
    var d := Dropped(t, op.vm, op.nonce);
    forall vm ensures Covers(Of(Apply(t, op, c), vm), Of(ApplyUnswept(u, op), vm), op.now - c.ttl) {
      DroppedCovers(t, u, op.vm, op.nonce, bound, vm);
      OfSwept(d, op.now, c.ttl, vm);
      FreshCovers(Of(d, vm), Of(ApplyUnswept(u, op), vm), bound, op.now, c.ttl);
    }
  }

  lemma DroppedCovers(t: Table, u: Table, vm: string, nonce: string, bound: int, x: string)
    requires CoversAll(t, u, bound)
    ensures Covers(Of(Dropped(t, vm, nonce), x), Of(Dropped(u, vm, nonce), x), bound)
  {
    assert Covers(Of(t, x), Of(u, x), bound);
  }

  ghost predicate IsUnsweptHistory(us: seq<Table>, ops: seq<Op>, max: nat) {
    && |us| == |ops| + 1 && us[0] == map[]
    && forall i :: 0 <= i < |ops| ==> LegalUnswept(us[i], ops[i], max) && us[i + 1] == ApplyUnswept(us[i], ops[i])
  }

  ghost predicate SameAnswers(ts: seq<Table>, us: seq<Table>, ops: seq<Op>, ttl: int)
    requires |ts| == |us| == |ops| + 1
  {
    forall i :: 0 <= i < |ops| ==> SameAnswer(ts[i], us[i], ops[i], ttl)
  }

  predicate SameAnswer(t: Table, u: Table, op: Op, ttl: int) {
    op.Consume? ==> Accepts(t, op.vm, op.nonce, op.now, ttl) == Accepts(u, op.vm, op.nonce, op.now, ttl)
  }

  ghost predicate SameRequests(a: seq<Op>, b: seq<Op>) {
    |a| == |b| && forall i :: 0 <= i < |a| ==> SameRequest(a[i], b[i])
  }

  /** One more request keeps the two stores in step and answers alike. */
  lemma UnsweptStep(t: Table, u: Table, op: Op, c: Config, bound: int) returns (op': Op, bound': int)
    requires Legal(t, op, c) && c.max > 0 && CoversAll(t, u, bound) && Capped(u, c.max)
    requires Timed(op) ==> bound <= op.now - c.ttl
    ensures SameRequest(op, op') && LegalUnswept(u, op', c.max)
    ensures SameAnswer(t, u, op, c.ttl)
    ensures CoversAll(Apply(t, op, c), ApplyUnswept(u, op'), bound') && Capped(ApplyUnswept(u, op'), c.max)
    ensures bound' == if Timed(op) then op.now - c.ttl else bound
  {
    bound' := if Timed(op) then op.now - c.ttl else bound;
    match op {
      case Issue(_, _, _, _) => op' := UnsweptStepIssue(t, u, op, c, bound);
      case Consume(_, _, _) =>
        op' := op;
        UnsweptStepConsume(t, u, op, c, bound);
      case Forget(f) =>
        op' := op;
        forall vm ensures Covers(Of(t - {f}, vm), Of(u - {f}, vm), bound) {
          assert Covers(Of(t, vm), Of(u, vm), bound);
        }
    }
  }

  /**
   * Sweeping changes no answer: for every history of the store there is one of a store that never
   * sweeps, serving the same requests under the same cap, in which every Consume answers the same.
   */
  lemma SweepingIsInvisible(ts: seq<Table>, ops: seq<Op>, c: Config) returns (us: seq<Table>, ops': seq<Op>)
    requires IsHistory(ts, ops, c)
    ensures |us| == |ops| + 1 && IsUnsweptHistory(us, ops', c.max) && SameRequests(ops, ops')
    ensures SameAnswers(ts, us, ops, c.ttl)
  {
    var start := EarliestTime(ops);
    var bound;
    us, ops', bound := InStep(ts, ops, c, start);
  }

  lemma {:induction false} EarliestTime(ops: seq<Op>) returns (start: int)
    ensures forall i :: 0 <= i < |ops| && Timed(ops[i]) ==> start <= ops[i].now
  {
    start := 0;
    if |ops| > 0 {
      start := EarliestTime(ops[1..]);
      assert forall i :: 1 <= i < |ops| ==> ops[i] == ops[1..][i - 1];
      if Timed(ops[0]) && ops[0].now < start {
        start := ops[0].now;
      }
    }
  }

  lemma UnsweptExtend(us: seq<Table>, ops: seq<Op>, max: nat, op: Op)
    requires IsUnsweptHistory(us, ops, max) && LegalUnswept(us[|ops|], op, max)
    ensures IsUnsweptHistory(us + [ApplyUnswept(us[|ops|], op)], ops + [op], max)
  {
    var us', ops' := us + [ApplyUnswept(us[|ops|], op)], ops + [op];
    forall i | 0 <= i < |ops'| ensures LegalUnswept(us'[i], ops'[i], max) && us'[i + 1] == ApplyUnswept(us'[i], ops'[i]) {
      if i < |ops| {
        assert us'[i] == us[i] && us'[i + 1] == us[i + 1] && ops'[i] == ops[i];
      }
    }
  }

  lemma AnswersExtend(ts: seq<Table>, us: seq<Table>, ops: seq<Op>, ttl: int, u: Table)
    requires |ops| > 0 && |ts| == |ops| + 1 && |us| == |ops|
    requires SameAnswers(ts[..|ops|], us, ops[..|ops| - 1], ttl)
    requires SameAnswer(ts[|ops| - 1], us[|ops| - 1], ops[|ops| - 1], ttl)
    ensures SameAnswers(ts, us + [u], ops, ttl)
  {
    forall i | 0 <= i < |ops| ensures SameAnswer(ts[i], (us + [u])[i], ops[i], ttl) {
      if i < |ops| - 1 {
        assert SameAnswer(ts[..|ops|][i], us[i], ops[..|ops| - 1][i], ttl);
      }
    }
  }

  lemma RequestsExtend(ops: seq<Op>, ops': seq<Op>, op': Op)
    requires |ops| > 0 && SameRequests(ops[..|ops| - 1], ops') && SameRequest(ops[|ops| - 1], op')
    ensures SameRequests(ops, ops' + [op'])
  {
    forall i | 0 <= i < |ops| ensures SameRequest(ops[i], (ops' + [op'])[i]) {
      if i < |ops| - 1 {
        assert SameRequest(ops[..|ops| - 1][i], ops'[i]);
      }
    }
  }

  lemma {:induction false} InStep(ts: seq<Table>, ops: seq<Op>, c: Config, start: int)
      returns (us: seq<Table>, ops': seq<Op>, bound: int)
    requires IsHistory(ts, ops, c)
    requires forall i :: 0 <= i < |ops| && Timed(ops[i]) ==> start <= ops[i].now
    ensures |us| == |ops| + 1 && IsUnsweptHistory(us, ops', c.max) && SameRequests(ops, ops')
    ensures SameAnswers(ts, us, ops, c.ttl)
    ensures CoversAll(ts[|ops|], us[|ops|], bound) && Capped(us[|ops|], c.max)
    ensures forall now :: start <= now && NotBefore(ops, now) ==> bound <= now - c.ttl
  {
    if |ops| == 0 {
      us, ops', bound := [map[]], [], start - c.ttl;
    } else {
      var last := |ops| - 1;
      HistoryPrefix(ts, ops, c);
      us, ops', bound := InStep(ts[..|ops|], ops[..last], c, start);
      var op', bound' := UnsweptStep(ts[last], us[last], ops[last], c, bound);
      UnsweptExtend(us, ops', c.max, op');
      AnswersExtend(ts, us, ops, c.ttl, ApplyUnswept(us[last], op'));
      RequestsExtend(ops, ops', op');
      forall now | start <= now && NotBefore(ops, now) ensures bound' <= now - c.ttl {
        assert Timed(ops[last]) ==> ops[last].now <= now;
        assert NotBefore(ops[..last], now);
      }
      us, ops', bound := us + [ApplyUnswept(us[last], op')], ops' + [op'], bound';
    }
  }
}
