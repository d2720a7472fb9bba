/** internal/nonce: single-use, expiring, capped nonces per VM. */
module NonceStore {
  import opened Common

  const DEFAULT_TTL: int := 300
  const DEFAULT_MAX_PER_VM: nat := 8

  /** The outstanding nonces of one VM with their issue times, and of all VMs. */
  type Nonces = map<string, int>
  type Table = map<string, Nonces>

  function Of(t: Table, vm: string): Nonces {
    if vm in t then t[vm] else map[]
  }

  function Fresh(n: Nonces, now: int, ttl: int): Nonces {
    map k | k in n && now - n[k] <= ttl :: n[k]
  }

  /** A table without expired nonces and without VMs that have none left. */
  function Swept(t: Table, now: int, ttl: int): Table {
    map vm | vm in t && Fresh(t[vm], now, ttl) != map[] :: Fresh(t[vm], now, ttl)
  }

  predicate IsOldest(n: Nonces, k: string) {
    k in n && forall j :: j in n ==> n[k] <= n[j]
  }

  /** The nonce dropped to make room: none below the cap, an oldest one at it. */
  predicate LegalVictim(n: Nonces, max: nat, victim: Option<string>) {
    if |n| < max then victim.None? else victim.Some? && IsOldest(n, victim.value)
  }

  function Without(n: Nonces, victim: Option<string>): Nonces {
    if victim.Some? then n - {victim.value} else n
  }

  // ---------------------------------------------------------------- the operations on tables

  datatype Config = Config(ttl: int, max: nat)

  datatype Op =
    | Issue(vm: string, nonce: string, now: int, victim: Option<string>)
    | Consume(vm: string, nonce: string, now: int)
    | Forget(vm: string)

  function Dropped(t: Table, vm: string, nonce: string): Table {
    if vm in t then t[vm := t[vm] - {nonce}] else t
  }

  predicate Legal(t: Table, op: Op, c: Config) {
    op.Issue? ==> LegalVictim(Of(Swept(t, op.now, c.ttl), op.vm), c.max, op.victim)
  }

  function Apply(t: Table, op: Op, c: Config): Table {
    match op
    case Issue(vm, nonce, now, victim) =>
      var s := Swept(t, now, c.ttl);
      s[vm := Without(Of(s, vm), victim)[nonce := now]]
    case Consume(vm, nonce, now) => Swept(Dropped(t, vm, nonce), now, c.ttl)
    case Forget(vm) => t - {vm}
  }

  /** What Consume answers. */
  predicate Accepts(t: Table, vm: string, nonce: string, now: int, ttl: int) {
    nonce in Of(t, vm) && now - Of(t, vm)[nonce] <= ttl
  }

  // ---------------------------------------------------------------- the object

  class Store {
    const ttl: int
    const maxPerVM: nat
    var byVM: Table

    function Cfg(): Config {
      Config(ttl, maxPerVM)
    }

    ghost predicate Valid()
      reads this
    {
      ttl > 0 && maxPerVM > 0 && Capped(byVM, maxPerVM)
    }

    /** Options that are not positive keep the defaults. */
    constructor (withTTL: int, withMaxPerVM: int)
      ensures Valid() && byVM == map[]
      ensures ttl == if withTTL > 0 then withTTL else 300
      ensures maxPerVM == if withMaxPerVM > 0 then withMaxPerVM else 8
    {
      ttl := if withTTL > 0 then withTTL else DEFAULT_TTL;
      maxPerVM := if withMaxPerVM > 0 then withMaxPerVM else DEFAULT_MAX_PER_VM;
      byVM := map[];
    }

    /** Issue stores a fresh random nonce, dropping an oldest one first when the VM is at the cap. */
    method IssueNonce(vm: string, nonce: string, now: int) returns (ghost victim: Option<string>)
      requires Valid()
      modifies this
      ensures Valid()
      ensures Legal(old(byVM), Issue(vm, nonce, now, victim), Cfg())
      ensures byVM == Apply(old(byVM), Issue(vm, nonce, now, victim), Cfg())
    {
      Sweep(now);
      SweptCapped(old(byVM), now, ttl, maxPerVM);
      var issued := if vm in byVM then byVM[vm] else map[];
      ghost var before := issued;
      victim := None;
      while |issued| >= maxPerVM
        invariant byVM == Swept(old(byVM), now, ttl)
        invariant issued == Without(before, victim)
        invariant |before| <= maxPerVM
        invariant victim.Some? ==> |before| == maxPerVM && |issued| < maxPerVM && IsOldest(before, victim.value)
        decreases |issued|
      {
        var k := Oldest(issued);
        victim := Some(k);
        RemoveOne(issued, k);
        issued := issued - {k};
      }
      byVM := byVM[vm := issued[nonce := now]];
      IssueCapped(old(byVM), Issue(vm, nonce, now, victim), Cfg());
    }

    /** Consume reports whether the nonce was issued to the VM within the TTL and forgets it either way. */
    method ConsumeNonce(vm: string, nonce: string, now: int) returns (ok: bool)
      requires Valid()
      modifies this
      ensures Valid()
      ensures ok == Accepts(old(byVM), vm, nonce, now, ttl)
      ensures byVM == Apply(old(byVM), Consume(vm, nonce, now), Cfg())
    {
      var found := vm in byVM && nonce in byVM[vm];
      var issued := 0;
      if found {
        issued := byVM[vm][nonce];
        byVM := byVM[vm := byVM[vm] - {nonce}];
      }
      assert byVM == Dropped(old(byVM), vm, nonce) by {
        if vm in old(byVM) && !found {
          assert old(byVM)[vm] - {nonce} == old(byVM)[vm];
        }
      }
      DroppedCapped(old(byVM), vm, nonce, maxPerVM);
      SweptCapped(byVM, now, ttl, maxPerVM);
      Sweep(now);
      ok := found && now - issued <= ttl;
    }

    method ForgetVM(vm: string)
      requires Valid()
      modifies this
      ensures Valid() && byVM == Apply(old(byVM), Forget(vm), Cfg())
    {
      byVM := byVM - {vm};
    }

    /** sweepLocked: drops expired nonces and empty per-VM maps. */
    method Sweep(now: int)
      modifies this
      ensures byVM == Swept(old(byVM), now, ttl)
    {
      var vms := byVM.Keys;
      while vms != {}
        invariant vms <= byVM.Keys
        invariant forall vm :: vm in vms ==> vm in old(byVM) && byVM[vm] == old(byVM)[vm]
        invariant forall vm :: vm in byVM && vm !in vms ==> vm in Swept(old(byVM), now, ttl) && byVM[vm] == Swept(old(byVM), now, ttl)[vm]
        invariant forall vm :: vm in Swept(old(byVM), now, ttl) ==> vm in byVM
        decreases vms
      {
        var vm :| vm in vms;
        var issued := byVM[vm];
        var nonces := issued.Keys;
        while nonces != {}
          invariant nonces <= issued.Keys <= byVM[vm].Keys
          invariant forall k :: k in issued ==> issued[k] == byVM[vm][k]
          invariant forall k :: k in byVM[vm] && k !in nonces ==> (k in issued <==> now - byVM[vm][k] <= ttl)
          decreases nonces
        {
          var k :| k in nonces;
          if now - issued[k] > ttl {
            issued := issued - {k};
          }
          nonces := nonces - {k};
        }
        assert issued == Fresh(old(byVM)[vm], now, ttl);
        if |issued| == 0 {
          byVM := byVM - {vm};
        } else {
          byVM := byVM[vm := issued];
        }
        vms := vms - {vm};
      }
    }
  }

  /** oldest: a nonce with the earliest issue time. */
  method Oldest(issued: Nonces) returns (key: string)
    requires issued != map[]
    ensures IsOldest(issued, key)
  {
    var todo := issued.Keys;
    key :| key in todo;
    var at := issued[key];
    todo := todo - {key};
    while todo != {}
      invariant todo <= issued.Keys && key in issued && at == issued[key]
      invariant forall j :: j in issued && j !in todo ==> at <= issued[j]
      decreases todo
    {
      var k :| k in todo;
      if issued[k] < at {
        key, at := k, issued[k];
      }
      todo := todo - {k};
    }
  }

  // ---------------------------------------------------------------- the cap

  ghost predicate Capped(t: Table, max: nat) {
    forall vm :: vm in t ==> |t[vm]| <= max
  }

  lemma RemoveOne(n: Nonces, k: string)
    requires k in n
    ensures |n - {k}| == |n| - 1
  {
    assert (n - {k}).Keys == n.Keys - {k};
  }

  lemma FreshBounded(n: Nonces, now: int, ttl: int)
    ensures |Fresh(n, now, ttl)| <= |n|
    ensures |Fresh(n, now, ttl)| == |n| ==> Fresh(n, now, ttl) == n
  {
    var f := Fresh(n, now, ttl);
    assert f.Keys <= n.Keys;
    SubsetSize(f.Keys, n.Keys);
  }

  lemma SweptCapped(t: Table, now: int, ttl: int, max: nat)
    requires Capped(t, max)
    ensures Capped(Swept(t, now, ttl), max)
  {
    forall vm | vm in Swept(t, now, ttl) ensures |Swept(t, now, ttl)[vm]| <= max {
      FreshBounded(t[vm], now, ttl);
    }
  }

  lemma DroppedCapped(t: Table, vm: string, nonce: string, max: nat)
    requires Capped(t, max)
    ensures Capped(Dropped(t, vm, nonce), max)
  {
    if vm in t {
      SubsetSize((t[vm] - {nonce}).Keys, t[vm].Keys);
    }
  }

  lemma InsertBounded(n: Nonces, nonce: string, now: int)
    ensures |n[nonce := now]| <= |n| + 1
  {
    assert n[nonce := now].Keys == n.Keys + {nonce};
  }

  lemma IssueCapped(t: Table, op: Op, c: Config)
    requires Capped(t, c.max) && op.Issue? && Legal(t, op, c) && c.max > 0
    ensures Capped(Apply(t, op, c), c.max)
  {
    var s := Swept(t, op.now, c.ttl);
    SweptCapped(t, op.now, c.ttl, c.max);
    var n := Of(s, op.vm);
    if op.victim.Some? {
      RemoveOne(n, op.victim.value);
    }
    InsertBounded(Without(n, op.victim), op.nonce, op.now);
    forall vm | vm in Apply(t, op, c) ensures |Apply(t, op, c)[vm]| <= c.max {
      assert vm != op.vm ==> vm in s && Apply(t, op, c)[vm] == s[vm];
    }
  }

  /** No operation lets a VM hold more than the cap. */
  lemma ApplyCapped(t: Table, op: Op, c: Config)
    requires Capped(t, c.max) && Legal(t, op, c) && c.max > 0
    ensures Capped(Apply(t, op, c), c.max)
  {
    match op {
      case Issue(_, _, _, _) => IssueCapped(t, op, c);
      case Consume(vm, nonce, now) =>
        DroppedCapped(t, vm, nonce, c.max);
        SweptCapped(Dropped(t, vm, nonce), now, c.ttl, c.max);
      case Forget(_) =>
    }
  }
}
